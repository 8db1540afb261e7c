/** Small definitions shared by the other modules. */
module Basics {

  /** Unsigned 64-bit arithmetic is modulo this. */
  const WORD: nat := 0x1_0000_0000_0000_0000

  type Word = n: int | 0 <= n < WORD

  /** Subtraction of 64-bit values. */
  function Minus(a: Word, b: Word): Word { if a >= b then a - b else a - b + WORD }

  /** Addition of 64-bit values. */
  function Plus(a: Word, b: Word): Word { if a + b < WORD then a + b else a + b - WORD }

  datatype Option<T> = None | Some(value: T)

  function Ones(b: bool): nat { if b then 1 else 0 }

  function Min(a: int, b: int): int { if a < b then a else b }

  function Max(a: int, b: int): int { if a < b then b else a }

  lemma {:induction false} SubsetSize<T>(a: set<T>, b: set<T>)
    requires a <= b
    ensures |a| <= |b|
  {
    if a != {} {
      var x :| x in a;
      SubsetSize(a - {x}, b - {x});
    }
  }
}
