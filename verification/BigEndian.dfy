/** Machine integers as the codec uses them: bytes, 64-bit words and big-endian
    byte strings. */
module BigEndian {
  import opened Basics

  type byte = x: int | 0 <= x < 0x100
  type uint64 = Word

  /** The truncating conversion `byte(n)`. */
  function ToByte(n: int): byte { n % 0x100 }

  function Pow256(k: nat): (p: nat)
    ensures p > 0
  {
    if k == 0 then 1 else 256 * Pow256(k - 1)
  }

  /** The number a big-endian byte string stands for. */
  function FromBE(b: seq<byte>): nat {
    if b == [] then 0 else FromBE(b[..|b| - 1]) * 256 + b[|b| - 1]
  }

  /** The shortest big-endian byte string of a number; empty for zero. */
  function ToBE(n: nat): seq<byte> {
    if n == 0 then [] else ToBE(n / 256) + [n % 256]
  }

  /** `bits.Len64`. */
  function BitLen(n: nat): nat {
    if n == 0 then 0 else 1 + BitLen(n / 2)
  }

  lemma {:induction false} FromToBE(n: nat)
    ensures FromBE(ToBE(n)) == n
  {
    if n != 0 {
      FromToBE(n / 256);
      assert ToBE(n)[..|ToBE(n)| - 1] == ToBE(n / 256);
    }
  }

  lemma {:induction false} ToBELeads(n: nat)
    ensures n > 0 ==> ToBE(n) != [] && ToBE(n)[0] != 0
  {
    if n >= 256 { ToBELeads(n / 256); }
    else if n > 0 { assert ToBE(n) == [n]; }
  }

  /** Without a leading zero, the byte string is the shortest one. */
  lemma {:induction false} ToFromBE(b: seq<byte>)
    requires b != [] ==> b[0] != 0
    ensures ToBE(FromBE(b)) == b
    ensures b != [] ==> FromBE(b) > 0
  {
    if b != [] {
      var front := b[..|b| - 1];
      ToFromBE(front);
      assert b == front + [b[|b| - 1]];
      assert FromBE(b) / 256 == FromBE(front);
    }
  }

  lemma {:induction false} FromBEBound(b: seq<byte>)
    ensures FromBE(b) < Pow256(|b|)
  {
    if b != [] { FromBEBound(b[..|b| - 1]); }
  }

  lemma {:induction false} ToBELength(n: nat, k: nat)
    ensures |ToBE(n)| <= k <==> n < Pow256(k)
  {
    if n != 0 && k != 0 { ToBELength(n / 256, k - 1); }
  }

  lemma {:induction false} LeadingZeros(k: nat, b: seq<byte>)
    ensures FromBE(seq(k, _ => 0) + b) == FromBE(b)
  {
    var z: seq<byte> := seq(k, _ => 0);
    if b != [] {
      LeadingZeros(k, b[..|b| - 1]);
      assert (z + b)[..|z + b| - 1] == z + b[..|b| - 1];
    } else if k != 0 {
      LeadingZeros(k - 1, b);
      assert (z + b)[..|z + b| - 1] == seq(k - 1, _ => 0) + b;
    }
  }

  /** 2^64 is eight bytes' worth. */
  lemma WordIsEightBytes()
    ensures Pow256(8) == WORD
  {
    assert Pow256(4) == 0x1_0000_0000;
    assert Pow256(8) == 256 * 256 * 256 * 256 * Pow256(4);
  }

  lemma WordBytes(n: nat)
    ensures |ToBE(n)| <= 8 <==> n < WORD
  {
    ToBELength(n, 8);
    WordIsEightBytes();
  }

  /** (bits.Len64(n)+7)/8 counts the bytes of the shortest form. */
  lemma {:induction false} BitLenBytes(n: nat)
    ensures (BitLen(n) + 7) / 8 == |ToBE(n)|
    ensures n > 0 ==> BitLen(n) > 0
  {
    if n >= 256 {
      BitLenBytes(n / 256);
      BitLenShift8(n);
    } else if n > 0 {
      assert ToBE(n / 256) == [];
      BitLenSmall(n);
    }
  }

  lemma BitLenSmall(n: nat)
    requires 0 < n < 256
    ensures 1 <= BitLen(n) <= 8
  {
    assert BitLen(n) == 1 + BitLen(n / 2);
    assert n / 16 < 16;
    BitLenLe(n, 8);
  }

  lemma {:induction false} BitLenLe(n: nat, k: nat)
    requires n < 256 && k <= 8
    requires k == 8 || (k == 7 && n < 128) || (k == 6 && n < 64) || (k == 5 && n < 32) || (k == 4 && n < 16)
          || (k == 3 && n < 8) || (k == 2 && n < 4) || (k == 1 && n < 2) || (k == 0 && n == 0)
    ensures BitLen(n) <= k
  {
    if k > 0 && n > 0 { BitLenLe(n / 2, k - 1); }
  }

  lemma BitLenShift8(n: nat)
    requires n >= 256
    ensures BitLen(n) == 8 + BitLen(n / 256)
  {
    var a := n / 2; var b := a / 2; var c := b / 2; var d := c / 2;
    var e := d / 2; var f := e / 2; var g := f / 2; var h := g / 2;
    assert BitLen(n) == 1 + BitLen(a);
    assert BitLen(a) == 1 + BitLen(b);
    assert BitLen(b) == 1 + BitLen(c);
    assert BitLen(c) == 1 + BitLen(d);
    assert BitLen(d) == 1 + BitLen(e);
    assert BitLen(e) == 1 + BitLen(f);
    assert BitLen(f) == 1 + BitLen(g);
    assert BitLen(g) == 1 + BitLen(h);
    assert h == n / 256;
  }
}
