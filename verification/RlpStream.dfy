/** The stream decoder of rlp/decode.go: a byte reader, an optional input limit, the kind
    of the value ahead, and a stack with the position inside each open list. */
module RlpStream {
  import opened Basics
  import opened BigEndian
  import opened RlpSpec
  import opened RlpRaw
  import opened RlpEncode

  // ------------------------------------------------------------------ positions

  datatype ListPos = ListPos(pos: nat, size: nat)

  /** Where a stream is: reader position, bytes left under the limit, open lists. */
  datatype Cursor = Cursor(rpos: nat, remaining: nat, stack: seq<ListPos>)

  function Top(s: seq<ListPos>): ListPos
    requires s != []
  {
    s[|s| - 1]
  }

  function Below(s: seq<ListPos>): seq<ListPos>
    requires s != []
  {
    s[..|s| - 1]
  }

  /** Every frame is inside its list, and every inner list inside what the outer one has left. */
  ghost predicate Nested(s: seq<ListPos>) {
    s != [] ==>
      && Top(s).pos <= Top(s).size < WORD
      && Nested(Below(s))
      && (Below(s) != [] ==> Top(Below(s)).pos + Top(s).size <= Top(Below(s)).size)
  }

  lemma OuterFrame(s: seq<ListPos>)
    requires Nested(s) && s != []
    ensures Below(s) != [] ==>
              Top(Below(s)).pos + Top(s).size <= Top(Below(s)).size < WORD
  {
  }

  /** The bytes the open lists still need: what the outermost has left, less what the
      inner ones have already read of it. */
  ghost function Owed(s: seq<ListPos>): int {
    if s == [] then 0
    else if |s| == 1 then s[0].size - s[0].pos
    else Owed(Below(s)) - Top(s).pos
  }

  lemma {:induction false} TopWithinOwed(s: seq<ListPos>)
    requires s != [] && Nested(s)
    ensures 0 <= Top(s).size - Top(s).pos <= Owed(s)
  {
    if |s| > 1 { TopWithinOwed(Below(s)); }
  }

  /** The invariant of every stream over `total` bytes of input and, if limited, at most `limit`. */
  ghost predicate Sound(c: Cursor, limited: bool, total: nat, limit: nat) {
    && c.rpos <= total
    && Nested(c.stack)
    && (limited ==> Owed(c.stack) <= c.remaining && c.rpos + c.remaining <= limit)
  }

  /** `willRead` lets `n` bytes pass. */
  predicate Allows(c: Cursor, limited: bool, n: nat) {
    && (c.stack != [] ==> Top(c.stack).pos + n <= Top(c.stack).size)
    && (c.stack == [] && limited ==> n <= c.remaining)
  }

  function Advance(s: seq<ListPos>, n: nat): seq<ListPos> {
    if s == [] then [] else Below(s) + [ListPos(Top(s).pos + n, Top(s).size)]
  }

  /** Reading `n` bytes. */
  function Skip(c: Cursor, limited: bool, n: nat): Cursor
    requires limited ==> n <= c.remaining
  {
    Cursor(c.rpos + n, if limited then c.remaining - n else c.remaining, Advance(c.stack, n))
  }

  lemma AdvanceNested(s: seq<ListPos>, n: nat)
    requires Nested(s) && (s != [] ==> Top(s).pos + n <= Top(s).size)
    ensures Nested(Advance(s, n))
    ensures s != [] ==> Owed(Advance(s, n)) == Owed(s) - n
    ensures s != [] ==> n <= Owed(s)
  {
    if s != [] {
      TopWithinOwed(s);
      assert Below(Advance(s, n)) == Below(s);
    }
  }

  lemma {:induction false} OwedNonNegative(s: seq<ListPos>)
    requires Nested(s)
    ensures Owed(s) >= 0
  {
    if s != [] { TopWithinOwed(s); }
  }

  /** Reading keeps the invariant, also when only some of the n bytes were there and the reader is now at p. */
  lemma SkipSound(c: Cursor, limited: bool, total: nat, limit: nat, n: nat, p: nat)
    requires Sound(c, limited, total, limit) && Allows(c, limited, n) && c.rpos <= p <= total && p <= c.rpos + n
    ensures limited ==> n <= c.remaining
    ensures Sound(Cursor(p, if limited then c.remaining - n else c.remaining, Advance(c.stack, n)), limited, total,
                  limit)
  {
    AdvanceNested(c.stack, n);
  }

  lemma NoSkip(c: Cursor, limited: bool)
    ensures Skip(c, limited, 0) == c
  {
  }

  /** What is allowed after m bytes is what is allowed before, less those. */
  lemma AllowsSkip(c: Cursor, limited: bool, m: nat, n: nat)
    requires Allows(c, limited, m) && (limited ==> m <= c.remaining)
    ensures Allows(Skip(c, limited, m), limited, n) <==> Allows(c, limited, m + n)
  {
  }

  lemma SkipSkip(c: Cursor, limited: bool, m: nat, n: nat)
    requires limited ==> m + n <= c.remaining
    ensures Skip(Skip(c, limited, m), limited, n) == Skip(c, limited, m + n)
  {
    if c.stack != [] {
      assert Below(Advance(c.stack, m)) == Below(c.stack);
    }
  }

  function Push(c: Cursor, size: nat): Cursor { c.(stack := c.stack + [ListPos(0, size)]) }

  lemma PushSound(c: Cursor, limited: bool, total: nat, limit: nat, size: nat)
    requires Sound(c, limited, total, limit) && Allows(c, limited, size) && size < WORD
    ensures Sound(Push(c, size), limited, total, limit)
  {
    var s := c.stack + [ListPos(0, size)];
    assert Below(s) == c.stack;
  }

  /** Back to the enclosing list, which has now read the inner one. */
  function Pop(c: Cursor): Cursor
    requires c.stack != []
  {
    c.(stack := Advance(Below(c.stack), Top(c.stack).size))
  }

  lemma PopSound(c: Cursor, limited: bool, total: nat, limit: nat)
    requires Sound(c, limited, total, limit)
    requires c.stack != [] && Top(c.stack).pos == Top(c.stack).size
    ensures Sound(Pop(c), limited, total, limit)
  {
    var s := c.stack;
    AdvanceNested(Below(s), Top(s).size);
    OwedNonNegative(s);
  }

  lemma PopAfterSkip(c: Cursor, limited: bool, n: nat)
    requires limited ==> n <= c.remaining
    ensures Pop(Skip(Push(c, n), limited, n)) == Skip(c, limited, n)
  {
    var s := c.stack + [ListPos(0, n)];
    assert Below(s) == c.stack;
    assert Below(Advance(s, n)) == c.stack;
  }

  // -------------------------------------------------------------------- windows

  /** The innermost list reaches no further than the limit. */
  ghost predicate InStep(c: Cursor, limited: bool, total: nat) {
    && c.rpos <= total
    && (c.stack != [] ==> Top(c.stack).pos <= Top(c.stack).size)
    && (c.stack != [] && limited ==> Top(c.stack).size - Top(c.stack).pos <= c.remaining)
  }

  /** How many bytes are both there and allowed by list and limit. */
  ghost function Reach(c: Cursor, limited: bool, total: nat): (n: nat)
    requires InStep(c, limited, total)
    ensures c.rpos + n <= total
  {
    if c.stack != [] then Min(Top(c.stack).size - Top(c.stack).pos, total - c.rpos)
    else if limited then Min(c.remaining, total - c.rpos)
    else total - c.rpos
  }

  /** The input a value at `c` may be read from. */
  ghost function Window(input: seq<byte>, limited: bool, c: Cursor): seq<byte>
    requires InStep(c, limited, |input|)
  {
    input[c.rpos..c.rpos + Reach(c, limited, |input|)]
  }

  /** Nothing is left of the innermost list. */
  predicate AtEnd(c: Cursor) { c.stack != [] && Top(c.stack).pos == Top(c.stack).size }

  /** The rest of the innermost list is there. */
  ghost predicate Whole(c: Cursor, total: nat) {
    c.stack != [] && c.rpos + Top(c.stack).size - Top(c.stack).pos <= total
  }

  /** What can be read is what lies within the window. */
  lemma AllowsWindow(input: seq<byte>, limited: bool, c: Cursor, n: nat)
    requires InStep(c, limited, |input|)
    ensures n <= |Window(input, limited, c)| <==> Allows(c, limited, n) && c.rpos + n <= |input|
    ensures n <= |Window(input, limited, c)| ==>
              input[c.rpos..c.rpos + n] == Window(input, limited, c)[..n] && (limited ==> n <= c.remaining)
  {
  }

  lemma SkipWindow(input: seq<byte>, limited: bool, c: Cursor, n: nat)
    requires InStep(c, limited, |input|) && n <= |Window(input, limited, c)|
    ensures (limited ==> n <= c.remaining) && Allows(c, limited, n)
    ensures var d := Skip(c, limited, n);
            InStep(d, limited, |input|) && Window(input, limited, d) == Window(input, limited, c)[n..]
  {
    AllowsWindow(input, limited, c, n);
  }

  lemma PushWindow(input: seq<byte>, limited: bool, c: Cursor, size: nat)
    requires InStep(c, limited, |input|) && Allows(c, limited, size)
    ensures var d, w := Push(c, size), Window(input, limited, c);
            && InStep(d, limited, |input|)
            && Window(input, limited, d) == (if size <= |w| then w[..size] else w)
            && (Whole(d, |input|) <==> size <= |w|)
  {
    AllowsWindow(input, limited, c, size);
  }

  // --------------------------------------------------------------- 64-bit words

  lemma NoWrap(f: ListPos, n: Word)
    requires f.pos <= f.size < WORD
    ensures Minus(f.size, f.pos) == f.size - f.pos
    ensures f.pos + n <= f.size ==> Plus(f.pos, n) == f.pos + n
  {
  }

  datatype Ahead = Unknown | Known(kind: Kind)

  /** The header is well formed and the value it announces is inside the window. */
  ghost predicate HeadFits(w: seq<byte>) {
    ParseHead(w).Ok? && ParseHead(w).value.tag + ParseHead(w).value.size <= |w|
  }

  /** Bytes of header: a single byte is its own. */
  function HeadLength(h: Head): nat { if h.kind == Byte then 1 else h.tag }

  /** A value with header `h` starts at `mark`, is allowed there, and `cur` is behind the header. */
  ghost predicate HeadAt(h: Head, limited: bool, kind: Kind, size: nat, mark: Cursor, cur: Cursor) {
    && h.kind == kind && HeadLength(h) + size == h.tag + h.size
    && Allows(mark, limited, h.tag + h.size) && (limited ==> h.tag + h.size <= mark.remaining)
    && cur == Skip(mark, limited, HeadLength(h))
  }

  /** The header of the value starting at `mark` has been read; `cur` is behind it. */
  ghost predicate HeadRead(w: seq<byte>, limited: bool, kind: Kind, size: nat, byteval: byte, mark: Cursor,
                           cur: Cursor)
  {
    && ParseHead(w).Ok?
    && HeadAt(ParseHead(w).value, limited, kind, size, mark, cur)
    && (kind == Byte ==> byteval == w[0])
  }

  /** The header is well formed, and list and limit allow the value it announces. */
  ghost predicate HeadAllowed(w: seq<byte>, limited: bool, c: Cursor) {
    ParseHead(w).Ok? && Allows(c, limited, ParseHead(w).value.tag + ParseHead(w).value.size)
  }

  /** The outcome of reading a tag from window `w` at cursor `c`: `cur` is behind the tag. */
  ghost predicate TagRead(w: seq<byte>, limited: bool, c: Cursor, k: Kind, n: nat, err: Result<()>, byteval: byte,
                          cur: Cursor)
  {
    && (err.Ok? <==> ParseHead(w).Ok?)
    && (err.Ok? ==>
          var h := ParseHead(w).value;
          && h.kind == k && n == (if k == Byte then 0 else h.size)
          && (k == Byte ==> byteval == w[0])
          && HeadLength(h) <= |w| && (limited ==> HeadLength(h) <= c.remaining)
          && cur == Skip(c, limited, HeadLength(h)))
  }

  /** A size of `m` bytes in canonical form can be read at `d`. */
  ghost predicate SizeReadable(input: seq<byte>, limited: bool, d: Cursor, m: nat) {
    Allows(d, limited, m) && m > 0 && d.rpos + m <= |input| && input[d.rpos] != 0
    && FromBE(input[d.rpos..d.rpos + m]) >= 56
  }

  /** `now` is one byte behind `c`, and that byte was `b`. */
  ghost predicate Started(input: seq<byte>, limited: bool, now: Cursor, c: Cursor, b: byte) {
    && InStep(c, limited, |input|)
    && Window(input, limited, c) != [] && Window(input, limited, c)[0] == b
    && (limited ==> c.remaining > 0) && now == Skip(c, limited, 1)
  }

  class Stream {
    const input: seq<byte>
    const limited: bool
    ghost const limit: nat

    var rpos: nat
    var remaining: nat
    var stack: seq<ListPos>
    var kind: Ahead
    var size: nat
    var byteval: byte
    var kinderr: Result<()>
    ghost var mark: Cursor // where the value ahead starts

    function Cur(): Cursor
      reads this
    {
      Cursor(rpos, remaining, stack)
    }

    /** What holds in every reachable state, of any stream. */
    ghost predicate Valid()
      reads this
    {
      && Sound(Cur(), limited, |input|, limit)
      && (kind.Known? && kinderr.Ok? ==> Allows(Cur(), limited, size) && size < WORD)
      && (kind == Known(Byte) ==> size == 0) && kinderr != Err(EOL)
    }

    /** Moreover, no error is on record: what the stream knows of the value ahead is what the input says. */
    ghost predicate Synced()
      reads this
    {
      && Valid() && InStep(mark, limited, |input|)
      && (kind.Unknown? ==> mark == Cur())
      && (kind.Known? ==> kinderr.Ok? && HeadRead(Upcoming(), limited, kind.kind, size, byteval, mark, Cur()))
    }

    /** The input the value ahead may be read from, from its header on. */
    ghost function Upcoming(): seq<byte>
      requires InStep(mark, limited, |input|)
      reads this
    {
      Window(input, limited, mark)
    }

    /** Reading makes this smaller, and so does opening a list. */
    ghost function Work(): nat
      reads this
    {
      (if rpos <= |input| then 2 * (|input| - rpos) else 0) + (if kind.Known? then 1 else 0)
    }

    /** `Reset` on a byte reader, with an input limit; zero asks for the length of the input. */
    constructor (data: seq<byte>, inputLimit: uint64)
      requires |data| < WORD
      ensures Synced() && Cur() == mark == Cursor(0, if inputLimit > 0 then inputLimit else |data|, [])
      ensures input == data && limited && limit == (if inputLimit > 0 then inputLimit else |data|) && kind == Unknown
      ensures Upcoming() == if 0 < inputLimit < |data| then data[..inputLimit] else data
    {
      input, limited := data, true;
      limit := if inputLimit > 0 then inputLimit else |data|;
      remaining := if inputLimit > 0 then inputLimit else |data|;
      rpos, stack, size, kind, kinderr, byteval := 0, [], 0, Unknown, Ok(()), 0;
      mark := Cursor(0, if inputLimit > 0 then inputLimit else |data|, []);
    }

    /** `Reset` on a reader of unknown length without a limit. */
    constructor Unlimited(data: seq<byte>)
      ensures Synced() && !limited && input == data && Cur() == mark == Cursor(0, 0, []) && kind == Unknown
      ensures Upcoming() == data
    {
      input, limited, limit := data, false, 0;
      rpos, remaining, stack, size, kind, kinderr, byteval := 0, 0, [], 0, Unknown, Ok(()), 0;
      mark := Cursor(0, 0, []);
    }

    // ------------------------------------------------------------ primitive reads

    method WillRead(n: nat) returns (r: Result<()>)
      requires Valid() && n < WORD
      modifies this`kind, this`stack, this`remaining
      ensures kind == Unknown
      ensures r.Ok? <==> old(Allows(Cur(), limited, n))
      ensures r.Ok? ==> (limited ==> n <= old(remaining)) && stack == Advance(old(stack), n)
      ensures r.Ok? ==> remaining == if limited then old(remaining) - n else old(remaining)
      ensures r.Err? ==> Cur() == old(Cur())
      ensures r.Err? ==> r.error == if stack != [] then ElemTooLarge else ValueTooLarge
    {
      kind := Unknown;
      if |stack| > 0 { TopWithinOwed(stack); }
      if |stack| > 0 {
        var tos := Top(stack);
        NoWrap(tos, n);
        if n > Minus(tos.size, tos.pos) { return Err(ElemTooLarge); }
        stack := Below(stack) + [ListPos(Plus(tos.pos, n), tos.size)];
      }
      if limited {
        if n > remaining { return Err(ValueTooLarge); }
        remaining := remaining - n;
      }
      return Ok(());
    }

    method ReadByte() returns (r: Result<byte>)
      requires Valid()
      modifies this`kind, this`stack, this`remaining, this`rpos
      ensures Valid() && kind == Unknown && rpos >= old(rpos)
      ensures r.Ok? <==> old(Allows(Cur(), limited, 1)) && old(rpos) < |input|
      ensures r.Ok? ==> (limited ==> 1 <= old(remaining)) && Cur() == Skip(old(Cur()), limited, 1)
      ensures r.Ok? ==> r.value == input[old(rpos)]
      ensures r.Err? ==> r.error in {ElemTooLarge, ValueTooLarge, UnexpectedEOF}
    {
      hide Sound, Advance, Allows;
      ghost var c := Cur();
      InInput();
      var w := WillRead(1);
      if w.Err? { return Err(w.error); }
      if rpos == |input| {
        SkipSound(c, limited, |input|, limit, 1, rpos);
        return Err(UnexpectedEOF);
      }
      rpos := rpos + 1;
      SkipSound(c, limited, |input|, limit, 1, rpos);
      return Ok(input[rpos - 1]);
    }

    lemma InInput()
      requires Valid()
      ensures rpos <= |input|
    {
    }

    /** One `Read` of the underlying reader: at least one byte unless at the end, and the end
        may be reported together with the last bytes. */
    method ReaderRead(max: nat) returns (chunk: seq<byte>, eof: bool)
      requires max > 0 && rpos <= |input|
      modifies this`rpos
      ensures old(rpos) <= rpos <= |input| && chunk == input[old(rpos)..rpos] && |chunk| <= max
      ensures eof ==> rpos == |input|
      ensures chunk == [] ==> eof
    {
      if rpos == |input| { return [], true; }
      var k: nat :| 1 <= k <= max && rpos + k <= |input|;
      chunk := input[rpos..rpos + k];
      rpos := rpos + k;
      eof :| eof ==> rpos == |input|;
    }

    method ReadFull(n: nat) returns (r: Result<seq<byte>>)
      requires Valid() && n < WORD
      modifies this`kind, this`stack, this`remaining, this`rpos
      ensures Valid() && kind == Unknown && rpos >= old(rpos)
      ensures r.Ok? <==> old(Allows(Cur(), limited, n)) && old(rpos) + n <= |input|
      ensures r.Ok? ==> (limited ==> n <= old(remaining)) && Cur() == Skip(old(Cur()), limited, n)
      ensures r.Ok? ==> r.value == input[old(rpos)..old(rpos) + n]
      ensures r.Err? ==> r.error in {ElemTooLarge, ValueTooLarge, UnexpectedEOF}
    {
      hide Sound, Advance, Allows;
      ghost var c := Cur();
      InInput();
      var w := WillRead(n);
      if w.Err? { return Err(w.error); }
      var buf: seq<byte>, end := [], false;
      while |buf| < n && !end
        invariant old(rpos) <= rpos <= |input| && buf == input[old(rpos)..rpos] && |buf| <= n
        invariant end ==> rpos == |input|
        modifies this`rpos
        decreases n - |buf|, !end
      {
        var chunk, eof := ReaderRead(n - |buf|);
        buf := buf + chunk;
        end := eof;
      }
      SkipSound(c, limited, |input|, limit, n, rpos);
      if |buf| < n { return Err(UnexpectedEOF); }
      return Ok(buf);
    }

    /** Reads an integer of up to 8 bytes; more than one byte must not start with zero. */
    method ReadUint(n: nat) returns (r: Result<nat>)
      requires Valid() && n <= 8
      modifies this`kind, this`stack, this`remaining, this`rpos
      ensures Valid() && kind == Unknown && rpos >= old(rpos)
      ensures n == 0 ==> r == Ok(0) && Cur() == old(Cur())
      ensures r.Ok? <==> n == 0 || (old(Allows(Cur(), limited, n)) && old(rpos) + n <= |input|
                                    && (n > 1 ==> input[old(rpos)] != 0))
      ensures r.Ok? ==> (limited ==> n <= old(remaining)) && (n > 0 ==> Cur() == Skip(old(Cur()), limited, n))
      ensures r.Ok? && n > 0 ==> r.value == FromBE(input[old(rpos)..old(rpos) + n])
      ensures r.Ok? ==> r.value < WORD
      ensures r == Err(CanonSize) ==> n > 1
      ensures r.Err? ==> r.error in {ElemTooLarge, ValueTooLarge, UnexpectedEOF, CanonSize}
    {
      hide FromBE, Nested, Owed;
      if n == 0 {
        kind := Unknown;
        return Ok(0);
      }
      if n == 1 {
        var b := ReadByte();
        if b.Err? { return Err(b.error); }
        OneByte(input, old(rpos));
        return Ok(b.value);
      }
      var data := ReadFull(n);
      if data.Err? { return Err(data.error); }
      var buffer := seq(8 - n, _ => 0) + data.value;
      if buffer[8 - n] == 0 { return Err(CanonSize); }
      LeadingZeros(8 - n, data.value);
      FromBEBound(buffer);
      WordIsEightBytes();
      return Ok(FromBE(buffer));
    }

    /** The size after a long tag. */
    method ReadLongSize(n: nat) returns (r: Result<nat>)
      requires Valid() && 1 <= n <= 8
      modifies this`kind, this`stack, this`remaining, this`rpos
      ensures Valid() && kind == Unknown && rpos >= old(rpos)
      ensures r.Ok? <==> SizeReadable(input, limited, old(Cur()), n)
      ensures r.Ok? ==> (limited ==> n <= old(remaining)) && Cur() == Skip(old(Cur()), limited, n)
      ensures r.Ok? ==> r.value == FromBE(input[old(rpos)..old(rpos) + n]) < WORD
      ensures r != Err(EOL)
    {
      hide FromBE, Sound;
      r := ReadUint(n);
      if r.Ok? && r.value < 56 { r := Err(CanonSize); }
      if n == 1 && old(rpos) < |input| { OneByte(input, old(rpos)); }
    }

    // ------------------------------------------------------------ the value ahead

    /** Reads the type tag. */
    method ReadKind() returns (k: Kind, n: nat, err: Result<()>)
      requires Valid()
      modifies this`kind, this`stack, this`remaining, this`rpos, this`byteval
      ensures Valid() && kind == Unknown && (err.Ok? ==> rpos > old(rpos)) && rpos >= old(rpos)
      ensures n < WORD && (k == Byte ==> n == 0)
      ensures old(Synced() && kind.Unknown?) ==>
                TagRead(old(Upcoming()), limited, old(mark), k, n, err, byteval, Cur())
      ensures err != Err(EOL)
    {
      hide Sound;
      ghost var synced := Synced() && kind.Unknown?;
      if synced { AllowsWindow(input, limited, mark, 1); }
      var t := ReadByte();
      if t.Err? {
        err := Err(if |stack| == 0 && t.error in {UnexpectedEOF, ValueTooLarge} then EOF else t.error);
        return Byte, 0, err;
      }
      k, n, err := ReadTag(t.value, mark);
    }

    /** The tag after its first byte; `c` is where it starts. */
    method ReadTag(b: byte, ghost c: Cursor) returns (k: Kind, n: nat, err: Result<()>)
      requires Valid() && kind == Unknown
      modifies this`kind, this`stack, this`remaining, this`rpos, this`byteval
      ensures Valid() && kind == Unknown && rpos >= old(rpos)
      ensures n < WORD && (k == Byte ==> n == 0)
      ensures err != Err(EOL)
      ensures Started(input, limited, old(Cur()), c, b) ==>
                TagRead(Window(input, limited, c), limited, c, k, n, err, byteval, Cur())
    {
      hide Sound;
      byteval := 0;
      if b < 0x80 {
        byteval := b;
        return Byte, 0, Ok(());
      } else if b < 0xB8 {
        return String, b - 0x80, Ok(());
      } else if b < 0xC0 {
        n, err := ReadLongTag(b - 0xB7, String, b, c);
        return String, n, err;
      } else if b < 0xF8 {
        return ListKind, b - 0xC0, Ok(());
      } else {
        n, err := ReadLongTag(b - 0xF7, ListKind, b, c);
        return ListKind, n, err;
      }
    }

    method ReadLongTag(m: nat, k: Kind, ghost b: byte, ghost c: Cursor) returns (n: nat, err: Result<()>)
      requires Valid() && kind == Unknown && 1 <= m <= 8 && k != Byte
      requires m == b - if k == String then 0xB7 else 0xF7
      modifies this`kind, this`stack, this`remaining, this`rpos
      ensures Valid() && kind == Unknown && rpos >= old(rpos)
      ensures n < WORD && err != Err(EOL)
      ensures Started(input, limited, old(Cur()), c, b) ==>
                TagRead(Window(input, limited, c), limited, c, k, n, err, byteval, Cur())
    {
      hide Sound, SizeReadable, TagRead;
      var s := ReadLongSize(m);
      if s.Err? { n, err := 0, Err(s.error); } else { n, err := s.value, Ok(()); }
      if Started(input, limited, old(Cur()), c, b) {
        LongTagRead(input, limited, c, b, m, k, n, err, byteval, Cur());
      }
    }

    /** Kind and size of the value ahead; an error sticks until something is read. */
    method NextKind() returns (r: Result<(Kind, nat)>)
      requires Valid()
      modifies this
      ensures Valid() && mark == old(mark) && rpos >= old(rpos)
      ensures r.Ok? ==> Work() <= old(Work()) && (old(kind.Unknown?) ==> Work() < old(Work()))
      ensures r == Err(EOL) ==> old(kind.Unknown?) && Work() == old(Work())
      ensures r.Ok? ==> kind == Known(r.value.0) && size == r.value.1 && kinderr.Ok?
      ensures r == Err(EOL) && old(kind.Unknown?) ==> kind == Unknown && Cur() == old(Cur())
      ensures r.Err? && r.error != EOL ==> kind.Known? && kinderr == Err(r.error)
      ensures old(Synced()) ==>
                && (r.Ok? <==> HeadAllowed(old(Upcoming()), limited, old(mark)))
                && (r.Ok? || r.error == EOL ==> Synced())
                && (r == Err(EOL) <==> AtEnd(old(mark)))
                && (r == Err(EOL) ==> kind == Unknown && Cur() == old(Cur()))
    {
      hide ParseHead, Sound, TagRead;
      if Synced() { KnownAllowed(); }
      if kind.Unknown? {
        kinderr := Ok(());
        if |stack| > 0 && Top(stack).pos == Top(stack).size {
          if Synced() { NothingAtEnd(input, limited, mark); }
          return Err(EOL);
        }
        FetchKind();
      }
      if kinderr.Err? { return Err(kinderr.error); }
      return Ok((kind.kind, size));
    }

    /** A value whose header was read is allowed and not at the end. */
    lemma KnownAllowed()
      requires Synced()
      ensures kind.Known? ==> HeadAllowed(Upcoming(), limited, mark) && !AtEnd(mark)
    {
      hide Sound;
      if kind.Known? { HeadIsSomething(Upcoming()); }
    }

    method FetchKind()
      requires Valid() && kind == Unknown && (stack != [] ==> Top(stack).pos != Top(stack).size)
      modifies this
      ensures Valid() && mark == old(mark) && kind.Known? && kinderr != Err(EOL)
      ensures old(rpos) <= rpos <= |input| && (kinderr.Ok? ==> rpos > old(rpos))
      ensures old(Synced()) ==>
                (kinderr.Ok? <==> HeadAllowed(old(Upcoming()), limited, mark)) && (kinderr.Ok? ==> Synced())
    {
      hide ParseHead, Owed, Nested;
      ghost var synced := Synced();
      var k, n, err := ReadKind();
      if synced { TagReadFits(input, limited, mark, k, n, err, byteval, Cur()); }
      kind, size, kinderr := Known(k), n, err;
      if kinderr.Ok? {
        if |stack| == 0 {
          if limited && size > remaining { kinderr := Err(ValueTooLarge); }
        } else {
          FrameBounds(stack);
          if size > Minus(Top(stack).size, Top(stack).pos) { kinderr := Err(ElemTooLarge); }
        }
      }
    }

    // ------------------------------------------------------------ reading a value

    /** The stream is `n` bytes behind `c`, and nothing is known of the next value. */
    ghost predicate Past(c: Cursor, n: nat)
      reads this
    {
      kind == Unknown && mark == Cur() && (limited ==> n <= c.remaining) && mark == Skip(c, limited, n)
    }

    /** Having read `n` bytes of the window at `c`, the stream is in step again. */
    lemma BackInStep(c: Cursor, n: nat)
      requires Valid() && InStep(c, limited, |input|) && n <= |Window(input, limited, c)| && Past(c, n)
      ensures Synced() && Upcoming() == Window(input, limited, c)[n..]
    {
      hide Sound;
      SkipWindow(input, limited, c, n);
    }

    /** A single byte is used up by looking at it: `s.kind = -1`. */
    method Rearm(ghost c: Cursor, ghost h: Head)
      requires Valid() && kind == Known(Byte)
      modifies this`kind, this`mark
      ensures Valid() && kind == Unknown
      ensures old(Behind(c, h)) ==> Past(c, h.tag + h.size)
    {
      hide Sound;
      kind := Unknown;
      mark := Cur();
    }

    /** Reads the content behind header `h` of the value at `c`. */
    method TakeContent(ghost c: Cursor, ghost h: Head) returns (r: Result<seq<byte>>)
      requires Valid() && kind.Known? && kinderr.Ok?
      modifies this`kind, this`stack, this`remaining, this`rpos, this`mark
      ensures Valid() && kind == Unknown && r != Err(EOL) && rpos >= old(rpos)
      ensures r.Ok? ==> |r.value| == size
      ensures old(Behind(c, h)) ==>
                && (r.Ok? <==> h.tag + h.size <= |Window(input, limited, c)|)
                && (r.Ok? ==> r.value == Window(input, limited, c)[HeadLength(h)..h.tag + h.size]
                              && Past(c, h.tag + h.size))
    {
      hide Sound;
      if Behind(c, h) { ContentAhead(input, limited, c, h, kind.kind, size, Cur()); }
      r := ReadFull(size);
      mark := Cur();
    }

    /** The stream is behind header `h` of the value at `c`. */
    ghost predicate Behind(c: Cursor, h: Head)
      reads this
    {
      && kind.Known? && InStep(c, limited, |input|) && HeadLength(h) <= |Window(input, limited, c)|
      && HeadAt(h, limited, kind.kind, size, c, Cur())
    }

    /** Reads a string. */
    method Bytes() returns (r: Result<seq<byte>>)
      requires Valid()
      modifies this
      ensures Valid() && rpos >= old(rpos) && (r.Ok? ==> Work() < old(Work()))
      ensures r == Err(EOL) ==> old(kind.Unknown?) && Work() == old(Work())
      ensures old(Synced()) ==>
                && (r.Ok? <==> StringAhead(old(Upcoming())))
                && (r.Ok? ==> r.value == ContentOf(old(Upcoming())) && Past(old(mark), SpanOf(old(Upcoming()))))
                && (r == Err(EOL) <==> AtEnd(old(mark)))
    {
      hide ParseHead, Sound, StringAhead, ContentOf, HeadAllowed, Allows, Skip, Behind, Window, AtEnd, Past, HeadRead;
      ghost var synced, c := Synced(), mark;
      ghost var w := if synced then Upcoming() else [];
      if synced { StringAllowed(input, limited, c); }
      var k := NextKind();
      if k.Err? { return Err(k.error); }
      ghost var h := if synced then HeadOf(w) else Head(Byte, 0, 1);
      if synced { SyncedBehind(c, w); }
      if k.value.0 == ListKind { return Err(ExpectedString); }
      r := StringContent(k.value.0, c, h);
      if synced { StringOutcome(w, r); }
    }

    /** With the header read, the stream is behind it. */
    lemma SyncedBehind(c: Cursor, w: seq<byte>)
      requires Synced() && kind.Known? && c == mark && w == Upcoming()
      ensures ParseHead(w).Ok? && HeadOf(w) == ParseHead(w).value && Behind(c, HeadOf(w)) && HeadOf(w).kind == kind.kind
      ensures w != [] && if kind.kind == Byte then byteval == w[0] else size == HeadOf(w).size
    {
      hide Sound;
      HeadIsSomething(w);
    }

    /** The string behind header `h`: the tag byte itself, or the content if it needed a header. */
    method StringContent(k: Kind, ghost c: Cursor, ghost h: Head) returns (r: Result<seq<byte>>)
      requires Valid() && kind == Known(k) && kinderr.Ok? && k != ListKind
      modifies this`kind, this`stack, this`remaining, this`rpos, this`mark
      ensures Valid() && kind == Unknown && r != Err(EOL) && rpos >= old(rpos)
      ensures old(Behind(c, h)) ==>
                var w := Window(input, limited, c);
                && (k == Byte ==> r == Ok([byteval]) && Past(c, h.tag + h.size))
                && (k != Byte ==> (r.Ok? <==> StringThere(w, h)))
                && (k != Byte && r.Ok? ==> r.value == w[h.tag..h.tag + h.size] && Past(c, h.tag + h.size))
    {
      hide Sound;
      if k == Byte {
        Rearm(c, h);
        return Ok([byteval]);
      }
      r := TakeContent(c, h);
      if r.Ok? && size == 1 && r.value[0] < 128 { return Err(CanonSize); }
    }

    /** Reads a value with its header. The header was consumed before, so a new one is written. */
    method Raw() returns (r: Result<seq<byte>>)
      requires Valid()
      modifies this
      ensures Valid() && rpos >= old(rpos)
      ensures old(Synced()) ==>
                && (r.Ok? <==> HeadFits(old(Upcoming())))
                && (r.Ok? ==> r.value == old(Upcoming())[..SpanOf(old(Upcoming()))]
                              && Past(old(mark), SpanOf(old(Upcoming()))))
                && (r == Err(EOL) <==> AtEnd(old(mark)))
    {
      hide ParseHead, Sound, HeadAllowed, HeadFits, SpanOf, Allows, Skip, Behind, Window, AtEnd, Past, HeadRead;
      ghost var synced, c := Synced(), mark;
      ghost var w := if synced then Upcoming() else [];
      if synced { FitsAllowed(input, limited, c); }
      var k := NextKind();
      if k.Err? { return Err(k.error); }
      ghost var h := if synced then HeadOf(w) else Head(Byte, 0, 1);
      if synced { SyncedBehind(c, w); }
      r := RawContent(k.value.0, c, h);
      if synced { RawOutcome(w, r); }
    }

    /** The value behind header `h`, with a header written for it. */
    method RawContent(k: Kind, ghost c: Cursor, ghost h: Head) returns (r: Result<seq<byte>>)
      requires Valid() && kind == Known(k) && kinderr.Ok?
      modifies this`kind, this`stack, this`remaining, this`rpos, this`mark
      ensures Valid() && r != Err(EOL) && rpos >= old(rpos)
      ensures old(Behind(c, h)) ==>
                var w := Window(input, limited, c);
                && (k == Byte ==> r == Ok([byteval]) && Past(c, h.tag + h.size))
                && (k != Byte ==> (r.Ok? <==> h.tag + h.size <= |w|))
                && (k != Byte && r.Ok? ==>
                      r.value == HeaderFor(k, h.size) + w[h.tag..h.tag + h.size] && Past(c, h.tag + h.size))
    {
      hide Sound, HeaderFor;
      if k == Byte {
        Rearm(c, h);
        return Ok([byteval]);
      }
      r := TakeContent(c, h);
      if r.Err? { return; }
      var buf := Rebuild(k, r.value);
      return Ok(buf);
    }

    /** Decodes an unsigned integer of at most `maxbits` bits. */
    method Uint(maxbits: nat) returns (r: Result<nat>)
      requires Valid() && maxbits in {8, 16, 32, 64}
      modifies this
      ensures Valid() && rpos >= old(rpos)
      ensures old(Synced()) ==>
                && (r.Ok? <==> UintAhead(old(Upcoming()), maxbits / 8))
                && (r.Ok? ==> r.value == FromBE(ContentOf(old(Upcoming()))) && Past(old(mark), SpanOf(old(Upcoming()))))
                && (r == Err(EOL) <==> AtEnd(old(mark)))
    {
      hide ParseHead, Sound, FromBE, HeadAllowed, UintAhead, StringAhead, ContentOf, HeadFits;
      hide Allows, Skip, Behind, Window, AtEnd, Past, HeadRead;
      ghost var synced, c := Synced(), mark;
      ghost var w := if synced then Upcoming() else [];
      if synced { UintAllowed(input, limited, c, maxbits / 8); }
      var k := NextKind();
      if k.Err? { return Err(k.error); }
      ghost var h := if synced then HeadOf(w) else Head(Byte, 0, 1);
      if synced { SyncedBehind(c, w); }
      match k.value.0
      case Byte =>
        if synced { ByteUint(w, maxbits / 8); }
        if byteval == 0 { return Err(CanonInt); }
        Rearm(c, h);
        var v: nat := byteval;
        return Ok(v);
      case String =>
        if size > maxbits / 8 {
          if synced { LongUint(w, maxbits / 8); }
          return Err(UintOverflow);
        }
        r := UintString(c, h);
        if synced { StringUint(w, r, maxbits / 8); }
      case ListKind =>
        return Err(ExpectedString);
    }

    method UintString(ghost c: Cursor, ghost h: Head) returns (r: Result<nat>)
      requires Valid() && kind == Known(String) && kinderr.Ok? && size <= 8
      modifies this`kind, this`stack, this`remaining, this`rpos, this`mark
      ensures Valid() && r != Err(EOL) && rpos >= old(rpos)
      ensures old(Behind(c, h)) ==>
                var w := Window(input, limited, c);
                && (r.Ok? <==> h.tag + h.size <= |w| && Canonical(w[h.tag..h.tag + h.size]))
                && (r.Ok? ==> r.value == FromBE(w[h.tag..h.tag + h.size]) && Past(c, h.tag + h.size))
    {
      hide FromBE, Sound;
      ghost var w := if Behind(c, h) then Window(input, limited, c) else [];
      ghost var content := if Behind(c, h) && h.tag + h.size <= |w| then w[h.tag..h.tag + h.size] else [];
      if Behind(c, h) {
        ContentAhead(input, limited, c, h, kind.kind, size, Cur());
        if size == 0 { NoSkip(Cur(), limited); }
        assert content != [] ==> content[0] == input[rpos];
      }
      EmptyIsZero();
      var v := ReadUint(size);
      mark := Cur();
      if v == Err(CanonSize) { return Err(CanonInt); }
      if v.Err? { return Err(v.error); }
      if size > 0 && v.value < 128 { return Err(CanonSize); }
      return Ok(v.value);
    }

    // --------------------------------------------------------------------- lists

    /** Opens the list ahead. Its content need not be there yet. */
    method List() returns (r: Result<nat>)
      requires Valid()
      modifies this
      ensures Valid() && rpos >= old(rpos) && (r.Ok? ==> Work() < old(Work()) && kind == Unknown)
      ensures r == Err(EOL) ==> old(kind.Unknown?) && Work() == old(Work())
      ensures old(Synced()) ==>
                && (r.Ok? <==> ListAhead(old(Upcoming()), limited, old(mark)))
                && (r.Ok? ==> var h := ParseHead(old(Upcoming())).value;
                              && Synced() && r.value == h.size && (limited ==> h.tag + h.size <= old(mark).remaining)
                              && mark == Push(Skip(old(mark), limited, h.tag), h.size)
                              && (Whole(mark, |input|) <==> HeadFits(old(Upcoming())))
                              && Upcoming() == ContentSeen(old(Upcoming())))
                && (r == Err(EOL) <==> AtEnd(old(mark)))
    {
      hide ParseHead, Owed, Nested, HeadFits, ContentSeen;
      ghost var synced, c := Synced(), mark;
      ghost var w := if synced then Upcoming() else [];
      var k := NextKind();
      if k.Err? { return Err(k.error); }
      if synced { SyncedBehind(c, w); }
      if k.value.0 != ListKind { return Err(ExpectedList); }
      var n := k.value.1;
      if synced { OpenedWindow(input, limited, c, n, Cur()); }
      PushSound(Cur(), limited, |input|, limit, n);
      stack := stack + [ListPos(0, n)];
      kind, size := Unknown, 0;
      mark := Cur();
      return Ok(n);
    }

    /** Returns to the enclosing list. */
    method ListEnd() returns (r: Result<()>)
      requires Valid()
      modifies this`stack, this`kind, this`size, this`mark
      ensures Valid()
      ensures r.Ok? <==> AtEnd(old(Cur()))
      ensures r.Ok? ==> kind == Unknown && mark == Cur() && Cur() == Pop(old(Cur()))
      ensures r.Err? ==> Cur() == old(Cur()) && r.error == if stack == [] then NotInList else NotAtEOL
    {
      hide Owed, Nested;
      if |stack| == 0 { return Err(NotInList); }
      var tos := Top(stack);
      if tos.pos != tos.size { return Err(NotAtEOL); }
      PopSound(Cur(), limited, |input|, limit);
      OuterFrame(stack);
      stack := Below(stack);
      if |stack| > 0 {
        NoWrap(Top(stack), tos.size);
        stack := Below(stack) + [ListPos(Plus(Top(stack).pos, tos.size), Top(stack).size)];
      }
      kind, size := Unknown, 0;
      mark := Cur();
      return Ok(());
    }

    // ----------------------------------------------------------- decoding values

    /** Decodes any value, into an empty interface. */
    method DecodeInterface() returns (r: Result<Value>)
      requires Valid()
      modifies this
      ensures Valid() && rpos >= old(rpos) && (r.Ok? ==> Work() < old(Work()))
      ensures r == Err(EOL) ==> old(kind.Unknown?) && Work() == old(Work())
      ensures old(Synced()) ==>
                && (r == Err(EOL) <==> AtEnd(old(mark)))
                && (r == Err(EOL) ==> Past(old(mark), 0))
                && (r.Ok? <==> Decode(old(Upcoming())).Ok?)
                && (r.Ok? ==> Decoded(old(mark), old(Upcoming()), r.value))
      decreases Work(), 1
    {
      hide ParseHead, Sound, Decode, DecodeAll, HeadAllowed, HeadFits, StringAhead, ContentOf, SpanOf;
      hide Allows, Skip, Behind, Window, AtEnd, HeadRead, ListDecodes;
      ghost var synced, c := Synced(), mark;
      ghost var w := if synced then Upcoming() else [];
      if synced { DecodeOfHead(w); KindsApart(w); DecodeAllowed(input, limited, c); NoSkip(c, limited); }
      var k := NextKind();
      if k.Err? { return Err(k.error); }
      if synced { SyncedBehind(c, w); }
      if k.value.0 == ListKind {
        var items := DecodeListSlice();
        if items.Err? { return Err(items.error); }
        if synced { SpanWithin(w); BackInStep(c, SpanOf(w)); }
        return Ok(Value.List(items.value));
      } else {
        var b := Bytes();
        if b.Err? { return Err(b.error); }
        if synced { SpanWithin(w); BackInStep(c, SpanOf(w)); }
        return Ok(Value.Bytes(b.value));
      }
    }

    /** Decodes the elements of the list ahead. */
    method DecodeListSlice() returns (r: Result<seq<Value>>)
      requires Valid()
      modifies this
      ensures Valid() && rpos >= old(rpos) && (r.Ok? ==> Work() < old(Work()))
      ensures r == Err(EOL) ==> old(kind.Unknown?) && Work() == old(Work())
      ensures old(Synced()) ==>
                && (r == Err(EOL) <==> AtEnd(old(mark)))
                && (r.Ok? <==> ListDecodes(old(Upcoming())))
                && (r.Ok? ==> r.value == DecodeAll(ContentOf(old(Upcoming()))).value
                              && Past(old(mark), SpanOf(old(Upcoming()))))
      decreases Work(), 0
    {
      hide ParseHead, Sound, Decode, DecodeAll, HeadFits, ContentOf, ContentSeen, Whole, ListDecodes;
      hide Skip, Push, Pop, AtEnd;
      ghost var synced, c := Synced(), mark;
      ghost var w := if synced then Upcoming() else [];
      if synced { ListAllowed(input, limited, c); }
      var size := List();
      if size.Err? { return Err(size.error); }
      ghost var inner := mark;
      if synced { ContentIsSeen(w); }
      if size.value == 0 {
        r := Ok([]);
        if synced { EmptyList(w); NoSkip(inner, limited); }
      } else {
        r := DecodeSliceElems();
        if r.Err? { return; }
      }
      if synced { ListBack(c, limited, ParseHead(w).value.tag, ParseHead(w).value.size); }
      var end := ListEnd();
      if end.Err? { return Err(end.error); }
    }

    /** Decodes elements until the end of the innermost list. */
    method DecodeSliceElems() returns (r: Result<seq<Value>>)
      requires Valid()
      modifies this
      ensures Valid() && rpos >= old(rpos) && r != Err(EOL) && (r.Ok? ==> Work() <= old(Work()))
      ensures old(Synced()) ==>
                && (r.Ok? <==> Whole(old(mark), |input|) && DecodeAll(old(Upcoming())).Ok?)
                && (r.Ok? ==> r.value == DecodeAll(old(Upcoming())).value && Past(old(mark), |old(Upcoming())|))
      decreases Work(), 3
    {
      hide ParseHead, Sound, Decode, DecodeAll, HeadRead, InStep, Skip, Whole, AtEnd, Decoded;
      ghost var synced, c := Synced(), mark;
      ghost var w := if synced then Upcoming() else [];
      ghost var n: nat := 0;
      var items: seq<Value> := [];
      if synced { NoSkip(c, limited); }
      while true
        invariant Valid() && old(rpos) <= rpos && Work() <= old(Work())
        invariant synced ==> Within(c, w, n) && DecodesOn(w, items, w[n..])
        decreases Work()
      {
        ghost var d := mark;
        var v := DecodeInterface();
        if synced { ElementEnd(input, limited, c, w, n, d, items); }
        if v.Err? && v.error == EOL {
          NoSkip(d, limited);
          break;
        }
        if v.Err? { return Err(v.error); }
        if synced { n := Onward(c, w, n, d, v.value, items); }
        items := items + [v.value];
      }
      return Ok(items);
    }

    /** In the window `w` at `c`, `n` bytes on, in step. */
    ghost predicate Within(c: Cursor, w: seq<byte>, n: nat)
      reads this
    {
      && Synced() && InStep(c, limited, |input|) && w == Window(input, limited, c) && n <= |w|
      && (limited ==> n <= c.remaining) && mark == Skip(c, limited, n) && Upcoming() == w[n..]
    }

    /** One element further on. */
    lemma Onward(c: Cursor, w: seq<byte>, n: nat, d: Cursor, v: Value, items: seq<Value>) returns (m: nat)
      requires InStep(c, limited, |input|) && w == Window(input, limited, c)
      requires n <= |w| && (limited ==> n <= c.remaining)
      requires d == Skip(c, limited, n) && Decoded(d, w[n..], v) && DecodesOn(w, items, w[n..])
      ensures Within(c, w, m) && DecodesOn(w, items + [v], w[m..])
    {
      hide ParseHead, Sound, Decode, DecodeAll, HeadRead;
      var rest := Decode(w[n..]).value.1;
      m := |w| - |rest|;
      DecodeRest(w[n..]);
      assert w[n..][m - n..] == w[m..];
      AllowsWindow(input, limited, c, m);
      SkipSkip(c, limited, n, m - n);
      DecodeMore(w, items, w[n..]);
    }

    /** The value at `c` has been decoded, and the stream is right behind it. */
    ghost predicate Decoded(c: Cursor, w: seq<byte>, v: Value)
      reads this
    {
      && Decode(w).Ok? && v == Decode(w).value.0 && |Decode(w).value.1| <= |w|
      && Synced() && Past(c, |w| - |Decode(w).value.1|) && Upcoming() == Decode(w).value.1
    }
  }

  // ------------------------------------------------------------------- windows and tags

  /** Reading the size behind a long tag is parsing the tag in the window. */
  lemma LongTagRead(input: seq<byte>, limited: bool, c: Cursor, b: byte, m: nat, k: Kind, n: nat, err: Result<()>,
                    v: byte, cur: Cursor)
    requires k != Byte && 1 <= m <= 8 && m == b - if k == String then 0xB7 else 0xF7
    requires (limited ==> c.remaining > 0) && Started(input, limited, Skip(c, limited, 1), c, b)
    requires var d := Skip(c, limited, 1);
             && (err.Ok? <==> SizeReadable(input, limited, d, m))
             && (err.Ok? ==> n == FromBE(input[d.rpos..d.rpos + m]) && (limited ==> m <= d.remaining)
                             && cur == Skip(d, limited, m))
    ensures TagRead(Window(input, limited, c), limited, c, k, n, err, v, cur)
  {
    hide FromBE, Reach;
    var w, d := Window(input, limited, c), Skip(c, limited, 1);
    assert ParseHead(w) == ParseLong(w, k, m);
    LongTagInWindow(input, limited, c, m);
    if err.Ok? { SkipSkip(c, limited, 1, m); }
  }

  lemma LongTagInWindow(input: seq<byte>, limited: bool, c: Cursor, m: nat)
    requires InStep(c, limited, |input|) && Window(input, limited, c) != [] && (limited ==> c.remaining > 0)
    requires 1 <= m <= 8
    ensures var w, d := Window(input, limited, c), Skip(c, limited, 1);
            && (1 + m <= |w| <==> Allows(d, limited, m) && d.rpos + m <= |input|)
            && (1 + m <= |w| ==> (limited ==> 1 + m <= c.remaining)
                                 && input[d.rpos..d.rpos + m] == w[1..1 + m] && input[d.rpos] == w[1])
  {
    hide Reach;
    var w := Window(input, limited, c);
    SkipWindow(input, limited, c, 1);
    var d := Skip(c, limited, 1);
    AllowsWindow(input, limited, d, m);
    AllowsWindow(input, limited, c, 1 + m);
    if 1 + m <= |w| {
      assert w[1..][..m] == w[1..1 + m];
      assert input[d.rpos..d.rpos + m][0] == input[d.rpos];
    }
  }

  lemma HeadIsSomething(w: seq<byte>)
    ensures ParseHead(w).Ok? ==>
              var h := ParseHead(w).value;
              && w != [] && HeadLength(h) <= |w| && h.tag + h.size >= 1
              && (h.kind == Byte ==> h.tag == 0 && h.size == 1 && w[0] < 0x80)
              && (h.kind != Byte ==> 1 <= h.tag <= |w|)
  {
    hide FromBE;
  }

  lemma NothingAtEnd(input: seq<byte>, limited: bool, c: Cursor)
    requires InStep(c, limited, |input|) && AtEnd(c)
    ensures !HeadAllowed(Window(input, limited, c), limited, c)
  {
    hide FromBE;
  }

  /** What the innermost list allows is within the limit. */
  lemma AllowedRemains(c: Cursor, limited: bool, total: nat, n: nat)
    requires InStep(c, limited, total) && Allows(c, limited, n)
    ensures limited ==> n <= c.remaining
  {
  }

  /** After a tag, the value is allowed exactly when its size is. */
  lemma TagReadFits(input: seq<byte>, limited: bool, c: Cursor, k: Kind, n: nat, err: Result<()>, v: byte, cur: Cursor)
    requires InStep(c, limited, |input|)
    requires TagRead(Window(input, limited, c), limited, c, k, n, err, v, cur)
    ensures var w := Window(input, limited, c);
            && (err.Err? ==> !HeadAllowed(w, limited, c))
            && (err.Ok? ==> (HeadAllowed(w, limited, c) <==> Allows(cur, limited, n)))
            && (err.Ok? && HeadAllowed(w, limited, c) ==> HeadRead(w, limited, k, n, v, c, cur))
  {
    hide ParseHead, Reach;
    var w := Window(input, limited, c);
    HeadIsSomething(w);
    if err.Ok? {
      var h := ParseHead(w).value;
      AllowsWindow(input, limited, c, HeadLength(h));
      AllowsSkip(c, limited, HeadLength(h), n);
      if HeadAllowed(w, limited, c) { AllowedRemains(c, limited, |input|, h.tag + h.size); }
    }
  }

  lemma FrameBounds(s: seq<ListPos>)
    requires Nested(s) && s != []
    ensures Top(s).pos <= Top(s).size < WORD
  {
  }

  /** Behind a header that was read lies the content, if it is there, and behind it the next value. */
  lemma ContentAhead(input: seq<byte>, limited: bool, c: Cursor, h: Head, k: Kind, size: nat, cur: Cursor)
    requires InStep(c, limited, |input|) && HeadLength(h) <= |Window(input, limited, c)|
    requires HeadAt(h, limited, k, size, c, cur)
    ensures var w, n := Window(input, limited, c), h.tag + h.size;
            && InStep(cur, limited, |input|) && Window(input, limited, cur) == w[HeadLength(h)..]
            && Allows(cur, limited, size) && (limited ==> size <= cur.remaining)
            && Skip(cur, limited, size) == Skip(c, limited, n)
            && (n <= |w| <==> cur.rpos + size <= |input|)
            && (n <= |w| ==> input[cur.rpos..cur.rpos + size] == w[HeadLength(h)..n])
  {
    hide Reach;
    var w, n := Window(input, limited, c), h.tag + h.size;
    SkipWindow(input, limited, c, HeadLength(h));
    AllowsSkip(c, limited, HeadLength(h), size);
    AllowsWindow(input, limited, c, n);
    AllowsWindow(input, limited, cur, size);
    SkipSkip(c, limited, HeadLength(h), size);
    if n <= |w| { assert w[HeadLength(h)..][..size] == w[HeadLength(h)..n]; }
  }

  /** Inside a list that was opened, the window is the part of its content that is there. */
  lemma OpenedWindow(input: seq<byte>, limited: bool, c: Cursor, n: nat, cur: Cursor)
    requires InStep(c, limited, |input|) && ParseHead(Window(input, limited, c)).Ok?
    requires HeadAt(ParseHead(Window(input, limited, c)).value, limited, ListKind, n, c, cur)
    ensures var w := Window(input, limited, c);
            var d := Push(cur, n);
            && Allows(cur, limited, n) && InStep(d, limited, |input|) && Window(input, limited, d) == ContentSeen(w)
            && (Whole(d, |input|) <==> HeadFits(w))
  {
    hide Reach, ParseHead, Whole;
    var w := Window(input, limited, c);
    var h := ParseHead(w).value;
    HeadIsSomething(w);
    ContentAhead(input, limited, c, h, ListKind, n, cur);
    PushWindow(input, limited, cur, n);
    if n <= |w| - h.tag { assert w[h.tag..][..n] == w[h.tag..h.tag + n]; }
  }

  // --------------------------------------------------------------------- what is ahead

  /** Bytes taken by the value at the front of `w`, and its content. */
  ghost function SpanOf(w: seq<byte>): nat
    requires ParseHead(w).Ok?
  {
    ParseHead(w).value.tag + ParseHead(w).value.size
  }

  ghost function ContentOf(w: seq<byte>): seq<byte>
    requires HeadFits(w)
  {
    w[ParseHead(w).value.tag..SpanOf(w)]
  }

  /** As much of the content as is there. */
  ghost function ContentSeen(w: seq<byte>): seq<byte>
    requires ParseHead(w).Ok?
  {
    if HeadFits(w) then ContentOf(w)
    else if ParseHead(w).value.tag <= |w| then w[ParseHead(w).value.tag..] else []
  }

  ghost function HeadOf(w: seq<byte>): Head { if ParseHead(w).Ok? then ParseHead(w).value else Head(Byte, 0, 1) }

  /** A string in canonical form is at the front of `w`. */
  ghost predicate StringAhead(w: seq<byte>) {
    && HeadFits(w) && ParseHead(w).value.kind != ListKind
    && !NeedlessHeader(ParseHead(w).value, w[ParseHead(w).value.tag..])
  }

  /** The content behind header `h` is there, and needed the header. */
  ghost predicate StringThere(w: seq<byte>, h: Head) {
    h.tag + h.size <= |w| && !(h.size == 1 && w[h.tag] < 0x80)
  }

  ghost predicate ListAhead(w: seq<byte>, limited: bool, c: Cursor) {
    HeadAllowed(w, limited, c) && ParseHead(w).value.kind == ListKind
  }

  /** A whole list whose elements decode is at the front of `w`. */
  ghost predicate ListDecodes(w: seq<byte>) {
    HeadFits(w) && ParseHead(w).value.kind == ListKind && DecodeAll(ContentOf(w)).Ok?
  }

  /** A value that is there is allowed. */
  lemma FitsAllowed(input: seq<byte>, limited: bool, c: Cursor)
    requires InStep(c, limited, |input|)
    ensures HeadFits(Window(input, limited, c)) ==> HeadAllowed(Window(input, limited, c), limited, c)
  {
    hide ParseHead, Reach;
    var w := Window(input, limited, c);
    if HeadFits(w) { AllowsWindow(input, limited, c, SpanOf(w)); }
  }

  lemma StringAllowed(input: seq<byte>, limited: bool, c: Cursor)
    requires InStep(c, limited, |input|)
    ensures var w := Window(input, limited, c);
            StringAhead(w) ==> HeadAllowed(w, limited, c) && HeadOf(w).kind != ListKind
  {
    hide ParseHead, Window;
    FitsAllowed(input, limited, c);
  }

  lemma ListAllowed(input: seq<byte>, limited: bool, c: Cursor)
    requires InStep(c, limited, |input|)
    ensures var w := Window(input, limited, c); ListDecodes(w) ==> ListAhead(w, limited, c)
  {
    hide ParseHead, Window, HeadAllowed, DecodeAll;
    FitsAllowed(input, limited, c);
  }

  lemma DecodeAllowed(input: seq<byte>, limited: bool, c: Cursor)
    requires InStep(c, limited, |input|)
    ensures var w := Window(input, limited, c); Decode(w).Ok? ==> HeadAllowed(w, limited, c)
  {
    hide ParseHead, Window, HeadAllowed, Decode, DecodeAll;
    FitsAllowed(input, limited, c);
    DecodeOfHead(Window(input, limited, c));
  }

  lemma UintAllowed(input: seq<byte>, limited: bool, c: Cursor, bytes: nat)
    requires InStep(c, limited, |input|)
    ensures var w := Window(input, limited, c);
            UintAhead(w, bytes) ==> HeadAllowed(w, limited, c) && HeadOf(w).kind != ListKind
  {
    hide Window, HeadAllowed, ParseHead;
    StringAllowed(input, limited, c);
  }

  lemma StringOutcome(w: seq<byte>, r: Result<seq<byte>>)
    requires ParseHead(w).Ok? && ParseHead(w).value.kind != ListKind && w != []
    requires var h := ParseHead(w).value;
             if h.kind == Byte then r == Ok([w[0]])
             else (r.Ok? <==> StringThere(w, h)) && (r.Ok? ==> r.value == w[h.tag..h.tag + h.size])
    ensures r.Ok? <==> StringAhead(w)
    ensures r.Ok? ==> r.value == ContentOf(w) && SpanOf(w) == HeadOf(w).tag + HeadOf(w).size
  {
    hide ParseHead;
    HeadIsSomething(w);
    var h := ParseHead(w).value;
    assert h.tag < |w| ==> w[h.tag..][0] == w[h.tag];
  }

  lemma RawOutcome(w: seq<byte>, r: Result<seq<byte>>)
    requires ParseHead(w).Ok? && w != []
    requires var h := ParseHead(w).value;
             if h.kind == Byte then r == Ok([w[0]])
             else (r.Ok? <==> h.tag + h.size <= |w|)
                  && (r.Ok? ==> r.value == HeaderFor(h.kind, h.size) + w[h.tag..h.tag + h.size])
    ensures r.Ok? <==> HeadFits(w)
    ensures r.Ok? ==> r.value == w[..SpanOf(w)] && SpanOf(w) == HeadOf(w).tag + HeadOf(w).size
  {
    hide ParseHead, HeaderFor;
    HeadIsSomething(w);
    if HeadFits(w) { RebuiltIsConsumed(w); }
  }

  lemma KindsApart(w: seq<byte>)
    ensures StringAhead(w) ==> HeadOf(w).kind != ListKind
    ensures ListDecodes(w) ==> HeadOf(w).kind == ListKind
  {
    hide ParseHead, DecodeAll;
  }

  lemma SpanWithin(w: seq<byte>)
    ensures HeadFits(w) ==> SpanOf(w) <= |w|
    ensures StringAhead(w) || ListDecodes(w) ==> HeadFits(w)
  {
    hide ParseHead, DecodeAll;
  }

  /** Where the whole content is there, what is seen is the content. */
  lemma ContentIsSeen(w: seq<byte>)
    requires ParseHead(w).Ok?
    ensures HeadFits(w) ==> ContentSeen(w) == ContentOf(w) && |ContentOf(w)| == ParseHead(w).value.size
    ensures ListDecodes(w) ==> HeadFits(w) && DecodeAll(ContentOf(w)).Ok?
    ensures HeadFits(w) && ParseHead(w).value.kind == ListKind && DecodeAll(ContentOf(w)).Ok? ==> ListDecodes(w)
  {
    hide ParseHead, DecodeAll;
  }

  lemma EmptyList(w: seq<byte>)
    requires ParseHead(w).Ok? && ParseHead(w).value.kind == ListKind && ParseHead(w).value.size == 0
    ensures ListDecodes(w) && HeadFits(w) && DecodeAll(ContentOf(w)) == Ok([])
  {
    hide ParseHead;
    HeadIsSomething(w);
    assert ContentOf(w) == [];
    DecodeNothing();
  }

  /** A canonical integer of at most `bytes` bytes is at the front of `w`. */
  ghost predicate UintAhead(w: seq<byte>, bytes: nat) {
    && StringAhead(w)
    && var content := ContentOf(w);
    && |content| <= bytes
    && (content != [] ==> content[0] != 0)
  }

  lemma EmptyIsZero()
    ensures FromBE([]) == 0
  {
  }

  function HeaderFor(k: Kind, size: nat): seq<byte> { if k == String then StringHeader(size) else ListHeader(size) }

  /** A header followed by content, in a fresh buffer. */
  method Rebuild(k: Kind, content: seq<byte>) returns (raw: seq<byte>)
    requires k != Byte && |content| < WORD
    ensures raw == HeaderFor(k, |content|) + content
  {
    hide Header;
    var start := HeadSize(|content|);
    var buf := new byte[start + |content|](_ => 0);
    CopyInto(buf, start, content);
    assert buf[start..] == content;
    if k == String {
      PutFront(buf, start, 0x80, 0xB7, |content|);
    } else {
      PutFront(buf, start, 0xC0, 0xF7, |content|);
    }
    raw := buf[..];
  }

  /** Writes the header in front of the content. */
  method PutFront(buf: array<byte>, start: nat, small: byte, large: byte, size: uint64)
    requires start == HeadSize(size) && start <= buf.Length
    modifies buf
    ensures buf[..] == Header(small, large, size) + old(buf[start..])
  {
    hide Header, HeadSize;
    var n := PutHead(buf, 0, small, large, size);
    assert buf[0..n] == buf[..n];
    assert buf[..] == buf[..n] + buf[n..];
  }

  /** The rebuilt header is the one that was read. */
  lemma RebuiltIsConsumed(w: seq<byte>)
    requires HeadFits(w)
    ensures var h := ParseHead(w).value;
            w[..SpanOf(w)] == if h.kind == Byte then [w[0]] else HeaderFor(h.kind, h.size) + w[h.tag..SpanOf(w)]
  {
    hide FromBE, ToBE, Header;
    var h := ParseHead(w).value;
    if h.kind != Byte { ParsedHeaderIsCanonical(w); }
    assert w[..SpanOf(w)] == w[..h.tag] + w[h.tag..SpanOf(w)];
  }

  lemma ByteUint(w: seq<byte>, bytes: nat)
    requires ParseHead(w).Ok? && ParseHead(w).value.kind == Byte && bytes > 0
    ensures w != [] && (UintAhead(w, bytes) <==> w[0] != 0)
    ensures UintAhead(w, bytes) ==> FromBE(ContentOf(w)) == w[0] && SpanOf(w) == HeadOf(w).tag + HeadOf(w).size
  {
    hide ParseHead, FromBE;
    HeadIsSomething(w);
    OneByte(w, 0);
  }

  lemma LongUint(w: seq<byte>, bytes: nat)
    requires ParseHead(w).Ok? && ParseHead(w).value.kind == String && ParseHead(w).value.size > bytes
    ensures !UintAhead(w, bytes)
  {
    hide ParseHead;
  }

  /** What reading an integer asks of its bytes. */
  ghost predicate Canonical(content: seq<byte>) {
    (|content| > 1 ==> content[0] != 0) && (|content| > 0 ==> FromBE(content) >= 128)
  }

  /** The checks made while reading an integer are those of a canonical string. */
  lemma StringUint(w: seq<byte>, r: Result<nat>, bytes: nat)
    requires ParseHead(w).Ok? && ParseHead(w).value.kind == String && ParseHead(w).value.size <= bytes
    requires var h := ParseHead(w).value;
             && (r.Ok? <==> h.tag + h.size <= |w| && Canonical(w[h.tag..h.tag + h.size]))
             && (r.Ok? ==> r.value == FromBE(w[h.tag..h.tag + h.size]))
    ensures r.Ok? <==> UintAhead(w, bytes)
    ensures r.Ok? ==> r.value == FromBE(ContentOf(w)) && SpanOf(w) == HeadOf(w).tag + HeadOf(w).size
  {
    hide ParseHead, FromBE;
    var h := ParseHead(w).value;
    if h.tag + h.size <= |w| {
      var content := w[h.tag..h.tag + h.size];
      if |content| == 1 {
        OneByte(content, 0);
        assert content[0..1] == content;
        assert w[h.tag..][0] == content[0];
      } else if |content| > 1 && content[0] != 0 {
        LeadingDigit(content);
      }
    }
  }

  lemma LeadingDigit(b: seq<byte>)
    requires |b| > 1 && b[0] != 0
    ensures FromBE(b) >= 256
  {
    ToFromBE(b[..|b| - 1]);
  }

  /** Decoding in terms of the header, the content and what follows. */
  lemma DecodeOfHead(w: seq<byte>)
    ensures Decode(w).Ok? <==> StringAhead(w) || ListDecodes(w)
    ensures Decode(w).Ok? ==>
              && Decode(w).value.0 == (if ParseHead(w).value.kind == ListKind
                                       then Value.List(DecodeAll(ContentOf(w)).value)
                                       else Value.Bytes(ContentOf(w)))
              && Decode(w).value.1 == w[SpanOf(w)..]
  {
    hide ParseHead, DecodeAll;
  }

  lemma DecodeNothing()
    ensures DecodeAll([]) == Ok([])
  {
  }

  /** `items` were decoded from `w` so far, and `rest` is still to be decoded. */
  ghost predicate DecodesOn(w: seq<byte>, items: seq<Value>, rest: seq<byte>) {
    && (DecodeAll(w).Ok? <==> DecodeAll(rest).Ok?)
    && (DecodeAll(w).Ok? ==> DecodeAll(w).value == items + DecodeAll(rest).value)
  }

  lemma DecodeMore(w: seq<byte>, items: seq<Value>, rest: seq<byte>)
    requires DecodesOn(w, items, rest) && rest != []
    ensures Decode(rest).Err? ==> DecodeAll(w).Err?
    ensures Decode(rest).Ok? ==>
              |Decode(rest).value.1| < |rest| && DecodesOn(w, items + [Decode(rest).value.0], Decode(rest).value.1)
  {
    hide Decode;
    DecodeShrinks(rest);
    if Decode(rest).Ok? && DecodeAll(Decode(rest).value.1).Ok? {
      var v, vs := Decode(rest).value.0, DecodeAll(Decode(rest).value.1).value;
      assert items + ([v] + vs) == items + [v] + vs;
    }
  }

  lemma DecodeRest(w: seq<byte>)
    requires Decode(w).Ok?
    ensures var n := |w| - |Decode(w).value.1|; 0 < n <= |w| && Decode(w).value.1 == w[n..]
  {
    hide ParseHead, DecodeAll, Decode;
    DecodeOfHead(w);
    DecodeShrinks(w);
    SpanWithin(w);
  }

  /** Having read a whole inner list, closing it leaves the outer cursor behind it. */
  lemma ListBack(c: Cursor, limited: bool, tag: nat, size: nat)
    requires limited ==> tag + size <= c.remaining
    ensures var inner := Push(Skip(c, limited, tag), size);
            && AtEnd(Skip(inner, limited, size))
            && Pop(Skip(inner, limited, size)) == Skip(c, limited, tag + size)
  {
    PopAfterSkip(Skip(c, limited, tag), limited, size);
    SkipSkip(c, limited, tag, size);
  }

  /** Where an element ends the list, or does not decode. */
  lemma ElementEnd(input: seq<byte>, limited: bool, c: Cursor, w: seq<byte>, n: nat, d: Cursor, items: seq<Value>)
    requires InStep(c, limited, |input|) && w == Window(input, limited, c) && n <= |w| && (limited ==> n <= c.remaining)
    requires d == Skip(c, limited, n) && DecodesOn(w, items, w[n..])
    ensures AtEnd(d) ==> Whole(c, |input|) && n == |w| && DecodeAll(w) == Ok(items)
    ensures !AtEnd(d) && Decode(w[n..]).Err? ==> !(Whole(c, |input|) && DecodeAll(w).Ok?)
  {
    hide Decode, DecodeAll;
    DecodeNothing();
    assert items + [] == items;
    if !AtEnd(d) && Decode(w[n..]).Err? && n < |w| { DecodeMore(w, items, w[n..]); }
  }

  /** `DecodeBytes` into an empty interface accepts exactly the encodings of values. */
  method DecodeBytes(b: seq<byte>) returns (r: Result<Value>)
    requires Fits(|b|)
    ensures r.Ok? <==> Decode(b).Ok? && Decode(b).value.1 == []
    ensures forall v :: r == Ok(v) <==> b == Encode(v)
  {
    hide Decode, Encode, Window, HeadRead;
    var s := new Stream(b, |b|);
    r := s.DecodeInterface();
    if r.Ok? { DecodeRest(b); }
    if r.Ok? && s.rpos < |b| { r := Err(MoreThanOneValue); }
    forall v ensures r == Ok(v) <==> b == Encode(v) { AcceptedIffEncoding(b, v); }
  }

  lemma SplitOfHead(w: seq<byte>)
    requires Fits(|w|)
    ensures SplitValue(w) == Split(w)
    ensures Split(w).Ok? <==> HeadFits(w) && !NeedlessHeader(ParseHead(w).value, w[ParseHead(w).value.tag..])
    ensures Split(w).Ok? ==>
              var h := ParseHead(w).value;
              Split(w).value == (h.kind, w[h.tag..h.tag + h.size], w[h.tag + h.size..])
  {
    SplitValueIsSplit(w);
  }

  /** The two readers agree: `Bytes` and `Uint` succeed on a byte slice exactly when SplitString
      and SplitUint64 do, with the same content or number, and leave the same rest. */
  lemma ReadersAgree(w: seq<byte>)
    requires Fits(|w|)
    ensures StringAhead(w) <==> SplitStringValue(w).Ok?
    ensures StringAhead(w) ==> SplitStringValue(w).value == (ContentOf(w), w[SpanOf(w)..])
    ensures UintAhead(w, 8) <==> SplitUint64(w).Ok?
    ensures UintAhead(w, 8) ==> SplitUint64(w).value == (FromBE(ContentOf(w)), w[SpanOf(w)..])
  {
    hide ParseHead, FromBE;
    SplitOfHead(w);
    if StringAhead(w) {
      var content := ContentOf(w);
      if |content| == 0 { EmptyIsZero(); }
      else if |content| == 1 { OneByte(content, 0); assert content[0..1] == content; }
      else if |content| <= 8 {
        ShiftOrIsBigEndian(content, |content|);
        assert content[..|content|] == content;
        if content[0] != 0 { LeadingDigit(content); }
      }
    }
  }

  /** Both readers on one slice: `Stream.Bytes` and `SplitString` give the same content and leave the same rest. */
  method ReadStringTwice(b: seq<byte>)
    returns (streamed: Result<(seq<byte>, seq<byte>)>, split: Result<(seq<byte>, seq<byte>)>)
    requires Fits(|b|)
    ensures streamed.Ok? <==> split.Ok?
    ensures streamed.Ok? ==> streamed.value == split.value
    ensures forall content, rest :: split == Ok((content, rest)) <==> b == EncodeString(content) + rest
  {
    hide ParseHead, StringAhead, UintAhead, ContentOf, EncodeString, SplitStringValue, HeadFits, SpanOf;
    ReadersAgree(b);
    SpanWithin(b);
    split := SplitStringValue(b);
    forall content, rest ensures split == Ok((content, rest)) <==> b == EncodeString(content) + rest {
      SplitStringExact(b, content, rest);
    }
    var s := new Stream(b, |b|);
    var r := s.Bytes();
    if r.Err? { return Err(r.error), split; }
    streamed := Ok((r.value, b[s.rpos..]));
  }

  /** The same for `Stream.Uint` and `SplitUint64`. */
  method ReadUintTwice(b: seq<byte>) returns (streamed: Result<(nat, seq<byte>)>, split: Result<(nat, seq<byte>)>)
    requires Fits(|b|)
    ensures streamed.Ok? <==> split.Ok?
    ensures streamed.Ok? ==> streamed.value == split.value
    ensures forall x: nat, rest :: split == Ok((x, rest)) <==> x < WORD && b == EncodeUint(x) + rest
  {
    hide ParseHead, StringAhead, UintAhead, ContentOf, EncodeString, SplitUint64, HeadFits, SpanOf, FromBE, EncodeUint;
    hide Sound, Allows;
    ReadersAgree(b);
    UintIsString(b);
    SpanWithin(b);
    split := SplitUint64(b);
    forall x: nat, rest ensures split == Ok((x, rest)) <==> x < WORD && b == EncodeUint(x) + rest {
      SplitUint64Exact(b, x, rest);
    }
    var s := new Stream(b, |b|);
    var r := s.Uint(64);
    if r.Err? { return Err(r.error), split; }
    streamed := Ok((r.value, b[s.rpos..]));
  }

  lemma UintIsString(w: seq<byte>)
    ensures UintAhead(w, 8) ==> StringAhead(w)
  {
    hide ParseHead;
  }

  /** A one-byte string with a needless header: `Raw` takes it, `Bytes` and `SplitString` refuse it. */
  method NeedlessByte() returns (raw: Result<seq<byte>>, content: Result<seq<byte>>)
    ensures var b := [0x81, 0x00]; raw == Ok(b) && content.Err? && SplitStringValue(b).Err?
  {
    var b: seq<byte> := [0x81, 0x00];
    assert ParseHead(b) == Ok(Head(String, 1, 1));
    assert b[1..][0] == 0;
    ReadersAgree(b);
    assert b[..2] == b;
    hide ParseHead;
    var s := new Stream(b, 2);
    raw := s.Raw();
    var t := new Stream(b, 2);
    content := t.Bytes();
  }

  // ------------------------------------------------------------ reachable states

  /** What the invariant says of the stack, frame by frame. */
  lemma {:induction false} NestedFrames(s: seq<ListPos>)
    requires Nested(s)
    ensures forall i | 0 <= i < |s| :: s[i].pos <= s[i].size
    ensures forall i | 0 <= i < |s| - 1 :: s[i].pos + s[i + 1].size <= s[i].size
  {
    if s != [] { NestedFrames(Below(s)); }
  }

  datatype Op = OpKind | OpBytes | OpRaw | OpUint(bits: nat) | OpList | OpListEnd

  /** Any sequence of operations on any stream, whatever their results: positions stay inside
      their lists, inner lists inside outer ones, and a limited stream within its limit. */
  method AnyRun(s: Stream, ops: seq<Op>)
    requires s.Valid()
    requires forall op | op in ops && op.OpUint? :: op.bits in {8, 16, 32, 64}
    modifies s
    ensures s.Valid()
    ensures forall i | 0 <= i < |s.stack| :: s.stack[i].pos <= s.stack[i].size
    ensures forall i | 0 <= i < |s.stack| - 1 :: s.stack[i].pos + s.stack[i + 1].size <= s.stack[i].size
    ensures s.limited ==> s.rpos + s.remaining <= s.limit
  {
    hide ParseHead, Nested, Owed;
    for i := 0 to |ops|
      invariant s.Valid()
    {
      match ops[i]
      case OpKind => var _ := s.NextKind();
      case OpBytes => var _ := s.Bytes();
      case OpRaw => var _ := s.Raw();
      case OpUint(bits) => var _ := s.Uint(bits);
      case OpList => var _ := s.List();
      case OpListEnd => var _ := s.ListEnd();
    }
    NestedFrames(s.stack);
  }

  lemma OneByte(b: seq<byte>, i: nat)
    requires i < |b|
    ensures FromBE(b[i..i + 1]) == b[i]
  {
    assert b[i..i + 1] == [b[i]];
    assert FromBE([b[i]]) == FromBE([b[i]][..0]) * 256 + b[i];
  }
}
