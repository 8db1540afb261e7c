/** The slice-based reader: rlp/raw.go and rlp/iterator.go. */
module RlpRaw {
  import opened Basics
  import opened BigEndian
  import opened RlpSpec

  // ------------------------------------------------------------- reading tags

  /** `uint64(b[i]) << (8 * k)`. */
  function Shl(b: seq<byte>, i: nat, k: nat): nat
    requires i < |b| && k < 8
  {
    var d: nat := b[i];
    match k
    case 0 => d
    case 1 => d * 0x100
    case 2 => d * 0x1_0000
    case 3 => d * 0x100_0000
    case 4 => d * 0x1_0000_0000
    case 5 => d * 0x100_0000_0000
    case 6 => d * 0x1_0000_0000_0000
    case 7 => d * 0x100_0000_0000_0000
  }

  /** The disjoint bit fields combined by the eight cases of `readSize`. */
  function ShiftOr(b: seq<byte>, n: nat): nat
    requires 1 <= n <= 8 && n <= |b|
  {
    match n
    case 1 => Shl(b, 0, 0)
    case 2 => Shl(b, 0, 1) + Shl(b, 1, 0)
    case 3 => Shl(b, 0, 2) + Shl(b, 1, 1) + Shl(b, 2, 0)
    case 4 => Shl(b, 0, 3) + Shl(b, 1, 2) + Shl(b, 2, 1) + Shl(b, 3, 0)
    case 5 => Shl(b, 0, 4) + Shl(b, 1, 3) + Shl(b, 2, 2) + Shl(b, 3, 1) + Shl(b, 4, 0)
    case 6 => Shl(b, 0, 5) + Shl(b, 1, 4) + Shl(b, 2, 3) + Shl(b, 3, 2) + Shl(b, 4, 1) + Shl(b, 5, 0)
    case 7 => Shl(b, 0, 6) + Shl(b, 1, 5) + Shl(b, 2, 4) + Shl(b, 3, 3) + Shl(b, 4, 2) + Shl(b, 5, 1) + Shl(b, 6, 0)
    case 8 => Shl(b, 0, 7) + Shl(b, 1, 6) + Shl(b, 2, 5) + Shl(b, 3, 4) + Shl(b, 4, 3) + Shl(b, 5, 2) + Shl(b, 6, 1)
              + Shl(b, 7, 0)
  }

  function ReadSize(b: seq<byte>, slen: nat): Result<nat>
    requires 1 <= slen <= 8
  {
    if slen > |b| then Err(UnexpectedEOF)
    else if ShiftOr(b, slen) < 56 || b[0] == 0 then Err(CanonSize)
    else Ok(ShiftOr(b, slen))
  }

  function ReadKind(buf: seq<byte>): Result<Head> {
    if |buf| == 0 then Err(UnexpectedEOF)
    else
      var b: nat := buf[0];
      if b < 0x80 then Fitting(buf, Byte, 0, Ok(1))
      else if b < 0xB8 then
        if b - 0x80 == 1 && |buf| > 1 && buf[1] < 128 then Err(CanonSize)
        else Fitting(buf, String, 1, Ok(b - 0x80))
      else if b < 0xC0 then Fitting(buf, String, b - 0xB7 + 1, ReadSize(buf[1..], b - 0xB7))
      else if b < 0xF8 then Fitting(buf, ListKind, 1, Ok(b - 0xC0))
      else Fitting(buf, ListKind, b - 0xF7 + 1, ReadSize(buf[1..], b - 0xF7))
  }

  /** Rejects values larger than the input slice; the difference is unsigned. */
  function Fitting(buf: seq<byte>, k: Kind, tagsize: nat, contentsize: Result<nat>): Result<Head> {
    match contentsize
    case Err(e) => Err(e)
    case Ok(size) =>
      if size > (|buf| - tagsize) % WORD then Err(ValueTooLarge) else Ok(Head(k, tagsize, size))
  }

  lemma {:induction false} ShiftOrIsBigEndian(b: seq<byte>, n: nat)
    requires 1 <= n <= 8 && n <= |b|
    ensures ShiftOr(b, n) == FromBE(b[..n])
  {
    assert b[..n][..n - 1] == b[..n - 1];
    if n > 1 {
      ShiftOrIsBigEndian(b, n - 1);
      ShiftOrStep(b, n);
    } else {
      assert FromBE(b[..0]) == 0;
    }
  }

  lemma ShiftOrStep(b: seq<byte>, n: nat)
    requires 2 <= n <= 8 && n <= |b|
    ensures ShiftOr(b, n) == ShiftOr(b, n - 1) * 256 + b[n - 1]
  {
  }

  lemma LongTagReads(buf: seq<byte>, kind: Kind, k: nat)
    requires 1 <= k <= 8 && buf != []
    ensures var s := ReadSize(buf[1..], k);
            ParseLong(buf, kind, k) == match s { case Err(e) => Err(e) case Ok(n) => Ok(Head(kind, 1 + k, n)) }
    ensures ReadSize(buf[1..], k).Ok? ==> k < |buf|
  {
    if k < |buf| {
      assert buf[1..][..k] == buf[1..1 + k];
      ShiftOrIsBigEndian(buf[1..], k);
    }
  }

  /** The switch over tags is the parser of the format, with the two checks on the content;
      the unsigned difference in the size check does not wrap. */
  lemma ReadKindParses(buf: seq<byte>)
    requires Fits(|buf|)
    ensures ReadKind(buf) == match Split(buf) { case Err(e) => Err(e) case Ok(_) => ParseHead(buf) }
  {
    if buf == [] {
    } else if buf[0] < 0xB8 || 0xC0 <= buf[0] < 0xF8 {
      ReadShortParses(buf);
    } else {
      ReadLongParses(buf);
    }
  }

  lemma ReadShortParses(buf: seq<byte>)
    requires Fits(|buf|) && buf != [] && (buf[0] < 0xB8 || 0xC0 <= buf[0] < 0xF8)
    ensures ReadKind(buf) == match Split(buf) { case Err(e) => Err(e) case Ok(_) => ParseHead(buf) }
  {
  }

  lemma ReadLongParses(buf: seq<byte>)
    requires Fits(|buf|) && buf != [] && !(buf[0] < 0xB8 || 0xC0 <= buf[0] < 0xF8)
    ensures ReadKind(buf) == match Split(buf) { case Err(e) => Err(e) case Ok(_) => ParseHead(buf) }
  {
    var kind := if buf[0] < 0xC0 then String else ListKind;
    var k := if buf[0] < 0xC0 then buf[0] - 0xB7 else buf[0] - 0xF7;
    LongTagReads(buf, kind, k);
    var p := ParseLong(buf, kind, k);
    assert ParseHead(buf) == p;
  }

  // ------------------------------------------------------------ the Split family

  function SplitValue(b: seq<byte>): Result<(Kind, seq<byte>, seq<byte>)>
    requires Fits(|b|)
  {
    match ReadKind(b)
    case Err(e) => Err(e)
    case Ok(Head(k, ts, cs)) =>
      ReadKindParses(b);
      Ok((k, b[ts..ts + cs], b[ts + cs..]))
  }

  function SplitStringValue(b: seq<byte>): Result<(seq<byte>, seq<byte>)>
    requires Fits(|b|)
  {
    match SplitValue(b)
    case Err(e) => Err(e)
    case Ok((k, content, rest)) => if k == ListKind then Err(ExpectedString) else Ok((content, rest))
  }

  function SplitListValue(b: seq<byte>): Result<(seq<byte>, seq<byte>)>
    requires Fits(|b|)
  {
    match SplitValue(b)
    case Err(e) => Err(e)
    case Ok((k, content, rest)) => if k != ListKind then Err(ExpectedList) else Ok((content, rest))
  }

  function SplitUint64(b: seq<byte>): Result<(nat, seq<byte>)>
    requires Fits(|b|)
  {
    match SplitStringValue(b)
    case Err(e) => Err(e)
    case Ok((content, rest)) =>
      if |content| == 0 then Ok((0, rest))
      else if |content| == 1 then if content[0] == 0 then Err(CanonInt) else Ok((content[0], rest))
      else if |content| > 8 then Err(UintOverflow)
      else
        match ReadSize(content, |content|)
        case Err(_) => Err(CanonInt)
        case Ok(x) => Ok((x, rest))
  }

  lemma SplitValueIsSplit(b: seq<byte>)
    requires Fits(|b|)
    ensures SplitValue(b) == Split(b)
  {
    ReadKindParses(b);
  }

  /** SplitString and SplitList succeed exactly on an encoding followed by the rest. */
  lemma SplitStringExact(b: seq<byte>, content: seq<byte>, rest: seq<byte>)
    requires Fits(|b|)
    ensures SplitStringValue(b) == Ok((content, rest)) <==> b == EncodeString(content) + rest
  {
    SplitValueIsSplit(b);
    if SplitStringValue(b) == Ok((content, rest)) {
      SplitJoins(b);
    }
    if b == EncodeString(content) + rest {
      RlpSpec.SplitString(content, rest);
    }
  }

  lemma SplitListExact(b: seq<byte>, content: seq<byte>, rest: seq<byte>)
    requires Fits(|b|)
    ensures SplitListValue(b) == Ok((content, rest)) <==> b == EncodeList(content) + rest
  {
    SplitValueIsSplit(b);
    if SplitListValue(b) == Ok((content, rest)) {
      SplitJoins(b);
    }
    if b == EncodeList(content) + rest {
      RlpSpec.SplitList(content, rest);
    }
  }

  // ---------------------------------------------------------- unsigned integers

  /** `byte(i >> (8 * k))`. */
  function ShrByte(i: uint64, k: nat): byte
    requires k < 8
  {
    var n: nat := i;
    match k
    case 0 => ToByte(n)
    case 1 => ToByte(n / 0x100)
    case 2 => ToByte(n / 0x1_0000)
    case 3 => ToByte(n / 0x100_0000)
    case 4 => ToByte(n / 0x1_0000_0000)
    case 5 => ToByte(n / 0x100_0000_0000)
    case 6 => ToByte(n / 0x1_0000_0000_0000)
    case 7 => ToByte(n / 0x100_0000_0000_0000)
  }

  /** The low `k` bytes of `i`, most significant first. */
  function LowBytes(i: uint64, k: nat): seq<byte>
    requires k <= 8
  {
    if k == 0 then [] else [ShrByte(i, k - 1)] + LowBytes(i, k - 1)
  }

  function AppendUint64(b: seq<byte>, i: uint64): seq<byte> {
    if i == 0 then b + [0x80]
    else if i < 128 then b + [ToByte(i)]
    else if i < 0x100 then b + [0x81] + LowBytes(i, 1)
    else if i < 0x1_0000 then b + [0x82] + LowBytes(i, 2)
    else if i < 0x100_0000 then b + [0x83] + LowBytes(i, 3)
    else if i < 0x1_0000_0000 then b + [0x84] + LowBytes(i, 4)
    else if i < 0x100_0000_0000 then b + [0x85] + LowBytes(i, 5)
    else if i < 0x1_0000_0000_0000 then b + [0x86] + LowBytes(i, 6)
    else if i < 0x100_0000_0000_0000 then b + [0x87] + LowBytes(i, 7)
    else b + [0x88] + LowBytes(i, 8)
  }

  function ByteCount(i: uint64): nat { (BitLen(i) + 7) / 8 }

  function IntSize(x: uint64): nat { if x < 0x80 then 1 else 1 + ByteCount(x) }

  /** The integer encoding of the format: the string of its shortest big-endian form. */
  function EncodeUint(i: uint64): seq<byte> { EncodeString(ToBE(i)) }

  lemma {:induction false} LowBytesShift(i: uint64, k: nat)
    requires 1 <= k <= 8
    ensures LowBytes(i, k) == LowBytes(i / 256, k - 1) + [ToByte(i)]
  {
    if k > 1 {
      LowBytesShift(i, k - 1);
      ShrByteShift(i, k - 1);
    }
  }

  lemma ShrByteShift(i: uint64, k: nat)
    requires 1 <= k < 8
    ensures ShrByte(i, k) == ShrByte(i / 256, k - 1)
  {
    hide ToByte;
    var n: nat := i;
    match k
    case 1 =>
    case 2 => assert n / 0x1_0000 == n / 0x100 / 0x100;
    case 3 => assert n / 0x100_0000 == n / 0x100 / 0x1_0000;
    case 4 => assert n / 0x1_0000_0000 == n / 0x100 / 0x100_0000;
    case 5 => assert n / 0x100_0000_0000 == n / 0x100 / 0x1_0000_0000;
    case 6 => assert n / 0x1_0000_0000_0000 == n / 0x100 / 0x100_0000_0000;
    case 7 => assert n / 0x100_0000_0000_0000 == n / 0x100 / 0x1_0000_0000_0000;
  }

  lemma {:induction false} LowBytesIsShortest(i: uint64, k: nat)
    requires k <= 8 && |ToBE(i)| == k
    ensures LowBytes(i, k) == ToBE(i)
  {
    if k > 0 {
      LowBytesShift(i, k);
      LowBytesIsShortest(i / 256, k - 1);
    }
  }

  lemma ByteCountBounds(i: uint64)
    ensures i < 0x100 <==> |ToBE(i)| <= 1
    ensures i < 0x1_0000 <==> |ToBE(i)| <= 2
    ensures i < 0x100_0000 <==> |ToBE(i)| <= 3
    ensures i < 0x1_0000_0000 <==> |ToBE(i)| <= 4
    ensures i < 0x100_0000_0000 <==> |ToBE(i)| <= 5
    ensures i < 0x1_0000_0000_0000 <==> |ToBE(i)| <= 6
    ensures i < 0x100_0000_0000_0000 <==> |ToBE(i)| <= 7
    ensures |ToBE(i)| <= 8
    ensures 0 < i <==> 1 <= |ToBE(i)|
  {
    hide ToBE, Pow256;
    WordBytes(i);
    ToBELength(i, 0);
    assert forall k | 1 <= k <= 7 :: |ToBE(i)| <= k <==> i < Pow256(k) by {
      forall k | 1 <= k <= 7 ensures |ToBE(i)| <= k <==> i < Pow256(k) { ToBELength(i, k); }
    }
    PowersOf256();
  }

  lemma PowersOf256()
    ensures Pow256(0) == 1
    ensures Pow256(1) == 0x100
    ensures Pow256(2) == 0x1_0000
    ensures Pow256(3) == 0x100_0000
    ensures Pow256(4) == 0x1_0000_0000
    ensures Pow256(5) == 0x100_0000_0000
    ensures Pow256(6) == 0x1_0000_0000_0000
    ensures Pow256(7) == 0x100_0000_0000_0000
  {
    assert Pow256(1) == 256 * Pow256(0);
    assert Pow256(2) == 256 * Pow256(1);
    assert Pow256(3) == 256 * Pow256(2);
    assert Pow256(4) == 256 * Pow256(3);
    assert Pow256(5) == 256 * Pow256(4);
    assert Pow256(6) == 256 * Pow256(5);
    assert Pow256(7) == 256 * Pow256(6);
  }

  lemma ShortStringForm(c: seq<byte>)
    requires |c| <= 8
    ensures EncodeString(c) == if |c| == 1 && c[0] <= 0x7F then c else [0x80 + |c|] + c
  {
  }

  lemma OneByteNumber(i: nat)
    ensures 0 < i < 256 ==> ToBE(i) == [ToByte(i)]
    ensures |ToBE(i)| == 1 ==> ToBE(i)[0] == i
  {
    if 0 < i < 256 {
      assert ToBE(i / 256) == [];
    } else {
      ToBELength(i, 1);
      assert Pow256(1) == 256;
    }
  }

  lemma EncodeUintForm(i: uint64)
    ensures i == 0 ==> EncodeUint(i) == [0x80]
    ensures 0 < i < 128 ==> EncodeUint(i) == [ToByte(i)]
    ensures i >= 128 ==> EncodeUint(i) == [0x80 + |ToBE(i)|] + ToBE(i) && 1 <= |ToBE(i)| <= 8
  {
    var c := ToBE(i);
    assert |c| <= 8 && (0 < i <==> 1 <= |c|) by { ByteCountBounds(i); }
    assert (0 < i < 128 ==> c == [ToByte(i)]) && (|c| == 1 ==> c[0] == i) by { OneByteNumber(i); }
    ShortStringForm(c);
  }

  lemma AppendUint64Encodes(b: seq<byte>, i: uint64)
    ensures AppendUint64(b, i) == b + EncodeUint(i)
    ensures IntSize(i) == |EncodeUint(i)|
  {
    hide ToBE, LowBytes, BitLen, EncodeUint, AppendUint64;
    EncodeUintForm(i);
    BitLenBytes(i);
    if i >= 128 {
      AppendForm(b, i);
      LowBytesIsShortest(i, |ToBE(i)|);
      assert b + [0x80 + |ToBE(i)|] + ToBE(i) == b + ([0x80 + |ToBE(i)|] + ToBE(i));
    } else {
      AppendSmall(b, i);
    }
  }

  lemma AppendSmall(b: seq<byte>, i: uint64)
    requires i < 128
    ensures AppendUint64(b, i) == b + if i == 0 then [0x80] else [ToByte(i)]
  {
  }

  /** The branches from 128 on: a tag with the number of bytes, and the low bytes. */
  lemma AppendForm(b: seq<byte>, i: uint64)
    requires i >= 128
    ensures 1 <= |ToBE(i)| <= 8 && AppendUint64(b, i) == b + [0x80 + |ToBE(i)|] + LowBytes(i, |ToBE(i)|)
  {
    hide ToBE, LowBytes;
    ByteCountBounds(i);
  }

  /** SplitUint64 succeeds exactly on the encoding of a 64-bit number followed by the rest. */
  lemma SplitUint64Exact(b: seq<byte>, x: nat, rest: seq<byte>)
    requires Fits(|b|)
    ensures SplitUint64(b) == Ok((x, rest)) <==> x < WORD && b == EncodeUint(x) + rest
  {
    if SplitUint64(b) == Ok((x, rest)) {
      var (content, _) := SplitStringValue(b).value;
      SplitStringExact(b, content, rest);
      if content != [] { Uint64OfContent(content); }
    }
    if x < WORD && b == EncodeUint(x) + rest {
      SplitStringExact(b, ToBE(x), rest);
      ContentOfUint64(x);
    }
  }

  lemma Uint64OfContent(c: seq<byte>)
    requires 1 <= |c| <= 8
    ensures |c| == 1 && c[0] != 0 ==> ToBE(c[0]) == c
    ensures |c| > 1 && ReadSize(c, |c|).Ok? ==> ToBE(ReadSize(c, |c|).value) == c
    ensures ReadSize(c, |c|).Ok? ==> ReadSize(c, |c|).value < WORD
  {
    ShiftOrIsBigEndian(c, |c|);
    assert c[..|c|] == c;
    if c[0] != 0 { ToFromBE(c); }
    WordBytes(FromBE(c));
  }

  lemma ContentOfUint64(x: uint64)
    ensures |ToBE(x)| <= 8
    ensures |ToBE(x)| == 0 ==> x == 0
    ensures |ToBE(x)| == 1 ==> ToBE(x)[0] == x && x != 0
    ensures |ToBE(x)| > 1 ==> ReadSize(ToBE(x), |ToBE(x)|) == Ok(x)
  {
    WordBytes(x);
    var c := ToBE(x);
    FromToBE(x);
    if c != [] {
      ToBELeads(x);
      ShiftOrIsBigEndian(c, |c|);
      assert c[..|c|] == c;
      if |c| > 1 { ToBELength(x, 1); }
    }
  }

  // ------------------------------------------------------ values in a list

  /** The encodings of the values `b` is made of, one after the other. */
  function Elements(b: seq<byte>): Result<seq<seq<byte>>>
    decreases |b|
  {
    if b == [] then Ok([])
    else
      match Split(b)
      case Err(e) => Err(e)
      case Ok((_, _, rest)) =>
        SplitShrinks(b);
        match Elements(rest)
        case Err(e) => Err(e)
        case Ok(es) => Ok([b[..|b| - |rest|]] + es)
  }

  /** Over the content of a well-formed list the elements are the encodings, in order. */
  lemma {:induction false} ElementsOfList(b: seq<byte>)
    requires DecodeAll(b).Ok?
    ensures Elements(b).Ok?
    ensures var vs := DecodeAll(b).value;
            && |Elements(b).value| == |vs|
            && forall i | 0 <= i < |vs| :: Elements(b).value[i] == Encode(vs[i])
    decreases |b|
  {
    if b != [] {
      var (v, rest) := Decode(b).value;
      EncodeDecode(b);
      DecodeShrinks(b);
      assert b[..|b| - |rest|] == Encode(v);
      ElementsOfList(rest);
    }
  }

  /** A value is a tag and its content. */
  lemma HeadSpans(b: seq<byte>)
    requires Fits(|b|)
    ensures Split(b).Ok? ==>
              && ReadKind(b) == ParseHead(b)
              && ReadKind(b).Ok?
              && var h := ReadKind(b).value;
              && 0 < h.tag + h.size <= |b|
              && Split(b).value.2 == b[h.tag + h.size..]
    ensures Split(b).Err? ==> ReadKind(b) == Err(Split(b).error)
  {
    ReadKindParses(b);
  }

  method CountValues(data: seq<byte>) returns (r: Result<nat>)
    requires Fits(|data|)
    ensures r.Ok? <==> Elements(data).Ok?
    ensures r.Ok? ==> r.value == |Elements(data).value|
    ensures r.Err? ==> r == Err(Elements(data).error)
  {
    var b := data;
    var i := 0;
    while |b| > 0
      invariant |b| <= |data|
      invariant Elements(data).Ok? <==> Elements(b).Ok?
      invariant Elements(b).Ok? ==> |Elements(data).value| == i + |Elements(b).value|
      invariant Elements(b).Err? ==> Elements(data).error == Elements(b).error
      decreases |b|
    {
      HeadSpans(b);
      var k := ReadKind(b);
      if k.Err? { return Err(k.error); }
      b := b[k.value.tag + k.value.size..];
      i := i + 1;
    }
    return Ok(i);
  }

  /** rlp/iterator.go */
  class ListIterator {
    var data: seq<byte>
    var next: seq<byte>
    var err: Result<()>

    constructor (content: seq<byte>)
      requires Fits(|content|)
      ensures data == content && next == [] && err == Ok(())
    {
      data, next, err := content, [], Ok(());
    }

    /** `Next`: advances over one value; on a malformed value it reports the error
        through `err` and stays where it is. */
    method Next() returns (more: bool)
      requires Fits(|data|)
      modifies this
      ensures Fits(|data|)
      ensures more <==> old(data) != []
      ensures !more ==> data == old(data) && next == old(next) && err == old(err)
      ensures more && Split(old(data)).Ok? ==>
                next + data == old(data) && data == Split(old(data)).value.2 && |data| < |old(data)| && err == Ok(())
      ensures more && Split(old(data)).Err? ==>
                next == [] && data == old(data) && err == Err(Split(old(data)).error)
    {
      if |data| == 0 { return false; }
      HeadSpans(data);
      SplitShrinks(data);
      var k := ReadKind(data);
      var span := if k.Ok? then k.value.tag + k.value.size else 0;
      next, data := data[..span], data[span..];
      err := if k.Ok? then Ok(()) else Err(k.error);
      return true;
    }
  }

  method NewListIterator(raw: seq<byte>) returns (r: Result<ListIterator>)
    requires Fits(|raw|)
    ensures r.Ok? <==> SplitListValue(raw).Ok?
    ensures r.Ok? ==> fresh(r.value) && r.value.data == SplitListValue(raw).value.0
    ensures r.Err? ==> r.error == SplitListValue(raw).error
  {
    HeadSpans(raw);
    var k := ReadKind(raw);
    if k.Err? { return Err(k.error); }
    if k.value.kind != ListKind { return Err(ExpectedList); }
    var it := new ListIterator(raw[k.value.tag..k.value.tag + k.value.size]);
    return Ok(it);
  }

  /** Iterating to the end yields the elements, exactly when there is no malformed one. */
  method IterateAll(it: ListIterator) returns (values: seq<seq<byte>>, err: Result<()>)
    requires Fits(|it.data|)
    modifies it
    ensures err.Ok? <==> Elements(old(it.data)).Ok?
    ensures err.Ok? ==> values == Elements(old(it.data)).value && it.data == []
    ensures err.Err? ==> err.error == Elements(old(it.data)).error
  {
    values := [];
    while true
      invariant Fits(|it.data|)
      invariant Elements(old(it.data)).Ok? <==> Elements(it.data).Ok?
      invariant Elements(it.data).Ok? ==> Elements(old(it.data)).value == values + Elements(it.data).value
      invariant Elements(it.data).Err? ==> Elements(old(it.data)).error == Elements(it.data).error
      decreases |it.data|
    {
      ghost var before := it.data;
      var more := it.Next();
      if !more { return values, Ok(()); }
      if it.err.Err? { return values, it.err; }
      assert before[..|before| - |it.data|] == it.next;
      values := values + [it.next];
    }
  }
}
