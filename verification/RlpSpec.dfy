/** Recursive Length Prefix, Appendix B of the Ethereum Yellow Paper: the recursive
    encoder, the recursive decoder, and the proof that they are exact inverses.
    The stateful encoder, the stream decoder and the slice reader are proved
    against these definitions. */
module RlpSpec {
  import opened Basics
  import opened BigEndian

  /** What decoding into an empty interface yields. */
  datatype Value = Bytes(data: seq<byte>) | List(items: seq<Value>)

  datatype Kind = Byte | String | ListKind

  datatype Error =
    | EOL | EOF | UnexpectedEOF
    | ExpectedString | ExpectedList
    | CanonInt | CanonSize
    | ElemTooLarge | ValueTooLarge | MoreThanOneValue
    | NotInList | NotAtEOL | UintOverflow

  datatype Result<T> = Ok(value: T) | Err(error: Error)

  /** A parsed type tag: `tag` bytes of header, then `size` bytes of content. */
  datatype Head = Head(kind: Kind, tag: nat, size: nat)

  // ---------------------------------------------------------------- encoding

  function Header(small: byte, large: byte, size: nat): (h: seq<byte>) {
    if size < 56 then [ToByte(small + size)]
    else [ToByte(large + |ToBE(size)|)] + ToBE(size)
  }

  function StringHeader(size: nat): seq<byte> { Header(0x80, 0xB7, size) }

  function ListHeader(size: nat): seq<byte> { Header(0xC0, 0xF7, size) }

  function EncodeString(b: seq<byte>): seq<byte> {
    if |b| == 1 && b[0] <= 0x7F then b else StringHeader(|b|) + b
  }

  function EncodeList(content: seq<byte>): seq<byte> {
    ListHeader(|content|) + content
  }

  function Encode(v: Value): seq<byte>
    decreases v, 0
  {
    match v
    case Bytes(b) => EncodeString(b)
    case List(items) => EncodeList(EncodeAll(items))
  }

  function EncodeAll(vs: seq<Value>): seq<byte>
    decreases vs, 1
  {
    if vs == [] then [] else Encode(vs[0]) + EncodeAll(vs[1..])
  }

  // ---------------------------------------------------------------- decoding

  /** Reads the type tag at the front of `b` without looking at the content. */
  function ParseHead(b: seq<byte>): Result<Head> {
    if b == [] then Err(UnexpectedEOF)
    else if b[0] < 0x80 then Ok(Head(Byte, 0, 1))
    else if b[0] < 0xB8 then Ok(Head(String, 1, b[0] - 0x80))
    else if b[0] < 0xC0 then ParseLong(b, String, b[0] - 0xB7)
    else if b[0] < 0xF8 then Ok(Head(ListKind, 1, b[0] - 0xC0))
    else ParseLong(b, ListKind, b[0] - 0xF7)
  }

  function ParseLong(b: seq<byte>, kind: Kind, k: nat): Result<Head>
    requires k > 0 && b != []
  {
    if |b| < 1 + k then Err(UnexpectedEOF)
    else if b[1] == 0 || FromBE(b[1..1 + k]) < 56 then Err(CanonSize)
    else Ok(Head(kind, 1 + k, FromBE(b[1..1 + k])))
  }

  /** A one-byte string below 0x80 must be written as that byte. */
  predicate NeedlessHeader(h: Head, content: seq<byte>) {
    h.kind == String && h.size == 1 && content != [] && content[0] < 0x80
  }

  /** Kind, content and rest of the first value in `b`. */
  function Split(b: seq<byte>): Result<(Kind, seq<byte>, seq<byte>)> {
    match ParseHead(b)
    case Err(e) => Err(e)
    case Ok(h) =>
      if h.tag > |b| || h.size > |b| - h.tag then Err(ValueTooLarge)
      else if NeedlessHeader(h, b[h.tag..]) then Err(CanonSize)
      else Ok((h.kind, b[h.tag..h.tag + h.size], b[h.tag + h.size..]))
  }

  lemma SplitShrinks(b: seq<byte>)
    ensures Split(b).Ok? ==>
              var (k, content, rest) := Split(b).value;
              && |rest| < |b|
              && |content| + |rest| <= |b|
              && (k == ListKind ==> |content| < |b|)
  {
    if Split(b).Ok? {
      var h := ParseHead(b).value;
      assert h.tag == 0 ==> h.size == 1;
    }
  }

  function Decode(b: seq<byte>): Result<(Value, seq<byte>)>
    decreases |b|, 0
  {
    match Split(b)
    case Err(e) => Err(e)
    case Ok((k, content, rest)) =>
      SplitShrinks(b);
      if k != ListKind then Ok((Bytes(content), rest))
      else
        match DecodeAll(content)
        case Err(e) => Err(e)
        case Ok(items) => Ok((List(items), rest))
  }

  function DecodeAll(b: seq<byte>): Result<seq<Value>>
    decreases |b|, 1
  {
    if b == [] then Ok([])
    else
      match Decode(b)
      case Err(e) => Err(e)
      case Ok((v, rest)) =>
        if |rest| >= |b| then Err(ValueTooLarge)
        else
          match DecodeAll(rest)
          case Err(e) => Err(e)
          case Ok(vs) => Ok([v] + vs)
  }

  lemma DecodeShrinks(b: seq<byte>)
    ensures Decode(b).Ok? ==> |Decode(b).value.1| < |b|
  {
    SplitShrinks(b);
  }

  // ------------------------------------------------- headers are read back

  /** A long tag over size bytes `s` parses to the number they stand for. */
  lemma LongTagParses(kind: Kind, s: seq<byte>, b: seq<byte>)
    requires kind != Byte && 1 <= |s| <= 8 && s[0] != 0 && FromBE(s) >= 56
    requires |b| > |s| && b[0] == |s| + (if kind == String then 0xB7 else 0xF7) && b[1..1 + |s|] == s
    ensures ParseHead(b) == Ok(Head(kind, 1 + |s|, FromBE(s)))
  {
    hide FromBE;
    assert b[1] == s[0];
  }

  /** The header of a size below 2^64 parses back to that size. */
  lemma HeaderParses(kind: Kind, size: uint64, rest: seq<byte>)
    requires kind != Byte
    ensures var h := if kind == String then StringHeader(size) else ListHeader(size);
            ParseHead(h + rest) == Ok(Head(kind, |h|, size))
  {
    if size < 56 {
      var h := if kind == String then StringHeader(size) else ListHeader(size);
      assert (h + rest)[0] == h[0];
    } else {
      LongHeaderParses(kind, size, rest);
    }
  }

  lemma LongHeaderParses(kind: Kind, size: uint64, rest: seq<byte>)
    requires kind != Byte && size >= 56
    ensures var h := if kind == String then StringHeader(size) else ListHeader(size);
            ParseHead(h + rest) == Ok(Head(kind, |h|, size))
  {
    hide ParseHead, ToBE, FromBE;
    var s := ToBE(size);
    var h := if kind == String then StringHeader(size) else ListHeader(size);
    WordBytes(size);
    ToBELeads(size);
    FromToBE(size);
    assert (h + rest)[1..1 + |s|] == s;
    LongTagParses(kind, s, h + rest);
  }

  lemma LongTagIsCanonical(b: seq<byte>, kind: Kind, k: nat)
    requires 0 < k <= 8 && b != [] && ParseLong(b, kind, k).Ok?
    ensures var n := FromBE(b[1..1 + k]);
            n < WORD && ToBE(n) == b[1..1 + k]
  {
    var s := b[1..1 + k];
    assert s[0] == b[1];
    ToFromBE(s);
    WordBytes(FromBE(s));
  }

  /** A parsed header is the one the encoder would write. */
  lemma ParsedHeaderIsCanonical(b: seq<byte>)
    requires ParseHead(b).Ok? && ParseHead(b).value.kind != Byte
    ensures var h := ParseHead(b).value;
            && h.tag <= |b|
            && h.size < WORD
            && b[..h.tag] == if h.kind == String then StringHeader(h.size) else ListHeader(h.size)
  {
    hide FromBE, ToBE;
    var h := ParseHead(b).value;
    if 0xB8 <= b[0] < 0xC0 || 0xF8 <= b[0] {
      LongTagIsCanonical(b, h.kind, h.tag - 1);
      assert b[..h.tag] == [b[0]] + b[1..h.tag];
      LongHeaderOf(h.kind, b[0], h.size);
    } else {
      assert b[..1] == [b[0]];
    }
  }

  lemma LongHeaderOf(kind: Kind, tag: byte, size: nat)
    requires kind != Byte && size >= 56
    requires |ToBE(size)| == tag - if kind == String then 0xB7 else 0xF7
    ensures (if kind == String then StringHeader(size) else ListHeader(size)) == [tag] + ToBE(size)
  {
  }

  // ------------------------------------------------------ splitting encodings

  lemma SplitString(b: seq<byte>, rest: seq<byte>)
    requires |b| < WORD
    ensures Split(EncodeString(b) + rest).Ok?
    ensures Split(EncodeString(b) + rest).value == (if |b| == 1 && b[0] <= 0x7F then Byte else String, b, rest)
  {
    hide ToBE, FromBE;
    var e := EncodeString(b);
    if !(|b| == 1 && b[0] <= 0x7F) {
      var h := StringHeader(|b|);
      HeaderParses(String, |b|, b + rest);
      assert e + rest == h + (b + rest);
      assert (e + rest)[|h|..] == b + rest;
      assert (e + rest)[|h|..|h| + |b|] == b;
      assert (e + rest)[|h| + |b|..] == rest;
    } else {
      assert (e + rest)[0..1] == b;
      assert (e + rest)[1..] == rest;
    }
  }

  lemma SplitList(content: seq<byte>, rest: seq<byte>)
    requires |content| < WORD
    ensures Split(EncodeList(content) + rest) == Ok((ListKind, content, rest))
  {
    hide ParseHead, ToBE;
    var h := ListHeader(|content|);
    var e := EncodeList(content);
    HeaderParses(ListKind, |content|, content + rest);
    assert e + rest == h + (content + rest);
    assert (e + rest)[|h|..|h| + |content|] == content;
    assert (e + rest)[|h| + |content|..] == rest;
  }

  /** What Split takes apart is put together again by the encoder. */
  lemma SplitJoins(b: seq<byte>)
    requires Split(b).Ok?
    ensures var (k, content, rest) := Split(b).value;
            b == (if k == ListKind then EncodeList(content) else EncodeString(content)) + rest
  {
    hide FromBE, ToBE;
    var h := ParseHead(b).value;
    var (k, content, rest) := Split(b).value;
    assert b == b[..h.tag] + content + rest;
    if k == Byte {
      assert content == [b[0]];
    } else {
      ParsedHeaderIsCanonical(b);
      if |content| == 1 { assert content[0] == b[h.tag..][0]; }
    }
  }

  // ------------------------------------------------------------ exact inverses

  /** Encoded sizes the codec can represent (a Go `int`). */
  ghost predicate Fits(n: nat) { n < 0x8000_0000_0000_0000 }

  lemma {:induction false} DecodeEncode(v: Value, rest: seq<byte>)
    requires Fits(|Encode(v)|)
    ensures Decode(Encode(v) + rest) == Ok((v, rest))
    decreases v, 0
  {
    match v
    case Bytes(b) =>
      SplitString(b, rest);
    case List(items) =>
      var c := EncodeAll(items);
      SplitList(c, rest);
      DecodeEncodeAll(items);
  }

  lemma {:induction false} DecodeEncodeAll(vs: seq<Value>)
    requires Fits(|EncodeAll(vs)|)
    ensures DecodeAll(EncodeAll(vs)) == Ok(vs)
    decreases vs, 1
  {
    if vs != [] {
      var tail := EncodeAll(vs[1..]);
      DecodeEncode(vs[0], tail);
      DecodeShrinks(Encode(vs[0]) + tail);
      DecodeEncodeAll(vs[1..]);
      assert [vs[0]] + vs[1..] == vs;
    }
  }

  /** Every accepted byte string is the encoding of the value it is read as. */
  lemma {:induction false} EncodeDecode(b: seq<byte>)
    requires Decode(b).Ok?
    ensures b == Encode(Decode(b).value.0) + Decode(b).value.1
    decreases |b|, 0
  {
    SplitShrinks(b);
    SplitJoins(b);
    var (k, content, _) := Split(b).value;
    if k == ListKind { EncodeDecodeAll(content); }
  }

  lemma {:induction false} EncodeDecodeAll(b: seq<byte>)
    requires DecodeAll(b).Ok?
    ensures b == EncodeAll(DecodeAll(b).value)
    decreases |b|, 1
  {
    if b != [] {
      var (v, rest) := Decode(b).value;
      EncodeDecode(b);
      EncodeDecodeAll(rest);
      assert DecodeAll(b).value[1..] == DecodeAll(rest).value;
    }
  }

  /** Decoding accepts exactly the encodings, and each value has one. */
  lemma AcceptedIffEncoding(b: seq<byte>, v: Value)
    requires Fits(|b|)
    ensures Decode(b) == Ok((v, [])) <==> b == Encode(v)
  {
    if Decode(b) == Ok((v, [])) {
      EncodeDecode(b);
    }
    if b == Encode(v) {
      DecodeEncode(v, []);
      assert Encode(v) + [] == b;
    }
  }

  /** No two values share an encoding, and no encoding is a proper prefix of another. */
  lemma PrefixFree(v: Value, w: Value, rest: seq<byte>)
    requires Fits(|Encode(v)|) && Fits(|Encode(w)|)
    requires Encode(w) == Encode(v) + rest
    ensures v == w && rest == []
  {
    DecodeEncode(v, rest);
    DecodeEncode(w, []);
    assert Encode(w) + [] == Encode(w);
  }
}
