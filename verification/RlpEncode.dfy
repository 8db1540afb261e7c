/** The two-phase encoder of rlp/encode.go: string data is written first, list headers
    are recorded with their offsets and spliced in afterwards. */
module RlpEncode {
  import opened Basics
  import opened BigEndian
  import opened RlpSpec
  import opened RlpRaw

  // ---------------------------------------------------- writing into buffers

  /** Writes the low `k` bytes of `i` to `b[at..]`. */
  method StoreLow(b: array<byte>, at: nat, i: uint64, k: nat)
    requires k <= 8 && at + k <= b.Length
    modifies b
    ensures b[at..at + k] == LowBytes(i, k)
    ensures b[..at] == old(b[..at]) && b[at + k..] == old(b[at + k..])
  {
    forall j | 0 <= j < k { b[at + j] := ShrByte(i, k - 1 - j); }
    LowBytesAt(i, k);
  }

  lemma {:induction false} LowBytesAt(i: uint64, k: nat)
    requires k <= 8
    ensures |LowBytes(i, k)| == k
    ensures forall j | 0 <= j < k :: LowBytes(i, k)[j] == ShrByte(i, k - 1 - j)
  {
    if k > 0 { LowBytesAt(i, k - 1); }
  }

  method PutInt(b: array<byte>, at: nat, i: uint64) returns (size: nat)
    requires at + (if i == 0 then 1 else |ToBE(i)|) <= b.Length
    modifies b
    ensures size == if i == 0 then 1 else |ToBE(i)|
    ensures b[at..at + size] == if i == 0 then [0] else ToBE(i)
    ensures b[..at] == old(b[..at]) && b[at + size..] == old(b[at + size..])
  {
    ByteCountBounds(i);
    size := if i < 0x100 then 1
            else if i < 0x1_0000 then 2
            else if i < 0x100_0000 then 3
            else if i < 0x1_0000_0000 then 4
            else if i < 0x100_0000_0000 then 5
            else if i < 0x1_0000_0000_0000 then 6
            else if i < 0x100_0000_0000_0000 then 7
            else 8;
    StoreLow(b, at, i, size);
    if i == 0 { assert LowBytes(i, 1) == [0]; } else { LowBytesIsShortest(i, size); }
  }

  function HeadSize(size: uint64): nat { if size < 56 then 1 else 1 + ByteCount(size) }

  lemma HeadSizeIsExact(small: byte, large: byte, size: uint64)
    ensures HeadSize(size) == |Header(small, large, size)| <= 9
  {
    BitLenBytes(size);
    WordBytes(size);
  }

  /** Writes a header to `buf[at..]`. Only the header's own bytes need to be there. */
  method PutHead(buf: array<byte>, at: nat, small: byte, large: byte, size: uint64) returns (n: nat)
    requires at + HeadSize(size) <= buf.Length
    modifies buf
    ensures n == HeadSize(size)
    ensures buf[at..at + n] == Header(small, large, size)
    ensures buf[..at] == old(buf[..at]) && buf[at + n..] == old(buf[at + n..])
  {
    HeadSizeIsExact(small, large, size);
    if size < 56 {
      buf[at] := ToByte(small + size);
      return 1;
    }
    n := PutLongHead(buf, at, large, size);
  }

  method PutLongHead(buf: array<byte>, at: nat, large: byte, size: uint64) returns (n: nat)
    requires size >= 56 && at + 1 + |ToBE(size)| <= buf.Length
    modifies buf
    ensures n == 1 + |ToBE(size)|
    ensures buf[at..at + n] == [ToByte(large + |ToBE(size)|)] + ToBE(size)
    ensures buf[..at] == old(buf[..at]) && buf[at + n..] == old(buf[at + n..])
  {
    ghost var before := buf[..];
    var sizesize := PutInt(buf, at + 1, size);
    n := sizesize + 1;
    ghost var mid := buf[..];
    assert mid[at + 1..at + n] == ToBE(size);
    assert mid[..at] == mid[..at + 1][..at] == before[..at];
    buf[at] := ToByte(large + sizesize);
    assert buf[..] == mid[at := buf[at]];
    assert buf[at..at + n] == [buf[at]] + mid[at + 1..at + n];
    assert buf[at + n..] == mid[at + n..];
  }

  // ------------------------------------------------------- splicing headers in

  /** A list header: where it goes in the string data, and the size it announces. */
  datatype ListHead = ListHead(offset: nat, size: nat)

  /** The heads sit in order, inside `[lo, hi]`, and announce sizes a header can hold. */
  ghost predicate Ordered(hs: seq<ListHead>, lo: nat, hi: nat) {
    if hs == [] then lo <= hi
    else lo <= hs[0].offset && Fits(hs[0].size) && Ordered(hs[1..], hs[0].offset, hi)
  }

  lemma {:induction false} OrderedRange(hs: seq<ListHead>, lo: nat, hi: nat)
    requires Ordered(hs, lo, hi)
    ensures lo <= hi && (hs != [] ==> hs[0].offset <= hi)
  {
    if hs != [] { OrderedRange(hs[1..], hs[0].offset, hi); }
  }

  /** The string data from `pos` on, with every header put in at its offset. */
  ghost function Splice(str: seq<byte>, hs: seq<ListHead>, pos: nat): seq<byte>
    requires Ordered(hs, pos, |str|)
    decreases |hs|
  {
    OrderedRange(hs, pos, |str|);
    if hs == [] then str[pos..]
    else str[pos..hs[0].offset] + ListHeader(hs[0].size) + Splice(str, hs[1..], hs[0].offset)
  }

  ghost function HeadBytes(hs: seq<ListHead>): nat {
    if hs == [] then 0 else |ListHeader(hs[0].size)| + HeadBytes(hs[1..])
  }

  lemma {:induction false} SpliceLength(str: seq<byte>, hs: seq<ListHead>, pos: nat)
    requires Ordered(hs, pos, |str|)
    ensures |Splice(str, hs, pos)| == |str| - pos + HeadBytes(hs)
    decreases |hs|
  {
    OrderedRange(hs, pos, |str|);
    if hs != [] { SpliceLength(str, hs[1..], hs[0].offset); }
  }

  lemma {:induction false} HeadBytesConcat(hs: seq<ListHead>, gs: seq<ListHead>)
    ensures HeadBytes(hs + gs) == HeadBytes(hs) + HeadBytes(gs)
  {
    if hs == [] {
      assert hs + gs == gs;
    } else {
      HeadBytesConcat(hs[1..], gs);
      assert (hs + gs)[1..] == hs[1..] + gs;
    }
  }

  lemma Concat3(a: seq<byte>, l: seq<byte>, x: seq<byte>, y: seq<byte>)
    ensures a + l + (x + y) == (a + l + x) + y
  {
  }

  /** Splicing distributes over writing more data and more headers behind it. */
  lemma {:induction false} SpliceConcat(s: seq<byte>, hs: seq<ListHead>, t: seq<byte>, gs: seq<ListHead>, pos: nat)
    requires s <= t
    requires Ordered(hs, pos, |s|) && Ordered(gs, |s|, |t|)
    ensures Ordered(hs + gs, pos, |t|)
    ensures Splice(t, hs + gs, pos) == Splice(s, hs, pos) + Splice(t, gs, |s|)
    decreases |hs|
  {
    hide Splice, ListHeader;
    OrderedConcat(hs, gs, pos, |s|, |t|);
    if hs == [] {
      assert hs + gs == gs;
      SpliceEnd(s, pos);
      SpliceFrom(t, gs, pos, |s|);
      assert t[pos..|s|] == s[pos..];
    } else {
      var h := hs[0];
      SpliceConcat(s, hs[1..], t, gs, h.offset);
      assert (hs + gs)[0] == h && (hs + gs)[1..] == hs[1..] + gs;
      SpliceStep(t, hs + gs, pos);
      SpliceStep(s, hs, pos);
      assert s[pos..h.offset] == t[pos..h.offset];
      Concat3(s[pos..h.offset], ListHeader(h.size), Splice(s, hs[1..], h.offset), Splice(t, gs, |s|));
    }
  }

  lemma {:induction false} OrderedConcat(hs: seq<ListHead>, gs: seq<ListHead>, lo: nat, mid: nat, hi: nat)
    requires Ordered(hs, lo, mid) && Ordered(gs, mid, hi)
    ensures Ordered(hs + gs, lo, hi)
  {
    if hs == [] {
      assert hs + gs == gs;
      OrderedRange(gs, mid, hi);
    } else {
      OrderedConcat(hs[1..], gs, hs[0].offset, mid, hi);
      assert (hs + gs)[1..] == hs[1..] + gs;
    }
  }

  lemma SpliceStep(str: seq<byte>, hs: seq<ListHead>, pos: nat)
    requires hs != [] && Ordered(hs, pos, |str|)
    ensures pos <= hs[0].offset <= |str| && Ordered(hs[1..], hs[0].offset, |str|)
    ensures Splice(str, hs, pos) == str[pos..hs[0].offset] + ListHeader(hs[0].size) + Splice(str, hs[1..], hs[0].offset)
  {
    OrderedRange(hs, pos, |str|);
  }

  lemma SpliceEnd(str: seq<byte>, pos: nat)
    requires Ordered([], pos, |str|)
    ensures pos <= |str| && Splice(str, [], pos) == str[pos..]
  {
  }

  lemma SpliceNext(str: seq<byte>, hs: seq<ListHead>, i: nat, pos: nat)
    requires i < |hs| && Ordered(hs[i..], pos, |str|)
    ensures pos <= hs[i].offset <= |str| && Ordered(hs[i + 1..], hs[i].offset, |str|) && Fits(hs[i].size)
    ensures Splice(str, hs[i..], pos)
         == str[pos..hs[i].offset] + ListHeader(hs[i].size) + Splice(str, hs[i + 1..], hs[i].offset)
  {
    SpliceStep(str, hs[i..], pos);
    assert hs[i..][1..] == hs[i + 1..];
  }

  /** Data in front of the first header is copied as it is. */
  lemma SpliceFrom(str: seq<byte>, hs: seq<ListHead>, lo: nat, mid: nat)
    requires lo <= mid && Ordered(hs, mid, |str|)
    ensures Ordered(hs, lo, |str|)
    ensures mid <= |str| && Splice(str, hs, lo) == str[lo..mid] + Splice(str, hs, mid)
  {
    OrderedRange(hs, mid, |str|);
    if hs == [] {
      assert str[lo..] == str[lo..mid] + str[mid..];
    } else {
      var h := hs[0];
      assert str[lo..h.offset] == str[lo..mid] + str[mid..h.offset];
      SpliceStep(str, hs, lo);
      SpliceStep(str, hs, mid);
      Concat4(str[lo..mid], str[mid..h.offset], ListHeader(h.size), Splice(str, hs[1..], h.offset));
    }
  }

  lemma Concat4(a: seq<byte>, b: seq<byte>, l: seq<byte>, x: seq<byte>)
    ensures a + b + l + x == a + (b + l + x)
  {
  }

  lemma {:induction false} EncodeAllSnoc(vs: seq<Value>, v: Value)
    ensures EncodeAll(vs + [v]) == EncodeAll(vs) + Encode(v)
  {
    hide Encode, EncodeAll;
    EncodeAllFirst(vs + [v]);
    if vs == [] {
      EncodeNone();
      assert vs + [v] == [v] && [v][1..] == [];
    } else {
      EncodeAllSnoc(vs[1..], v);
      EncodeAllFirst(vs);
      assert (vs + [v])[1..] == vs[1..] + [v];
    }
  }

  lemma EncodeAllFirst(vs: seq<Value>)
    requires vs != []
    ensures EncodeAll(vs) == Encode(vs[0]) + EncodeAll(vs[1..])
  {
  }

  lemma EncodeNone()
    ensures EncodeAll([]) == []
  {
  }

  lemma {:induction false} EncodeAllMonotone(vs: seq<Value>, i: nat)
    requires i < |vs|
    ensures |EncodeAll(vs[..i])| + |Encode(vs[i])| <= |EncodeAll(vs)|
  {
    if i == 0 {
      assert vs[..0] == [];
    } else {
      EncodeAllMonotone(vs[1..], i - 1);
      assert vs[..i][1..] == vs[1..][..i - 1];
    }
  }

  // --------------------------------------------------------------- the buffer

  /** The contents of a buffer: string data, recorded heads, bytes the heads will take. */
  datatype Draft = Draft(str: seq<byte>, heads: seq<ListHead>, headBytes: nat)

  /** Draft `e` continues `d`, nothing older was touched, and what was added renders as `bytes`. */
  ghost predicate Adds(d: Draft, e: Draft, bytes: seq<byte>) {
    && d.str <= e.str && d.heads <= e.heads
    && var added := e.heads[|d.heads|..];
    && Ordered(added, |d.str|, |e.str|)
    && e.headBytes == d.headBytes + HeadBytes(added)
    && Splice(e.str, added, |d.str|) == bytes
  }

  /** What is added is what the size grows by. */
  lemma AddsSize(d: Draft, e: Draft, bytes: seq<byte>)
    requires Adds(d, e, bytes)
    ensures |e.str| + e.headBytes == |d.str| + d.headBytes + |bytes|
  {
    SpliceLength(e.str, e.heads[|d.heads|..], |d.str|);
  }

  lemma AddsTransitive(d: Draft, e: Draft, f: Draft, x: seq<byte>, y: seq<byte>)
    requires Adds(d, e, x) && Adds(e, f, y)
    ensures Adds(d, f, x + y)
  {
    var hs, gs := e.heads[|d.heads|..], f.heads[|e.heads|..];
    assert f.heads[|d.heads|..] == hs + gs;
    SpliceConcat(e.str, hs, f.str, gs, |d.str|);
    HeadBytesConcat(hs, gs);
  }

  /** Closing a list turns its content into the list: the head was recorded in front of it. */
  lemma AddsList(d: Draft, e: Draft, h: ListHead, content: seq<byte>)
    requires Adds(Draft(d.str, d.heads + [h], d.headBytes), e, content)
    requires Fits(|content|)
    ensures var head := ListHead(|d.str|, |content|);
            Adds(d, Draft(e.str, e.heads[|d.heads| := head], e.headBytes + |ListHeader(|content|)|),
                 EncodeList(content))
  {
    var head := ListHead(|d.str|, |content|);
    var hs := e.heads[|d.heads| + 1..];
    var added := e.heads[|d.heads| := head][|d.heads|..];
    assert added == [head] + hs && added[1..] == hs;
    assert e.str[|d.str|..|d.str|] == [];
  }

  class EncBuf {
    var str: seq<byte>
    var lheads: seq<ListHead>
    var lhsize: nat
    const sizebuf: array<byte>

    ghost predicate Valid() { sizebuf.Length == 9 }

    constructor ()
      ensures Valid() && fresh(sizebuf)
      ensures State() == Draft([], [], 0)
    {
      str, lheads, lhsize := [], [], 0;
      sizebuf := new byte[9](_ => 0);
    }

    function State(): Draft
      reads this
    {
      Draft(str, lheads, lhsize)
    }

    /** Everything is written: no list is left open. */
    ghost predicate Complete()
      reads this
    {
      Valid() && Ordered(lheads, 0, |str|) && lhsize == HeadBytes(lheads)
    }

    function Size(): nat
      reads this
    {
      |str| + lhsize
    }

    method EncodeStringHeader(size: nat)
      requires Valid() && Fits(size)
      modifies this`str, sizebuf
      ensures str == old(str) + StringHeader(size)
    {
      if size < 56 {
        str := str + [0x80 + size];
      } else {
        WordBytes(size);
        var n := PutLongHead(sizebuf, 0, 0xB7, size);
        str := str + sizebuf[..n];
      }
    }

    method EncodeBytes(b: seq<byte>)
      requires Valid() && Fits(|b|)
      modifies this`str, sizebuf
      ensures str == old(str) + EncodeString(b)
    {
      hide StringHeader;
      ghost var was := str;
      if |b| == 1 && b[0] <= 0x7F {
        str := str + [b[0]];
        assert b == [b[0]];
      } else {
        EncodeStringHeader(|b|);
        str := str + b;
        assert was + StringHeader(|b|) + b == was + (StringHeader(|b|) + b);
      }
    }

    method EncodeUint64(i: uint64)
      requires Valid()
      modifies this`str, sizebuf
      ensures str == old(str) + EncodeUint(i)
    {
      EncodeUintForm(i);
      if i == 0 {
        str := str + [0x80];
      } else if i < 128 {
        str := str + [ToByte(i)];
      } else {
        var s := PutInt(sizebuf, 1, i);
        ghost var digits := sizebuf[1..1 + s];
        sizebuf[0] := ToByte(0x80 + s);
        assert sizebuf[..s + 1] == [sizebuf[0]] + digits;
        str := str + sizebuf[..s + 1];
      }
    }

    method List() returns (index: nat)
      modifies this`lheads
      ensures index == |old(lheads)| && lheads == old(lheads) + [ListHead(|str|, lhsize)]
    {
      lheads := lheads + [ListHead(|str|, lhsize)];
      index := |lheads| - 1;
    }

    method ListEnd(index: nat)
      requires index < |lheads|
      requires lheads[index].offset + lheads[index].size <= Size()
      requires Fits(Size())
      modifies this`lheads, this`lhsize
      ensures var size0 := old(Size()) - old(lheads)[index].offset - old(lheads)[index].size;
              && lheads == old(lheads)[index := ListHead(old(lheads)[index].offset, size0)]
              && lhsize == old(lhsize) + |ListHeader(size0)|
    {
      var lh := lheads[index];
      var size := Size() - lh.offset - lh.size;
      lheads := lheads[index := ListHead(lh.offset, size)];
      HeadSizeIsExact(0xC0, 0xF7, size);
      if size < 56 {
        lhsize := lhsize + 1;
      } else {
        lhsize := lhsize + 1 + ByteCount(size);
      }
    }

    /** The writers of slices, byte slices and interfaces. */
    method Write(v: Value)
      requires Valid() && Fits(Size() + |Encode(v)|)
      modifies this, sizebuf
      ensures Adds(old(State()), State(), Encode(v))
      decreases v, 1
    {
      match v
      case Bytes(b) =>
        EncodeBytes(b);
        assert lheads[|lheads|..] == [];
      case List(items) =>
        var index := List();
        ghost var begun := State();
        WriteItems(items);
        AddsSize(begun, State(), EncodeAll(items));
        AddsList(old(State()), State(), lheads[index], EncodeAll(items));
        ListEnd(index);
    }

    method WriteItems(items: seq<Value>)
      requires Valid() && Fits(Size() + |EncodeAll(items)|)
      modifies this, sizebuf
      ensures Adds(old(State()), State(), EncodeAll(items))
      decreases items, 0
    {
      var i := 0;
      assert lheads[|lheads|..] == [];
      while i < |items|
        invariant 0 <= i <= |items|
        invariant Adds(old(State()), State(), EncodeAll(items[..i]))
      {
        EncodeAllMonotone(items, i);
        ghost var before := State();
        AddsSize(old(State()), before, EncodeAll(items[..i]));
        Write(items[i]);
        AddsTransitive(old(State()), before, State(), EncodeAll(items[..i]), Encode(items[i]));
        assert items[..i + 1] == items[..i] + [items[i]];
        EncodeAllSnoc(items[..i], items[i]);
        i := i + 1;
      }
      assert items[..i] == items;
    }

    method ToBytes() returns (out: array<byte>)
      requires Complete() && Fits(Size())
      ensures fresh(out) && out.Length == Size()
      ensures out[..] == Splice(str, lheads, 0)
    {
      hide Splice, Ordered, ListHeader, Copied;
      var data, heads := str, lheads;
      ghost var whole := Splice(data, heads, 0);
      SpliceLength(data, heads, 0);
      CopyStart(data, heads);
      out := new byte[Size()](_ => 0);
      var strpos: nat, pos: nat, i: nat := 0, 0, 0;
      while i < |heads|
        invariant i <= |heads| && pos <= out.Length && Copied(data, heads, i, strpos, out[..pos], whole)
      {
        var head := heads[i];
        CopyNext(data, heads, i, strpos, out[..pos], whole);
        pos := CopyPiece(out, pos, data[strpos..head.offset], head.size);
        strpos := head.offset;
        i := i + 1;
      }
      CopyEnd(data, heads, strpos, out[..pos], whole);
      CopyInto(out, pos, data[strpos..]);
      assert out[..] == out[..pos] + data[strpos..];
    }
  }

  /** With `done` written, what is left of the spliced output starts at `strpos` and header `i`. */
  ghost predicate Copied(str: seq<byte>, hs: seq<ListHead>, i: nat, strpos: nat, done: seq<byte>, whole: seq<byte>) {
    i <= |hs| && Ordered(hs[i..], strpos, |str|) && done + Splice(str, hs[i..], strpos) == whole
  }

  lemma CopyStart(str: seq<byte>, hs: seq<ListHead>)
    requires Ordered(hs, 0, |str|)
    ensures Copied(str, hs, 0, 0, [], Splice(str, hs, 0))
  {
    hide Splice, Ordered;
    assert hs[0..] == hs;
  }

  lemma CopyNext(str: seq<byte>, hs: seq<ListHead>, i: nat, strpos: nat, done: seq<byte>, whole: seq<byte>)
    requires i < |hs| && Copied(str, hs, i, strpos, done, whole)
    ensures strpos <= hs[i].offset <= |str| && Fits(hs[i].size)
    ensures var more := done + str[strpos..hs[i].offset] + ListHeader(hs[i].size);
            |more| <= |whole| && Copied(str, hs, i + 1, hs[i].offset, more, whole)
  {
    hide Splice, Ordered, ListHeader;
    SpliceNext(str, hs, i, strpos);
    Concat4(done, str[strpos..hs[i].offset], ListHeader(hs[i].size), Splice(str, hs[i + 1..], hs[i].offset));
  }

  lemma CopyEnd(str: seq<byte>, hs: seq<ListHead>, strpos: nat, done: seq<byte>, whole: seq<byte>)
    requires Copied(str, hs, |hs|, strpos, done, whole)
    ensures strpos <= |str| && done + str[strpos..] == whole
  {
    hide Splice, Ordered;
    assert hs[|hs|..] == [];
    SpliceEnd(str, strpos);
  }

  /** Writes string data and the header behind it. */
  method CopyPiece(out: array<byte>, at: nat, data: seq<byte>, size: uint64) returns (pos: nat)
    requires at + |data| + |ListHeader(size)| <= out.Length
    modifies out
    ensures pos == at + |data| + |ListHeader(size)|
    ensures out[..pos] == old(out[..at]) + data + ListHeader(size)
  {
    CopyInto(out, at, data);
    pos := at + |data|;
    HeadSizeIsExact(0xC0, 0xF7, size);
    ghost var done := out[..pos];
    assert done == out[..at] + data;
    var n := PutHead(out, pos, 0xC0, 0xF7, size);
    assert out[..pos + n] == out[..pos] + out[pos..pos + n];
    pos := pos + n;
  }

  method CopyInto(out: array<byte>, pos: nat, src: seq<byte>)
    requires pos + |src| <= out.Length
    modifies out
    ensures out[..pos] == old(out[..pos])
    ensures out[pos..pos + |src|] == src
    ensures out[pos + |src|..] == old(out[pos + |src|..])
  {
    forall j | 0 <= j < |src| { out[pos + j] := src[j]; }
  }

  /** `EncodeToBytes`: the two phases together produce the recursive encoding. */
  method EncodeToBytes(v: Value) returns (out: array<byte>)
    requires Fits(|Encode(v)|)
    ensures fresh(out) && out[..] == Encode(v)
  {
    var eb := new EncBuf();
    eb.Write(v);
    assert eb.lheads[0..] == eb.lheads;
    AddsSize(Draft([], [], 0), eb.State(), Encode(v));
    out := eb.ToBytes();
  }

  // --------------------------------------------------------------- the reader

  /** The next piece to be read: a slice of the string data, or of the scratch buffer
      that every header is written into. */
  datatype Piece = NoPiece | StrPiece(lo: nat, hi: nat) | HeadPiece(lo: nat, hi: nat)

  class EncReader {
    const str: seq<byte>
    const lheads: seq<ListHead>
    const sizebuf: array<byte>
    var open: bool // false once the buffer has gone back to the pool
    var lhpos: nat
    var strpos: nat
    var piece: Piece

    constructor (eb: EncBuf)
      requires eb.Complete()
      ensures sizebuf == eb.sizebuf && Valid() && Pending() == Splice(eb.str, eb.lheads, 0)
    {
      str, lheads, sizebuf := eb.str, eb.lheads, eb.sizebuf;
      open, lhpos, strpos, piece := true, 0, 0, NoPiece;
      new;
      assert lheads[0..] == lheads;
    }

    ghost predicate Valid()
      reads this
    {
      && sizebuf.Length == 9
      && lhpos <= |lheads|
      && Ordered(lheads[lhpos..], strpos, |str|)
      && InBounds(piece)
    }

    predicate InBounds(p: Piece) {
      match p
      case NoPiece => true
      case StrPiece(lo, hi) => lo < hi <= |str|
      case HeadPiece(lo, hi) => lo < hi <= sizebuf.Length
    }

    /** The bytes a piece stands for now; a header piece is whatever the scratch buffer holds. */
    function PieceBytes(p: Piece): seq<byte>
      requires InBounds(p)
      reads sizebuf
    {
      match p
      case NoPiece => []
      case StrPiece(lo, hi) => str[lo..hi]
      case HeadPiece(lo, hi) => sizebuf[lo..hi]
    }

    /** Headers and string data no piece has been cut from yet. */
    ghost function Uncut(): seq<byte>
      requires Valid()
      reads this
    {
      Splice(str, lheads[lhpos..], strpos)
    }

    /** Everything still to be read. */
    ghost function Pending(): seq<byte>
      requires Valid()
      reads this, sizebuf
    {
      if open then PieceBytes(piece) + Uncut() else []
    }

    method Next() returns (p: Piece)
      requires Valid()
      modifies this`lhpos, this`strpos, sizebuf
      ensures Valid() && InBounds(p)
      ensures open ==> PieceBytes(p) + Uncut() == old(Pending())
      ensures p == NoPiece ==> old(Pending()) == []
      ensures p != NoPiece ==> open
    {
      if !open { return NoPiece; }
      if piece != NoPiece { return piece; }
      if lhpos < |lheads| {
        p := NextBeforeHead();
      } else if strpos < |str| {
        p := StrPiece(strpos, |str|);
        strpos := |str|;
      } else {
        p := NoPiece;
      }
    }

    /** Before the last list header: the string data in front of it, or else the header. */
    method NextBeforeHead() returns (p: Piece)
      requires Valid() && lhpos < |lheads|
      modifies this`lhpos, this`strpos, sizebuf
      ensures Valid() && InBounds(p) && p != NoPiece
      ensures PieceBytes(p) + Uncut() == old(Uncut())
    {
      hide Splice, Ordered, Header;
      var head := lheads[lhpos];
      SpliceNext(str, lheads, lhpos, strpos);
      if head.offset - strpos > 0 {
        p := StrPiece(strpos, head.offset);
        SkipData(str, lheads, lhpos, strpos);
        strpos := head.offset;
      } else {
        lhpos := lhpos + 1;
        HeadSizeIsExact(0xC0, 0xF7, head.size);
        var n := PutHead(sizebuf, 0, 0xC0, 0xF7, head.size);
        p := HeadPiece(0, n);
      }
    }

    /** Fills `b` as far as there is data; at the end it reports EOF and drops the buffer. */
    method Read(b: array<byte>) returns (n: nat, eof: bool)
      requires Valid() && b != sizebuf
      modifies this, b, sizebuf
      ensures Valid()
      ensures n == if b.Length < |old(Pending())| then b.Length else |old(Pending())|
      ensures b[..n] + Pending() == old(Pending())
      ensures eof <==> |old(Pending())| <= b.Length
    {
      n := 0;
      ghost var rest := Pending();
      var more := true;
      eof := false;
      while more
        invariant Valid() && n <= b.Length && rest == Pending()
        invariant b[..n] + rest == old(Pending())
        invariant !more ==> if eof then rest == [] else n == b.Length && |rest| > 0
        decreases more, |rest|
      {
        ghost var was := rest;
        n, more, eof := ReadPiece(b, n);
        rest := Pending();
      }
    }

    /** One round of the loop: more is set while the buffer may take another piece. */
    method ReadPiece(b: array<byte>, n: nat) returns (n': nat, more: bool, eof: bool)
      requires Valid() && b != sizebuf && n <= b.Length
      modifies this, b, sizebuf
      ensures Valid() && n <= n' <= b.Length
      ensures b[..n'] + Pending() == old(b[..n] + Pending())
      ensures more ==> |Pending()| < |old(Pending())|
      ensures !more ==> if eof then Pending() == [] else n' == b.Length && |Pending()| > 0
    {
      hide Splice, Ordered;
      ghost var pending, done := Pending(), b[..n];
      Advance();
      assert b[..n] == done;
      if piece == NoPiece {
        open := false;
        assert pending == [] && done + [] == done;
        return n, false, true;
      }
      var nn := Deliver(b, n);
      return n + nn, piece == NoPiece, false;
    }

    /** `r.piece = r.next()`. */
    method Advance()
      requires Valid()
      modifies this`lhpos, this`strpos, this`piece, sizebuf
      ensures Valid() && Pending() == old(Pending())
      ensures if piece == NoPiece then Pending() == [] else open
    {
      piece := Next();
    }

    /** Copies what fits of the current piece and cuts it off; a piece that fit is gone. */
    method Deliver(b: array<byte>, n: nat) returns (nn: nat)
      requires Valid() && open && piece != NoPiece && b != sizebuf && n <= b.Length
      modifies this`piece, b
      ensures Valid() && n + nn <= b.Length
      ensures b[..n + nn] + Pending() == old(b[..n] + Pending())
      ensures piece == NoPiece ==> |Pending()| < |old(Pending())|
      ensures piece != NoPiece ==> n + nn == b.Length && |Pending()| > 0
    {
      hide Splice, Ordered;
      var bytes := PieceBytes(piece);
      ghost var uncut := Uncut();
      nn := if |bytes| < b.Length - n then |bytes| else b.Length - n;
      ghost var done := b[..n];
      CopyInto(b, n, bytes[..nn]);
      assert b[..n + nn] == done + bytes[..nn];
      CutConcat(done, bytes, nn, uncut);
      if nn < |bytes| {
        piece := if piece.StrPiece? then StrPiece(piece.lo + nn, piece.hi) else HeadPiece(piece.lo + nn, piece.hi);
        assert PieceBytes(piece) == bytes[nn..];
      } else {
        piece := NoPiece;
      }
    }
  }

  lemma CutConcat(a: seq<byte>, x: seq<byte>, k: nat, y: seq<byte>)
    requires k <= |x|
    ensures (a + x[..k]) + (x[k..] + y) == a + (x + y)
    ensures k == |x| ==> x[k..] + y == y
  {
    assert x == x[..k] + x[k..];
  }

  /** Cutting the string data in front of the next header. */
  lemma SkipData(str: seq<byte>, hs: seq<ListHead>, i: nat, pos: nat)
    requires i < |hs| && Ordered(hs[i..], pos, |str|) && pos <= hs[i].offset <= |str|
    ensures Ordered(hs[i..], hs[i].offset, |str|)
    ensures Splice(str, hs[i..], pos) == str[pos..hs[i].offset] + Splice(str, hs[i..], hs[i].offset)
  {
    SpliceFrom(str, hs[i..], pos, hs[i].offset);
  }

  function Total(sizes: seq<nat>): nat { if sizes == [] then 0 else sizes[0] + Total(sizes[1..]) }

  /** Reading with buffers of any sizes yields the encoding, in order, and EOF at its end. */
  method ReadWith(r: EncReader, sizes: seq<nat>) returns (got: seq<byte>, eof: bool)
    requires r.Valid()
    modifies r, r.sizebuf
    ensures r.Valid() && Consumed(got, r.Pending(), old(r.Pending()), Total(sizes))
    ensures eof <==> sizes != [] && Total(sizes) >= |old(r.Pending())|
    decreases |sizes|
  {
    if sizes == [] { return [], false; }
    ghost var all := r.Pending();
    var chunk, end := ReadChunk(r, sizes[0]);
    ghost var mid := r.Pending();
    var more, end' := ReadWith(r, sizes[1..]);
    ConsumeMore(chunk, mid, all, sizes[0], more, r.Pending(), Total(sizes[1..]));
    got := chunk + more;
    eof := if |sizes| == 1 then end else end';
  }

  /** `got` is what reading `n` bytes of `all` yields, `rest` what it leaves. */
  ghost predicate Consumed(got: seq<byte>, rest: seq<byte>, all: seq<byte>, n: nat) {
    got + rest == all && |got| == if n < |all| then n else |all|
  }

  lemma ConsumeMore(got: seq<byte>, rest: seq<byte>, all: seq<byte>, n: nat, chunk: seq<byte>, left: seq<byte>, m: nat)
    requires Consumed(got, rest, all, n) && Consumed(chunk, left, rest, m)
    ensures Consumed(got + chunk, left, all, n + m)
    ensures |rest| <= m <==> n + m >= |all|
  {
    assert got + (chunk + left) == got + chunk + left;
  }

  method ReadChunk(r: EncReader, size: nat) returns (chunk: seq<byte>, eof: bool)
    requires r.Valid()
    modifies r, r.sizebuf
    ensures r.Valid() && Consumed(chunk, r.Pending(), old(r.Pending()), size)
    ensures eof <==> |old(r.Pending())| <= size
  {
    var b := new byte[size](_ => 0);
    var n, end := r.Read(b);
    return b[..n], end;
  }

  method EncodeToReader(v: Value) returns (size: nat, r: EncReader)
    requires Fits(|Encode(v)|)
    ensures fresh(r) && fresh(r.sizebuf) && r.Valid()
    ensures size == |Encode(v)| && r.Pending() == Encode(v)
  {
    var eb := new EncBuf();
    eb.Write(v);
    assert eb.lheads[0..] == eb.lheads;
    AddsSize(Draft([], [], 0), eb.State(), Encode(v));
    size := eb.Size();
    r := new EncReader(eb);
  }

  // ------------------------------------------------------ integers to a writer

  /** `EncodeInt`: the number goes into the last eight bytes, the tag in front of its
      first significant byte. */
  method EncodeInt(i: uint64, buffer: array<byte>) returns (written: seq<byte>)
    requires buffer.Length >= 9
    modifies buffer
    ensures written == EncodeUint(i)
  {
    EncodeUintForm(i);
    if 0 < i < 0x80 {
      buffer[0] := ToByte(i);
      return buffer[..1];
    }
    BitLenBytes(i);
    written := TaggedTail(i, buffer, ByteCount(i));
  }

  method TaggedTail(i: uint64, buffer: array<byte>, size: nat) returns (written: seq<byte>)
    requires buffer.Length >= 9 && size == |ToBE(i)|
    modifies buffer
    ensures written == [ToByte(0x80 + size)] + ToBE(i)
  {
    hide ToBE, LowBytes, ToByte;
    WordBytes(i);
    LowBytesTail(i, size);
    LowBytesIsShortest(i, size);
    StoreLow(buffer, 1, i, 8);
    ghost var digits := buffer[1..9];
    assert digits[8 - size..] == ToBE(i) && buffer[9 - size..9] == digits[8 - size..];
    buffer[8 - size] := ToByte(0x80 + size);
    written := buffer[8 - size..9];
    TagFirst(buffer[..], 8 - size);
  }

  lemma TagFirst(b: seq<byte>, k: nat)
    requires k < 9 <= |b|
    ensures b[k..9] == [b[k]] + b[k + 1..9]
  {
  }

  lemma {:induction false} LowBytesTail(i: uint64, k: nat)
    requires k <= 8
    ensures |LowBytes(i, 8)| == 8 && LowBytes(i, 8)[8 - k..] == LowBytes(i, k)
  {
    LowBytesAt(i, 8);
    LowBytesAt(i, k);
  }
}
