/** The bit-prefix scan of ethdb/kv_util.go. A table is its entries in key order; a cursor operation may
    fail, and the walker may answer as it likes for what it has seen so far. */
module PrefixWalk {
  import opened Basics

  type Key = seq<bv8>

  datatype Entry = Entry(key: Key, value: seq<bv8>)

  datatype Answer = GoOn | Stop | Fail(error: nat)

  // ------------------------------------------------------------------- keys

  /** bytes.Compare(a, b) <= 0. */
  predicate AtMost(a: Key, b: Key) {
    a == [] || (b != [] && (a[0] < b[0] || (a[0] == b[0] && AtMost(a[1..], b[1..]))))
  }

  lemma {:induction false} AtMostTransitive(a: Key, b: Key, c: Key)
    requires AtMost(a, b) && AtMost(b, c)
    ensures AtMost(a, c)
  {
    if a != [] && a[0] == b[0] == c[0] { AtMostTransitive(a[1..], b[1..], c[1..]); }
  }

  ghost predicate Ascending(table: seq<Entry>) {
    forall i, j :: 0 <= i < j < |table| ==> AtMost(table[i].key, table[j].key)
  }

  /** Bit i of a byte, the highest first. */
  predicate BitAt(b: bv8, i: nat)
    requires i < 8
  {
    if i == 0 then b & 0x80 != 0
    else if i == 1 then b & 0x40 != 0
    else if i == 2 then b & 0x20 != 0
    else if i == 3 then b & 0x10 != 0
    else if i == 4 then b & 0x08 != 0
    else if i == 5 then b & 0x04 != 0
    else if i == 6 then b & 0x02 != 0
    else b & 0x01 != 0
  }

  function ByteBits(b: bv8): (r: seq<bool>)
    ensures |r| == 8
  {
    seq(8, i requires 0 <= i < 8 => BitAt(b, i))
  }

  function Bits(k: Key): (r: seq<bool>)
    ensures |r| == 8 * |k|
  {
    if k == [] then [] else ByteBits(k[0]) + Bits(k[1..])
  }

  /** The key begins with the first n bits of s. */
  ghost predicate SharesBits(k: Key, s: Key, n: nat)
    requires n <= 8 * |s|
  {
    n <= |Bits(k)| && Bits(k)[..n] == Bits(s)[..n]
  }

  // ------------------------------------------------------------------- masks

  /** The mask of the first n bits of a byte; all of it for n = 0, as the source has it. */
  function Mask(n: nat): bv8
    requires n < 8
  {
    if n == 0 then 0xff else (0xff as bv8) << (8 - n)
  }

  function Masked(b: bv8, mask: bv8): bv8 { b & mask }

  /** `Bytesmask`. */
  function Bytesmask(fixedbits: nat): (nat, bv8) { ((fixedbits + 7) / 8, Mask(fixedbits % 8)) }

  lemma MaskValues()
    ensures Mask(0) == 0xff && Mask(1) == 0x80 && Mask(2) == 0xc0 && Mask(3) == 0xe0
    ensures Mask(4) == 0xf0 && Mask(5) == 0xf8 && Mask(6) == 0xfc && Mask(7) == 0xfe
  {
  }

  /** What is left of a byte under the mask of its first n bits. */
  function Top(b: bv8, n: nat): bv8
    requires 0 < n <= 8
  {
    if n == 8 then b else Masked(b, Mask(n))
  }

  /** Equal under the mask means equal in the first n bits. */
  lemma {:induction false} TopBits(a: bv8, b: bv8, n: nat)
    requires 0 < n <= 8
    ensures Top(a, n) == Top(b, n) <==> ByteBits(a)[..n] == ByteBits(b)[..n]
  {
    var x, y := ByteBits(a), ByteBits(b);
    TopStep(a, b, n);
    assert x[n - 1] == BitAt(a, n - 1) && y[n - 1] == BitAt(b, n - 1);
    hide Top, BitAt, ByteBits;
    if n > 1 { TopBits(a, b, n - 1); }
    OneMore(x, y, n);
  }

  lemma OneMore(x: seq<bool>, y: seq<bool>, n: nat)
    requires 0 < n <= |x| && n <= |y|
    ensures x[..n] == y[..n] <==> x[..n - 1] == y[..n - 1] && x[n - 1] == y[n - 1]
  {
    assert x[..n] == x[..n - 1] + [x[n - 1]] && y[..n] == y[..n - 1] + [y[n - 1]];
    assert x[..n][..n - 1] == x[..n - 1] && y[..n][..n - 1] == y[..n - 1];
  }

  lemma TopStep(a: bv8, b: bv8, n: nat)
    requires 0 < n <= 8
    ensures Top(a, n) == Top(b, n) <==> (n == 1 || Top(a, n - 1) == Top(b, n - 1)) && BitAt(a, n - 1) == BitAt(b, n - 1)
  {
    hide Top, BitAt;
    if n == 1 {
      Step1(a, b);
    } else if n == 2 {
      Step2(a, b);
    } else if n == 3 {
      Step3(a, b);
    } else if n == 4 {
      Step4(a, b);
    } else if n == 5 {
      Step5(a, b);
    } else if n == 6 {
      Step6(a, b);
    } else if n == 7 {
      Step7(a, b);
    } else {
      Step8(a, b);
    }
  }

  lemma Step1(a: bv8, b: bv8)
    ensures Top(a, 1) == Top(b, 1) <==> BitAt(a, 0) == BitAt(b, 0)
  {
  }

  lemma Step2(a: bv8, b: bv8)
    ensures Top(a, 2) == Top(b, 2) <==> Top(a, 1) == Top(b, 1) && BitAt(a, 1) == BitAt(b, 1)
  {
  }

  lemma Step3(a: bv8, b: bv8)
    ensures Top(a, 3) == Top(b, 3) <==> Top(a, 2) == Top(b, 2) && BitAt(a, 2) == BitAt(b, 2)
  {
  }

  lemma Step4(a: bv8, b: bv8)
    ensures Top(a, 4) == Top(b, 4) <==> Top(a, 3) == Top(b, 3) && BitAt(a, 3) == BitAt(b, 3)
  {
  }

  lemma Step5(a: bv8, b: bv8)
    ensures Top(a, 5) == Top(b, 5) <==> Top(a, 4) == Top(b, 4) && BitAt(a, 4) == BitAt(b, 4)
  {
  }

  lemma Step6(a: bv8, b: bv8)
    ensures Top(a, 6) == Top(b, 6) <==> Top(a, 5) == Top(b, 5) && BitAt(a, 5) == BitAt(b, 5)
  {
  }

  lemma Step7(a: bv8, b: bv8)
    ensures Top(a, 7) == Top(b, 7) <==> Top(a, 6) == Top(b, 6) && BitAt(a, 6) == BitAt(b, 6)
  {
  }

  lemma Step8(a: bv8, b: bv8)
    ensures Top(a, 8) == Top(b, 8) <==> Top(a, 7) == Top(b, 7) && BitAt(a, 7) == BitAt(b, 7)
  {
  }

  /** What lies between two bytes that agree under the mask agrees with them. */
  lemma TopBetween(a: bv8, b: bv8, c: bv8, n: nat)
    requires 0 < n <= 8 && a <= b <= c && Top(a, n) == Top(c, n)
    ensures Top(a, n) == Top(b, n)
  {
    MaskValues();
    hide Mask;
  }

  // ------------------------------------------------------------------- the test of the loop

  /** The condition under which the loop goes on with a key. */
  predicate Test(k: Key, startkey: Key, fixedbits: nat)
    requires (fixedbits + 7) / 8 <= |startkey|
  {
    var (fixedbytes, mask) := Bytesmask(fixedbits);
    |k| >= fixedbytes && (fixedbits == 0 || (
      && k[..fixedbytes - 1] == startkey[..fixedbytes - 1]
      && Masked(k[fixedbytes - 1], mask) == Masked(startkey[fixedbytes - 1], mask)))
  }

  /** The same, byte by byte. */
  ghost predicate Shares(k: Key, s: Key, n: nat)
    requires n <= 8 * |s|
    decreases n
  {
    n == 0 || (k != [] && if n <= 8 then Top(k[0], n) == Top(s[0], n)
                          else k[0] == s[0] && Shares(k[1..], s[1..], n - 8))
  }

  lemma {:induction false} SharesIsBits(k: Key, s: Key, n: nat)
    requires n <= 8 * |s|
    ensures Shares(k, s, n) <==> SharesBits(k, s, n)
    decreases n
  {
    if 0 < n && k != [] {
      var x, y := ByteBits(k[0]), ByteBits(s[0]);
      if n <= 8 {
        TopBits(k[0], s[0], n);
        hide Top, ByteBits;
        assert Bits(k)[..n] == x[..n] && Bits(s)[..n] == y[..n];
      } else {
        SharesIsBits(k[1..], s[1..], n - 8);
        TopBits(k[0], s[0], 8);
        assert x[..8] == x && y[..8] == y;
        hide ByteBits;
        if n <= 8 * |k| { JoinedBits(x, Bits(k[1..]), y, Bits(s[1..]), n); }
      }
    }
  }

  lemma JoinedBits(x: seq<bool>, xs: seq<bool>, y: seq<bool>, ys: seq<bool>, n: nat)
    requires |x| == |y| == 8 <= n <= 8 + |ys| && n <= 8 + |xs|
    ensures (x + xs)[..n] == (y + ys)[..n] <==> x == y && xs[..n - 8] == ys[..n - 8]
  {
    assert (x + xs)[..n] == x + xs[..n - 8] && (y + ys)[..n] == y + ys[..n - 8];
    assert x == (x + xs[..n - 8])[..8] && y == (y + ys[..n - 8])[..8];
    assert xs[..n - 8] == (x + xs[..n - 8])[8..] && ys[..n - 8] == (y + ys[..n - 8])[8..];
  }

  lemma {:induction false} TestIsShares(k: Key, s: Key, n: nat)
    requires (n + 7) / 8 <= |s|
    ensures Test(k, s, n) <==> Shares(k, s, n)
    decreases n
  {
    hide Top, Test;
    if n == 0 || k == [] {
      TestEnds(k, s, n);
    } else if n <= 8 {
      TestFirst(k, s, n);
    } else {
      TestStep(k, s, n);
      TestIsShares(k[1..], s[1..], n - 8);
    }
  }

  lemma TestEnds(k: Key, s: Key, n: nat)
    requires (n + 7) / 8 <= |s| && (n == 0 || k == [])
    ensures Test(k, s, n) <==> n == 0
  {
    hide Mask;
  }

  lemma TestFirst(k: Key, s: Key, n: nat)
    requires 0 < n <= 8 && s != [] && k != []
    ensures Test(k, s, n) <==> Top(k[0], n) == Top(s[0], n)
  {
    hide Mask, Top, Masked, Bytesmask;
    FirstMask(n, k[0], s[0]);
    assert k[..0] == s[..0];
  }

  lemma FirstMask(n: nat, a: bv8, b: bv8)
    requires 0 < n <= 8
    ensures Bytesmask(n).0 == 1 && Masked(a, Bytesmask(n).1) == Top(a, n) && Masked(b, Bytesmask(n).1) == Top(b, n)
  {
    hide Mask, Masked;
    assert (n + 7) / 8 == 1 && n % 8 == if n == 8 then 0 else n;
    AllOnes(a);
    AllOnes(b);
  }

  lemma AllOnes(a: bv8)
    ensures Masked(a, Mask(0)) == a
  {
  }

  lemma TestStep(k: Key, s: Key, n: nat)
    requires (n + 7) / 8 <= |s| && n > 8 && k != []
    ensures Test(k, s, n) <==> k[0] == s[0] && Test(k[1..], s[1..], n - 8)
  {
    hide Mask, Masked;
    var c := (n - 8 + 7) / 8;
    assert (n + 7) / 8 == c + 1 && n % 8 == (n - 8) % 8;
    if c < |k| { FirstAndRest(k, s, c); }
  }

  lemma FirstAndRest(k: Key, s: Key, c: nat)
    requires 0 < c < |k| && c < |s|
    ensures k[..c] == s[..c] <==> k[0] == s[0] && k[1..][..c - 1] == s[1..][..c - 1]
  {
    assert k[..c] == [k[0]] + k[1..][..c - 1] && s[..c] == [s[0]] + s[1..][..c - 1];
    assert k[..c][1..] == k[1..][..c - 1] && s[..c][1..] == s[1..][..c - 1];
  }

  /** The loop's test is the bit test. */
  lemma TestIsBits(k: Key, s: Key, n: nat)
    requires (n + 7) / 8 <= |s|
    ensures Test(k, s, n) <==> SharesBits(k, s, n)
  {
    hide Test, Shares, SharesBits;
    TestIsShares(k, s, n);
    SharesIsBits(k, s, n);
  }

  /** Keys that share the prefix lie together: what is between s and such a key shares it too. */
  lemma {:induction false} SharesBetween(s: Key, k: Key, l: Key, n: nat)
    requires n <= 8 * |s| && AtMost(s, k) && AtMost(k, l) && Shares(l, s, n)
    ensures Shares(k, s, n)
    decreases n
  {
    hide Top;
    if 0 < n <= 8 {
      TopBetween(s[0], k[0], l[0], n);
    } else if n > 8 {
      assert k != [] && k[0] == s[0] == l[0];
      SharesBetween(s[1..], k[1..], l[1..], n - 8);
    }
  }

  // ------------------------------------------------------------------- the scan

  /** The entry's key is at or past s and begins with the first n bits of s. */
  ghost predicate Wants(e: Entry, s: Key, n: nat)
    requires n <= 8 * |s|
  {
    AtMost(s, e.key) && SharesBits(e.key, s, n)
  }

  /** All such entries of the table, in table order. */
  ghost function Wanted(table: seq<Entry>, s: Key, n: nat): seq<Entry>
    requires n <= 8 * |s|
  {
    if table == [] then []
    else (if Wants(table[0], s, n) then [table[0]] else []) + Wanted(table[1..], s, n)
  }

  lemma {:induction false} WantedNone(table: seq<Entry>, s: Key, n: nat)
    requires n <= 8 * |s| && forall i :: 0 <= i < |table| ==> !Wants(table[i], s, n)
    ensures Wanted(table, s, n) == []
  {
    hide Wants;
    if table != [] { WantedNone(table[1..], s, n); }
  }

  lemma {:induction false} WantedAll(table: seq<Entry>, s: Key, n: nat)
    requires n <= 8 * |s| && forall i :: 0 <= i < |table| ==> Wants(table[i], s, n)
    ensures Wanted(table, s, n) == table
  {
    hide Wants;
    if table != [] { WantedAll(table[1..], s, n); }
  }

  lemma {:induction false} WantedJoin(a: seq<Entry>, b: seq<Entry>, s: Key, n: nat)
    requires n <= 8 * |s|
    ensures Wanted(a + b, s, n) == Wanted(a, s, n) + Wanted(b, s, n)
  {
    hide Wants;
    if a == [] {
      assert a + b == b;
    } else {
      var head := if Wants(a[0], s, n) then [a[0]] else [];
      assert (a + b)[1..] == a[1..] + b && (a + b)[0] == a[0];
      assert Wanted(a + b, s, n) == head + Wanted(a[1..] + b, s, n);
      assert Wanted(a, s, n) == head + Wanted(a[1..], s, n);
      hide Wanted;
      WantedJoin(a[1..], b, s, n);
    }
  }

  /** If an entry at or past s fails the test, no later one is wanted: stopping there loses nothing. */
  lemma NoneLater(table: seq<Entry>, s: Key, n: nat, p: nat, j: nat)
    requires Ascending(table) && (n + 7) / 8 <= |s| && p <= j < |table|
    requires AtMost(s, table[p].key) && !Test(table[p].key, s, n)
    ensures !Wants(table[j], s, n)
  {
    hide Test, Shares, SharesBits, AtMost;
    TestIsBits(table[p].key, s, n);
    SharesIsBits(table[p].key, s, n);
    SharesIsBits(table[j].key, s, n);
    if p < j && Shares(table[j].key, s, n) { SharesBetween(s, table[p].key, table[j].key, n); }
  }

  /** Entries p to q are at or past s and pass the test, and what comes before is short of s. */
  ghost predicate Passed(table: seq<Entry>, s: Key, n: nat, p: nat, q: nat) {
    && (n + 7) / 8 <= |s| && p <= q <= |table|
    && (forall i :: 0 <= i < p ==> !AtMost(s, table[i].key))
    && (forall i :: p <= i < q ==> AtMost(s, table[i].key) && Test(table[i].key, s, n))
  }

  /** Then the wanted entries begin with those from p to q, and are just those if the scan stops at q. */
  lemma WantedRun(table: seq<Entry>, s: Key, n: nat, p: nat, q: nat)
    requires Ascending(table) && Passed(table, s, n, p, q)
    ensures table[p..q] <= Wanted(table, s, n)
    ensures q == |table| || (AtMost(s, table[q].key) && !Test(table[q].key, s, n)) ==>
              Wanted(table, s, n) == table[p..q]
  {
    hide Test, SharesBits, AtMost;
    forall i | p <= i < q ensures Wants(table[i], s, n) { TestIsBits(table[i].key, s, n); }
    WantedParts(table, s, n, p, q);
    if q == |table| || (AtMost(s, table[q].key) && !Test(table[q].key, s, n)) {
      forall j | 0 <= j < |table[q..]| ensures !Wants(table[q..][j], s, n) { NoneLater(table, s, n, q, q + j); }
      hide Wants;
      WantedNone(table[q..], s, n);
    }
  }

  lemma WantedParts(table: seq<Entry>, s: Key, n: nat, p: nat, q: nat)
    requires n <= 8 * |s| && p <= q <= |table|
    requires (forall i :: 0 <= i < p ==> !Wants(table[i], s, n)) && (forall i :: p <= i < q ==> Wants(table[i], s, n))
    ensures Wanted(table, s, n) == table[p..q] + Wanted(table[q..], s, n)
  {
    hide Wanted, Wants;
    WantedNone(table[..p], s, n);
    WantedAll(table[p..q], s, n);
    WantedJoin(table[..p], table[p..q], s, n);
    WantedJoin(table[..p] + table[p..q], table[q..], s, n);
    assert table == table[..p] + table[p..q] + table[q..];
  }

  /** What a scan reports: it goes through the wanted entries in order until the walker stops or fails or
      the cursor fails; operation 0 of the cursor is the seek, operation i the step after the i-th entry. */
  ghost predicate Outcome(wanted: seq<Entry>, walker: (seq<Entry>, Entry) -> Answer, cursor: nat -> Option<nat>,
                          visited: seq<Entry>, err: Option<nat>)
  {
    && visited <= wanted
    && (forall i :: 0 <= i < |visited| ==> cursor(i) == None)
    && (forall i :: 0 <= i < |visited| - 1 ==> walker(visited[..i], visited[i]) == GoOn)
    && var last := if visited == [] then GoOn else walker(visited[..|visited| - 1], visited[|visited| - 1]);
       match last
       case GoOn => err == cursor(|visited|) && (err == None ==> visited == wanted)
       case Stop => err == None
       case Fail(e) => err == Some(e)
  }

  /** A scan that nothing interrupts visits exactly the wanted entries. */
  lemma Uninterrupted(wanted: seq<Entry>, walker: (seq<Entry>, Entry) -> Answer, cursor: nat -> Option<nat>,
                      visited: seq<Entry>, err: Option<nat>)
    requires Outcome(wanted, walker, cursor, visited, err)
    requires (forall before, e :: walker(before, e) == GoOn) && (forall i :: cursor(i) == None)
    ensures visited == wanted && err == None
  {
  }

  /** The cursor's Seek: the first entry at or past the key. */
  method Seek(table: seq<Entry>, startkey: Key) returns (p: nat)
    ensures p <= |table| && forall i :: 0 <= i < p ==> !AtMost(startkey, table[i].key)
    ensures p < |table| ==> AtMost(startkey, table[p].key)
  {
    p := 0;
    while p < |table| && !AtMost(startkey, table[p].key)
      invariant p <= |table| && forall i :: 0 <= i < p ==> !AtMost(startkey, table[i].key)
    {
      p := p + 1;
    }
  }

  /** Nothing has interrupted the scan so far. */
  ghost predicate WentOn(walker: (seq<Entry>, Entry) -> Answer, cursor: nat -> Option<nat>, visited: seq<Entry>) {
    && (forall i :: 0 <= i <= |visited| ==> cursor(i) == None)
    && (forall i :: 0 <= i < |visited| ==> walker(visited[..i], visited[i]) == GoOn)
  }

  lemma OneMoreVisit(wanted: seq<Entry>, walker: (seq<Entry>, Entry) -> Answer, cursor: nat -> Option<nat>,
                     visited: seq<Entry>, e: Entry)
    requires WentOn(walker, cursor, visited) && visited + [e] <= wanted
    ensures var answer, v := walker(visited, e), visited + [e];
            match answer
            case Fail(x) => Outcome(wanted, walker, cursor, v, Some(x))
            case Stop => Outcome(wanted, walker, cursor, v, None)
            case GoOn =>
              if cursor(|v|).Some? then Outcome(wanted, walker, cursor, v, cursor(|v|)) else WentOn(walker, cursor, v)
  {
    var v := visited + [e];
    assert forall i :: 0 <= i <= |visited| ==> v[..i] == visited[..i];
    assert v[..|visited|] == visited;
  }

  /** An entry that passes the test is the next of the wanted ones. */
  lemma NextWanted(table: seq<Entry>, s: Key, n: nat, p: nat, q: nat, visited: seq<Entry>)
    requires Ascending(table) && q < |table| && p <= q && Passed(table, s, n, p, q + 1) && visited == table[p..q]
    ensures n <= 8 * |s| && visited + [table[q]] == table[p..q + 1] <= Wanted(table, s, n)
  {
    hide Ascending, Test, AtMost, Wanted;
    WantedRun(table, s, n, p, q + 1);
  }

  /** `Walk`. */
  method Walk(table: seq<Entry>, startkey: Key, fixedbits: nat, walker: (seq<Entry>, Entry) -> Answer,
              cursor: nat -> Option<nat>)
    returns (err: Option<nat>, visited: seq<Entry>)
    requires Ascending(table) && (fixedbits + 7) / 8 <= |startkey|
    ensures Outcome(Wanted(table, startkey, fixedbits), walker, cursor, visited, err)
  {
    hide Test, AtMost, Wanted, Ascending, WentOn, Outcome, Passed;
    ghost var wanted := Wanted(table, startkey, fixedbits);
    visited := [];
    Opening(wanted, walker, cursor);
    if cursor(0).Some? { return cursor(0), visited; }
    var p := Seek(table, startkey);
    var q := p;
    PassedMore(table, startkey, fixedbits, p, p);
    while q < |table| && Test(table[q].key, startkey, fixedbits)
      invariant p <= q <= |table| && visited == table[p..q]
      invariant Passed(table, startkey, fixedbits, p, q) && WentOn(walker, cursor, visited)
    {
      PassedMore(table, startkey, fixedbits, p, q);
      NextWanted(table, startkey, fixedbits, p, q, visited);
      OneMoreVisit(wanted, walker, cursor, visited, table[q]);
      var answer := walker(visited, table[q]);
      visited := visited + [table[q]];
      q := q + 1;
      if answer.Fail? { return Some(answer.error), visited; }
      if answer.Stop? { return None, visited; }
      if cursor(|visited|).Some? { return cursor(|visited|), visited; }
    }
    PassedMore(table, startkey, fixedbits, p, q);
    WantedRun(table, startkey, fixedbits, p, q);
    Closing(walker, cursor, visited);
    return None, visited;
  }

  lemma Opening(wanted: seq<Entry>, walker: (seq<Entry>, Entry) -> Answer, cursor: nat -> Option<nat>)
    ensures if cursor(0).Some? then Outcome(wanted, walker, cursor, [], cursor(0)) else WentOn(walker, cursor, [])
  {
  }

  lemma Closing(walker: (seq<Entry>, Entry) -> Answer, cursor: nat -> Option<nat>, visited: seq<Entry>)
    requires WentOn(walker, cursor, visited)
    ensures Outcome(visited, walker, cursor, visited, None)
  {
  }

  /** From the first entry at or past s on, all are at or past s, so passing is a matter of the test. */
  lemma PassedMore(table: seq<Entry>, s: Key, n: nat, p: nat, q: nat)
    requires Ascending(table) && (n + 7) / 8 <= |s| && p <= q <= |table| && (p < |table| ==> AtMost(s, table[p].key))
    requires forall i :: 0 <= i < p ==> !AtMost(s, table[i].key)
    requires p == q || Passed(table, s, n, p, q)
    ensures Passed(table, s, n, p, q)
    ensures q < |table| ==> AtMost(s, table[q].key) && (Test(table[q].key, s, n) ==> Passed(table, s, n, p, q + 1))
  {
    hide AtMost, Test;
    PastSeek(table, s, p, q);
  }

  lemma PastSeek(table: seq<Entry>, s: Key, p: nat, q: nat)
    requires Ascending(table) && p <= q <= |table| && (p < |table| ==> AtMost(s, table[p].key))
    ensures q < |table| ==> AtMost(s, table[q].key)
  {
    hide AtMost;
    if p < q < |table| { AtMostTransitive(s, table[p].key, table[q].key); }
  }
}
