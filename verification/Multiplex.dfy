/** Sub-protocol negotiation and message-code multiplexing of p2p/peer.go: the "Message ID-based
    multiplexing" section of the RLPx Transport Protocol. */
module Multiplex {
  import opened Basics

  const BASE_PROTOCOL_LENGTH: nat := 16

  datatype Cap = Cap(name: string, version: nat)
  datatype Protocol = Protocol(name: string, version: nat, length: nat)

  function CapOf(p: Protocol): Cap { Cap(p.name, p.version) }

  // ------------------------------------------------------------- the order of caps

  predicate StrLess(a: string, b: string) {
    b != [] && (a == [] || a[0] < b[0] || (a[0] == b[0] && StrLess(a[1..], b[1..])))
  }

  lemma {:induction false} StrIrreflexive(a: string)
    ensures !StrLess(a, a)
  {
    if a != [] { StrIrreflexive(a[1..]); }
  }

  lemma {:induction false} StrTotal(a: string, b: string)
    ensures StrLess(a, b) || a == b || StrLess(b, a)
    ensures !(StrLess(a, b) && StrLess(b, a))
    ensures a == b ==> !StrLess(a, b)
  {
    StrIrreflexive(a);
    if a != [] && b != [] {
      StrTotal(a[1..], b[1..]);
      if a[0] == b[0] && a[1..] == b[1..] { assert a == [a[0]] + a[1..] && b == [b[0]] + b[1..]; }
    }
  }

  lemma {:induction false} StrTransitive(a: string, b: string, c: string)
    requires StrLess(a, b) && StrLess(b, c)
    ensures StrLess(a, c)
  {
    if a != [] && a[0] == b[0] == c[0] { StrTransitive(a[1..], b[1..], c[1..]); }
  }

  /** `capsByNameAndVersion.Less`. */
  predicate Less(a: Cap, b: Cap) { StrLess(a.name, b.name) || (a.name == b.name && a.version < b.version) }

  predicate Sorted(cs: seq<Cap>) { forall i, j | 0 <= i < j < |cs| :: !Less(cs[j], cs[i]) }

  lemma LessTotal(a: Cap, b: Cap)
    ensures Less(a, b) || a == b || Less(b, a)
    ensures !(Less(a, b) && Less(b, a))
  {
    StrTotal(a.name, b.name);
  }

  lemma LessTransitive(a: Cap, b: Cap, c: Cap)
    requires !Less(b, a) && !Less(c, b)
    ensures !Less(c, a)
  {
    LessTotal(a, b);
    LessTotal(b, c);
    LessTotal(a, c);
    if Less(a, b) && Less(b, c) {
      if StrLess(a.name, b.name) && StrLess(b.name, c.name) { StrTransitive(a.name, b.name, c.name); }
    }
  }

  /** Sorting: there is only one result, whatever the algorithm. */
  function Insert(c: Cap, cs: seq<Cap>): seq<Cap> {
    if cs == [] || !Less(cs[0], c) then [c] + cs else [cs[0]] + Insert(c, cs[1..])
  }

  function Sort(cs: seq<Cap>): seq<Cap> { if cs == [] then [] else Insert(cs[0], Sort(cs[1..])) }

  lemma {:induction false} InsertSorted(c: Cap, cs: seq<Cap>)
    requires Sorted(cs)
    ensures Sorted(Insert(c, cs)) && multiset(Insert(c, cs)) == multiset(cs) + multiset{c}
  {
    hide Less, Sorted;
    if cs == [] || !Less(cs[0], c) {
      forall d | d in cs ensures !Less(d, c) { FirstIsLeast(cs, d); LessTransitive(c, cs[0], d); }
      ConsSorted(c, cs);
    } else {
      var rest := Insert(c, cs[1..]);
      TailSorted(cs);
      InsertSorted(c, cs[1..]);
      assert cs == [cs[0]] + cs[1..];
      forall d | d in rest ensures !Less(d, cs[0]) {
        assert d in multiset(rest);
        if d == c { LessTotal(cs[0], c); } else { assert d in multiset(cs[1..]); FirstIsLeast(cs, d); }
      }
      ConsSorted(cs[0], rest);
    }
  }

  lemma FirstIsLeast(cs: seq<Cap>, d: Cap)
    requires Sorted(cs) && d in cs
    ensures !Less(d, cs[0])
  {
    LessTotal(d, d);
    hide Less;
    var j :| 0 <= j < |cs| && cs[j] == d;
    assert j == 0 || !Less(cs[j], cs[0]);
  }

  lemma TailSorted(cs: seq<Cap>)
    requires Sorted(cs) && cs != []
    ensures Sorted(cs[1..])
  {
    hide Less;
  }

  lemma ConsSorted(c: Cap, cs: seq<Cap>)
    requires Sorted(cs) && forall d | d in cs :: !Less(d, c)
    ensures Sorted([c] + cs)
  {
    hide Less;
  }

  lemma {:induction false} SortSorted(cs: seq<Cap>)
    ensures Sorted(Sort(cs)) && multiset(Sort(cs)) == multiset(cs)
  {
    if cs != [] {
      hide Sorted, Insert, Less, StrLess;
      var c, rest := cs[0], cs[1..];
      assert Sort(cs) == Insert(c, Sort(rest));
      hide Sort;
      SortSorted(rest);
      InsertSorted(c, Sort(rest));
      assert cs == [c] + rest;
    }
  }

  lemma SortMembers(cs: seq<Cap>)
    ensures forall c :: c in Sort(cs) <==> c in cs
  {
    hide Sorted, Sort;
    SortSorted(cs);
    forall c ensures c in Sort(cs) <==> c in cs {
      assert c in Sort(cs) <==> c in multiset(Sort(cs));
      assert c in cs <==> c in multiset(cs);
    }
  }

  // -------------------------------------------------------------------- matching

  /** A running protocol and where its codes start. */
  datatype Entry = Entry(version: nat, length: nat, offset: nat)

  datatype Match = Match(running: map<string, Entry>, offset: nat)

  /** The first of our protocols with this name and version. */
  function FindProtocol(ps: seq<Protocol>, c: Cap): (i: nat)
    ensures i <= |ps|
    ensures i < |ps| ==> CapOf(ps[i]) == c
    ensures (i == |ps|) <==> (forall p | p in ps :: CapOf(p) != c)
  {
    if ps == [] then 0
    else if CapOf(ps[0]) == c then 0
    else 1 + FindProtocol(ps[1..], c)
  }

  /** One round of the outer loop: a matching capability replaces an earlier version of the same name. */
  function MatchOne(ps: seq<Protocol>, m: Match, c: Cap): Match {
    var i := FindProtocol(ps, c);
    if i == |ps| then m
    else
      var offset := if c.name in m.running then (m.offset - m.running[c.name].length) % WORD else m.offset;
      Match(m.running[c.name := Entry(c.version, ps[i].length, offset)], (offset + ps[i].length) % WORD)
  }

  function MatchAll(ps: seq<Protocol>, cs: seq<Cap>): Match {
    if cs == [] then Match(map[], BASE_PROTOCOL_LENGTH)
    else MatchOne(ps, MatchAll(ps, cs[..|cs| - 1]), cs[|cs| - 1])
  }

  /** The inner loop. */
  method FindMatch(protocols: seq<Protocol>, c: Cap) returns (i: nat)
    ensures i == FindProtocol(protocols, c)
  {
    i := 0;
    while i < |protocols| && CapOf(protocols[i]) != c
      invariant 0 <= i <= |protocols| && forall j | 0 <= j < i :: CapOf(protocols[j]) != c
    {
      i := i + 1;
    }
    FirstMatch(protocols, c, i);
  }

  lemma {:induction false} FirstMatch(ps: seq<Protocol>, c: Cap, i: nat)
    requires i <= |ps| && (forall j | 0 <= j < i :: CapOf(ps[j]) != c) && (i < |ps| ==> CapOf(ps[i]) == c)
    ensures FindProtocol(ps, c) == i
  {
    if i > 0 { FirstMatch(ps[1..], c, i - 1); }
  }

  // ------------------------------------------------------ the independent reference

  /** The capabilities both sides have. */
  function Common(ps: seq<Protocol>, cs: seq<Cap>): seq<Cap> {
    if cs == [] then []
    else
      var front, c := Common(ps, cs[..|cs| - 1]), cs[|cs| - 1];
      if FindProtocol(ps, c) == |ps| then front else front + [c]
  }

  /** The last capability of each name, in order. */
  function Winners(cs: seq<Cap>): seq<Cap> {
    if cs == [] then []
    else
      var w, c := Winners(cs[..|cs| - 1]), cs[|cs| - 1];
      if w != [] && w[|w| - 1].name == c.name then w[..|w| - 1] + [c] else w + [c]
  }

  function Length(ps: seq<Protocol>, c: Cap): nat {
    var i := FindProtocol(ps, c);
    if i == |ps| then 0 else ps[i].length
  }

  /** The codes taken by the base protocol and by all of `ws`. */
  function End(ps: seq<Protocol>, ws: seq<Cap>): nat {
    if ws == [] then BASE_PROTOCOL_LENGTH else End(ps, ws[..|ws| - 1]) + Length(ps, ws[|ws| - 1])
  }

  /** Each protocol's codes start where those of the previous one end. */
  function Table(ps: seq<Protocol>, ws: seq<Cap>): map<string, Entry> {
    if ws == [] then map[]
    else
      var front, c := ws[..|ws| - 1], ws[|ws| - 1];
      Table(ps, front)[c.name := Entry(c.version, Length(ps, c), End(ps, front) % WORD)]
  }

  predicate NamesAscend(ws: seq<Cap>) { forall i, j | 0 <= i < j < |ws| :: StrLess(ws[i].name, ws[j].name) }

  lemma {:induction false} TableKeys(ps: seq<Protocol>, ws: seq<Cap>)
    ensures forall n :: n in Table(ps, ws) <==> exists i :: 0 <= i < |ws| && ws[i].name == n
  {
    if ws != [] {
      var front, c := ws[..|ws| - 1], ws[|ws| - 1];
      TableKeys(ps, front);
      forall n ensures n in Table(ps, ws) <==> exists i :: 0 <= i < |ws| && ws[i].name == n {
        if n == c.name { assert ws[|ws| - 1].name == n; }
        if n in Table(ps, front) {
          var i :| 0 <= i < |front| && front[i].name == n;
          assert ws[i].name == n;
        }
        if i :| 0 <= i < |ws| && ws[i].name == n {
          if i < |front| { assert front[i].name == n; }
        }
      }
    }
  }

  /** No later version of the same name is in `cs`. */
  predicate Highest(cs: seq<Cap>, c: Cap) {
    c in cs && forall d | d in cs && d.name == c.name :: d.version <= c.version
  }

  lemma Snoc(cs: seq<Cap>)
    requires cs != []
    ensures var front, c := cs[..|cs| - 1], cs[|cs| - 1];
            && cs == front + [c]
            && (forall d :: d in cs <==> d in front || d == c)
            && (Sorted(cs) ==> Sorted(front) && forall d | d in front :: !Less(c, d))
  {
  }

  lemma LastIsLast(cs: seq<Cap>)
    requires cs != [] && Sorted(cs)
    ensures var last := cs[|cs| - 1]; forall d | d in cs :: d.name == last.name || StrLess(d.name, last.name)
  {
    var last := cs[|cs| - 1];
    forall d | d in cs ensures d.name == last.name || StrLess(d.name, last.name) {
      Snoc(cs);
      StrTotal(d.name, last.name);
    }
  }

  /** Of a sorted list, the winners are the highest versions, by ascending name. */
  lemma {:induction false} WinnersAreHighest(cs: seq<Cap>)
    requires Sorted(cs)
    ensures NamesAscend(Winners(cs))
    ensures forall c :: c in Winners(cs) <==> Highest(cs, c)
    ensures cs != [] ==> Winners(cs) != [] && Winners(cs)[|Winners(cs)| - 1] == cs[|cs| - 1]
  {
    if cs != [] {
      var front, c := cs[..|cs| - 1], cs[|cs| - 1];
      Snoc(cs);
      WinnersAreHighest(front);
      var w := Winners(front);
      WinnersStep(cs);
      if front != [] { LastIsLast(front); }
      hide Winners, Sorted, Less, Highest, NamesAscend;
      if w != [] && w[|w| - 1].name == c.name {
        ReplaceWinner(cs, front, c, w);
      } else {
        NoWinners(front);
        AppendWinner(cs, front, c, w);
      }
    }
  }

  lemma NoWinners(cs: seq<Cap>)
    ensures cs == [] <==> Winners(cs) == []
  {
  }

  lemma WinnersStep(cs: seq<Cap>)
    requires cs != []
    ensures var w, c := Winners(cs[..|cs| - 1]), cs[|cs| - 1];
            Winners(cs) == if w != [] && w[|w| - 1].name == c.name then w[..|w| - 1] + [c] else w + [c]
  {
  }

  lemma ReplaceWinner(cs: seq<Cap>, front: seq<Cap>, c: Cap, w: seq<Cap>)
    requires cs == front + [c] && (forall d | d in front :: !Less(c, d))
    requires NamesAscend(w) && (forall e :: e in w <==> Highest(front, e)) && w != [] && w[|w| - 1].name == c.name
    ensures var v := w[..|w| - 1] + [c]; NamesAscend(v) && forall e :: e in v <==> Highest(cs, e)
  {
    var v, last := w[..|w| - 1] + [c], w[|w| - 1];
    assert forall e :: e in w <==> e in w[..|w| - 1] || e == last;
    assert forall e :: e in v <==> e in w[..|w| - 1] || e == c;
    assert forall e :: e in cs <==> e in front || e == c;
    StrIrreflexive(c.name);
    assert forall d | d in front && d.name == c.name :: d.version <= c.version;
    forall e | e in w[..|w| - 1] ensures e.name != c.name && Highest(cs, e) {
      var i :| 0 <= i < |w| - 1 && w[i] == e;
      assert StrLess(e.name, last.name);
      assert e in w;
    }
    forall e | Highest(cs, e) && e != c ensures e in w[..|w| - 1] {
      assert Highest(front, e);
      assert e in w;
    }
  }

  lemma AppendWinner(cs: seq<Cap>, front: seq<Cap>, c: Cap, w: seq<Cap>)
    requires cs == front + [c] && (forall d | d in front :: !Less(c, d))
    requires NamesAscend(w) && (forall e :: e in w <==> Highest(front, e))
    requires (w == [] <==> front == []) && (w != [] ==> w[|w| - 1] in front && w[|w| - 1].name != c.name)
    requires front != [] ==> forall d | d in front :: d.name == w[|w| - 1].name || StrLess(d.name, w[|w| - 1].name)
    ensures var v := w + [c]; NamesAscend(v) && forall e :: e in v <==> Highest(cs, e)
  {
    var v := w + [c];
    assert forall e :: e in v <==> e in w || e == c;
    assert forall e :: e in cs <==> e in front || e == c;
    if front != [] {
      var last := w[|w| - 1];
      StrTotal(last.name, c.name);
      assert StrLess(last.name, c.name);
      forall d | d in front ensures StrLess(d.name, c.name) && d.name != c.name {
        if d.name != last.name { StrTransitive(d.name, last.name, c.name); }
        StrIrreflexive(c.name);
      }
      forall e | e in w ensures e in front && StrLess(e.name, c.name) && Highest(cs, e) { assert Highest(front, e); }
    }
    forall e | Highest(cs, e) && e != c ensures e in w { assert Highest(front, e); }
  }

  ghost predicate Have(ps: seq<Protocol>, c: Cap) { exists p :: p in ps && CapOf(p) == c }

  lemma FoundIfHad(ps: seq<Protocol>, c: Cap)
    ensures FindProtocol(ps, c) < |ps| <==> Have(ps, c)
  {
    var i := FindProtocol(ps, c);
    if i < |ps| { assert ps[i] in ps; }
  }

  /** Common keeps the order and exactly the capabilities we have too. */
  lemma {:induction false} CommonMembers(ps: seq<Protocol>, cs: seq<Cap>)
    requires Sorted(cs)
    ensures Sorted(Common(ps, cs))
    ensures forall c :: c in Common(ps, cs) <==> c in cs && Have(ps, c)
  {
    if cs != [] {
      var front, c := cs[..|cs| - 1], cs[|cs| - 1];
      Snoc(cs);
      CommonMembers(ps, front);
      var f := Common(ps, front);
      CommonStep(ps, cs);
      FoundIfHad(ps, c);
      hide Common, FindProtocol, Have, Less;
      if FindProtocol(ps, c) < |ps| {
        SortedSnoc(f, c);
        assert forall d :: d in f + [c] <==> d in f || d == c;
      }
    }
  }

  lemma SortedSnoc(f: seq<Cap>, c: Cap)
    requires Sorted(f) && forall d | d in f :: !Less(c, d)
    ensures Sorted(f + [c])
  {
  }

  lemma CommonStep(ps: seq<Protocol>, cs: seq<Cap>)
    requires cs != []
    ensures var front, c := Common(ps, cs[..|cs| - 1]), cs[|cs| - 1];
            Common(ps, cs) == if FindProtocol(ps, c) == |ps| then front else front + [c]
  {
  }

  /** Matching a sorted list yields the table of the winners among the common capabilities. */
  lemma {:induction false} MatchIsTable(ps: seq<Protocol>, cs: seq<Cap>)
    requires Sorted(cs)
    ensures var ws := Winners(Common(ps, cs)); MatchAll(ps, cs) == Match(Table(ps, ws), End(ps, ws) % WORD)
  {
    if cs != [] {
      var front, c := cs[..|cs| - 1], cs[|cs| - 1];
      Snoc(cs);
      MatchIsTable(ps, front);
      CommonStep(ps, cs);
      if FindProtocol(ps, c) < |ps| {
        var f := Common(ps, front);
        CommonMembers(ps, front);
        WinnersAreHighest(f);
        var w := Winners(f);
        assert (f + [c])[..|f + [c]| - 1] == f;
        WinnersStep(f + [c]);
        NoWinners(f);
        if f != [] { LastIsLast(f); }
        MatchStep(ps, w, c);
      }
    }
  }

  /** One more match, in terms of the table. */
  lemma MatchStep(ps: seq<Protocol>, w: seq<Cap>, c: Cap)
    requires NamesAscend(w) && FindProtocol(ps, c) < |ps|
    requires w != [] ==> forall d | d in w :: !Less(c, d)
    ensures var v := if w != [] && w[|w| - 1].name == c.name then w[..|w| - 1] + [c] else w + [c];
            MatchOne(ps, Match(Table(ps, w), End(ps, w) % WORD), c) == Match(Table(ps, v), End(ps, v) % WORD)
  {
    if w != [] && w[|w| - 1].name == c.name { MatchReplace(ps, w, c); } else { MatchAppend(ps, w, c); }
  }

  /** A later version takes the place of the one before. */
  lemma MatchReplace(ps: seq<Protocol>, w: seq<Cap>, c: Cap)
    requires FindProtocol(ps, c) < |ps| && w != [] && w[|w| - 1].name == c.name
    ensures var v := w[..|w| - 1] + [c];
            MatchOne(ps, Match(Table(ps, w), End(ps, w) % WORD), c) == Match(Table(ps, v), End(ps, v) % WORD)
  {
    hide Table, End, FindProtocol, Length;
    var front, last := w[..|w| - 1], w[|w| - 1];
    var v := front + [c];
    assert v[..|v| - 1] == front;
    TableLast(ps, w);
    TableLast(ps, v);
    LengthFound(ps, c);
    var x := Entry(last.version, Length(ps, last), End(ps, front) % WORD);
    Overwrite(ps, Table(ps, front), x, c, End(ps, front), Length(ps, c));
  }

  lemma LengthFound(ps: seq<Protocol>, c: Cap)
    requires FindProtocol(ps, c) < |ps|
    ensures Length(ps, c) == ps[FindProtocol(ps, c)].length
  {
  }

  lemma Overwrite(ps: seq<Protocol>, front: map<string, Entry>, x: Entry, c: Cap, e: nat, n: nat)
    requires FindProtocol(ps, c) < |ps| && ps[FindProtocol(ps, c)].length == n
    ensures MatchOne(ps, Match(front[c.name := x], (e + x.length) % WORD), c)
         == Match(front[c.name := Entry(c.version, n, e % WORD)], (e + n) % WORD)
  {
    hide FindProtocol;
    ModBack(e, x.length);
    ModOn(e, n);
    var y := Entry(c.version, n, e % WORD);
    assert front[c.name := x][c.name := y] == front[c.name := y];
  }

  /** A new name goes behind the others. */
  lemma MatchAppend(ps: seq<Protocol>, w: seq<Cap>, c: Cap)
    requires NamesAscend(w) && FindProtocol(ps, c) < |ps| && (w != [] ==> w[|w| - 1].name != c.name)
    requires w != [] ==> forall d | d in w :: !Less(c, d)
    ensures var v := w + [c];
            MatchOne(ps, Match(Table(ps, w), End(ps, w) % WORD), c) == Match(Table(ps, v), End(ps, v) % WORD)
  {
    hide Table, End, FindProtocol, Length;
    hide Less, NamesAscend;
    NewName(ps, w, c);
    var v := w + [c];
    assert v[..|v| - 1] == w;
    TableLast(ps, v);
    LengthFound(ps, c);
    Extend(ps, Table(ps, w), c, End(ps, w), Length(ps, c));
  }

  lemma Extend(ps: seq<Protocol>, table: map<string, Entry>, c: Cap, e: nat, n: nat)
    requires FindProtocol(ps, c) < |ps| && ps[FindProtocol(ps, c)].length == n && c.name !in table
    ensures MatchOne(ps, Match(table, e % WORD), c)
         == Match(table[c.name := Entry(c.version, n, e % WORD)], (e + n) % WORD)
  {
    hide FindProtocol;
    ModOn(e, n);
  }

  lemma NewName(ps: seq<Protocol>, w: seq<Cap>, c: Cap)
    requires NamesAscend(w) && (w != [] ==> w[|w| - 1].name != c.name)
    requires w != [] ==> forall d | d in w :: !Less(c, d)
    ensures c.name !in Table(ps, w)
  {
    hide Table;
    TableKeys(ps, w);
    forall i | 0 <= i < |w| ensures w[i].name != c.name {
      assert w[|w| - 1] in w;
      assert !Less(c, w[|w| - 1]);
      StrTotal(w[i].name, c.name);
    }
  }

  lemma TableLast(ps: seq<Protocol>, ws: seq<Cap>)
    requires ws != []
    ensures var front, c := ws[..|ws| - 1], ws[|ws| - 1];
            && Table(ps, ws) == Table(ps, front)[c.name := Entry(c.version, Length(ps, c), End(ps, front) % WORD)]
            && End(ps, ws) == End(ps, front) + Length(ps, c)
  {
  }

  lemma ModBack(a: nat, l: nat)
    ensures ((a + l) % WORD - l) % WORD == a % WORD
  {
    assert (a + l) % WORD - l == a - WORD * ((a + l) / WORD);
  }

  lemma ModOn(a: nat, l: nat)
    ensures (a % WORD + l) % WORD == (a + l) % WORD
  {
    assert a % WORD == a - WORD * (a / WORD);
  }

  /** What runs with a peer that has these capabilities. */
  ghost function Chosen(ps: seq<Protocol>, cs: seq<Cap>): seq<Cap> { Winners(Common(ps, Sort(cs))) }

  /** They are the highest versions that both sides have, by ascending name. */
  lemma ChosenMembers(ps: seq<Protocol>, cs: seq<Cap>)
    ensures NamesAscend(Chosen(ps, cs))
    ensures forall c :: c in Chosen(ps, cs) <==>
              && c in cs && Have(ps, c)
              && forall d | d in cs && Have(ps, d) && d.name == c.name :: d.version <= c.version
  {
    hide Sort, Common, Winners, Have, NamesAscend, Sorted;
    SortSorted(cs);
    SortMembers(cs);
    CommonMembers(ps, Sort(cs));
    WinnersAreHighest(Common(ps, Sort(cs)));
  }

  lemma MatchIsChosen(ps: seq<Protocol>, cs: seq<Cap>)
    ensures MatchAll(ps, Sort(cs)).running == Table(ps, Chosen(ps, cs))
  {
    hide Sort, Common, Winners, Sorted, Table, End, MatchAll;
    SortSorted(cs);
    MatchIsTable(ps, Sort(cs));
  }

  /** `matchProtocols`: the chosen capabilities run, each one's codes behind those of the one before. */
  method MatchProtocols(protocols: seq<Protocol>, caps: seq<Cap>) returns (running: map<string, Entry>)
    ensures running == MatchAll(protocols, Sort(caps)).running == Table(protocols, Chosen(protocols, caps))
  {
    hide Sort, MatchAll, Table, Chosen;
    running := MatchSorted(protocols, Sort(caps));
    MatchIsChosen(protocols, caps);
  }

  /** The outer loop. */
  method MatchSorted(protocols: seq<Protocol>, sorted: seq<Cap>) returns (running: map<string, Entry>)
    ensures running == MatchAll(protocols, sorted).running
  {
    hide FindProtocol, MatchAll;
    var offset: nat := BASE_PROTOCOL_LENGTH;
    running := map[];
    MatchNone(protocols);
    var k := 0;
    while k < |sorted|
      invariant 0 <= k <= |sorted| && Match(running, offset) == MatchAll(protocols, sorted[..k])
    {
      var c := sorted[k];
      MatchNext(protocols, sorted, k);
      var i := FindMatch(protocols, c);
      if i < |protocols| {
        if c.name in running { offset := (offset - running[c.name].length) % WORD; }
        running := running[c.name := Entry(c.version, protocols[i].length, offset)];
        offset := (offset + protocols[i].length) % WORD;
      }
      k := k + 1;
    }
    assert sorted[..k] == sorted;
  }

  lemma MatchNone(ps: seq<Protocol>)
    ensures MatchAll(ps, []) == Match(map[], BASE_PROTOCOL_LENGTH)
  {
  }

  lemma MatchNext(ps: seq<Protocol>, cs: seq<Cap>, k: nat)
    requires k < |cs|
    ensures MatchAll(ps, cs[..k + 1]) == MatchOne(ps, MatchAll(ps, cs[..k]), cs[k])
  {
    assert cs[..k + 1][..k] == cs[..k];
  }

  // ----------------------------------------------------------------- both ends agree

  function CapsOf(ps: seq<Protocol>): seq<Cap> { seq(|ps|, i requires 0 <= i < |ps| => CapOf(ps[i])) }

  /** Equal name and version mean equal length, on both sides. */
  ghost predicate Consistent(ps: seq<Protocol>, qs: seq<Protocol>) {
    forall p, q | p in ps && q in qs && CapOf(p) == CapOf(q) :: p.length == q.length
  }

  /** What the two sides can speak with each other. */
  ghost function Agreed(ps: seq<Protocol>, qs: seq<Protocol>): seq<Cap> { Chosen(ps, CapsOf(qs)) }

  lemma CapsOfMembers(ps: seq<Protocol>, c: Cap)
    ensures c in CapsOf(ps) <==> Have(ps, c)
  {
    if c in CapsOf(ps) {
      var i :| 0 <= i < |ps| && CapsOf(ps)[i] == c;
      assert ps[i] in ps;
    }
    if p :| p in ps && CapOf(p) == c {
      var i :| 0 <= i < |ps| && ps[i] == p;
      assert CapsOf(ps)[i] == c;
    }
  }

  lemma AgreedMembers(ps: seq<Protocol>, qs: seq<Protocol>)
    ensures NamesAscend(Agreed(ps, qs))
    ensures forall c :: c in Agreed(ps, qs) <==>
              && c in CapsOf(ps) && c in CapsOf(qs)
              && forall d | d in CapsOf(ps) && d in CapsOf(qs) && d.name == c.name :: d.version <= c.version
  {
    hide Chosen, Have, CapsOf, NamesAscend;
    ChosenMembers(ps, CapsOf(qs));
    forall c ensures c in CapsOf(ps) <==> Have(ps, c) { CapsOfMembers(ps, c); }
  }

  lemma {:induction false} AscendingUnique(v: seq<Cap>, w: seq<Cap>)
    requires NamesAscend(v) && NamesAscend(w) && forall c :: c in v <==> c in w
    ensures v == w
  {
    assert forall i | 0 <= i < |w| :: w[i] in v;
    assert forall i | 0 <= i < |v| :: v[i] in w;
    if v != [] && w != [] {
      FirstsEqual(v, w);
      forall c ensures c in v[1..] <==> c in w[1..] {
        TailMembers(v, c);
        TailMembers(w, c);
      }
      AscendingUnique(v[1..], w[1..]);
      assert v == [v[0]] + v[1..] && w == [w[0]] + w[1..];
    }
  }

  lemma FirstsEqual(v: seq<Cap>, w: seq<Cap>)
    requires NamesAscend(v) && NamesAscend(w) && v != [] && w != [] && v[0] in w && w[0] in v
    ensures v[0] == w[0]
  {
    var i :| 0 <= i < |w| && w[i] == v[0];
    var j :| 0 <= j < |v| && v[j] == w[0];
    StrTotal(v[0].name, w[0].name);
  }

  lemma TailMembers(v: seq<Cap>, c: Cap)
    requires NamesAscend(v) && v != []
    ensures c in v[1..] <==> c in v && c != v[0]
  {
    StrIrreflexive(v[0].name);
    if c in v && c != v[0] {
      var i :| 0 <= i < |v| && v[i] == c;
      assert v[1..][i - 1] == c;
    }
  }

  lemma {:induction false} SameTable(ps: seq<Protocol>, qs: seq<Protocol>, ws: seq<Cap>)
    requires forall c | c in ws :: Length(ps, c) == Length(qs, c)
    ensures Table(ps, ws) == Table(qs, ws) && End(ps, ws) == End(qs, ws)
  {
    if ws != [] { SameTable(ps, qs, ws[..|ws| - 1]); }
  }

  lemma SameLength(ps: seq<Protocol>, qs: seq<Protocol>, c: Cap)
    requires Consistent(ps, qs) && c in CapsOf(ps) && c in CapsOf(qs)
    ensures Length(ps, c) == Length(qs, c)
  {
    CapsOfMembers(ps, c);
    CapsOfMembers(qs, c);
    var i, j := FindProtocol(ps, c), FindProtocol(qs, c);
    assert i < |ps| && ps[i] in ps && j < |qs| && qs[j] in qs;
  }

  /** Both ends compute the same table: the highest common version of each name, by name, one behind
      the other from 16. */
  lemma BothEndsAgree(ps: seq<Protocol>, qs: seq<Protocol>)
    requires Consistent(ps, qs)
    ensures MatchAll(ps, Sort(CapsOf(qs))).running == MatchAll(qs, Sort(CapsOf(ps))).running
         == Table(ps, Agreed(ps, qs))
  {
    hide Chosen, Sort, CapsOf, Consistent, NamesAscend, Length, Table, MatchAll;
    MatchIsChosen(ps, CapsOf(qs));
    MatchIsChosen(qs, CapsOf(ps));
    AgreedMembers(ps, qs);
    AgreedMembers(qs, ps);
    AscendingUnique(Agreed(ps, qs), Agreed(qs, ps));
    forall c | c in Agreed(ps, qs) ensures Length(ps, c) == Length(qs, c) { SameLength(ps, qs, c); }
    SameTable(ps, qs, Agreed(ps, qs));
  }

  // -------------------------------------------------------------------- delivery

  /** `WriteMsg`: codes a protocol does not have are refused. */
  function WireCode(e: Entry, code: nat): Option<nat> {
    if code >= e.length then None else Some((code + e.offset) % WORD)
  }

  /** `ReadMsg`. */
  function LocalCode(e: Entry, wire: nat): nat { (wire - e.offset) % WORD }

  predicate Serves(e: Entry, wire: nat) { e.offset <= wire < (e.offset + e.length) % WORD }

  /** `getProto`: searches the running protocols in no particular order. */
  method GetProto(running: map<string, Entry>, wire: nat) returns (r: Option<string>)
    ensures r.Some? ==> r.value in running && Serves(running[r.value], wire)
    ensures r.None? ==> forall n | n in running :: !Serves(running[n], wire)
  {
    var names := running.Keys;
    while names != {}
      invariant names <= running.Keys
      invariant forall n | n in running && n !in names :: !Serves(running[n], wire)
      decreases names
    {
      var n :| n in names;
      if Serves(running[n], wire) { return Some(n); }
      names := names - {n};
    }
    return None;
  }

  lemma {:induction false} EntryAt(ps: seq<Protocol>, ws: seq<Cap>, i: nat)
    requires NamesAscend(ws) && i < |ws|
    ensures ws[i].name in Table(ps, ws)
    ensures Table(ps, ws)[ws[i].name] == Entry(ws[i].version, Length(ps, ws[i]), End(ps, ws[..i]) % WORD)
  {
    TableLast(ps, ws);
    if i < |ws| - 1 {
      var front := ws[..|ws| - 1];
      EntryAt(ps, front, i);
      assert front[..i] == ws[..i];
      StrIrreflexive(ws[i].name);
    }
  }

  lemma {:induction false} EndGrows(ps: seq<Protocol>, ws: seq<Cap>, i: nat, j: nat)
    requires i < j <= |ws|
    ensures BASE_PROTOCOL_LENGTH <= End(ps, ws[..i]) && End(ps, ws[..i]) + Length(ps, ws[i]) <= End(ps, ws[..j])
  {
    assert ws[..j][..j - 1] == ws[..j - 1];
    if i < j - 1 { EndGrows(ps, ws, i, j - 1); } else { EndBase(ps, ws[..i]); }
  }

  lemma {:induction false} EndBase(ps: seq<Protocol>, ws: seq<Cap>)
    ensures BASE_PROTOCOL_LENGTH <= End(ps, ws)
  {
    if ws != [] { EndBase(ps, ws[..|ws| - 1]); }
  }

  /** As long as all codes fit into 64 bits, the ranges start above the base protocol and do not overlap:
      a code on the wire belongs to the protocol that sent it and to no other. */
  lemma OneServes(ps: seq<Protocol>, ws: seq<Cap>, i: nat, code: nat)
    requires NamesAscend(ws) && i < |ws| && End(ps, ws) < WORD && code < Length(ps, ws[i])
    ensures ws[i].name in Table(ps, ws)
    ensures var e := Table(ps, ws)[ws[i].name];
            && WireCode(e, code) == Some(e.offset + code)
            && BASE_PROTOCOL_LENGTH <= e.offset + code
            && LocalCode(e, e.offset + code) == code
            && forall n | n in Table(ps, ws) :: Serves(Table(ps, ws)[n], e.offset + code) <==> n == ws[i].name
  {
    hide Table, End, Length, NamesAscend, Serves;
    var table := Table(ps, ws);
    EntryAt(ps, ws, i);
    RangesApart(ps, ws, i, i, code);
    var e := table[ws[i].name];
    TableKeys(ps, ws);
    forall n | n in table ensures Serves(table[n], e.offset + code) <==> n == ws[i].name {
      var j :| 0 <= j < |ws| && ws[j].name == n;
      EntryAt(ps, ws, j);
      RangesApart(ps, ws, i, j, code);
      DistinctNames(ws, i, j);
    }
  }

  /** A code in the range of entry i is in the range of entry j exactly if they are the same. */
  lemma RangesApart(ps: seq<Protocol>, ws: seq<Cap>, i: nat, j: nat, code: nat)
    requires i < |ws| && j < |ws| && End(ps, ws) < WORD && code < Length(ps, ws[i])
    ensures BASE_PROTOCOL_LENGTH <= End(ps, ws[..i]) && End(ps, ws[..i]) + code < WORD
    ensures Serves(Entry(ws[j].version, Length(ps, ws[j]), End(ps, ws[..j]) % WORD), End(ps, ws[..i]) + code)
            <==> i == j
  {
    hide End, Length;
    assert ws[..|ws|] == ws;
    EndGrows(ps, ws, i, |ws|);
    EndGrows(ps, ws, j, |ws|);
    if j < i { EndGrows(ps, ws, j, i); } else if i < j { EndGrows(ps, ws, i, j); }
  }

  lemma DistinctNames(ws: seq<Cap>, i: nat, j: nat)
    requires NamesAscend(ws) && i < |ws| && j < |ws|
    ensures ws[i].name == ws[j].name <==> i == j
  {
    StrIrreflexive(ws[i].name);
  }

  /** Between two peers, each with its own protocols and the other's capabilities: a code one side writes
      for a protocol reaches the same protocol, in the same version, as the same code on the other side. */
  method Exchange(ours: seq<Protocol>, theirs: seq<Protocol>, name: string, code: nat)
    returns (sent: Option<nat>, proto: Option<string>, received: nat,
             here: map<string, Entry>, there: map<string, Entry>)
    requires Consistent(ours, theirs) && End(ours, Agreed(ours, theirs)) < WORD
    ensures here == there == Table(ours, Agreed(ours, theirs))
    ensures sent.Some? <==> name in here && code < here[name].length
    ensures sent.Some? ==> proto == Some(name) && name in there && here[name] == there[name] && received == code
  {
    hide Table, End, Agreed, MatchAll, Sort, NamesAscend, Serves, LocalCode;
    here := MatchProtocols(ours, CapsOf(theirs));
    there := MatchProtocols(theirs, CapsOf(ours));
    BothEndsAgree(ours, theirs);
    sent, proto, received := None, None, 0;
    if name in here {
      sent := WireCode(here[name], code);
      if sent.Some? {
        OnlyReceiver(ours, theirs, name, code);
        proto := GetProto(there, sent.value);
        if proto.Some? { received := LocalCode(there[proto.value], sent.value); }
      }
    }
  }

  lemma AgreedAscends(ps: seq<Protocol>, qs: seq<Protocol>)
    ensures NamesAscend(Agreed(ps, qs))
  {
    AgreedMembers(ps, qs);
  }

  lemma OnlyReceiver(ours: seq<Protocol>, theirs: seq<Protocol>, name: string, code: nat)
    requires End(ours, Agreed(ours, theirs)) < WORD
    requires var t := Table(ours, Agreed(ours, theirs)); name in t && code < t[name].length
    ensures var t := Table(ours, Agreed(ours, theirs));
            && WireCode(t[name], code) == Some(t[name].offset + code)
            && LocalCode(t[name], t[name].offset + code) == code
            && forall n | n in t :: Serves(t[n], t[name].offset + code) <==> n == name
  {
    hide Table, End, Agreed, Serves, LocalCode, WireCode, Length, NamesAscend;
    var ws := Agreed(ours, theirs);
    AgreedAscends(ours, theirs);
    TableKeys(ours, ws);
    var i :| 0 <= i < |ws| && ws[i].name == name;
    EntryAt(ours, ws, i);
    OneServes(ours, ws, i, code);
  }
}
