/** The expiry heap of p2p/util.go: keys with expiry times in a binary heap. `Push` and `Pop` follow
    the sift-up and sift-down loops of Go's container/heap. */
module ExpiryHeap {
  import opened Basics

  /** The string under which an item is kept. Keys are only compared, so a number stands for one. */
  type Key = nat

  datatype Item = Item(item: Key, exp: int)

  function Parent(i: int): int { (i - 1) / 2 }

  /** Every item expires no earlier than its parent. */
  ghost predicate Heap(s: seq<Item>) { forall i :: 0 < i < |s| ==> s[Parent(i)].exp <= s[i].exp }

  ghost predicate HasKey(s: seq<Item>, key: Key) { exists i :: 0 <= i < |s| && s[i].item == key }

  function Swapped(s: seq<Item>, i: nat, j: nat): (r: seq<Item>)
    requires i < |s| && j < |s|
    ensures |r| == |s|
  {
    s[i := s[j]][j := s[i]]
  }

  lemma SwapKeeps(s: seq<Item>, i: nat, j: nat)
    requires i < |s| && j < |s|
    ensures multiset(Swapped(s, i, j)) == multiset(s)
  {
  }

  /** A heap but for position j, which may expire before its parent. */
  ghost predicate Rising(s: seq<Item>, j: int) {
    && (forall i :: 0 < i < |s| && i != j ==> s[Parent(i)].exp <= s[i].exp)
    && (forall i :: 0 < i < |s| && Parent(i) == j && 0 < j < |s| ==> s[Parent(j)].exp <= s[i].exp)
  }

  /** A heap of the first n but for position i, which may expire after its children. */
  ghost predicate Sinking(s: seq<Item>, i: int, n: int) {
    && n <= |s|
    && (forall k :: 0 < k < n && Parent(k) != i ==> s[Parent(k)].exp <= s[k].exp)
    && (forall k :: 0 < k < n && Parent(k) == i && 0 < i < n ==> s[Parent(i)].exp <= s[k].exp)
  }

  lemma RiseStep(s: seq<Item>, j: nat)
    requires Rising(s, j) && 0 < j < |s| && s[j].exp < s[Parent(j)].exp
    ensures Rising(Swapped(s, Parent(j), j), Parent(j))
  {
    var p := Parent(j);
    var t := Swapped(s, p, j);
    forall i | 0 < i < |t| && i != p ensures t[Parent(i)].exp <= t[i].exp {
    }
    if p > 0 {
      forall i | 0 < i < |t| && Parent(i) == p ensures t[Parent(p)].exp <= t[i].exp {
        assert s[Parent(p)].exp <= s[p].exp;
        if i != j { assert s[p].exp <= s[i].exp; }
      }
    }
  }

  /** The child that container/heap compares with: the earlier of the two. */
  function Child(s: seq<Item>, i: nat, n: nat): (c: nat)
    requires 2 * i + 1 < n <= |s|
    ensures 0 < c < n && Parent(c) == i
    ensures forall k :: 0 < k < n && Parent(k) == i ==> s[c].exp <= s[k].exp
  {
    var c := 2 * i + 1;
    assert forall k :: Parent(k) == i ==> k == c || k == c + 1;
    if c + 1 < n && s[c + 1].exp < s[c].exp then c + 1 else c
  }

  lemma SinkStep(s: seq<Item>, i: nat, n: nat)
    requires Sinking(s, i, n) && 2 * i + 1 < n && s[Child(s, i, n)].exp < s[i].exp
    ensures Sinking(Swapped(s, i, Child(s, i, n)), Child(s, i, n), n)
  {
    var c := Child(s, i, n);
    var t := Swapped(s, i, c);
    forall k | 0 < k < n && Parent(k) != c ensures t[Parent(k)].exp <= t[k].exp {
      if k == i { assert s[Parent(i)].exp <= s[c].exp; }
    }
    forall k | 0 < k < n && Parent(k) == c ensures t[Parent(c)].exp <= t[k].exp {
      assert s[c].exp <= s[k].exp;
    }
  }

  lemma SinkDone(s: seq<Item>, i: nat, n: nat)
    requires Sinking(s, i, n) && (2 * i + 1 >= n || s[i].exp <= s[Child(s, i, n)].exp)
    ensures Heap(s[..n])
  {
    forall k | 0 < k < n ensures s[Parent(k)].exp <= s[k].exp {
    }
  }

  /** The root expires first. */
  lemma {:induction false} RootIsLeast(s: seq<Item>, i: nat)
    requires Heap(s) && i < |s|
    ensures s[0].exp <= s[i].exp
  {
    if i > 0 {
      RootIsLeast(s, Parent(i));
    }
  }

  /** What a sweep at `now` leaves: everything but the items that expire before it. */
  ghost predicate Swept(before: multiset<Item>, now: int, after: multiset<Item>) {
    forall x :: after[x] == if x.exp < now then 0 else before[x]
  }

  class ExpHeap {
    var items: seq<Item>

    ghost predicate Valid() reads this { Heap(items) }

    constructor ()
      ensures Valid() && items == []
    {
      items := [];
    }

    /** `expHeap.nextExpiry`: nothing in the heap expires earlier. */
    method NextExpiry() returns (exp: int)
      requires Valid() && items != []
      ensures exp == items[0].exp && forall x :: x in items ==> exp <= x.exp
    {
      exp := items[0].exp;
      forall x | x in items ensures items[0].exp <= x.exp {
        var i :| 0 <= i < |items| && items[i] == x;
        RootIsLeast(items, i);
      }
    }

    method Up(j0: nat)
      requires j0 < |items| && Rising(items, j0)
      modifies this
      ensures Valid() && multiset(items) == old(multiset(items))
    {
      hide Rising;
      var j := j0;
      while j > 0 && items[j].exp < items[Parent(j)].exp
        invariant 0 <= j < |items| && Rising(items, j) && multiset(items) == old(multiset(items))
      {
        RiseStep(items, j);
        SwapKeeps(items, Parent(j), j);
        items := Swapped(items, Parent(j), j);
        j := Parent(j);
      }
      RiseDone(items, j);
    }

    method Down(n: nat)
      requires n <= |items| && Sinking(items, 0, n)
      modifies this
      ensures |items| == old(|items|) && items[n..] == old(items[n..])
      ensures Heap(items[..n]) && multiset(items[..n]) == old(multiset(items[..n]))
    {
      hide Sinking, Heap, Child;
      var i := 0;
      while 2 * i + 1 < n && items[Child(items, i, n)].exp < items[i].exp
        invariant 0 <= i && |items| == old(|items|) && items[n..] == old(items[n..])
        invariant Sinking(items, i, n) && multiset(items[..n]) == old(multiset(items[..n]))
        decreases n - i
      {
        var c := Child(items, i, n);
        SinkStep(items, i, n);
        SwapKeeps(items[..n], i, c);
        assert Swapped(items, i, c)[..n] == Swapped(items[..n], i, c);
        assert Swapped(items, i, c)[n..] == items[n..];
        items := Swapped(items, i, c);
        i := c;
      }
      SinkDone(items, i, n);
    }

    /** `expHeap.add`. */
    method Add(item: Key, exp: int)
      requires Valid()
      modifies this
      ensures Valid() && multiset(items) == old(multiset(items)) + multiset{Item(item, exp)}
    {
      items := items + [Item(item, exp)];
      Up(|items| - 1);
    }

    /** heap.Pop: takes out an item that expires first. */
    method Pop() returns (x: Item)
      requires Valid() && items != []
      modifies this
      ensures Valid() && x == old(items[0]) && |items| == old(|items|) - 1
      ensures old(multiset(items)) == multiset(items) + multiset{x}
      ensures forall y :: y in items ==> x.exp <= y.exp
    {
      ghost var was := items;
      var n := |items| - 1;
      PopStart(items);
      items := Swapped(items, 0, n);
      Down(n);
      x := items[n];
      items := items[..n];
      PopEnd(was, items, x);
    }

    /** `expHeap.contains`. */
    method Contains(item: Key) returns (b: bool)
      ensures b <==> HasKey(items, item)
    {
      var i := 0;
      while i < |items|
        invariant 0 <= i <= |items| && forall k :: 0 <= k < i ==> items[k].item != item
      {
        if items[i].item == item { return true; }
        i := i + 1;
      }
      return false;
    }

    /** One round of the loop in `expHeap.expire`: an item that expires first, if it expires before `now`. */
    method PopExpired(now: int) returns (x: Option<Item>)
      requires Valid()
      modifies this
      ensures Valid() && Popped(old(items), items, x, now) && (x.Some? ==> |items| == old(|items|) - 1)
    {
      if |items| == 0 { return None; }
      var exp := NextExpiry();
      if exp >= now { return None; }
      var y := Pop();
      return Some(y);
    }

    /** `expHeap.expire` with its calls recorded: exactly the items that expire before `now` go, each
        once and in order of expiry. */
    method Expire(now: int) returns (gone: seq<Item>)
      requires Valid()
      modifies this
      ensures Valid() && Swept(old(multiset(items)), now, multiset(items))
      ensures old(multiset(items)) == multiset(items) + multiset(gone)
      ensures InOrder(gone)
    {
      hide Heap, Sweeping, Swept, InOrder;
      gone := [];
      var x := PopExpired(now);
      SweepStart(old(items), items, x, now);
      while x.Some?
        invariant Valid() && Sweeping(old(multiset(items)), items, x, gone, now)
        decreases |items|, x.Some?
      {
        ghost var was, y := items, x.value;
        gone := gone + [x.value];
        x := PopExpired(now);
        SweepNext(old(multiset(items)), was, y, gone[..|gone| - 1], now, items, x);
      }
      SweepDone(old(multiset(items)), items, gone, now);
    }
  }

  /** `x` is what one more round takes from `was`, leaving `s`. */
  ghost predicate Popped(was: seq<Item>, s: seq<Item>, x: Option<Item>, now: int) {
    match x
    case None => s == was && forall y :: y in s ==> now <= y.exp
    case Some(y) => y.exp < now && multiset(was) == multiset(s) + multiset{y} && forall z :: z in s ==> y.exp <= z.exp
  }

  /** The sweep of `before` is at `s` with `x` in hand, after it let `gone` go. */
  ghost predicate Sweeping(before: multiset<Item>, s: seq<Item>, x: Option<Item>, gone: seq<Item>, now: int) {
    && InOrder(gone) && (forall y :: y in gone ==> y.exp < now)
    && match x
       case None => before == multiset(s) + multiset(gone) && forall y :: y in s ==> now <= y.exp
       case Some(z) =>
         && before == multiset(s) + multiset{z} + multiset(gone) && z.exp < now
         && (forall y :: y in s ==> z.exp <= y.exp) && (forall y :: y in gone ==> y.exp <= z.exp)
  }

  lemma SweepStart(was: seq<Item>, s: seq<Item>, x: Option<Item>, now: int)
    requires Popped(was, s, x, now)
    ensures Sweeping(multiset(was), s, x, [], now)
  {
  }

  lemma SweepNext(before: multiset<Item>, was: seq<Item>, y: Item, gone: seq<Item>, now: int,
                  s: seq<Item>, x: Option<Item>)
    requires Sweeping(before, was, Some(y), gone, now) && Popped(was, s, x, now)
    ensures Sweeping(before, s, x, gone + [y], now)
  {
    if x.Some? { Remains(was, s, x.value); }
    var all := gone + [y];
    assert forall z :: z in all ==> z in gone || z == y;
    assert multiset(all) == multiset(gone) + multiset{y};
  }

  ghost predicate InOrder(s: seq<Item>) { forall i, j :: 0 <= i < j < |s| ==> s[i].exp <= s[j].exp }

  lemma Remains(was: seq<Item>, s: seq<Item>, x: Item)
    requires multiset(was) == multiset(s) + multiset{x}
    ensures x in was && forall y :: y in s ==> y in was
  {
    assert x in multiset(was);
    forall y | y in s ensures y in was { assert y in multiset(s); assert y in multiset(was); }
  }

  lemma RiseDone(s: seq<Item>, j: nat)
    requires Rising(s, j) && j < |s| && (j == 0 || s[Parent(j)].exp <= s[j].exp)
    ensures Heap(s)
  {
  }

  lemma PopStart(s: seq<Item>)
    requires Heap(s) && s != []
    ensures var n := |s| - 1; Sinking(Swapped(s, 0, n), 0, n)
    ensures multiset(Swapped(s, 0, |s| - 1)[..|s| - 1]) + multiset{s[0]} == multiset(s)
  {
    var n := |s| - 1;
    var t := Swapped(s, 0, n);
    SwapKeeps(s, 0, n);
    assert t == t[..n] + [s[0]];
    forall k | 0 < k < n && Parent(k) != 0 ensures t[Parent(k)].exp <= t[k].exp {
      assert s[Parent(k)].exp <= s[k].exp;
    }
  }

  lemma PopEnd(was: seq<Item>, s: seq<Item>, x: Item)
    requires Heap(was) && was != [] && x == was[0] && multiset(was) == multiset(s) + multiset{x}
    ensures forall y :: y in s ==> x.exp <= y.exp
  {
    forall y | y in s ensures x.exp <= y.exp {
      assert y in multiset(s);
      assert y in multiset(was);
      var i :| 0 <= i < |was| && was[i] == y;
      RootIsLeast(was, i);
    }
  }

  lemma SweepDone(before: multiset<Item>, s: seq<Item>, gone: seq<Item>, now: int)
    requires Sweeping(before, s, None, gone, now)
    ensures Swept(before, now, multiset(s)) && before == multiset(s) + multiset(gone) && InOrder(gone)
  {
    forall x ensures multiset(s)[x] == if x.exp < now then 0 else before[x] {
      if x.exp < now {
        assert x !in s;
      } else {
        assert x !in gone;
      }
    }
  }
}
