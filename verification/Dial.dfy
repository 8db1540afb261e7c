/** The dial scheduler (p2p/dial.go): the loop goroutine's fields and what it does for each message
    it selects. Times are unbounded integers in nanoseconds. */
module Dial {
  import opened Basics
  import opened ExpiryHeap

  /** A node ID, also the key under which the history remembers it. */
  type ID = Key

  /** A dial candidate; a static node may still lack an address. */
  datatype Node = Node(id: ID, ip: Option<nat>, tcp: nat)

  datatype Error = IsSelf | NoPort | AlreadyDialing | AlreadyConnected | NotWhitelisted | RecentlyDialed

  /** inboundThrottleTime plus five seconds. */
  const DIAL_HISTORY_EXPIRATION: int := 35_000_000_000

  /** A dial launched at `at`, with the dial tasks then active and the peers then connected. */
  datatype Launch = Launch(to: Node, at: int, active: set<ID>, connected: set<ID>)

  class DialTask {
    const id: ID
    const isStatic: bool
    var ip: Option<nat>
    var tcp: nat
    var staticPoolIndex: int

    /** `newDialTask`. */
    constructor (n: Node, isStatic: bool)
      ensures id == n.id && ip == n.ip && tcp == n.tcp && this.isStatic == isStatic && staticPoolIndex == -1
    {
      id, ip, tcp := n.id, n.ip, n.tcp;
      this.isStatic := isStatic;
      staticPoolIndex := -1;
    }

    function Dest(): Node reads this`ip, this`tcp { Node(id, ip, tcp) }
  }

  // ------------------------------------------------------------------- the verdict on a candidate

  /** What `checkDial` looks at. */
  datatype View = View(
    self: ID, restrict: Option<set<nat>>, dialing: set<ID>, peers: set<ID>, history: seq<Item>)

  ghost function Verdict(v: View, n: Node): Option<Error> {
    if n.id == v.self then Some(IsSelf)
    else if n.ip.Some? && n.tcp == 0 then Some(NoPort)
    else if n.id in v.dialing then Some(AlreadyDialing)
    else if n.id in v.peers then Some(AlreadyConnected)
    else if v.restrict.Some? && !(n.ip.Some? && n.ip.value in v.restrict.value) then Some(NotWhitelisted)
    else if HasKey(v.history, n.id) then Some(RecentlyDialed)
    else None
  }

  /** The two views differ at most in what they say about one node. */
  ghost predicate AgreeBut(v: View, w: View, id: ID) {
    && v.self == w.self && v.restrict == w.restrict
    && (forall k :: k != id ==> (k in v.dialing <==> k in w.dialing))
    && (forall k :: k != id ==> (k in v.peers <==> k in w.peers))
    && (forall k :: k != id ==> (HasKey(v.history, k) <==> HasKey(w.history, k)))
  }

  lemma KeyAdded(s: seq<Item>, t: seq<Item>, x: Item)
    requires multiset(t) == multiset(s) + multiset{x}
    ensures HasKey(t, x.item)
    ensures forall k :: k != x.item ==> (HasKey(s, k) <==> HasKey(t, k))
    ensures forall y :: y in t <==> y in s || y == x
  {
    forall y ensures y in t <==> y in s || y == x {
      assert y in t <==> y in multiset(t);
      assert y in s <==> y in multiset(s);
    }
    KeyOf(t, x);
    forall k | k != x.item ensures HasKey(s, k) <==> HasKey(t, k) {
      if HasKey(s, k) { var i :| 0 <= i < |s| && s[i].item == k; KeyOf(t, s[i]); }
      if HasKey(t, k) { var i :| 0 <= i < |t| && t[i].item == k; KeyOf(s, t[i]); }
    }
  }

  lemma KeyOf(s: seq<Item>, x: Item)
    requires x in s
    ensures HasKey(s, x.item)
  {
    var i :| 0 <= i < |s| && s[i] == x;
  }

  lemma KeyAmong(s: seq<Item>, k: ID)
    ensures HasKey(s, k) <==> exists x | x in s :: x.item == k
  {
    if HasKey(s, k) {
      var i :| 0 <= i < |s| && s[i].item == k;
      assert s[i] in s;
    }
    if x :| x in s && x.item == k { KeyOf(s, x); }
  }

  // ------------------------------------------------------------------- the record of launches

  /** Launches of one node are more than the history's memory apart. */
  ghost predicate Spaced(log: seq<Launch>) {
    forall i, j :: 0 <= i < j < |log| && log[i].to.id == log[j].to.id ==>
      log[i].at + DIAL_HISTORY_EXPIRATION < log[j].at
  }

  /** No launch was for ourselves, for a node being dialed or for a connected peer, none was for an address
      without a port, and with a whitelist none was for an address outside it. */
  ghost predicate Sensible(log: seq<Launch>, self: ID, restrict: Option<set<nat>>) {
    forall l :: l in log ==>
      && l.to.id != self && l.to.id !in l.active && l.to.id !in l.connected
      && (l.to.ip.Some? ==> l.to.tcp != 0)
      && (restrict.Some? ==> l.to.ip.Some? && l.to.ip.value in restrict.value)
  }

  /** Every launch is in the past, and in the history unless its time there is over. */
  ghost predicate Remembered(log: seq<Launch>, history: seq<Item>, clock: int) {
    forall l :: l in log ==>
      && l.at <= clock
      && (Item(l.to.id, l.at + DIAL_HISTORY_EXPIRATION) in history || l.at + DIAL_HISTORY_EXPIRATION < clock)
  }

  /** A launch that the verdict allows keeps the record in order. */
  lemma LaunchAllowed(log: seq<Launch>, v: View, clock: int, n: Node, now: int, after: seq<Item>)
    requires Spaced(log) && Sensible(log, v.self, v.restrict) && Remembered(log, v.history, clock) && clock <= now
    requires Verdict(v, n) == None
    requires multiset(after) == multiset(v.history) + multiset{Item(n.id, now + DIAL_HISTORY_EXPIRATION)}
    ensures var all := log + [Launch(n, now, v.dialing, v.peers)];
            Spaced(all) && Sensible(all, v.self, v.restrict) && Remembered(all, after, now)
  {
    var x := Item(n.id, now + DIAL_HISTORY_EXPIRATION);
    KeyAdded(v.history, after, x);
    var all := log + [Launch(n, now, v.dialing, v.peers)];
    forall l | l in log && l.to.id == n.id ensures l.at + DIAL_HISTORY_EXPIRATION < now {
      var y := Item(l.to.id, l.at + DIAL_HISTORY_EXPIRATION);
      if y in v.history { KeyOf(v.history, y); }
    }
    forall i, j | 0 <= i < j < |all| && all[i].to.id == all[j].to.id
      ensures all[i].at + DIAL_HISTORY_EXPIRATION < all[j].at
    {
      if j == |log| { assert log[i] in log; } else { assert log[i].to.id == log[j].to.id; }
    }
  }

  lemma MayDial(v: View, n: Node)
    requires Verdict(v, n) == None
    ensures n.id != v.self && n.id !in v.dialing && n.id !in v.peers && !HasKey(v.history, n.id)
  {
  }

  lemma LaunchSeen(v: View, h: seq<Item>, x: Item)
    requires multiset(h) == multiset(v.history) + multiset{x}
    ensures AgreeBut(v, v.(dialing := v.dialing + {x.item}, history := h), x.item)
  {
    KeyAdded(v.history, h, x);
  }

  /** Forgetting an item whose time is over keeps the record. */
  lemma Forgotten(log: seq<Launch>, before: seq<Item>, after: seq<Item>, x: Item, clock: int)
    requires Remembered(log, before, clock) && multiset(before) == multiset(after) + multiset{x} && x.exp < clock
    ensures Remembered(log, after, clock)
  {
    KeyAdded(after, before, x);
  }

  // ------------------------------------------------------------------- the books on static tasks

  /** The static tasks and the pool, with every task's pool index and destination. */
  datatype Books = Books(
    pool: seq<DialTask>, statics: map<ID, DialTask>, index: map<DialTask, int>, dest: map<DialTask, Node>)

  /** A task's pool index is its place in the pool, and -1 outside the pool. */
  ghost predicate Indexed(b: Books) {
    && (forall i :: 0 <= i < |b.pool| ==> b.pool[i] in b.index && b.index[b.pool[i]] == i)
    && (forall t :: t in b.index ==>
          b.index[t] == -1 || (0 <= b.index[t] < |b.pool| && b.pool[b.index[t]] == t))
  }

  /** The static tasks are filed under their IDs, and the pool holds only static tasks. */
  ghost predicate Filed(b: Books) {
    && b.index.Keys == b.dest.Keys
    && (forall t :: t in b.dest ==> b.dest[t].id == t.id)
    && (forall id :: id in b.statics ==> b.statics[id] in b.dest && b.statics[id].id == id)
    && (forall t :: t in b.pool ==> t.id in b.statics && b.statics[t.id] == t)
  }

  /** The static task for this node is in the pool exactly when the node may be dialed. */
  ghost predicate Pooled(v: View, b: Books, id: ID)
    requires Filed(b) && id in b.statics
  {
    b.index[b.statics[id]] >= 0 <==> Verdict(v, b.dest[b.statics[id]]) == None
  }

  ghost predicate PooledBut(v: View, b: Books, id: ID)
    requires Filed(b)
  {
    forall k :: k in b.statics && k != id ==> Pooled(v, b, k)
  }

  /** No static node that may be dialed is forgotten. */
  ghost predicate AllPooled(v: View, b: Books)
    requires Filed(b)
  {
    forall k :: k in b.statics ==> Pooled(v, b, k)
  }

  lemma AllButOne(v: View, b: Books, id: ID)
    requires Filed(b)
    ensures AllPooled(v, b) <==> PooledBut(v, b, id) && (id in b.statics ==> Pooled(v, b, id))
  {
    hide Pooled;
  }

  /** What happens to one node leaves the verdict on the others as it was. */
  lemma OthersPooled(v: View, b: Books, w: View, c: Books, id: ID)
    requires Filed(b) && Filed(c) && PooledBut(v, b, id) && AgreeBut(v, w, id)
    requires forall k :: k in c.statics && k != id ==> k in b.statics && c.statics[k] == b.statics[k]
    requires forall t :: t in c.index && t.id != id ==> t in b.index && c.dest[t] == b.dest[t]
    requires forall t :: t in c.index && t.id != id ==> (c.index[t] >= 0 <==> b.index[t] >= 0)
    ensures PooledBut(w, c, id)
  {
    forall k | k in c.statics && k != id ensures Pooled(w, c, k) {
      assert Pooled(v, b, k);
      SameVerdict(v, w, id, c.dest[c.statics[k]]);
    }
  }

  lemma SameVerdict(v: View, w: View, id: ID, n: Node)
    requires AgreeBut(v, w, id) && n.id != id
    ensures Verdict(v, n) == Verdict(w, n)
  {
  }

  /** Putting a task at the end of the pool. */
  ghost function Added(b: Books, task: DialTask): Books {
    b.(pool := b.pool + [task], index := b.index[task := |b.pool|])
  }

  lemma AddedFits(b: Books, task: DialTask)
    requires Indexed(b) && Filed(b) && task in b.index && b.index[task] == -1
    requires task.id in b.statics && b.statics[task.id] == task
    ensures Indexed(Added(b, task)) && Filed(Added(b, task))
  {
  }

  /** The pool without position i: its last element takes the place. */
  function Without<T>(s: seq<T>, i: nat): (r: seq<T>)
    requires i < |s|
    ensures |r| == |s| - 1
  {
    s[i := s[|s| - 1]][..|s| - 1]
  }

  ghost function Removed(b: Books, i: nat): (c: Books)
    requires i < |b.pool|
    ensures |c.pool| == |b.pool| - 1
  {
    b.(pool := Without(b.pool, i), index := b.index[b.pool[|b.pool| - 1] := i][b.pool[i] := -1])
  }

  lemma RemovedFits(b: Books, i: nat)
    requires Indexed(b) && i < |b.pool|
    ensures Indexed(Removed(b, i)) && Removed(b, i).index[b.pool[i]] == -1
    ensures forall t :: t in b.index && t != b.pool[i] ==> (Removed(b, i).index[t] >= 0 <==> b.index[t] >= 0)
    ensures Removed(b, i).index.Keys == b.index.Keys
    ensures forall t :: t in Without(b.pool, i) ==> t in b.pool && t != b.pool[i]
  {
    var c := Removed(b, i);
    forall k | 0 <= k < |c.pool| ensures c.pool[k] in c.index && c.index[c.pool[k]] == k && c.pool[k] != b.pool[i] {
      assert b.index[b.pool[k]] == k && b.index[b.pool[|b.pool| - 1]] == |b.pool| - 1 && b.index[b.pool[i]] == i;
    }
    forall t | t in c.index ensures c.index[t] == -1 || (0 <= c.index[t] < |c.pool| && c.pool[c.index[t]] == t) {
      if t != b.pool[i] && t != b.pool[|b.pool| - 1] { assert c.index[t] == b.index[t]; }
    }
  }

  // ------------------------------------------------------------------- the active tasks

  /** The running tasks are exactly the values of `dialing`, one for each ID. */
  ghost predicate Active(dialing: map<ID, DialTask>, running: set<DialTask>, tasks: set<DialTask>) {
    && (forall id :: id in dialing ==> dialing[id] in running && dialing[id].id == id)
    && (forall t :: t in running ==> t in tasks && t.id in dialing && dialing[t.id] == t)
  }

  lemma ActiveAdd(dialing: map<ID, DialTask>, running: set<DialTask>, tasks: set<DialTask>, task: DialTask)
    requires Active(dialing, running, tasks) && task in tasks && task.id !in dialing
    ensures Active(dialing[task.id := task], running + {task}, tasks)
  {
  }

  lemma ActiveMore(dialing: map<ID, DialTask>, running: set<DialTask>, tasks: set<DialTask>, task: DialTask)
    requires Active(dialing, running, tasks)
    ensures Active(dialing, running, tasks + {task})
  {
  }

  lemma ActiveDrop(dialing: map<ID, DialTask>, running: set<DialTask>, tasks: set<DialTask>, task: DialTask)
    requires Active(dialing, running, tasks) && task in running
    ensures task in tasks && task.id in dialing && Active(dialing - {task.id}, running - {task}, tasks)
  {
  }

  // ------------------------------------------------------------------- the scheduler

  /** What the loop can select; `Finished` carries the endpoint that was last resolved. */
  datatype Event =
    | Found(node: Node)
    | Finished(id: ID, ip: Option<nat>, tcp: nat)
    | PeerAdded(id: ID, dialed: bool)
    | PeerRemoved(id: ID, dialed: bool)
    | AddStatic(node: Node)
    | RemoveStatic(id: ID)
    | HistoryTimer

  // What the messages say about peers and static nodes, whatever is dialed meanwhile.

  function WithPeer(peers: map<ID, bool>, e: Event): map<ID, bool> {
    match e
    case PeerAdded(id, dialed) => peers[id := dialed]
    case PeerRemoved(id, _) => peers - {id}
    case _ => peers
  }

  function Counted(n: int, e: Event): int {
    match e
    case PeerAdded(_, dialed) => n + Ones(dialed)
    case PeerRemoved(_, dialed) => n - Ones(dialed)
    case _ => n
  }

  function WithStatic(ids: set<ID>, e: Event): set<ID> {
    match e
    case AddStatic(node) => ids + {node.id}
    case RemoveStatic(id) => ids - {id}
    case _ => ids
  }

  function PeersAfter(peers: map<ID, bool>, es: seq<Event>): map<ID, bool> {
    if es == [] then peers else WithPeer(PeersAfter(peers, es[..|es| - 1]), es[|es| - 1])
  }

  function CountAfter(n: int, es: seq<Event>): int {
    if es == [] then n else Counted(CountAfter(n, es[..|es| - 1]), es[|es| - 1])
  }

  function StaticsAfter(ids: set<ID>, es: seq<Event>): set<ID> {
    if es == [] then ids else WithStatic(StaticsAfter(ids, es[..|es| - 1]), es[|es| - 1])
  }

  lemma AfterNext(peers: map<ID, bool>, n: int, ids: set<ID>, es: seq<Event>, i: nat)
    requires i < |es|
    ensures PeersAfter(peers, es[..i + 1]) == WithPeer(PeersAfter(peers, es[..i]), es[i])
    ensures CountAfter(n, es[..i + 1]) == Counted(CountAfter(n, es[..i]), es[i])
    ensures StaticsAfter(ids, es[..i + 1]) == WithStatic(StaticsAfter(ids, es[..i]), es[i])
  {
    assert es[..i + 1][..i] == es[..i];
  }

  ghost function Ids(ts: seq<DialTask>): set<ID> { set t | t in ts :: t.id }

  ghost function Places(ts: set<DialTask>): map<DialTask, int> reads ts`staticPoolIndex {
    map t | t in ts :: t.staticPoolIndex
  }

  ghost function Dests(ts: set<DialTask>): map<DialTask, Node> reads ts`ip, ts`tcp {
    map t | t in ts :: t.Dest()
  }

  lemma More(ts: set<DialTask>, t: DialTask)
    ensures Places(ts + {t}) == Places(ts)[t := t.staticPoolIndex] && Dests(ts + {t}) == Dests(ts)[t := t.Dest()]
  {
  }

  class DialScheduler {
    const self: ID
    const restrict: Option<set<nat>>
    const maxDialPeers: int
    const maxActiveDials: int
    const history: ExpHeap
    var clock: int
    var dialing: map<ID, DialTask>
    var peers: map<ID, bool>
    var dialPeers: int
    var statics: map<ID, DialTask>
    var staticPool: seq<DialTask>
    /** All tasks made so far, those whose goroutine is running, and the launches. */
    ghost var tasks: set<DialTask>
    ghost var running: set<DialTask>
    ghost var log: seq<Launch>

    ghost function Sees(): View reads this, history { View(self, restrict, dialing.Keys, peers.Keys, history.items) }

    ghost function Ledger(): Books reads this, tasks {
      Books(staticPool, statics, Places(tasks), Dests(tasks))
    }

    ghost predicate Recorded() reads this, history {
      Spaced(log) && Sensible(log, self, restrict) && Remembered(log, history.items, clock)
    }

    /** All but the agreement of pool and verdicts. */
    ghost predicate Sound() reads this, history, tasks {
      history.Valid() && Indexed(Ledger()) && Filed(Ledger()) && Active(dialing, running, tasks) && Recorded()
    }

    ghost predicate Valid() reads this, history, tasks { Sound() && AllPooled(Sees(), Ledger()) }

    constructor (self: ID, restrict: Option<set<nat>>, maxDialPeers: int, maxActiveDials: int)
      ensures Valid() && fresh(history) && tasks == {} && log == [] && staticPool == [] && dialPeers == 0
    {
      this.self, this.restrict := self, restrict;
      this.maxDialPeers, this.maxActiveDials := maxDialPeers, maxActiveDials;
      history := new ExpHeap();
      clock, dialPeers := 0, 0;
      dialing, peers, statics, staticPool := map[], map[], map[], [];
      tasks, running, log := {}, {}, [];
    }

    /** `mclock.Now`: any later time. */
    method Now() returns (now: int)
      modifies this`clock
      ensures now == clock >= old(clock)
    {
      now :| now >= clock;
      clock := now;
    }

    /** `freeDialSlots`. */
    function FreeDialSlots(): int reads this {
      var slots := (maxDialPeers - dialPeers) * 2;
      (if slots > maxActiveDials then maxActiveDials else slots) - |dialing|
    }

    /** `checkDial`: the first reason against dialing the node. */
    method CheckDial(n: Node) returns (e: Option<Error>)
      ensures e == Verdict(Sees(), n)
      ensures e == None <==>
                && n.id != self && (n.ip.Some? ==> n.tcp != 0) && n.id !in dialing && n.id !in peers
                && (restrict.Some? ==> n.ip.Some? && n.ip.value in restrict.value)
                && forall x | x in history.items :: x.item != n.id
      ensures e == Some(IsSelf) <==> n.id == self
      ensures e == Some(NoPort) <==> n.id != self && n.ip.Some? && n.tcp == 0
      ensures e == Some(AlreadyDialing) ==> n.id in dialing
      ensures e == Some(AlreadyConnected) ==> n.id in peers && n.id !in dialing
      ensures e == Some(NotWhitelisted) ==>
                && n.id !in dialing && n.id !in peers
                && restrict.Some? && (n.ip == None || n.ip.value !in restrict.value)
      ensures e == Some(RecentlyDialed) ==>
                && n.id !in dialing && n.id !in peers
                && (restrict.Some? ==> n.ip.Some? && n.ip.value in restrict.value)
                && exists x | x in history.items :: x.item == n.id
    {
      KeyAmong(history.items, n.id);
      if n.id == self { return Some(IsSelf); }
      if n.ip.Some? && n.tcp == 0 { return Some(NoPort); }
      if n.id in dialing { return Some(AlreadyDialing); }
      if n.id in peers { return Some(AlreadyConnected); }
      if restrict.Some? && !(n.ip.Some? && n.ip.value in restrict.value) { return Some(NotWhitelisted); }
      var recent := history.Contains(n.id);
      if recent { return Some(RecentlyDialed); }
      return None;
    }

    /** The assignment to a task's index, as the books see it. */
    method SetIndex(task: DialTask, i: int)
      requires task in tasks
      modifies task`staticPoolIndex
      ensures Places(tasks) == old(Places(tasks))[task := i] && task.staticPoolIndex == i
    {
      task.staticPoolIndex := i;
    }

    /** `addToStaticPool`; the precondition is what its panic guards. */
    method AddToStaticPool(task: DialTask)
      requires task in tasks && task.staticPoolIndex == -1
      modifies this`staticPool, task`staticPoolIndex
      ensures Ledger() == Added(old(Ledger()), task)
    {
      hide Places, Dests;
      staticPool := staticPool + [task];
      SetIndex(task, |staticPool| - 1);
    }

    /** `removeFromStaticPool`. */
    method RemoveFromStaticPool(idx: nat)
      requires idx < |staticPool| && forall t :: t in staticPool ==> t in tasks
      modifies this`staticPool, tasks`staticPoolIndex
      ensures Ledger() == Removed(old(Ledger()), idx) && staticPool == Without(old(staticPool), idx)
    {
      hide Places, Dests;
      var task := staticPool[idx];
      var end := |staticPool| - 1;
      assert task in staticPool && staticPool[end] in staticPool;
      staticPool := staticPool[idx := staticPool[end]];
      SetIndex(staticPool[idx], idx);
      staticPool := staticPool[..end];
      SetIndex(task, -1);
    }

    /** `startDial`: only for a node that may be dialed. */
    method StartDial(task: DialTask)
      requires history.Valid() && Active(dialing, running, tasks) && Recorded()
      requires task in tasks && Verdict(Sees(), task.Dest()) == None
      modifies this`clock, this`dialing, this`running, this`log, history
      ensures history.Valid() && Active(dialing, running, tasks) && Recorded()
      ensures dialing == old(dialing)[task.id := task] && running == old(running) + {task}
      ensures log == old(log) + [Launch(task.Dest(), clock, old(dialing.Keys), peers.Keys)]
      ensures AgreeBut(old(Sees()), Sees(), task.id)
    {
      hide Spaced, Sensible, Remembered, Active, HasKey, Heap, AgreeBut, Verdict;
      ghost var v := Sees();
      MayDial(v, task.Dest());
      var now := Now();
      history.Add(task.id, now + DIAL_HISTORY_EXPIRATION);
      LaunchAllowed(log, v, old(clock), task.Dest(), now, history.items);
      LaunchSeen(v, history.items, Item(task.id, now + DIAL_HISTORY_EXPIRATION));
      ActiveAdd(dialing, running, tasks, task);
      log := log + [Launch(task.Dest(), now, dialing.Keys, peers.Keys)];
      dialing := dialing[task.id := task];
      running := running + {task};
      assert dialing.Keys == v.dialing + {task.id};
    }

    /** One round of `startStaticDials`, with the random choice made. */
    method LaunchStatic(idx: nat)
      requires Valid() && idx < |staticPool|
      modifies this`clock, this`dialing, this`running, this`log, this`staticPool, history, tasks`staticPoolIndex
      ensures Valid() && staticPool == Without(old(staticPool), idx)
      ensures log == old(log) + [Launch(old(staticPool[idx].Dest()), clock, old(dialing.Keys), peers.Keys)]
      ensures dialing == old(dialing)[old(staticPool[idx].id) := old(staticPool[idx])]
    {
      hide Spaced, Sensible, Remembered, Active, HasKey, Heap, Indexed, Filed, AllPooled, Verdict, AgreeBut, Removed,
        Places, Dests;
      ghost var v, b := Sees(), Ledger();
      var task := staticPool[idx];
      InPool(v, b, idx);
      BookKeys(task);
      StartDial(task);
      assert Ledger() == b;
      Dialing(Sees(), task.Dest());
      Withdraw(idx, v);
    }

    /** A task leaves the pool because its node may no longer be dialed; `v` is what was seen before. */
    method Withdraw(idx: nat, ghost v: View)
      requires Sound() && idx < |staticPool| && AllPooled(v, Ledger()) && AgreeBut(v, Sees(), staticPool[idx].id)
      requires staticPool[idx] in tasks && Verdict(Sees(), staticPool[idx].Dest()) != None
      modifies this`staticPool, tasks`staticPoolIndex
      ensures Valid() && staticPool == Without(old(staticPool), idx)
    {
      hide Spaced, Sensible, Remembered, Active, HasKey, Heap, Indexed, Filed, AllPooled, Verdict, AgreeBut, Removed,
        Places, Dests;
      ghost var b := Ledger();
      InPool(v, b, idx);
      BookKeys(staticPool[idx]);
      Unpooled(v, b, Sees(), idx);
      RemoveFromStaticPool(idx);
    }

    /** The books cover every dial task made so far. */
    lemma BookKeys(task: DialTask)
      ensures Ledger().index.Keys == tasks && Ledger().dest.Keys == tasks
      ensures task in tasks ==> Ledger().dest[task] == task.Dest()
    {
    }

    /** `startStaticDials`: afterwards the pool is empty and no static node may be dialed. */
    method StartStaticDials()
      requires Valid()
      modifies this`clock, this`dialing, this`running, this`log, this`staticPool, history, tasks`staticPoolIndex
      ensures Valid() && staticPool == [] && old(log) <= log
      ensures forall id :: id in statics ==> statics[id] in tasks && Verdict(Sees(), statics[id].Dest()) != None
      ensures dialing.Keys == old(dialing.Keys) + Ids(old(staticPool)) && |log| == old(|log| + |staticPool|)
      ensures forall k | old(|log|) <= k < |log| :: log[k].to.id in statics
    {
      hide Spaced, Sensible, Remembered, Active, HasKey, Heap, Indexed, Filed, AllPooled, Verdict, Places, Dests, Ids;
      while |staticPool| > 0
        invariant Valid() && old(log) <= log && |log| + |staticPool| == old(|log| + |staticPool|)
        invariant dialing.Keys + Ids(staticPool) == old(dialing.Keys) + Ids(old(staticPool))
        invariant forall k | old(|log|) <= k < |log| :: log[k].to.id in statics
        decreases |staticPool|
      {
        var idx :| 0 <= idx < |staticPool|;
        PooledIsStatic(idx);
        IdsWithout(staticPool, idx);
        LaunchStatic(idx);
      }
      NoIds();
      NothingPooled();
    }

    lemma PooledIsStatic(idx: nat)
      requires Valid() && idx < |staticPool|
      ensures staticPool[idx].id in statics
    {
      assert staticPool[idx] in staticPool;
    }

    lemma NothingPooled()
      requires Valid() && staticPool == []
      ensures forall id :: id in statics ==> statics[id] in tasks && Verdict(Sees(), statics[id].Dest()) != None
    {
      hide Spaced, Sensible, Remembered, Active, HasKey, Heap, Verdict;
      forall id | id in statics ensures statics[id] in tasks && Verdict(Sees(), statics[id].Dest()) != None {
        assert Pooled(Sees(), Ledger(), id);
      }
    }

    /** `updateStaticPool`: afterwards this node's task, too, is in the pool iff it may be dialed. */
    method UpdateStaticPool(id: ID)
      requires Sound() && PooledBut(Sees(), Ledger(), id) && (id in statics ==> Ready(Sees(), Ledger(), id))
      modifies this`staticPool, tasks`staticPoolIndex
      ensures Valid()
    {
      hide Spaced, Sensible, Remembered, Active, HasKey, Heap, Indexed, Filed, AllPooled, PooledBut, Verdict,
        Ready, AgreeBut, Added, Removed, Places, Dests;
      AllButOne(Sees(), Ledger(), id);
      if id in statics {
        OnBooks(id);
        Settled(Sees(), Ledger(), id);
        if statics[id].staticPoolIndex < 0 {
          Consider(statics[id]);
        }
      }
    }

    /** A static task outside the pool goes in if it may be dialed. */
    method Consider(task: DialTask)
      requires Sound() && task.id in statics && statics[task.id] == task && task.staticPoolIndex < 0
      requires PooledBut(Sees(), Ledger(), task.id)
      modifies this`staticPool, tasks`staticPoolIndex
      ensures Valid()
    {
      hide Spaced, Sensible, Remembered, Active, HasKey, Heap, Indexed, Filed, AllPooled, PooledBut, Verdict,
        AgreeBut, Added, Removed, Places, Dests;
      OnBooks(task.id);
      Settled(Sees(), Ledger(), task.id);
      var e := CheckDial(task.Dest());
      if e == None {
        AddToStaticPool(task);
      }
    }

    /** What the books say of a static task is what its fields say. */
    lemma OnBooks(id: ID)
      requires Indexed(Ledger()) && Filed(Ledger()) && id in statics
      ensures var b, task := Ledger(), statics[id];
              && task in tasks && task.id == id && task in b.index && task in b.dest
              && b.index[task] == task.staticPoolIndex >= -1 && b.dest[task] == task.Dest()
              && (task.staticPoolIndex >= 0 ==>
                    task.staticPoolIndex < |staticPool| && staticPool[task.staticPoolIndex] == task)
      ensures forall t :: t in staticPool ==> t in tasks
    {
    }

    // ----------------------------------------------------------------- what the loop selects

    /** Making a task: nothing is filed or pooled yet. */
    method NewTask(n: Node, isStatic: bool) returns (task: DialTask)
      requires Active(dialing, running, tasks)
      modifies this`tasks
      ensures fresh(task) && tasks == old(tasks) + {task} && task.Dest() == n && task.isStatic == isStatic
      ensures Ledger() == Enrolled(old(Ledger()), task, n) && task !in old(Ledger()).index
      ensures Active(dialing, running, tasks) && task.staticPoolIndex == -1
    {
      hide Active, Places, Dests;
      task := new DialTask(n, isStatic);
      BookKeys(task);
      More(tasks, task);
      ActiveMore(dialing, running, tasks, task);
      tasks := tasks + {task};
    }

    /** A candidate from discovery; the pool has been emptied before. */
    method OnFound(node: Node)
      requires Valid() && staticPool == []
      modifies this`clock, this`dialing, this`running, this`log, this`tasks, history
      ensures Valid() && fresh(tasks - old(tasks)) && old(tasks) <= tasks && old(log) <= log
      ensures var ok := old(Verdict(Sees(), node)) == None;
              && log == old(log) + (if ok then [Launch(node, clock, old(dialing.Keys), peers.Keys)] else [])
              && dialing.Keys == old(dialing.Keys) + (if ok then {node.id} else {})
              && (ok || history.items == old(history.items))
    {
      hide Spaced, Sensible, Remembered, Active, HasKey, Heap, Indexed, Filed, AllPooled, PooledBut, Verdict,
        Ready, AgreeBut, Added, Removed, Places, Dests;
      ghost var v, b := Sees(), Ledger();
      var e := CheckDial(node);
      if e == None {
        var task := NewTask(node, false);
        LaunchFound(task, v, b);
      }
    }

    /** The new task is launched; `b` are the books from before it was made. */
    method LaunchFound(task: DialTask, ghost v: View, ghost b: Books)
      requires history.Valid() && Active(dialing, running, tasks) && Recorded()
      requires task in tasks && v == Sees() && Verdict(v, task.Dest()) == None
      requires Indexed(b) && Filed(b) && AllPooled(v, b) && b.pool == [] && task !in b.index
      requires Ledger() == Enrolled(b, task, task.Dest())
      modifies this`clock, this`dialing, this`running, this`log, history
      ensures Valid() && dialing.Keys == old(dialing.Keys) + {task.id}
      ensures log == old(log) + [Launch(task.Dest(), clock, old(dialing.Keys), peers.Keys)]
    {
      hide Spaced, Sensible, Remembered, Active, HasKey, Heap, Indexed, Filed, AllPooled, PooledBut, Verdict,
        AgreeBut, Enrolled, Places, Dests;
      StartDial(task);
      FoundFits(v, b, Sees(), task, task.Dest());
    }

    /** A task's goroutine has finished; a static task may have resolved a new endpoint meanwhile. */
    method OnFinished(task: DialTask, ip: Option<nat>, tcp: nat)
      requires Valid() && task in running
      modifies this`dialing, this`running, this`staticPool, tasks`ip, tasks`tcp, tasks`staticPoolIndex
      ensures Valid() && dialing == old(dialing) - {task.id} && running == old(running) - {task}
      ensures task.Dest() == if task.isStatic then Node(task.id, ip, tcp) else old(task.Dest())
    {
      hide Spaced, Sensible, Remembered, Active, HasKey, Heap, Indexed, Filed, AllPooled, PooledBut, Verdict,
        Ready, AgreeBut, Added, Removed, Places, Dests;
      Retire(task, ip, tcp);
      UpdateStaticPool(task.id);
    }

    method Retire(task: DialTask, ip: Option<nat>, tcp: nat)
      requires Valid() && task in running
      modifies this`dialing, this`running, tasks`ip, tasks`tcp
      ensures Sound() && dialing == old(dialing) - {task.id} && running == old(running) - {task}
      ensures task.Dest() == if task.isStatic then Node(task.id, ip, tcp) else old(task.Dest())
      ensures PooledBut(Sees(), Ledger(), task.id) && (task.id in statics ==> Ready(Sees(), Ledger(), task.id))
    {
      hide Spaced, Sensible, Remembered, Active, HasKey, Heap, Indexed, Filed, AllPooled, PooledBut, Verdict,
        Ready, AgreeBut, Added, Removed, Places, Dests;
      ActiveDrop(dialing, running, tasks, task);
      ghost var v, b := Sees(), Ledger();
      ghost var n := Resolve(task, ip, tcp);
      dialing := dialing - {task.id};
      running := running - {task};
      FinishedFits(v, b, Sees(), Ledger(), task, n);
    }

    /** What `resolve` does to the destination of a static task. */
    method Resolve(task: DialTask, ip: Option<nat>, tcp: nat) returns (ghost n: Node)
      requires task in tasks
      modifies task`ip, task`tcp
      ensures n.id == task.id && task in old(Dests(tasks)) && Dests(tasks) == old(Dests(tasks))[task := n]
      ensures task.Dest() == n == if task.isStatic then Node(task.id, ip, tcp) else old(task.Dest())
    {
      if task.isStatic { task.ip, task.tcp := ip, tcp; }
      n := task.Dest();
    }

    method OnPeerAdded(id: ID, dialed: bool)
      requires Valid()
      modifies this`dialPeers, this`peers, this`staticPool, tasks`staticPoolIndex
      ensures Valid() && peers == old(peers)[id := dialed] && dialPeers == old(dialPeers) + Ones(dialed)
    {
      hide Spaced, Sensible, Remembered, Active, HasKey, Heap, Indexed, Filed, AllPooled, PooledBut, Verdict,
        Ready, AgreeBut, Added, Removed, Places, Dests;
      ghost var v, b := Sees(), Ledger();
      if dialed { dialPeers := dialPeers + 1; }
      peers := peers[id := dialed];
      ConnectedFits(v, b, Sees(), id);
      Unlist(id);
    }

    /** The node's task, if it has one in the pool, leaves it. */
    method Unlist(id: ID)
      requires Indexed(Ledger()) && Filed(Ledger())
      modifies this`staticPool, tasks`staticPoolIndex
      ensures Ledger() == Unlisted(old(Ledger()), id)
    {
      hide Indexed, Filed, Removed, Places, Dests;
      if id in statics {
        OnBooks(id);
        if statics[id].staticPoolIndex >= 0 {
          RemoveFromStaticPool(statics[id].staticPoolIndex);
        }
      }
    }

    method OnPeerRemoved(id: ID, dialed: bool)
      requires Valid()
      modifies this`dialPeers, this`peers, this`staticPool, tasks`staticPoolIndex
      ensures Valid() && peers == old(peers) - {id} && dialPeers == old(dialPeers) - Ones(dialed)
    {
      hide Spaced, Sensible, Remembered, Active, HasKey, Heap, Indexed, Filed, AllPooled, PooledBut, Verdict,
        Ready, AgreeBut, Added, Removed, Places, Dests;
      ghost var v, b := Sees(), Ledger();
      if dialed { dialPeers := dialPeers - 1; }
      peers := peers - {id};
      LoosenedFits(v, b, Sees(), id);
      UpdateStaticPool(id);
    }

    method OnAddStatic(node: Node)
      requires Valid()
      modifies this`statics, this`staticPool, this`tasks, tasks`staticPoolIndex
      ensures Valid() && fresh(tasks - old(tasks)) && old(tasks) <= tasks
      ensures statics.Keys == old(statics.Keys) + {node.id}
      ensures forall id | id in old(statics) :: statics[id] == old(statics)[id]
      ensures node.id !in old(statics) ==> statics[node.id].Dest() == node && statics[node.id].isStatic
    {
      hide Spaced, Sensible, Remembered, Active, HasKey, Heap, Indexed, Filed, AllPooled, PooledBut, Verdict,
        Ready, AgreeBut, Added, Removed, Places, Dests;
      if node.id in statics { return; }
      var task := FileStatic(node);
      Consider(task);
    }

    method FileStatic(node: Node) returns (task: DialTask)
      requires Valid() && node.id !in statics
      modifies this`statics, this`tasks
      ensures fresh(task) && tasks == old(tasks) + {task} && statics == old(statics)[node.id := task]
      ensures task.Dest() == node && task.staticPoolIndex == -1 && task.isStatic
      ensures Sound() && PooledBut(Sees(), Ledger(), node.id)
    {
      hide Spaced, Sensible, Remembered, Active, HasKey, Heap, Indexed, Filed, AllPooled, PooledBut, Verdict,
        Ready, AgreeBut, Added, Removed, Places, Dests;
      ghost var b := Ledger();
      task := NewTask(node, true);
      statics := statics[node.id := task];
      FiledFits(Sees(), b, task, node);
    }

    method OnRemoveStatic(id: ID)
      requires Valid()
      modifies this`statics, this`staticPool, tasks`staticPoolIndex
      ensures Valid() && statics == old(statics) - {id}
    {
      hide Spaced, Sensible, Remembered, Active, HasKey, Heap, Indexed, Filed, AllPooled, PooledBut, Verdict,
        Ready, AgreeBut, Added, Removed, Places, Dests;
      if id in statics {
        ghost var b := Ledger();
        OnBooks(id);
        DroppedFits(Sees(), b, id);
        var task := statics[id];
        statics := statics - {id};
        if task.staticPoolIndex >= 0 {
          RemoveFromStaticPool(task.staticPoolIndex);
        }
      }
    }

    /** `expireHistory`: what has expired is forgotten, and what may be dialed again is pooled. */
    method ExpireHistory()
      requires Valid()
      modifies this`clock, this`staticPool, history, tasks`staticPoolIndex
      ensures Valid() && forall x :: x in history.items ==> clock <= x.exp
    {
      hide Spaced, Sensible, Remembered, Active, HasKey, Heap, Indexed, Filed, AllPooled, PooledBut, Verdict,
        Ready, AgreeBut, Added, Removed, Places, Dests;
      ghost var was := clock;
      var now := Now();
      Later(log, history.items, was, now);
      var more := ForgetNext(now);
      while more
        invariant Valid() && now == clock && (!more ==> forall x :: x in history.items ==> now <= x.exp)
        decreases |history.items|, more
      {
        more := ForgetNext(now);
      }
    }

    /** One expired item leaves the history, and its node is considered again. */
    method ForgetNext(now: int) returns (more: bool)
      requires Valid() && now == clock
      modifies this`staticPool, history, tasks`staticPoolIndex
      ensures Valid()
      ensures more ==> |history.items| < old(|history.items|)
      ensures !more ==> history.items == old(history.items) && forall x :: x in history.items ==> now <= x.exp
    {
      hide Spaced, Sensible, Remembered, Active, HasKey, Heap, Indexed, Filed, AllPooled, PooledBut, Verdict,
        Ready, AgreeBut, Added, Removed, Places, Dests;
      ghost var v, b := Sees(), Ledger();
      var x := history.PopExpired(now);
      if x.None? { return false; }
      Forgotten(log, v.history, history.items, x.value, clock);
      ForgottenFits(v, b, Sees(), x.value);
      UpdateStaticPool(x.value.item);
      return true;
    }

    /** One turn of the loop, with the message it selects: all pooled static nodes are launched, and then the
        message takes effect. A node from discovery is launched if there was a free slot before and nothing is
        against it. */
    method Turn(event: Event)
      requires Valid()
      modifies this, history, tasks
      ensures Valid() && fresh(tasks - old(tasks)) && old(tasks) <= tasks && old(log) <= log
      ensures peers == WithPeer(old(peers), event) && dialPeers == Counted(old(dialPeers), event)
      ensures statics.Keys == WithStatic(old(statics.Keys), event)
      ensures dialing.Keys >= old(dialing.Keys) + Ids(old(staticPool)) - (if event.Finished? then {event.id} else {})
      ensures event.Finished? ==> event.id !in dialing
      ensures |log| == old(|log| + |staticPool|)
              || (|log| == old(|log| + |staticPool|) + 1 && event.Found? && log[|log| - 1].to == event.node)
      ensures event.Found? && Min(2 * (maxDialPeers - old(dialPeers)), maxActiveDials) > old(|dialing|) ==>
                var n := event.node;
                || n.id in dialing || n.id == self || (n.ip.Some? && n.tcp == 0) || n.id in peers
                || (restrict.Some? && !(n.ip.Some? && n.ip.value in restrict.value)) || HasKey(history.items, n.id)
      ensures event.Found? && Min(2 * (maxDialPeers - old(dialPeers)), maxActiveDials) <= old(|dialing|) ==>
                |log| == old(|log| + |staticPool|)
    {
      hide Valid, Ids, Verdict, HasKey, WithPeer, Counted, WithStatic;
      var slots := FreeDialSlots();
      StartStaticDials();
      ghost var v := Sees();
      Select(event, slots);
      if event.Found? {
        PeersKept(old(peers), event);
        if Verdict(v, event.node) != None { Refused(v, dialing.Keys, event.node); }
      }
    }

    /** A node from discovery is only read while there are free slots, and only a running task can finish. */
    method Select(event: Event, slots: int)
      requires Valid() && staticPool == []
      modifies this, history, tasks
      ensures Valid() && fresh(tasks - old(tasks)) && old(tasks) <= tasks
      ensures peers == WithPeer(old(peers), event) && dialPeers == Counted(old(dialPeers), event)
      ensures statics.Keys == WithStatic(old(statics.Keys), event)
      ensures event.AddStatic? && event.node.id !in old(statics) ==> statics[event.node.id].Dest() == event.node
      ensures old(log) <= log
      ensures log == old(log) || (event.Found? && slots > 0 && |log| == old(|log|) + 1
                                  && log[|log| - 1].to == event.node)
      ensures event.Found? ==> dialing.Keys >= old(dialing.Keys)
      ensures event.Found? && slots > 0 ==>
                if old(Verdict(Sees(), event.node)) == None then event.node.id in dialing && log != old(log)
                else log == old(log) && history.items == old(history.items)
      ensures event.Finished? ==> dialing == old(dialing) - {event.id}
      ensures !event.Found? && !event.Finished? ==> dialing == old(dialing)
      ensures event.HistoryTimer? ==> forall x | x in history.items :: clock <= x.exp
    {
      hide Valid, Verdict;
      match event
      case Found(node) =>
        if slots > 0 { OnFound(node); }
      case Finished(id, ip, tcp) =>
        if id in dialing {
          IsRunning(id);
          OnFinished(dialing[id], ip, tcp);
        }
      case PeerAdded(id, dialed) =>
        OnPeerAdded(id, dialed);
      case PeerRemoved(id, dialed) =>
        OnPeerRemoved(id, dialed);
      case AddStatic(node) =>
        OnAddStatic(node);
      case RemoveStatic(id) =>
        OnRemoveStatic(id);
      case HistoryTimer =>
        ExpireHistory();
    }

    lemma IsRunning(id: ID)
      requires Valid() && id in dialing
      ensures dialing[id] in running && dialing[id].id == id
    {
    }

    /** `loop`, over any sequence of messages. */
    method Loop(events: seq<Event>)
      requires Valid()
      modifies this, history, tasks
      ensures Safe() && old(log) <= log
      ensures peers == PeersAfter(old(peers), events) && dialPeers == CountAfter(old(dialPeers), events)
      ensures statics.Keys == StaticsAfter(old(statics.Keys), events)
    {
      for i := 0 to |events|
        invariant Valid() && fresh(tasks - old(tasks)) && old(tasks) <= tasks && old(log) <= log
        invariant peers == PeersAfter(old(peers), events[..i]) && dialPeers == CountAfter(old(dialPeers), events[..i])
        invariant statics.Keys == StaticsAfter(old(statics.Keys), events[..i])
      {
        hide Valid, PeersAfter, CountAfter, StaticsAfter, WithPeer, Counted, WithStatic, HasKey, Ids;
        AfterNext(old(peers), old(dialPeers), old(statics.Keys), events, i);
        Turn(events[i]);
      }
      assert events[..|events|] == events;
      ValidIsSafe();
    }

    /** What the scheduler promises after any run: launches of one node are far enough apart and were
        never for ourselves, a connected peer, a node already being dialed, an address without a port or one
        outside the whitelist; no two running tasks are for one node; pool indexes are right; and the pool holds
        every static node that may be dialed. */
    ghost predicate Safe() reads this, history, tasks {
      && Spaced(log) && Sensible(log, self, restrict)
      && (forall s, t :: s in running && t in running && s.id == t.id ==> s == t)
      && (forall i :: 0 <= i < |staticPool| ==> staticPool[i] in tasks && staticPool[i].staticPoolIndex == i)
      && (forall t :: t in tasks ==> (t in staticPool <==> t.staticPoolIndex != -1))
      && (forall id :: id in statics ==>
            statics[id] in tasks && (statics[id] in staticPool <==> Verdict(Sees(), statics[id].Dest()) == None))
    }

    lemma ValidIsSafe()
      requires Valid()
      ensures Safe()
    {
      hide Spaced, Sensible, Remembered, HasKey, Heap, Verdict, AgreeBut;
      var b := Ledger();
      forall t | t in tasks ensures t in staticPool <==> t.staticPoolIndex != -1 {
        assert b.index[t] == t.staticPoolIndex;
        if t in staticPool {
          var i :| 0 <= i < |staticPool| && staticPool[i] == t;
          assert b.index[b.pool[i]] == i;
        }
      }
      forall i | 0 <= i < |staticPool| ensures staticPool[i] in tasks && staticPool[i].staticPoolIndex == i {
        assert b.index[b.pool[i]] == i;
      }
      forall id | id in statics
        ensures statics[id] in tasks && (statics[id] in staticPool <==> Verdict(Sees(), statics[id].Dest()) == None)
      {
        assert Pooled(Sees(), Ledger(), id);
        OnBooks(id);
      }
    }
  }

  lemma IdsWithout(ts: seq<DialTask>, i: nat)
    requires i < |ts|
    ensures Ids(ts) == Ids(Without(ts, i)) + {ts[i].id}
  {
    var rest := Without(ts, i);
    forall t | t in ts && t != ts[i] ensures t in rest {
      var k :| 0 <= k < |ts| && ts[k] == t;
      assert rest[if k == |ts| - 1 then i else k] == t;
    }
    forall t | t in rest ensures t in ts {
      var k :| 0 <= k < |rest| && rest[k] == t;
      assert ts[if k == i then |ts| - 1 else k] == t;
    }
  }

  lemma NoIds()
    ensures Ids([]) == {}
  {
  }

  lemma PeersKept(peers: map<ID, bool>, e: Event)
    requires e.Found?
    ensures WithPeer(peers, e) == peers
  {
  }

  lemma Refused(v: View, dialing: set<ID>, n: Node)
    requires Verdict(v, n) != None && v.dialing <= dialing
    ensures || n.id in dialing || n.id == v.self || (n.ip.Some? && n.tcp == 0) || n.id in v.peers
            || (v.restrict.Some? && !(n.ip.Some? && n.ip.value in v.restrict.value)) || HasKey(v.history, n.id)
  {
  }

  lemma Dialing(v: View, n: Node)
    requires n.id in v.dialing
    ensures Verdict(v, n) != None
  {
  }

  /** A pooled task is filed and may be dialed. */
  lemma InPool(v: View, b: Books, i: nat)
    requires Indexed(b) && Filed(b) && AllPooled(v, b) && i < |b.pool|
    ensures b.pool[i] in b.dest && Verdict(v, b.dest[b.pool[i]]) == None
    ensures forall t :: t in b.pool ==> t in b.index
  {
    assert b.pool[i] in b.pool;
    assert Pooled(v, b, b.pool[i].id);
  }

  lemma Known(b: Books, id: ID)
    requires Indexed(b) && Filed(b) && id in b.statics
    ensures b.statics[id] in b.index && b.statics[id] in b.dest && b.index[b.statics[id]] >= -1
  {
  }

  /** If the node's task is in the pool, that is right. */
  ghost predicate Ready(v: View, b: Books, id: ID)
    requires Filed(b) && id in b.statics
  {
    b.index[b.statics[id]] >= 0 ==> Verdict(v, b.dest[b.statics[id]]) == None
  }

  /** Settling the pool for one node: nothing to do, or its task goes in. */
  lemma Settled(v: View, b: Books, id: ID)
    requires Indexed(b) && Filed(b) && PooledBut(v, b, id) && id in b.statics && Ready(v, b, id)
    ensures var task := b.statics[id];
            if b.index[task] < 0 && Verdict(v, b.dest[task]) == None
            then Indexed(Added(b, task)) && Filed(Added(b, task)) && AllPooled(v, Added(b, task))
            else AllPooled(v, b)
  {
    var task := b.statics[id];
    AllButOne(v, b, id);
    if b.index[task] < 0 && Verdict(v, b.dest[task]) == None {
      var c := Added(b, task);
      AddedFits(b, task);
      OthersPooled(v, b, v, c, id);
      AllButOne(v, c, id);
    }
  }

  /** Taking a task out of the pool is right when its node may no longer be dialed. */
  lemma Unpooled(v: View, b: Books, w: View, i: nat)
    requires Indexed(b) && Filed(b) && AllPooled(v, b) && i < |b.pool|
    requires AgreeBut(v, w, b.pool[i].id) && b.pool[i] in b.dest && Verdict(w, b.dest[b.pool[i]]) != None
    ensures Indexed(Removed(b, i)) && Filed(Removed(b, i)) && AllPooled(w, Removed(b, i))
  {
    var id := b.pool[i].id;
    var c := Removed(b, i);
    RemovedFits(b, i);
    assert b.pool[i] in b.pool;
    AllButOne(v, b, id);
    OthersPooled(v, b, w, c, id);
    AllButOne(w, c, id);
  }

  /** A task that is not static, or not yet. */
  ghost function Enrolled(b: Books, task: DialTask, n: Node): Books {
    b.(index := b.index[task := -1], dest := b.dest[task := n])
  }

  lemma EnrolledFits(b: Books, task: DialTask, n: Node)
    requires Indexed(b) && Filed(b) && task !in b.index && task.id == n.id
    ensures Indexed(Enrolled(b, task, n)) && Filed(Enrolled(b, task, n))
  {
  }

  lemma FoundFits(v: View, b: Books, w: View, task: DialTask, n: Node)
    requires Indexed(b) && Filed(b) && AllPooled(v, b) && b.pool == [] && task !in b.index && task.id == n.id
    requires AgreeBut(v, w, n.id) && n.id in w.dialing
    ensures Indexed(Enrolled(b, task, n)) && Filed(Enrolled(b, task, n)) && AllPooled(w, Enrolled(b, task, n))
  {
    var c := Enrolled(b, task, n);
    EnrolledFits(b, task, n);
    AllButOne(v, b, n.id);
    OthersPooled(v, b, w, c, n.id);
    if n.id in c.statics { Dialing(w, c.dest[c.statics[n.id]]); }
    AllButOne(w, c, n.id);
  }

  lemma FinishedFits(v: View, b: Books, w: View, c: Books, task: DialTask, n: Node)
    requires Indexed(b) && Filed(b) && AllPooled(v, b) && task.id in v.dialing && task in b.dest
    requires w == v.(dialing := v.dialing - {task.id})
    requires n.id == task.id && c == b.(dest := b.dest[task := n])
    ensures Indexed(c) && Filed(c) && PooledBut(w, c, task.id)
    ensures task.id in c.statics ==> Ready(w, c, task.id)
  {
    var id := task.id;
    AllButOne(v, b, id);
    OthersPooled(v, b, w, c, id);
    if id in c.statics { Dialing(v, b.dest[b.statics[id]]); }
  }

  lemma Connected(v: View, n: Node)
    requires n.id in v.peers
    ensures Verdict(v, n) != None
  {
  }

  ghost function Unlisted(b: Books, id: ID): Books
    requires Indexed(b) && Filed(b)
  {
    if id in b.statics && b.index[b.statics[id]] >= 0 then Removed(b, b.index[b.statics[id]]) else b
  }

  lemma ConnectedFits(v: View, b: Books, w: View, id: ID)
    requires Indexed(b) && Filed(b) && AllPooled(v, b) && w == v.(peers := v.peers + {id})
    ensures var c := Unlisted(b, id); Indexed(c) && Filed(c) && AllPooled(w, c)
  {
    hide Pooled, Verdict, PooledBut, AllPooled, Removed;
    AllButOne(v, b, id);
    OthersPooled(v, b, w, b, id);
    AllButOne(w, b, id);
    if id in b.statics {
      Connected(w, b.dest[b.statics[id]]);
      if b.index[b.statics[id]] >= 0 {
        Unpooled(v, b, w, b.index[b.statics[id]]);
      } else {
        NotPooled(w, b, id);
      }
    }
  }

  lemma NotPooled(w: View, b: Books, id: ID)
    requires Filed(b) && id in b.statics && b.index[b.statics[id]] < 0 && Verdict(w, b.dest[b.statics[id]]) != None
    ensures Pooled(w, b, id)
  {
    hide Verdict;
  }

  lemma LoosenedFits(v: View, b: Books, w: View, id: ID)
    requires Indexed(b) && Filed(b) && AllPooled(v, b) && w == v.(peers := v.peers - {id})
    ensures PooledBut(w, b, id) && (id in b.statics ==> Ready(w, b, id))
  {
    AllButOne(v, b, id);
    OthersPooled(v, b, w, b, id);
    if id in b.statics {
      if id in v.peers { Connected(v, b.dest[b.statics[id]]); } else { assert v == w; }
    }
  }

  lemma FiledFits(v: View, b: Books, task: DialTask, n: Node)
    requires Indexed(b) && Filed(b) && AllPooled(v, b) && task !in b.index && task.id == n.id && n.id !in b.statics
    ensures var e := Enrolled(b, task, n); var c := e.(statics := e.statics[n.id := task]);
            Indexed(c) && Filed(c) && PooledBut(v, c, n.id)
  {
    hide Indexed, Filed, PooledBut, AllPooled, Pooled, Verdict, HasKey;
    var e := Enrolled(b, task, n);
    var c := e.(statics := e.statics[n.id := task]);
    EnrolledFits(b, task, n);
    NewlyFiled(e, task);
    AllButOne(v, b, n.id);
    OthersPooled(v, b, v, c, n.id);
  }

  lemma NewlyFiled(b: Books, task: DialTask)
    requires Indexed(b) && Filed(b) && task in b.index && task.id !in b.statics
    ensures var c := b.(statics := b.statics[task.id := task]); Indexed(c) && Filed(c)
  {
  }

  lemma DroppedFits(v: View, b: Books, id: ID)
    requires Indexed(b) && Filed(b) && AllPooled(v, b) && id in b.statics
    ensures var i := b.index[b.statics[id]]; var d := Dropped(b, id);
            (0 <= i ==> i < |b.pool|) && Indexed(d) && Filed(d) && AllPooled(v, d)
  {
    var d := Dropped(b, id);
    DroppedFiled(b, id);
    hide Indexed, Filed, PooledBut, AllPooled, Pooled, Verdict, HasKey, Dropped;
    AllButOne(v, b, id);
    OthersPooled(v, b, v, d, id);
    AllButOne(v, d, id);
  }

  /** The books without a static node. */
  ghost function Dropped(b: Books, id: ID): Books
    requires Indexed(b) && Filed(b) && id in b.statics
  {
    var i := b.index[b.statics[id]];
    var c := b.(statics := b.statics - {id});
    if i < 0 then c else Removed(c, i)
  }

  lemma DroppedFiled(b: Books, id: ID)
    requires Indexed(b) && Filed(b) && id in b.statics
    ensures var d := Dropped(b, id); Indexed(d) && Filed(d) && d.statics == b.statics - {id} && d.dest == b.dest
    ensures forall t :: t in b.index && t.id != id ==> (Dropped(b, id).index[t] >= 0 <==> b.index[t] >= 0)
  {
    hide Indexed, Filed;
    Known(b, id);
    if b.index[b.statics[id]] < 0 { DroppedIdle(b, id); } else { DroppedPooled(b, id); }
  }

  lemma DroppedIdle(b: Books, id: ID)
    requires Indexed(b) && Filed(b) && id in b.statics && b.index[b.statics[id]] < 0
    ensures var c := b.(statics := b.statics - {id}); Indexed(c) && Filed(c)
  {
    assert b.statics[id] !in b.pool;
  }

  lemma DroppedPooled(b: Books, id: ID)
    requires Indexed(b) && Filed(b) && id in b.statics && b.index[b.statics[id]] >= 0
    ensures var i := b.index[b.statics[id]];
            && i < |b.pool|
            && var d := Removed(b.(statics := b.statics - {id}), i);
               && Indexed(d) && Filed(d)
               && forall t :: t in b.index && t.id != id ==> (d.index[t] >= 0 <==> b.index[t] >= 0)
  {
    hide Indexed, Filed, Without;
    Known(b, id);
    InPlace(b, id);
    var i, c := b.index[b.statics[id]], b.(statics := b.statics - {id});
    SameIndex(b, c);
    RemovedFits(c, i);
    Unfiled(b, id, Removed(c, i));
  }

  lemma Unfiled(b: Books, id: ID, d: Books)
    requires Filed(b) && id in b.statics && d.statics == b.statics - {id} && d.dest == b.dest
    requires d.index.Keys == b.index.Keys && forall t :: t in d.pool ==> t in b.pool && t != b.statics[id]
    ensures Filed(d)
  {
  }

  lemma InPlace(b: Books, id: ID)
    requires Indexed(b) && Filed(b) && id in b.statics && b.index[b.statics[id]] >= 0
    ensures var i := b.index[b.statics[id]]; i < |b.pool| && b.pool[i] == b.statics[id] && b.pool[i].id == id
  {
  }

  lemma SameIndex(b: Books, c: Books)
    requires Indexed(b) && c.pool == b.pool && c.index == b.index
    ensures Indexed(c)
  {
  }

  lemma Later(log: seq<Launch>, history: seq<Item>, clock: int, now: int)
    requires Remembered(log, history, clock) && clock <= now
    ensures Remembered(log, history, now)
  {
  }

  lemma ForgottenFits(v: View, b: Books, w: View, x: Item)
    requires Indexed(b) && Filed(b) && AllPooled(v, b)
    requires w == v.(history := w.history) && multiset(v.history) == multiset(w.history) + multiset{x}
    ensures PooledBut(w, b, x.item) && (x.item in b.statics ==> Ready(w, b, x.item))
  {
    KeyAdded(w.history, v.history, x);
    AllButOne(v, b, x.item);
    OthersPooled(v, b, w, b, x.item);
  }
}
