/** The event feed of event/feed.go: one-to-many delivery with a send token, an inbox for new
    subscriptions, a removal channel, and one slice split in place into cases still to be
    served and cases already served. */
module Feed {
  import opened Basics

  /** A select case: the removal channel, or a subscriber's channel. */
  datatype Case = RemoveSub | Sub(ch: nat)

  /** Where Send is: without the token; with the token but before merging the inbox; trying
      case `i` without blocking; or blocked in the select over the active cases. */
  datatype Phase = Idle | Acquired | Trying(i: nat) | Selecting

  /** What one Send did: who was subscribed when it merged the inbox, who was removed while it
      ran, what it delivered, and what it returned. */
  datatype Record = Record(present: set<nat>, removed: set<nat>, delivered: multiset<nat>, nsent: nat)

  /** Fields of the feed, locals of the running Send, and what the other goroutines are about to do. */
  datatype State = State(
    sendCases: seq<Case>,
    inbox: seq<Case>,
    phase: Phase,
    active: nat,          // len(cases): cases is the prefix of sendCases of this length
    current: Record,
    live: set<nat>,       // subscriptions that have not begun to unsubscribe
    leaving: set<nat>,    // removals past the inbox, waiting at their select
    log: seq<Record>)     // finished Sends

  datatype Event =
    | Subscribe(ch: nat)
    | Unsubscribe(ch: nat)   // up to the point where the inbox has been searched
    | RemoveIdle(ch: nat)    // the remover got the send token
    | Acquire
    | Merge
    | Try(ch: nat, ok: bool) // TrySend to this channel, which took the value or did not
    | EndTry
    | SelectSend(i: nat, ch: nat) // the channel at this position took the value
    | SelectRemove(ch: nat)  // the Send received from the removal channel

  // ------------------------------------------------------------------ case lists

  function Delete(cs: seq<Case>, index: nat): seq<Case>
    requires index < |cs|
  {
    cs[..index] + cs[index + 1..]
  }

  /** Swaps the case at `index` with the last of the first `n`. */
  function Deactivate(cs: seq<Case>, n: nat, index: nat): seq<Case>
    requires index < n <= |cs|
  {
    cs[index := cs[n - 1]][n - 1 := cs[index]]
  }

  function IndexOf(cs: seq<Case>, c: Case): (i: nat)
    requires c in cs
    ensures i < |cs| && cs[i] == c && c !in cs[..i]
  {
    if cs[0] == c then 0 else 1 + IndexOf(cs[1..], c)
  }

  predicate NoDup(cs: seq<Case>) { forall i, j | 0 <= i < j < |cs| :: cs[i] != cs[j] }

  predicate AllSubs(cs: seq<Case>) { forall c | c in cs :: c.Sub? }

  lemma DeleteMembers(cs: seq<Case>, i: nat)
    requires i < |cs| && NoDup(cs)
    ensures NoDup(Delete(cs, i))
    ensures forall c :: c in Delete(cs, i) <==> c in cs && c != cs[i]
  {
    var ds := Delete(cs, i);
    forall c | c in cs && c != cs[i] ensures c in ds {
      var k :| 0 <= k < |cs| && cs[k] == c;
      if k < i { assert ds[k] == c; } else { assert ds[k - 1] == c; }
    }
  }

  /** Deleting shifts the later cases down and keeps the split, whichever side the case was on. */
  lemma DeleteSplit(cs: seq<Case>, n: nat, i: nat)
    requires i < |cs| && n <= |cs| && NoDup(cs)
    ensures var m := if i < n then n - 1 else n;
            && m <= |Delete(cs, i)|
            && (forall c :: c in Delete(cs, i)[..m] <==> c in cs[..n] && c != cs[i])
            && (forall c :: c in Delete(cs, i)[m..] <==> c in cs[n..] && c != cs[i])
  {
    var ds := Delete(cs, i);
    var m := if i < n then n - 1 else n;
    if i < n {
      DeleteMembers(cs[..n], i);
      assert ds[..m] == Delete(cs[..n], i);
      assert ds[m..] == cs[n..];
      assert cs[i] !in cs[n..];
    } else {
      DeleteMembers(cs[n..], i - n);
      assert ds[m..] == Delete(cs[n..], i - n);
      assert ds[..m] == cs[..n];
      assert cs[i] !in cs[..n];
    }
  }

  lemma DeactivateSplit(cs: seq<Case>, n: nat, i: nat)
    requires i < n <= |cs| && NoDup(cs)
    ensures var ds := Deactivate(cs, n, i);
            && NoDup(ds) && |ds| == |cs|
            && (forall c :: c in ds[..n - 1] <==> c in cs[..n] && c != cs[i])
            && (forall c :: c in ds[n - 1..] <==> c in cs[n..] || c == cs[i])
            && (forall c :: c in ds <==> c in cs)
  {
    var ds := Deactivate(cs, n, i);
    forall c ensures c in ds[..n - 1] <==> c in cs[..n] && c != cs[i] { DeactivateFront(cs, n, i, c); }
    assert ds[n - 1..] == [cs[i]] + cs[n..];
    hide Deactivate, NoDup;
    assert ds == ds[..n - 1] + ds[n - 1..] && cs == cs[..n] + cs[n..];
    assert cs[..n][i] == cs[i];
  }

  lemma DeactivateFront(cs: seq<Case>, n: nat, i: nat, c: Case)
    requires i < n <= |cs| && NoDup(cs)
    ensures c in Deactivate(cs, n, i)[..n - 1] <==> c in cs[..n] && c != cs[i]
  {
    var ds := Deactivate(cs, n, i);
    if c in cs[..n] && c != cs[i] {
      var k :| 0 <= k < n && cs[k] == c;
      assert ds[if k == n - 1 then i else k] == c;
    }
    if c in ds[..n - 1] {
      var k :| 0 <= k < n - 1 && ds[k] == c;
      assert cs[if k == i then n - 1 else k] == c;
    }
  }

  // ----------------------------------------------------------------------- steps

  const NOTHING: Record := Record({}, {}, multiset{}, 0)

  function Init(): State { State([RemoveSub], [], Idle, 1, NOTHING, {}, {}, []) }

  predicate Sending(s: State) { s.phase.Trying? || s.phase.Selecting? }

  predicate At(cs: seq<Case>, i: nat, ch: nat) { i < |cs| && cs[i] == Sub(ch) }

  /** Which steps can happen; a channel is subscribed at most once at a time. */
  predicate Enabled(s: State, e: Event) {
    match e
    case Subscribe(ch) => ch !in s.live && ch !in s.leaving
    case Unsubscribe(ch) => ch in s.live
    case RemoveIdle(ch) => ch in s.leaving && s.phase.Idle?
    case Acquire => s.phase.Idle?
    case Merge => s.phase.Acquired?
    case Try(ch, _) => s.phase.Trying? && s.phase.i < s.active && At(s.sendCases, s.phase.i, ch)
    case EndTry => s.phase.Trying? && s.phase.i >= s.active
    case SelectSend(i, ch) => s.phase.Selecting? && 1 <= i < s.active && At(s.sendCases, i, ch)
    case SelectRemove(ch) => s.phase.Selecting? && ch in s.leaving
  }

  function Chans(cs: seq<Case>): set<nat> { set c | c in cs && c.Sub? :: c.ch }

  /** The value goes to case `i`, which joins the served ones. */
  function Deliver(s: State, i: nat): State
    requires 1 <= i < s.active <= |s.sendCases| && s.sendCases[i].Sub?
  {
    var c := s.current;
    s.(sendCases := Deactivate(s.sendCases, s.active, i),
       active := s.active - 1,
       current := c.(delivered := c.delivered + multiset{s.sendCases[i].ch}, nsent := c.nsent + 1))
  }

  /** Send takes the case of `ch` out of the slice, and of the active prefix if it is there. */
  function Remove(s: State, ch: nat): State
    requires Sub(ch) in s.sendCases && s.active >= 1
  {
    var index := IndexOf(s.sendCases, Sub(ch));
    s.(sendCases := Delete(s.sendCases, index),
       active := if index < s.active then s.active - 1 else s.active,
       leaving := s.leaving - {ch},
       current := s.current.(removed := s.current.removed + {ch}))
  }

  function Step(s: State, e: Event): State
    requires Inv(s) && Enabled(s, e)
  {
    match e
    case Subscribe(ch) => s.(inbox := s.inbox + [Sub(ch)], live := s.live + {ch})
    case Unsubscribe(ch) =>
      if Sub(ch) in s.inbox
      then s.(inbox := Delete(s.inbox, IndexOf(s.inbox, Sub(ch))), live := s.live - {ch})
      else s.(live := s.live - {ch}, leaving := s.leaving + {ch})
    case RemoveIdle(ch) =>
      s.(sendCases := Delete(s.sendCases, IndexOf(s.sendCases, Sub(ch))), leaving := s.leaving - {ch})
    case Acquire => s.(phase := Acquired)
    case Merge =>
      var all := s.sendCases + s.inbox;
      s.(sendCases := all, inbox := [], phase := Trying(1), active := |all|,
         current := Record(Chans(all), {}, multiset{}, 0))
    case Try(_, ok) =>
      if ok then Deliver(s, s.phase.i) else s.(phase := Trying(s.phase.i + 1))
    case EndTry =>
      if s.active == 1 then s.(phase := Idle, log := s.log + [s.current]) else s.(phase := Selecting)
    case SelectSend(i, _) => Deliver(s, i).(phase := Trying(1))
    case SelectRemove(ch) => Remove(s, ch).(phase := Trying(1))
  }

  // ------------------------------------------------------------------- invariant

  /** The two lists hold distinct channels, the removal channel first. */
  ghost predicate Lists(cs: seq<Case>, inbox: seq<Case>) {
    && |cs| >= 1 && cs[0] == RemoveSub && AllSubs(cs[1..]) && AllSubs(inbox)
    && NoDup(cs) && NoDup(inbox)
    && (forall c | c in inbox :: c !in cs)
  }

  /** A subscription is in exactly one of the lists until it is removed; one that is leaving is in sendCases. */
  ghost predicate Members(cs: seq<Case>, inbox: seq<Case>, live: set<nat>, leaving: set<nat>) {
    && (forall ch :: ch in live || ch in leaving <==> Sub(ch) in cs || Sub(ch) in inbox)
    && live !! leaving
    && (forall ch | ch in leaving :: Sub(ch) in cs)
  }

  /** The running Send has served exactly the cases beyond the active prefix, once each. */
  ghost predicate Progress(r: Record, cs: seq<Case>, active: nat) {
    && 1 <= active <= |cs|
    && (forall ch :: ch in r.present <==> ch in r.removed || Sub(ch) in cs)
    && (forall ch | ch in r.removed :: Sub(ch) !in cs && r.delivered[ch] <= 1)
    && (forall ch | Sub(ch) in cs[..active] :: r.delivered[ch] == 0)
    && (forall ch | Sub(ch) in cs[active..] :: r.delivered[ch] == 1)
    && (forall ch :: ch !in r.present ==> r.delivered[ch] == 0)
    && r.nsent == |r.delivered|
  }

  /** What a finished Send has done: everyone who stayed was served exactly once, those removed
      meanwhile at most once, nobody else at all, and the result counts the deliveries. */
  ghost predicate Complete(r: Record) {
    && (forall ch | ch in r.present && ch !in r.removed :: r.delivered[ch] == 1)
    && (forall ch | ch in r.removed :: ch in r.present && r.delivered[ch] <= 1)
    && (forall ch :: ch !in r.present ==> r.delivered[ch] == 0)
    && r.nsent == |r.delivered|
  }

  ghost predicate Inv(s: State) {
    && Lists(s.sendCases, s.inbox) && Members(s.sendCases, s.inbox, s.live, s.leaving)
    && (Sending(s) ==> Progress(s.current, s.sendCases, s.active))
    && (s.phase.Trying? ==> 1 <= s.phase.i <= s.active) && (s.phase.Selecting? ==> s.active > 1)
    && (forall r | r in s.log :: Complete(r))
  }

  lemma InitInv()
    ensures Inv(Init())
  {
  }

  lemma TailSub(cs: seq<Case>, c: Case)
    requires |cs| >= 1 && cs[0] == RemoveSub && AllSubs(cs[1..]) && c in cs
    ensures c == RemoveSub || c.Sub?
    ensures forall i | 1 <= i < |cs| :: cs[i].Sub?
  {
    forall i | 1 <= i < |cs| ensures cs[i].Sub? { assert cs[i] == cs[1..][i - 1]; }
  }

  /** Deleting a subscriber's case leaves the removal channel in front. */
  lemma DeleteLists(cs: seq<Case>, i: nat)
    requires |cs| >= 1 && cs[0] == RemoveSub && AllSubs(cs[1..]) && NoDup(cs) && 1 <= i < |cs|
    ensures var ds := Delete(cs, i);
            |ds| >= 1 && ds[0] == RemoveSub && AllSubs(ds[1..]) && NoDup(ds)
  {
    DeleteMembers(cs, i);
    var ds := Delete(cs, i);
    forall c | c in ds[1..] ensures c.Sub? {
      assert ds[1..] == Delete(cs[1..], i - 1);
      DeleteMembers(cs[1..], i - 1);
    }
  }

  lemma SubscribeInv(s: State, ch: nat)
    requires Inv(s) && Enabled(s, Subscribe(ch))
    ensures Inv(Step(s, Subscribe(ch)))
  {
    hide Progress, Complete;
    var t := Step(s, Subscribe(ch));
    assert Sub(ch) !in s.sendCases && Sub(ch) !in s.inbox;
    assert forall c :: c in t.inbox <==> c in s.inbox || c == Sub(ch);
  }

  lemma UnsubscribeInv(s: State, ch: nat)
    requires Inv(s) && Enabled(s, Unsubscribe(ch))
    ensures Inv(Step(s, Unsubscribe(ch)))
  {
    hide Progress, Complete;
    if Sub(ch) in s.inbox {
      DeleteMembers(s.inbox, IndexOf(s.inbox, Sub(ch)));
    }
  }

  /** Taking a leaving subscriber out of sendCases. */
  lemma RemoveLeaving(cs: seq<Case>, inbox: seq<Case>, live: set<nat>, leaving: set<nat>, ch: nat)
    requires Lists(cs, inbox) && Members(cs, inbox, live, leaving) && ch in leaving
    ensures 1 <= IndexOf(cs, Sub(ch)) < |cs|
    ensures var ds := Delete(cs, IndexOf(cs, Sub(ch))); Lists(ds, inbox) && Members(ds, inbox, live, leaving - {ch})
  {
    var i := IndexOf(cs, Sub(ch));
    DeleteMembers(cs, i);
    DeleteLists(cs, i);
  }

  lemma RemoveIdleInv(s: State, ch: nat)
    requires Inv(s) && Enabled(s, RemoveIdle(ch))
    ensures Inv(Step(s, RemoveIdle(ch)))
  {
    hide Progress, Complete, Lists, Members, Delete;
    RemoveLeaving(s.sendCases, s.inbox, s.live, s.leaving, ch);
  }

  lemma MergeInv(s: State)
    requires Inv(s) && Enabled(s, Merge)
    ensures Inv(Step(s, Merge))
  {
    hide Complete;
    var t := Step(s, Merge);
    var all := s.sendCases + s.inbox;
    assert all[1..] == s.sendCases[1..] + s.inbox;
    assert forall c :: c in all <==> c in s.sendCases || c in s.inbox;
    forall i, j | 0 <= i < j < |all| ensures all[i] != all[j] {
      if i < |s.sendCases| <= j { assert all[j] in s.inbox; }
    }
    assert all[|all|..] == [];
    assert forall ch :: ch in t.current.present <==> Sub(ch) in all by {
      forall ch ensures ch in Chans(all) <==> Sub(ch) in all {}
    }
  }

  /** The split of the slice after a delivery, for the Send's own record. */
  lemma DeliverProgress(s: State, i: nat)
    requires Lists(s.sendCases, s.inbox) && Progress(s.current, s.sendCases, s.active) && 1 <= i < s.active
    ensures i < s.active <= |s.sendCases| && s.sendCases[i].Sub?
    ensures var t := Deliver(s, i);
            && Progress(t.current, t.sendCases, t.active) && Lists(t.sendCases, s.inbox)
            && forall c :: c in t.sendCases <==> c in s.sendCases
  {
    var cs := s.sendCases;
    TailSub(cs, cs[i]);
    DeactivateSplit(cs, s.active, i);
    DeliveredProgress(s.current, cs, s.active, i);
    DeactivateLists(cs, s.active, i);
  }

  lemma DeactivateLists(cs: seq<Case>, n: nat, i: nat)
    requires |cs| >= 1 && cs[0] == RemoveSub && AllSubs(cs[1..]) && NoDup(cs) && 1 <= i < n <= |cs|
    ensures var ds := Deactivate(cs, n, i); |ds| >= 1 && ds[0] == RemoveSub && AllSubs(ds[1..])
  {
    var ds := Deactivate(cs, n, i);
    TailSub(cs, cs[i]);
    forall c | c in ds[1..] ensures c.Sub? {
      var k :| 0 <= k < |ds[1..]| && ds[1..][k] == c;
      assert ds[k + 1] == c;
    }
  }

  lemma DeliveredProgress(r: Record, cs: seq<Case>, active: nat, i: nat)
    requires Progress(r, cs, active) && NoDup(cs) && 1 <= i < active && cs[i].Sub?
    ensures Progress(r.(delivered := r.delivered + multiset{cs[i].ch}, nsent := r.nsent + 1),
                     Deactivate(cs, active, i), active - 1)
  {
    DeactivateSplit(cs, active, i);
    assert cs[..active][i] == cs[i];
    hide Deactivate, NoDup;
    var ch := cs[i].ch;
    assert r.delivered[ch] == 0;
  }

  lemma DeliverInv(s: State, i: nat, p: Phase)
    requires Inv(s) && Sending(s) && 1 <= i < s.active
    requires p == Trying(1) || (p == s.phase && p == Trying(i))
    ensures s.sendCases[i].Sub? && Inv(Deliver(s, i).(phase := p))
  {
    DeliverProgress(s, i);
    hide Progress, Complete, Deliver, Deactivate, Lists, Members;
    var t := Deliver(s, i).(phase := p);
    DeliverKeeps(s, i);
    SameMembers(s.sendCases, t.sendCases, s.inbox, s.live, s.leaving);
    assert t.active >= 1 && i <= t.active;
  }

  lemma SameMembers(cs: seq<Case>, ds: seq<Case>, inbox: seq<Case>, live: set<nat>, leaving: set<nat>)
    requires Members(cs, inbox, live, leaving) && forall c :: c in ds <==> c in cs
    ensures Members(ds, inbox, live, leaving)
  {
  }

  lemma DeliverKeeps(s: State, i: nat)
    requires 1 <= i < s.active <= |s.sendCases| && s.sendCases[i].Sub?
    ensures var t := Deliver(s, i);
            && t.inbox == s.inbox && t.live == s.live && t.leaving == s.leaving && t.log == s.log
            && t.active == s.active - 1
  {
  }

  lemma SelectRemoveInv(s: State, ch: nat)
    requires Inv(s) && Enabled(s, SelectRemove(ch))
    ensures Inv(Step(s, SelectRemove(ch)))
  {
    hide Progress, Complete, Lists, Members, Delete, NoDup;
    RemoveLeaving(s.sendCases, s.inbox, s.live, s.leaving, ch);
    var i := IndexOf(s.sendCases, Sub(ch));
    ListsDistinct(s.sendCases, s.inbox);
    RemoveProgress(s.current, s.sendCases, s.active, i);
    var t := Step(s, SelectRemove(ch));
    assert t.active >= 1 by { RemoveLeavesOne(t.current, t.sendCases, t.active); }
  }

  lemma ListsDistinct(cs: seq<Case>, inbox: seq<Case>)
    requires Lists(cs, inbox)
    ensures NoDup(cs)
  {
  }

  lemma RemoveLeavesOne(r: Record, cs: seq<Case>, active: nat)
    requires Progress(r, cs, active)
    ensures active >= 1
  {
  }

  lemma RemoveProgress(r: Record, cs: seq<Case>, active: nat, i: nat)
    requires Progress(r, cs, active) && NoDup(cs) && 1 <= i < |cs| && cs[i].Sub?
    ensures Progress(r.(removed := r.removed + {cs[i].ch}), Delete(cs, i), if i < active then active - 1 else active)
  {
    DeleteMembers(cs, i);
    DeleteSplit(cs, active, i);
    var ch := cs[i].ch;
    assert cs[i] in cs[..active] || cs[i] in cs[active..] by {
      if i < active { assert cs[..active][i] == cs[i]; } else { assert cs[active..][i - active] == cs[i]; }
    }
    hide Delete;
    assert r.delivered[ch] <= 1;
  }

  lemma EndTryInv(s: State)
    requires Inv(s) && Enabled(s, EndTry)
    ensures Inv(Step(s, EndTry))
  {
    if s.active == 1 {
      SendCompletes(s);
      var t := Step(s, EndTry);
      hide Complete, Progress;
      forall r | r in t.log ensures Complete(r) { assert r in s.log || r == s.current; }
    }
  }

  /** When only the removal channel is active, the record is complete. */
  lemma SendCompletes(s: State)
    requires Lists(s.sendCases, s.inbox) && Progress(s.current, s.sendCases, s.active) && s.active == 1
    ensures Complete(s.current)
  {
    var r, cs := s.current, s.sendCases;
    forall ch | ch in r.present && ch !in r.removed ensures r.delivered[ch] == 1 {
      assert Sub(ch) in cs;
      assert cs == [cs[0]] + cs[1..];
      assert Sub(ch) in cs[1..];
    }
  }

  lemma StepInv(s: State, e: Event)
    requires Inv(s) && Enabled(s, e)
    ensures Inv(Step(s, e))
  {
    match e
    case Subscribe(ch) => SubscribeInv(s, ch);
    case Unsubscribe(ch) => UnsubscribeInv(s, ch);
    case RemoveIdle(ch) => RemoveIdleInv(s, ch);
    case Acquire =>
    case Merge => MergeInv(s);
    case Try(_, ok) => if ok { DeliverInv(s, s.phase.i, s.phase); }
    case EndTry => EndTryInv(s);
    case SelectSend(i, _) => DeliverInv(s, i, Trying(1));
    case SelectRemove(ch) => SelectRemoveInv(s, ch);
  }

  // ------------------------------------------------------------------------ runs

  /** Every event of the sequence can happen when its turn comes. */
  ghost predicate Feasible(s: State, es: seq<Event>)
    requires Inv(s)
    decreases |es|
  {
    es == [] || (Enabled(s, es[0]) && (StepInv(s, es[0]); Feasible(Step(s, es[0]), es[1..])))
  }

  ghost function Final(s: State, es: seq<Event>): State
    requires Inv(s) && Feasible(s, es)
    decreases |es|
  {
    if es == [] then s else StepInv(s, es[0]); Final(Step(s, es[0]), es[1..])
  }

  lemma {:induction false} FinalInv(s: State, es: seq<Event>)
    requires Inv(s) && Feasible(s, es)
    ensures Inv(Final(s, es))
    decreases |es|
  {
    hide Inv, Step, Enabled;
    if es != [] {
      StepInv(s, es[0]);
      FinalInv(Step(s, es[0]), es[1..]);
    }
  }

  /** In every interleaving: each finished Send is complete, it delivered what the channels took and nothing
      else, and a subscription that is live or leaving is in exactly one of the lists, so looking for it never
      comes back empty-handed. */
  lemma EveryInterleaving(es: seq<Event>)
    requires (InitInv(); Feasible(Init(), es))
    ensures (InitInv(); var t := Final(Init(), es);
            && (forall r | r in t.log :: Complete(r))
            && (forall ch | ch in t.live :: (Sub(ch) in t.sendCases) != (Sub(ch) in t.inbox))
            && (forall ch | ch in t.leaving :: Sub(ch) in t.sendCases && Sub(ch) !in t.inbox)
            && var h := Told(NO_HISTORY, es);
               && t.log == h.finished && t.live == h.live && t.leaving == h.leaving
               && t.current.present == h.present && t.current.removed == h.removed
               && t.current.delivered == h.accepted == Accepted(multiset{}, es))
  {
    InitInv();
    FinalInv(Init(), es);
    EventsTell(Init(), es);
    ToldAccepted(NO_HISTORY, es);
    hide Final, Feasible, Told;
    assert Seen(Init()) == NO_HISTORY;
  }

  /** A run can be prolonged by a step that is at hand. */
  lemma {:induction false} FinalSnoc(s: State, es: seq<Event>, e: Event)
    requires Inv(s) && Feasible(s, es) && Enabled(Final(s, es), e)
    ensures Inv(Final(s, es)) && Feasible(s, es + [e]) && Final(s, es + [e]) == Step(Final(s, es), e)
    decreases |es|
  {
    hide Inv, Step, Enabled;
    FinalInv(s, es);
    if es == [] {
      assert ([e] + [])[1..] == [];
      StepInv(s, e);
    } else {
      StepInv(s, es[0]);
      FinalSnoc(Step(s, es[0]), es[1..], e);
      assert (es + [e])[1..] == es[1..] + [e];
    }
  }

  lemma {:induction false} FinalConcat(s: State, es: seq<Event>, fs: seq<Event>)
    requires Inv(s) && Feasible(s, es) && Inv(Final(s, es)) && Feasible(Final(s, es), fs)
    ensures Feasible(s, es + fs) && Final(s, es + fs) == Final(Final(s, es), fs)
    decreases |es|
  {
    hide Inv, Step, Enabled;
    if es == [] {
      assert es + fs == fs;
    } else {
      StepInv(s, es[0]);
      FinalConcat(Step(s, es[0]), es[1..], fs);
      assert (es + fs)[1..] == es[1..] + fs;
    }
  }

  /** From s the events lead to t. */
  ghost predicate Leads(s: State, es: seq<Event>, t: State) { Inv(s) && Feasible(s, es) && t == Final(s, es) && Inv(t) }

  lemma LeadsOn(s: State, es: seq<Event>, t: State, e: Event)
    requires Leads(s, es, t) && Enabled(t, e)
    ensures Leads(s, es + [e], Step(t, e))
  {
    hide Inv, Step, Enabled;
    StepInv(t, e);
    FinalSnoc(s, es, e);
  }

  lemma LeadsFar(s: State, es: seq<Event>, t: State, fs: seq<Event>, u: State)
    requires Leads(s, es, t) && Leads(t, fs, u)
    ensures Leads(s, es + fs, u)
  {
    hide Inv;
    FinalConcat(s, es, fs);
  }

  // ------------------------------------------------------- what the events tell

  /** What anyone who saw only the events knows: who subscribed and left, who got the value of the latest Send,
      who refused it in the latest pass over the active cases, and what finished Sends did. */
  datatype History = History(
    live: set<nat>, waiting: set<nat>, leaving: set<nat>, present: set<nat>, removed: set<nat>,
    accepted: multiset<nat>, refused: set<nat>, finished: seq<Record>)

  const NO_HISTORY: History := History({}, {}, {}, {}, {}, multiset{}, {}, [])

  /** No positions, slices or counters: a Send begins with everyone who is there, a value is delivered when a
      channel took it and not otherwise, and a Send is over when a pass ends without a refusal. */
  function Tell(h: History, e: Event): History {
    match e
    case Subscribe(ch) => h.(live := h.live + {ch}, waiting := h.waiting + {ch})
    case Unsubscribe(ch) =>
      h.(live := h.live - {ch}, waiting := h.waiting - {ch},
         leaving := if ch in h.waiting then h.leaving else h.leaving + {ch})
    case RemoveIdle(ch) => h.(leaving := h.leaving - {ch})
    case Acquire => h
    case Merge =>
      h.(waiting := {}, present := h.live + h.leaving, removed := {}, accepted := multiset{}, refused := {})
    case Try(ch, true) => h.(accepted := h.accepted + multiset{ch})
    case Try(ch, false) => h.(refused := h.refused + {ch})
    case EndTry =>
      if h.refused != {} then h
      else h.(finished := h.finished + [Record(h.present, h.removed, h.accepted, |h.accepted|)])
    case SelectSend(_, ch) => h.(accepted := h.accepted + multiset{ch}, refused := {})
    case SelectRemove(ch) => h.(leaving := h.leaving - {ch}, removed := h.removed + {ch}, refused := {})
  }

  function Told(h: History, es: seq<Event>): History
    decreases |es|
  {
    if es == [] then h else Told(Tell(h, es[0]), es[1..])
  }

  /** The cases already passed over in this pass. */
  function Refused(s: State): set<nat> {
    match s.phase
    case Trying(i) => if i <= |s.sendCases| then Chans(s.sendCases[..i]) else {}
    case Selecting => if s.active <= |s.sendCases| then Chans(s.sendCases[..s.active]) else {}
    case _ => {}
  }

  function Seen(s: State): History {
    History(s.live, Chans(s.inbox), s.leaving, s.current.present, s.current.removed, s.current.delivered, Refused(s),
            s.log)
  }

  lemma ChansMember(cs: seq<Case>, ch: nat)
    ensures ch in Chans(cs) <==> Sub(ch) in cs
  {
  }

  lemma ChansDelete(cs: seq<Case>, i: nat)
    requires i < |cs| && NoDup(cs) && cs[i].Sub?
    ensures Chans(Delete(cs, i)) == Chans(cs) - {cs[i].ch}
  {
    DeleteMembers(cs, i);
  }

  lemma ChansAppend(cs: seq<Case>, ch: nat)
    ensures Chans(cs + [Sub(ch)]) == Chans(cs) + {ch}
  {
  }

  lemma UnsubscribeTells(s: State, ch: nat)
    requires Inv(s) && Enabled(s, Unsubscribe(ch))
    ensures Seen(Step(s, Unsubscribe(ch))) == Tell(Seen(s), Unsubscribe(ch))
  {
    hide Progress, Complete, Members, Chans, Delete;
    ChansMember(s.inbox, ch);
    if Sub(ch) in s.inbox { ChansDelete(s.inbox, IndexOf(s.inbox, Sub(ch))); }
  }

  lemma MergeTells(s: State)
    requires Inv(s) && Enabled(s, Merge)
    ensures Seen(Step(s, Merge)) == Tell(Seen(s), Merge)
  {
    hide Progress, Complete;
    var all := s.sendCases + s.inbox;
    assert all[..1] == [RemoveSub];
    forall ch ensures ch in Chans(all) <==> ch in s.live || ch in s.leaving { ChansMember(all, ch); }
  }

  /** A delivery is seen as one acceptance; the cases in front of it stay. */
  lemma DeliverTells(s: State, i: nat)
    requires 1 <= i < s.active <= |s.sendCases| && s.sendCases[i].Sub?
    ensures var t := Deliver(s, i);
            && t.sendCases[..i] == s.sendCases[..i] && |t.sendCases| == |s.sendCases|
            && t.current == s.current.(delivered := s.current.delivered + multiset{s.sendCases[i].ch},
                                       nsent := s.current.nsent + 1)
  {
  }

  lemma TryTells(s: State, ch: nat, ok: bool)
    requires Inv(s) && Enabled(s, Try(ch, ok))
    ensures Seen(Step(s, Try(ch, ok))) == Tell(Seen(s), Try(ch, ok))
  {
    Deliverable(s, s.phase.i);
    hide Progress, Complete, Members, Lists, Chans, Deactivate;
    var i := s.phase.i;
    if ok {
      DeliverTells(s, i);
      DeliverKeeps(s, i);
    } else {
      assert s.sendCases[..i + 1] == s.sendCases[..i] + [Sub(ch)];
      ChansAppend(s.sendCases[..i], ch);
    }
  }

  /** Nobody refused in a pass that left only the removal channel, and somebody did in any other. */
  lemma EndTryTells(s: State)
    requires Inv(s) && Enabled(s, EndTry)
    ensures Seen(Step(s, EndTry)) == Tell(Seen(s), EndTry)
  {
    hide Complete, Members;
    if s.active == 1 {
      assert s.sendCases[..1] == [RemoveSub];
    } else {
      TailSub(s.sendCases, s.sendCases[1]);
      assert s.sendCases[..s.active][1] == s.sendCases[1];
      ChansMember(s.sendCases[..s.active], s.sendCases[1].ch);
    }
  }

  lemma FirstOnly(s: State)
    requires Inv(s) && s.phase == Trying(1)
    ensures Refused(s) == {}
  {
    hide Complete, Members, Progress;
    assert s.sendCases[..1] == [RemoveSub];
  }

  lemma SelectTells(s: State, e: Event)
    requires Inv(s) && Enabled(s, e) && (e.SelectSend? || e.SelectRemove?)
    ensures Seen(Step(s, e)) == Tell(Seen(s), e)
  {
    if e.SelectSend? {
      Deliverable(s, e.i);
      DeliverTells(s, e.i);
      DeliverKeeps(s, e.i);
    }
    hide Inv, Chans, Deactivate, Delete, IndexOf, Refused;
    StepInv(s, e);
    FirstOnly(Step(s, e));
  }

  /** Every step of the machine is seen as what its event tells. */
  lemma StepTells(s: State, e: Event)
    requires Inv(s) && Enabled(s, e)
    ensures Seen(Step(s, e)) == Tell(Seen(s), e)
  {
    match e
    case Subscribe(ch) => ChansAppend(s.inbox, ch);
    case Unsubscribe(ch) => UnsubscribeTells(s, ch);
    case RemoveIdle(ch) =>
    case Acquire =>
    case Merge => MergeTells(s);
    case Try(ch, ok) => TryTells(s, ch, ok);
    case EndTry => EndTryTells(s);
    case SelectSend(_, _) => SelectTells(s, e);
    case SelectRemove(_) => SelectTells(s, e);
  }

  /** So every run is, whatever the positions in the slices were. */
  lemma {:induction false} EventsTell(s: State, es: seq<Event>)
    requires Inv(s) && Feasible(s, es)
    ensures Seen(Final(s, es)) == Told(Seen(s), es)
    decreases |es|
  {
    hide Inv, Step, Enabled, Seen, Tell;
    if es != [] {
      StepInv(s, es[0]);
      StepTells(s, es[0]);
      EventsTell(Step(s, es[0]), es[1..]);
    }
  }

  /** The channels that took the value of the latest Send, read off the events; m is what came before. */
  function Accepted(m: multiset<nat>, es: seq<Event>): multiset<nat>
    decreases |es|
  {
    if es == [] then m
    else
      var n := match es[0]
               case Merge => multiset{}
               case Try(ch, true) => m + multiset{ch}
               case SelectSend(_, ch) => m + multiset{ch}
               case _ => m;
      Accepted(n, es[1..])
  }

  lemma {:induction false} ToldAccepted(h: History, es: seq<Event>)
    ensures Told(h, es).accepted == Accepted(h.accepted, es)
    decreases |es|
  {
    if es != [] { ToldAccepted(Tell(h, es[0]), es[1..]); }
  }

  /** A Send has delivered exactly what the channels took since it began. */
  lemma SendTells(s: State, es: seq<Event>, t: State)
    requires Leads(s, [Acquire, Merge] + es, t)
    ensures t.current.delivered == Accepted(multiset{}, es)
  {
    hide Inv, Feasible, Final, Tell, Seen;
    var all := [Acquire, Merge] + es;
    EventsTell(s, all);
    SeenDelivered(s);
    SeenDelivered(t);
    ToldAccepted(Seen(s), all);
    assert all[1..] == [Merge] + es && all[1..][1..] == es;
  }

  lemma SeenDelivered(s: State)
    ensures Seen(s).accepted == s.current.delivered
  {
  }

  /** Once all receivers take what they are offered, a Send in progress is over within two steps for each case. */
  lemma {:induction false} CanFinish(s: State) returns (es: seq<Event>)
    requires Inv(s) && Sending(s)
    ensures Feasible(s, es) && |es| <= 2 * s.active + if s.phase.Trying? then 1 else 0
    ensures Final(s, es).phase == Idle && |Final(s, es).log| == |s.log| + 1
    decreases s.active, s.phase.Trying?
  {
    var e;
    if s.phase.Trying? && s.phase.i >= s.active {
      e := EndTry;
    } else {
      var i := if s.phase.Trying? then s.phase.i else 1;
      Deliverable(s, i);
      DeliverKeeps(s, i);
      e := if s.phase.Trying? then Try(s.sendCases[i].ch, true) else SelectSend(i, s.sendCases[i].ch);
    }
    StepInv(s, e);
    var t := Step(s, e);
    assert t.phase == Idle || (Sending(t) && t.log == s.log);
    es := [];
    hide Inv, Step, Enabled;
    if t.phase != Idle { es := CanFinish(t); }
    assert ([e] + es)[1..] == es;
    es := [e] + es;
  }

  // ----------------------------------------------------------------------- slices

  /** A slice that starts at the beginning of its array. */
  datatype Slice = Slice(arr: array<Case>, len: nat)

  ghost predicate Bounded(s: Slice) { s.len <= s.arr.Length }

  ghost function View(s: Slice): seq<Case>
    requires Bounded(s)
    reads s.arr
  {
    s.arr[..s.len]
  }

  /** `caseList.find`. */
  method Find(s: Slice, c: Case) returns (index: int)
    requires Bounded(s)
    ensures c !in View(s) ==> index == -1
    ensures c in View(s) ==> index == IndexOf(View(s), c)
  {
    var i := 0;
    while i < s.len
      invariant 0 <= i <= s.len && c !in View(s)[..i]
    {
      if s.arr[i] == c {
        FirstIndex(View(s), c, i);
        return i;
      }
      i := i + 1;
    }
    return -1;
  }

  lemma FirstIndex(cs: seq<Case>, c: Case, i: nat)
    requires i < |cs| && cs[i] == c && c !in cs[..i]
    ensures IndexOf(cs, c) == i
  {
    var k := IndexOf(cs, c);
    assert forall j | 0 <= j < i :: cs[..i][j] == cs[j];
    assert forall j | 0 <= j < k :: cs[..k][j] == cs[j];
  }

  /** `caseList.delete`: the later cases move down in place. A slice of the same array that ends at or before
      the index keeps its contents. */
  method DeleteAt(s: Slice, index: nat) returns (r: Slice)
    requires index < s.len && Bounded(s)
    modifies s.arr
    ensures r == Slice(s.arr, s.len - 1) && View(r) == Delete(old(View(s)), index)
    ensures s.arr[..index] == old(s.arr[..index])
  {
    var k := index;
    while k + 1 < s.len
      invariant index <= k < s.len
      invariant forall j | 0 <= j < index || k <= j < s.len :: s.arr[j] == old(s.arr[j])
      invariant forall j | index <= j < k :: s.arr[j] == old(s.arr[j + 1])
    {
      s.arr[k] := s.arr[k + 1];
      k := k + 1;
    }
    r := Slice(s.arr, s.len - 1);
  }

  /** `caseList.deactivate`: the case changes places with the last one, in place, and the slice ends before it. */
  method DeactivateAt(s: Slice, index: nat) returns (r: Slice)
    requires index < s.len && Bounded(s)
    modifies s.arr
    ensures r == Slice(s.arr, s.len - 1) && s.arr[..] == Deactivate(old(s.arr[..]), s.len, index)
  {
    var last := s.len - 1;
    s.arr[index], s.arr[last] := s.arr[last], s.arr[index];
    r := Slice(s.arr, last);
  }

  /** Go's append: in place if there is room, in a new array otherwise. */
  method Append(s: Slice, xs: seq<Case>) returns (r: Slice)
    requires Bounded(s)
    modifies s.arr
    ensures Bounded(r) && r.len == s.len + |xs| && View(r) == old(View(s)) + xs
    ensures r.arr == s.arr || fresh(r.arr)
  {
    var arr := s.arr;
    if s.len + |xs| > arr.Length {
      arr := new Case[2 * (s.len + |xs|)](_ => RemoveSub);
      for j := 0 to s.len
        invariant fresh(arr) && forall k | 0 <= k < j :: arr[k] == s.arr[k]
        modifies arr
      {
        arr[j] := s.arr[j];
      }
    }
    for j := 0 to |xs|
      invariant forall k | 0 <= k < s.len :: arr[k] == old(s.arr[k])
      invariant forall k | s.len <= k < s.len + j :: arr[k] == xs[k - s.len]
      modifies arr
    {
      arr[s.len + j] := xs[j];
    }
    r := Slice(arr, s.len + |xs|);
  }

  /** Swapping within the first n cases of an array is swapping within those of any slice that holds them. */
  lemma DeactivateWithin(a: seq<Case>, m: nat, n: nat, i: nat)
    requires i < n <= m <= |a|
    ensures Deactivate(a, n, i)[..m] == Deactivate(a[..m], n, i)
  {
  }

  // ------------------------------------------------------------------- the object

// ---------------------------------------------------------------- schedules

  /** What decides how a Send goes on: other goroutines act, a try returns, or the select picks a case. */
  datatype Choice = Others(e: Event) | Tried(ok: bool) | Picked(i: nat) | PickedRemoval(ch: nat)

  /** What goroutines other than the Send may do meanwhile. */
  predicate Foreign(e: Event) { e.Subscribe? || e.Unsubscribe? }

  function ChannelAt(s: State, i: nat): nat {
    if i < |s.sendCases| && s.sendCases[i].Sub? then s.sendCases[i].ch else 0
  }

  /** The event that a choice stands for. */
  function Meant(s: State, c: Choice): Event {
    match c
    case Others(e) => e
    case Tried(ok) => Try(ChannelAt(s, if s.phase.Trying? then s.phase.i else 0), ok)
    case Picked(i) => SelectSend(i, ChannelAt(s, i))
    case PickedRemoval(ch) => SelectRemove(ch)
  }

  /** The choice can be made now. */
  predicate Open(s: State, c: Choice) { Enabled(s, Meant(s, c)) && (c.Others? ==> Foreign(c.e)) }

  predicate PassOver(s: State) { s.phase.Trying? && s.phase.i >= s.active }

  /** How a Send goes on from s under a schedule: a pass that is over ends at once, and otherwise the next
      choice is made, or skipped if it cannot be made. */
  ghost function Script(s: State, sched: seq<Choice>): seq<Event>
    requires Inv(s)
    decreases |sched|, PassOver(s)
  {
    if PassOver(s) then StepInv(s, EndTry); [EndTry] + Script(Step(s, EndTry), sched)
    else if !Sending(s) || sched == [] then []
    else if !Open(s, sched[0]) then Script(s, sched[1..])
    else var e := Meant(s, sched[0]); StepInv(s, e); [e] + Script(Step(s, e), sched[1..])
  }

  /** The choices that were made in a run. */
  function Choices(es: seq<Event>): seq<Choice> {
    if es == [] then []
    else
      (match es[0]
       case Subscribe(_) => [Others(es[0])]
       case Unsubscribe(_) => [Others(es[0])]
       case Try(_, ok) => [Tried(ok)]
       case SelectSend(i, _) => [Picked(i)]
       case SelectRemove(ch) => [PickedRemoval(ch)]
       case _ => [])
      + Choices(es[1..])
  }

  /** A Send's own run, among steps of others: passes end at once, and it ends with the Send. */
  ghost predicate Prompt(s: State, es: seq<Event>)
    requires Inv(s)
    decreases |es|
  {
    es != [] ==>
      && Enabled(s, es[0]) && Sending(s) && (PassOver(s) <==> es[0].EndTry?)
      && (StepInv(s, es[0]); Prompt(Step(s, es[0]), es[1..]))
  }

  lemma ChoiceOf(s: State, es: seq<Event>)
    requires es != [] && Enabled(s, es[0]) && Sending(s) && !es[0].EndTry?
    ensures var cs := Choices(es);
            cs != [] && cs[1..] == Choices(es[1..]) && Meant(s, cs[0]) == es[0] && Open(s, cs[0])
  {
  }

  lemma PassEnds(s: State)
    requires Inv(s) && PassOver(s)
    ensures !PassOver(Step(s, EndTry))
  {
    hide Inv;
  }

  /** Every such run comes about, under the schedule of the choices made in it. */
  lemma {:induction false} EveryRunIsScripted(s: State, es: seq<Event>)
    requires Inv(s) && Prompt(s, es)
    ensures es <= Script(s, Choices(es))
    decreases |es|
  {
    hide Inv, Step;
    if es != [] {
      var e := es[0];
      StepInv(s, e);
      EveryRunIsScripted(Step(s, e), es[1..]);
      assert es == [e] + es[1..];
      if e.EndTry? {
        assert Choices(es) == Choices(es[1..]);
      } else {
        ChoiceOf(s, es);
        assert Script(s, Choices(es)) == [e] + Script(Step(s, e), Choices(es[1..]));
      }
    }
  }

  /** The choices of one list are among those of the other, in the same order. */
  predicate Within(a: seq<Choice>, b: seq<Choice>) {
    a == [] || (b != [] && ((a[0] == b[0] && Within(a[1..], b[1..])) || Within(a, b[1..])))
  }

  /** And nothing is made up: what a Send did is what the schedule said, in that order. */
  lemma {:induction false} ScriptIsScheduled(s: State, sched: seq<Choice>)
    requires Inv(s)
    ensures Feasible(s, Script(s, sched)) && Within(Choices(Script(s, sched)), sched)
    decreases |sched|, PassOver(s)
  {
    hide Inv, Step;
    var es := Script(s, sched);
    if PassOver(s) {
      StepInv(s, EndTry);
      PassEnds(s);
      ScriptIsScheduled(Step(s, EndTry), sched);
      assert es[1..] == Script(Step(s, EndTry), sched) && Choices(es) == Choices(es[1..]);
    } else if Sending(s) && sched != [] {
      if Open(s, sched[0]) {
        var e := Meant(s, sched[0]);
        StepInv(s, e);
        ScriptIsScheduled(Step(s, e), sched[1..]);
        assert es[1..] == Script(Step(s, e), sched[1..]);
        assert Choices(es)[1..] == Choices(es[1..]);
      } else {
        ScriptIsScheduled(s, sched[1..]);
      }
    }
  }

  /** What is still to come is the script from here on. */
  ghost predicate OnScript(s: State, sched: seq<Choice>, es: seq<Event>, t: State, left: seq<Choice>)
    requires Inv(s) && Inv(t)
  {
    Script(s, sched) == es + Script(t, left)
  }

  lemma Unread(s: State, sched: seq<Choice>)
    requires Inv(s)
    ensures OnScript(s, sched, [], s, sched)
  {
  }

  lemma AllRead(t: State, left: seq<Choice>)
    requires Inv(t)
    ensures !Sending(t) || (left == [] && !PassOver(t)) ==> Script(t, left) == []
  {
    hide Inv, Step;
  }

  lemma ReadAll(s: State, sched: seq<Choice>, es: seq<Event>, t: State, left: seq<Choice>)
    requires Inv(s) && Inv(t) && OnScript(s, sched, es, t, left) && Script(t, left) == []
    ensures es == Script(s, sched)
  {
    hide Inv, Script;
  }

  lemma ReadOn(s: State, sched: seq<Choice>, es: seq<Event>, t: State, left: seq<Choice>, fs: seq<Event>, u: State,
               rest: seq<Choice>)
    requires Inv(s) && Inv(t) && Inv(u) && OnScript(s, sched, es, t, left) && OnScript(t, left, fs, u, rest)
    ensures OnScript(s, sched, es + fs, u, rest)
  {
    hide Inv, Script;
  }

  lemma TakeEnd(s: State, sched: seq<Choice>, es: seq<Event>, t: State, left: seq<Choice>)
    requires Inv(s) && Inv(t) && OnScript(s, sched, es, t, left) && PassOver(t)
    ensures (StepInv(t, EndTry); OnScript(s, sched, es + [EndTry], Step(t, EndTry), left))
  {
    hide Inv, Step;
    StepInv(t, EndTry);
  }

  lemma CountComplete(r: Record)
    ensures Complete(r) ==> r.nsent == |r.delivered|
  {
  }

  /** The step that a choice leads to, if any, and the state behind it. */
  function Made(s: State, c: Choice): seq<Event> { if Open(s, c) then [Meant(s, c)] else [] }

  ghost function After(s: State, c: Choice): State
    requires Inv(s)
  {
    if Open(s, c) then Step(s, Meant(s, c)) else s
  }

  lemma TakeChoice(s: State, sched: seq<Choice>, es: seq<Event>, t: State, left: seq<Choice>)
    requires Inv(s) && Inv(t) && Leads(s, es, t) && OnScript(s, sched, es, t, left)
    requires left != [] && Sending(t) && !PassOver(t)
    ensures var fs, u := Made(t, left[0]), After(t, left[0]);
            Leads(s, es + fs, u) && OnScript(s, sched, es + fs, u, left[1..])
  {
    hide Inv, Step, Enabled, Feasible, Final, Script;
    NextOnScript(t, left);
    if Open(t, left[0]) { LeadsOn(s, es, t, Meant(t, left[0])); } else { assert es + [] == es; }
  }

  lemma NextOnScript(t: State, left: seq<Choice>)
    requires Inv(t) && left != [] && Sending(t) && !PassOver(t)
    ensures Inv(After(t, left[0]))
    ensures Script(t, left) == Made(t, left[0]) + Script(After(t, left[0]), left[1..])
  {
    hide Inv, Step, Enabled;
    if Open(t, left[0]) { StepInv(t, Meant(t, left[0])); }
  }

  // ------------------------------------------------------------------- the object

  /** A feed. While a Send runs, its slice `cases` and the feed's `sendCases` share one array. */
  class FeedObject {
    var sendCases: Slice
    var cases: Slice
    var inbox: Slice
    var phase: Phase
    var nsent: nat
    ghost var present: set<nat>
    ghost var removed: set<nat>
    ghost var delivered: multiset<nat>
    var live: set<nat>
    var leaving: set<nat>
    ghost var log: seq<Record>

    /** The slices are in bounds, and while a Send runs `cases` is a prefix of `sendCases` in the same array. */
    ghost predicate Shaped() reads this {
      && Bounded(sendCases) && Bounded(inbox) && sendCases.arr != inbox.arr
      && (phase.Trying? || phase.Selecting? ==> cases.arr == sendCases.arr && cases.len <= sendCases.len)
    }

    ghost function S(): State
      requires Shaped()
      reads this, sendCases.arr, inbox.arr
    {
      State(View(sendCases), View(inbox), phase, cases.len, Record(present, removed, delivered, nsent), live, leaving,
            log)
    }

    ghost predicate Valid() reads this, sendCases.arr, inbox.arr { Shaped() && Inv(S()) }

    /** `init`. */
    constructor ()
      ensures Valid() && fresh(sendCases.arr) && fresh(inbox.arr) && S() == Init()
    {
      var a, b := new Case[1](_ => RemoveSub), new Case[0](_ => RemoveSub);
      sendCases, cases, inbox := Slice(a, 1), Slice(a, 1), Slice(b, 0);
      phase, nsent := Idle, 0;
      present, removed, delivered, live, leaving, log := {}, {}, multiset{}, {}, {}, [];
      new;
      InitInv();
    }

    /** `Subscribe`. */
    method Subscribe(ch: nat)
      requires Valid() && Enabled(S(), Event.Subscribe(ch))
      modifies this`inbox, this`live, inbox.arr
      ensures Valid() && S() == Step(old(S()), Event.Subscribe(ch))
      ensures inbox.arr == old(inbox.arr) || fresh(inbox.arr)
    {
      hide Inv;
      StepInv(S(), Event.Subscribe(ch));
      inbox := Append(inbox, [Sub(ch)]);
      live := live + {ch};
    }

    /** `remove`, as far as the inbox; true if it was found there. */
    method Unsubscribe(ch: nat) returns (done: bool)
      requires Valid() && Enabled(S(), Event.Unsubscribe(ch))
      modifies this`inbox, this`live, this`leaving, inbox.arr
      ensures Valid() && S() == Step(old(S()), Event.Unsubscribe(ch)) && inbox.arr == old(inbox.arr)
      ensures ch !in live && (ch in leaving <==> !done) && (done <==> old(Sub(ch) in View(inbox)))
    {
      hide Inv, Delete, IndexOf;
      NotLeaving(S(), ch);
      StepInv(S(), Event.Unsubscribe(ch));
      var index := Find(inbox, Sub(ch));
      live := live - {ch};
      if index != -1 {
        inbox := DeleteAt(inbox, index);
        return true;
      }
      leaving := leaving + {ch};
      return false;
    }

    /** `remove`, with the send token in hand: the case is there, so the index is never -1. */
    method RemoveWhenIdle(ch: nat)
      requires Valid() && Enabled(S(), RemoveIdle(ch))
      modifies this`sendCases, this`leaving, sendCases.arr
      ensures Valid() && S() == Step(old(S()), RemoveIdle(ch)) && sendCases.arr == old(sendCases.arr)
      ensures ch !in leaving
    {
      hide Inv, Delete, IndexOf;
      StepInv(S(), RemoveIdle(ch));
      Leaving(S(), ch);
      var index := Find(sendCases, Sub(ch));
      sendCases := DeleteAt(sendCases, index);
      leaving := leaving - {ch};
    }

    /** The start of `Send`: the token is taken and the inbox merged. */
    method Begin()
      requires Valid() && phase == Idle
      modifies this, sendCases.arr
      ensures Valid() && S() == (StepInv(old(S()), Acquire); Step(Step(old(S()), Acquire), Merge))
      ensures phase == Trying(1) && log == old(log)
      ensures sendCases.arr == old(sendCases.arr) || fresh(sendCases.arr)
      ensures fresh(inbox.arr)
    {
      hide Inv, Step, Enabled, Chans;
      Begun(S());
      MergeInbox();
      cases, phase, nsent := sendCases, Trying(1), 0;
      present, removed, delivered := Chans(View(sendCases)), {}, multiset{};
    }

    method MergeInbox()
      requires Shaped()
      modifies this`sendCases, this`inbox, sendCases.arr
      ensures Bounded(sendCases) && Bounded(inbox) && sendCases.arr != inbox.arr
      ensures View(sendCases) == old(View(sendCases)) + old(View(inbox)) && View(inbox) == []
      ensures sendCases.arr == old(sendCases.arr) || fresh(sendCases.arr)
      ensures fresh(inbox.arr)
    {
      sendCases := Append(sendCases, inbox.arr[..inbox.len]);
      var none := new Case[0](_ => RemoveSub);
      inbox := Slice(none, 0);
    }

    /** A try of the fast path; `ok` is what TrySend returned. */
    method TryCase(ok: bool) returns (ghost ch: nat)
      requires Valid() && phase.Trying? && phase.i < cases.len
      modifies this`cases, this`phase, this`nsent, this`delivered, sendCases.arr
      ensures Valid() && phase.Trying? && Enabled(old(S()), Try(ch, ok)) && S() == Step(old(S()), Try(ch, ok))
      ensures !ok ==> S() == old(S()).(phase := Trying(old(phase.i) + 1))
    {
      hide Inv;
      Target(S(), phase.i);
      ch := sendCases.arr[phase.i].ch;
      StepInv(S(), Try(ch, ok));
      if ok {
        Serve(phase.i);
      } else {
        phase := Trying(phase.i + 1);
      }
    }

    /** A delivery: the case leaves the active ones, in place. */
    method Serve(i: nat)
      requires Valid() && (phase.Trying? || phase.Selecting?) && 1 <= i < cases.len
      modifies this`cases, this`nsent, this`delivered, sendCases.arr
      ensures Shaped() && 1 <= i < old(cases.len) && old(View(sendCases)[i]).Sub?
      ensures S() == Deliver(old(S()), i)
    {
      hide Inv, Deactivate;
      Deliverable(S(), i);
      DeactivateWithin(sendCases.arr[..], sendCases.len, cases.len, i);
      delivered := delivered + multiset{sendCases.arr[i].ch};
      nsent := nsent + 1;
      cases := DeactivateAt(cases, i);
    }

    /** After the fast path: everyone is served, or on to the select. */
    method EndFastPath()
      requires Valid() && Enabled(S(), EndTry)
      modifies this`phase, this`log
      ensures Valid() && S() == Step(old(S()), EndTry)
      ensures phase == Idle || (phase == Selecting && log == old(log))
      ensures phase == Idle ==> log == old(log) + [S().current] && Complete(S().current)
    {
      hide Inv, Complete;
      StepInv(S(), EndTry);
      LogComplete(Step(S(), EndTry));
      if cases.len == 1 {
        log := log + [Record(present, removed, delivered, nsent)];
        phase := Idle;
      } else {
        phase := Selecting;
      }
    }

    /** The select chose a subscriber. */
    method PickedCase(i: nat) returns (ghost ch: nat)
      requires Valid() && phase == Selecting && 1 <= i < cases.len
      modifies this`cases, this`phase, this`nsent, this`delivered, sendCases.arr
      ensures Valid() && phase == Trying(1)
      ensures Enabled(old(S()), SelectSend(i, ch)) && S() == Step(old(S()), SelectSend(i, ch))
    {
      hide Inv;
      Target(S(), i);
      ch := sendCases.arr[i].ch;
      StepInv(S(), SelectSend(i, ch));
      Serve(i);
      phase := Trying(1);
    }

    /** The select chose the removal channel. */
    method PickedRemove(ch: nat)
      requires Valid() && Enabled(S(), SelectRemove(ch))
      modifies this`sendCases, this`cases, this`phase, this`removed, this`leaving, sendCases.arr
      ensures Valid() && S() == Step(old(S()), SelectRemove(ch)) && sendCases.arr == old(sendCases.arr)
      ensures phase == Trying(1)
    {
      hide Inv, Delete, IndexOf, Step;
      Removable(S(), ch);
      TakeOut(Sub(ch));
      removed, leaving := removed + {ch}, leaving - {ch};
      phase := Trying(1);
    }

    /** The case leaves `sendCases` in place, and `cases` stays a prefix: shortened if the case was in it,
        untouched if it was not. */
    method TakeOut(c: Case)
      requires Shaped() && Sending(S()) && c in View(sendCases)
      modifies this`sendCases, this`cases, sendCases.arr
      ensures Shaped() && sendCases.arr == old(sendCases.arr)
      ensures var index := IndexOf(old(View(sendCases)), c);
              && View(sendCases) == Delete(old(View(sendCases)), index)
              && (if index < old(cases.len) then cases.len == old(cases.len) - 1
                  else cases == old(cases) && cases.arr[..cases.len] == old(cases.arr[..cases.len]))
    {
      hide Delete, IndexOf;
      var index := Find(sendCases, c);
      sendCases := DeleteAt(sendCases, index);
      if index >= 0 && index < cases.len { cases := Slice(sendCases.arr, cases.len - 1); }
    }

    /** What another goroutine does meanwhile. */
    method Other(e: Event)
      requires Valid() && Foreign(e) && Enabled(S(), e)
      modifies this`inbox, this`live, this`leaving, inbox.arr
      ensures Valid() && S() == Step(old(S()), e)
      ensures inbox.arr == old(inbox.arr) || fresh(inbox.arr)
    {
      hide Inv, Enabled, Step;
      match e
      case Subscribe(ch) => Subscribe(ch);
      case Unsubscribe(ch) => var _ := Unsubscribe(ch);
    }

    /** The arrays in use are those of before or new ones. */
    twostate predicate SameArrays() reads this {
      && (sendCases.arr == old(sendCases.arr) || fresh(sendCases.arr))
      && (inbox.arr == old(inbox.arr) || fresh(inbox.arr))
    }

    /** What one choice does to a Send in progress. */
    method Make(c: Choice)
      requires Valid() && Sending(S()) && !PassOver(S())
      modifies this, sendCases.arr, inbox.arr
      ensures Valid() && SameArrays() && log == old(log)
      ensures S() == After(old(S()), c)
      ensures phase.Trying? || (old(phase) == Selecting && phase == Selecting)
      ensures old(phase) == Selecting && phase.Trying? ==> phase == Trying(1)
    {
      hide Inv;
      match c {
      case Others(e) =>
        if Possible(e) { Other(e); }
      case Tried(ok) =>
        if phase.Trying? {
          Target(S(), phase.i);
          ghost var ch := TryCase(ok);
        }
      case Picked(i) =>
        if phase == Selecting && 1 <= i < cases.len {
          Target(S(), i);
          ghost var ch := PickedCase(i);
        }
      case PickedRemoval(ch) =>
        if phase == Selecting && ch in leaving { PickedRemove(ch); }
      }
    }

    /** The inner loop of `Send`, until every active case was tried or the schedule is used up. */
    method FastPath(sched: seq<Choice>, k0: nat) returns (k: nat, ghost es: seq<Event>)
      requires Valid() && phase.Trying? && k0 <= |sched|
      modifies this, sendCases.arr, inbox.arr
      ensures Valid() && Leads(old(S()), es, S()) && SameArrays()
      ensures k0 <= k <= |sched| && phase.Trying? && (phase.i >= cases.len || k == |sched|) && log == old(log)
      ensures OnScript(old(S()), sched[k0..], es, S(), sched[k..])
    {
      hide Inv, Step, Feasible, Final, OnScript;
      k, es := k0, [];
      Here(S());
      Unread(S(), sched[k0..]);
      while k < |sched| && phase.i < cases.len
        invariant Valid() && Leads(old(S()), es, S()) && SameArrays()
        invariant k0 <= k <= |sched| && phase.Trying? && log == old(log)
        invariant OnScript(old(S()), sched[k0..], es, S(), sched[k..])
      {
        ghost var t := S();
        Make(sched[k]);
        TakeChoice(old(S()), sched[k0..], es, t, sched[k..]);
        es := es + Made(t, sched[k]);
        k := k + 1;
      }
    }

    /** Another goroutine can do this now. */
    predicate Possible(e: Event) reads this {
      (e.Subscribe? && e.ch !in live && e.ch !in leaving) || (e.Unsubscribe? && e.ch in live)
    }

    /** The select of `Send`, until it has picked a case or the schedule is used up. */
    method Select(sched: seq<Choice>, k0: nat) returns (k: nat, ghost es: seq<Event>)
      requires Valid() && phase == Selecting && k0 <= |sched|
      modifies this, sendCases.arr, inbox.arr
      ensures Valid() && Leads(old(S()), es, S()) && SameArrays()
      ensures k0 <= k <= |sched| && log == old(log)
      ensures if phase == Selecting then k == |sched| else phase == Trying(1) && k > k0
      ensures OnScript(old(S()), sched[k0..], es, S(), sched[k..])
    {
      hide Inv, Step, Feasible, Final, OnScript;
      k, es := k0, [];
      Here(S());
      Unread(S(), sched[k0..]);
      while k < |sched| && phase == Selecting
        invariant Valid() && Leads(old(S()), es, S()) && SameArrays()
        invariant k0 <= k <= |sched| && log == old(log) && (phase == Selecting || (phase == Trying(1) && k > k0))
        invariant OnScript(old(S()), sched[k0..], es, S(), sched[k..])
      {
        ghost var t := S();
        Make(sched[k]);
        TakeChoice(old(S()), sched[k0..], es, t, sched[k..]);
        es := es + Made(t, sched[k]);
        k := k + 1;
      }
    }

    /** A round of the outer loop of `Send`: fast path, and select if someone is left. It is over for now when
        the schedule is used up or everyone is served. */
    method Round(sched: seq<Choice>, k0: nat) returns (k: nat, over: bool, ghost es: seq<Event>)
      requires Valid() && phase == Trying(1) && k0 <= |sched|
      modifies this, sendCases.arr, inbox.arr
      ensures Valid() && Leads(old(S()), es, S()) && SameArrays() && k0 <= k <= |sched|
      ensures !over ==> phase == Trying(1) && k > k0 && log == old(log)
      ensures over && phase != Idle ==> (phase.Trying? || phase.Selecting?) && log == old(log)
      ensures over && phase == Idle ==> log == old(log) + [S().current] && Complete(S().current)
      ensures OnScript(old(S()), sched[k0..], es, S(), sched[k..])
      ensures over ==> Script(S(), sched[k..]) == []
    {
      hide Inv, Step, Feasible, Final, Complete, OnScript, Script;
      k, es := FastPath(sched, k0);
      AllRead(S(), sched[k..]);
      if phase.i < cases.len { return k, true, es; }
      ghost var t := S();
      LeadsOn(old(S()), es, t, EndTry);
      TakeEnd(old(S()), sched[k0..], es, t, sched[k..]);
      EndFastPath();
      AllRead(S(), sched[k..]);
      es, t := es + [EndTry], S();
      if phase == Idle { return k, true, es; }
      ghost var fs, k1 := [], k;
      k, fs := Select(sched, k);
      LeadsFar(old(S()), es, t, fs, S());
      ReadOn(old(S()), sched[k0..], es, t, sched[k1..], fs, S(), sched[k..]);
      AllRead(S(), sched[k..]);
      return k, phase == Selecting, es + fs;
    }

    /** `Send`, among whatever other goroutines do meanwhile: it goes on as the schedule says, and when it returns
        its record is complete and its result the number of channels that took the value. */
    method Send(sched: seq<Choice>) returns (result: nat, finished: bool, ghost es: seq<Event>)
      requires Valid() && phase == Idle
      modifies this, sendCases.arr, inbox.arr
      ensures Valid() && SameArrays() && Leads(old(S()), [Acquire, Merge] + es, S())
      ensures (StartLeads(old(S())); es == Script(Step(Step(old(S()), Acquire), Merge), sched))
      ensures Within(Choices(es), sched) && S().current.delivered == Accepted(multiset{}, es)
      ensures finished ==>
                && phase == Idle && log == old(log) + [S().current]
                && Complete(S().current) && result == S().current.nsent == |Accepted(multiset{}, es)|
      ensures !finished ==> (phase.Trying? || phase.Selecting?) && log == old(log)
    {
      hide Inv, Step, Feasible, Final, Complete, OnScript, Script, Within, Choices, Accepted;
      StartLeads(S());
      es := [];
      Begin();
      ghost var begun := S();
      Unread(begun, sched);
      assert sched[0..] == sched && [Acquire, Merge] + [] == [Acquire, Merge];
      var k, over := 0, false;
      while !over
        invariant Valid() && Leads(old(S()), [Acquire, Merge] + es, S()) && SameArrays() && k <= |sched|
        invariant OnScript(begun, sched, es, S(), sched[k..]) && (over ==> Script(S(), sched[k..]) == [])
        invariant !over ==> phase == Trying(1) && log == old(log)
        invariant over && phase != Idle ==> (phase.Trying? || phase.Selecting?) && log == old(log)
        invariant over && phase == Idle ==> log == old(log) + [S().current] && Complete(S().current)
        decreases |sched| - k, !over
      {
        ghost var fs, t, k1 := [], S(), k;
        k, over, fs := Round(sched, k);
        LeadsFar(old(S()), [Acquire, Merge] + es, t, fs, S());
        ReadOn(begun, sched, es, t, sched[k1..], fs, S(), sched[k..]);
        assert [Acquire, Merge] + es + fs == [Acquire, Merge] + (es + fs);
        es := es + fs;
      }
      ReadAll(begun, sched, es, S(), sched[k..]);
      ScriptIsScheduled(begun, sched);
      SendTells(old(S()), es, S());
      CountComplete(S().current);
      return nsent, phase == Idle, es;
    }

    /** `remove`: out of the inbox, or out of `sendCases` if no Send is in progress; a running Send will do it
        when it selects the removal. */
    method Remove(ch: nat) returns (ghost es: seq<Event>)
      requires Valid() && ch in live
      modifies this, sendCases.arr, inbox.arr
      ensures Valid() && Leads(old(S()), es, S()) && ch !in live
      ensures es == if old(Sub(ch) in View(inbox)) || phase != Idle then [Event.Unsubscribe(ch)]
                    else [Event.Unsubscribe(ch), RemoveIdle(ch)]
      ensures phase == old(phase) && log == old(log)
      ensures phase == Idle ==> Sub(ch) !in View(inbox) && Sub(ch) !in View(sendCases)
    {
      hide Inv, Step, Feasible, Final;
      Here(S());
      LeadsOn(S(), [], S(), Event.Unsubscribe(ch));
      es := [] + [Event.Unsubscribe(ch)];
      var done := Unsubscribe(ch);
      if !done && phase == Idle {
        LeadsOn(old(S()), es, S(), RemoveIdle(ch));
        RemoveWhenIdle(ch);
        es := es + [RemoveIdle(ch)];
      }
      Gone(S(), ch);
    }
  }

  lemma StartLeads(s: State)
    requires Inv(s) && s.phase == Idle
    ensures Enabled(s, Acquire) && Inv(Step(s, Acquire)) && Enabled(Step(s, Acquire), Merge)
    ensures Leads(s, [Acquire, Merge], Step(Step(s, Acquire), Merge))
  {
    hide Inv, Feasible, Final;
    Here(s);
    LeadsOn(s, [], s, Acquire);
    LeadsOn(s, [] + [Acquire], Step(s, Acquire), Merge);
    assert [] + [Acquire] + [Merge] == [Acquire, Merge];
  }

  /** A subscription that is neither live nor leaving is in no list. */
  lemma Gone(s: State, ch: nat)
    requires Inv(s)
    ensures ch !in s.live && ch !in s.leaving ==> Sub(ch) !in s.inbox && Sub(ch) !in s.sendCases
  {
  }

  lemma Here(s: State)
    requires Inv(s)
    ensures Leads(s, [], s)
  {
  }

  lemma NotLeaving(s: State, ch: nat)
    requires Inv(s) && ch in s.live
    ensures ch !in s.leaving
  {
  }

  lemma Removable(s: State, ch: nat)
    requires Inv(s) && Enabled(s, SelectRemove(ch))
    ensures Sub(ch) in s.sendCases && Inv(Step(s, SelectRemove(ch)))
    ensures var index := IndexOf(s.sendCases, Sub(ch));
            Step(s, SelectRemove(ch)) ==
              s.(sendCases := Delete(s.sendCases, index), phase := Trying(1),
                 active := if index < s.active then s.active - 1 else s.active,
                 leaving := s.leaving - {ch}, current := s.current.(removed := s.current.removed + {ch}))
  {
    hide Inv, Delete, IndexOf;
    StepInv(s, SelectRemove(ch));
    Leaving(s, ch);
  }

  lemma LogComplete(s: State)
    requires Inv(s)
    ensures forall r | r in s.log :: Complete(r)
  {
  }

  lemma Leaving(s: State, ch: nat)
    requires Inv(s) && ch in s.leaving
    ensures Sub(ch) in s.sendCases
  {
  }

  /** The case tried or picked is a subscriber's. */
  lemma Target(s: State, i: nat)
    requires Inv(s) && Sending(s) && i < s.active && (s.phase == Trying(i) || 1 <= i)
    ensures 1 <= i && s.active <= |s.sendCases| && s.sendCases[i].Sub? && At(s.sendCases, i, s.sendCases[i].ch)
  {
    Deliverable(s, i);
  }

  lemma Deliverable(s: State, i: nat)
    requires Inv(s) && Sending(s) && 1 <= i < s.active
    ensures s.active <= |s.sendCases| && s.sendCases[i].Sub?
  {
    DeliverProgress(s, i);
  }

  /** The state with the token taken and the inbox merged. */
  lemma Begun(s: State)
    requires Inv(s) && s.phase == Idle
    ensures Enabled(s, Acquire) && Inv(Step(s, Acquire)) && Enabled(Step(s, Acquire), Merge)
    ensures var all := s.sendCases + s.inbox;
            var t := Step(Step(s, Acquire), Merge);
            && Inv(t)
            && t == s.(sendCases := all, inbox := [], phase := Trying(1), active := |all|,
                       current := Record(Chans(all), {}, multiset{}, 0))
  {
    hide Inv, Chans;
    StepInv(s, Acquire);
    StepInv(Step(s, Acquire), Merge);
  }
}
