/** Peer admission and its bookkeeping: the event loop of p2p/server.go together with the dialer's
    record of connected peers. */
module Admission {
  import opened Basics
  import opened Multiplex
  import D = Dial

  type ID = D.ID

  const DEFAULT_DIAL_RATIO: int := 3

  datatype Refusal = TooManyPeers | AlreadyConnected | IsSelf | UselessPeer

  /** A connection. Its origin never changes; only the trusted flag is ever set or cleared. */
  class Conn {
    const id: ID
    const inbound: bool
    const dialed: bool
    const caps: seq<Cap>
    var trusted: bool

    constructor (id: ID, inbound: bool, dialed: bool, caps: seq<Cap>)
      ensures this.id == id && this.inbound == inbound && this.dialed == dialed && this.caps == caps && !trusted
    {
      this.id, this.inbound, this.dialed, this.caps, trusted := id, inbound, dialed, caps, false;
    }
  }

  // ------------------------------------------------------------------- the limits

  /** Go's integer division truncates toward zero. */
  function Quotient(a: int, b: int): int
    requires b != 0
  {
    if a >= 0 then (if b > 0 then a / b else -(a / -b)) else (if b > 0 then -(-a / b) else -a / -b)
  }

  /** `maxDialedConns`. */
  function MaxDialed(maxPeers: int, ratio: int, noDial: bool): int {
    if noDial || maxPeers == 0 then 0
    else
      var limit := Quotient(maxPeers, if ratio == 0 then DEFAULT_DIAL_RATIO else ratio);
      if limit == 0 then 1 else limit
  }

  /** `maxInboundConns`. */
  function MaxInbound(maxPeers: int, ratio: int, noDial: bool): int { maxPeers - MaxDialed(maxPeers, ratio, noDial) }

  /** The two limits add up to the peer limit whatever the settings. They share it out, neither being
      negative, exactly if the peer limit is not negative and a negative ratio exceeds it in size;
      no peers are dialed exactly if dialing is off or no peers are allowed; and otherwise the share that is
      dialed is the peer limit divided by the ratio, rounded down but at least one. */
  lemma LimitsShareOut(maxPeers: int, ratio: int, noDial: bool)
    ensures MaxInbound(maxPeers, ratio, noDial) + MaxDialed(maxPeers, ratio, noDial) == maxPeers
    ensures 0 <= MaxInbound(maxPeers, ratio, noDial) && 0 <= MaxDialed(maxPeers, ratio, noDial) <==>
            0 <= maxPeers && (noDial || maxPeers == 0 || ratio >= 0 || maxPeers < -ratio)
    ensures MaxDialed(maxPeers, ratio, noDial) == 0 <==> noDial || maxPeers == 0
    ensures maxPeers > 0 && ratio >= 0 && !noDial ==>
              var d, r := MaxDialed(maxPeers, ratio, noDial), if ratio == 0 then 3 else ratio;
              if maxPeers < r then d == 1 else d * r <= maxPeers < (d + 1) * r
  {
    hide Quotient;
    if maxPeers > 0 {
      if ratio >= 0 {
        QuotientBound(maxPeers, if ratio == 0 then DEFAULT_DIAL_RATIO else ratio);
      } else {
        QuotientSign(maxPeers, -ratio);
      }
    }
  }

  lemma QuotientSign(a: int, b: int)
    requires a > 0 && b > 0
    ensures Quotient(a, -b) <= 0 && (Quotient(a, -b) == 0 <==> a < b)
  {
    if a >= b { AtLeastOne(a, b); } else { assert a / b == 0; }
  }

  lemma AtLeastOne(a: int, b: int)
    requires a >= b > 0
    ensures a / b >= 1
  {
    if a / b <= 0 { TimesAtMost(a / b, b); }
  }

  lemma TimesAtMost(q: int, b: int)
    requires q <= 0 && b > 0
    ensures q * b <= 0
  {
  }

  lemma QuotientBound(a: int, b: int)
    requires a > 0 && b > 0
    ensures 0 <= Quotient(a, b) <= a && Quotient(a, b) * b <= a < (Quotient(a, b) + 1) * b
    ensures Quotient(a, b) == 0 <==> a < b
  {
    var q := a / b;
    assert a == q * b + a % b;
    assert (q + 1) * b == q * b + b;
    TimesAtLeast(q, b);
    if q >= 1 { TimesAtLeast(b, q); }
  }

  lemma TimesAtLeast(q: int, b: int)
    requires q >= 0 && b > 0
    ensures q * b >= q
  {
  }

  // ------------------------------------------------------------------- useful peers

  function MatchesOf(ps: seq<Protocol>, c: Cap): nat {
    if ps == [] then 0 else MatchesOf(ps[..|ps| - 1], c) + Ones(CapOf(ps[|ps| - 1]) == c)
  }

  function Matches(ps: seq<Protocol>, cs: seq<Cap>): nat {
    if cs == [] then 0 else Matches(ps, cs[..|cs| - 1]) + MatchesOf(ps, cs[|cs| - 1])
  }

  /** `countMatchingProtocols`. */
  method CountMatchingProtocols(protocols: seq<Protocol>, caps: seq<Cap>) returns (n: nat)
    ensures n == Matches(protocols, caps)
    ensures n == 0 <==> MatchAll(protocols, Sort(caps)).running == map[]
  {
    n := 0;
    for i := 0 to |caps|
      invariant n == Matches(protocols, caps[..i])
    {
      assert caps[..i + 1][..i] == caps[..i];
      var before := n;
      for j := 0 to |protocols|
        invariant n == before + MatchesOf(protocols[..j], caps[i])
      {
        assert protocols[..j + 1][..j] == protocols[..j];
        if CapOf(protocols[j]) == caps[i] { n := n + 1; }
      }
      assert protocols[..|protocols|] == protocols;
    }
    assert caps[..|caps|] == caps;
    UselessIffNothingRuns(protocols, caps);
  }

  lemma {:induction false} MatchesOfNone(ps: seq<Protocol>, c: Cap)
    ensures MatchesOf(ps, c) == 0 <==> !Have(ps, c)
  {
    if ps != [] {
      var front, last := ps[..|ps| - 1], ps[|ps| - 1];
      MatchesOfNone(front, c);
      assert ps == front + [last];
    }
  }

  lemma {:induction false} MatchesNone(ps: seq<Protocol>, cs: seq<Cap>)
    ensures Matches(ps, cs) == 0 <==> forall c | c in cs :: !Have(ps, c)
  {
    hide FindProtocol, Have;
    if cs != [] {
      var front, last := cs[..|cs| - 1], cs[|cs| - 1];
      MatchesNone(ps, front);
      MatchesOfNone(ps, last);
      assert cs == front + [last];
      assert forall c :: c in cs <==> c in front || c == last;
    }
  }

  lemma {:induction false} NothingRuns(ps: seq<Protocol>, cs: seq<Cap>)
    ensures MatchAll(ps, cs).running == map[] <==> forall c | c in cs :: !Have(ps, c)
  {
    hide FindProtocol, Have;
    if cs != [] {
      var front, last := cs[..|cs| - 1], cs[|cs| - 1];
      NothingRuns(ps, front);
      FoundIfHad(ps, last);
      assert cs == front + [last];
      assert forall c :: c in cs <==> c in front || c == last;
      if FindProtocol(ps, last) < |ps| { assert last.name in MatchAll(ps, cs).running; }
    }
  }

  /** A peer is turned away as useless exactly when no protocol would run with it. */
  lemma UselessIffNothingRuns(ps: seq<Protocol>, cs: seq<Cap>)
    ensures Matches(ps, cs) == 0 <==> MatchAll(ps, Sort(cs)).running == map[]
  {
    hide MatchAll, Matches, Sort, FindProtocol, Have;
    MatchesNone(ps, cs);
    NothingRuns(ps, Sort(cs));
    SortMembers(cs);
  }

  // ------------------------------------------------------------------- counting peers

  ghost function Inbound(peers: map<ID, Conn>): set<ID> { set id | id in peers && peers[id].inbound }
  ghost function Dialed(peers: map<ID, Conn>): set<ID> { set id | id in peers && peers[id].dialed }
  ghost function Flags(peers: map<ID, Conn>): map<ID, bool> { map id | id in peers :: peers[id].dialed }

  lemma Joins(peers: map<ID, Conn>, c: Conn)
    requires c.id !in peers
    ensures |Inbound(peers[c.id := c])| == |Inbound(peers)| + Ones(c.inbound)
    ensures |Dialed(peers[c.id := c])| == |Dialed(peers)| + Ones(c.dialed)
    ensures Flags(peers[c.id := c]) == Flags(peers)[c.id := c.dialed]
  {
    hide Inbound, Dialed, Flags;
    JoinsInbound(peers, c);
    JoinsDialed(peers, c);
    JoinsFlags(peers, c);
  }

  lemma JoinsFlags(peers: map<ID, Conn>, c: Conn)
    ensures Flags(peers[c.id := c]) == Flags(peers)[c.id := c.dialed]
  {
  }

  lemma JoinsInbound(peers: map<ID, Conn>, c: Conn)
    requires c.id !in peers
    ensures Inbound(peers[c.id := c]) == if c.inbound then Inbound(peers) + {c.id} else Inbound(peers)
    ensures c.id !in Inbound(peers)
  {
  }

  lemma JoinsDialed(peers: map<ID, Conn>, c: Conn)
    requires c.id !in peers
    ensures Dialed(peers[c.id := c]) == if c.dialed then Dialed(peers) + {c.id} else Dialed(peers)
    ensures c.id !in Dialed(peers)
  {
  }

  lemma Leaves(peers: map<ID, Conn>, id: ID)
    requires id in peers
    ensures Inbound(peers - {id}) == Inbound(peers) - {id}
    ensures |Inbound(peers - {id})| == |Inbound(peers)| - Ones(peers[id].inbound)
    ensures |Dialed(peers - {id})| == |Dialed(peers)| - Ones(peers[id].dialed)
    ensures Flags(peers - {id}) == Flags(peers) - {id}
  {
    assert Inbound(peers - {id}) == Inbound(peers) - {id};
    assert Dialed(peers - {id}) == Dialed(peers) - {id};
    assert id in Inbound(peers) <==> peers[id].inbound;
    assert id in Dialed(peers) <==> peers[id].dialed;
    assert Flags(peers - {id}) == Flags(peers) - {id};
    hide Inbound, Dialed, Flags;
  }

  // ------------------------------------------------------------------- the server

  /** What the server's loop can select, and the dialer's own turns in between. */
  datatype Event =
    | Trust(id: ID)
    | Distrust(id: ID)
    | Handshake(id: ID, inbound: bool, dialed: bool, caps: seq<Cap>)
    | Add(k: nat)
    | Drop(id: ID)
    | Dialer(e: D.Event)

  /** Room under the two limits, for the peers admitted without trust. */
  ghost predicate WithinLimits(all: set<ID>, inbound: set<ID>, untrusted: set<ID>, maxPeers: int, maxInbound: int) {
    && untrusted <= all && inbound <= all
    && |untrusted| <= Max(0, maxPeers)
    && |untrusted * inbound| <= Max(0, maxInbound)
  }

  lemma TrustedJoins(all: set<ID>, inbound: set<ID>, untrusted: set<ID>, maxPeers: int, maxInbound: int, x: ID)
    requires WithinLimits(all, inbound, untrusted, maxPeers, maxInbound) && x !in all
    ensures WithinLimits(all + {x}, inbound, untrusted, maxPeers, maxInbound)
    ensures WithinLimits(all + {x}, inbound + {x}, untrusted, maxPeers, maxInbound)
  {
    assert untrusted * (inbound + {x}) == untrusted * inbound;
  }

  lemma UntrustedJoins(all: set<ID>, inbound: set<ID>, untrusted: set<ID>, maxPeers: int, maxInbound: int, x: ID)
    requires WithinLimits(all, inbound, untrusted, maxPeers, maxInbound) && x !in all && |all| < maxPeers
    ensures WithinLimits(all + {x}, inbound, untrusted + {x}, maxPeers, maxInbound)
    ensures |inbound| < maxInbound ==> WithinLimits(all + {x}, inbound + {x}, untrusted + {x}, maxPeers, maxInbound)
  {
    SubsetSize(untrusted, all);
    SubsetSize(untrusted * inbound, inbound);
    assert (untrusted + {x}) * inbound == untrusted * inbound;
    assert (untrusted + {x}) * (inbound + {x}) == untrusted * inbound + {x};
  }

  lemma LeavesWithin(all: set<ID>, inbound: set<ID>, untrusted: set<ID>, maxPeers: int, maxInbound: int, x: ID)
    requires WithinLimits(all, inbound, untrusted, maxPeers, maxInbound)
    ensures WithinLimits(all - {x}, inbound - {x}, untrusted - {x}, maxPeers, maxInbound)
  {
    SubsetSize(untrusted - {x}, untrusted);
    SubsetSize((untrusted - {x}) * (inbound - {x}), untrusted * inbound);
  }

  /** The launched peers are exactly the values of `peers`, one for each ID. */
  ghost predicate Launched(peers: map<ID, Conn>, running: set<Conn>) {
    && (forall id :: id in peers ==> peers[id] in running && peers[id].id == id)
    && (forall c :: c in running ==> c.id in peers && peers[c.id] == c)
  }

  /** The server's peers and counter, who is running, who was admitted untrusted, and the dialer's record. */
  datatype Roll = Roll(
    peers: map<ID, Conn>, inboundCount: int, running: set<Conn>, untrusted: set<ID>,
    dialerPeers: map<ID, bool>, dialPeers: int)

  ghost predicate Exact(r: Roll, maxPeers: int, maxInbound: int) {
    && r.inboundCount == |Inbound(r.peers)|
    && r.dialPeers == |Dialed(r.peers)|
    && r.dialerPeers == Flags(r.peers)
    && Launched(r.peers, r.running)
    && WithinLimits(r.peers.Keys, Inbound(r.peers), r.untrusted, maxPeers, maxInbound)
  }

  ghost function Joined(r: Roll, c: Conn, trusted: bool): Roll {
    Roll(r.peers[c.id := c], r.inboundCount + Ones(c.inbound), r.running + {c},
         if trusted then r.untrusted else r.untrusted + {c.id},
         r.dialerPeers[c.id := c.dialed], r.dialPeers + Ones(c.dialed))
  }

  ghost function Left(r: Roll, c: Conn): Roll {
    Roll(r.peers - {c.id}, r.inboundCount - Ones(c.inbound), r.running - {c}, r.untrusted - {c.id},
         r.dialerPeers - {c.id}, r.dialPeers - Ones(c.dialed))
  }

  lemma JoinedExact(r: Roll, c: Conn, trusted: bool, maxPeers: int, maxInbound: int)
    requires Exact(r, maxPeers, maxInbound) && c.id !in r.peers
    requires trusted || (|r.peers| < maxPeers && (c.inbound ==> r.inboundCount < maxInbound))
    ensures Exact(Joined(r, c, trusted), maxPeers, maxInbound)
  {
    hide Inbound, Dialed, Flags, WithinLimits, Launched;
    Joins(r.peers, c);
    JoinsWithin(r.peers, r.untrusted, c, trusted, maxPeers, maxInbound);
    LaunchedJoins(r.peers, r.running, c);
  }

  lemma JoinsWithin(peers: map<ID, Conn>, untrusted: set<ID>, c: Conn, trusted: bool, maxPeers: int, maxInbound: int)
    requires WithinLimits(peers.Keys, Inbound(peers), untrusted, maxPeers, maxInbound) && c.id !in peers
    requires trusted || (|peers| < maxPeers && (c.inbound ==> |Inbound(peers)| < maxInbound))
    ensures var after := peers[c.id := c];
            WithinLimits(after.Keys, Inbound(after), if trusted then untrusted else untrusted + {c.id}, maxPeers,
                         maxInbound)
  {
    hide Inbound, WithinLimits;
    JoinsInbound(peers, c);
    assert peers[c.id := c].Keys == peers.Keys + {c.id} && |peers.Keys| == |peers|;
    if trusted {
      TrustedJoins(peers.Keys, Inbound(peers), untrusted, maxPeers, maxInbound, c.id);
    } else {
      UntrustedJoins(peers.Keys, Inbound(peers), untrusted, maxPeers, maxInbound, c.id);
    }
  }

  lemma LaunchedJoins(peers: map<ID, Conn>, running: set<Conn>, c: Conn)
    requires Launched(peers, running) && c.id !in peers
    ensures Launched(peers[c.id := c], running + {c})
  {
  }

  lemma LeftExact(r: Roll, c: Conn, maxPeers: int, maxInbound: int)
    requires Exact(r, maxPeers, maxInbound) && c in r.running
    ensures Exact(Left(r, c), maxPeers, maxInbound)
  {
    hide Inbound, Dialed, Flags, WithinLimits, Launched;
    LaunchedLeaves(r.peers, r.running, c);
    Leaves(r.peers, c.id);
    assert (r.peers - {c.id}).Keys == r.peers.Keys - {c.id};
    LeavesWithin(r.peers.Keys, Inbound(r.peers), r.untrusted, maxPeers, maxInbound, c.id);
  }

  lemma LaunchedLeaves(peers: map<ID, Conn>, running: set<Conn>, c: Conn)
    requires Launched(peers, running) && c in running
    ensures c.id in peers && peers[c.id] == c && Launched(peers - {c.id}, running - {c})
  {
  }

  // ------------------------------------------------------------------- what the messages do

  datatype Rules = Rules(self: ID, maxPeers: int, maxInbound: int, protocols: seq<Protocol>)

  /** What the messages are about: the peers, the trusted nodes, the connections between their two checkpoints, those
      that carry the trusted flag, and the dialer's static nodes. */
  datatype Desk = Desk(peers: map<ID, Conn>, trusted: set<ID>, pending: seq<Conn>, flagged: set<Conn>, statics: set<ID>)

  ghost function Flagged(cs: set<Conn>): set<Conn> reads cs { set c | c in cs && c.trusted }

  /** A connection is admitted if it is trusted or there is room, it is new and not our own, and there is
      something to talk about. */
  ghost predicate Admits(rules: Rules, peers: map<ID, Conn>, flagged: set<Conn>, c: Conn) {
    && (c in flagged || (|peers| < rules.maxPeers && (c.inbound ==> |Inbound(peers)| < rules.maxInbound)))
    && c.id !in peers && c.id != rules.self
    && (rules.protocols == [] || exists cap :: cap in c.caps && Have(rules.protocols, cap))
  }

  ghost predicate Effect(rules: Rules, d: Desk, e: Event, t: Desk) {
    match e
    case Trust(id) =>
      t == d.(trusted := d.trusted + {id}, flagged := d.flagged + if id in d.peers then {d.peers[id]} else {})
    case Distrust(id) =>
      t == d.(trusted := d.trusted - {id}, flagged := d.flagged - if id in d.peers then {d.peers[id]} else {})
    case Handshake(id, inbound, dialed, caps) =>
      && |t.pending| == |d.pending| + 1
      && var c := t.pending[|d.pending|];
         && c.id == id && c.inbound == inbound && c.dialed == dialed && c.caps == caps && c !in d.flagged
         && t == d.(pending := d.pending + [c], flagged := d.flagged + if id in d.trusted then {c} else {})
    case Add(k) =>
      if k >= |d.pending| then t == d
      else
        var c, rest := d.pending[k], d.pending[..k] + d.pending[k + 1..];
        t == d.(pending := rest,
                peers := if Admits(rules, d.peers, d.flagged, c) then d.peers[c.id := c] else d.peers)
    case Drop(id) => t == d.(peers := d.peers - {id})
    case Dialer(x) => t == d.(statics := D.WithStatic(d.statics, x))
  }

  lemma SomethingRuns(ps: seq<Protocol>, cs: seq<Cap>)
    ensures MatchAll(ps, Sort(cs)).running != map[] <==> exists cap :: cap in cs && Have(ps, cap)
  {
    hide MatchAll, Sort, Have;
    NothingRuns(ps, Sort(cs));
    SortMembers(cs);
  }

  lemma NotAboutPeers(peers: map<ID, bool>, n: int, statics: set<ID>, e: D.Event)
    ensures !e.PeerAdded? && !e.PeerRemoved? ==> D.WithPeer(peers, e) == peers && D.Counted(n, e) == n
    ensures e.PeerAdded? || e.PeerRemoved? ==> D.WithStatic(statics, e) == statics
  {
  }

  lemma DialerEffect(rules: Rules, d: Desk, e: D.Event, t: Desk)
    requires t == d.(statics := D.WithStatic(d.statics, e))
    ensures Effect(rules, d, Dialer(e), t)
  {
  }

  class Server {
    const self: ID
    const maxPeers: int
    const dialRatio: int
    const noDial: bool
    const protocols: seq<Protocol>
    const dialsched: D.DialScheduler
    var peers: map<ID, Conn>
    var inboundCount: int
    var trusted: set<ID>
    /** Connections between their two checkpoints. */
    var pending: seq<Conn>
    /** Every connection so far, the peers whose goroutine is running, and the current peers that were admitted
        untrusted. */
    ghost var conns: set<Conn>
    ghost var running: set<Conn>
    ghost var untrusted: set<ID>

    ghost function Books(): Roll reads this, dialsched {
      Roll(peers, inboundCount, running, untrusted, dialsched.peers, dialsched.dialPeers)
    }

    ghost function Now(): Desk reads this, conns, dialsched {
      Desk(peers, trusted, pending, Flagged(conns), dialsched.statics.Keys)
    }

    ghost function Limits(): Rules reads this {
      Rules(self, maxPeers, MaxInbound(maxPeers, dialRatio, noDial), protocols)
    }

    ghost predicate Valid() reads this, dialsched, dialsched.history, dialsched.tasks {
      && dialsched.Valid()
      && Exact(Books(), maxPeers, MaxInbound(maxPeers, dialRatio, noDial))
      && running <= conns && (forall c :: c in pending ==> c in conns)
    }

    constructor (self: ID, maxPeers: int, dialRatio: int, noDial: bool, protocols: seq<Protocol>, trusted: set<ID>,
                 dialsched: D.DialScheduler)
      requires dialsched.Valid() && dialsched.peers == map[] && dialsched.dialPeers == 0
      ensures Valid() && conns == {} && peers == map[] && this.dialsched == dialsched
    {
      this.self, this.maxPeers, this.dialRatio, this.noDial := self, maxPeers, dialRatio, noDial;
      this.protocols, this.trusted, this.dialsched := protocols, trusted, dialsched;
      peers, inboundCount, pending := map[], 0, [];
      conns, running, untrusted := {}, {}, {};
    }

    /** An untrusted connection finds no room. */
    ghost predicate Full(c: Conn) reads this, c {
      !c.trusted && (|peers| >= maxPeers || (c.inbound && inboundCount >= MaxInbound(maxPeers, dialRatio, noDial)))
    }

    /** `postHandshakeChecks`: a connection is refused for the first reason that applies. */
    method PostHandshakeChecks(c: Conn) returns (r: Option<Refusal>)
      ensures r == None <==>
        && !Full(c) && c.id !in peers && c.id != self
        && (protocols == [] || MatchAll(protocols, Sort(c.caps)).running != map[])
      ensures r == Some(TooManyPeers) <==> Full(c)
      ensures r == Some(AlreadyConnected) <==> !Full(c) && c.id in peers
      ensures r == Some(IsSelf) <==> !Full(c) && c.id !in peers && c.id == self
      ensures r == Some(UselessPeer) <==>
        && !Full(c) && c.id !in peers && c.id != self
        && protocols != [] && MatchAll(protocols, Sort(c.caps)).running == map[]
    {
      if !c.trusted && |peers| >= maxPeers { return Some(TooManyPeers); }
      if !c.trusted && c.inbound && inboundCount >= MaxInbound(maxPeers, dialRatio, noDial) {
        return Some(TooManyPeers);
      }
      if c.id in peers { return Some(AlreadyConnected); }
      if c.id == self { return Some(IsSelf); }
      if |protocols| > 0 {
        var n := CountMatchingProtocols(protocols, c.caps);
        if n == 0 { return Some(UselessPeer); }
      }
      return None;
    }

    /** checkpointAddPeer. */
    method OnAdd(c: Conn) returns (r: Option<Refusal>)
      requires Valid() && c in conns
      modifies this`peers, this`inboundCount, this`running, this`untrusted
      modifies dialsched`dialPeers, dialsched`peers, dialsched`staticPool, dialsched.tasks`staticPoolIndex
      ensures Valid()
      ensures r == Some(TooManyPeers) <==> old(Full(c))
      ensures r == Some(AlreadyConnected) <==> !old(Full(c)) && c.id in old(peers)
      ensures r == Some(IsSelf) <==> !old(Full(c)) && c.id !in old(peers) && c.id == self
      ensures r == Some(UselessPeer) <==>
        && !old(Full(c)) && c.id !in old(peers) && c.id != self
        && protocols != [] && MatchAll(protocols, Sort(c.caps)).running == map[]
      ensures r == None <==> old(Admits(Limits(), peers, Flagged(conns), c))
      ensures Books() == if r == None then Joined(old(Books()), c, c.trusted) else old(Books())
    {
      hide Exact, MatchAll, MaxInbound, D.DialScheduler.Valid, Admits, Flagged, Sort;
      Checked(c);
      r := PostHandshakeChecks(c);
      if r == None {
        JoinedExact(Books(), c, c.trusted, maxPeers, MaxInbound(maxPeers, dialRatio, noDial));
        Launch(c);
      }
    }

    /** The four reasons are all there is. */
    lemma Checked(c: Conn)
      requires Valid() && c in conns
      ensures Admits(Limits(), peers, Flagged(conns), c) <==>
                && !Full(c) && c.id !in peers && c.id != self
                && (protocols == [] || MatchAll(protocols, Sort(c.caps)).running != map[])
    {
      hide D.DialScheduler.Valid, WithinLimits, Inbound, Launched, MaxInbound, MatchAll, Sort, Have;
      SomethingRuns(protocols, c.caps);
    }

    method Launch(c: Conn)
      requires dialsched.Valid()
      modifies this`peers, this`inboundCount, this`running, this`untrusted
      modifies dialsched`dialPeers, dialsched`peers, dialsched`staticPool, dialsched.tasks`staticPoolIndex
      ensures dialsched.Valid() && Books() == Joined(old(Books()), c, c.trusted)
    {
      hide D.DialScheduler.Valid;
      peers := peers[c.id := c];
      running := running + {c};
      if !c.trusted { untrusted := untrusted + {c.id}; }
      dialsched.OnPeerAdded(c.id, c.dialed);
      if c.inbound { inboundCount := inboundCount + 1; }
    }

    /** delpeer: a peer's goroutine has ended. */
    method OnDrop(c: Conn)
      requires Valid() && c in running
      modifies this`peers, this`inboundCount, this`running, this`untrusted
      modifies dialsched`dialPeers, dialsched`peers, dialsched`staticPool, dialsched.tasks`staticPoolIndex
      ensures Valid() && Books() == Left(old(Books()), c)
    {
      hide Exact, MaxInbound, D.DialScheduler.Valid;
      LeftExact(Books(), c, maxPeers, MaxInbound(maxPeers, dialRatio, noDial));
      peers := peers - {c.id};
      running := running - {c};
      untrusted := untrusted - {c.id};
      dialsched.OnPeerRemoved(c.id, c.dialed);
      if c.inbound { inboundCount := inboundCount - 1; }
    }

    /** addtrusted and removetrusted: a current peer's flag follows. */
    method OnTrust(id: ID, on: bool)
      requires Valid()
      modifies this`trusted, conns`trusted
      ensures Valid() && trusted == (if on then old(trusted) + {id} else old(trusted) - {id})
      ensures id in peers ==> peers[id].trusted == on
      ensures forall c :: c in conns && (id !in peers || c != peers[id]) ==> c.trusted == old(c.trusted)
      ensures var c := if id in peers then {peers[id]} else {};
              Flagged(conns) == if on then old(Flagged(conns)) + c else old(Flagged(conns)) - c
      ensures Effect(Limits(), old(Now()), if on then Trust(id) else Distrust(id), Now())
    {
      hide Exact, MaxInbound, D.DialScheduler.Valid, Flagged;
      trusted := if on then trusted + {id} else trusted - {id};
      if id in peers {
        PeerIsConn(id);
        SetTrusted(peers[id], on);
      }
    }

    lemma PeerIsConn(id: ID)
      requires Valid() && id in peers
      ensures peers[id] in conns
    {
      hide MaxInbound, WithinLimits, Inbound, Dialed, Flags, D.DialScheduler.Valid;
    }

    method SetTrusted(c: Conn, on: bool)
      requires c in conns
      modifies c`trusted
      ensures c.trusted == on
      ensures Flagged(conns) == if on then old(Flagged(conns)) + {c} else old(Flagged(conns)) - {c}
    {
      c.trusted := on;
    }

    /** checkpointPostHandshake, for a new connection. */
    method OnHandshake(id: ID, inbound: bool, dialed: bool, caps: seq<Cap>)
      requires Valid()
      modifies this`pending, this`conns
      ensures Valid() && |pending| == old(|pending|) + 1 && old(pending) <= pending
      ensures fresh(conns - old(conns)) && old(conns) <= conns
      ensures var c := pending[old(|pending|)];
              && fresh(c) && conns == old(conns) + {c} && pending == old(pending) + [c]
              && c.id == id && c.inbound == inbound && c.dialed == dialed && c.caps == caps
              && (c.trusted <==> id in trusted)
              && c !in old(Flagged(conns))
              && Flagged(conns) == old(Flagged(conns)) + if id in trusted then {c} else {}
      ensures Effect(Limits(), old(Now()), Handshake(id, inbound, dialed, caps), Now())
    {
      hide Exact, MaxInbound, D.DialScheduler.Valid;
      var c := new Conn(id, inbound, dialed, caps);
      if id in trusted { c.trusted := true; }
      conns := conns + {c};
      pending := pending + [c];
    }

    /** The connection, if there is one, leaves the waiting ones and is checked. */
    method AddNext(k: nat)
      requires Valid()
      modifies this`pending, this`peers, this`inboundCount, this`running, this`untrusted
      modifies dialsched`dialPeers, dialsched`peers, dialsched`staticPool, dialsched.tasks`staticPoolIndex
      ensures Valid() && Effect(Limits(), old(Now()), Add(k), Now())
    {
      hide Exact, MatchAll, MaxInbound, D.DialScheduler.Valid, Admits, Flagged, Sort;
      if k >= |pending| { return; }
      var c := pending[k];
      assert c in pending;
      pending := pending[..k] + pending[k + 1..];
      var r := OnAdd(c);
    }

    /** A message that a peer has ended comes only from a peer. */
    method DropNext(id: ID)
      requires Valid()
      modifies this`peers, this`inboundCount, this`running, this`untrusted
      modifies dialsched`dialPeers, dialsched`peers, dialsched`staticPool, dialsched.tasks`staticPoolIndex
      ensures Valid() && Effect(Limits(), old(Now()), Drop(id), Now())
    {
      hide MaxInbound, WithinLimits, Inbound, Dialed, Flags, D.DialScheduler.Valid, Flagged;
      if id in peers {
        OnDrop(peers[id]);
      } else {
        assert peers - {id} == peers;
      }
    }

    /** The dialer hears of peers only from the server. */
    method DialerTurn(e: D.Event)
      requires Valid()
      modifies dialsched, dialsched.history, dialsched.tasks
      ensures Valid() && Effect(Limits(), old(Now()), Dialer(e), Now())
      ensures fresh(dialsched.tasks - old(dialsched.tasks)) && old(dialsched.tasks) <= dialsched.tasks
    {
      hide MaxInbound, Exact, D.DialScheduler.Valid, Flagged, Effect, D.WithPeer, D.Counted, D.WithStatic, D.Ids;
      ghost var d := Now();
      NotAboutPeers(dialsched.peers, dialsched.dialPeers, dialsched.statics.Keys, e);
      if !e.PeerAdded? && !e.PeerRemoved? { dialsched.Turn(e); }
      DialerEffect(Limits(), d, e, Now());
    }

    /** One round of the loop; a message that nobody can be sending is passed over. */
    method Round(event: Event)
      requires Valid()
      modifies this, conns, dialsched, dialsched.history, dialsched.tasks
      ensures Valid() && fresh(conns - old(conns)) && old(conns) <= conns
      ensures fresh(dialsched.tasks - old(dialsched.tasks)) && old(dialsched.tasks) <= dialsched.tasks
      ensures Effect(Limits(), old(Now()), event, Now())
    {
      hide Valid, Effect;
      match event
      case Trust(id) =>
        OnTrust(id, true);
      case Distrust(id) =>
        OnTrust(id, false);
      case Handshake(id, inbound, dialed, caps) =>
        OnHandshake(id, inbound, dialed, caps);
      case Add(k) =>
        AddNext(k);
      case Drop(id) =>
        DropNext(id);
      case Dialer(e) =>
        DialerTurn(e);
    }

    /** `run`, over any sequence of messages and dialer turns: the counters are exact and the limits hold
        for everyone who was not trusted when admitted. */
    method Run(events: seq<Event>) returns (ghost desks: seq<Desk>)
      requires Valid()
      modifies this, conns, dialsched, dialsched.history, dialsched.tasks
      ensures Valid()
      ensures |desks| == |events| + 1 && desks[0] == old(Now()) && desks[|events|] == Now()
      ensures forall i | 0 <= i < |events| :: Effect(Limits(), desks[i], events[i], desks[i + 1])
      ensures inboundCount == |Inbound(peers)|
      ensures dialsched.peers == Flags(peers) && dialsched.dialPeers == |Dialed(peers)|
      ensures untrusted <= peers.Keys && |untrusted| <= Max(0, maxPeers)
      ensures |untrusted * Inbound(peers)| <= Max(0, MaxInbound(maxPeers, dialRatio, noDial))
      ensures dialsched.Safe()
    {
      hide D.DialScheduler.Safe, MaxInbound, Inbound, Dialed, Flags, Valid, Effect, Now;
      desks := [Now()];
      for i := 0 to |events|
        invariant Valid() && fresh(conns - old(conns)) && old(conns) <= conns
        invariant fresh(dialsched.tasks - old(dialsched.tasks)) && old(dialsched.tasks) <= dialsched.tasks
        invariant |desks| == i + 1 && desks[0] == old(Now()) && desks[i] == Now()
        invariant forall k | 0 <= k < i :: Effect(Limits(), desks[k], events[k], desks[k + 1])
      {
        hide Valid, Effect, Now, Limits;
        Round(events[i]);
        desks := desks + [Now()];
      }
      Promises();
    }

    lemma Promises()
      requires Valid()
      ensures inboundCount == |Inbound(peers)|
      ensures dialsched.peers == Flags(peers) && dialsched.dialPeers == |Dialed(peers)|
      ensures untrusted <= peers.Keys && |untrusted| <= Max(0, maxPeers)
      ensures |untrusted * Inbound(peers)| <= Max(0, MaxInbound(maxPeers, dialRatio, noDial))
      ensures dialsched.Safe()
    {
      hide D.DialScheduler.Valid, D.DialScheduler.Safe, MaxInbound, Inbound, Dialed, Flags;
      dialsched.ValidIsSafe();
    }
  }
}
