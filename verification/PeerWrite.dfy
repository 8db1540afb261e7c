/** The goroutines of one peer (p2p/peer.go): `Peer.run`, `readLoop`, `pingLoop`, one goroutine per
    running protocol, and any number of callers of `protoRW.WriteMsg`. A step is one channel
    operation or one end of a piece of work outside the model; a run is any interleaving of steps.
    Pings and pongs bypass the write token and are not writers here. */
module PeerWrite {
  import opened Basics

  /** Where a caller of WriteMsg is. `failed` says whether the underlying write returned an error. */
  datatype Writer = Waiting | Writing | Reporting(failed: bool)

  /** `run` sits before its first send, in its select, between a good result and passing the token
      on, past the loop, or past `close(p.closed)`. */
  datatype Phase = Starting | Selecting | Passing | Leaving | Closed

  datatype Reader = Reading | ReadFailed | ReadSent
  datatype Pinger = Pinging | PingFailed | PingSent | PingQuit
  datatype Handler = Unborn | Running | Returned | Done

  /** What made `run` leave its loop. */
  datatype Cause = NoCause | WriteError | ReadError | ProtocolError | Disconnect

  /** The writes so far: when each began and how it ended. */
  datatype Entry = Began(w: nat) | Ended(w: nat, failed: bool)

  datatype State = State(
    writeStart: nat,
    writeErr: seq<bool>,
    readErr: nat,
    protoErr: nat,
    run: Phase,
    cause: Cause,
    reader: Reader,
    pinger: Pinger,
    handlers: seq<Handler>,
    writers: map<nat, Writer>,
    log: seq<Entry>)

  datatype Event =
    | Start
    | TakeResult
    | PassToken
    | TakeReadErr
    | TakeProtoErr
    | TakeDisc
    | Close
    | ReadFails
    | SendReadErr
    | PingFails
    | SendPingErr
    | PingQuits
    | Returns(i: nat)
    | SendProtoErr(i: nat)
    | Call(w: nat)
    | Begin(w: nat)
    | Finish(w: nat, failed: bool)
    | Report(w: nat)
    | GiveUp(w: nat)

  function Init(n: nat): State {
    State(0, [], 0, 0, Starting, NoCause, Reading, Pinging, seq(n, _ => Unborn), map[], [])
  }

  // ------------------------------------------------------------------- the steps

  /** The goroutine concerned is at this step, and what the step waits to receive is there. */
  predicate Ready(s: State, e: Event) {
    match e
    case Start => s.run == Starting
    case TakeResult => s.run == Selecting && s.writeErr != []
    case PassToken => s.run == Passing
    case TakeReadErr => s.run == Selecting && s.readErr > 0
    case TakeProtoErr => s.run == Selecting && s.protoErr > 0
    case TakeDisc => s.run == Selecting
    case Close => s.run == Leaving
    case ReadFails => s.reader == Reading
    case SendReadErr => s.reader == ReadFailed
    case PingFails => s.pinger == Pinging
    case SendPingErr => s.pinger == PingFailed
    case PingQuits => s.pinger == Pinging && s.run == Closed
    case Returns(i) => i < |s.handlers| && s.handlers[i] == Running
    case SendProtoErr(i) => i < |s.handlers| && s.handlers[i] == Returned
    case Call(w) => s.run != Starting && w !in s.writers
    case Begin(w) => w in s.writers && s.writers[w] == Waiting && s.writeStart > 0
    case Finish(w, _) => w in s.writers && s.writers[w] == Writing
    case Report(w) => w in s.writers && s.writers[w].Reporting?
    case GiveUp(w) => w in s.writers && s.writers[w] == Waiting && s.run == Closed
  }

  /** A send finds room in its channel; the capacities are those of `run` and `newPeer`. */
  predicate Room(s: State, e: Event) {
    match e
    case Start => s.writeStart < 1
    case PassToken => s.writeStart < 1
    case Report(_) => |s.writeErr| < 1
    case SendReadErr => s.readErr < 1
    case SendPingErr => s.protoErr < |s.handlers| + 1
    case SendProtoErr(_) => s.protoErr < |s.handlers| + 1
    case _ => true
  }

  predicate Enabled(s: State, e: Event) { Ready(s, e) && Room(s, e) }

  function Step(s: State, e: Event): State
    requires Ready(s, e)
  {
    match e
    case Start => s.(writeStart := s.writeStart + 1, run := Selecting, handlers := seq(|s.handlers|, _ => Running))
    case TakeResult =>
      var t := s.(writeErr := s.writeErr[1..]);
      if s.writeErr[0] then t.(run := Leaving, cause := WriteError) else t.(run := Passing)
    case PassToken => s.(writeStart := s.writeStart + 1, run := Selecting)
    case TakeReadErr => s.(readErr := s.readErr - 1, run := Leaving, cause := ReadError)
    case TakeProtoErr => s.(protoErr := s.protoErr - 1, run := Leaving, cause := ProtocolError)
    case TakeDisc => s.(run := Leaving, cause := Disconnect)
    case Close => s.(run := Closed)
    case ReadFails => s.(reader := ReadFailed)
    case SendReadErr => s.(readErr := s.readErr + 1, reader := ReadSent)
    case PingFails => s.(pinger := PingFailed)
    case SendPingErr => s.(protoErr := s.protoErr + 1, pinger := PingSent)
    case PingQuits => s.(pinger := PingQuit)
    case Returns(i) => s.(handlers := s.handlers[i := Returned])
    case SendProtoErr(i) => s.(protoErr := s.protoErr + 1, handlers := s.handlers[i := Done])
    case Call(w) => s.(writers := s.writers[w := Waiting])
    case Begin(w) =>
      s.(writeStart := s.writeStart - 1, writers := s.writers[w := Writing], log := s.log + [Began(w)])
    case Finish(w, failed) =>
      s.(writers := s.writers[w := Reporting(failed)], log := s.log + [Ended(w, failed)])
    case Report(w) => s.(writeErr := s.writeErr + [s.writers[w].failed], writers := s.writers - {w})
    case GiveUp(w) => s.(writers := s.writers - {w})
  }

  // ------------------------------------------------------------------- the token

  /** The writers that hold the token. */
  ghost function Busy(ws: map<nat, Writer>): set<nat> { set w | w in ws && ws[w] != Waiting }

  /** One token: in a channel, with a writer, with `run`, or gone after a failed write. */
  ghost predicate OneToken(s: State) {
    s.writeStart + |s.writeErr| + |Busy(s.writers)|
      + Ones(s.run == Starting || s.run == Passing) + Ones(s.cause == WriteError) == 1
  }

  ghost predicate Causes(s: State) {
    (s.cause == NoCause) <==> (s.run == Starting || s.run == Selecting || s.run == Passing)
  }

  lemma Keeps(ws: map<nat, Writer>, w: nat, x: Writer)
    requires (w in ws && ws[w] != Waiting) == (x != Waiting)
    ensures Busy(ws[w := x]) == Busy(ws)
  {
  }

  lemma Takes(ws: map<nat, Writer>, w: nat, x: Writer)
    requires w in ws && ws[w] == Waiting && x != Waiting
    ensures |Busy(ws[w := x])| == |Busy(ws)| + 1
  {
    assert Busy(ws[w := x]) == Busy(ws) + {w};
  }

  lemma Gives(ws: map<nat, Writer>, w: nat)
    requires w in ws
    ensures |Busy(ws - {w})| == |Busy(ws)| - Ones(ws[w] != Waiting)
  {
    assert Busy(ws - {w}) == Busy(ws) - {w};
  }

  lemma TokenStep(s: State, e: Event)
    requires OneToken(s) && Causes(s) && Ready(s, e)
    ensures OneToken(Step(s, e)) && Causes(Step(s, e))
  {
    hide Busy;
    match e
    case Call(w) =>
      Keeps(s.writers, w, Waiting);
    case Begin(w) =>
      Takes(s.writers, w, Writing);
    case Finish(w, failed) =>
      Keeps(s.writers, w, Reporting(failed));
    case Report(w) =>
      Gives(s.writers, w);
    case GiveUp(w) =>
      Gives(s.writers, w);
    case _ =>
  }

  /** With one token, a busy writer is the only one. */
  lemma OnlyBusy(s: State, w: nat)
    requires OneToken(s) && w in s.writers && s.writers[w] != Waiting
    ensures s.writeStart == 0 && s.writeErr == [] && s.run != Starting && s.run != Passing && s.cause != WriteError
    ensures forall v | v in s.writers && v != w :: s.writers[v] == Waiting
  {
    assert w in Busy(s.writers);
    forall v | v in s.writers && v != w ensures s.writers[v] == Waiting {
      if s.writers[v] != Waiting {
        assert {v, w} <= Busy(s.writers);
        SubsetSize({v, w}, Busy(s.writers));
      }
    }
  }

  // ------------------------------------------------------------------- the errors

  ghost function Finished(hs: seq<Handler>): (n: nat)
    ensures n <= |hs|
  {
    if hs == [] then 0 else Ones(hs[0] == Done) + Finished(hs[1..])
  }

  lemma {:induction false} FinishedSet(hs: seq<Handler>, i: nat, h: Handler)
    requires i < |hs| && hs[i] != Done
    ensures Finished(hs) < |hs| && Finished(hs[i := h]) == Finished(hs) + Ones(h == Done)
  {
    if i > 0 {
      FinishedSet(hs[1..], i - 1, h);
      assert hs[i := h][1..] == hs[1..][i - 1 := h];
    } else {
      assert hs[i := h][1..] == hs[1..];
    }
  }

  lemma {:induction false} NoneFinished(hs: seq<Handler>)
    requires Done !in hs
    ensures Finished(hs) == 0
  {
    if hs != [] { assert hs[0] in hs; NoneFinished(hs[1..]); }
  }

  /** Each goroutine sends its error once, and an error that `run` took is what made it leave: as long as it goes
      on, every error sent is still in its channel. */
  ghost predicate Errors(s: State) {
    && s.readErr + Ones(s.cause == ReadError) == Ones(s.reader == ReadSent)
    && s.protoErr + Ones(s.cause == ProtocolError) == Finished(s.handlers) + Ones(s.pinger == PingSent)
    && (s.run == Starting ==> forall h | h in s.handlers :: h == Unborn)
    && (s.run != Starting ==> Unborn !in s.handlers)
  }

  lemma ErrorsStep(s: State, e: Event)
    requires Errors(s) && Causes(s) && Ready(s, e)
    ensures Errors(Step(s, e))
  {
    hide Finished;
    match e
    case Start =>
      NoneFinished(s.handlers);
      NoneFinished(Step(s, e).handlers);
    case Returns(i) =>
      assert s.handlers[i] in s.handlers;
      FinishedSet(s.handlers, i, Returned);
    case SendProtoErr(i) =>
      assert s.handlers[i] in s.handlers;
      FinishedSet(s.handlers, i, Done);
    case _ =>
  }

  // ------------------------------------------------------------------- the log

  /** One write at a time, and none after a failed one. */
  ghost predicate Serial(log: seq<Entry>) {
    log == [] || (
      var front, last := log[..|log| - 1], log[|log| - 1];
      && Serial(front)
      && match last
         case Began(_) => front == [] || (front[|front| - 1].Ended? && !front[|front| - 1].failed)
         case Ended(w, _) => front != [] && front[|front| - 1] == Began(w))
  }

  /** The last entry of the log tells what the token's holder is doing. */
  ghost predicate LogFits(s: State) {
    && (forall w | w in s.writers && s.writers[w] == Writing :: s.log != [] && Last(s.log) == Began(w))
    && (forall w | w in s.writers && s.writers[w].Reporting? ::
          s.log != [] && Last(s.log) == Ended(w, s.writers[w].failed))
    && (s.writeErr != [] ==> s.log != [] && Last(s.log).Ended? && Last(s.log).failed == s.writeErr[0])
    && (s.run == Passing || s.writeStart > 0 ==> s.log == [] || (Last(s.log).Ended? && !Last(s.log).failed))
    && (s.run == Starting ==> s.log == [])
  }

  ghost function Last(log: seq<Entry>): Entry
    requires log != []
  {
    log[|log| - 1]
  }

  lemma LogStep(s: State, e: Event)
    requires OneToken(s) && LogFits(s) && Serial(s.log) && Ready(s, e)
    ensures LogFits(Step(s, e)) && Serial(Step(s, e).log)
  {
    hide OneToken, LogFits, Serial, Step, Ready;
    match e
    case Begin(w) => LogBegin(s, w);
    case Finish(w, failed) => LogFinish(s, w, failed);
    case Report(w) => LogReport(s, w);
    case TakeResult => LogResult(s);
    case _ => LogQuiet(s, e);
  }

  /** The other steps neither write nor pass a result on. */
  lemma LogQuiet(s: State, e: Event)
    requires LogFits(s) && Serial(s.log) && Ready(s, e)
    requires !e.Begin? && !e.Finish? && !e.Report? && !e.TakeResult?
    ensures LogFits(Step(s, e)) && Serial(Step(s, e).log)
  {
    hide Serial;
  }

  lemma LogResult(s: State)
    requires OneToken(s) && LogFits(s) && Serial(s.log) && Ready(s, TakeResult)
    ensures LogFits(Step(s, TakeResult)) && Serial(Step(s, TakeResult).log)
  {
    hide Serial;
    OneResult(s);
  }

  lemma OneResult(s: State)
    requires OneToken(s)
    ensures |s.writeErr| <= 1 && s.writeStart <= 1
    ensures s.writeErr != [] ==> s.writeStart == 0
  {
    hide Busy;
  }

  lemma LogReport(s: State, w: nat)
    requires OneToken(s) && LogFits(s) && Serial(s.log) && Ready(s, Report(w))
    ensures LogFits(Step(s, Report(w))) && Serial(Step(s, Report(w)).log)
  {
    hide Serial, OneToken;
    OnlyBusy(s, w);
  }

  lemma LogBegin(s: State, w: nat)
    requires OneToken(s) && LogFits(s) && Serial(s.log) && Ready(s, Begin(w))
    ensures LogFits(Step(s, Begin(w))) && Serial(Step(s, Begin(w)).log)
  {
    NoBusy(s);
    hide OneToken;
    assert Step(s, Begin(w)).log[..|s.log|] == s.log;
  }

  lemma LogFinish(s: State, w: nat, failed: bool)
    requires OneToken(s) && LogFits(s) && Serial(s.log) && Ready(s, Finish(w, failed))
    ensures LogFits(Step(s, Finish(w, failed))) && Serial(Step(s, Finish(w, failed)).log)
  {
    OnlyBusy(s, w);
    hide OneToken;
    assert Step(s, Finish(w, failed)).log[..|s.log|] == s.log;
  }

  lemma NoBusy(s: State)
    requires OneToken(s) && s.writeStart > 0
    ensures forall w | w in s.writers :: s.writers[w] == Waiting
    ensures s.writeErr == [] && s.run != Passing
  {
    forall w | w in s.writers ensures s.writers[w] == Waiting {
      if s.writers[w] != Waiting { OnlyBusy(s, w); }
    }
  }

  // ------------------------------------------------------------------- all runs

  ghost predicate Inv(s: State) { OneToken(s) && Causes(s) && Errors(s) && LogFits(s) && Serial(s.log) }

  lemma InitInv(n: nat)
    ensures Inv(Init(n))
  {
    NoneFinished(Init(n).handlers);
    assert Busy(map[]) == {};
  }

  lemma StepInv(s: State, e: Event)
    requires Inv(s) && Ready(s, e)
    ensures Inv(Step(s, e))
  {
    hide OneToken, Causes, Errors, LogFits, Serial, Step;
    TokenStep(s, e);
    ErrorsStep(s, e);
    LogStep(s, e);
  }

  /** The run es can be taken from s: every step is at hand and no send has to wait. */
  ghost predicate Feasible(s: State, es: seq<Event>)
    decreases |es|
  {
    es == [] || (Enabled(s, es[0]) && Feasible(Step(s, es[0]), es[1..]))
  }

  ghost function Final(s: State, es: seq<Event>): State
    requires Feasible(s, es)
    decreases |es|
  {
    if es == [] then s else Final(Step(s, es[0]), es[1..])
  }

  lemma {:induction false} FinalInv(s: State, es: seq<Event>)
    requires Inv(s) && Feasible(s, es)
    ensures Inv(Final(s, es))
    decreases |es|
  {
    hide Inv, Step, Ready, Room;
    if es != [] {
      StepInv(s, es[0]);
      FinalInv(Step(s, es[0]), es[1..]);
    }
  }

  /** After every interleaving at most one protocol write is in progress, writes have not
      overlapped, and none has begun after a failed one. */
  lemma OneWriteAtATime(n: nat, es: seq<Event>)
    requires Feasible(Init(n), es)
    ensures var t := Final(Init(n), es);
            && Serial(t.log) && t.log == Writes(es)
            && forall v, w |
                 v in t.writers && w in t.writers && t.writers[v] == Writing && t.writers[w] == Writing :: v == w
  {
    InitInv(n);
    FinalInv(Init(n), es);
    EachByItself(n, es);
    hide Writes;
    var t := Final(Init(n), es);
    forall v, w | v in t.writers && w in t.writers && t.writers[v] == Writing && t.writers[w] == Writing
      ensures v == w
    {
      OnlyBusy(t, w);
    }
  }

  /** After every interleaving, also once shutdown has begun, a goroutine that has come to a send on
      writeStart, writeErr, readErr or protoErr finds room for it. */
  lemma SendsNeverBlock(n: nat, es: seq<Event>, e: Event)
    requires Feasible(Init(n), es) && Ready(Final(Init(n), es), e)
    ensures Room(Final(Init(n), es), e)
  {
    InitInv(n);
    FinalInv(Init(n), es);
    HasRoom(Final(Init(n), es), e);
  }

  lemma HasRoom(s: State, e: Event)
    requires Inv(s) && Ready(s, e)
    ensures Room(s, e)
  {
    hide LogFits, Serial;
    match e
    case Report(w) =>
      OnlyBusy(s, w);
    case SendProtoErr(i) =>
      FinishedSet(s.handlers, i, Done);
    case _ =>
  }

  // ------------------------------------------------------- what the events tell

  /** The writes, as their events tell them. */
  function Writes(es: seq<Event>): seq<Entry> {
    if es == [] then []
    else
      var before := Writes(es[..|es| - 1]);
      match es[|es| - 1]
      case Begin(w) => before + [Began(w)]
      case Finish(w, failed) => before + [Ended(w, failed)]
      case _ => before
  }

  /** The latest write has failed. */
  ghost predicate Failed(es: seq<Event>) { Writes(es) != [] && Last(Writes(es)).Ended? && Last(Writes(es)).failed }

  /** Where each goroutine is after its own events: `run`, */
  ghost function RunAfter(es: seq<Event>): Phase {
    if es == [] then Starting
    else
      var before := es[..|es| - 1];
      match es[|es| - 1]
      case Start => Selecting
      case PassToken => Selecting
      case TakeResult => if Failed(before) then Leaving else Passing
      case TakeReadErr => Leaving
      case TakeProtoErr => Leaving
      case TakeDisc => Leaving
      case Close => Closed
      case _ => RunAfter(before)
  }

  /** with what made it leave, */
  ghost function CauseAfter(es: seq<Event>): Cause {
    if es == [] then NoCause
    else
      var before := es[..|es| - 1];
      match es[|es| - 1]
      case TakeResult => if Failed(before) then WriteError else CauseAfter(before)
      case TakeReadErr => ReadError
      case TakeProtoErr => ProtocolError
      case TakeDisc => Disconnect
      case _ => CauseAfter(before)
  }

  /** `readLoop`, */
  function ReaderAfter(es: seq<Event>): Reader {
    if es == [] then Reading
    else if es[|es| - 1].ReadFails? then ReadFailed
    else if es[|es| - 1].SendReadErr? then ReadSent
    else ReaderAfter(es[..|es| - 1])
  }

  /** `pingLoop`, */
  function PingerAfter(es: seq<Event>): Pinger {
    if es == [] then Pinging
    else
      match es[|es| - 1]
      case PingFails => PingFailed
      case SendPingErr => PingSent
      case PingQuits => PingQuit
      case _ => PingerAfter(es[..|es| - 1])
  }

  /** the handler of protocol i, */
  function HandlerAfter(es: seq<Event>, i: nat): Handler {
    if es == [] then Unborn
    else if es[|es| - 1] == Start then Running
    else if es[|es| - 1] == Returns(i) then Returned
    else if es[|es| - 1] == SendProtoErr(i) then Done
    else HandlerAfter(es[..|es| - 1], i)
  }

  /** and caller w of WriteMsg, if it has called and not returned. */
  function WriterAfter(es: seq<Event>, w: nat): Option<Writer> {
    if es == [] then None
    else
      var before := WriterAfter(es[..|es| - 1], w);
      match es[|es| - 1]
      case Call(v) => if v == w then Some(Waiting) else before
      case Begin(v) => if v == w then Some(Writing) else before
      case Finish(v, failed) => if v == w then Some(Reporting(failed)) else before
      case Report(v) => if v == w then None else before
      case GiveUp(v) => if v == w then None else before
      case _ => before
  }

  /** Every goroutine is where its own events have brought it. */
  ghost predicate Local(s: State, es: seq<Event>) {
    && s.run == RunAfter(es) && s.cause == CauseAfter(es) && s.log == Writes(es)
    && s.reader == ReaderAfter(es) && s.pinger == PingerAfter(es)
    && (forall i | 0 <= i < |s.handlers| :: s.handlers[i] == HandlerAfter(es, i))
    && (forall w: nat :: w in s.writers <==> WriterAfter(es, w).Some?)
    && (forall w | w in s.writers :: WriterAfter(es, w) == Some(s.writers[w]))
  }

  lemma RunLocal(s: State, es: seq<Event>, e: Event)
    requires LogFits(s) && Ready(s, e) && Local(s, es)
    ensures var t := Step(s, e);
            t.run == RunAfter(es + [e]) && t.cause == CauseAfter(es + [e]) && t.log == Writes(es + [e])
  {
    assert (es + [e])[..|es|] == es;
  }

  lemma LoopsLocal(s: State, es: seq<Event>, e: Event)
    requires Ready(s, e) && s.reader == ReaderAfter(es) && s.pinger == PingerAfter(es)
    ensures var t := Step(s, e); t.reader == ReaderAfter(es + [e]) && t.pinger == PingerAfter(es + [e])
  {
    assert (es + [e])[..|es|] == es;
  }

  lemma HandlerLocal(s: State, es: seq<Event>, e: Event, i: nat)
    requires Ready(s, e) && i < |s.handlers| && s.handlers[i] == HandlerAfter(es, i)
    ensures var t := Step(s, e); i < |t.handlers| && t.handlers[i] == HandlerAfter(es + [e], i)
  {
    assert (es + [e])[..|es|] == es;
  }

  lemma OthersLocal(s: State, es: seq<Event>, e: Event)
    requires Ready(s, e) && Local(s, es)
    ensures var t := Step(s, e);
            && t.reader == ReaderAfter(es + [e]) && t.pinger == PingerAfter(es + [e])
            && forall i | 0 <= i < |t.handlers| :: t.handlers[i] == HandlerAfter(es + [e], i)
  {
    hide Writes, RunAfter, CauseAfter, WriterAfter, ReaderAfter, PingerAfter, HandlerAfter;
    LoopsLocal(s, es, e);
    assert |Step(s, e).handlers| == |s.handlers|;
    forall i | 0 <= i < |s.handlers| ensures Step(s, e).handlers[i] == HandlerAfter(es + [e], i) {
      HandlerLocal(s, es, e, i);
    }
  }

  lemma WriterLocal(s: State, es: seq<Event>, e: Event, w: nat)
    requires Ready(s, e) && Local(s, es)
    ensures var t := Step(s, e);
            WriterAfter(es + [e], w) == if w in t.writers then Some(t.writers[w]) else None
  {
    hide Writes, RunAfter, CauseAfter, ReaderAfter, PingerAfter, HandlerAfter;
    assert (es + [e])[..|es|] == es;
  }

  lemma StepLocal(s: State, es: seq<Event>, e: Event)
    requires LogFits(s) && Ready(s, e) && Local(s, es)
    ensures Local(Step(s, e), es + [e])
  {
    RunLocal(s, es, e);
    OthersLocal(s, es, e);
    forall w: nat
      ensures WriterAfter(es + [e], w)
           == if w in Step(s, e).writers then Some(Step(s, e).writers[w]) else None
    {
      WriterLocal(s, es, e, w);
    }
    hide Writes, RunAfter, CauseAfter, ReaderAfter, PingerAfter, HandlerAfter, WriterAfter, Step, Ready;
  }

  lemma {:induction false} RunsLocal(s: State, done: seq<Event>, es: seq<Event>)
    requires Inv(s) && Feasible(s, es) && Local(s, done)
    ensures Local(Final(s, es), done + es)
    decreases |es|
  {
    hide OneToken, Causes, Errors, Serial, LogFits, Local, Step, Ready, Room;
    if es == [] {
      assert done + es == done;
    } else {
      StepInv(s, es[0]);
      StepLocal(s, done, es[0]);
      RunsLocal(Step(s, es[0]), done + [es[0]], es[1..]);
      assert done + [es[0]] + es[1..] == done + es;
    }
  }

  /** After every interleaving each goroutine is where its own events have brought it, whatever the others did;
      so `run` has left its loop exactly if it took an error or was told to disconnect, and for that reason. And
      as long as it has not, no error has been lost: those that were sent are in their channels. */
  lemma EachByItself(n: nat, es: seq<Event>)
    requires Feasible(Init(n), es)
    ensures var t := Final(Init(n), es);
            && Local(t, es) && |t.handlers| == n
            && (t.cause == NoCause <==> t.run in {Starting, Selecting, Passing})
            && t.readErr == Ones(t.reader == ReadSent) - Ones(t.cause == ReadError)
            && t.protoErr == Finished(t.handlers) + Ones(t.pinger == PingSent) - Ones(t.cause == ProtocolError)
  {
    hide Local, Step, Ready, Room, OneToken, LogFits, Serial, Finished;
    InitInv(n);
    FinalInv(Init(n), es);
    NothingYet(n);
    RunsLocal(Init(n), [], es);
    assert [] + es == es;
    SameHandlers(Init(n), es);
  }

  lemma NothingYet(n: nat)
    ensures Local(Init(n), [])
  {
  }

  lemma {:induction false} SameHandlers(s: State, es: seq<Event>)
    requires Feasible(s, es)
    ensures |Final(s, es).handlers| == |s.handlers|
    decreases |es|
  {
    if es != [] {
      SameHandlers(Step(s, es[0]), es[1..]);
      assert |Step(s, es[0]).handlers| == |s.handlers|;
    }
  }

  // ------------------------------------------------------------------- errors end the peer

  /** Once an error was sent, `run` can be closed within three steps, for that error. */
  lemma ErrorCloses(s: State) returns (es: seq<Event>)
    requires Inv(s) && s.run != Closed
    requires s.readErr > 0 || s.protoErr > 0 || (s.writeErr != [] && s.writeErr[0]) || s.run == Leaving
    ensures Feasible(s, es) && |es| <= 3 && Final(s, es).run == Closed
    ensures s.cause == NoCause ==>
              Final(s, es).cause
              == if s.readErr > 0 then ReadError else if s.protoErr > 0 then ProtocolError else WriteError
    ensures s.cause != NoCause ==> Final(s, es).cause == s.cause
  {
    if s.run == Leaving {
      es := CloseIt(s);
    } else if s.run == Selecting {
      es := TakeError(s);
    } else {
      var e := if s.run == Starting then Start else PassToken;
      HasRoom(s, e);
      StepInv(s, e);
      OneResult(s);
      assert s.writeErr == [];
      hide Inv;
      es := TakeError(Step(s, e));
      Then(s, e, es);
      es := [e] + es;
    }
  }

  lemma TakeError(s: State) returns (es: seq<Event>)
    requires Inv(s) && s.run == Selecting
    requires s.readErr > 0 || s.protoErr > 0 || (s.writeErr != [] && s.writeErr[0])
    ensures Feasible(s, es) && |es| == 2 && Final(s, es).run == Closed
    ensures Final(s, es).cause
            == if s.readErr > 0 then ReadError else if s.protoErr > 0 then ProtocolError else WriteError
  {
    var e := if s.readErr > 0 then TakeReadErr else if s.protoErr > 0 then TakeProtoErr else TakeResult;
    StepInv(s, e);
    hide Inv;
    es := CloseIt(Step(s, e));
    Then(s, e, es);
    es := [e] + es;
  }

  lemma CloseIt(s: State) returns (es: seq<Event>)
    requires s.run == Leaving
    ensures es == [Close] && Feasible(s, es) && Final(s, es).run == Closed && Final(s, es).cause == s.cause
  {
    es := [Close];
    assert es[1..] == [];
  }

  // ------------------------------------------------------------------- nobody is stuck

  lemma Then(s: State, e: Event, es: seq<Event>)
    requires Enabled(s, e) && Feasible(Step(s, e), es)
    ensures Feasible(s, [e] + es) && Final(s, [e] + es) == Final(Step(s, e), es)
  {
    hide Enabled, Step;
    assert ([e] + es)[1..] == es;
  }

  /** How far the token, or the end of the peer, is from a waiting writer. */
  ghost function Distance(s: State): nat {
    if s.run == Closed then 1
    else if s.run == Leaving then 2
    else if s.writeStart > 0 then 1
    else if s.run == Passing then 2
    else if s.writeErr != [] then 3
    else if exists v :: v in s.writers && s.writers[v].Reporting? then 4
    else 5
  }

  ghost predicate Waits(s: State, w: nat) { s.run != Starting && w in s.writers && s.writers[w] == Waiting }

  /** A waiting writer is never stuck: within five steps of some continuation it is writing or has
      been turned away. */
  lemma {:induction false} WaitingIsServed(s: State, w: nat) returns (es: seq<Event>)
    requires Inv(s) && Waits(s, w)
    ensures |es| <= Distance(s) <= 5 && Feasible(s, es)
    ensures var t := Final(s, es); w !in t.writers || t.writers[w] == Writing
    decreases Distance(s)
  {
    var e := NextStep(s, w);
    HasRoom(s, e);
    StepInv(s, e);
    hide Inv, Ready, Room, Waits, Distance;
    if e == GiveUp(w) || e == Begin(w) {
      es := [];
    } else {
      hide Step;
      es := WaitingIsServed(Step(s, e), w);
    }
    Then(s, e, es);
    es := [e] + es;
  }

  /** And anyone can call at any time once the peer runs: within six steps the caller is writing or has been
      turned away. */
  lemma CallerIsServed(s: State, w: nat) returns (es: seq<Event>)
    requires Inv(s) && s.run != Starting && w !in s.writers
    ensures es != [] && es[0] == Call(w) && |es| <= 6 && Feasible(s, es)
    ensures var t := Final(s, es); w !in t.writers || t.writers[w] == Writing
  {
    var e := Call(w);
    StepInv(s, e);
    assert Waits(Step(s, e), w);
    hide Inv, Step, Waits;
    es := WaitingIsServed(Step(s, e), w);
    Then(s, e, es);
    es := [e] + es;
  }

  lemma NextStep(s: State, w: nat) returns (e: Event)
    requires Inv(s) && Waits(s, w)
    ensures Ready(s, e) && 1 <= Distance(s) <= 5
    ensures e == GiveUp(w) || e == Begin(w) || (Waits(Step(s, e), w) && Distance(Step(s, e)) < Distance(s))
  {
    hide Errors, LogFits, Serial;
    if s.run == Closed {
      e := GiveUp(w);
    } else if s.run == Leaving {
      e := Close;
    } else if s.writeStart > 0 {
      e := Begin(w);
    } else if s.run == Passing {
      e := PassToken;
    } else if s.writeErr != [] {
      e := TakeResult;
    } else {
      var v := SomeBusy(s);
      OnlyBusy(s, v);
      hide OneToken;
      if s.writers[v] == Writing {
        e := Finish(v, false);
        assert Step(s, e).writers[v].Reporting?;
      } else {
        e := Report(v);
      }
    }
  }

  lemma SomeBusy(s: State) returns (v: nat)
    requires OneToken(s) && Causes(s) && s.run == Selecting && s.writeStart == 0 && s.writeErr == []
    ensures v in s.writers && s.writers[v] != Waiting
  {
    assert Busy(s.writers) != {};
    v :| v in Busy(s.writers);
  }

  /** The goroutines that `run` waits for have all finished. */
  ghost predicate AllDone(s: State) {
    && s.reader == ReadSent
    && (s.pinger == PingSent || s.pinger == PingQuit)
    && forall i | 0 <= i < |s.handlers| :: s.handlers[i] == Done
  }

  /** Steps left for the goroutines that `run` waits for, once the peer is closed. */
  ghost function Left(hs: seq<Handler>): nat {
    if hs == [] then 0
    else (match hs[0] case Done => 0 case Returned => 1 case _ => 2) + Left(hs[1..])
  }

  lemma {:induction false} LeftSet(hs: seq<Handler>, i: nat, h: Handler)
    requires i < |hs| && ((hs[i] == Running && h == Returned) || (hs[i] == Returned && h == Done))
    ensures Left(hs[i := h]) == Left(hs) - 1
  {
    if i > 0 {
      LeftSet(hs[1..], i - 1, h);
      assert hs[i := h][1..] == hs[1..][i - 1 := h];
    } else {
      assert hs[i := h][1..] == hs[1..];
    }
  }

  ghost function Work(s: State): nat {
    (match s.reader case Reading => 2 case ReadFailed => 1 case ReadSent => 0)
    + (match s.pinger case Pinging => 1 case PingFailed => 1 case _ => 0)
    + Left(s.handlers)
  }

  /** A closed peer can always wind down: with reads failing and handlers returning, `run` gets past
      its wait, whatever was in the channels. */
  lemma {:induction false} WindsDown(s: State) returns (es: seq<Event>)
    requires Inv(s) && s.run == Closed
    ensures Feasible(s, es) && AllDone(Final(s, es))
    decreases Work(s)
  {
    es := [];
    if !AllDone(s) {
      var e := NextEnd(s);
      HasRoom(s, e);
      StepInv(s, e);
      hide Inv, Ready, Room, Work, AllDone;
      assert Step(s, e).run == Closed;
      hide Step;
      es := WindsDown(Step(s, e));
      Then(s, e, es);
      es := [e] + es;
    }
  }

  lemma NextEnd(s: State) returns (e: Event)
    requires Inv(s) && s.run == Closed && !AllDone(s)
    ensures Ready(s, e) && Step(s, e).run == Closed && Work(Step(s, e)) < Work(s)
  {
    hide OneToken, LogFits, Serial, Finished, Left;
    if s.reader == Reading {
      e := ReadFails;
    } else if s.reader == ReadFailed {
      e := SendReadErr;
    } else if s.pinger == Pinging {
      e := PingQuits;
    } else if s.pinger == PingFailed {
      e := SendPingErr;
    } else {
      var i :| 0 <= i < |s.handlers| && s.handlers[i] != Done;
      assert s.handlers[i] in s.handlers;
      if s.handlers[i] == Running {
        e := Returns(i);
        LeftSet(s.handlers, i, Returned);
      } else {
        e := SendProtoErr(i);
        LeftSet(s.handlers, i, Done);
      }
    }
  }
}
