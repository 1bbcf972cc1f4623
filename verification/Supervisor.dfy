/**
 internal/stream: the supervisor of one StreamChannel as a step system.

 Four kinds of threads interleave: the main loop (run, arbitrate, serve, finishStream, failPending),
 any number of API calls (Send, CloseGracefully, BecomePrimary), one receive goroutine per session,
 and the environment (contexts, Close, new calls). A step is one atomic action of one thread; the label of
 a step resolves every choice that select, the network or a timer may make.
 */
module Supervisor {
  import opened Wrappers

  datatype Mode = Disconnected | Connecting | Backup | Primary

  /** What an API call or a request ends with; Success is a nil error. */
  datatype Outcome = Success | NotPrimary | StreamClosed | Cancelled | Transport

  const CAPACITY: nat := 16

  /** An API call. A request is named after the call that created it. */
  type Call = int
  datatype Kind = SEND | CLOSE | BECOME

  /** sendRequest: a nil message asks for the half-close. The last two fields record when epoch was read. */
  datatype Request = Request(drain: bool, epoch: nat, modeThen: Mode, sessionThen: nat)

  datatype Pc =
    | SendStart | SendGate | SendWatch | SendCheckCtx | SendCheckFlags | SendQueue
    | SendReturnGate(error: Option<Outcome>)
    | CloseStart | CloseCheckCtx | CloseGate | CloseLock | CloseLate(other: Call)
    | CloseTry | CloseQueue | CloseReturnGate
    | Wait(of: Call) | WaitSelect(of: Call) | WaitRecheck(of: Call)
    | BecomeStart | BecomeWatch | BecomeWait(channel: nat)
    | Returned(result: Outcome)

  datatype CallState = CallState(kind: Kind, pc: Pc, ctxDone: bool, since: nat)

  datatype MainPc =
    | NotStarted
    | TopCtx | TopFlags | Connect | Dialing | Failed | SleepCheck | Sleeping
    | ArbSending | ArbWaiting | ArbApply(ok: bool)
    | Serving | ServeApply(ok: bool) | ServeBroken | ServeEnd
    | Taken(r: Call) | CheckPrimary(r: Call) | CheckEpoch(r: Call) | Transmit(r: Call) | Transmitted(r: Call, ok: bool)
    | SendBroken(error: Outcome) | FlushServe(error: Outcome)
    | HalfClose(r: Call) | Draining(r: Call) | DrainApply(r: Call, ok: bool) | DrainEnd(r: Call, eof: bool)
    | Drained(r: Call, result: Outcome)
    | Leave | FlushLeave | Closing | Halted

  /** The receive goroutine of one session. */
  datatype Receiver = Reading | Offering(ok: bool) | Ended(eof: bool) | Gone

  // History, for stating what happened over a run.
  datatype Cause = Initial | Dial | Failure | Shutdown | Reply(session: nat, ok: bool)
  datatype Epoch = Epoch(mode: Mode, session: nat, cause: Cause)
  datatype Tx = Tx(index: nat, call: Call, session: nat, epoch: nat, mode: Mode, ok: bool)

  /** The mastership state; an epoch is the identity of the channel in changed. */
  datatype Mastership = Mastership(mode: Mode, changed: nat, closed: set<int>, session: nat, epochs: seq<Epoch>)

  /** The bounded queue, every request ever accepted into it, how many have left it, and the finished requests. */
  datatype Work = Work(queue: seq<Call>, accepted: seq<Call>, taken: nat, done: map<Call, Outcome>)

  /**
   The calls and their requests. gate holds the call that has taken the token, None while the token is in the
   channel; grace is the drain request; drainedAt is the number of requests accepted before draining was closed.
   */
  datatype Book = Book(
    gate: Option<Call>, grace: Option<Call>, drainedAt: Option<nat>,
    requests: map<Call, Request>, calls: map<Call, CallState>)

  datatype Flags = Flags(
    draining: bool, stop: bool, stopped: bool,
    parentDone: bool, sessionDone: bool, clientDone: bool, clientClosed: bool)

  datatype Retry = Retry(initial: int, max: int, backoff: int, failures: nat)

  datatype Log = Log(sent: seq<Tx>, dials: seq<Mode>, exchanges: seq<Mode>, closeSends: nat, dialsAtClose: nat)

  datatype Sup = Sup(
    m: Mastership, w: Work, b: Book, flags: Flags, main: MainPc, receivers: map<int, Receiver>, retry: Retry, log: Log)

  /** New, with the configuration defaults already applied. */
  function Init(initial: int, max: int): Sup {
    Sup(Mastership(Disconnected, 0, {}, 0, [Epoch(Disconnected, 0, Initial)]), Work([], [], 0, map[]),
        Book(None, None, None, map[], map[]), Flags(false, false, false, false, false, false, false),
        NotStarted, map[], Retry(initial, max, initial, 0), Log([], [], [], 0, 0))
  }

  // ---------------------------------------------------------------- shared operations

  /** setState: a change of mode closes the current channel and installs a fresh one. */
  function SetMode(m: Mastership, mode: Mode, cause: Cause): Mastership {
    if m.mode == mode then m
    else Mastership(mode, m.changed + 1, m.closed + {m.changed}, m.session, m.epochs + [Epoch(mode, m.session, cause)])
  }

  /** The code of the status in an arbitration message, which may carry none. */
  type Status = Option<int>

  /** statusOK: a target that leaves the status out means OK, which is code 0. */
  predicate StatusOk(status: Status) {
    status.None? || status.value == 0
  }

  function ModeOf(ok: bool): Mode {
    if ok then Primary else Backup
  }

  /** applyArbitration, on a reply read from the stream of this session. */
  function ApplyReply(m: Mastership, ok: bool): Mastership {
    SetMode(m, ModeOf(ok), Reply(m.session, ok))
  }

  /** sendRequest.finish: only the first call has an effect. */
  function Finish(w: Work, r: Call, o: Outcome): Work {
    if r in w.done then w else w.(done := w.done[r := o])
  }

  function Enqueue(w: Work, c: Call): Work {
    Work(w.queue + [c], w.accepted + [c], w.taken, w.done)
  }

  function Pop(w: Work): Work
    requires w.queue != []
  {
    Work(w.queue[1..], w.accepted, w.taken + 1, w.done)
  }

  predicate CtxDone(s: Sup, c: Call) {
    c in s.b.calls && s.b.calls[c].ctxDone
  }

  predicate SessionOver(s: Sup) {
    s.flags.sessionDone || s.flags.parentDone
  }

  const MIN_INT64: int := -0x8000_0000_0000_0000

  /** cur * 2 in 64-bit arithmetic, capped. */
  function NextBackoff(cur: int, max: int): int {
    var next := (cur * 2 - MIN_INT64) % 0x1_0000_0000_0000_0000 + MIN_INT64;
    if next <= 0 || next > max then max else next
  }

  // ---------------------------------------------------------------- main loop

  datatype MainLabel =
    | Go | DialOk | DialFail | ArbSent | ArbSendFail | ArbStop | ArbTimeout | ArbBroken | ArbReply(status: Status)
    | Timer | SeeCancel | SeeStop | SeeDrain | TakeReply | TakeEnd | Dequeue | SendDone(ok: bool)
        | CloseSendDone(ok: bool)

  function At(s: Sup, pc: MainPc): Option<Sup> {
    Some(s.(main := pc))
  }

  /** Dialling, arbitration and backoff. */
  function ConnectStep(s: Sup, l: MainLabel): Option<Sup> {
    match s.main
    case NotStarted => if l.Go? then At(s, TopCtx) else None
    case TopCtx => if l.Go? then At(s, if s.flags.parentDone then Leave else TopFlags) else None
    case TopFlags => if l.Go? then At(s, if s.flags.stop || s.flags.draining then Leave else Connect) else None
    case Connect =>
      if l.Go? then
        At(s.(m := SetMode(s.m.(session := s.m.session + 1), Connecting, Dial),
            flags := s.flags.(sessionDone := false)), Dialing)
      else None
    case Dialing =>
      if l.DialOk? || l.DialFail? then
        At(s.(log := s.log.(dials := s.log.dials + [s.m.mode])), if l.DialOk? then ArbSending else Failed)
      else None
    case ArbSending =>
      if l.ArbSent? || l.ArbSendFail? then At(Exchange(s), if l.ArbSent? then ArbWaiting else Failed) else None
    case ArbWaiting =>
      if (l.ArbStop? && s.flags.stop) || l.ArbTimeout? || l.ArbBroken? then At(s, Failed)
      else if l.ArbReply? then At(Exchange(s), ArbApply(StatusOk(l.status)))
      else None
    case ArbApply(ok) =>
      if l.Go? then
        At(s.(m := ApplyReply(s.m, ok), retry := s.retry.(backoff := s.retry.initial, failures := 0),
              receivers := s.receivers[s.m.session := Reading]), Serving)
      else None
    case Failed =>
      if l.Go? then
        At(s.(m := SetMode(s.m, Disconnected, Failure), flags := s.flags.(sessionDone := true)), SleepCheck)
      else None
    case SleepCheck =>
      if l.Go? then At(s, if s.flags.parentDone || s.flags.stop || s.flags.draining then Leave else Sleeping) else None
    case Sleeping =>
      if l.Timer? then
        At(s.(retry := s.retry.(backoff := NextBackoff(s.retry.backoff, s.retry.max),
            failures := s.retry.failures + 1)), TopCtx)
      else if (l.SeeCancel? && s.flags.parentDone) || (l.SeeStop? && s.flags.stop) || (l.SeeDrain? && s.flags.draining)
      then At(s, Leave)
      else None
    case _ => None
  }

  /** One message of the arbitration exchange. */
  function Exchange(s: Sup): Sup {
    s.(log := s.log.(exchanges := s.log.exchanges + [s.m.mode]))
  }

  /** The select loop of serve, with failPending, and the handling of one dequeued request. */
  function ServeStep(s: Sup, l: MainLabel): Option<Sup> {
    match s.main
    case Serving =>
      if (l.SeeCancel? && SessionOver(s)) || (l.SeeStop? && s.flags.stop) then At(s, ServeEnd)
      else if l.TakeReply? && Offers(s) then At(Receive(s, Reading), ServeApply(s.receivers[s.m.session].ok))
      else if l.TakeEnd? && HasEnded(s) then At(Receive(s, Gone), ServeBroken)
      else if l.Dequeue? && s.w.queue != [] then At(s.(w := Pop(s.w)), Taken(s.w.queue[0]))
      else None
    case ServeApply(ok) => if l.Go? then At(s.(m := ApplyReply(s.m, ok)), Serving) else None
    case ServeBroken => if l.Go? then At(s.(m := SetMode(s.m, Disconnected, Failure)), FlushServe(Transport)) else None
    case ServeEnd => if l.Go? then At(s.(flags := s.flags.(sessionDone := true)), TopCtx) else None
    case Taken(r) =>
      if !l.Go? then None
      else if CtxDone(s, r) then Complete(s, r, Cancelled, Serving)
      else At(s, if r in s.b.requests && s.b.requests[r].drain then HalfClose(r) else CheckPrimary(r))
    case CheckPrimary(r) =>
      if !l.Go? then None
      else if !s.m.mode.Primary? then Complete(s, r, NotPrimary, Serving)
      else At(s, CheckEpoch(r))
    case CheckEpoch(r) =>
      if !l.Go? then None
      else if r in s.b.requests && s.b.requests[r].epoch == s.m.changed then At(s, Transmit(r))
      else Complete(s, r, StreamClosed, Serving)
    case Transmit(r) =>
      if l.SendDone? then
        At(s.(log := s.log.(sent := s.log.sent + [Tx(s.w.taken, r, s.m.session, s.m.changed, s.m.mode, l.ok)])),
           Transmitted(r, l.ok))
      else None
    case Transmitted(r, ok) =>
      if !l.Go? then None
      else
        var o := if CtxDone(s, r) then Cancelled else if ok then Success else Transport;
        Complete(s, r, o, if o.Success? then Serving else SendBroken(o))
    case SendBroken(o) => if l.Go? then At(s.(m := SetMode(s.m, Disconnected, Failure)), FlushServe(o)) else None
    case FlushServe(o) =>
      if !l.Go? then None else if s.w.queue == [] then At(s, ServeEnd) else Some(FailFirst(s, o))
    case _ => None
  }

  function Complete(s: Sup, r: Call, o: Outcome, pc: MainPc): Option<Sup> {
    At(s.(w := Finish(s.w, r, o)), pc)
  }

  /** One iteration of failPending. */
  function FailFirst(s: Sup, o: Outcome): Sup
    requires s.w.queue != []
  {
    s.(w := Finish(Pop(s.w), s.w.queue[0], o))
  }

  /** The receive goroutine of this session offers an arbitration message, or has reported an error. */
  predicate Offers(s: Sup) {
    s.m.session in s.receivers && s.receivers[s.m.session].Offering?
  }

  predicate HasEnded(s: Sup) {
    s.m.session in s.receivers && s.receivers[s.m.session].Ended?
  }

  function Receive(s: Sup, r: Receiver): Sup {
    s.(receivers := s.receivers[s.m.session := r])
  }

  /** finishStream and the deferred functions of run. */
  function FinishStep(s: Sup, l: MainLabel): Option<Sup> {
    match s.main
    case HalfClose(r) =>
      if l.CloseSendDone? then
        At(s.(log := s.log.(closeSends := s.log.closeSends + 1, dialsAtClose := |s.log.dials|)),
           if l.ok then Draining(r) else Drained(r, if SessionOver(s) then StreamClosed else Transport))
      else None
    case Draining(r) =>
      if l.TakeEnd? && HasEnded(s) then At(Receive(s, Gone), DrainEnd(r, s.receivers[s.m.session].eof))
      else if l.TakeReply? && Offers(s) then At(Receive(s, Reading), DrainApply(r, s.receivers[s.m.session].ok))
      else if (l.SeeCancel? && SessionOver(s)) || (l.SeeStop? && s.flags.stop) then At(s, Drained(r, StreamClosed))
      else None
    case DrainApply(r, ok) => if l.Go? then At(s.(m := ApplyReply(s.m, ok)), Draining(r)) else None
    case DrainEnd(r, eof) =>
      if l.Go? then At(s, Drained(r, if SessionOver(s) then StreamClosed else if eof then Success else Transport))
          else None
    case Drained(r, o) =>
      if l.Go? then Complete(s.(flags := s.flags.(sessionDone := true)), r, o, Leave) else None
    case Leave => if l.Go? then At(s.(m := SetMode(s.m, Disconnected, Shutdown)), FlushLeave) else None
    case FlushLeave =>
      if !l.Go? then None else if s.w.queue == [] then At(s, Closing) else Some(FailFirst(s, StreamClosed))
    case Closing => if l.Go? then At(s.(flags := s.flags.(stopped := true)), Halted) else None
    case _ => None
  }

  /** The main loop: whichever of its three parts the program counter is in. */
  function MainStep(s: Sup, l: MainLabel): Option<Sup> {
    var c := ConnectStep(s, l);
    if c.Some? then c
    else
      var d := ServeStep(s, l);
      if d.Some? then d else FinishStep(s, l)
  }

  // ---------------------------------------------------------------- API calls

  datatype CallLabel = Step | TakeGate | Ctx | Stop | Stopped | DrainFlag | Put | Done | Changed | Client | ClientEnd

  function To(s: Sup, c: Call, pc: Pc): Option<Sup>
    requires c in s.b.calls
  {
    Some(s.(b := s.b.(calls := s.b.calls[c := s.b.calls[c].(pc := pc)])))
  }

  /** Send and enqueue, up to waiting for the request. */
  function SendCall(s: Sup, c: Call, l: CallLabel): Option<Sup>
    requires c in s.b.calls
  {
    var ctx := s.b.calls[c].ctxDone;
    match s.b.calls[c].pc
    case SendStart => if l.Step? then To(s, c, if ctx then Returned(Cancelled) else SendGate) else None
    case SendGate =>
      if l.TakeGate? && s.b.gate.None? then To(s.(b := s.b.(gate := Some(c))), c, SendWatch)
      else if l.Ctx? && ctx then To(s, c, Returned(Cancelled))
      else if (l.DrainFlag? && s.flags.draining) || (l.Stop? && s.flags.stop) || (l.Stopped? && s.flags.stopped)
      then To(s, c, Returned(StreamClosed))
      else None
    case SendWatch =>
      if l.Step? then
        To(s.(b := s.b.(requests := s.b.requests[c := Request(false, s.m.changed, s.m.mode, s.m.session)])), c,
            SendCheckCtx)
      else None
    case SendCheckCtx =>
      if l.Step? then To(s, c, if ctx then SendReturnGate(Some(Cancelled)) else SendCheckFlags) else None
    case SendCheckFlags =>
      if l.Step? then
        To(s, c, if s.flags.draining || s.flags.stop || s.flags.stopped then SendReturnGate(Some(StreamClosed))
            else SendQueue)
      else None
    case SendQueue =>
      if l.Put? && |s.w.queue| < CAPACITY then To(s.(w := Enqueue(s.w, c)), c, SendReturnGate(None))
      else if l.Ctx? && ctx then To(s, c, SendReturnGate(Some(Cancelled)))
      else if (l.Stop? && s.flags.stop) || (l.Stopped? && s.flags.stopped)
          then To(s, c, SendReturnGate(Some(StreamClosed)))
      else None
    case SendReturnGate(error) =>
      if l.Step? then To(s.(b := s.b.(gate := None)), c, if error.Some? then Returned(error.value) else Wait(c))
          else None
    case _ => None
  }

  /** CloseGracefully, up to waiting for the drain request. */
  function CloseCall(s: Sup, c: Call, l: CallLabel): Option<Sup>
    requires c in s.b.calls
  {
    var ctx := s.b.calls[c].ctxDone;
    match s.b.calls[c].pc
    case CloseStart => if l.Step? then To(s, c, if s.b.grace.Some? then Wait(s.b.grace.value) else CloseCheckCtx)
        else None
    case CloseCheckCtx => if l.Step? then To(s, c, if ctx then Returned(Cancelled) else CloseGate) else None
    case CloseGate =>
      if l.TakeGate? && s.b.gate.None? then To(s.(b := s.b.(gate := Some(c))), c, CloseLock)
      else if l.Ctx? && ctx then To(s, c, Returned(Cancelled))
      else if l.Stopped? && s.flags.stopped then To(s, c, Returned(StreamClosed))
      else None
    case CloseLock =>
      if !l.Step? then None
      else if s.b.grace.Some? then To(s, c, CloseLate(s.b.grace.value))
      else
        To(s.(b := s.b.(requests := s.b.requests[c := Request(true, s.m.changed, s.m.mode, s.m.session)],
                        grace := Some(c), drainedAt := Some(|s.w.accepted|)),
              flags := s.flags.(draining := true)), c, CloseTry)
    case CloseLate(g) => if l.Step? then To(s.(b := s.b.(gate := None)), c, Wait(g)) else None
    case CloseTry =>
      if !l.Step? then None
      else if c in s.w.done then To(s, c, CloseReturnGate)
      else if s.flags.stopped then To(s.(w := Finish(s.w, c, StreamClosed)), c, CloseReturnGate)
      else To(s, c, CloseQueue)
    case CloseQueue =>
      if l.Put? && |s.w.queue| < CAPACITY then To(s.(w := Enqueue(s.w, c)), c, CloseReturnGate)
      else if l.Ctx? && ctx then To(s.(w := Finish(s.w, c, Cancelled)), c, CloseReturnGate)
      else if l.Stopped? && s.flags.stopped then To(s.(w := Finish(s.w, c, StreamClosed)), c, CloseReturnGate)
      else None
    case CloseReturnGate => if l.Step? then To(s.(b := s.b.(gate := None)), c, Wait(c)) else None
    case _ => None
  }

  /** sendRequest.wait, on the request of call r. */
  function WaitCall(s: Sup, c: Call, l: CallLabel): Option<Sup>
    requires c in s.b.calls
  {
    var ctx := s.b.calls[c].ctxDone;
    match s.b.calls[c].pc
    case Wait(r) => if l.Step? then To(s, c, if r in s.w.done then Returned(s.w.done[r]) else WaitSelect(r)) else None
    case WaitSelect(r) =>
      if l.Done? && r in s.w.done then To(s, c, Returned(s.w.done[r]))
      else if l.Ctx? && ctx then To(s, c, Returned(Cancelled))
      else if l.Stopped? && s.flags.stopped then To(s, c, WaitRecheck(r))
      else None
    case WaitRecheck(r) =>
      if l.Step? then To(s, c, Returned(if r in s.w.done then s.w.done[r] else StreamClosed)) else None
    case _ => None
  }

  /** BecomePrimary. */
  function BecomeCall(s: Sup, c: Call, l: CallLabel): Option<Sup>
    requires c in s.b.calls
  {
    var ctx := s.b.calls[c].ctxDone;
    match s.b.calls[c].pc
    case BecomeStart => if l.Step? then To(s, c, if s.flags.clientDone then Returned(StreamClosed) else BecomeWatch)
        else None
    case BecomeWatch =>
      if l.Step? then To(s, c, if s.m.mode.Primary? then Returned(Success) else BecomeWait(s.m.changed)) else None
    case BecomeWait(e) =>
      if l.Ctx? && ctx then To(s, c, Returned(Cancelled))
      else if l.Changed? && e in s.m.closed then To(s, c, BecomeStart)
      else if (l.Client? && s.flags.clientDone) || (l.ClientEnd? && s.flags.clientClosed)
          then To(s, c, Returned(StreamClosed))
      else None
    case _ => None
  }

  function CallStep(s: Sup, c: Call, l: CallLabel): Option<Sup>
    requires c in s.b.calls
  {
    var pc := s.b.calls[c].pc;
    if pc.Wait? || pc.WaitSelect? || pc.WaitRecheck? then WaitCall(s, c, l)
    else match s.b.calls[c].kind
      case SEND => SendCall(s, c, l)
      case CLOSE => CloseCall(s, c, l)
      case BECOME => BecomeCall(s, c, l)
  }

  // ---------------------------------------------------------------- receive goroutines and environment

  datatype ReceiverLabel = ReadReply(status: Status) | ReadOther | ReadEnd(eof: bool) | Quit

  function ReceiverStep(s: Sup, n: nat, l: ReceiverLabel): Option<Sup>
    requires n in s.receivers
  {
    match l
    case ReadReply(status) =>
      if s.receivers[n].Reading? then Some(s.(receivers := s.receivers[n := Offering(StatusOk(status))])) else None
    case ReadOther => if s.receivers[n].Reading? then Some(s) else None
    case ReadEnd(eof) => if s.receivers[n].Reading? then Some(s.(receivers := s.receivers[n := Ended(eof)])) else None
    case Quit =>
      if (s.receivers[n].Reading? || s.receivers[n].Offering?) && (n != s.m.session || SessionOver(s))
      then Some(s.(receivers := s.receivers[n := Gone]))
      else None
  }

  datatype EnvLabel = NewCall(c: Call, kind: Kind) | EndCtx(c: Call) | EndParent | EndClient | CloseFlag
      | FinishClient | AfterFunc

  function Entry(kind: Kind): Pc {
    match kind
    case SEND => SendStart
    case CLOSE => CloseStart
    case BECOME => BecomeStart
  }

  function EnvStep(s: Sup, l: EnvLabel): Option<Sup> {
    match l
    case NewCall(c, kind) =>
      if c !in s.b.calls
          then Some(s.(b := s.b.(calls := s.b.calls[c := CallState(kind, Entry(kind), false, s.m.changed)]))) else None
    case EndCtx(c) => if c in s.b.calls
        then Some(s.(b := s.b.(calls := s.b.calls[c := s.b.calls[c].(ctxDone := true)]))) else None
    case EndParent => Some(s.(flags := s.flags.(parentDone := true)))
    case EndClient => Some(s.(flags := s.flags.(clientDone := true, parentDone := true)))
    case CloseFlag => Some(s.(flags := s.flags.(stop := true)))
    case FinishClient => if s.flags.clientDone && s.flags.stopped
        then Some(s.(flags := s.flags.(clientClosed := true))) else None
    case AfterFunc => if Interrupts(s) then Some(s.(flags := s.flags.(sessionDone := true))) else None
  }

  /**
   The context of the request in the hands of serve ends the session. The callback may still run after it has been
   stopped too late; by then serve has noticed the cancellation and is leaving.
   */
  predicate Interrupts(s: Sup) {
    match s.main
    case Transmit(r) => CtxDone(s, r)
    case Transmitted(r, _) => CtxDone(s, r)
    case SendBroken(o) => o.Cancelled?
    case FlushServe(o) => o.Cancelled?
    case _ => false
  }

  // ---------------------------------------------------------------- runs

  datatype Label = Main(m: MainLabel) | OfCall(c: Call, a: CallLabel) | OfReceiver(n: nat, b: ReceiverLabel)
      | Env(e: EnvLabel)

  /** The successor of a state under a label, or None when the label is not enabled. */
  function Next(s: Sup, l: Label): Option<Sup> {
    match l
    case Main(m) => MainStep(s, m)
    case OfCall(c, a) => if c in s.b.calls then CallStep(s, c, a) else None
    case OfReceiver(n, b) => if n in s.receivers then ReceiverStep(s, n, b) else None
    case Env(e) => EnvStep(s, e)
  }

  /** A finite run from New, with any positive backoff configuration. */
  ghost predicate Run(run: seq<Sup>, labels: seq<Label>) {
    && |run| == |labels| + 1
    && 0 < run[0].retry.initial <= 0x7fff_ffff_ffff_ffff && 0 < run[0].retry.max <= 0x7fff_ffff_ffff_ffff
    && run[0] == Init(run[0].retry.initial, run[0].retry.max)
    && forall i :: 0 <= i < |labels| ==> Next(run[i], labels[i]) == Some(run[i + 1])
  }
}
