/** The inductive invariant of the supervisor, one concern at a time. */
module SupervisorInv {
  import opened Wrappers
  import opened Supervisor

  // ---------------------------------------------------------------- mastership

  /** Only a reply read in the session of the epoch makes it Primary or Backup. */
  predicate CauseFits(e: Epoch) {
    match e.mode
    case Primary => e.cause == Reply(e.session, true)
    case Backup => e.cause == Reply(e.session, false)
    case Connecting => e.cause == Dial
    case Disconnected => e.cause in {Initial, Failure, Shutdown}
  }

  ghost predicate MastershipInv(m: Mastership) {
    && |m.epochs| == m.changed + 1
    && m.epochs[m.changed].mode == m.mode && m.epochs[m.changed].session == m.session
    && (forall n: nat :: n in m.closed <==> n < m.changed)
    && (forall i :: 0 <= i < m.changed ==> m.epochs[i].mode != m.epochs[i + 1].mode)
    && (forall i, j :: 0 <= i <= j <= m.changed ==> m.epochs[i].session <= m.epochs[j].session)
    && (forall i :: 0 <= i <= m.changed ==> CauseFits(m.epochs[i]))
  }

  /** The modes that go with each point of the main loop. */
  predicate PhaseInv(main: MainPc, mode: Mode) {
    match main
    case NotStarted | SleepCheck | Sleeping | FlushServe(_) | FlushLeave | Closing | Halted => mode == Disconnected
    case TopCtx | TopFlags | Connect | ServeEnd | Leave => mode != Connecting
    case Dialing | ArbSending | ArbWaiting | ArbApply(_) | Failed => mode == Connecting
    case CheckEpoch(_) | Transmit(_) | Transmitted(_, _) | SendBroken(_) => mode == Primary
    case _ => mode == Primary || mode == Backup
  }

  predicate LogInv(log: Log) {
    && (forall i :: 0 <= i < |log.dials| ==> log.dials[i] == Connecting)
    && (forall i :: 0 <= i < |log.exchanges| ==> log.exchanges[i] == Connecting)
  }

  predicate StopInv(stopped: bool, main: MainPc) {
    stopped <==> main.Halted?
  }

  // ---------------------------------------------------------------- backoff

  function Doubled(initial: int, n: nat): int {
    if n == 0 then initial else 2 * Doubled(initial, n - 1)
  }

  function Min(a: int, b: int): int {
    if a <= b then a else b
  }

  /** The base delay after n retries in a row. */
  function BaseDelay(initial: int, max: int, n: nat): int {
    if n == 0 then initial else Min(Doubled(initial, n), max)
  }

  predicate RetryInv(r: Retry) {
    && 0 < r.initial <= 0x7fff_ffff_ffff_ffff && 0 < r.max <= 0x7fff_ffff_ffff_ffff
    && 0 < r.backoff <= 0x7fff_ffff_ffff_ffff
    && r.backoff == BaseDelay(r.initial, r.max, r.failures)
  }

  /** Doubling with wrap-around and cap is doubling over the integers and cap. */
  lemma BackoffIsCappedDoubling(cur: int, max: int)
    requires 0 < cur <= 0x7fff_ffff_ffff_ffff && 0 < max <= 0x7fff_ffff_ffff_ffff
    ensures NextBackoff(cur, max) == Min(2 * cur, max)
  {
    if cur < 0x4000_0000_0000_0000 {
      assert (cur * 2 - MIN_INT64) % 0x1_0000_0000_0000_0000 == cur * 2 - MIN_INT64;
    } else {
      assert (cur * 2 - MIN_INT64) % 0x1_0000_0000_0000_0000 == cur * 2 - MIN_INT64 - 0x1_0000_0000_0000_0000;
    }
  }

  // ---------------------------------------------------------------- queue and requests

  ghost predicate FifoInv(w: Work) {
    && w.taken <= |w.accepted| && w.queue == w.accepted[w.taken..] && |w.queue| <= CAPACITY
    && (forall i, j :: 0 <= i < j < |w.accepted| ==> w.accepted[i] != w.accepted[j])
  }

  /** The request that the main loop has dequeued and not yet finished. */
  function InFlight(main: MainPc): Option<Call> {
    if main.Taken? || main.CheckPrimary? || main.CheckEpoch? || main.Transmit? || main.Transmitted?
       || main.HalfClose? || main.Draining? || main.DrainApply? || main.DrainEnd? || main.Drained?
    then Some(main.r) else None
  }

  /** Requests are finished in the order of acceptance; those in the queue and in flight are not finished. */
  ghost predicate WorkInv(w: Work, inFlight: Option<Call>) {
    && (inFlight.Some? ==>
          1 <= w.taken <= |w.accepted| && w.accepted[w.taken - 1] == inFlight.value && inFlight.value !in w.done)
    && (forall i :: 0 <= i < w.taken <= |w.accepted| && (inFlight.None? || i < w.taken - 1) ==> w.accepted[i] in w.done)
    && (forall i :: w.taken <= i < |w.accepted| ==> w.accepted[i] !in w.done)
  }

  predicate Holds(pc: Pc) {
    match pc
    case SendWatch | SendCheckCtx | SendCheckFlags | SendQueue | SendReturnGate(_) => true
    case CloseLock | CloseLate(_) | CloseTry | CloseQueue | CloseReturnGate => true
    case _ => false
  }

  /** The gate admits one call at a time. */
  ghost predicate GateInv(b: Book) {
    && (forall c :: c in b.calls ==> (Holds(b.calls[c].pc) <==> b.gate == Some(c)))
    && (b.gate.Some? ==> b.gate.value in b.calls)
  }

  /** A request that exists and has been neither queued nor finished. */
  predicate Fresh(b: Book, w: Work, c: Call, drain: bool) {
    && c in b.requests && b.requests[c].drain == drain && c !in w.accepted && c !in w.done
    && (drain ==> b.grace == Some(c))
  }

  predicate Posted(b: Book, w: Work, c: Call) {
    c in b.requests && !b.requests[c].drain && c in w.accepted
  }

  predicate WaitsFor(b: Book, w: Work, c: Call, r: Call)
    requires c in b.calls
  {
    match b.calls[c].kind
    case SEND => r == c && Posted(b, w, c)
    case CLOSE => b.grace == Some(r)
    case BECOME => false
  }

  ghost predicate ReturnFits(b: Book, w: Work, m: Mastership, c: Call, o: Outcome)
    requires c in b.calls
  {
    o.Success? ==>
      match b.calls[c].kind
      case SEND => c in w.done && w.done[c].Success? && c in b.requests && !b.requests[c].drain
      case CLOSE => b.grace.Some? && b.grace.value in w.done && w.done[b.grace.value].Success?
      case BECOME => SeenPrimary(m, b.calls[c].since)
  }

  /** Primary held in some epoch from since on. */
  ghost predicate SeenPrimary(m: Mastership, since: nat) {
    exists e: nat :: since <= e < |m.epochs| && m.epochs[e].mode.Primary?
  }

  ghost predicate CallFits(b: Book, w: Work, m: Mastership, c: Call)
    requires c in b.calls
  {
    var k := b.calls[c];
    && k.since < |m.epochs|
    && match k.pc
       case SendStart | SendGate | SendWatch => k.kind.SEND? && c !in b.requests
       case SendCheckCtx | SendCheckFlags | SendQueue => k.kind.SEND? && Fresh(b, w, c, false)
       case SendReturnGate(error) =>
         k.kind.SEND? && (if error.Some? then !error.value.Success? && Fresh(b, w, c, false) else Posted(b, w, c))
       case CloseStart | CloseCheckCtx | CloseGate | CloseLock => k.kind.CLOSE? && c !in b.requests
       case CloseLate(g) => k.kind.CLOSE? && b.grace == Some(g)
       case CloseTry | CloseQueue => k.kind.CLOSE? && Fresh(b, w, c, true)
       case CloseReturnGate => k.kind.CLOSE? && b.grace == Some(c)
       case Wait(r) => WaitsFor(b, w, c, r)
       case WaitSelect(r) => WaitsFor(b, w, c, r)
       case WaitRecheck(r) => WaitsFor(b, w, c, r)
       case BecomeStart | BecomeWatch => k.kind.BECOME?
       case BecomeWait(e) => k.kind.BECOME? && k.since <= e < |m.epochs| && !m.epochs[e].mode.Primary?
       case Returned(o) => ReturnFits(b, w, m, c, o)
  }

  ghost predicate CallsInv(b: Book, w: Work, m: Mastership) {
    && (forall r :: r in b.requests ==> r in b.calls)
    && (forall r :: r in w.done ==> r in b.requests)
    && (forall i :: 0 <= i < |w.accepted| ==> w.accepted[i] in b.requests)
    && (forall c :: c in b.calls ==> CallFits(b, w, m, c))
  }

  /** Once draining starts, only the drain request can still be accepted. */
  ghost predicate DrainInv(b: Book, accepted: seq<Call>, draining: bool) {
    && (draining <==> b.grace.Some?) && (b.grace.Some? <==> b.drainedAt.Some?)
    && (b.grace.Some? ==> b.grace.value in b.requests && b.requests[b.grace.value].drain)
    && (forall r :: r in b.requests && b.requests[r].drain ==> b.grace == Some(r))
    && (b.grace.Some? ==>
          && b.drainedAt.value <= |accepted|
          && (forall c :: c in b.calls ==> !b.calls[c].pc.SendQueue?)
          && (forall i :: 0 <= i < |accepted| ==> (accepted[i] == b.grace.value <==> b.drainedAt.value <= i)))
  }

  /** What a request remembers about its epoch. */
  ghost predicate CaptureInv(b: Book, m: Mastership) {
    forall r :: r in b.requests ==> Captured(b.requests[r], m)
  }

  predicate Captured(q: Request, m: Mastership) {
    q.epoch < |m.epochs| && q.modeThen == m.epochs[q.epoch].mode && q.sessionThen == m.epochs[q.epoch].session
  }

  /** A transmission belongs to an accepted request that saw this very epoch as Primary. */
  ghost predicate TxFits(w: Work, b: Book, t: Tx) {
    && 1 <= t.index <= w.taken <= |w.accepted| && w.accepted[t.index - 1] == t.call
    && t.call in b.requests && t.mode.Primary?
    && var q := b.requests[t.call];
       !q.drain && q.modeThen.Primary? && q.epoch == t.epoch && q.sessionThen == t.session
  }

  ghost predicate SentInv(sent: seq<Tx>, w: Work, b: Book) {
    && (forall i :: 0 <= i < |sent| ==> TxFits(w, b, sent[i]))
    && (forall i, j :: 0 <= i < j < |sent| ==> sent[i].index < sent[j].index)
  }

  /** What the main loop knows about the request in its hands. */
  ghost predicate HandInv(main: MainPc, sent: seq<Tx>, w: Work, b: Book, changed: nat) {
    match main
    case Taken(_) => NotYetSent(sent, w)
    case CheckPrimary(r) => Sendable(b, r) && NotYetSent(sent, w)
    case CheckEpoch(r) => Sendable(b, r) && NotYetSent(sent, w)
    case Transmit(r) => Sendable(b, r) && NotYetSent(sent, w) && b.requests[r].epoch == changed
    case Transmitted(r, ok) => Sendable(b, r) && |sent| > 0 && sent[|sent| - 1].call == r && sent[|sent| - 1].ok == ok
    case HalfClose(r) => b.grace == Some(r)
    case Draining(r) => b.grace == Some(r)
    case DrainApply(r, _) => b.grace == Some(r)
    case DrainEnd(r, _) => b.grace == Some(r)
    case Drained(r, _) => b.grace == Some(r)
    case SendBroken(o) => !o.Success?
    case FlushServe(o) => !o.Success?
    case _ => true
  }

  ghost predicate NotYetSent(sent: seq<Tx>, w: Work) {
    forall i :: 0 <= i < |sent| ==> sent[i].index < w.taken
  }

  predicate Sendable(b: Book, r: Call) {
    r in b.requests && !b.requests[r].drain
  }

  /** Success means that the transport did it. */
  ghost predicate ResultInv(w: Work, b: Book, log: Log) {
    forall r :: r in w.done && w.done[r].Success? ==> r in b.requests && Delivered(b.requests[r], r, log)
  }

  ghost predicate Delivered(q: Request, r: Call, log: Log) {
    if q.drain then log.closeSends == 1
    else exists i :: 0 <= i < |log.sent| && log.sent[i].call == r && log.sent[i].ok
  }

  predicate Winding(main: MainPc) {
    AwaitsEnd(main) || main.Leave? || main.FlushLeave? || main.Closing? || main.Halted?
  }

  predicate AwaitsEnd(main: MainPc) {
    main.Draining? || main.DrainApply? || main.DrainEnd? || main.Drained?
  }

  /** After CloseSend: no second one, no dial, nothing left to finish but the drain request. */
  ghost predicate HalfInv(log: Log, main: MainPc, b: Book, w: Work) {
    && log.closeSends <= 1
    && (AwaitsEnd(main) ==> log.closeSends == 1)
    && (log.closeSends == 1 ==>
          Winding(main) && |log.dials| == log.dialsAtClose && b.grace.Some? && OthersDone(b, w))
  }

  ghost predicate OthersDone(b: Book, w: Work) {
    forall i :: 0 <= i < |w.accepted| ==> w.accepted[i] in w.done || b.grace == Some(w.accepted[i])
  }

  ghost predicate Inv(s: Sup) {
    && MastershipInv(s.m) && PhaseInv(s.main, s.m.mode) && LogInv(s.log) && StopInv(s.flags.stopped, s.main)
    && RetryInv(s.retry) && FifoInv(s.w) && WorkInv(s.w, InFlight(s.main)) && GateInv(s.b) && CallsInv(s.b, s.w, s.m)
    && DrainInv(s.b, s.w.accepted, s.flags.draining) && CaptureInv(s.b, s.m)
    && SentInv(s.log.sent, s.w, s.b) && HandInv(s.main, s.log.sent, s.w, s.b, s.m.changed)
    && ResultInv(s.w, s.b, s.log) && HalfInv(s.log, s.main, s.b, s.w)
  }

  lemma InitInv(initial: int, max: int)
    requires 0 < initial <= 0x7fff_ffff_ffff_ffff && 0 < max <= 0x7fff_ffff_ffff_ffff
    ensures Inv(Init(initial, max))
  {
  }

  lemma CallFitsIn(s: Sup, c: Call)
    requires Inv(s) && c in s.b.calls
    ensures CallFits(s.b, s.w, s.m, c)
  {
  }

  // ---------------------------------------------------------------- connecting

  lemma SetModeKeeps(m: Mastership, mode: Mode, cause: Cause)
    requires MastershipInv(m) && CauseFits(Epoch(mode, m.session, cause))
    ensures MastershipInv(SetMode(m, mode, cause)) && SetMode(m, mode, cause).mode == mode
    ensures Extends(m, SetMode(m, mode, cause))
  {
  }

  /** Later mastership keeps the earlier epochs. */
  predicate Extends(m: Mastership, n: Mastership) {
    m.epochs <= n.epochs && m.changed <= n.changed
  }

  lemma ConnectKeepsMastership(m: Mastership)
    requires MastershipInv(m) && !m.mode.Connecting?
    ensures var n := SetMode(m.(session := m.session + 1), Connecting, Dial);
            MastershipInv(n) && n.mode.Connecting? && Extends(m, n)
  {
  }

  lemma ConnectFrame(s: Sup, l: MainLabel)
    requires ConnectStep(s, l).Some?
    ensures var t := ConnectStep(s, l).value;
            && t.w == s.w && t.b == s.b && InFlight(s.main).None? && InFlight(t.main).None?
            && !t.main.SendBroken? && !t.main.FlushServe?
            && t.log.closeSends == s.log.closeSends
  {
  }

  lemma ConnectKeepsM(s: Sup, l: MainLabel)
    requires ConnectStep(s, l).Some? && MastershipInv(s.m) && PhaseInv(s.main, s.m.mode)
    ensures var t := ConnectStep(s, l).value;
            MastershipInv(t.m) && PhaseInv(t.main, t.m.mode) && Extends(s.m, t.m)
  {
    hide MastershipInv;
    if s.main.Connect? {
      ConnectKeepsMastership(s.m);
    } else if s.main.ArbApply? {
      SetModeKeeps(s.m, ModeOf(s.main.ok), Reply(s.m.session, s.main.ok));
    } else if s.main.Failed? {
      SetModeKeeps(s.m, Disconnected, Failure);
    }
  }

  /** Calls and captured epochs do not mind further epochs. */
  lemma ExtendKeeps(b: Book, w: Work, m: Mastership, n: Mastership)
    requires CallsInv(b, w, m) && CaptureInv(b, m) && Extends(m, n)
    ensures CallsInv(b, w, n) && CaptureInv(b, n)
  {
    forall c | c in b.calls ensures CallFits(b, w, n, c) {
      assert CallFits(b, w, m, c);
      if SeenPrimary(m, b.calls[c].since) {
        var e: nat :| b.calls[c].since <= e < |m.epochs| && m.epochs[e].mode.Primary?;
        assert n.epochs[e] == m.epochs[e];
      }
    }
  }

  lemma ConnectKeepsLog(s: Sup, l: MainLabel)
    requires ConnectStep(s, l).Some? && LogInv(s.log) && PhaseInv(s.main, s.m.mode)
    ensures var t := ConnectStep(s, l).value; LogInv(t.log) && t.log.sent == s.log.sent
  {
  }

  lemma ConnectKeepsHalf(s: Sup, l: MainLabel)
    requires ConnectStep(s, l).Some? && HalfInv(s.log, s.main, s.b, s.w) && StopInv(s.flags.stopped, s.main)
    ensures var t := ConnectStep(s, l).value;
            && HalfInv(t.log, t.main, t.b, t.w) && StopInv(t.flags.stopped, t.main)
            && t.flags.draining == s.flags.draining
  {
    hide OthersDone;
  }

  lemma ConnectKeepsRetry(s: Sup, l: MainLabel)
    requires ConnectStep(s, l).Some? && RetryInv(s.retry)
    ensures RetryInv(ConnectStep(s, l).value.retry)
  {
    if s.main.Sleeping? && l.Timer? {
      TimerKeepsRetry(s.retry);
    } else if s.main.ArbApply? {
    } else {
      RetrySame(s, l);
    }
  }

  lemma RetrySame(s: Sup, l: MainLabel)
    requires ConnectStep(s, l).Some? && !s.main.ArbApply? && !(s.main.Sleeping? && l.Timer?)
    ensures ConnectStep(s, l).value.retry == s.retry
  {
  }

  lemma TimerKeepsRetry(r: Retry)
    requires RetryInv(r)
    ensures RetryInv(r.(backoff := NextBackoff(r.backoff, r.max), failures := r.failures + 1))
  {
    hide NextBackoff;
    BackoffIsCappedDoubling(r.backoff, r.max);
    DoubledGrows(r.initial, r.failures);
  }

  lemma {:induction false} DoubledGrows(initial: int, n: nat)
    requires 0 < initial
    ensures 0 < Doubled(initial, n)
  {
    if n == 0 {
    } else {
      DoubledGrows(initial, n - 1);
    }
  }

  lemma ConnectKeeps(s: Sup, l: MainLabel)
    requires Inv(s) && ConnectStep(s, l).Some?
    ensures Inv(ConnectStep(s, l).value)
  {
    var t := ConnectStep(s, l).value;
    ConnectFrame(s, l);
    ConnectKeepsM(s, l);
    ConnectKeepsLog(s, l);
    ConnectKeepsHalf(s, l);
    ConnectKeepsRetry(s, l);
    ExtendKeeps(s.b, s.w, s.m, t.m);
    ResultsSame(s.w, s.b, s.log, t.log);
    HandFree(t);
    hide MastershipInv, PhaseInv, LogInv, StopInv, RetryInv, FifoInv, WorkInv, GateInv, CallsInv, DrainInv, CaptureInv;
    hide SentInv, HandInv, ResultInv, HalfInv, InFlight, ConnectStep;
  }

  lemma ResultsSame(w: Work, b: Book, log: Log, log': Log)
    requires ResultInv(w, b, log) && log'.sent == log.sent && log'.closeSends == log.closeSends
    ensures ResultInv(w, b, log')
  {
  }

  /** While connecting, the main loop has no request in its hands. */
  lemma HandFree(t: Sup)
    requires InFlight(t.main).None? && !t.main.SendBroken? && !t.main.FlushServe?
    ensures HandInv(t.main, t.log.sent, t.w, t.b, t.m.changed)
  {
  }

  // ---------------------------------------------------------------- the work list

  /** What dequeuing and finishing do to the work list. */
  ghost predicate Progress(w: Work, v: Work) {
    && v.accepted == w.accepted && w.taken <= v.taken
    && (forall r :: r in w.done ==> r in v.done && v.done[r] == w.done[r])
    && (forall r :: r in v.done ==> r in w.done || r in w.accepted)
  }

  lemma PopKeeps(w: Work)
    requires FifoInv(w) && WorkInv(w, None) && w.queue != []
    ensures FifoInv(Pop(w)) && WorkInv(Pop(w), Some(w.queue[0])) && Progress(w, Pop(w))
  {
    assert w.queue[0] == w.accepted[w.taken];
    assert w.queue[1..] == w.accepted[w.taken + 1..];
  }

  lemma FinishKeeps(w: Work, r: Call, o: Outcome)
    requires FifoInv(w) && WorkInv(w, Some(r))
    ensures FifoInv(Finish(w, r, o)) && WorkInv(Finish(w, r, o), None) && Progress(w, Finish(w, r, o))
    ensures r !in w.done && Finish(w, r, o).done == w.done[r := o]
  {
  }

  lemma FailKeeps(w: Work, o: Outcome)
    requires FifoInv(w) && WorkInv(w, None) && w.queue != []
    ensures var v := Finish(Pop(w), w.queue[0], o);
            && FifoInv(v) && WorkInv(v, None) && Progress(w, v)
            && w.queue[0] !in w.done && v.done == w.done[w.queue[0] := o]
  {
    PopKeeps(w);
    FinishKeeps(Pop(w), w.queue[0], o);
  }

  /** Calls, transmissions and the half-close do not mind progress. */
  lemma ProgressKeeps(b: Book, w: Work, v: Work, m: Mastership, sent: seq<Tx>)
    requires CallsInv(b, w, m) && SentInv(sent, w, b) && Progress(w, v) && v.taken <= |v.accepted|
    ensures CallsInv(b, v, m) && SentInv(sent, v, b)
    ensures OthersDone(b, w) ==> OthersDone(b, v)
  {
    forall c | c in b.calls ensures CallFits(b, v, m, c) {
      assert CallFits(b, w, m, c);
      if b.grace.Some? {
        DoneStays(w, v, b.grace.value);
      }
    }
    forall i | 0 <= i < |sent| ensures TxFits(v, b, sent[i]) {
      assert TxFits(w, b, sent[i]);
    }
    if OthersDone(b, w) {
      forall i | 0 <= i < |v.accepted| ensures v.accepted[i] in v.done || b.grace == Some(v.accepted[i]) {
        assert w.accepted[i] in w.done || b.grace == Some(w.accepted[i]);
        DoneStays(w, v, v.accepted[i]);
      }
    }
  }

  lemma DoneStays(w: Work, v: Work, r: Call)
    requires Progress(w, v)
    ensures r in w.done ==> r in v.done && v.done[r] == w.done[r]
  {
  }

  lemma ProgressSelf(w: Work)
    ensures Progress(w, w)
  {
  }

  // ---------------------------------------------------------------- serving

  lemma ServeFrame(s: Sup, l: MainLabel)
    requires ServeStep(s, l).Some?
    ensures var t := ServeStep(s, l).value;
            && t.b == s.b && t.retry == s.retry && t.w.accepted == s.w.accepted
            && t.flags.draining == s.flags.draining && t.flags.stopped == s.flags.stopped
  {
  }

  lemma ServePoints(s: Sup, l: MainLabel)
    requires ServeStep(s, l).Some?
    ensures var t := ServeStep(s, l).value;
            && !s.main.Halted? && !t.main.Halted? && !Winding(s.main) && !AwaitsEnd(t.main)
            && t.log.closeSends == s.log.closeSends
  {
  }

  lemma ServeKeepsM(s: Sup, l: MainLabel)
    requires ServeStep(s, l).Some? && MastershipInv(s.m) && PhaseInv(s.main, s.m.mode)
    ensures var t := ServeStep(s, l).value;
            MastershipInv(t.m) && PhaseInv(t.main, t.m.mode) && Extends(s.m, t.m)
  {
    hide MastershipInv;
    if s.main.ServeApply? {
      SetModeKeeps(s.m, ModeOf(s.main.ok), Reply(s.m.session, s.main.ok));
    } else {
      SetModeKeeps(s.m, Disconnected, Failure);
    }
  }

  lemma ServeKeepsWork(s: Sup, l: MainLabel)
    requires ServeStep(s, l).Some? && FifoInv(s.w) && WorkInv(s.w, InFlight(s.main))
    ensures var t := ServeStep(s, l).value;
            FifoInv(t.w) && WorkInv(t.w, InFlight(t.main)) && Progress(s.w, t.w)
  {
    hide FifoInv, WorkInv, Progress, Finish, Pop;
    ProgressSelf(s.w);
    if s.main.Serving? && l.Dequeue? {
      PopKeeps(s.w);
    } else if s.main.FlushServe? {
      if s.w.queue != [] {
        FailKeeps(s.w, s.main.error);
      }
    } else if InFlight(s.main).Some? {
      var r := InFlight(s.main).value;
      forall o ensures FifoInv(Finish(s.w, r, o)) && WorkInv(Finish(s.w, r, o), None) &&
          Progress(s.w, Finish(s.w, r, o))
      {
        FinishKeeps(s.w, r, o);
      }
    }
  }

  lemma ServeKeepsLog(s: Sup, l: MainLabel)
    requires ServeStep(s, l).Some? && LogInv(s.log)
    ensures var t := ServeStep(s, l).value;
            LogInv(t.log) && (s.main.Transmit? || t.log == s.log)
  {
  }

  lemma ServeKeepsSent(s: Sup, l: MainLabel)
    requires ServeStep(s, l).Some? && Inv(s)
    ensures var t := ServeStep(s, l).value;
            SentInv(t.log.sent, t.w, t.b) && HandInv(t.main, t.log.sent, t.w, t.b, t.m.changed)
  {
    ServeFrame(s, l);
    ServeKeepsWork(s, l);
    ServeKeepsLog(s, l);
    ProgressKeeps(s.b, s.w, ServeStep(s, l).value.w, s.m, s.log.sent);
    if s.main.Transmit? {
      SendKeeps(s, l);
    } else {
      ServeKeepsHand(s, l);
    }
  }

  lemma SendKeeps(s: Sup, l: MainLabel)
    requires ServeStep(s, l).Some? && s.main.Transmit?
    requires PhaseInv(s.main, s.m.mode) && MastershipInv(s.m) && WorkInv(s.w, InFlight(s.main)) && FifoInv(s.w)
    requires CaptureInv(s.b, s.m) && SentInv(s.log.sent, s.w, s.b) && HandInv(s.main, s.log.sent, s.w, s.b, s.m.changed)
    ensures var t := ServeStep(s, l).value;
            SentInv(t.log.sent, t.w, t.b) && HandInv(t.main, t.log.sent, t.w, t.b, t.m.changed)
  {
    var r := s.main.r;
    assert Captured(s.b.requests[r], s.m);
    var x := Tx(s.w.taken, r, s.m.session, s.m.changed, s.m.mode, l.ok);
    assert TxFits(s.w, s.b, x);
    assert ServeStep(s, l).value.log.sent == s.log.sent + [x];
  }

  lemma ServeKeepsHand(s: Sup, l: MainLabel)
    requires ServeStep(s, l).Some? && !s.main.Transmit?
    requires FifoInv(s.w) && WorkInv(s.w, InFlight(s.main)) && CallsInv(s.b, s.w, s.m)
    requires DrainInv(s.b, s.w.accepted, s.flags.draining)
    requires SentInv(s.log.sent, s.w, s.b) && HandInv(s.main, s.log.sent, s.w, s.b, s.m.changed)
    ensures var t := ServeStep(s, l).value;
            HandInv(t.main, t.log.sent, t.w, t.b, t.m.changed)
  {
    if s.main.Serving? && l.Dequeue? {
      forall i | 0 <= i < |s.log.sent| ensures s.log.sent[i].index < s.w.taken + 1 {
        assert TxFits(s.w, s.b, s.log.sent[i]);
      }
    }
  }

  lemma FinishResult(w: Work, b: Book, log: Log, r: Call, o: Outcome)
    requires ResultInv(w, b, log)
    requires o.Success? ==> r in b.requests && Delivered(b.requests[r], r, log)
    ensures ResultInv(Finish(w, r, o), b, log)
  {
  }

  lemma PopResult(w: Work, b: Book, log: Log)
    requires ResultInv(w, b, log) && w.queue != []
    ensures ResultInv(Pop(w), b, log)
  {
  }

  lemma MoreSentResult(w: Work, b: Book, log: Log, x: Tx)
    requires ResultInv(w, b, log)
    ensures ResultInv(w, b, log.(sent := log.sent + [x]))
  {
    var log' := log.(sent := log.sent + [x]);
    forall r | r in w.done && w.done[r].Success? ensures Delivered(b.requests[r], r, log') {
      assert Delivered(b.requests[r], r, log);
      if !b.requests[r].drain {
        var i :| 0 <= i < |log.sent| && log.sent[i].call == r && log.sent[i].ok;
        assert log'.sent[i] == log.sent[i];
      }
    }
  }

  lemma ServeKeepsResults(s: Sup, l: MainLabel)
    requires ServeStep(s, l).Some? && ResultInv(s.w, s.b, s.log) && HandInv(s.main, s.log.sent, s.w, s.b, s.m.changed)
    ensures var t := ServeStep(s, l).value; ResultInv(t.w, t.b, t.log)
  {
    hide ResultInv, Finish, Pop;
    if s.main.Transmit? {
      MoreSentResult(s.w, s.b, s.log, Tx(s.w.taken, s.main.r, s.m.session, s.m.changed, s.m.mode, l.ok));
    } else if s.main.Serving? && l.Dequeue? {
      PopResult(s.w, s.b, s.log);
    } else if s.main.FlushServe? && s.w.queue != [] {
      PopResult(s.w, s.b, s.log);
      FinishResult(Pop(s.w), s.b, s.log, s.w.queue[0], s.main.error);
    } else if InFlight(s.main).Some? {
      CompleteResult(s, l, InFlight(s.main).value);
    }
  }

  lemma CompleteResult(s: Sup, l: MainLabel, r: Call)
    requires ServeStep(s, l).Some? && InFlight(s.main) == Some(r) && !s.main.Transmit?
    requires ResultInv(s.w, s.b, s.log) && HandInv(s.main, s.log.sent, s.w, s.b, s.m.changed)
    ensures var t := ServeStep(s, l).value; ResultInv(t.w, t.b, t.log)
  {
    hide ResultInv, Finish;
    FinishResult(s.w, s.b, s.log, r, Cancelled);
    FinishResult(s.w, s.b, s.log, r, NotPrimary);
    FinishResult(s.w, s.b, s.log, r, StreamClosed);
    FinishResult(s.w, s.b, s.log, r, Transport);
    if s.main.Transmitted? && s.main.ok {
      FinishResult(s.w, s.b, s.log, r, Success);
    }
  }

  lemma ServeKeeps(s: Sup, l: MainLabel)
    requires Inv(s) && ServeStep(s, l).Some?
    ensures Inv(ServeStep(s, l).value)
  {
    var t := ServeStep(s, l).value;
    ServeFrame(s, l);
    ServePoints(s, l);
    ServeKeepsM(s, l);
    ServeKeepsWork(s, l);
    ServeKeepsLog(s, l);
    ServeKeepsSent(s, l);
    ServeKeepsResults(s, l);
    ProgressKeeps(s.b, s.w, t.w, s.m, s.log.sent);
    ExtendKeeps(s.b, t.w, s.m, t.m);
    hide MastershipInv, PhaseInv, LogInv, RetryInv, FifoInv, WorkInv, GateInv, CallsInv, DrainInv, CaptureInv;
    hide SentInv, HandInv, ResultInv, OthersDone, InFlight, ServeStep, Winding, AwaitsEnd, Progress;
  }

  // ---------------------------------------------------------------- finishing

  lemma FinishFrame(s: Sup, l: MainLabel)
    requires FinishStep(s, l).Some?
    ensures var t := FinishStep(s, l).value;
            t.b == s.b && t.retry == s.retry && t.flags.draining == s.flags.draining
  {
  }

  lemma FinishLog(s: Sup, l: MainLabel)
    requires FinishStep(s, l).Some?
    ensures var t := FinishStep(s, l).value;
            t.log.sent == s.log.sent && t.log.dials == s.log.dials && t.log.exchanges == s.log.exchanges
  {
  }

  lemma FinishKeepsM(s: Sup, l: MainLabel)
    requires FinishStep(s, l).Some? && MastershipInv(s.m) && PhaseInv(s.main, s.m.mode)
    requires StopInv(s.flags.stopped, s.main)
    ensures var t := FinishStep(s, l).value;
            MastershipInv(t.m) && PhaseInv(t.main, t.m.mode) && Extends(s.m, t.m) && StopInv(t.flags.stopped, t.main)
  {
    hide MastershipInv;
    if s.main.DrainApply? {
      SetModeKeeps(s.m, ModeOf(s.main.ok), Reply(s.m.session, s.main.ok));
    } else {
      SetModeKeeps(s.m, Disconnected, Shutdown);
    }
  }

  lemma FinishKeepsWork(s: Sup, l: MainLabel)
    requires FinishStep(s, l).Some? && FifoInv(s.w) && WorkInv(s.w, InFlight(s.main))
    ensures var t := FinishStep(s, l).value;
            FifoInv(t.w) && WorkInv(t.w, InFlight(t.main)) && Progress(s.w, t.w)
  {
    hide FifoInv, WorkInv, Progress, Finish, Pop;
    ProgressSelf(s.w);
    if s.main.FlushLeave? {
      if s.w.queue != [] {
        FailKeeps(s.w, StreamClosed);
      }
    } else if s.main.Drained? {
      FinishKeeps(s.w, s.main.r, s.main.result);
    }
  }

  lemma FinishKeepsHand(s: Sup, l: MainLabel)
    requires FinishStep(s, l).Some? && HandInv(s.main, s.log.sent, s.w, s.b, s.m.changed)
    ensures var t := FinishStep(s, l).value; HandInv(t.main, t.log.sent, t.w, t.b, t.m.changed)
  {
  }

  /** When the drain request is dequeued, it is the last accepted request and all others are finished. */
  lemma DrainIsLast(s: Sup)
    requires Inv(s) && s.main.HalfClose?
    ensures s.b.grace == Some(s.main.r) && s.w.queue == [] && OthersDone(s.b, s.w) && s.log.closeSends == 0
  {
    DrainOnce(s.w, s.main.r, s.b.drainedAt.value, s.w.taken - 1, |s.w.accepted| - 1);
  }

  lemma DrainOnce(w: Work, g: Call, at: nat, i: nat, j: nat)
    requires FifoInv(w) && i < |w.accepted| && j < |w.accepted|
    requires forall k :: 0 <= k < |w.accepted| ==> (w.accepted[k] == g <==> at <= k)
    requires w.accepted[i] == g && i <= j
    ensures i == j
  {
    assert w.accepted[j] == g;
  }

  lemma FinishKeepsHalf(s: Sup, l: MainLabel)
    requires FinishStep(s, l).Some? && Inv(s)
    ensures var t := FinishStep(s, l).value; HalfInv(t.log, t.main, t.b, t.w)
  {
    FinishKeepsWork(s, l);
    FinishFrame(s, l);
    if s.main.HalfClose? {
      DrainIsLast(s);
    }
    ProgressKeeps(s.b, s.w, FinishStep(s, l).value.w, s.m, s.log.sent);
    HalfMoves(s, l);
  }

  lemma HalfMoves(s: Sup, l: MainLabel)
    requires FinishStep(s, l).Some? && HalfInv(s.log, s.main, s.b, s.w)
    requires s.main.HalfClose? ==> s.log.closeSends == 0 && OthersDone(s.b, s.w) && s.b.grace.Some?
    requires OthersDone(s.b, s.w) ==> OthersDone(s.b, FinishStep(s, l).value.w)
    ensures var t := FinishStep(s, l).value; HalfInv(t.log, t.main, t.b, t.w)
  {
    hide OthersDone;
  }

  lemma CloseSentResult(w: Work, b: Book, log: Log)
    requires ResultInv(w, b, log) && log.closeSends == 0
    ensures ResultInv(w, b, log.(closeSends := 1, dialsAtClose := |log.dials|))
  {
    forall r | r in w.done && w.done[r].Success?
        ensures r in b.requests && Delivered(b.requests[r], r, log.(closeSends := 1, dialsAtClose := |log.dials|))
    {
      assert Delivered(b.requests[r], r, log);
    }
  }

  lemma FinishKeepsResults(s: Sup, l: MainLabel)
    requires FinishStep(s, l).Some? && Inv(s)
    ensures var t := FinishStep(s, l).value; ResultInv(t.w, t.b, t.log)
  {
    if s.main.HalfClose? {
      DrainIsLast(s);
      CloseSentResult(s.w, s.b, s.log);
    } else if s.main.Drained? {
      FinishResult(s.w, s.b, s.log, s.main.r, s.main.result);
    } else if s.main.FlushLeave? && s.w.queue != [] {
      PopResult(s.w, s.b, s.log);
      FinishResult(Pop(s.w), s.b, s.log, s.w.queue[0], StreamClosed);
    }
    hide MastershipInv, PhaseInv, LogInv, RetryInv, FifoInv, WorkInv, GateInv, CallsInv, DrainInv, CaptureInv;
    hide SentInv, HandInv, ResultInv, OthersDone, Finish, Pop;
  }

  lemma FinishKeepsInv(s: Sup, l: MainLabel)
    requires Inv(s) && FinishStep(s, l).Some?
    ensures Inv(FinishStep(s, l).value)
  {
    var t := FinishStep(s, l).value;
    FinishFrame(s, l);
    FinishLog(s, l);
    FinishKeepsM(s, l);
    FinishKeepsWork(s, l);
    FinishKeepsHand(s, l);
    FinishKeepsHalf(s, l);
    FinishKeepsResults(s, l);
    ProgressKeeps(s.b, s.w, t.w, s.m, s.log.sent);
    ExtendKeeps(s.b, t.w, s.m, t.m);
    hide MastershipInv, PhaseInv, RetryInv, FifoInv, WorkInv, GateInv, CallsInv, DrainInv, CaptureInv;
    hide SentInv, HandInv, ResultInv, HalfInv, OthersDone, InFlight, FinishStep, StopInv, Progress;
  }

  lemma MainKeeps(s: Sup, l: MainLabel)
    requires Inv(s) && MainStep(s, l).Some?
    ensures Inv(MainStep(s, l).value)
  {
    hide Inv, ConnectStep, ServeStep, FinishStep;
    if ConnectStep(s, l).Some? {
      ConnectKeeps(s, l);
    } else if ServeStep(s, l).Some? {
      ServeKeeps(s, l);
    } else {
      FinishKeepsInv(s, l);
    }
  }
}
