/** Shutting down: what is no longer accepted or dialled, and that the main loop can always come to its end. */
module SupervisorShutdown {
  import opened Bits
  import opened Wrappers
  import opened Supervisor
  import opened SupervisorInv
  import opened SupervisorCalls
  import opened SupervisorResults
  import opened SupervisorHistory
  import opened SupervisorOutcomes

  /** Close or CloseGracefully has begun to take effect, or the main loop has returned. */
  predicate ShuttingDown(f: Flags) {
    f.draining || f.stop || f.stopped
  }

  // ---------------------------------------------------------------- calls that begin too late

  predicate Doomed(s: Sup, c: Call) {
    ShuttingDown(s.flags) || CtxDone(s, c)
  }

  predicate Refused(o: Outcome) {
    o == Cancelled || o == StreamClosed
  }

  /** A Send that can only be rejected: what dooms it is still to be tested, or has been. */
  predicate Rejected(s: Sup, c: Call) {
    c in s.b.calls && s.b.calls[c].kind.SEND? && c !in s.w.accepted &&
    match s.b.calls[c].pc
    case SendStart | SendGate | SendWatch | SendCheckCtx => Doomed(s, c)
    case SendCheckFlags => ShuttingDown(s.flags)
    case SendReturnGate(error) => error.Some? && Refused(error.value)
    case Returned(o) => Refused(o)
    case _ => false
  }

  lemma FlagsStay(s: Sup, l: Label)
    requires Next(s, l).Some? && ShuttingDown(s.flags)
    ensures ShuttingDown(Next(s, l).value.flags)
  {
    if l.OfCall? {
      CallFlagsStay(s, l.c, l.a);
    } else if l.Main? {
      MainFlagsStay(s, l.m);
    }
  }

  lemma CallFlagsStay(s: Sup, c: Call, l: CallLabel)
    requires c in s.b.calls && CallStep(s, c, l).Some? && ShuttingDown(s.flags)
    ensures ShuttingDown(CallStep(s, c, l).value.flags)
  {
  }

  lemma MainFlagsStay(s: Sup, l: MainLabel)
    requires MainStep(s, l).Some? && ShuttingDown(s.flags)
    ensures ShuttingDown(MainStep(s, l).value.flags)
  {
    MainKeepsShutdown(s, l);
    hide MainStep;
  }

  lemma RejectedCallStep(s: Sup, c: Call, l: CallLabel)
    requires Rejected(s, c) && CallStep(s, c, l).Some?
    ensures Rejected(CallStep(s, c, l).value, c)
  {
    hide CloseCall, WaitCall, BecomeCall;
  }

  /** Another thread accepts no request of this call. */
  lemma OthersAcceptOwn(s: Sup, l: Label, c: Call)
    requires Inv(s) && Next(s, l).Some? && !(l.OfCall? && l.c == c) && c !in s.w.accepted
    ensures c !in Next(s, l).value.w.accepted
  {
    hide Inv;
    if l.Main? {
      MainAcceptsNothing(s, l.m);
    } else if l.OfCall? {
      CallAcceptsOwn(s, l.c, l.a, c);
    }
  }

  lemma MainAcceptsNothing(s: Sup, l: MainLabel)
    requires MainStep(s, l).Some?
    ensures MainStep(s, l).value.w.accepted == s.w.accepted
  {
  }

  lemma CallAcceptsOwn(s: Sup, c: Call, l: CallLabel, d: Call)
    requires c in s.b.calls && CallStep(s, c, l).Some? && d != c && d !in s.w.accepted
    ensures d !in CallStep(s, c, l).value.w.accepted
  {
  }

  lemma RejectedStep(s: Sup, l: Label, c: Call)
    requires Inv(s) && Rejected(s, c) && Next(s, l).Some?
    ensures Rejected(Next(s, l).value, c)
  {
    hide Inv, MainStep, CallStep, ReceiverStep, EnvStep;
    if l.OfCall? && l.c == c {
      RejectedCallStep(s, c, l.a);
    } else {
      OthersLeaveCall(s, l, c);
      OthersAcceptOwn(s, l, c);
      IdentityStep(s, l, c);
      if ShuttingDown(s.flags) {
        FlagsStay(s, l);
      }
      if CtxDone(s, c) {
        CtxStep(s, l, c);
      }
    }
  }

  lemma {:induction false} RejectedStays(run: seq<Sup>, labels: seq<Label>, i: nat, k: nat, c: Call)
    requires Run(run, labels) && i <= k < |run| && Rejected(run[i], c)
    ensures Rejected(run[k], c)
    decreases k - i
  {
    hide Next, Rejected;
    if i == k {
    } else {
      RejectedStays(run, labels, i, k - 1, c);
      RunInv(run, labels, k - 1);
      assert Next(run[k - 1], labels[k - 1]) == Some(run[k]);
      RejectedStep(run[k - 1], labels[k - 1], c);
    }
  }

  /**
   A Send that begins after shutdown has begun is never accepted, and returns nothing but ErrStreamClosed or the
   error of its own context.
   */
  lemma LateSendIsRejected(run: seq<Sup>, labels: seq<Label>, i: nat, k: nat, c: Call)
    requires Run(run, labels) && i < k < |run| && labels[i] == Env(NewCall(c, SEND)) && ShuttingDown(run[i].flags)
    ensures c in run[k].b.calls && c !in run[k].w.accepted
    ensures run[k].b.calls[c].pc.Returned? ==> Refused(run[k].b.calls[c].pc.result)
  {
    RunInv(run, labels, i);
    assert Next(run[i], labels[i]) == Some(run[i + 1]);
    SendBegins(run[i], c);
    RejectedStays(run, labels, i + 1, k, c);
  }

  lemma SendBegins(s: Sup, c: Call)
    requires Inv(s) && Next(s, Env(NewCall(c, SEND))).Some? && ShuttingDown(s.flags)
    ensures Rejected(Next(s, Env(NewCall(c, SEND))).value, c)
  {
    assert c !in s.b.requests;
    assert forall i :: 0 <= i < |s.w.accepted| ==> s.w.accepted[i] in s.b.requests;
  }

  /** A Send whose context ends before it has been tested for the last time is never accepted. */
  lemma CancelledSendIsRejected(run: seq<Sup>, labels: seq<Label>, i: nat, k: nat, c: Call)
    requires Run(run, labels) && i <= k < |run| && c in run[i].b.calls && run[i].b.calls[c].kind.SEND?
    requires run[i].b.calls[c].pc in {SendStart, SendGate, SendWatch, SendCheckCtx} && run[i].b.calls[c].ctxDone
    ensures c in run[k].b.calls && c !in run[k].w.accepted
    ensures run[k].b.calls[c].pc.Returned? ==> Refused(run[k].b.calls[c].pc.result)
  {
    RunInv(run, labels, i);
    NotYetAccepted(run[i], c);
    RejectedStays(run, labels, i, k, c);
  }

  lemma NotYetAccepted(s: Sup, c: Call)
    requires Inv(s) && c in s.b.calls && s.b.calls[c].pc in {SendStart, SendGate, SendWatch, SendCheckCtx}
    ensures c !in s.w.accepted
  {
    assert CallFits(s.b, s.w, s.m, c);
    assert forall i :: 0 <= i < |s.w.accepted| ==> s.w.accepted[i] in s.b.requests;
  }

  // ---------------------------------------------------------------- closes and waits that begin too late

  /** A CloseGracefully that can only report on another call's drain request, or its own context. */
  predicate Idle(s: Sup, c: Call) {
    c in s.b.calls && s.b.calls[c].kind.CLOSE? && s.b.calls[c].ctxDone && s.b.grace != Some(c) &&
    match s.b.calls[c].pc
    case CloseStart | CloseCheckCtx | Wait(_) | WaitSelect(_) | WaitRecheck(_) | Returned(_) => true
    case _ => false
  }

  lemma IdleCallStep(s: Sup, c: Call, l: CallLabel)
    requires Idle(s, c) && CallStep(s, c, l).Some?
    ensures Idle(CallStep(s, c, l).value, c)
  {
    hide SendCall, BecomeCall;
  }

  lemma OthersDrainOwn(s: Sup, l: Label, c: Call)
    requires Next(s, l).Some? && !(l.OfCall? && l.c == c) && s.b.grace != Some(c)
    ensures Next(s, l).value.b.grace != Some(c)
  {
    if l.Main? {
      MainKeepsBook(s, l.m);
    } else if l.OfCall? {
      CallDrainsOwn(s, l.c, l.a);
    }
    hide MainStep, CallStep;
  }

  lemma CallDrainsOwn(s: Sup, c: Call, l: CallLabel)
    requires c in s.b.calls && CallStep(s, c, l).Some?
    ensures CallStep(s, c, l).value.b.grace == s.b.grace || CallStep(s, c, l).value.b.grace == Some(c)
  {
  }

  lemma IdleStep(s: Sup, l: Label, c: Call)
    requires Inv(s) && Idle(s, c) && Next(s, l).Some?
    ensures Idle(Next(s, l).value, c)
  {
    hide Inv, MainStep, CallStep, ReceiverStep, EnvStep;
    if l.OfCall? && l.c == c {
      IdleCallStep(s, c, l.a);
    } else {
      OthersLeaveCall(s, l, c);
      OthersDrainOwn(s, l, c);
      IdentityStep(s, l, c);
      CtxStep(s, l, c);
    }
  }

  /** A CloseGracefully whose context is over before it is tested never starts a drain. */
  lemma {:induction false} CancelledCloseStartsNothing(run: seq<Sup>, labels: seq<Label>, i: nat, k: nat, c: Call)
    requires Run(run, labels) && i <= k < |run| && Idle(run[i], c)
    ensures Idle(run[k], c) && run[k].b.grace != Some(c)
    decreases k - i
  {
    hide Next, Inv;
    if i == k {
    } else {
      CancelledCloseStartsNothing(run, labels, i, k - 1, c);
      RunInv(run, labels, k - 1);
      assert Next(run[k - 1], labels[k - 1]) == Some(run[k]);
      IdleStep(run[k - 1], labels[k - 1], c);
    }
  }

  /** A BecomePrimary after the end of the client's context. */
  predicate TooLate(s: Sup, c: Call) {
    c in s.b.calls && s.b.calls[c].kind.BECOME? && s.flags.clientDone &&
    (s.b.calls[c].pc.BecomeStart? || s.b.calls[c].pc == Returned(StreamClosed))
  }

  lemma TooLateStep(s: Sup, l: Label, c: Call)
    requires Inv(s) && TooLate(s, c) && Next(s, l).Some?
    ensures TooLate(Next(s, l).value, c)
  {
    hide Inv, MainStep, CallStep;
    ClientStaysDone(s, l);
    if l.OfCall? && l.c == c {
      TooLateCallStep(s, c, l.a);
    } else {
      OthersLeaveCall(s, l, c);
      IdentityStep(s, l, c);
    }
  }

  lemma TooLateCallStep(s: Sup, c: Call, l: CallLabel)
    requires TooLate(s, c) && CallStep(s, c, l).Some?
    ensures TooLate(CallStep(s, c, l).value, c)
  {
    hide SendCall, CloseCall;
  }

  lemma ClientStaysDone(s: Sup, l: Label)
    requires Next(s, l).Some? && s.flags.clientDone
    ensures Next(s, l).value.flags.clientDone
  {
    if l.OfCall? {
      CallKeepsClient(s, l.c, l.a);
    } else if l.Main? {
      MainKeepsClient(s, l.m);
    }
    hide MainStep, CallStep;
  }

  lemma CallKeepsClient(s: Sup, c: Call, l: CallLabel)
    requires c in s.b.calls && CallStep(s, c, l).Some?
    ensures CallStep(s, c, l).value.flags.clientDone == s.flags.clientDone
  {
  }

  lemma MainKeepsClient(s: Sup, l: MainLabel)
    requires MainStep(s, l).Some?
    ensures MainStep(s, l).value.flags.clientDone == s.flags.clientDone
  {
    MainKeepsShutdown(s, l);
    hide MainStep;
  }

  lemma {:induction false} TooLateStays(run: seq<Sup>, labels: seq<Label>, i: nat, k: nat, c: Call)
    requires Run(run, labels) && i <= k < |run| && TooLate(run[i], c)
    ensures TooLate(run[k], c)
    decreases k - i
  {
    hide Next;
    if i == k {
    } else {
      TooLateStays(run, labels, i, k - 1, c);
      RunInv(run, labels, k - 1);
      assert Next(run[k - 1], labels[k - 1]) == Some(run[k]);
      TooLateStep(run[k - 1], labels[k - 1], c);
    }
  }

  /** A BecomePrimary that begins after the client was closed returns ErrStreamClosed, whatever the state is. */
  lemma LateBecomeFails(run: seq<Sup>, labels: seq<Label>, i: nat, k: nat, c: Call)
    requires Run(run, labels) && i < k < |run| && labels[i] == Env(NewCall(c, BECOME)) && run[i].flags.clientDone
    ensures c in run[k].b.calls
    ensures run[k].b.calls[c].pc.Returned? ==> run[k].b.calls[c].pc.result == StreamClosed
  {
    assert Next(run[i], labels[i]) == Some(run[i + 1]);
    CallBegins(run[i], c);
    ClientStaysDone(run[i], labels[i]);
    TooLateStays(run, labels, i + 1, k, c);
  }

  /** What BecomePrimary returns: nil when it finds the state Primary, its context's error, or ErrStreamClosed. */
  lemma BecomeReturns(run: seq<Sup>, labels: seq<Label>, i: nat, c: Call)
    requires Run(run, labels) && i < |labels| && ReturnsAt(run[i], run[i + 1], c) && run[i].b.calls[c].kind.BECOME?
    ensures match run[i + 1].b.calls[c].pc.result
            case Success => run[i].m.mode.Primary?
            case Cancelled => run[i].b.calls[c].ctxDone
            case StreamClosed => run[i].flags.clientDone || run[i].flags.clientClosed
            case _ => false
  {
    hide Inv, Next, CallStep;
    var s, l := run[i], labels[i];
    RunInv(run, labels, i);
    assert Next(s, l) == Some(run[i + 1]);
    CallFitsIn(s, c);
    if !(l.OfCall? && l.c == c) {
      OthersLeaveCall(s, l, c);
    }
    CallNext(s, c, l.a);
    BecomeOutcome(s, c, l.a);
  }

  lemma BecomeOutcome(s: Sup, c: Call, l: CallLabel)
    requires c in s.b.calls && s.b.calls[c].kind.BECOME? && CallStep(s, c, l).Some? && CallFits(s.b, s.w, s.m, c)
    requires ReturnsAt(s, CallStep(s, c, l).value, c)
    ensures match CallStep(s, c, l).value.b.calls[c].pc.result
            case Success => s.m.mode.Primary?
            case Cancelled => s.b.calls[c].ctxDone
            case StreamClosed => s.flags.clientDone || s.flags.clientClosed
            case _ => false
  {
    hide SendCall, CloseCall;
  }

  // ---------------------------------------------------------------- no new connection

  /** The main loop is past the check that precedes a dial, and has not dialled yet. */
  predicate AboutToDial(main: MainPc) {
    main.Connect? || main.Dialing?
  }

  lemma NoDialStep(s: Sup, l: Label)
    requires Next(s, l).Some? && (s.flags.draining || s.flags.stop) && !AboutToDial(s.main)
    ensures var t := Next(s, l).value; (t.flags.draining || t.flags.stop) && !AboutToDial(t.main)
  {
    if l.OfCall? {
      CallKeepsRest(s, l.c, l.a);
      CallKeepsShutdown(s, l.c, l.a);
    } else if l.Main? {
      MainDialsNot(s, l.m);
    }
  }

  lemma CallKeepsShutdown(s: Sup, c: Call, l: CallLabel)
    requires c in s.b.calls && CallStep(s, c, l).Some? && (s.flags.draining || s.flags.stop)
    ensures CallStep(s, c, l).value.flags.draining || CallStep(s, c, l).value.flags.stop
  {
  }

  lemma MainDialsNot(s: Sup, l: MainLabel)
    requires MainStep(s, l).Some? && (s.flags.draining || s.flags.stop) && !AboutToDial(s.main)
    ensures var t := MainStep(s, l).value; (t.flags.draining || t.flags.stop) && !AboutToDial(t.main)
  {
    MainKeepsShutdown(s, l);
    if AboutToDial(MainStep(s, l).value.main) {
      MainChecksFirst(s, l);
    }
    hide MainStep;
  }

  predicate SameShutdown(f: Flags, g: Flags) {
    g.draining == f.draining && g.stop == f.stop && g.clientDone == f.clientDone && (f.stopped ==> g.stopped)
  }

  lemma MainKeepsShutdown(s: Sup, l: MainLabel)
    requires MainStep(s, l).Some?
    ensures SameShutdown(s.flags, MainStep(s, l).value.flags)
  {
    ConnectKeepsShutdown(s, l);
    ServeKeepsShutdown(s, l);
    FinishKeepsShutdown(s, l);
    hide ConnectStep, ServeStep, FinishStep;
  }

  lemma ConnectKeepsShutdown(s: Sup, l: MainLabel)
    ensures ConnectStep(s, l).Some? ==> SameShutdown(s.flags, ConnectStep(s, l).value.flags)
  {
    hide SetMode, ApplyReply, Finish, Pop, NextBackoff, Offers, HasEnded, CtxDone;
  }

  lemma ServeKeepsShutdown(s: Sup, l: MainLabel)
    ensures ServeStep(s, l).Some? ==> SameShutdown(s.flags, ServeStep(s, l).value.flags)
  {
    hide SetMode, ApplyReply, Finish, Pop, NextBackoff, Offers, HasEnded, CtxDone;
  }

  lemma FinishKeepsShutdown(s: Sup, l: MainLabel)
    ensures FinishStep(s, l).Some? ==> SameShutdown(s.flags, FinishStep(s, l).value.flags)
  {
    hide SetMode, ApplyReply, Finish, Pop, NextBackoff, Offers, HasEnded, CtxDone, Receive, FailFirst;
    if s.main.FlushLeave? && l.Go? && s.w.queue != [] {
      FailsKeepFlags(s);
    } else if s.main.Draining? && FinishStep(s, l).Some? {
      DrainingKeepsFlags(s, l);
    }
  }

  lemma FailsKeepFlags(s: Sup)
    requires s.w.queue != []
    ensures FailFirst(s, StreamClosed).flags == s.flags
  {
  }

  lemma DrainingKeepsFlags(s: Sup, l: MainLabel)
    requires s.main.Draining? && FinishStep(s, l).Some?
    ensures FinishStep(s, l).value.flags == s.flags
  {
  }

  lemma MainChecksFirst(s: Sup, l: MainLabel)
    requires MainStep(s, l).Some? && !AboutToDial(s.main) && AboutToDial(MainStep(s, l).value.main)
    ensures !s.flags.draining && !s.flags.stop
  {
  }

  /** Once draining or stop is closed there is no dial, but for one whose check came before. */
  lemma {:induction false} NoReconnect(run: seq<Sup>, labels: seq<Label>, i: nat, j: nat)
    requires Run(run, labels) && i <= j < |run|
    requires (run[i].flags.draining || run[i].flags.stop) && !AboutToDial(run[i].main)
    ensures (run[j].flags.draining || run[j].flags.stop) && !AboutToDial(run[j].main)
    ensures j < |labels| ==> !IsDial(labels[j])
    decreases j - i
  {
    hide Next;
    if i == j {
    } else {
      NoReconnect(run, labels, i, j - 1);
      assert Next(run[j - 1], labels[j - 1]) == Some(run[j]);
      NoDialStep(run[j - 1], labels[j - 1]);
    }
    if j < |labels| && IsDial(labels[j]) {
      assert Next(run[j], labels[j]) == Some(run[j + 1]);
      DialPoint(run[j], labels[j]);
    }
  }

  // ---------------------------------------------------------------- the main loop can halt

  function Depth(main: MainPc): nat {
    match main
    case Halted => 0
    case Closing => 1
    case FlushLeave => 2
    case Leave => 3
    case TopFlags | SleepCheck | Sleeping | Drained(_, _) => 4
    case TopCtx | Failed | DrainEnd(_, _) | Draining(_) => 5
    case NotStarted | ServeEnd | DrainApply(_, _) | HalfClose(_) => 6
    case FlushServe(_) => 7
    case Serving | SendBroken(_) | ServeBroken => 8
    case ServeApply(_) | Transmitted(_, _) => 9
    case ArbApply(_) | Transmit(_) => 10
    case ArbWaiting | CheckEpoch(_) => 11
    case ArbSending | CheckPrimary(_) => 12
    case Dialing | Taken(_) => 13
    case Connect => 14
  }

  /** How many steps of its own the main loop needs at most. */
  function MainRank(s: Sup): nat {
    32 * Depth(s.main) + |s.w.queue|
  }

  /** A step that the main loop can take after stop; where the transport answers, whatever it answers. */
  function HaltLabel(main: MainPc, ok: bool): MainLabel {
    match main
    case Dialing => if ok then DialOk else DialFail
    case ArbSending => if ok then ArbSent else ArbSendFail
    case ArbWaiting => ArbStop
    case Sleeping => SeeStop
    case Serving => SeeStop
    case Transmit(_) => SendDone(ok)
    case HalfClose(_) => CloseSendDone(ok)
    case Draining(_) => SeeStop
    case _ => Go
  }

  lemma HaltStep(s: Sup, ok: bool)
    requires s.flags.stop && !s.main.Halted?
    ensures var t := MainStep(s, HaltLabel(s.main, ok));
            t.Some? && MainRank(t.value) < MainRank(s) && t.value.flags.stop
  {
    HaltEnabled(s, ok);
    MainKeepsShutdown(s, HaltLabel(s.main, ok));
    hide MainStep;
  }

  lemma HaltEnabled(s: Sup, ok: bool)
    requires s.flags.stop && !s.main.Halted?
    ensures var t := MainStep(s, HaltLabel(s.main, ok)); t.Some? && MainRank(t.value) < MainRank(s)
  {
    hide MainRank, Depth;
    var l := HaltLabel(s.main, ok);
    if ConnectStep(s, l).Some? {
      HaltConnect(s, ok);
    } else if ServeStep(s, l).Some? {
      HaltServe(s, ok);
    } else {
      HaltFinish(s, ok);
    }
    hide ConnectStep, ServeStep, FinishStep;
  }

  lemma HaltConnect(s: Sup, ok: bool)
    requires s.flags.stop && ConnectStep(s, HaltLabel(s.main, ok)).Some?
    ensures MainRank(ConnectStep(s, HaltLabel(s.main, ok)).value) < MainRank(s)
  {
  }

  lemma HaltServe(s: Sup, ok: bool)
    requires s.flags.stop && ServeStep(s, HaltLabel(s.main, ok)).Some?
    ensures MainRank(ServeStep(s, HaltLabel(s.main, ok)).value) < MainRank(s)
  {
  }

  lemma HaltFinish(s: Sup, ok: bool)
    requires s.flags.stop && !s.main.Halted?
    requires ConnectStep(s, HaltLabel(s.main, ok)).None? && ServeStep(s, HaltLabel(s.main, ok)).None?
    ensures FinishStep(s, HaltLabel(s.main, ok)).Some?
    ensures MainRank(FinishStep(s, HaltLabel(s.main, ok)).value) < MainRank(s)
  {
  }

  /** The main loop reaches its end within n steps of its own, whatever the transport answers on the way. */
  ghost predicate HaltsWithin(s: Sup, n: nat)
    decreases n, 0
  {
    s.main.Halted? || (n > 0 && HaltsAfter(s, true, n) && HaltsAfter(s, false, n))
  }

  ghost predicate HaltsAfter(s: Sup, ok: bool, n: nat)
    requires n > 0
    decreases n - 1, 1
  {
    MainStep(s, HaltLabel(s.main, ok)).Some? && HaltsWithin(MainStep(s, HaltLabel(s.main, ok)).value, n - 1)
  }

  /**
   After Close, from every state, the main loop can run to its end by its own steps, whatever the transport answers
   to a dial, a send or a half-close that is under way: nothing that it waits for is up to another thread.
   */
  lemma {:induction false} MainCanHalt(s: Sup, n: nat)
    requires s.flags.stop && MainRank(s) <= n
    ensures HaltsWithin(s, n)
    decreases n
  {
    hide MainStep, HaltLabel, MainRank;
    if s.main.Halted? {
    } else {
      HaltStep(s, true);
      HaltStep(s, false);
      MainCanHalt(MainStep(s, HaltLabel(s.main, true)).value, n - 1);
      MainCanHalt(MainStep(s, HaltLabel(s.main, false)).value, n - 1);
    }
  }

  // ---------------------------------------------------------------- retries, counted from the labels

  /** The retries in a row before step k: timers that have run out since the last successful arbitration. */
  function Retries(run: seq<Sup>, labels: seq<Label>, k: nat): nat
    requires k <= |labels| && |run| == |labels| + 1
  {
    if k == 0 then 0
    else if labels[k - 1] == Main(Timer) then Retries(run, labels, k - 1) + 1
    else if labels[k - 1] == Main(Go) && run[k - 1].main.ArbApply? then 0
    else Retries(run, labels, k - 1)
  }

  lemma RetryStep(s: Sup, l: Label)
    requires Next(s, l).Some?
    ensures var t := Next(s, l).value;
            && t.retry.initial == s.retry.initial && t.retry.max == s.retry.max
            && t.retry.failures == (if l == Main(Timer) then s.retry.failures + 1
                                    else if l == Main(Go) && s.main.ArbApply? then 0 else s.retry.failures)
  {
    if l.OfCall? {
      CallKeepsRetry(s, l.c, l.a);
    } else if l.Main? {
      MainRetry(s, l.m);
    }
  }

  lemma CallKeepsRetry(s: Sup, c: Call, l: CallLabel)
    requires c in s.b.calls && CallStep(s, c, l).Some?
    ensures CallStep(s, c, l).value.retry == s.retry
  {
  }

  lemma MainRetry(s: Sup, l: MainLabel)
    requires MainStep(s, l).Some?
    ensures var t := MainStep(s, l).value;
            && t.retry.initial == s.retry.initial && t.retry.max == s.retry.max
            && t.retry.failures == (if l == Timer then s.retry.failures + 1
                                    else if l == Go && s.main.ArbApply? then 0 else s.retry.failures)
  {
  }

  lemma {:induction false} RetriesCounted(run: seq<Sup>, labels: seq<Label>, k: nat)
    requires Run(run, labels) && k < |run|
    ensures run[k].retry.failures == Retries(run, labels, k)
    ensures run[k].retry.initial == run[0].retry.initial && run[k].retry.max == run[0].retry.max
    decreases k
  {
    hide Next;
    if k == 0 {
    } else {
      RetriesCounted(run, labels, k - 1);
      assert Next(run[k - 1], labels[k - 1]) == Some(run[k]);
      RetryStep(run[k - 1], labels[k - 1]);
    }
  }

  /**
   The base delay of a retry is the configured initial one after none, and min(initial * 2^n, max) after n retries
   in a row, as the labels of the run count them.
   */
  lemma DelayAfterRetries(run: seq<Sup>, labels: seq<Label>, k: nat)
    requires Run(run, labels) && k < |run|
    ensures var n, initial, max := Retries(run, labels, k), run[0].retry.initial, run[0].retry.max;
            run[k].retry.backoff == if n == 0 then initial else Min(initial * Pow2(n), max)
  {
    RetriesCounted(run, labels, k);
    BackoffSchedule(run, labels, k);
  }
}
