/** What becomes of a Send: accepted or not, transmitted or not, and with which outcome. */
module SupervisorSends {
  import opened Wrappers
  import opened Supervisor
  import opened SupervisorInv
  import opened SupervisorCalls
  import opened SupervisorResults
  import opened SupervisorHistory
  import opened SupervisorVerdict
  import opened SupervisorOutcomes

  // ---------------------------------------------------------------- the two tests before a transmission

  /** In step k the Send of call r reads the state and the channel that its next change will close. */
  predicate Watches(run: seq<Sup>, labels: seq<Label>, k: nat, r: Call) {
    k < |labels| && k < |run| && labels[k] == OfCall(r, Step) && r in run[k].b.calls &&
    run[k].b.calls[r].kind.SEND? && run[k].b.calls[r].pc.SendWatch?
  }

  lemma WatchStep(s: Sup, r: Call)
    requires r in s.b.calls && s.b.calls[r].kind.SEND? && s.b.calls[r].pc.SendWatch?
    ensures var t := Next(s, OfCall(r, Step));
            t.Some? && r in t.value.b.requests &&
                t.value.b.requests[r] == Request(false, s.m.changed, s.m.mode, s.m.session)
  {
  }

  /** A request compares epochs as its Send would compare states: they differ exactly if the state has changed since. */
  lemma EpochIsUnchanged(run: seq<Sup>, labels: seq<Label>, k: nat, i: nat, r: Call)
    requires Run(run, labels) && k < i < |run| && Watches(run, labels, k, r)
    ensures r in run[i].b.requests && !run[i].b.requests[r].drain
    ensures run[i].b.requests[r].epoch == run[i].m.changed <==> run[k].m.epochs == run[i].m.epochs
  {
    hide Next;
    assert Next(run[k], labels[k]) == Some(run[k + 1]);
    WatchStep(run[k], r);
    RequestsStay(run, labels, k + 1, i, r);
    RunInv(run, labels, k);
    RunInv(run, labels, i);
    RunLater(run, labels, k, i);
    EpochsByLength(run[k].m, run[i].m);
  }

  lemma EpochsByLength(m: Mastership, n: Mastership)
    requires MastershipInv(m) && MastershipInv(n) && m.epochs <= n.epochs
    ensures m.changed == n.changed <==> m.epochs == n.epochs
  {
  }

  /** A dequeued message is refused with ErrNotPrimary if and only if the supervisor is not primary then. */
  lemma RefusedUnlessPrimary(run: seq<Sup>, labels: seq<Label>, i: nat)
    requires Run(run, labels) && i < |labels| && labels[i] == Main(Go) && run[i].main.CheckPrimary?
    ensures run[i].m.mode.Primary? ==> run[i + 1].main == CheckEpoch(run[i].main.r) && run[i + 1].w == run[i].w
    ensures !run[i].m.mode.Primary? ==>
              var r := run[i].main.r;
              run[i + 1].main.Serving? && r in run[i + 1].w.done && run[i + 1].w.done[r] == NotPrimary
  {
    RunInv(run, labels, i);
    InFlightNotDone(run[i]);
    assert Next(run[i], labels[i]) == Some(run[i + 1]);
    CheckStep(run[i]);
    hide Next;
  }

  lemma InFlightNotDone(s: Sup)
    requires Inv(s)
    ensures InFlight(s.main).Some? ==> InFlight(s.main).value !in s.w.done
  {
  }

  lemma CheckStep(s: Sup)
    requires s.main.CheckPrimary? && s.main.r !in s.w.done
    ensures Next(s, Main(Go)).Some?
    ensures var t := Next(s, Main(Go)).value;
            if s.m.mode.Primary? then t.main == CheckEpoch(s.main.r) && t.w == s.w
            else t.main.Serving? && t.w == s.w.(done := s.w.done[s.main.r := NotPrimary])
  {
  }

  /** A message of a primary is transmitted if and only if the state has not changed since its Send looked at it. */
  lemma TransmittedUnlessChanged(run: seq<Sup>, labels: seq<Label>, k: nat, i: nat)
    requires Run(run, labels) && k < i < |labels| && labels[i] == Main(Go) && run[i].main.CheckEpoch?
    requires Watches(run, labels, k, run[i].main.r)
    ensures run[k].m.epochs == run[i].m.epochs ==> run[i + 1].main == Transmit(run[i].main.r)
    ensures run[k].m.epochs != run[i].m.epochs ==>
              var r := run[i].main.r;
              run[i + 1].main.Serving? && r in run[i + 1].w.done && run[i + 1].w.done[r] == StreamClosed
  {
    EpochIsUnchanged(run, labels, k, i, run[i].main.r);
    RunInv(run, labels, i);
    InFlightNotDone(run[i]);
    assert Next(run[i], labels[i]) == Some(run[i + 1]);
    EpochTestStep(run[i]);
    hide Next;
  }

  lemma EpochTestStep(s: Sup)
    requires s.main.CheckEpoch? && s.main.r !in s.w.done && s.main.r in s.b.requests
    ensures Next(s, Main(Go)).Some?
    ensures var t := Next(s, Main(Go)).value;
            if s.b.requests[s.main.r].epoch == s.m.changed then t.main == Transmit(s.main.r)
            else t.main.Serving? && t.w == s.w.(done := s.w.done[s.main.r := StreamClosed])
  {
  }

  /** The transport's answer decides, unless the context has ended: then the cancellation is reported. */
  lemma AnswerDecides(run: seq<Sup>, labels: seq<Label>, i: nat, j: nat)
    requires Run(run, labels) && i < j < |labels| && run[i].main.Transmit? && labels[i].Main? && labels[i].m.SendDone?
    requires labels[j] == Main(Go) && forall k :: i < k < j ==> !labels[k].Main?
    ensures var r := run[i].main.r;
            && r in run[j + 1].w.done
            && run[j + 1].w.done[r] ==
               if CtxDone(run[j], r) then Cancelled else if labels[i].m.ok then Success else Transport
  {
    hide Next;
    assert Next(run[i], labels[i]) == Some(run[i + 1]);
    AnswerStep(run[i], labels[i].m.ok);
    MainWaits(run, labels, i + 1, j);
    RunInv(run, labels, j);
    InFlightNotDone(run[j]);
    assert Next(run[j], labels[j]) == Some(run[j + 1]);
    TransmittedStep(run[j]);
  }

  lemma AnswerStep(s: Sup, ok: bool)
    requires s.main.Transmit?
    ensures Next(s, Main(SendDone(ok))).Some? && Next(s, Main(SendDone(ok))).value.main == Transmitted(s.main.r, ok)
  {
  }

  lemma TransmittedStep(s: Sup)
    requires s.main.Transmitted? && s.main.r !in s.w.done
    ensures Next(s, Main(Go)).Some?
    ensures var t, r := Next(s, Main(Go)).value, s.main.r;
            r in t.w.done && t.w.done[r] == if CtxDone(s, r) then Cancelled else if s.main.ok then Success
                else Transport
  {
  }

  /** The other threads do not move the main loop. */
  lemma {:induction false} MainWaits(run: seq<Sup>, labels: seq<Label>, i: nat, j: nat)
    requires Run(run, labels) && i <= j < |run| && forall k :: i <= k < j ==> !labels[k].Main?
    ensures run[j].main == run[i].main
    decreases j - i
  {
    hide Next;
    if i == j {
    } else {
      MainWaits(run, labels, i, j - 1);
      assert Next(run[j - 1], labels[j - 1]) == Some(run[j]);
      OthersKeepVerdict(run[j - 1], labels[j - 1]);
    }
  }

  /** What a broken session leaves in the queue is finished with the error that broke it, in order. */
  lemma PendingFails(run: seq<Sup>, labels: seq<Label>, i: nat)
    requires Run(run, labels) && i < |labels| && labels[i] == Main(Go) && run[i].w.queue != []
    requires run[i].main.FlushServe? || run[i].main.FlushLeave?
    ensures var r := run[i].w.queue[0];
            && run[i + 1].main == run[i].main && run[i + 1].w.queue == run[i].w.queue[1..]
            && r in run[i + 1].w.done
            && run[i + 1].w.done[r] == if run[i].main.FlushServe? then run[i].main.error else StreamClosed
  {
    hide Next;
    assert Next(run[i], labels[i]) == Some(run[i + 1]);
    RunInv(run, labels, i);
    QueuedNotDone(run[i]);
    FlushStep(run[i]);
  }

  lemma QueuedNotDone(s: Sup)
    requires Inv(s) && s.w.queue != []
    ensures s.w.queue[0] !in s.w.done
  {
    assert s.w.accepted[s.w.taken] == s.w.queue[0];
  }

  lemma FlushStep(s: Sup)
    requires (s.main.FlushServe? || s.main.FlushLeave?) && s.w.queue != [] && s.w.queue[0] !in s.w.done
    ensures Next(s, Main(Go)).Some?
    ensures var t, o := Next(s, Main(Go)).value, if s.main.FlushServe? then s.main.error else StreamClosed;
            t.main == s.main && t.w == Pop(s.w).(done := s.w.done[s.w.queue[0] := o])
  {
  }

  /** The error that broke the session: that of the transmission, or of the receive goroutine. */
  lemma SessionBreaks(run: seq<Sup>, labels: seq<Label>, i: nat)
    requires Run(run, labels) && i < |labels| && run[i + 1].main.FlushServe? && run[i].main != run[i + 1].main
    ensures var o := run[i + 1].main.error;
            run[i].main == SendBroken(o) || (run[i].main.ServeBroken? && o == Transport)
    ensures run[i + 1].m.mode.Disconnected?
  {
    assert Next(run[i], labels[i]) == Some(run[i + 1]);
    if labels[i].Main? {
      BreakStep(run[i], labels[i].m);
    } else {
      OthersKeepVerdict(run[i], labels[i]);
    }
    hide Next;
  }

  lemma BreakStep(s: Sup, l: MainLabel)
    requires MainStep(s, l).Some? && MainStep(s, l).value.main.FlushServe? && MainStep(s, l).value.main != s.main
    ensures var t := MainStep(s, l).value;
            t.m.mode.Disconnected? &&
            (s.main == SendBroken(t.main.error) || (s.main.ServeBroken? && t.main.error == Transport))
  {
    OnlyServeFlushes(s, l);
    ServeBreaks(s, l);
    hide MainStep, ServeStep;
  }

  lemma OnlyServeFlushes(s: Sup, l: MainLabel)
    requires MainStep(s, l).Some? && MainStep(s, l).value.main.FlushServe?
    ensures ServeStep(s, l) == MainStep(s, l)
  {
    hide ServeStep;
  }

  lemma ServeBreaks(s: Sup, l: MainLabel)
    requires ServeStep(s, l).Some? && ServeStep(s, l).value.main.FlushServe? && ServeStep(s, l).value.main != s.main
    ensures var t := ServeStep(s, l).value;
            t.m.mode.Disconnected? &&
            (s.main == SendBroken(t.main.error) || (s.main.ServeBroken? && t.main.error == Transport))
  {
  }

  // ---------------------------------------------------------------- what a waiting call returns

  lemma WaitOutcome(s: Sup, c: Call, l: CallLabel)
    requires c in s.b.calls && CallStep(s, c, l).Some? && Awaited(s.b.calls[c].pc).Some? && !s.b.calls[c].ctxDone
    requires s.b.calls[c].pc.WaitRecheck? ==> s.flags.stopped
    ensures var t, r := CallStep(s, c, l).value, s.b.calls[c].pc.of;
            c in t.b.calls && (t.b.calls[c].pc.Returned? ==>
              if r in s.w.done then t.b.calls[c].pc.result == s.w.done[r]
              else t.b.calls[c].pc.result == StreamClosed && s.flags.stopped)
  {
  }

  /** A call rechecks its request only after stopped was closed. */
  ghost predicate RecheckInv(s: Sup) {
    forall c :: c in s.b.calls && s.b.calls[c].pc.WaitRecheck? ==> s.flags.stopped
  }

  lemma RecheckStep(s: Sup, l: Label, c: Call)
    requires Inv(s) && RecheckInv(s) && Next(s, l).Some?
    requires c in Next(s, l).value.b.calls && Next(s, l).value.b.calls[c].pc.WaitRecheck?
    ensures Next(s, l).value.flags.stopped
  {
    hide Inv, MainStep, ReceiverStep, CallStep;
    StepLater(s, l);
    if l.OfCall? && l.c == c {
      EntersRecheck(s, c, l.a);
    } else if c in s.b.calls {
      OthersLeaveCall(s, l, c);
    } else {
      NewCallWaitsNot(s, l, c);
    }
  }

  lemma EntersRecheck(s: Sup, c: Call, l: CallLabel)
    requires c in s.b.calls && CallStep(s, c, l).Some? && c in CallStep(s, c, l).value.b.calls
    requires CallStep(s, c, l).value.b.calls[c].pc.WaitRecheck?
    ensures CallStep(s, c, l).value.flags.stopped
  {
    hide SendCall, CloseCall, BecomeCall;
    var pc := s.b.calls[c].pc;
    if pc.Wait? || pc.WaitSelect? || pc.WaitRecheck? {
    } else if s.b.calls[c].kind.SEND? {
      SendRechecksNot(s, c, l);
    } else if s.b.calls[c].kind.CLOSE? {
      CloseRechecksNot(s, c, l);
    } else {
      BecomeRechecksNot(s, c, l);
    }
  }

  lemma SendRechecksNot(s: Sup, c: Call, l: CallLabel)
    requires c in s.b.calls && !s.b.calls[c].pc.WaitRecheck? && SendCall(s, c, l).Some?
    ensures var t := SendCall(s, c, l).value; c in t.b.calls && !t.b.calls[c].pc.WaitRecheck?
  {
  }

  lemma CloseRechecksNot(s: Sup, c: Call, l: CallLabel)
    requires c in s.b.calls && !s.b.calls[c].pc.WaitRecheck? && CloseCall(s, c, l).Some?
    ensures var t := CloseCall(s, c, l).value; c in t.b.calls && !t.b.calls[c].pc.WaitRecheck?
  {
  }

  lemma BecomeRechecksNot(s: Sup, c: Call, l: CallLabel)
    requires c in s.b.calls && !s.b.calls[c].pc.WaitRecheck? && BecomeCall(s, c, l).Some?
    ensures var t := BecomeCall(s, c, l).value; c in t.b.calls && !t.b.calls[c].pc.WaitRecheck?
  {
  }

  lemma NewCallWaitsNot(s: Sup, l: Label, c: Call)
    requires Next(s, l).Some? && c !in s.b.calls && c in Next(s, l).value.b.calls
    ensures !Next(s, l).value.b.calls[c].pc.WaitRecheck?
  {
    if l.Main? {
      MainKeepsBook(s, l.m);
    } else if l.OfCall? {
      SameCalls(s, l.c, l.a, c);
    }
    hide MainStep, CallStep;
  }

  lemma {:induction false} RunRecheckInv(run: seq<Sup>, labels: seq<Label>, k: nat)
    requires Run(run, labels) && k < |run|
    ensures RecheckInv(run[k])
  {
    hide Next;
    if k == 0 {
    } else {
      RunRecheckInv(run, labels, k - 1);
      RunInv(run, labels, k - 1);
      assert Next(run[k - 1], labels[k - 1]) == Some(run[k]);
      forall c | c in run[k].b.calls && run[k].b.calls[c].pc.WaitRecheck? ensures run[k].flags.stopped {
        RecheckStep(run[k - 1], labels[k - 1], c);
      }
    }
  }

  /**
   A call that waits for a request returns the outcome of that request while its own context is live. Only when the
   supervisor has stopped without finishing the request does it return ErrStreamClosed.
   */
  lemma ReturnsOutcomeOfRequest(run: seq<Sup>, labels: seq<Label>, i: nat, c: Call)
    requires Run(run, labels) && i < |labels| && ReturnsAt(run[i], run[i + 1], c) && !run[i].b.calls[c].ctxDone
    requires Awaited(run[i].b.calls[c].pc).Some?
    ensures var r, result := run[i].b.calls[c].pc.of, run[i + 1].b.calls[c].pc.result;
            if r in run[i].w.done then result == run[i].w.done[r] else result == StreamClosed && run[i].flags.stopped
    ensures run[i].b.calls[c].kind.SEND? ==> run[i].b.calls[c].pc.of == c
    ensures run[i].b.calls[c].kind.CLOSE? ==> run[i].b.grace == Some(run[i].b.calls[c].pc.of)
  {
    hide Inv, Next, CallStep;
    var s, l := run[i], labels[i];
    RunInv(run, labels, i);
    RunRecheckInv(run, labels, i);
    assert Next(s, l) == Some(run[i + 1]);
    CallFitsIn(s, c);
    if !(l.OfCall? && l.c == c) {
      OthersLeaveCall(s, l, c);
    }
    CallNext(s, c, l.a);
    WaitOutcome(s, c, l.a);
  }
}
