/** Whose context a call reports: when Send, CloseGracefully or BecomePrimary returns a cancellation. */
module SupervisorOutcomes {
  import opened Wrappers
  import opened Supervisor
  import opened SupervisorInv
  import opened SupervisorCalls
  import opened SupervisorResults

  /** Transmission i was cancelled by its own context, and r was in the queue behind it. */
  predicate SpilledBy(s: Sup, i: nat, r: Call) {
    i < |s.log.sent| && CtxDone(s, s.log.sent[i].call) && s.log.sent[i].index <= |s.w.accepted| &&
    r in s.w.accepted[s.log.sent[i].index..]
  }

  /** Some earlier transmission whose context ended took r with it. */
  ghost predicate Spilled(s: Sup, r: Call) {
    exists i: nat :: SpilledBy(s, i, r)
  }

  /** The last transmission was cancelled, and what is in the queue came after it. */
  ghost predicate LastCancelled(s: Sup) {
    var n := |s.log.sent|;
    n > 0 && CtxDone(s, s.log.sent[n - 1].call) && s.log.sent[n - 1].index <= s.w.taken
  }

  predicate Failing(main: MainPc) {
    (main.SendBroken? || main.FlushServe?) && main.error.Cancelled?
  }

  /** The call's own context, or the request that the call waits for. */
  predicate CancelFits(s: Sup, c: Call)
    requires c in s.b.calls
  {
    var k := s.b.calls[c];
    k.ctxDone ||
    match k.kind
    case SEND => c in s.w.done && s.w.done[c].Cancelled?
    case CLOSE => s.b.grace.Some? && s.b.grace.value in s.w.done && s.w.done[s.b.grace.value].Cancelled?
    case BECOME => false
  }

  predicate IsCancelled(pc: Pc) {
    pc == Returned(Cancelled) || pc == SendReturnGate(Some(Cancelled))
  }

  ghost predicate CancelInv(s: Sup) {
    && (Failing(s.main) ==> LastCancelled(s))
    && (s.main.Drained? ==> !s.main.result.Cancelled?)
    && (forall r :: r in s.w.done && s.w.done[r].Cancelled? ==> CtxDone(s, r) || Spilled(s, r))
    && (forall c :: c in s.b.calls && IsCancelled(s.b.calls[c].pc) ==> CancelFits(s, c))
  }

  // ---------------------------------------------------------------- what a step keeps

  /** What the facts above rest on only grows. */
  ghost predicate Grows(s: Sup, t: Sup) {
    && (forall c :: CtxDone(s, c) ==> CtxDone(t, c))
    && s.log.sent <= t.log.sent && s.w.accepted <= t.w.accepted
    && (s.b.grace.Some? ==> t.b.grace == s.b.grace)
    && (forall r :: r in s.w.done ==> r in t.w.done && t.w.done[r] == s.w.done[r])
  }

  lemma StepGrows(s: Sup, l: Label)
    requires Inv(s) && Next(s, l).Some?
    ensures Grows(s, Next(s, l).value)
  {
    hide Inv, MainStep, CallStep, ReceiverStep, EnvStep;
    StepLater(s, l);
    var t := Next(s, l).value;
    forall c | CtxDone(s, c) ensures CtxDone(t, c) {
      CtxStep(s, l, c);
    }
  }

  lemma CtxStep(s: Sup, l: Label, c: Call)
    requires Next(s, l).Some? && CtxDone(s, c)
    ensures CtxDone(Next(s, l).value, c)
  {
    if l.Main? {
      MainKeepsBook(s, l.m);
      hide MainStep;
    } else if l.OfCall? {
      CallKeepsCtx(s, l.c, l.a, c);
      hide CallStep;
    }
  }

  lemma CallKeepsCtx(s: Sup, c: Call, l: CallLabel, d: Call)
    requires c in s.b.calls && CallStep(s, c, l).Some?
    ensures CtxDone(CallStep(s, c, l).value, d) <==> CtxDone(s, d)
  {
    if d == c {
      OwnCtx(s, c, l);
    } else if d in s.b.calls {
      CallMovesOne(s, c, l, d);
    }
    SameCalls(s, c, l, d);
    hide CallStep;
  }

  lemma OwnCtx(s: Sup, c: Call, l: CallLabel)
    requires c in s.b.calls && CallStep(s, c, l).Some?
    ensures CtxDone(CallStep(s, c, l).value, c) <==> CtxDone(s, c)
  {
  }

  lemma SameCalls(s: Sup, c: Call, l: CallLabel, d: Call)
    requires c in s.b.calls && CallStep(s, c, l).Some?
    ensures d in CallStep(s, c, l).value.b.calls ==> d in s.b.calls
  {
  }

  lemma SpilledStays(s: Sup, t: Sup, r: Call)
    requires Grows(s, t) && Spilled(s, r)
    ensures Spilled(t, r)
  {
    var i: nat :| SpilledBy(s, i, r);
    var x := s.log.sent[i];
    assert t.log.sent[i] == x;
    var k :| 0 <= k < |s.w.accepted[x.index..]| && s.w.accepted[x.index..][k] == r;
    assert t.w.accepted[x.index..][k] == r;
    assert SpilledBy(t, i, r);
  }

  lemma FitsStays(s: Sup, t: Sup, c: Call)
    requires Grows(s, t) && c in s.b.calls && c in t.b.calls && t.b.calls[c].kind == s.b.calls[c].kind &&
        CancelFits(s, c)
    ensures CancelFits(t, c)
  {
    if CtxDone(s, c) {
      assert CtxDone(t, c);
    } else if s.b.calls[c].kind.SEND? {
      assert t.w.done[c] == s.w.done[c];
    } else {
      var g: Call := s.b.grace.value;
      assert g in s.w.done;
      assert t.w.done[g] == s.w.done[g];
    }
  }

  /** What is queued behind a cancelled transmission is spilled by it. */
  lemma QueueIsSpilled(s: Sup, r: Call)
    requires FifoInv(s.w) && LastCancelled(s) && s.w.queue != [] && s.w.queue[0] == r
    ensures Spilled(s, r)
  {
    var n := |s.log.sent|;
    var x := s.log.sent[n - 1];
    assert s.w.accepted[x.index..][s.w.taken - x.index] == r;
    assert SpilledBy(s, n - 1, r);
  }

  // ---------------------------------------------------------------- what a step adds

  /** The outcomes that a step adds: a cancellation is the request's own, or that of the transmission before it. */
  predicate NewDone(s: Sup, t: Sup, r: Call) {
    r in t.w.done && r !in s.w.done && t.w.done[r].Cancelled? ==>
      CtxDone(s, r) || (Failing(s.main) && s.w.queue != [] && s.w.queue[0] == r)
  }

  lemma MainNewDone(s: Sup, l: MainLabel, r: Call)
    requires MainStep(s, l).Some? && (s.main.Drained? ==> !s.main.result.Cancelled?)
    ensures NewDone(s, MainStep(s, l).value, r)
  {
  }

  lemma MainDrains(s: Sup, l: MainLabel)
    requires MainStep(s, l).Some? && MainStep(s, l).value.main.Drained?
    ensures !MainStep(s, l).value.main.result.Cancelled?
  {
  }

  lemma MainFails(s: Sup, l: MainLabel)
    requires MainStep(s, l).Some? && Failing(MainStep(s, l).value.main)
    ensures var t := MainStep(s, l).value;
            t.log == s.log && t.b == s.b && s.w.taken <= t.w.taken &&
            (Failing(s.main) || (s.main.Transmitted? && CtxDone(s, s.main.r)))
  {
    hide ServeStep;
    OnlyServeFails(s, l);
    ServeFails(s, l);
  }

  lemma OnlyServeFails(s: Sup, l: MainLabel)
    requires MainStep(s, l).Some? && Failing(MainStep(s, l).value.main)
    ensures ServeStep(s, l) == MainStep(s, l)
  {
    hide ServeStep;
  }

  lemma ServeFails(s: Sup, l: MainLabel)
    requires ServeStep(s, l).Some? && Failing(ServeStep(s, l).value.main)
    ensures var t := ServeStep(s, l).value;
            t.log == s.log && t.b == s.b && s.w.taken <= t.w.taken &&
            (Failing(s.main) || (s.main.Transmitted? && CtxDone(s, s.main.r)))
  {
  }

  lemma MainKeepsCancelled(s: Sup, l: MainLabel)
    requires HandInv(s.main, s.log.sent, s.w, s.b, s.m.changed) && SentInv(s.log.sent, s.w, s.b)
    requires Failing(s.main) ==> LastCancelled(s)
    requires MainStep(s, l).Some? && Failing(MainStep(s, l).value.main)
    ensures LastCancelled(MainStep(s, l).value)
  {
    MainFails(s, l);
    hide MainStep;
    if !Failing(s.main) {
      var n := |s.log.sent|;
      assert TxFits(s.w, s.b, s.log.sent[n - 1]);
    }
  }

  lemma CallNewDone(s: Sup, c: Call, l: CallLabel, r: Call)
    requires c in s.b.calls && CallStep(s, c, l).Some?
    ensures NewDone(s, CallStep(s, c, l).value, r)
    ensures CallStep(s, c, l).value.main == s.main && CallStep(s, c, l).value.log == s.log
    ensures s.w.taken == CallStep(s, c, l).value.w.taken
  {
  }

  lemma CallNewReturn(s: Sup, c: Call, l: CallLabel)
    requires c in s.b.calls && CallStep(s, c, l).Some? && CallFits(s.b, s.w, s.m, c)
    requires !IsCancelled(s.b.calls[c].pc) && c in CallStep(s, c, l).value.b.calls
    requires IsCancelled(CallStep(s, c, l).value.b.calls[c].pc)
    ensures CancelFits(s, c)
  {
    hide SendCall, CloseCall, BecomeCall;
    var pc := s.b.calls[c].pc;
    if !(pc.Wait? || pc.WaitSelect? || pc.WaitRecheck?) {
      OwnReturn(s, c, l);
    }
  }

  lemma OwnReturn(s: Sup, c: Call, l: CallLabel)
    requires c in s.b.calls && !IsCancelled(s.b.calls[c].pc)
    ensures var r := SendCall(s, c, l); r.Some? && c in r.value.b.calls && IsCancelled(r.value.b.calls[c].pc) ==>
        s.b.calls[c].ctxDone
    ensures var r := CloseCall(s, c, l); r.Some? && c in r.value.b.calls && IsCancelled(r.value.b.calls[c].pc) ==>
        s.b.calls[c].ctxDone
    ensures var r := BecomeCall(s, c, l); r.Some? && c in r.value.b.calls && IsCancelled(r.value.b.calls[c].pc) ==>
        s.b.calls[c].ctxDone
  {
  }

  lemma HandAndSent(s: Sup)
    requires Inv(s)
    ensures HandInv(s.main, s.log.sent, s.w, s.b, s.m.changed) && SentInv(s.log.sent, s.w, s.b)
  {
  }

  lemma FailingStays(s: Sup, l: Label)
    requires HandInv(s.main, s.log.sent, s.w, s.b, s.m.changed) && SentInv(s.log.sent, s.w, s.b)
    requires Failing(s.main) ==> LastCancelled(s)
    requires Next(s, l).Some? && Grows(s, Next(s, l).value)
    ensures Failing(Next(s, l).value.main) ==> LastCancelled(Next(s, l).value)
  {
    hide MainStep, CallStep, HandInv, SentInv;
    var t := Next(s, l).value;
    if Failing(t.main) {
      if l.Main? {
        MainKeepsCancelled(s, l.m);
      } else {
        if l.OfCall? {
          CallNewDone(s, l.c, l.a, 0);
        }
        var x := s.log.sent[|s.log.sent| - 1];
        assert CtxDone(t, x.call);
      }
    }
  }

  /** One thread's step adds no cancellation that is not accounted for. */
  lemma StepAdds(s: Sup, l: Label, r: Call)
    requires CancelInv(s) && Next(s, l).Some?
    ensures var t := Next(s, l).value;
            NewDone(s, t, r) && (t.main.Drained? ==> !t.main.result.Cancelled?)
  {
    hide MainStep, CallStep, Spilled;
    if l.Main? {
      MainNewDone(s, l.m, r);
      var t := Next(s, l).value;
      if t.main.Drained? {
        MainDrains(s, l.m);
      }
    } else if l.OfCall? {
      CallNewDone(s, l.c, l.a, r);
    }
  }

  lemma StepReturnsCancelled(s: Sup, l: Label, c: Call)
    requires Inv(s) && CancelInv(s) && Next(s, l).Some? && c in Next(s, l).value.b.calls
    requires IsCancelled(Next(s, l).value.b.calls[c].pc)
    ensures CancelFits(Next(s, l).value, c)
  {
    hide MainStep, CallStep, Inv;
    var t := Next(s, l).value;
    if c in s.b.calls {
      StepGrows(s, l);
      IdentityStep(s, l, c);
      if !IsCancelled(s.b.calls[c].pc) {
        if !(l.OfCall? && l.c == c) {
          OthersLeaveCall(s, l, c);
        }
        CallFitsIn(s, c);
        CallNewReturn(s, c, l.a);
      }
      FitsStays(s, t, c);
    } else {
      NewCallStarts(s, l, c);
    }
  }

  lemma NewCallStarts(s: Sup, l: Label, c: Call)
    requires Next(s, l).Some? && c !in s.b.calls && c in Next(s, l).value.b.calls
    ensures !IsCancelled(Next(s, l).value.b.calls[c].pc)
  {
    if l.Main? {
      MainKeepsBook(s, l.m);
    } else if l.OfCall? {
      SameCalls(s, l.c, l.a, c);
    }
    hide MainStep, CallStep;
  }

  lemma CancelKeeps(s: Sup, l: Label)
    requires Inv(s) && CancelInv(s) && Next(s, l).Some?
    ensures CancelInv(Next(s, l).value)
  {
    hide Next, Grows;
    var t := Next(s, l).value;
    StepGrows(s, l);
    StepAdds(s, l, 0);
    HandAndSent(s);
    FailingStays(s, l);
    forall r | r in t.w.done && t.w.done[r].Cancelled? ensures CtxDone(t, r) || Spilled(t, r) {
      StepAdds(s, l, r);
      DoneStaysAccounted(s, t, r);
    }
    forall c | c in t.b.calls && IsCancelled(t.b.calls[c].pc) ensures CancelFits(t, c) {
      StepReturnsCancelled(s, l, c);
    }
  }

  lemma DoneStaysAccounted(s: Sup, t: Sup, r: Call)
    requires Inv(s) && CancelInv(s) && Grows(s, t) && NewDone(s, t, r) && r in t.w.done && t.w.done[r].Cancelled?
    ensures CtxDone(t, r) || Spilled(t, r)
  {
    if r !in s.w.done && !CtxDone(s, r) {
      QueueIsSpilled(s, r);
    }
    hide Inv;
    if CtxDone(s, r) {
      assert CtxDone(t, r);
    } else {
      SpilledStays(s, t, r);
    }
  }

  lemma {:induction false} RunCancelInv(run: seq<Sup>, labels: seq<Label>, k: nat)
    requires Run(run, labels) && k < |run|
    ensures CancelInv(run[k])
  {
    hide Next, CancelInv;
    if k == 0 {
      InitCancelInv(run[0].retry.initial, run[0].retry.max);
    } else {
      RunCancelInv(run, labels, k - 1);
      RunInv(run, labels, k - 1);
      assert Next(run[k - 1], labels[k - 1]) == Some(run[k]);
      CancelKeeps(run[k - 1], labels[k - 1]);
    }
  }

  lemma InitCancelInv(initial: int, max: int)
    ensures CancelInv(Init(initial, max))
  {
  }

  // ---------------------------------------------------------------- result

  /**
   A call that returns a cancellation although its own context is live is not BecomePrimary. It is a Send whose
   message was in the queue behind a transmission that its sender cancelled, or a CloseGracefully that waits for the
   drain request of another call, and then that call's context ended or that request was in such a queue.
   */
  lemma CancelledByOthers(run: seq<Sup>, labels: seq<Label>, k: nat, c: Call)
    requires Run(run, labels) && k < |run| && c in run[k].b.calls
    requires run[k].b.calls[c].pc == Returned(Cancelled) && !run[k].b.calls[c].ctxDone
    ensures match run[k].b.calls[c].kind
            case SEND => Spilled(run[k], c)
            case CLOSE =>
              && run[k].b.grace.Some?
              && (CtxDone(run[k], run[k].b.grace.value) || Spilled(run[k], run[k].b.grace.value))
            case BECOME => false
  {
    RunCancelInv(run, labels, k);
    assert CancelFits(run[k], c);
  }

  // ---------------------------------------------------------------- exactly when

  function Awaited(pc: Pc): Option<Call> {
    if pc.Wait? || pc.WaitSelect? || pc.WaitRecheck? then Some(pc.of) else None
  }

  /** The call returns in this step. */
  predicate ReturnsAt(s: Sup, t: Sup, c: Call) {
    c in s.b.calls && !s.b.calls[c].pc.Returned? && c in t.b.calls && t.b.calls[c].pc.Returned?
  }

  lemma WaitReturns(s: Sup, c: Call, l: CallLabel)
    requires c in s.b.calls && CallStep(s, c, l).Some? && Awaited(s.b.calls[c].pc).Some? && !s.b.calls[c].ctxDone
    ensures var t, r := CallStep(s, c, l).value, s.b.calls[c].pc.of;
            c in t.b.calls && (t.b.calls[c].pc.Returned? ==>
              (t.b.calls[c].pc.result.Cancelled? <==> r in s.w.done && s.w.done[r].Cancelled?))
  {
  }

  /**
   A call that returns in a step while its own context is live returns a cancellation if and only if it waits for a
   request, its own or the drain request, that has been finished with one.
   */
  lemma ReturnsCancelledExactly(run: seq<Sup>, labels: seq<Label>, i: nat, c: Call)
    requires Run(run, labels) && i < |labels| && ReturnsAt(run[i], run[i + 1], c) && !run[i].b.calls[c].ctxDone
    ensures var r := Awaited(run[i].b.calls[c].pc);
            run[i + 1].b.calls[c].pc == Returned(Cancelled) <==>
            r.Some? && r.value in run[i].w.done && run[i].w.done[r.value].Cancelled?
  {
    var s, l := run[i], labels[i];
    RunInv(run, labels, i);
    RunCancelInv(run, labels, i);
    assert Next(s, l) == Some(run[i + 1]);
    CallFitsIn(s, c);
    if !(l.OfCall? && l.c == c) {
      OthersLeaveCall(s, l, c);
    }
    hide Inv, MainStep, ReceiverStep, EnvStep, SendCall, CloseCall, BecomeCall;
    if Awaited(s.b.calls[c].pc).Some? {
      WaitReturns(s, c, l.a);
    } else {
      ReturnsUnawaited(s, c, l.a);
    }
  }

  lemma ReturnsUnawaited(s: Sup, c: Call, l: CallLabel)
    requires c in s.b.calls && CallStep(s, c, l).Some? && Awaited(s.b.calls[c].pc).None? && !s.b.calls[c].ctxDone
    requires IsCancelled(s.b.calls[c].pc) ==> CancelFits(s, c)
    requires CallFits(s.b, s.w, s.m, c)
    ensures c in CallStep(s, c, l).value.b.calls && CallStep(s, c, l).value.b.calls[c].pc != Returned(Cancelled)
  {
  }

  /** The step finishes the request because the context of its own call is over. */
  predicate OwnEnd(s: Sup, l: Label, r: Call) {
    CtxDone(s, r) &&
    ((l.Main? && (s.main.Taken? || s.main.Transmitted?) && s.main.r == r) ||
     (l.OfCall? && l.c == r && l.a.Ctx? && s.b.calls[r].pc.CloseQueue?))
  }

  /** The step finishes the request because the one before it was cancelled in the middle of its transmission. */
  predicate Flushed(s: Sup, l: Label, r: Call) {
    l.Main? && s.main.FlushServe? && s.main.error.Cancelled? && s.w.queue != [] && s.w.queue[0] == r
  }

  lemma MainFinishes(s: Sup, l: MainLabel, r: Call)
    requires MainStep(s, l).Some? && r !in s.w.done && r in MainStep(s, l).value.w.done
    requires s.main.Drained? ==> !s.main.result.Cancelled?
    ensures MainStep(s, l).value.w.done[r].Cancelled? <==> OwnEnd(s, Main(l), r) || Flushed(s, Main(l), r)
  {
  }

  lemma CallFinishes(s: Sup, c: Call, l: CallLabel, r: Call)
    requires c in s.b.calls && CallStep(s, c, l).Some? && r !in s.w.done && r in CallStep(s, c, l).value.w.done
    requires CallFits(s.b, s.w, s.m, c)
    ensures CallStep(s, c, l).value.w.done[r].Cancelled? <==> OwnEnd(s, OfCall(c, l), r)
  {
  }

  /**
   A request is finished with a cancellation if and only if the context of its call has ended when serve or the call
   itself looks at it, or it is next in the queue behind a transmission that was cancelled.
   */
  lemma FinishedCancelledExactly(run: seq<Sup>, labels: seq<Label>, i: nat, r: Call)
    requires Run(run, labels) && i < |labels| && r !in run[i].w.done && r in run[i + 1].w.done
    ensures run[i + 1].w.done[r].Cancelled? <==> OwnEnd(run[i], labels[i], r) || Flushed(run[i], labels[i], r)
    ensures Flushed(run[i], labels[i], r) ==> LastCancelled(run[i])
  {
    hide Inv, Spilled, CallFits;
    var s, l := run[i], labels[i];
    RunInv(run, labels, i);
    RunCancelInv(run, labels, i);
    assert Next(s, l) == Some(run[i + 1]);
    hide MainStep, CallStep;
    if l.Main? {
      MainFinishes(s, l.m, r);
    } else if l.OfCall? {
      CallFitsIn(s, l.c);
      CallFinishes(s, l.c, l.a, r);
    }
  }
}
