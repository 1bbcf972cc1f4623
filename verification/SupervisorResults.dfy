/** What the supervisor guarantees in every run. */
module SupervisorResults {
  import opened Bits
  import opened Wrappers
  import opened Supervisor
  import opened SupervisorInv
  import opened SupervisorCalls

  // ---------------------------------------------------------------- what a step never undoes

  /** Histories only grow, flags that are raised stay raised, and an outcome once given stays. */
  ghost predicate Later(s: Sup, t: Sup) {
    && s.m.epochs <= t.m.epochs && s.w.accepted <= t.w.accepted && s.log.sent <= t.log.sent
    && s.log.closeSends <= t.log.closeSends
    && (s.flags.stopped ==> t.flags.stopped) && (s.b.grace.Some? ==> t.b.grace == s.b.grace)
    && (forall r :: r in s.w.done ==> r in t.w.done && t.w.done[r] == s.w.done[r])
    && (forall c :: c in s.b.calls && s.b.calls[c].pc.Returned? ==>
          c in t.b.calls && t.b.calls[c].pc == s.b.calls[c].pc && t.b.calls[c].kind == s.b.calls[c].kind)
  }

  lemma ConnectLater(s: Sup, l: MainLabel)
    requires Inv(s) && ConnectStep(s, l).Some?
    ensures Later(s, ConnectStep(s, l).value)
  {
    ConnectFrame(s, l);
    ConnectKeepsM(s, l);
    ConnectKeepsLog(s, l);
    ConnectKeepsHalf(s, l);
    hide Inv, ConnectStep, HalfInv, LogInv;
  }

  lemma ServeLater(s: Sup, l: MainLabel)
    requires Inv(s) && ServeStep(s, l).Some?
    ensures Later(s, ServeStep(s, l).value)
  {
    ServeFrame(s, l);
    ServePoints(s, l);
    ServeKeepsM(s, l);
    ServeKeepsWork(s, l);
    ServeSentGrows(s, l);
    hide Inv, ServeStep, FifoInv, WorkInv, MastershipInv;
  }

  lemma ServeSentGrows(s: Sup, l: MainLabel)
    requires ServeStep(s, l).Some?
    ensures s.log.sent <= ServeStep(s, l).value.log.sent
  {
  }

  lemma FinishLater(s: Sup, l: MainLabel)
    requires Inv(s) && FinishStep(s, l).Some?
    ensures Later(s, FinishStep(s, l).value)
  {
    FinishFrame(s, l);
    FinishLog(s, l);
    FinishKeepsM(s, l);
    FinishKeepsWork(s, l);
    FinishCounts(s, l);
    hide Inv, FinishStep, FifoInv, WorkInv, MastershipInv;
  }

  lemma FinishCounts(s: Sup, l: MainLabel)
    requires FinishStep(s, l).Some?
    ensures s.log.closeSends <= FinishStep(s, l).value.log.closeSends
    ensures s.flags.stopped ==> FinishStep(s, l).value.flags.stopped
  {
  }

  lemma SendLater(s: Sup, c: Call, l: CallLabel)
    requires c in s.b.calls && SendCall(s, c, l).Some?
    ensures Later(s, SendCall(s, c, l).value)
  {
  }

  lemma CloseLater(s: Sup, c: Call, l: CallLabel)
    requires c in s.b.calls && CloseCall(s, c, l).Some?
    ensures Later(s, CloseCall(s, c, l).value)
  {
  }

  lemma MainLater(s: Sup, l: MainLabel)
    requires Inv(s) && MainStep(s, l).Some?
    ensures Later(s, MainStep(s, l).value)
  {
    hide ConnectStep, ServeStep, FinishStep, Inv, Later;
    if ConnectStep(s, l).Some? {
      ConnectLater(s, l);
    } else if ServeStep(s, l).Some? {
      ServeLater(s, l);
    } else {
      FinishLater(s, l);
    }
  }

  lemma WaitLater(s: Sup, c: Call, l: CallLabel)
    requires c in s.b.calls
    ensures WaitCall(s, c, l).Some? ==> Later(s, WaitCall(s, c, l).value)
    ensures BecomeCall(s, c, l).Some? ==> Later(s, BecomeCall(s, c, l).value)
  {
  }

  lemma CallLater(s: Sup, c: Call, l: CallLabel)
    requires c in s.b.calls && CallStep(s, c, l).Some?
    ensures Later(s, CallStep(s, c, l).value)
  {
    hide SendCall, CloseCall, WaitCall, BecomeCall, Later;
    WaitLater(s, c, l);
    var pc := s.b.calls[c].pc;
    if !(pc.Wait? || pc.WaitSelect? || pc.WaitRecheck?) {
      if s.b.calls[c].kind.SEND? {
        SendLater(s, c, l);
      } else if s.b.calls[c].kind.CLOSE? {
        CloseLater(s, c, l);
      }
    }
  }

  lemma ReceiverLater(s: Sup, n: nat, l: ReceiverLabel)
    requires n in s.receivers && ReceiverStep(s, n, l).Some?
    ensures Later(s, ReceiverStep(s, n, l).value)
  {
  }

  lemma EnvLater(s: Sup, l: EnvLabel)
    requires EnvStep(s, l).Some?
    ensures Later(s, EnvStep(s, l).value)
  {
  }

  lemma StepLater(s: Sup, l: Label)
    requires Inv(s) && Next(s, l).Some?
    ensures Later(s, Next(s, l).value)
  {
    hide Inv, MainStep, CallStep, ReceiverStep, EnvStep, Later;
    if l.Main? {
      MainLater(s, l.m);
    } else if l.OfCall? {
      CallLater(s, l.c, l.a);
    } else if l.OfReceiver? {
      ReceiverLater(s, l.n, l.b);
    } else {
      EnvLater(s, l.e);
    }
  }

  lemma LaterAgain(s: Sup, t: Sup, u: Sup)
    requires Later(s, t) && Later(t, u)
    ensures Later(s, u)
  {
    forall r | r in s.w.done ensures r in u.w.done && u.w.done[r] == s.w.done[r] {
      assert r in t.w.done && t.w.done[r] == s.w.done[r];
    }
  }

  /** Over a whole run, nothing that a step never undoes is undone. */
  lemma {:induction false} RunLater(run: seq<Sup>, labels: seq<Label>, i: nat, j: nat)
    requires Run(run, labels) && i <= j < |run|
    ensures Later(run[i], run[j])
    decreases j - i
  {
    hide Later, Inv, Next;
    if i == j {
      LaterSelf(run[i]);
    } else {
      RunLater(run, labels, i, j - 1);
      RunInv(run, labels, j - 1);
      assert Next(run[j - 1], labels[j - 1]) == Some(run[j]);
      StepLater(run[j - 1], labels[j - 1]);
      LaterAgain(run[i], run[j - 1], run[j]);
    }
  }

  lemma LaterSelf(s: Sup)
    ensures Later(s, s)
  {
  }

  // ---------------------------------------------------------------- graceful drain

  predicate IsDial(l: Label) {
    l.Main? && (l.m.DialOk? || l.m.DialFail?)
  }

  predicate IsCloseSend(l: Label) {
    l.Main? && l.m.CloseSendDone?
  }

  lemma CloseSendCounts(s: Sup, l: Label)
    requires IsCloseSend(l) && Next(s, l).Some?
    ensures s.main.HalfClose? && Next(s, l).value.log.closeSends == s.log.closeSends + 1
  {
  }

  lemma DialPoint(s: Sup, l: Label)
    requires IsDial(l) && Next(s, l).Some?
    ensures s.main.Dialing?
  {
  }

  /**
   CloseSend happens at most once in a run. When it happens every request ever accepted, except the drain request
   itself, is finished and the queue is empty; afterwards the supervisor never dials again.
   */
  lemma GracefulDrain(run: seq<Sup>, labels: seq<Label>, i: nat)
    requires Run(run, labels) && i < |labels| && IsCloseSend(labels[i])
    ensures run[i].main.HalfClose? && run[i].b.grace == Some(run[i].main.r)
    ensures run[i].w.queue == [] && run[i].w.accepted != []
    ensures run[i].w.accepted[|run[i].w.accepted| - 1] == run[i].main.r
    ensures forall k :: 0 <= k < |run[i].w.accepted| - 1 ==> run[i].w.accepted[k] in run[i].w.done
    ensures forall j :: i < j < |labels| ==> !IsCloseSend(labels[j]) && !IsDial(labels[j])
  {
    RunInv(run, labels, i);
    assert Next(run[i], labels[i]) == Some(run[i + 1]);
    CloseSendCounts(run[i], labels[i]);
    DrainIsLast(run[i]);
    forall j | i < j < |labels| ensures !IsCloseSend(labels[j]) && !IsDial(labels[j]) {
      RunInv(run, labels, j);
      RunLater(run, labels, i + 1, j);
      assert Next(run[j], labels[j]) == Some(run[j + 1]);
      AfterCloseSend(run[j], labels[j]);
    }
  }

  lemma AfterCloseSend(s: Sup, l: Label)
    requires Inv(s) && s.log.closeSends >= 1 && Next(s, l).Some?
    ensures !IsCloseSend(l) && !IsDial(l)
  {
    if IsCloseSend(l) {
      CloseSendCounts(s, l);
    }
    if IsDial(l) {
      DialPoint(s, l);
    }
  }

  /** From the moment draining closes, the only request that can still be accepted is the drain request, once. */
  lemma NothingAcceptedWhileDraining(run: seq<Sup>, labels: seq<Label>, i: nat, j: nat)
    requires Run(run, labels) && i <= j < |run| && run[i].flags.draining
    ensures run[i].w.accepted <= run[j].w.accepted
    ensures run[j].flags.draining && run[j].b.grace == run[i].b.grace && run[i].b.grace.Some?
    ensures run[j].w.accepted == run[i].w.accepted || run[j].w.accepted == run[i].w.accepted + [run[i].b.grace.value]
  {
    RunInv(run, labels, i);
    RunInv(run, labels, j);
    RunLater(run, labels, i, j);
    var a, g, n := run[j].w.accepted, run[i].b.grace.value, |run[i].w.accepted|;
    if n < |a| {
      assert a[n] == g by {
        if n < run[j].b.drainedAt.value {
          DrainedAtStays(run, labels, i, j);
        }
      }
      DrainOnce(run[j].w, g, run[j].b.drainedAt.value, n, |a| - 1);
      assert a == run[i].w.accepted + [g];
    }
  }

  lemma DrainedAtStep(s: Sup, l: Label)
    requires Inv(s) && Next(s, l).Some? && s.b.grace.Some?
    ensures Next(s, l).value.b.drainedAt == s.b.drainedAt
  {
    if l.Main? {
      MainKeepsBook(s, l.m);
    } else if l.OfCall? {
      CallKeepsDrainedAt(s, l.c, l.a);
    }
  }

  lemma MainKeepsBook(s: Sup, l: MainLabel)
    requires MainStep(s, l).Some?
    ensures MainStep(s, l).value.b == s.b
  {
    hide ConnectStep, ServeStep, FinishStep;
    if ConnectStep(s, l).Some? {
      ConnectFrame(s, l);
    } else if ServeStep(s, l).Some? {
      ServeFrame(s, l);
    } else {
      FinishFrame(s, l);
    }
  }

  lemma CallKeepsDrainedAt(s: Sup, c: Call, l: CallLabel)
    requires c in s.b.calls && CallStep(s, c, l).Some? && s.b.grace.Some?
    ensures CallStep(s, c, l).value.b.drainedAt == s.b.drainedAt
  {
  }

  lemma {:induction false} DrainedAtStays(run: seq<Sup>, labels: seq<Label>, i: nat, j: nat)
    requires Run(run, labels) && i <= j < |run| && run[i].b.grace.Some?
    ensures run[j].b.drainedAt == run[i].b.drainedAt
    decreases j - i
  {
    hide Next, Inv;
    if i < j {
      DrainedAtStays(run, labels, i, j - 1);
      RunLater(run, labels, i, j - 1);
      RunInv(run, labels, j - 1);
      assert Next(run[j - 1], labels[j - 1]) == Some(run[j]);
      DrainedAtStep(run[j - 1], labels[j - 1]);
    }
  }

  // ---------------------------------------------------------------- epochs

  /**
   A message is handed to the transport only when its request read its epoch in this same session, while the
   session was already primary, and that epoch is still the current one.
   */
  lemma EpochSafety(run: seq<Sup>, labels: seq<Label>, i: nat)
    requires Run(run, labels) && i < |labels| && labels[i].Main? && labels[i].m.SendDone?
    ensures run[i].main.Transmit? && run[i].main.r in run[i].b.requests
    ensures var s, q := run[i], run[i].b.requests[run[i].main.r];
            && !q.drain && s.m.mode.Primary? && q.epoch == s.m.changed && q.epoch !in s.m.closed
            && q.modeThen.Primary? && q.sessionThen == s.m.session && q.epoch < |s.m.epochs|
            && s.m.epochs[q.epoch] == Epoch(Primary, s.m.session, Reply(s.m.session, true))
  {
    var s := run[i];
    RunInv(run, labels, i);
    assert Next(s, labels[i]) == Some(run[i + 1]);
    SendPoint(s, labels[i].m);
    var q := s.b.requests[s.main.r];
    assert Captured(q, s.m);
    assert CauseFits(s.m.epochs[q.epoch]);
  }

  lemma SendPoint(s: Sup, l: MainLabel)
    requires MainStep(s, l).Some? && l.SendDone?
    ensures s.main.Transmit?
  {
  }

  /** Requests of an earlier session, or of a mastership since lost, are never transmitted again. */
  lemma NoReplay(run: seq<Sup>, labels: seq<Label>, i: nat, j: nat, r: Call)
    requires Run(run, labels) && i <= j < |labels| && r in run[i].b.requests
    requires run[i].b.requests[r].epoch in run[i].m.closed
    requires labels[j].Main? && labels[j].m.SendDone?
    ensures run[j].main.Transmit? && run[j].main.r != r
  {
    EpochSafety(run, labels, j);
    RunInv(run, labels, i);
    RunInv(run, labels, j);
    RunLater(run, labels, i, j);
    RequestsStay(run, labels, i, j, r);
  }

  lemma RequestStep(s: Sup, l: Label, r: Call)
    requires Inv(s) && Next(s, l).Some? && r in s.b.requests
    ensures r in Next(s, l).value.b.requests && Next(s, l).value.b.requests[r] == s.b.requests[r]
  {
    if l.Main? {
      MainKeepsBook(s, l.m);
    } else if l.OfCall? {
      CallKeepsRequest(s, l.c, l.a, r);
    }
  }

  lemma CallKeepsRequest(s: Sup, c: Call, l: CallLabel, r: Call)
    requires c in s.b.calls && CallFits(s.b, s.w, s.m, c) && CallStep(s, c, l).Some? && r in s.b.requests
    ensures r in CallStep(s, c, l).value.b.requests && CallStep(s, c, l).value.b.requests[r] == s.b.requests[r]
  {
  }

  lemma {:induction false} RequestsStay(run: seq<Sup>, labels: seq<Label>, i: nat, j: nat, r: Call)
    requires Run(run, labels) && i <= j < |run| && r in run[i].b.requests
    ensures r in run[j].b.requests && run[j].b.requests[r] == run[i].b.requests[r]
    decreases j - i
  {
    hide Next, Inv;
    if i < j {
      RequestsStay(run, labels, i, j - 1, r);
      RunInv(run, labels, j - 1);
      assert Next(run[j - 1], labels[j - 1]) == Some(run[j]);
      RequestStep(run[j - 1], labels[j - 1], r);
    }
  }

  // ---------------------------------------------------------------- completion

  /** What was sent is a duplicate-free subsequence of what was accepted, in the order of acceptance. */
  lemma SentInAcceptanceOrder(run: seq<Sup>, labels: seq<Label>, k: nat)
    requires Run(run, labels) && k < |run|
    ensures var sent, accepted := run[k].log.sent, run[k].w.accepted;
            && (forall i :: 0 <= i < |sent| ==>
                1 <= sent[i].index <= |accepted| && accepted[sent[i].index - 1] == sent[i].call)
            && (forall i, j :: 0 <= i < j < |sent| ==> sent[i].index < sent[j].index && sent[i].call != sent[j].call)
  {
    RunInv(run, labels, k);
    var sent, accepted := run[k].log.sent, run[k].w.accepted;
    forall i | 0 <= i < |sent| ensures 1 <= sent[i].index <= |accepted| && accepted[sent[i].index - 1] == sent[i].call {
      assert TxFits(run[k].w, run[k].b, sent[i]);
    }
  }

  /** finish is first called on a request that is not finished, so its once never has to suppress anything. */
  lemma FinishedOnce(run: seq<Sup>, labels: seq<Label>, k: nat)
    requires Run(run, labels) && k < |run|
    ensures var s := run[k];
            && (InFlight(s.main).Some? ==> InFlight(s.main).value !in s.w.done)
            && (forall c :: c in s.w.queue ==> c !in s.w.done)
            && (forall c :: c in s.b.calls && (s.b.calls[c].pc.CloseTry? || s.b.calls[c].pc.CloseQueue?) ==>
                c !in s.w.done)
  {
    RunInv(run, labels, k);
    var s := run[k];
    forall c | c in s.b.calls && (s.b.calls[c].pc.CloseTry? || s.b.calls[c].pc.CloseQueue?) ensures c !in s.w.done {
      assert CallFits(s.b, s.w, s.m, c);
    }
    forall c | c in s.w.queue ensures c !in s.w.done {
      var i :| 0 <= i < |s.w.queue| && s.w.queue[i] == c;
      assert s.w.accepted[s.w.taken + i] == c;
    }
  }

  /** Send returns nil only if the transport accepted this very message, in an epoch that the request had seen. */
  lemma SendSuccess(run: seq<Sup>, labels: seq<Label>, k: nat, c: Call)
    requires Run(run, labels) && k < |run| && c in run[k].b.calls
    requires run[k].b.calls[c].kind.SEND? && run[k].b.calls[c].pc == Returned(Success)
    ensures c in run[k].w.accepted && c in run[k].b.requests
    ensures exists i :: 0 <= i < |run[k].log.sent| && run[k].log.sent[i].call == c && run[k].log.sent[i].ok
                        && run[k].log.sent[i].epoch == run[k].b.requests[c].epoch
  {
    var s := run[k];
    RunInv(run, labels, k);
    assert CallFits(s.b, s.w, s.m, c);
    assert Delivered(s.b.requests[c], c, s.log);
    var i :| 0 <= i < |s.log.sent| && s.log.sent[i].call == c && s.log.sent[i].ok;
    assert TxFits(s.w, s.b, s.log.sent[i]);
  }

  /** CloseGracefully returns nil only after a half-close, with every accepted request finished. */
  lemma CloseSuccess(run: seq<Sup>, labels: seq<Label>, k: nat, c: Call)
    requires Run(run, labels) && k < |run| && c in run[k].b.calls
    requires run[k].b.calls[c].kind.CLOSE? && run[k].b.calls[c].pc == Returned(Success)
    ensures run[k].log.closeSends == 1
    ensures forall i :: 0 <= i < |run[k].w.accepted| ==> run[k].w.accepted[i] in run[k].w.done
  {
    var s := run[k];
    RunInv(run, labels, k);
    assert CallFits(s.b, s.w, s.m, c);
    assert Delivered(s.b.requests[s.b.grace.value], s.b.grace.value, s.log);
  }

  /** How many steps of its own a call still needs once the supervisor has stopped. */
  function Rank(pc: Pc): nat {
    match pc
    case Returned(_) => 0
    case WaitRecheck(_) => 1
    case WaitSelect(_) => 2
    case Wait(_) => 3
    case SendReturnGate(_) | CloseReturnGate | CloseLate(_) => 4
    case SendQueue | CloseQueue => 5
    case SendCheckFlags | CloseTry => 6
    case SendCheckCtx | CloseLock => 7
    case SendWatch | SendGate | CloseGate => 8
    case SendStart | CloseCheckCtx => 9
    case CloseStart => 10
    case BecomeWait(_) => 1
    case BecomeWatch => 2
    case BecomeStart => 3
  }

  /** The step that a call can always take after the supervisor has stopped. */
  function StopLabel(pc: Pc): CallLabel {
    match pc
    case SendGate | SendQueue | CloseGate | CloseQueue | WaitSelect(_) => Stopped
    case _ => Step
  }

  /**
   Once stopped is closed every call of Send and CloseGracefully can take a step of its own, without any step of
   the main loop or of another call, and needs at most ten such steps to return. This covers requests that were
   queued after the last failPending and that nobody will ever finish.
   */
  lemma StoppedCallsReturn(s: Sup, c: Call)
    requires s.flags.stopped && c in s.b.calls && !s.b.calls[c].kind.BECOME? && !s.b.calls[c].pc.Returned?
    requires CallFits(s.b, s.w, s.m, c)
    ensures CallStep(s, c, StopLabel(s.b.calls[c].pc)).Some?
    ensures var t := CallStep(s, c, StopLabel(s.b.calls[c].pc)).value;
            c in t.b.calls && Rank(t.b.calls[c].pc) < Rank(s.b.calls[c].pc) <= 10
  {
  }

  /** The call returns after at most n steps of its own. */
  ghost predicate ReturnsWithin(s: Sup, c: Call, n: nat)
    decreases n
  {
    c in s.b.calls &&
    (s.b.calls[c].pc.Returned? ||
     (n > 0 && CallStep(s, c, StopLabel(s.b.calls[c].pc)).Some? &&
      ReturnsWithin(CallStep(s, c, StopLabel(s.b.calls[c].pc)).value, c, n - 1)))
  }

  /** In every state after stopped is closed, every Send and CloseGracefully returns by at most ten steps of its own. */
  lemma {:induction false} StoppedCallFinishes(s: Sup, c: Call, n: nat)
    requires Inv(s) && s.flags.stopped && c in s.b.calls && !s.b.calls[c].kind.BECOME? && Rank(s.b.calls[c].pc) <= n
    ensures ReturnsWithin(s, c, n)
    decreases n
  {
    hide CallStep, Later, Rank, StopLabel;
    assert CallFits(s.b, s.w, s.m, c);
    hide Inv;
    var pc := s.b.calls[c].pc;
    RankZero(pc);
    if !pc.Returned? {
      StoppedCallsReturn(s, c);
      var l := StopLabel(pc);
      var t := CallStep(s, c, l).value;
      CallKeeps(s, c, l);
      IdentityStep(s, OfCall(c, l), c);
      StillStopped(s, c, l);
      StoppedCallFinishes(t, c, n - 1);
    }
  }

  lemma RankZero(pc: Pc)
    ensures Rank(pc) == 0 ==> pc.Returned?
    ensures Rank(pc) <= 10
  {
  }

  lemma StillStopped(s: Sup, c: Call, l: CallLabel)
    requires c in s.b.calls && CallStep(s, c, l).Some? && s.flags.stopped
    ensures CallStep(s, c, l).value.flags.stopped
  {
    CallLater(s, c, l);
  }

  /** No other thread moves a call or takes that step away. */
  lemma OthersLeaveCall(s: Sup, l: Label, c: Call)
    requires Inv(s) && Next(s, l).Some? && c in s.b.calls && !(l.OfCall? && l.c == c)
    ensures c in Next(s, l).value.b.calls && Next(s, l).value.b.calls[c].pc == s.b.calls[c].pc
    ensures s.flags.stopped ==> Next(s, l).value.flags.stopped
  {
    hide Inv, MainStep, CallStep, ReceiverStep, EnvStep;
    StepLater(s, l);
    if l.Main? {
      MainKeepsBook(s, l.m);
    } else if l.OfCall? {
      CallMovesOne(s, l.c, l.a, c);
    } else {
      EnvLeavesCall(s, l, c);
    }
    hide Later;
  }

  lemma EnvLeavesCall(s: Sup, l: Label, c: Call)
    requires Next(s, l).Some? && c in s.b.calls && (l.OfReceiver? || l.Env?)
    ensures c in Next(s, l).value.b.calls && Next(s, l).value.b.calls[c].pc == s.b.calls[c].pc
  {
  }

  lemma CallMovesOne(s: Sup, c: Call, l: CallLabel, d: Call)
    requires c in s.b.calls && CallStep(s, c, l).Some? && d in s.b.calls && d != c
    ensures d in CallStep(s, c, l).value.b.calls && CallStep(s, c, l).value.b.calls[d] == s.b.calls[d]
  {
  }

  // ---------------------------------------------------------------- mastership

  predicate IsConnecting(l: Label) {
    l.Main? && (l.m.DialOk? || l.m.DialFail? || l.m.ArbSent? || l.m.ArbSendFail? || l.m.ArbReply?)
  }

  /** Every dial and every message of the arbitration exchange happens in state Connecting. */
  lemma DialsWhileConnecting(run: seq<Sup>, labels: seq<Label>, i: nat)
    requires Run(run, labels) && i < |labels| && IsConnecting(labels[i])
    ensures run[i].m.mode.Connecting?
  {
    RunInv(run, labels, i);
    assert Next(run[i], labels[i]) == Some(run[i + 1]);
    ConnectingPoint(run[i], labels[i].m);
  }

  lemma ConnectingPoint(s: Sup, l: MainLabel)
    requires MainStep(s, l).Some? && IsConnecting(Main(l))
    ensures s.main.Dialing? || s.main.ArbSending? || s.main.ArbWaiting?
  {
  }

  /** A step makes the supervisor primary only by applying an OK reply of the current session's stream. */
  lemma PrimaryOnlyByReply(s: Sup, l: Label)
    requires Inv(s) && Next(s, l).Some? && !s.m.mode.Primary? && Next(s, l).value.m.mode.Primary?
    ensures l == Main(Go)
    ensures (s.main.ArbApply? || s.main.ServeApply? || s.main.DrainApply?) && s.main.ok
    ensures Next(s, l).value.m.session == s.m.session
    ensures Next(s, l).value.m.epochs == s.m.epochs + [Epoch(Primary, s.m.session, Reply(s.m.session, true))]
  {
    if l.OfCall? {
      CallKeepsM(s, l.c, l.a);
    } else if l.Main? {
      BecomesPrimary(s, l.m);
    }
  }

  lemma CallKeepsM(s: Sup, c: Call, l: CallLabel)
    requires c in s.b.calls && CallStep(s, c, l).Some?
    ensures CallStep(s, c, l).value.m == s.m
  {
  }

  lemma BecomesPrimary(s: Sup, l: MainLabel)
    requires MainStep(s, l).Some? && !s.m.mode.Primary? && MainStep(s, l).value.m.mode.Primary?
    ensures l.Go? && (s.main.ArbApply? || s.main.ServeApply? || s.main.DrainApply?) && s.main.ok
    ensures MainStep(s, l).value.m == ApplyReply(s.m, true)
  {
  }

  /** A reply reaches the main loop only from the receive goroutine of the current session. */
  lemma SupersededStreamsAreSilent(s: Sup, l: Label)
    requires Next(s, l).Some?
    ensures l.OfReceiver? ==> Next(s, l).value == s.(receivers := Next(s, l).value.receivers)
    ensures l.Main? && l.m.TakeReply? ==> s.m.session in s.receivers && s.receivers[s.m.session].Offering?
    ensures l.Main? ==> forall n :: n in s.receivers && n != s.m.session ==>
                          n in Next(s, l).value.receivers && Next(s, l).value.receivers[n] == s.receivers[n]
  {
    if l.Main? {
      MainKeepsReceivers(s, l.m);
      hide MainStep;
    }
  }

  lemma MainKeepsReceivers(s: Sup, l: MainLabel)
    requires MainStep(s, l).Some?
    ensures l.TakeReply? ==> s.m.session in s.receivers && s.receivers[s.m.session].Offering?
    ensures forall n :: n in s.receivers && n != s.m.session ==>
              n in MainStep(s, l).value.receivers && MainStep(s, l).value.receivers[n] == s.receivers[n]
  {
  }

  /** After run has returned the state is Disconnected, and stays so. */
  lemma {:induction false} HaltedIsDisconnected(run: seq<Sup>, labels: seq<Label>, i: nat, j: nat)
    requires Run(run, labels) && i <= j < |run| && run[i].main.Halted?
    ensures run[j].main.Halted? && run[j].m.mode.Disconnected? && run[j].flags.stopped
  {
    RunInv(run, labels, i);
    RunInv(run, labels, j);
    RunLater(run, labels, i, j);
    hide Next;
  }

  // ---------------------------------------------------------------- waiting for mastership

  /** A channel is closed exactly when the state has changed since it was read together with its state. */
  lemma ClosedIffChanged(run: seq<Sup>, labels: seq<Label>, i: nat, j: nat)
    requires Run(run, labels) && i <= j < |run|
    ensures run[i].m.changed in run[j].m.closed <==> run[i].m.epochs != run[j].m.epochs
    ensures run[i].m.changed !in run[j].m.closed ==> run[j].m.mode == run[i].m.mode
  {
    RunInv(run, labels, i);
    RunInv(run, labels, j);
    RunLater(run, labels, i, j);
  }

  /** A waiter is never parked while the supervisor is primary: its channel is closed, so it can look again. */
  lemma NoMissedWakeup(run: seq<Sup>, labels: seq<Label>, k: nat, c: Call)
    requires Run(run, labels) && k < |run| && c in run[k].b.calls && run[k].b.calls[c].pc.BecomeWait?
    requires run[k].m.mode.Primary?
    ensures run[k].b.calls[c].pc.channel in run[k].m.closed
    ensures CallStep(run[k], c, Changed).Some?
  {
    var s := run[k];
    RunInv(run, labels, k);
    assert CallFits(s.b, s.w, s.m, c);
  }

  /** BecomePrimary returns nil only if Primary held at some moment of the call. */
  lemma BecamePrimary(run: seq<Sup>, labels: seq<Label>, i: nat, k: nat, c: Call)
    requires Run(run, labels) && i < k < |run| && labels[i] == Env(NewCall(c, BECOME))
    requires c in run[k].b.calls && run[k].b.calls[c].pc == Returned(Success)
    ensures exists e: nat :: run[i].m.changed <= e < |run[k].m.epochs| && run[k].m.epochs[e].mode.Primary?
  {
    var s := run[k];
    RunInv(run, labels, i);
    RunInv(run, labels, k);
    assert Next(run[i], labels[i]) == Some(run[i + 1]);
    IdentityStays(run, labels, i + 1, k, c);
    assert CallFits(s.b, s.w, s.m, c);
    assert SeenPrimary(s.m, s.b.calls[c].since);
    var e: nat :| s.b.calls[c].since <= e < |s.m.epochs| && s.m.epochs[e].mode.Primary?;
  }

  lemma IdentityStep(s: Sup, l: Label, c: Call)
    requires Next(s, l).Some? && c in s.b.calls
    ensures c in Next(s, l).value.b.calls
    ensures Next(s, l).value.b.calls[c].kind == s.b.calls[c].kind &&
        Next(s, l).value.b.calls[c].since == s.b.calls[c].since
  {
    if l.Main? {
      MainKeepsBook(s, l.m);
      hide MainStep;
    } else if l.OfCall? {
      CallKeepsIdentity(s, l.c, l.a);
      if c != l.c {
        CallMovesOne(s, l.c, l.a, c);
      }
      hide CallStep;
    }
  }

  lemma SendKeepsIdentity(s: Sup, c: Call, l: CallLabel)
    requires c in s.b.calls && SendCall(s, c, l).Some?
    ensures var t := SendCall(s, c, l).value;
            c in t.b.calls && t.b.calls[c].kind == s.b.calls[c].kind && t.b.calls[c].since == s.b.calls[c].since
  {
  }

  lemma CloseKeepsIdentity(s: Sup, c: Call, l: CallLabel)
    requires c in s.b.calls && CloseCall(s, c, l).Some?
    ensures var t := CloseCall(s, c, l).value;
            c in t.b.calls && t.b.calls[c].kind == s.b.calls[c].kind && t.b.calls[c].since == s.b.calls[c].since
  {
  }

  lemma CallKeepsIdentity(s: Sup, c: Call, l: CallLabel)
    requires c in s.b.calls && CallStep(s, c, l).Some?
    ensures var t := CallStep(s, c, l).value;
            c in t.b.calls && t.b.calls[c].kind == s.b.calls[c].kind && t.b.calls[c].since == s.b.calls[c].since
  {
    hide SendCall, CloseCall;
    var pc := s.b.calls[c].pc;
    if !(pc.Wait? || pc.WaitSelect? || pc.WaitRecheck?) {
      if s.b.calls[c].kind.SEND? {
        SendKeepsIdentity(s, c, l);
      } else if s.b.calls[c].kind.CLOSE? {
        CloseKeepsIdentity(s, c, l);
      }
    }
  }

  lemma {:induction false} IdentityStays(run: seq<Sup>, labels: seq<Label>, i: nat, j: nat, c: Call)
    requires Run(run, labels) && i <= j < |run| && c in run[i].b.calls
    ensures c in run[j].b.calls && run[j].b.calls[c].kind == run[i].b.calls[c].kind
    ensures run[j].b.calls[c].since == run[i].b.calls[c].since
    decreases j - i
  {
    hide Next;
    if i < j {
      IdentityStays(run, labels, i, j - 1, c);
      assert Next(run[j - 1], labels[j - 1]) == Some(run[j]);
      IdentityStep(run[j - 1], labels[j - 1], c);
    }
  }

  // ---------------------------------------------------------------- backoff

  lemma {:induction false} DoubledIsPower(initial: int, n: nat)
    ensures Doubled(initial, n) == initial * Pow2(n)
  {
    if n == 0 {
    } else {
      DoubledIsPower(initial, n - 1);
      assert initial * (2 * Pow2(n - 1)) == 2 * (initial * Pow2(n - 1));
    }
  }

  /** The base delay of a retry after n retries in a row is initial * 2^n over the integers, capped at max. */
  lemma BackoffSchedule(run: seq<Sup>, labels: seq<Label>, k: nat)
    requires Run(run, labels) && k < |run|
    ensures var r := run[k].retry;
            r.backoff == if r.failures == 0 then r.initial else Min(r.initial * Pow2(r.failures), r.max)
    ensures run[k].main.ArbApply? && k < |labels| && labels[k] == Main(Go) ==>
              run[k + 1].retry.failures == 0 && run[k + 1].retry.backoff == run[k + 1].retry.initial
  {
    RunInv(run, labels, k);
    DoubledIsPower(run[k].retry.initial, run[k].retry.failures);
    if run[k].main.ArbApply? && k < |labels| && labels[k] == Main(Go) {
      assert Next(run[k], labels[k]) == Some(run[k + 1]);
      ReplyResets(run[k]);
    }
  }

  lemma ReplyResets(s: Sup)
    requires s.main.ArbApply?
    ensures var t := MainStep(s, Go);
            t.Some? && t.value.retry.failures == 0 && t.value.retry.backoff == t.value.retry.initial
  {
  }
}
