/** Where mastership comes from: every Primary or Backup epoch was read from the stream of its own session. */
module SupervisorHistory {
  import opened Wrappers
  import opened Supervisor
  import opened SupervisorInv
  import opened SupervisorCalls
  import opened SupervisorResults

  // ---------------------------------------------------------------- provenance of replies

  /** Step j reads an arbitration message with this verdict from the stream of session n. */
  predicate ReadsReply(run: seq<Sup>, labels: seq<Label>, j: nat, n: nat, ok: bool) {
    j < |labels| && j < |run| &&
    match labels[j]
    case Main(m) => m.ArbReply? && StatusOk(m.status) == ok && run[j].m.session == n
    case OfReceiver(r, b) => r == n && b.ReadReply? && StatusOk(b.status) == ok
    case _ => false
  }

  ghost predicate WasRead(run: seq<Sup>, labels: seq<Label>, k: nat, n: nat, ok: bool) {
    exists j: nat :: j < k && ReadsReply(run, labels, j, n, ok)
  }

  /** The verdict that the main loop is about to apply. */
  function Applying(main: MainPc): Option<bool> {
    match main
    case ArbApply(ok) => Some(ok)
    case ServeApply(ok) => Some(ok)
    case DrainApply(_, ok) => Some(ok)
    case _ => None
  }

  /** Every verdict in the state, offered, about to be applied or applied, was read in its session. */
  ghost predicate ReadInv(run: seq<Sup>, labels: seq<Label>, k: nat)
    requires k < |run|
  {
    var s := run[k];
    && (forall n: nat :: n in s.receivers && s.receivers[n].Offering? ==> WasRead(run, labels, k, n, s.receivers[n].ok))
    && (Applying(s.main).Some? ==> WasRead(run, labels, k, s.m.session, Applying(s.main).value))
    && (forall e: nat :: e < |s.m.epochs| && s.m.epochs[e].cause.Reply? ==>
          WasRead(run, labels, k, s.m.epochs[e].cause.session, s.m.epochs[e].cause.ok))
  }

  /** A step takes verdicts only from where they were, or reads one. */
  lemma ReceiversStep(s: Sup, l: Label, n: nat)
    requires Next(s, l).Some? && n in Next(s, l).value.receivers && Next(s, l).value.receivers[n].Offering?
    ensures (n in s.receivers && s.receivers[n] == Next(s, l).value.receivers[n]) ||
            (l.OfReceiver? && l.n == n && l.b.ReadReply? && StatusOk(l.b.status) == Next(s, l).value.receivers[n].ok)
  {
    if l.OfCall? {
      CallKeepsRest(s, l.c, l.a);
    }
  }

  lemma CallKeepsRest(s: Sup, c: Call, l: CallLabel)
    requires c in s.b.calls && CallStep(s, c, l).Some?
    ensures var t := CallStep(s, c, l).value; t.main == s.main && t.m == s.m && t.receivers == s.receivers
  {
  }

  lemma ApplyingStep(s: Sup, l: Label)
    requires Next(s, l).Some? && Applying(Next(s, l).value.main).Some?
    ensures var t, ok := Next(s, l).value, Applying(Next(s, l).value.main).value;
            && t.m.session == s.m.session
            && (t.main == s.main ||
                (l.Main? && l.m.ArbReply? && StatusOk(l.m.status) == ok) ||
                (s.m.session in s.receivers && s.receivers[s.m.session] == Offering(ok)))
  {
    if l.OfCall? {
      CallKeepsRest(s, l.c, l.a);
    } else if l.Main? {
      MainApplying(s, l.m);
    }
  }

  lemma MainApplying(s: Sup, l: MainLabel)
    requires MainStep(s, l).Some? && Applying(MainStep(s, l).value.main).Some?
    ensures var t, ok := MainStep(s, l).value, Applying(MainStep(s, l).value.main).value;
            && t.m.session == s.m.session
            && ((l.ArbReply? && StatusOk(l.status) == ok) ||
                (s.m.session in s.receivers && s.receivers[s.m.session] == Offering(ok)))
  {
  }

  lemma EpochStep(s: Sup, l: Label)
    requires Next(s, l).Some?
    ensures var t := Next(s, l).value;
            t.m.epochs == s.m.epochs ||
            (|t.m.epochs| == |s.m.epochs| + 1 && s.m.epochs <= t.m.epochs &&
             var e := t.m.epochs[|s.m.epochs|];
             e.cause.Reply? ==>
                 Applying(s.main) == Some(e.cause.ok) && e.cause.session == s.m.session && t.m.session == s.m.session)
  {
    if l.OfCall? {
      CallKeepsRest(s, l.c, l.a);
    } else if l.Main? {
      MainEpoch(s, l.m);
    }
  }

  lemma MainEpoch(s: Sup, l: MainLabel)
    requires MainStep(s, l).Some?
    ensures var t := MainStep(s, l).value;
            t.m.epochs == s.m.epochs ||
            (|t.m.epochs| == |s.m.epochs| + 1 && s.m.epochs <= t.m.epochs &&
             var e := t.m.epochs[|s.m.epochs|];
             e.cause.Reply? ==>
                 Applying(s.main) == Some(e.cause.ok) && e.cause.session == s.m.session && t.m.session == s.m.session)
  {
  }

  lemma ReadStays(run: seq<Sup>, labels: seq<Label>, k: nat, n: nat, ok: bool)
    requires WasRead(run, labels, k, n, ok)
    ensures WasRead(run, labels, k + 1, n, ok)
  {
    var j: nat :| j < k && ReadsReply(run, labels, j, n, ok);
    assert j < k + 1 && ReadsReply(run, labels, j, n, ok);
  }

  lemma {:induction false} RunReadInv(run: seq<Sup>, labels: seq<Label>, k: nat)
    requires Run(run, labels) && k < |run|
    ensures ReadInv(run, labels, k)
    decreases k
  {
    hide Next, WasRead;
    if k == 0 {
    } else {
      var i := k - 1;
      var s, l, t := run[i], labels[i], run[k];
      RunReadInv(run, labels, i);
      assert Next(s, l) == Some(t);
      forall n: nat | n in t.receivers && t.receivers[n].Offering?
        ensures WasRead(run, labels, k, n, t.receivers[n].ok)
      {
        ReceiversStep(s, l, n);
        if l.OfReceiver? && l.n == n && l.b.ReadReply? && StatusOk(l.b.status) == t.receivers[n].ok {
          ReadNow(run, labels, i, n, t.receivers[n].ok);
        } else {
          ReadStays(run, labels, i, n, t.receivers[n].ok);
        }
      }
      if Applying(t.main).Some? {
        var ok := Applying(t.main).value;
        ApplyingStep(s, l);
        if l.Main? && l.m.ArbReply? && StatusOk(l.m.status) == ok {
          ReadNow(run, labels, i, t.m.session, ok);
        } else {
          ReadStays(run, labels, i, t.m.session, ok);
        }
      }
      EpochStep(s, l);
      forall e: nat | e < |t.m.epochs| && t.m.epochs[e].cause.Reply?
        ensures WasRead(run, labels, k, t.m.epochs[e].cause.session, t.m.epochs[e].cause.ok)
      {
        ReadStays(run, labels, i, t.m.epochs[e].cause.session, t.m.epochs[e].cause.ok);
      }
    }
  }

  lemma ReadNow(run: seq<Sup>, labels: seq<Label>, i: nat, n: nat, ok: bool)
    requires ReadsReply(run, labels, i, n, ok)
    ensures WasRead(run, labels, i + 1, n, ok)
  {
  }

  /**
   Each Primary epoch follows an OK or absent status, and each Backup epoch any other, that was read earlier in the
   run from the stream of that very session: as the arbitration reply or by the session's receive goroutine.
   */
  lemma MastershipWasRead(run: seq<Sup>, labels: seq<Label>, k: nat, e: nat)
    requires Run(run, labels) && k < |run| && e < |run[k].m.epochs|
    requires run[k].m.epochs[e].mode.Primary? || run[k].m.epochs[e].mode.Backup?
    ensures var epoch := run[k].m.epochs[e];
            WasRead(run, labels, k, epoch.session, epoch.mode.Primary?)
  {
    RunInv(run, labels, k);
    RunReadInv(run, labels, k);
    var epoch := run[k].m.epochs[e];
    assert CauseFits(epoch);
  }

  /** The state changes to Primary or Backup only while the session whose stream gave the verdict is the current one. */
  lemma MastershipChangesInSession(run: seq<Sup>, labels: seq<Label>, i: nat)
    requires Run(run, labels) && i < |labels| && run[i].m.mode != run[i + 1].m.mode
    requires run[i + 1].m.mode.Primary? || run[i + 1].m.mode.Backup?
    ensures run[i].m.session == run[i + 1].m.session
    ensures WasRead(run, labels, i, run[i].m.session, run[i + 1].m.mode.Primary?)
  {
    hide Next, WasRead;
    var s, t := run[i], run[i + 1];
    RunInv(run, labels, i);
    RunInv(run, labels, i + 1);
    RunReadInv(run, labels, i);
    assert Next(s, labels[i]) == Some(t);
    EpochStep(s, labels[i]);
    ModeChangesWithEpoch(s.m, t.m);
    var e := t.m.epochs[|s.m.epochs|];
    assert e.mode == t.m.mode && CauseFits(e);
    hide Inv;
  }

  lemma ModeChangesWithEpoch(m: Mastership, n: Mastership)
    requires MastershipInv(m) && MastershipInv(n) && m.mode != n.mode
    ensures m.epochs != n.epochs
  {
    assert m.epochs == n.epochs ==> m.changed == n.changed;
  }

  // ---------------------------------------------------------------- one session at a time

  /** Between opening a stream and cancelling its context. */
  predicate InSession(main: MainPc) {
    !main.NotStarted? && !main.TopCtx? && !main.TopFlags? && !main.Connect? && !main.SleepCheck? && !main.Sleeping? &&
    !main.Leave? && !main.FlushLeave? && !main.Closing? && !main.Halted?
  }

  predicate Arbitrates(main: MainPc) {
    main.Dialing? || main.ArbSending? || main.ArbWaiting? || main.ArbApply?
  }

  predicate SessionInv(s: Sup) {
    (!InSession(s.main) && s.m.session > 0 ==> s.flags.sessionDone) && (Arbitrates(s.main) ==> !s.flags.sessionDone)
  }

  lemma SessionStep(s: Sup, l: Label)
    requires SessionInv(s) && Next(s, l).Some?
    ensures SessionInv(Next(s, l).value)
    ensures Next(s, l).value.m.session != s.m.session ==> Opens(s, Next(s, l).value)
  {
    if l.OfCall? {
      CallKeepsRest(s, l.c, l.a);
      CallKeepsSession(s, l.c, l.a);
    } else if l.Main? {
      MainSession(s, l.m);
    }
    hide MainStep, CallStep;
  }

  /** The next session begins, with a live context; that of the one before is over. */
  predicate Opens(s: Sup, t: Sup) {
    t.m.session == s.m.session + 1 && !t.flags.sessionDone && (s.m.session > 0 ==> s.flags.sessionDone)
  }

  lemma CallKeepsSession(s: Sup, c: Call, l: CallLabel)
    requires c in s.b.calls && CallStep(s, c, l).Some?
    ensures CallStep(s, c, l).value.flags.sessionDone == s.flags.sessionDone
  {
  }

  lemma MainSession(s: Sup, l: MainLabel)
    requires SessionInv(s) && MainStep(s, l).Some?
    ensures SessionInv(MainStep(s, l).value)
    ensures MainStep(s, l).value.m.session != s.m.session ==> Opens(s, MainStep(s, l).value)
  {
    hide ConnectStep, ServeStep, FinishStep, SessionInv, Opens;
    if ConnectStep(s, l).Some? {
      ConnectSession(s, l);
    } else if ServeStep(s, l).Some? {
      ServeSession(s, l);
    } else {
      FinishSession(s, l);
    }
  }

  lemma ConnectSession(s: Sup, l: MainLabel)
    requires SessionInv(s) && ConnectStep(s, l).Some?
    ensures var t := ConnectStep(s, l).value; SessionInv(t) && (t.m.session != s.m.session ==> Opens(s, t))
  {
  }

  lemma ServeSession(s: Sup, l: MainLabel)
    requires SessionInv(s) && ServeStep(s, l).Some?
    ensures var t := ServeStep(s, l).value; SessionInv(t) && t.m.session == s.m.session
  {
  }

  lemma FinishSession(s: Sup, l: MainLabel)
    requires SessionInv(s) && FinishStep(s, l).Some?
    ensures var t := FinishStep(s, l).value; SessionInv(t) && t.m.session == s.m.session
  {
  }

  lemma {:induction false} RunSessionInv(run: seq<Sup>, labels: seq<Label>, k: nat)
    requires Run(run, labels) && k < |run|
    ensures SessionInv(run[k])
  {
    hide Next;
    if k == 0 {
    } else {
      RunSessionInv(run, labels, k - 1);
      assert Next(run[k - 1], labels[k - 1]) == Some(run[k]);
      SessionStep(run[k - 1], labels[k - 1]);
    }
  }

  /** A stream is opened with a live context, and only after the context of the stream before it has been cancelled. */
  lemma SessionsDoNotOverlap(run: seq<Sup>, labels: seq<Label>, i: nat)
    requires Run(run, labels) && i < |labels| && run[i + 1].m.session != run[i].m.session
    ensures run[i + 1].m.session == run[i].m.session + 1 && !run[i + 1].flags.sessionDone
    ensures run[i].m.session > 0 ==> run[i].flags.sessionDone
  {
    hide Next;
    RunSessionInv(run, labels, i);
    assert Next(run[i], labels[i]) == Some(run[i + 1]);
    SessionStep(run[i], labels[i]);
  }

  // ---------------------------------------------------------------- waiting for mastership

  /** BecomePrimary returns nil in a step that finds the supervisor primary. */
  lemma BecomeSeesPrimary(s: Sup, c: Call, l: CallLabel)
    requires c in s.b.calls && s.b.calls[c].kind.BECOME? && !s.b.calls[c].pc.Returned?
    requires CallStep(s, c, l).Some? && CallStep(s, c, l).value.b.calls[c].pc == Returned(Success)
    requires CallFits(s.b, s.w, s.m, c)
    ensures l.Step? && s.b.calls[c].pc.BecomeWatch? && s.m.mode.Primary?
  {
  }

  /** BecomePrimary returns nil only if Primary held at some moment of the call, namely when it looked last. */
  lemma {:induction false} BecamePrimaryWhile(run: seq<Sup>, labels: seq<Label>, i: nat, k: nat, c: Call)
      returns (j: nat)
    requires Run(run, labels) && i < k < |run| && labels[i] == Env(NewCall(c, BECOME))
    requires c in run[k].b.calls && run[k].b.calls[c].pc == Returned(Success)
    ensures i < j < k && labels[j] == OfCall(c, Step) && run[j].m.mode.Primary?
    decreases k - i
  {
    hide Next, CallStep, Inv, CallFits;
    RunInv(run, labels, i);
    assert Next(run[i], labels[i]) == Some(run[i + 1]);
    CallBegins(run[i], c);
    IdentityStays(run, labels, i + 1, k - 1, c);
    RunInv(run, labels, k - 1);
    var s, l := run[k - 1], labels[k - 1];
    assert Next(s, l) == Some(run[k]);
    if s.b.calls[c].pc == Returned(Success) {
      j := BecamePrimaryWhile(run, labels, i, k - 1, c);
    } else {
      j := k - 1;
      StepLater(s, l);
      if !(l.OfCall? && l.c == c) {
        OthersLeaveCall(s, l, c);
      }
      CallFitsIn(s, c);
      CallNext(s, c, l.a);
      BecomeSeesPrimary(s, c, l.a);
    }
  }

  lemma CallNext(s: Sup, c: Call, l: CallLabel)
    requires c in s.b.calls
    ensures Next(s, OfCall(c, l)) == CallStep(s, c, l)
  {
    hide CallStep;
  }

  lemma CallBegins(s: Sup, c: Call)
    requires Next(s, Env(NewCall(c, BECOME))).Some?
    ensures var t := Next(s, Env(NewCall(c, BECOME))).value;
            c in t.b.calls && t.b.calls[c].kind.BECOME? && t.b.calls[c].pc.BecomeStart?
  {
  }
}
