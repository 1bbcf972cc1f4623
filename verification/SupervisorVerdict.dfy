/** Mastership follows the target: while a session is served, the state is what the last verdict of its stream says. */
module SupervisorVerdict {
  import opened Wrappers
  import opened Supervisor
  import opened SupervisorHistory

  // ---------------------------------------------------------------- verdicts, from the labels of a run

  /** The verdict of the last arbitration message that the receive goroutine of session n has read before step k. */
  function LastRead(labels: seq<Label>, k: nat, n: nat): Option<bool>
    requires k <= |labels|
  {
    if k == 0 then None
    else
      match labels[k - 1]
      case OfReceiver(m, b) =>
        if m == n && b.ReadReply? then Some(StatusOk(b.status)) else LastRead(labels, k - 1, n)
      case _ => LastRead(labels, k - 1, n)
  }

  /**
   The verdict that the main loop took last before step k: the arbitration reply, or what the receive goroutine of
   the session had read when the main loop took a message from it.
   */
  function LastVerdict(run: seq<Sup>, labels: seq<Label>, k: nat): Option<bool>
    requires k <= |labels| && |run| == |labels| + 1
  {
    if k == 0 then None
    else
      match labels[k - 1]
      case Main(m) =>
        if m.ArbReply? then Some(StatusOk(m.status))
        else if m.TakeReply? then LastRead(labels, k - 1, run[k - 1].m.session)
        else LastVerdict(run, labels, k - 1)
      case _ => LastVerdict(run, labels, k - 1)
  }

  /** The loop of serve or finishStream, with no verdict taken and not yet applied. */
  predicate Settled(main: MainPc) {
    main.Serving? || main.ServeBroken? || main.Taken? || main.CheckPrimary? || main.CheckEpoch? || main.Transmit? ||
    main.Transmitted? || main.SendBroken? || main.HalfClose? || main.Draining? || main.DrainEnd? || main.Drained?
  }

  ghost predicate VerdictInv(run: seq<Sup>, labels: seq<Label>, k: nat)
    requires k <= |labels| && |run| == |labels| + 1
  {
    var s := run[k];
    && (forall n: nat :: n in s.receivers && s.receivers[n].Offering? ==>
        LastRead(labels, k, n) == Some(s.receivers[n].ok))
    && (Applying(s.main).Some? ==> LastVerdict(run, labels, k) == Applying(s.main))
    && (Settled(s.main) ==> LastVerdict(run, labels, k).Some? && s.m.mode == ModeOf(LastVerdict(run, labels, k).value))
  }

  // ---------------------------------------------------------------- one step

  /** Where the verdict to apply comes from. */
  lemma MainVerdict(s: Sup, l: MainLabel)
    requires MainStep(s, l).Some?
    ensures var t := MainStep(s, l).value;
            && (l.ArbReply? ==> Applying(t.main) == Some(StatusOk(l.status)))
            && (l.TakeReply? ==>
                  s.m.session in s.receivers && s.receivers[s.m.session].Offering? &&
                  Applying(t.main) == Some(s.receivers[s.m.session].ok))
            && (!l.ArbReply? && !l.TakeReply? ==> Applying(t.main).None?)
  {
  }

  /** The verdict in hand becomes the state, and without one the state stays. */
  predicate Follows(s: Sup, t: Sup) {
    Settled(t.main) ==>
      if Applying(s.main).Some? then t.m.mode == ModeOf(Applying(s.main).value)
      else Settled(s.main) && t.m.mode == s.m.mode
  }

  lemma MainSettles(s: Sup, l: MainLabel)
    requires MainStep(s, l).Some?
    ensures Follows(s, MainStep(s, l).value)
  {
    hide ConnectStep, ServeStep, FinishStep, Follows;
    if ConnectStep(s, l).Some? {
      ConnectSettles(s, l);
    } else if ServeStep(s, l).Some? {
      ServeSettles(s, l);
    } else {
      FinishSettles(s, l);
    }
  }

  lemma ConnectSettles(s: Sup, l: MainLabel)
    requires ConnectStep(s, l).Some?
    ensures Follows(s, ConnectStep(s, l).value)
  {
  }

  lemma ServeSettles(s: Sup, l: MainLabel)
    requires ServeStep(s, l).Some?
    ensures Follows(s, ServeStep(s, l).value)
  {
  }

  lemma FinishSettles(s: Sup, l: MainLabel)
    requires FinishStep(s, l).Some?
    ensures Follows(s, FinishStep(s, l).value)
  {
  }

  /** A step that takes a verdict does not apply it. */
  lemma TakingIsNotSettled(s: Sup, l: MainLabel)
    requires MainStep(s, l).Some? && (l.ArbReply? || l.TakeReply?)
    ensures !Settled(MainStep(s, l).value.main)
  {
    MainVerdict(s, l);
    hide MainStep;
  }

  lemma OthersKeepVerdict(s: Sup, l: Label)
    requires Next(s, l).Some? && !l.Main?
    ensures var t := Next(s, l).value; t.main == s.main && t.m.mode == s.m.mode
  {
    if l.OfCall? {
      CallKeepsRest(s, l.c, l.a);
    }
    hide CallStep;
  }

  /** An offer stays what it was, or has just been read. */
  lemma OffersStep(run: seq<Sup>, labels: seq<Label>, k: nat, n: nat)
    requires k < |labels| && |run| == |labels| + 1 && Next(run[k], labels[k]) == Some(run[k + 1])
    requires n in run[k + 1].receivers && run[k + 1].receivers[n].Offering?
    requires n in run[k].receivers && run[k].receivers[n].Offering? ==>
               LastRead(labels, k, n) == Some(run[k].receivers[n].ok)
    ensures LastRead(labels, k + 1, n) == Some(run[k + 1].receivers[n].ok)
  {
    var s, l := run[k], labels[k];
    ReceiversStep(s, l, n);
    if l.OfReceiver? && l.n == n && l.b.ReadReply? {
      ReadsOnce(s, n, l.b);
    }
    hide Next;
  }

  lemma ReadsOnce(s: Sup, n: nat, b: ReceiverLabel)
    requires b.ReadReply? && n in s.receivers && ReceiverStep(s, n, b).Some?
    ensures s.receivers[n].Reading?
  {
  }

  lemma {:induction false} RunVerdictInv(run: seq<Sup>, labels: seq<Label>, k: nat)
    requires Run(run, labels) && k < |run|
    ensures VerdictInv(run, labels, k)
    decreases k
  {
    hide Next;
    if k == 0 {
    } else {
      var i := k - 1;
      var s, l, t := run[i], labels[i], run[k];
      RunVerdictInv(run, labels, i);
      assert Next(s, l) == Some(t);
      forall n: nat | n in t.receivers && t.receivers[n].Offering?
        ensures LastRead(labels, k, n) == Some(t.receivers[n].ok)
      {
        OffersStep(run, labels, i, n);
      }
      if l.Main? {
        MainNext(s, l.m);
        MainVerdict(s, l.m);
        MainSettles(s, l.m);
        if l.m.ArbReply? || l.m.TakeReply? {
          TakingIsNotSettled(s, l.m);
        }
      } else {
        OthersKeepVerdict(s, l);
      }
    }
  }

  lemma MainNext(s: Sup, l: MainLabel)
    ensures Next(s, Main(l)) == MainStep(s, l)
  {
    hide MainStep;
  }

  // ---------------------------------------------------------------- result

  /**
   In every state of the loop that serves a stream or waits for its end, with no verdict in hand, there is a last
   verdict, the state is Primary if and only if it was OK or absent, and Backup otherwise.
   */
  lemma StateFollowsVerdict(run: seq<Sup>, labels: seq<Label>, k: nat)
    requires Run(run, labels) && k < |run| && Settled(run[k].main)
    ensures LastVerdict(run, labels, k).Some?
    ensures run[k].m.mode.Primary? <==> LastVerdict(run, labels, k) == Some(true)
    ensures run[k].m.mode.Backup? <==> LastVerdict(run, labels, k) == Some(false)
  {
    RunVerdictInv(run, labels, k);
  }

  // ---------------------------------------------------------------- each message is taken once

  lemma TakeEmpties(s: Sup, l: MainLabel)
    requires MainStep(s, l).Some? && l.TakeReply?
    ensures var t := MainStep(s, l).value;
            t.m.session == s.m.session && s.m.session in s.receivers && s.receivers[s.m.session].Offering? &&
            s.m.session in t.receivers && !t.receivers[s.m.session].Offering?
  {
  }

  /** Step k lets session n read an arbitration message. */
  predicate ReadsFrom(labels: seq<Label>, k: nat, n: nat) {
    k < |labels| && labels[k].OfReceiver? && labels[k].n == n && labels[k].b.ReadReply?
  }

  lemma {:induction false} OfferNeedsRead(run: seq<Sup>, labels: seq<Label>, i: nat, j: nat, n: nat) returns (k: nat)
    requires Run(run, labels) && i <= j < |run|
    requires !(n in run[i].receivers && run[i].receivers[n].Offering?)
    requires n in run[j].receivers && run[j].receivers[n].Offering?
    ensures i <= k < j && ReadsFrom(labels, k, n)
    decreases j - i
  {
    hide Next;
    var s, l := run[j - 1], labels[j - 1];
    assert Next(s, l) == Some(run[j]);
    ReceiversStep(s, l, n);
    if n in s.receivers && s.receivers[n].Offering? {
      k := OfferNeedsRead(run, labels, i, j - 1, n);
    } else {
      k := j - 1;
    }
  }

  /** Between two verdicts that the main loop takes from one stream, that stream has delivered another message. */
  lemma VerdictTakenOnce(run: seq<Sup>, labels: seq<Label>, i: nat, j: nat) returns (k: nat)
    requires Run(run, labels) && i < j < |labels| && labels[i] == Main(TakeReply) && labels[j] == Main(TakeReply)
    requires run[i].m.session == run[j].m.session
    ensures i < k < j && ReadsFrom(labels, k, run[i].m.session)
  {
    assert Next(run[i], labels[i]) == Some(run[i + 1]) && Next(run[j], labels[j]) == Some(run[j + 1]);
    MainNext(run[i], TakeReply);
    MainNext(run[j], TakeReply);
    hide Next, MainStep;
    TakeEmpties(run[i], TakeReply);
    TakeEmpties(run[j], TakeReply);
    k := OfferNeedsRead(run, labels, i + 1, j, run[i].m.session);
  }
}
