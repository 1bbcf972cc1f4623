/** What success means in the labels of a run: the transport's answers behind a Send and behind a graceful close. */
module SupervisorEnds {
  import opened Wrappers
  import opened Supervisor
  import opened SupervisorInv
  import opened SupervisorCalls
  import opened SupervisorResults
  import opened SupervisorHistory
  import opened SupervisorVerdict

  /** Step j: the receive goroutine of session n reads the end of its stream. */
  predicate ReadsEnd(labels: seq<Label>, j: nat, n: nat, eof: bool) {
    j < |labels| && labels[j].OfReceiver? && labels[j].n == n && labels[j].b == ReadEnd(eof)
  }

  ghost predicate EndWasRead(labels: seq<Label>, k: nat, n: nat, eof: bool) {
    exists j: nat :: j < k && ReadsEnd(labels, j, n, eof)
  }

  /** Step j: CloseSend returns nil, in session n. */
  predicate ClosesSend(run: seq<Sup>, labels: seq<Label>, j: nat, n: nat) {
    j < |labels| && j < |run| && labels[j] == Main(CloseSendDone(true)) && run[j].m.session == n
  }

  ghost predicate SendWasClosed(run: seq<Sup>, labels: seq<Label>, k: nat, n: nat) {
    exists j: nat :: j < k && ClosesSend(run, labels, j, n)
  }

  /** Step j: the transport takes the message of this request and returns nil. */
  predicate TransportTakes(run: seq<Sup>, labels: seq<Label>, j: nat, r: Call) {
    j < |labels| && j < |run| && labels[j] == Main(SendDone(true)) && run[j].main == Transmit(r)
  }

  ghost predicate WasTaken(run: seq<Sup>, labels: seq<Label>, k: nat, r: Call) {
    exists j: nat :: j < k && TransportTakes(run, labels, j, r)
  }

  /** In one session, CloseSend returned nil and the stream ended with EOF. */
  ghost predicate EndedWell(run: seq<Sup>, labels: seq<Label>, k: nat) {
    exists n: nat :: SendWasClosed(run, labels, k, n) && EndWasRead(labels, k, n, true)
  }

  predicate HalfClosed(main: MainPc) {
    main.Draining? || main.DrainApply? || main.DrainEnd?
  }

  predicate DrainedWell(main: MainPc) {
    main.Drained? && main.result.Success?
  }

  ghost predicate EndsInv(run: seq<Sup>, labels: seq<Label>, k: nat)
    requires k < |run|
  {
    var s := run[k];
    && (forall n: nat :: n in s.receivers && s.receivers[n].Ended? ==> EndWasRead(labels, k, n, s.receivers[n].eof))
    && (HalfClosed(s.main) ==> SendWasClosed(run, labels, k, s.m.session))
    && (s.main.DrainEnd? ==> EndWasRead(labels, k, s.m.session, s.main.eof))
    && (DrainedWell(s.main) ==> EndedWell(run, labels, k))
    && (s.main.Transmitted? && s.main.ok ==> WasTaken(run, labels, k, s.main.r))
    && (forall r :: r in s.w.done && s.w.done[r].Success? ==> Earned(run, labels, k, r))
  }

  /** What a successful request stands for. */
  ghost predicate Earned(run: seq<Sup>, labels: seq<Label>, k: nat, r: Call)
    requires k < |run|
  {
    r in run[k].b.requests &&
    if run[k].b.requests[r].drain then EndedWell(run, labels, k) else WasTaken(run, labels, k, r)
  }

  // ---------------------------------------------------------------- what was seen stays seen

  lemma SeenStays(run: seq<Sup>, labels: seq<Label>, i: nat, n: nat, eof: bool, r: Call)
    ensures EndWasRead(labels, i, n, eof) ==> EndWasRead(labels, i + 1, n, eof)
    ensures SendWasClosed(run, labels, i, n) ==> SendWasClosed(run, labels, i + 1, n)
    ensures WasTaken(run, labels, i, r) ==> WasTaken(run, labels, i + 1, r)
  {
    if j: nat :| j < i && ReadsEnd(labels, j, n, eof) {
      assert j < i + 1 && ReadsEnd(labels, j, n, eof);
    }
    if j: nat :| j < i && ClosesSend(run, labels, j, n) {
      assert j < i + 1 && ClosesSend(run, labels, j, n);
    }
    if j: nat :| j < i && TransportTakes(run, labels, j, r) {
      assert j < i + 1 && TransportTakes(run, labels, j, r);
    }
  }

  lemma EndedWellStays(run: seq<Sup>, labels: seq<Label>, i: nat)
    ensures EndedWell(run, labels, i) ==> EndedWell(run, labels, i + 1)
  {
    if n: nat :| SendWasClosed(run, labels, i, n) && EndWasRead(labels, i, n, true) {
      SeenStays(run, labels, i, n, true, 0);
      assert SendWasClosed(run, labels, i + 1, n) && EndWasRead(labels, i + 1, n, true);
    }
  }

  // ---------------------------------------------------------------- one step

  lemma EndedStep(s: Sup, l: Label, n: nat)
    requires Next(s, l).Some? && n in Next(s, l).value.receivers && Next(s, l).value.receivers[n].Ended?
    ensures (n in s.receivers && s.receivers[n] == Next(s, l).value.receivers[n]) ||
            (l.OfReceiver? && l.n == n && l.b == ReadEnd(Next(s, l).value.receivers[n].eof))
  {
    if l.OfCall? {
      CallKeepsRest(s, l.c, l.a);
    }
  }

  lemma MainEnds(s: Sup, l: MainLabel)
    requires MainStep(s, l).Some?
    ensures var t := MainStep(s, l).value;
            && (HalfClosed(t.main) ==> t.m.session == s.m.session && (HalfClosed(s.main) || l == CloseSendDone(true)))
            && (t.main.DrainEnd? ==> s.m.session in s.receivers && s.receivers[s.m.session] == Ended(t.main.eof))
            && (DrainedWell(t.main) ==> s.main.DrainEnd? && s.main.eof)
  {
  }

  lemma MainTransmits(s: Sup, l: MainLabel)
    requires MainStep(s, l).Some? && MainStep(s, l).value.main.Transmitted? && MainStep(s, l).value.main.ok
    ensures l == SendDone(true) && s.main == Transmit(MainStep(s, l).value.main.r)
  {
  }

  /** The step adds this success to the outcomes. */
  predicate Succeeds(s: Sup, t: Sup, r: Call) {
    r !in s.w.done && r in t.w.done && t.w.done[r].Success?
  }

  lemma MainSucceeds(s: Sup, l: MainLabel, r: Call)
    requires MainStep(s, l).Some? && Succeeds(s, MainStep(s, l).value, r)
    requires s.main.FlushServe? ==> !s.main.error.Success?
    ensures s.main == Transmitted(r, true) || s.main == Drained(r, Success)
  {
    hide ConnectStep, ServeStep, FinishStep, Succeeds;
    if ConnectStep(s, l).Some? {
      ConnectSucceedsNot(s, l, r);
    } else if ServeStep(s, l).Some? {
      ServeSucceeds(s, l, r);
    } else {
      FinishSucceeds(s, l, r);
    }
  }

  lemma ConnectSucceedsNot(s: Sup, l: MainLabel, r: Call)
    requires ConnectStep(s, l).Some?
    ensures !Succeeds(s, ConnectStep(s, l).value, r)
  {
  }

  lemma ServeSucceeds(s: Sup, l: MainLabel, r: Call)
    requires ServeStep(s, l).Some? && Succeeds(s, ServeStep(s, l).value, r)
    requires s.main.FlushServe? ==> !s.main.error.Success?
    ensures s.main == Transmitted(r, true)
  {
  }

  lemma FinishSucceeds(s: Sup, l: MainLabel, r: Call)
    requires FinishStep(s, l).Some? && Succeeds(s, FinishStep(s, l).value, r)
    ensures s.main == Drained(r, Success)
  {
  }

  lemma CallNeverSucceeds(s: Sup, c: Call, l: CallLabel, r: Call)
    requires c in s.b.calls && CallStep(s, c, l).Some? && r !in s.w.done && r in CallStep(s, c, l).value.w.done
    ensures !CallStep(s, c, l).value.w.done[r].Success?
  {
  }

  /** What the invariant of the loop says about the request in its hands. */
  lemma HandKnows(s: Sup)
    requires Inv(s)
    ensures s.main.Transmitted? ==> s.main.r in s.b.requests && !s.b.requests[s.main.r].drain
    ensures s.main.Drained? ==> s.main.r in s.b.requests && s.b.requests[s.main.r].drain
    ensures s.main.FlushServe? ==> !s.main.error.Success?
  {
  }

  /** A success that a step adds was earned before. */
  lemma NewSuccess(run: seq<Sup>, labels: seq<Label>, i: nat, r: Call)
    requires Run(run, labels) && i < |labels| && EndsInv(run, labels, i)
    requires r !in run[i].w.done && r in run[i + 1].w.done && run[i + 1].w.done[r].Success?
    ensures Earned(run, labels, i, r)
  {
    hide Next, MainStep, CallStep, Inv, EndedWell, WasTaken, SendWasClosed, EndWasRead;
    var s, l := run[i], labels[i];
    assert Next(s, l) == Some(run[i + 1]);
    RunInv(run, labels, i);
    HandKnows(s);
    if l.Main? {
      MainNext(s, l.m);
      MainSucceeds(s, l.m, r);
    } else if l.OfCall? {
      CallOnly(s, l);
      CallNext(s, l.c, l.a);
      CallNeverSucceeds(s, l.c, l.a, r);
    } else {
      OthersKeepDone(s, l);
    }
  }

  lemma CallOnly(s: Sup, l: Label)
    requires l.OfCall? && Next(s, l).Some?
    ensures l.c in s.b.calls
  {
  }

  lemma OthersKeepDone(s: Sup, l: Label)
    requires (l.OfReceiver? || l.Env?) && Next(s, l).Some?
    ensures Next(s, l).value.w == s.w && Next(s, l).value.main == s.main && Next(s, l).value.m == s.m
  {
  }

  /** What the main loop knows after a step of the run. */
  lemma MainPartStays(run: seq<Sup>, labels: seq<Label>, i: nat)
    requires Run(run, labels) && i < |labels| && EndsInv(run, labels, i)
    ensures var t := run[i + 1];
            && (HalfClosed(t.main) ==> SendWasClosed(run, labels, i + 1, t.m.session))
            && (t.main.DrainEnd? ==> EndWasRead(labels, i + 1, t.m.session, t.main.eof))
            && (DrainedWell(t.main) ==> EndedWell(run, labels, i + 1))
            && (t.main.Transmitted? && t.main.ok ==> WasTaken(run, labels, i + 1, t.main.r))
  {
    hide Next, MainStep, CallStep;
    var s, l, t := run[i], labels[i], run[i + 1];
    assert Next(s, l) == Some(t);
    SeenStays(run, labels, i, t.m.session, if t.main.DrainEnd? then t.main.eof else true,
      if t.main.Transmitted? then t.main.r else 0);
    EndedWellStays(run, labels, i);
    if l.Main? {
      MainNext(s, l.m);
      MainEnds(s, l.m);
      if t.main.Transmitted? && t.main.ok {
        MainTransmits(s, l.m);
      }
      if l.m == CloseSendDone(true) && s.m.session == t.m.session {
        assert ClosesSend(run, labels, i, t.m.session);
      }
      if l.m == SendDone(true) && t.main.Transmitted? && s.main == Transmit(t.main.r) {
        assert TransportTakes(run, labels, i, t.main.r);
      }
      if DrainedWell(t.main) {
        assert EndedWell(run, labels, i);
      }
    } else {
      if l.OfCall? {
        CallOnly(s, l);
        CallNext(s, l.c, l.a);
        CallKeepsRest(s, l.c, l.a);
      } else {
        OthersKeepDone(s, l);
      }
    }
  }

  lemma {:induction false} RunEndsInv(run: seq<Sup>, labels: seq<Label>, k: nat)
    requires Run(run, labels) && k < |run|
    ensures EndsInv(run, labels, k)
    decreases k
  {
    hide Next, Inv, EndedWell, WasTaken, SendWasClosed, EndWasRead, Later;
    if k == 0 {
    } else {
      var i := k - 1;
      var s, l, t := run[i], labels[i], run[k];
      RunEndsInv(run, labels, i);
      assert Next(s, l) == Some(t);
      MainPartStays(run, labels, i);
      forall n: nat | n in t.receivers && t.receivers[n].Ended? ensures EndWasRead(labels, k, n, t.receivers[n].eof) {
        EndedStep(s, l, n);
        SeenStays(run, labels, i, n, t.receivers[n].eof, 0);
        if l.OfReceiver? && l.n == n && l.b == ReadEnd(t.receivers[n].eof) {
          ReadEndNow(labels, i, n, t.receivers[n].eof);
        }
      }
      forall r | r in t.w.done && t.w.done[r].Success? ensures Earned(run, labels, k, r) {
        EarnedStays(run, labels, i, r);
      }
    }
  }

  lemma ReadEndNow(labels: seq<Label>, i: nat, n: nat, eof: bool)
    requires ReadsEnd(labels, i, n, eof)
    ensures EndWasRead(labels, i + 1, n, eof)
  {
  }

  lemma EarnedStays(run: seq<Sup>, labels: seq<Label>, i: nat, r: Call)
    requires Run(run, labels) && i < |labels| && EndsInv(run, labels, i)
    requires r in run[i + 1].w.done && run[i + 1].w.done[r].Success?
    ensures Earned(run, labels, i + 1, r)
  {
    hide Next, EndedWell, WasTaken, SendWasClosed, EndWasRead;
    if r !in run[i].w.done {
      NewSuccess(run, labels, i, r);
    } else {
      RunLater(run, labels, i, i + 1);
    }
    RequestsStay(run, labels, i, i + 1, r);
    SeenStays(run, labels, i, 0, true, r);
    EndedWellStays(run, labels, i);
  }

  // ---------------------------------------------------------------- results

  /** Send returns nil only if the transport returned nil for this very message. */
  lemma SendSucceedsByTransport(run: seq<Sup>, labels: seq<Label>, k: nat, c: Call)
    requires Run(run, labels) && k < |run| && c in run[k].b.calls
    requires run[k].b.calls[c].kind.SEND? && run[k].b.calls[c].pc == Returned(Success)
    ensures exists j: nat :: j < k && TransportTakes(run, labels, j, c)
  {
    RunInv(run, labels, k);
    RunEndsInv(run, labels, k);
    CallFitsIn(run[k], c);
    assert Earned(run, labels, k, c);
  }

  /**
   CloseGracefully returns nil only if, in one session, CloseSend returned nil and the stream of that very session
   ended with EOF.
   */
  lemma CloseSucceedsByEOF(run: seq<Sup>, labels: seq<Label>, k: nat, c: Call)
    requires Run(run, labels) && k < |run| && c in run[k].b.calls
    requires run[k].b.calls[c].kind.CLOSE? && run[k].b.calls[c].pc == Returned(Success)
    ensures exists n: nat :: SendWasClosed(run, labels, k, n) && EndWasRead(labels, k, n, true)
  {
    RunInv(run, labels, k);
    RunEndsInv(run, labels, k);
    CallFitsIn(run[k], c);
    var g := run[k].b.grace.value;
    DrainRequest(run[k]);
    assert Earned(run, labels, k, g);
    assert EndedWell(run, labels, k);
  }

  lemma DrainRequest(s: Sup)
    requires Inv(s) && s.b.grace.Some?
    ensures s.b.grace.value in s.b.requests && s.b.requests[s.b.grace.value].drain
  {
  }

  /** The end that finishStream looks at is the one that the stream of its session ended with. */
  lemma DrainEndWasRead(run: seq<Sup>, labels: seq<Label>, i: nat)
    requires Run(run, labels) && i < |run| && run[i].main.DrainEnd?
    ensures EndWasRead(labels, i, run[i].m.session, run[i].main.eof)
  {
    RunEndsInv(run, labels, i);
  }

  lemma DrainEndStep(s: Sup)
    requires s.main.DrainEnd?
    ensures var t := Next(s, Main(Go));
            t.Some? && t.value.main.Drained? && t.value.main.r == s.main.r &&
            t.value.main.result == if SessionOver(s) then StreamClosed else if s.main.eof then Success else Transport
  {
  }

  lemma DrainedStep(s: Sup)
    requires s.main.Drained? && s.main.r !in s.w.done
    ensures var t := Next(s, Main(Go));
            t.Some? && s.main.r in t.value.w.done && t.value.w.done[s.main.r] == s.main.result
  {
  }

  /** After the result is known, the main loop reports it or has left. */
  lemma {:induction false} ResultStays(run: seq<Sup>, labels: seq<Label>, i: nat, j: nat)
    requires Run(run, labels) && i <= j < |run| && run[i].main.Drained?
    ensures run[j].main == run[i].main || Left(run[j].main)
    decreases j - i
  {
    hide Next;
    if i == j {
    } else {
      ResultStays(run, labels, i, j - 1);
      assert Next(run[j - 1], labels[j - 1]) == Some(run[j]);
      LeftStep(run[j - 1], labels[j - 1]);
    }
  }

  predicate Left(main: MainPc) {
    main.Leave? || main.FlushLeave? || main.Closing? || main.Halted?
  }

  lemma LeftStep(s: Sup, l: Label)
    requires Next(s, l).Some? && (s.main.Drained? || Left(s.main))
    ensures var t := Next(s, l).value; Left(t.main) || (t.main == s.main && s.main.Drained?)
  {
    if l.OfCall? {
      CallKeepsRest(s, l.c, l.a);
    }
  }

  /**
   The drain request is finished with success if and only if the stream ended with EOF while the session was not
   over. Step i looks at the end, step j finishes the request.
   */
  lemma DrainSucceedsExactly(run: seq<Sup>, labels: seq<Label>, i: nat, j: nat)
    requires Run(run, labels) && i < j < |labels| && labels[i] == Main(Go) && labels[j] == Main(Go)
    requires run[i].main.DrainEnd? && run[j].main.Drained?
    ensures run[i].main.r in run[j + 1].w.done
    ensures run[j + 1].w.done[run[i].main.r].Success? <==> run[i].main.eof && !SessionOver(run[i])
    ensures run[j + 1].w.done[run[i].main.r] ==
            if SessionOver(run[i]) then StreamClosed else if run[i].main.eof then Success else Transport
  {
    hide Next;
    assert Next(run[i], labels[i]) == Some(run[i + 1]) && Next(run[j], labels[j]) == Some(run[j + 1]);
    DrainEndStep(run[i]);
    ResultStays(run, labels, i + 1, j);
    RunInv(run, labels, j);
    InFlightUnfinished(run[j]);
    DrainedStep(run[j]);
  }

  lemma InFlightUnfinished(s: Sup)
    requires Inv(s) && InFlight(s.main).Some?
    ensures InFlight(s.main).value !in s.w.done
  {
  }

  /** Without an end of the stream the close fails: half-close refused, Close called, or the session was cancelled. */
  lemma DrainFails(run: seq<Sup>, labels: seq<Label>, i: nat)
    requires Run(run, labels) && i < |labels| && run[i + 1].main.Drained? && !run[i].main.Drained? &&
        !run[i].main.DrainEnd?
    ensures run[i + 1].main.r == run[i].main.r
    ensures run[i].main.HalfClose? ==>
              labels[i] == Main(CloseSendDone(false)) &&
              run[i + 1].main.result == if SessionOver(run[i]) then StreamClosed else Transport
    ensures !run[i].main.HalfClose? ==>
              run[i].main.Draining? && (SessionOver(run[i]) || run[i].flags.stop) &&
              run[i + 1].main.result == StreamClosed
  {
    assert Next(run[i], labels[i]) == Some(run[i + 1]);
    if labels[i].Main? {
      DrainFailsStep(run[i], labels[i].m);
    } else {
      OthersKeepVerdict(run[i], labels[i]);
    }
    hide Next;
  }

  lemma DrainFailsStep(s: Sup, l: MainLabel)
    requires MainStep(s, l).Some? && MainStep(s, l).value.main.Drained? && !s.main.Drained? && !s.main.DrainEnd?
    ensures s.main.HalfClose? || s.main.Draining?
    ensures var t := MainStep(s, l).value.main;
            && t.r == s.main.r
            && (s.main.HalfClose? ==>
                  l == CloseSendDone(false) && t.result == if SessionOver(s) then StreamClosed else Transport)
            && (s.main.Draining? ==> (SessionOver(s) || s.flags.stop) && t.result == StreamClosed)
  {
  }
}
