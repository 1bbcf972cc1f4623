/** A graceful close whose context ends too early: exactly when the stream is half-closed, over whole runs. */
module SupervisorDrain {
  import opened Wrappers
  import opened Supervisor
  import opened SupervisorInv
  import opened SupervisorCalls
  import opened SupervisorResults

  /** Step i of the run is the one in which serve looks at the drain request that it has dequeued. */
  predicate LooksAtDrain(run: seq<Sup>, labels: seq<Label>, i: nat) {
    i < |labels| && i < |run| && labels[i] == Main(Go) && run[i].main.Taken? && run[i].b.grace == Some(run[i].main.r)
  }

  /** CloseSend is being called. */
  predicate HalfCloses(s: Sup) {
    s.main.HalfClose?
  }

  /** The test of the request's context decides between the half-close and going on to serve. */
  lemma DrainTest(run: seq<Sup>, labels: seq<Label>, i: nat)
    requires Run(run, labels) && LooksAtDrain(run, labels, i)
    ensures i + 1 < |run| && run[i].flags.draining
    ensures !CtxDone(run[i], run[i].main.r) ==> HalfCloses(run[i + 1])
    ensures CtxDone(run[i], run[i].main.r) ==>
              && run[i + 1].main.Serving? && run[i + 1].flags.draining
              && run[i].main.r in run[i + 1].w.done && run[i + 1].w.done[run[i].main.r] == Cancelled
  {
    RunInv(run, labels, i);
    assert Next(run[i], labels[i]) == Some(run[i + 1]);
    DrainTestStep(run[i]);
  }

  lemma DrainTestStep(s: Sup)
    requires Inv(s) && s.main.Taken? && s.b.grace == Some(s.main.r)
    ensures Next(s, Main(Go)).Some? && s.flags.draining
    ensures var t := Next(s, Main(Go)).value;
            if CtxDone(s, s.main.r)
            then t.main.Serving? && t.flags == s.flags && t.w == s.w.(done := s.w.done[s.main.r := Cancelled])
            else t.main == HalfClose(s.main.r)
  {
  }

  /** Once the drain request is finished, the stream is never half-closed again. */
  lemma NoHalfCloseAfterDrain(run: seq<Sup>, labels: seq<Label>, i: nat, j: nat)
    requires Run(run, labels) && i <= j < |run|
    requires run[i].b.grace.Some? && run[i].b.grace.value in run[i].w.done
    ensures !HalfCloses(run[j]) && (j < |labels| ==> !IsCloseSend(labels[j]))
  {
    RunInv(run, labels, j);
    RunLater(run, labels, i, j);
    var s := run[j];
    assert InFlight(s.main).Some? ==> InFlight(s.main).value !in s.w.done;
    if HalfCloses(s) {
      DrainIsLast(s);
    }
    if j < |labels| && IsCloseSend(labels[j]) {
      assert Next(s, labels[j]) == Some(run[j + 1]);
      CloseSendCounts(s, labels[j]);
    }
  }

  /** From the half-close on the main loop only winds up. */
  lemma {:induction false} HalfCloseIsFinal(run: seq<Sup>, labels: seq<Label>, i: nat, j: nat)
    requires Run(run, labels) && i <= j < |run| && (HalfCloses(run[i]) || Winding(run[i].main))
    ensures HalfCloses(run[j]) || Winding(run[j].main)
    decreases j - i
  {
    hide Next;
    if i == j {
    } else {
      HalfCloseIsFinal(run, labels, i, j - 1);
      assert Next(run[j - 1], labels[j - 1]) == Some(run[j]);
      WindingStep(run[j - 1], labels[j - 1]);
    }
  }

  lemma WindingStep(s: Sup, l: Label)
    requires Next(s, l).Some? && (HalfCloses(s) || Winding(s.main))
    ensures HalfCloses(Next(s, l).value) || Winding(Next(s, l).value.main)
  {
    if l.OfCall? {
      CallKeepsMain(s, l.c, l.a);
    }
  }

  lemma CallKeepsMain(s: Sup, c: Call, l: CallLabel)
    requires c in s.b.calls && CallStep(s, c, l).Some?
    ensures CallStep(s, c, l).value.main == s.main
  {
  }

  /**
   In a run that dequeues the drain request, the stream is half-closed, before or after, if and only if the context
   of the closing call is live at that moment.
   */
  lemma HalfClosedIffLive(run: seq<Sup>, labels: seq<Label>, i: nat)
    requires Run(run, labels) && LooksAtDrain(run, labels, i)
    ensures (exists j :: 0 <= j < |run| && HalfCloses(run[j])) <==> !CtxDone(run[i], run[i].main.r)
  {
    DrainTest(run, labels, i);
    if CtxDone(run[i], run[i].main.r) {
      RunLater(run, labels, i, i + 1);
      forall j | 0 <= j < |run| ensures !HalfCloses(run[j]) {
        if j <= i {
          if HalfCloses(run[j]) {
            HalfCloseIsFinal(run, labels, j, i);
          }
        } else {
          NoHalfCloseAfterDrain(run, labels, i + 1, j);
        }
      }
    }
  }

  /** Over a whole run: the stream is half-closed exactly if some step finds the closing call's context live. */
  lemma HalfClosedExactly(run: seq<Sup>, labels: seq<Label>)
    requires Run(run, labels)
    ensures (exists j :: 0 <= j < |run| && HalfCloses(run[j])) <==>
            (exists i: nat :: LooksAtDrain(run, labels, i) && !CtxDone(run[i], run[i].main.r))
  {
    if j :| 0 <= j < |run| && HalfCloses(run[j]) {
      var i := HalfCloseBegins(run, labels, j);
    }
    if i: nat :| LooksAtDrain(run, labels, i) && !CtxDone(run[i], run[i].main.r) {
      DrainTest(run, labels, i);
      assert HalfCloses(run[i + 1]);
    }
  }

  lemma {:induction false} HalfCloseBegins(run: seq<Sup>, labels: seq<Label>, j: nat) returns (i: nat)
    requires Run(run, labels) && j < |run| && HalfCloses(run[j])
    ensures i < j && LooksAtDrain(run, labels, i) && !CtxDone(run[i], run[i].main.r)
  {
    hide Next;
    assert j > 0;
    var s := run[j - 1];
    assert Next(s, labels[j - 1]) == Some(run[j]);
    if HalfCloses(s) {
      i := HalfCloseBegins(run, labels, j - 1);
    } else {
      RunInv(run, labels, j - 1);
      HalfCloseEnters(s, labels[j - 1]);
      i := j - 1;
    }
  }

  lemma HalfCloseEnters(s: Sup, l: Label)
    requires DrainInv(s.b, s.w.accepted, s.flags.draining)
    requires Next(s, l).Some? && !HalfCloses(s) && HalfCloses(Next(s, l).value)
    ensures l == Main(Go) && s.main.Taken? && s.b.grace == Some(s.main.r) && !CtxDone(s, s.main.r)
  {
    if l.OfCall? {
      CallKeepsMain(s, l.c, l.a);
    } else if l.Main? {
      MainEntersHalfClose(s, l.m);
    }
  }

  lemma MainEntersHalfClose(s: Sup, l: MainLabel)
    requires MainStep(s, l).Some? && !HalfCloses(s) && HalfCloses(MainStep(s, l).value)
    ensures l.Go? && s.main.Taken? && !CtxDone(s, s.main.r)
    ensures s.main.r in s.b.requests && s.b.requests[s.main.r].drain
  {
  }

  /** No closing call reports success in a run whose drain request is found cancelled. */
  lemma CancelledDrainNeverSucceeds(run: seq<Sup>, labels: seq<Label>, i: nat, k: nat, c: Call)
    requires Run(run, labels) && LooksAtDrain(run, labels, i) && CtxDone(run[i], run[i].main.r)
    requires k < |run| && c in run[k].b.calls && run[k].b.calls[c].kind.CLOSE?
    ensures run[k].b.calls[c].pc != Returned(Success)
  {
    DrainTest(run, labels, i);
    RunInv(run, labels, i);
    RunInv(run, labels, k);
    if run[k].b.calls[c].pc == Returned(Success) {
      assert CallFits(run[k].b, run[k].w, run[k].m, c);
      if k <= i {
        RunLater(run, labels, k, i);
      } else {
        RunLater(run, labels, i, k);
        RunLater(run, labels, i + 1, k);
      }
    }
  }
}
