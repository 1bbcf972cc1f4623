/** Concrete runs: a Send and a graceful close that succeed, and two ways to be cancelled by another call. */
module SupervisorWitness {
  import opened Supervisor
  import opened SupervisorDrain
  import opened Wrappers

  /** The state after the labels, if all of them are enabled in turn. */
  function Exec(s: Sup, labels: seq<Label>): Option<Sup> {
    if labels == [] then Some(s)
    else
      var n := |labels| - 1;
      var front := Exec(s, labels[..n]);
      if front.None? then None else Next(front.value, labels[n])
  }

  /** A state, and the labels that lead to it from the initial state. */
  ghost predicate Reached(labels: seq<Label>, s: Sup) {
    Exec(Init(1, 1), labels) == Some(s)
  }

  lemma Do(labels: seq<Label>, s: Sup, l: Label) returns (more: seq<Label>, t: Sup)
    requires Reached(labels, s) && Next(s, l).Some?
    ensures Reached(more, t) && t == Next(s, l).value && more == labels + [l]
  {
    hide Next;
    more, t := labels + [l], Next(s, l).value;
    assert more[..|labels|] == labels;
  }

  /** Primary on session 1, its receive goroutine reading, nothing shut down. */
  predicate Live(s: Sup) {
    && s.m.mode.Primary? && s.m.session == 1 && 1 in s.receivers && s.receivers[1].Reading?
    && !s.flags.stop && !s.flags.stopped && !s.flags.parentDone && !s.flags.sessionDone
  }

  predicate Quiet(s: Sup) {
    s.b.gate.None? && s.b.grace.None? && !s.flags.draining
  }

  predicate CallAt(s: Sup, c: Call, kind: Kind, pc: Pc) {
    c in s.b.calls && s.b.calls[c].kind == kind && s.b.calls[c].pc == pc && !s.b.calls[c].ctxDone
  }

  lemma Connects(labels: seq<Label>, s: Sup) returns (ls: seq<Label>, t: Sup)
    requires Reached(labels, s)
    requires s == Init(1, 1)
    ensures Reached(ls, t)
    ensures 3 !in t.b.calls && Live(t) && Quiet(t) && t.main.Serving? && t.w.queue == [] && t.w.done == map[]
    ensures CallAt(t, 1, SEND, SendStart) && CallAt(t, 2, CLOSE, CloseStart)
  {
    hide Reached;
    ls, t := labels, s;
    ls, t := Do(ls, t, Env(NewCall(1, SEND)));
    ls, t := Do(ls, t, Env(NewCall(2, CLOSE)));
    ls, t := Do(ls, t, Main(Go));
    ls, t := Do(ls, t, Main(Go));
    ls, t := Do(ls, t, Main(Go));
    ls, t := Do(ls, t, Main(Go));
    ls, t := Do(ls, t, Main(DialOk));
    ls, t := Do(ls, t, Main(ArbSent));
    ls, t := Do(ls, t, Main(ArbReply(None)));
    ls, t := Do(ls, t, Main(Go));
  }

  lemma Enqueues(labels: seq<Label>, s: Sup) returns (ls: seq<Label>, t: Sup)
    requires Reached(labels, s)
    requires 3 !in s.b.calls && Live(s) && Quiet(s) && s.main.Serving? && s.w.queue == [] && s.w.done == map[]
    requires CallAt(s, 1, SEND, SendStart) && CallAt(s, 2, CLOSE, CloseStart)
    ensures Reached(ls, t)
    ensures 3 !in t.b.calls && Live(t) && Quiet(t) && t.main.Serving? && t.w.queue == [1] && t.w.done == map[]
    ensures CallAt(t, 1, SEND, Wait(1)) && CallAt(t, 2, CLOSE, CloseStart)
    ensures 1 in t.b.requests && t.b.requests[1].epoch == t.m.changed && !t.b.requests[1].drain
  {
    hide Reached;
    ls, t := labels, s;
    ls, t := Do(ls, t, OfCall(1, Step));
    ls, t := Do(ls, t, OfCall(1, TakeGate));
    ls, t := Do(ls, t, OfCall(1, Step));
    ls, t := Do(ls, t, OfCall(1, Step));
    ls, t := Do(ls, t, OfCall(1, Step));
    ls, t := Do(ls, t, OfCall(1, Put));
    ls, t := Do(ls, t, OfCall(1, Step));
  }

  lemma Accepts(labels: seq<Label>, s: Sup) returns (ls: seq<Label>, t: Sup)
    requires Reached(labels, s)
    requires 3 !in s.b.calls && Live(s) && Quiet(s) && s.main.Serving? && s.w.queue == [1] && s.w.done == map[]
    requires CallAt(s, 1, SEND, Wait(1)) && CallAt(s, 2, CLOSE, CloseStart)
    requires 1 in s.b.requests && s.b.requests[1].epoch == s.m.changed && !s.b.requests[1].drain
    ensures Reached(ls, t)
    ensures 3 !in t.b.calls && Live(t) && Quiet(t) && t.main == Transmit(1) && t.w.queue == [] && t.w.done == map[]
    ensures CallAt(t, 1, SEND, Wait(1)) && CallAt(t, 2, CLOSE, CloseStart)
  {
    hide Reached;
    ls, t := labels, s;
    ls, t := Do(ls, t, Main(Dequeue));
    ls, t := Do(ls, t, Main(Go));
    ls, t := Do(ls, t, Main(Go));
    ls, t := Do(ls, t, Main(Go));
  }

  lemma Transmits(labels: seq<Label>, s: Sup) returns (ls: seq<Label>, t: Sup)
    requires Reached(labels, s)
    requires 3 !in s.b.calls && Live(s) && Quiet(s) && s.main == Transmit(1) && s.w.queue == [] && s.w.done == map[]
    requires CallAt(s, 1, SEND, Wait(1)) && CallAt(s, 2, CLOSE, CloseStart)
    ensures Reached(ls, t)
    ensures 3 !in t.b.calls && Live(t) && Quiet(t) && t.main.Serving? && t.w.queue == [] && 2 !in t.w.done
    ensures CallAt(t, 1, SEND, Returned(Success)) && CallAt(t, 2, CLOSE, CloseStart)
  {
    hide Reached;
    ls, t := labels, s;
    ls, t := Do(ls, t, Main(SendDone(true)));
    ls, t := Do(ls, t, Main(Go));
    ls, t := Do(ls, t, OfCall(1, Step));
  }

  lemma Asks(labels: seq<Label>, s: Sup) returns (ls: seq<Label>, t: Sup)
    requires Reached(labels, s)
    requires 3 !in s.b.calls && Live(s) && Quiet(s) && s.main.Serving? && s.w.queue == [] && 2 !in s.w.done
    requires CallAt(s, 1, SEND, Returned(Success)) && CallAt(s, 2, CLOSE, CloseStart)
    ensures Reached(ls, t)
    ensures 3 !in t.b.calls && Live(t) && t.b.gate == Some(2) && t.b.grace.None? && t.main.Serving? &&
        t.w.queue == [] && 2 !in t.w.done
    ensures CallAt(t, 1, SEND, Returned(Success)) && CallAt(t, 2, CLOSE, CloseLock)
  {
    hide Reached;
    ls, t := labels, s;
    ls, t := Do(ls, t, OfCall(2, Step));
    ls, t := Do(ls, t, OfCall(2, Step));
    ls, t := Do(ls, t, OfCall(2, TakeGate));
  }

  lemma StartsDrain(labels: seq<Label>, s: Sup) returns (ls: seq<Label>, t: Sup)
    requires Reached(labels, s)
    requires 3 !in s.b.calls && Live(s) && s.b.gate == Some(2) && s.b.grace.None? && s.main.Serving? &&
        s.w.queue == [] && 2 !in s.w.done
    requires CallAt(s, 1, SEND, Returned(Success)) && CallAt(s, 2, CLOSE, CloseLock)
    ensures Reached(ls, t)
    ensures Live(t) && t.main.Serving? && t.w.queue == [] && 2 !in t.w.done
    ensures CallAt(t, 1, SEND, Returned(Success)) && CallAt(t, 2, CLOSE, CloseQueue)
    ensures 2 in t.b.requests && t.b.requests[2].drain && t.b.grace == Some(2) && t.flags.draining && 3 !in t.b.calls
  {
    hide Reached;
    ls, t := labels, s;
    ls, t := Do(ls, t, OfCall(2, Step));
    ls, t := Do(ls, t, OfCall(2, Step));
  }

  lemma QueuesDrain(labels: seq<Label>, s: Sup) returns (ls: seq<Label>, t: Sup)
    requires Reached(labels, s)
    requires Live(s) && s.main.Serving? && s.w.queue == [] && 2 !in s.w.done
    requires CallAt(s, 1, SEND, Returned(Success)) && CallAt(s, 2, CLOSE, CloseQueue)
    requires 2 in s.b.requests && s.b.requests[2].drain && s.b.grace == Some(2) && s.flags.draining && 3 !in s.b.calls
    ensures Reached(ls, t)
    ensures Live(t) && t.main.Serving? && t.w.queue == [2] && 2 !in t.w.done
    ensures CallAt(t, 1, SEND, Returned(Success)) && CallAt(t, 2, CLOSE, Wait(2))
    ensures 2 in t.b.requests && t.b.requests[2].drain && t.b.grace == Some(2) && t.flags.draining && 3 !in t.b.calls
  {
    hide Reached;
    ls, t := labels, s;
    ls, t := Do(ls, t, OfCall(2, Put));
    ls, t := Do(ls, t, OfCall(2, Step));
  }

  lemma ClosesHalf(labels: seq<Label>, s: Sup) returns (ls: seq<Label>, t: Sup)
    requires Reached(labels, s)
    requires Live(s) && s.main.Serving? && s.w.queue == [2] && 2 !in s.w.done
    requires CallAt(s, 1, SEND, Returned(Success)) && CallAt(s, 2, CLOSE, Wait(2))
    requires 2 in s.b.requests && s.b.requests[2].drain
    ensures Reached(ls, t)
    ensures Live(t) && t.main == Draining(2) && t.w.queue == [] && 2 !in t.w.done
    ensures CallAt(t, 1, SEND, Returned(Success)) && CallAt(t, 2, CLOSE, Wait(2))
  {
    hide Reached;
    ls, t := labels, s;
    ls, t := Do(ls, t, Main(Dequeue));
    ls, t := Do(ls, t, Main(Go));
    ls, t := Do(ls, t, Main(CloseSendDone(true)));
  }

  lemma Ends(labels: seq<Label>, s: Sup) returns (ls: seq<Label>, t: Sup)
    requires Reached(labels, s)
    requires Live(s) && s.main == Draining(2) && s.w.queue == [] && 2 !in s.w.done
    requires CallAt(s, 1, SEND, Returned(Success)) && CallAt(s, 2, CLOSE, Wait(2))
    ensures Reached(ls, t)
    ensures t.main == Drained(2, Success) && t.w.queue == [] && 2 !in t.w.done
    ensures CallAt(t, 1, SEND, Returned(Success)) && CallAt(t, 2, CLOSE, Wait(2))
  {
    hide Reached;
    ls, t := labels, s;
    ls, t := Do(ls, t, OfReceiver(1, ReadEnd(true)));
    ls, t := Do(ls, t, Main(TakeEnd));
    ls, t := Do(ls, t, Main(Go));
  }

  lemma Leaves(labels: seq<Label>, s: Sup) returns (ls: seq<Label>, t: Sup)
    requires Reached(labels, s)
    requires s.main == Drained(2, Success) && s.w.queue == [] && 2 !in s.w.done
    requires CallAt(s, 1, SEND, Returned(Success)) && CallAt(s, 2, CLOSE, Wait(2))
    ensures Reached(ls, t)
    ensures t.main.FlushLeave? && t.w.queue == [] && 2 in t.w.done && t.w.done[2] == Success
    ensures CallAt(t, 1, SEND, Returned(Success)) && CallAt(t, 2, CLOSE, Wait(2))
  {
    hide Reached;
    ls, t := labels, s;
    ls, t := Do(ls, t, Main(Go));
    ls, t := Do(ls, t, Main(Go));
  }

  lemma Halts(labels: seq<Label>, s: Sup) returns (ls: seq<Label>, t: Sup)
    requires Reached(labels, s)
    requires s.main.FlushLeave? && s.w.queue == [] && 2 in s.w.done && s.w.done[2] == Success
    requires CallAt(s, 1, SEND, Returned(Success)) && CallAt(s, 2, CLOSE, Wait(2))
    ensures Reached(ls, t)
    ensures t.main.Halted? && CallAt(t, 1, SEND, Returned(Success)) && CallAt(t, 2, CLOSE, Returned(Success))
  {
    hide Reached;
    ls, t := labels, s;
    ls, t := Do(ls, t, Main(Go));
    ls, t := Do(ls, t, Main(Go));
    ls, t := Do(ls, t, OfCall(2, Step));
  }

  lemma {:induction false} ExecIsRun(labels: seq<Label>, s: Sup) returns (run: seq<Sup>)
    requires Reached(labels, s)
    ensures Run(run, labels) && run[|labels|] == s
    ensures forall j :: 0 <= j <= |labels| ==> Reached(labels[..j], run[j])
    decreases |labels|
  {
    hide Next;
    assert labels[..|labels|] == labels;
    if labels == [] {
      run := [s];
    } else {
      var n := |labels| - 1;
      var before := Exec(Init(1, 1), labels[..n]).value;
      var front := ExecIsRun(labels[..n], before);
      run := front + [s];
      forall i | 0 <= i < |labels| ensures Next(run[i], labels[i]) == Some(run[i + 1]) {
        if i < n {
          assert Next(front[i], labels[..n][i]) == Some(front[i + 1]);
        }
      }
      forall j | 0 <= j <= |labels| ensures Reached(labels[..j], run[j]) {
        if j <= n {
          assert labels[..n][..j] == labels[..j];
        }
      }
    }
  }

  /** A run from New in which the Send of call 1 and the graceful close of call 2 succeed and the supervisor halts. */
  lemma SomeRunSendsAndDrains() returns (run: seq<Sup>, labels: seq<Label>)
    ensures Run(run, labels)
    ensures var last := run[|labels|];
            last.main.Halted? && CallAt(last, 1, SEND, Returned(Success)) && CallAt(last, 2, CLOSE, Returned(Success))
  {
    var s := Init(1, 1);
    labels := [];
    assert Reached(labels, s);
    labels, s := Connects(labels, s);
    labels, s := Enqueues(labels, s);
    labels, s := Accepts(labels, s);
    labels, s := Transmits(labels, s);
    labels, s := Asks(labels, s);
    labels, s := StartsDrain(labels, s);
    labels, s := QueuesDrain(labels, s);
    labels, s := ClosesHalf(labels, s);
    labels, s := Ends(labels, s);
    labels, s := Leaves(labels, s);
    labels, s := Halts(labels, s);
    run := ExecIsRun(labels, s);
  }

  // ---------------------------------------------------------------- a drain request that is cancelled in the queue

  /** The call has ended with a cancellation; done says whether its own context is over. */
  predicate CancelledCall(s: Sup, c: Call, kind: Kind, done: bool) {
    c in s.b.calls && s.b.calls[c] == CallState(kind, Returned(Cancelled), done, s.b.calls[c].since)
  }

  /** A second close waits for the drain request of call 2, whose context ends before serve takes it. */
  lemma SecondClose(labels: seq<Label>, s: Sup) returns (ls: seq<Label>, t: Sup)
    requires Reached(labels, s)
    requires Live(s) && s.main.Serving? && s.w.queue == [2] && 2 !in s.w.done
    requires CallAt(s, 1, SEND, Returned(Success)) && CallAt(s, 2, CLOSE, Wait(2))
    requires 2 in s.b.requests && s.b.requests[2].drain && s.b.grace == Some(2) && s.flags.draining && 3 !in s.b.calls
    ensures Reached(ls, t)
    ensures t.main == Taken(2) && t.b.grace == Some(2) && t.flags.draining && 2 !in t.w.done && CtxDone(t, 2)
    ensures t.b.calls[2].kind.CLOSE? && t.b.calls[2].pc == Wait(2) && CallAt(t, 3, CLOSE, Wait(2))
  {
    hide Reached;
    ls, t := Do(labels, s, Env(NewCall(3, CLOSE)));
    ls, t := Do(ls, t, OfCall(3, Step));
    ls, t := Do(ls, t, Env(EndCtx(2)));
    ls, t := Do(ls, t, Main(Dequeue));
  }

  /** From there: back to serving, and both closes report the cancellation of call 2. */
  lemma GoesOnServing(labels: seq<Label>, s: Sup) returns (ls: seq<Label>, t: Sup)
    requires Reached(labels, s)
    requires s.main == Taken(2) && s.b.grace == Some(2) && s.flags.draining && 2 !in s.w.done && CtxDone(s, 2)
    requires s.b.calls[2].kind.CLOSE? && s.b.calls[2].pc == Wait(2) && CallAt(s, 3, CLOSE, Wait(2))
    ensures Reached(ls, t) && |ls| == |labels| + 3 && ls[..|labels|] == labels && ls[|labels|] == Main(Go)
    ensures t.main.Serving? && t.flags.draining && CancelledCall(t, 2, CLOSE, true) && CancelledCall(t, 3, CLOSE, false)
  {
    hide Reached;
    ls, t := Do(labels, s, Main(Go));
    ls, t := Do(ls, t, OfCall(2, Step));
    ls, t := Do(ls, t, OfCall(3, Step));
  }

  /**
   A run in which the context of a graceful close ends while its request is queued: the stream is never half-closed,
   the loop is serving again with draining closed, and a second close reports the same cancellation although its own
   context is live.
   */
  lemma SomeRunNeverHalfCloses() returns (run: seq<Sup>, labels: seq<Label>, i: nat)
    ensures Run(run, labels) && LooksAtDrain(run, labels, i) && CtxDone(run[i], run[i].main.r)
    ensures forall j :: 0 <= j < |run| ==> !HalfCloses(run[j])
    ensures var last := run[|labels|];
            && last.main.Serving? && last.flags.draining
            && CancelledCall(last, 2, CLOSE, true) && CancelledCall(last, 3, CLOSE, false)
  {
    var s := Init(1, 1);
    labels := [];
    assert Reached(labels, s);
    labels, s := Connects(labels, s);
    labels, s := Enqueues(labels, s);
    labels, s := Accepts(labels, s);
    labels, s := Transmits(labels, s);
    labels, s := Asks(labels, s);
    labels, s := StartsDrain(labels, s);
    labels, s := QueuesDrain(labels, s);
    labels, s := SecondClose(labels, s);
    i := |labels|;
    var all, t := GoesOnServing(labels, s);
    run := ExecIsRun(all, t);
    assert Reached(all[..i], run[i]);
    labels := all;
    HalfClosedIffLive(run, labels, i);
  }

  // ---------------------------------------------------------------- a message behind a cancelled one

  lemma SecondSendEnters(labels: seq<Label>, s: Sup) returns (ls: seq<Label>, t: Sup)
    requires Reached(labels, s)
    requires Live(s) && Quiet(s) && s.main == Transmit(1) && s.w.queue == [] && s.w.done == map[] && 3 !in s.b.calls
    requires CallAt(s, 1, SEND, Wait(1))
    ensures Reached(ls, t)
    ensures Live(t) && Quiet(t.(b := t.b.(gate := None))) && t.b.gate == Some(3)
    ensures t.main == Transmit(1) && t.w.queue == [] && t.w.done == map[]
    ensures CallAt(t, 1, SEND, Wait(1)) && CallAt(t, 3, SEND, SendQueue)
  {
    hide Reached;
    ls, t := Do(labels, s, Env(NewCall(3, SEND)));
    ls, t := Do(ls, t, OfCall(3, Step));
    ls, t := Do(ls, t, OfCall(3, TakeGate));
    ls, t := Do(ls, t, OfCall(3, Step));
    ls, t := Do(ls, t, OfCall(3, Step));
    ls, t := Do(ls, t, OfCall(3, Step));
  }

  lemma SecondSendQueued(labels: seq<Label>, s: Sup) returns (ls: seq<Label>, t: Sup)
    requires Reached(labels, s)
    requires s.b.gate == Some(3) && s.main == Transmit(1) && s.w.queue == [] && s.w.done == map[]
    requires CallAt(s, 1, SEND, Wait(1)) && CallAt(s, 3, SEND, SendQueue)
    ensures Reached(ls, t)
    ensures t.main == Transmitted(1, false) && t.w.queue == [3] && t.w.done == map[]
    ensures CtxDone(t, 1) && CallAt(t, 3, SEND, Wait(3))
  {
    hide Reached;
    ls, t := Do(labels, s, OfCall(3, Put));
    ls, t := Do(ls, t, OfCall(3, Step));
    ls, t := Do(ls, t, Env(EndCtx(1)));
    ls, t := Do(ls, t, Main(SendDone(false)));
  }

  lemma FirstSendFails(labels: seq<Label>, s: Sup) returns (ls: seq<Label>, t: Sup)
    requires Reached(labels, s)
    requires s.main == Transmitted(1, false) && s.w.queue == [3] && s.w.done == map[]
    requires CtxDone(s, 1) && CallAt(s, 3, SEND, Wait(3))
    ensures Reached(ls, t)
    ensures t.main == FlushServe(Cancelled) && t.w.queue == [3] && 3 !in t.w.done && CallAt(t, 3, SEND, Wait(3))
  {
    hide Reached;
    ls, t := Do(labels, s, Main(Go));
    ls, t := Do(ls, t, Main(Go));
  }

  lemma SecondSendFlushed(labels: seq<Label>, s: Sup) returns (ls: seq<Label>, t: Sup)
    requires Reached(labels, s)
    requires s.main == FlushServe(Cancelled) && s.w.queue == [3] && 3 !in s.w.done && CallAt(s, 3, SEND, Wait(3))
    ensures Reached(ls, t)
    ensures CancelledCall(t, 3, SEND, false)
  {
    hide Reached;
    ls, t := Do(labels, s, Main(Go));
    ls, t := Do(ls, t, OfCall(3, Step));
  }

  /** A run in which a Send with a live context returns the cancellation of the Send before it in the queue. */
  lemma SomeRunCancelsAnotherSend() returns (run: seq<Sup>, labels: seq<Label>)
    ensures Run(run, labels) && CancelledCall(run[|labels|], 3, SEND, false)
  {
    var s := Init(1, 1);
    labels := [];
    assert Reached(labels, s);
    labels, s := Connects(labels, s);
    labels, s := Enqueues(labels, s);
    labels, s := Accepts(labels, s);
    labels, s := SecondSendEnters(labels, s);
    labels, s := SecondSendQueued(labels, s);
    labels, s := FirstSendFails(labels, s);
    labels, s := SecondSendFlushed(labels, s);
    run := ExecIsRun(labels, s);
  }
}
