/** The invariant under the steps of API calls, receive goroutines and the environment. */
module SupervisorCalls {
  import opened Wrappers
  import opened Supervisor
  import opened SupervisorInv

  /** A call moves to another program counter, possibly taking or returning the gate. */
  function Moved(b: Book, c: Call, pc: Pc, gate: Option<Call>): Book
    requires c in b.calls
  {
    b.(gate := gate, calls := b.calls[c := b.calls[c].(pc := pc)])
  }

  /** The gate stays, is taken by c, or is returned by c, as the two program counters say. */
  predicate GateStep(b: Book, c: Call, pc: Pc, gate: Option<Call>)
    requires c in b.calls
  {
    || (gate == b.gate && Holds(pc) == Holds(b.calls[c].pc))
    || (gate == Some(c) && b.gate.None? && Holds(pc))
    || (gate.None? && Holds(b.calls[c].pc) && !Holds(pc))
  }

  lemma GateMoves(b: Book, c: Call, pc: Pc, gate: Option<Call>)
    requires GateInv(b) && c in b.calls && GateStep(b, c, pc, gate)
    ensures GateInv(Moved(b, c, pc, gate))
  {
  }

  /** Everything that depends only on requests, grace and drainedAt survives a move. */
  lemma MoveKeeps(s: Sup, c: Call, pc: Pc, gate: Option<Call>)
    requires Inv(s) && c in s.b.calls
    requires GateInv(Moved(s.b, c, pc, gate)) && CallFits(Moved(s.b, c, pc, gate), s.w, s.m, c)
    requires pc.SendQueue? ==> !s.flags.draining
    ensures Inv(s.(b := Moved(s.b, c, pc, gate)))
  {
    var b := Moved(s.b, c, pc, gate);
    hide MastershipInv, PhaseInv, LogInv, RetryInv, FifoInv, WorkInv, GateInv;
    forall d | d in b.calls ensures CallFits(b, s.w, s.m, d) {
      if d != c {
        OthersFit(s.b, s.w, s.m, c, pc, gate, d);
      }
    }
    SameRequests(s, b);
  }

  lemma OthersFit(b: Book, w: Work, m: Mastership, c: Call, pc: Pc, gate: Option<Call>, d: Call)
    requires c in b.calls && d in b.calls && d != c && CallFits(b, w, m, d)
    ensures CallFits(Moved(b, c, pc, gate), w, m, d)
  {
  }

  lemma SameRequests(s: Sup, b: Book)
    requires Inv(s) && b.requests == s.b.requests && b.grace == s.b.grace
    ensures CaptureInv(b, s.m) && SentInv(s.log.sent, s.w, b) && HandInv(s.main, s.log.sent, s.w, b, s.m.changed)
    ensures ResultInv(s.w, b, s.log) && HalfInv(s.log, s.main, b, s.w)
  {
    hide MastershipInv, PhaseInv, LogInv, RetryInv, FifoInv, WorkInv, GateInv, CallsInv, DrainInv, InFlight;
    forall i | 0 <= i < |s.log.sent| ensures TxFits(s.w, b, s.log.sent[i]) {
      assert TxFits(s.w, s.b, s.log.sent[i]);
    }
  }

  // ---------------------------------------------------------------- creating requests

  /** A call in the gate creates its request; a drain request also closes draining. */
  function Created(b: Book, c: Call, q: Request, pc: Pc, at: nat): Book
    requires c in b.calls
  {
    var d := b.(requests := b.requests[c := q], calls := b.calls[c := b.calls[c].(pc := pc)]);
    if q.drain then d.(grace := Some(c), drainedAt := Some(at)) else d
  }

  lemma CreateKeeps(s: Sup, c: Call, pc: Pc, q: Request)
    requires Inv(s) && c in s.b.calls && c !in s.b.requests && Holds(s.b.calls[c].pc)
    requires q == Request(q.drain, s.m.changed, s.m.mode, s.m.session)
    requires if q.drain then pc.CloseTry? && s.b.calls[c].kind.CLOSE? && s.b.grace.None?
             else pc.SendCheckCtx? && s.b.calls[c].kind.SEND?
    ensures Inv(s.(b := Created(s.b, c, q, pc, |s.w.accepted|),
        flags := s.flags.(draining := s.flags.draining || q.drain)))
  {
    var b := Created(s.b, c, q, pc, |s.w.accepted|);
    CreateKeepsGate(s.b, c, pc, q, |s.w.accepted|);
    CreateKeepsCalls(s, c, pc, q);
    CreateKeepsDrain(s, c, pc, q);
    CreateKeepsHistory(s, c, pc, q);
    hide MastershipInv, PhaseInv, LogInv, RetryInv, FifoInv, WorkInv, GateInv, CallsInv, DrainInv, CaptureInv;
    hide SentInv, HandInv, ResultInv, HalfInv, InFlight, Created;
  }

  lemma CreateKeepsGate(b: Book, c: Call, pc: Pc, q: Request, at: nat)
    requires GateInv(b) && c in b.calls && Holds(b.calls[c].pc) && Holds(pc)
    ensures GateInv(Created(b, c, q, pc, at))
  {
  }

  lemma CreateKeepsCalls(s: Sup, c: Call, pc: Pc, q: Request)
    requires CallsInv(s.b, s.w, s.m) && c in s.b.calls && c !in s.b.requests
    requires if q.drain then pc.CloseTry? && s.b.calls[c].kind.CLOSE? && s.b.grace.None?
             else pc.SendCheckCtx? && s.b.calls[c].kind.SEND?
    ensures CallsInv(Created(s.b, c, q, pc, |s.w.accepted|), s.w, s.m)
  {
    var b := Created(s.b, c, q, pc, |s.w.accepted|);
    forall i | 0 <= i < |s.w.accepted| ensures s.w.accepted[i] in b.requests && s.w.accepted[i] != c {
      assert s.w.accepted[i] in s.b.requests;
    }
    forall d | d in b.calls ensures CallFits(b, s.w, s.m, d) {
      assert CallFits(s.b, s.w, s.m, d);
    }
  }

  lemma CreateKeepsDrain(s: Sup, c: Call, pc: Pc, q: Request)
    requires Inv(s) && c in s.b.calls && c !in s.b.requests && Holds(s.b.calls[c].pc) && Holds(pc) && !pc.SendQueue?
    requires q.drain ==> s.b.grace.None?
    ensures DrainInv(Created(s.b, c, q, pc, |s.w.accepted|), s.w.accepted, s.flags.draining || q.drain)
  {
    hide MastershipInv, PhaseInv, LogInv, RetryInv, FifoInv, WorkInv, CaptureInv, SentInv, HandInv, ResultInv, HalfInv;
    forall i | 0 <= i < |s.w.accepted| ensures s.w.accepted[i] != c {
      assert s.w.accepted[i] in s.b.requests;
    }
    forall d | d in s.b.calls && d != c ensures Holds(s.b.calls[d].pc) ==> false {
      assert s.b.gate == Some(c);
    }
  }

  lemma CreateKeepsHistory(s: Sup, c: Call, pc: Pc, q: Request)
    requires Inv(s) && c in s.b.calls && c !in s.b.requests
    requires q == Request(q.drain, s.m.changed, s.m.mode, s.m.session) && (q.drain ==> s.b.grace.None?)
    ensures var b := Created(s.b, c, q, pc, |s.w.accepted|);
            && CaptureInv(b, s.m) && SentInv(s.log.sent, s.w, b) && HandInv(s.main, s.log.sent, s.w, b, s.m.changed)
            && ResultInv(s.w, b, s.log) && HalfInv(s.log, s.main, b, s.w)
  {
    var b := Created(s.b, c, q, pc, |s.w.accepted|);
    forall i | 0 <= i < |s.log.sent| ensures TxFits(s.w, b, s.log.sent[i]) {
      assert TxFits(s.w, s.b, s.log.sent[i]);
    }
    forall r | r in b.requests ensures Captured(b.requests[r], s.m) {
      if r != c {
        assert Captured(s.b.requests[r], s.m);
      }
    }
  }

  // ---------------------------------------------------------------- queueing and withdrawing

  lemma EnqueueKeeps(s: Sup, c: Call, pc: Pc)
    requires Inv(s) && c in s.b.calls && |s.w.queue| < CAPACITY
    requires if pc.CloseReturnGate? then s.b.calls[c].pc.CloseQueue?
        else s.b.calls[c].pc.SendQueue? && pc == SendReturnGate(None)
    ensures Inv(s.(w := Enqueue(s.w, c), b := Moved(s.b, c, pc, s.b.gate)))
  {
    var w, b := Enqueue(s.w, c), Moved(s.b, c, pc, s.b.gate);
    assert CallFits(s.b, s.w, s.m, c);
    GateMoves(s.b, c, pc, s.b.gate);
    EnqueueKeepsWork(s.w, c, InFlight(s.main));
    EnqueueKeepsCalls(s, c, pc);
    EnqueueKeepsDrain(s, c, pc);
    EnqueueKeepsHistory(s, c, pc);
    hide MastershipInv, PhaseInv, LogInv, RetryInv, FifoInv, WorkInv, GateInv, CallsInv, DrainInv, CaptureInv;
    hide SentInv, HandInv, ResultInv, HalfInv, InFlight;
  }

  lemma EnqueueKeepsWork(w: Work, c: Call, inFlight: Option<Call>)
    requires FifoInv(w) && WorkInv(w, inFlight) && |w.queue| < CAPACITY && c !in w.accepted && c !in w.done
    ensures FifoInv(Enqueue(w, c)) && WorkInv(Enqueue(w, c), inFlight)
  {
    assert Enqueue(w, c).accepted[w.taken..] == w.accepted[w.taken..] + [c];
  }

  lemma EnqueueKeepsCalls(s: Sup, c: Call, pc: Pc)
    requires CallsInv(s.b, s.w, s.m) && c in s.b.calls
    requires if pc.CloseReturnGate? then s.b.calls[c].pc.CloseQueue?
        else s.b.calls[c].pc.SendQueue? && pc == SendReturnGate(None)
    ensures CallsInv(Moved(s.b, c, pc, s.b.gate), Enqueue(s.w, c), s.m)
  {
    var w, b := Enqueue(s.w, c), Moved(s.b, c, pc, s.b.gate);
    assert CallFits(s.b, s.w, s.m, c);
    forall d | d in b.calls ensures CallFits(b, w, s.m, d) {
      assert CallFits(s.b, s.w, s.m, d);
      assert d in w.accepted <==> d == c || d in s.w.accepted;
    }
    forall i | 0 <= i < |w.accepted| ensures w.accepted[i] in b.requests {
      if i < |s.w.accepted| {
        assert s.w.accepted[i] in s.b.requests;
      }
    }
  }

  lemma EnqueueKeepsDrain(s: Sup, c: Call, pc: Pc)
    requires DrainInv(s.b, s.w.accepted, s.flags.draining) && c in s.b.calls && CallFits(s.b, s.w, s.m, c)
    requires if pc.CloseReturnGate? then s.b.calls[c].pc.CloseQueue?
        else s.b.calls[c].pc.SendQueue? && pc == SendReturnGate(None)
    ensures DrainInv(Moved(s.b, c, pc, s.b.gate), Enqueue(s.w, c).accepted, s.flags.draining)
    ensures s.b.grace.None? || s.b.grace == Some(c)
  {
    if s.b.calls[c].pc.CloseQueue? {
      var n := |s.w.accepted|;
      assert n == 0 || s.w.accepted[n - 1] != c;
      assert s.b.drainedAt.value == n;
    }
  }

  lemma EnqueueKeepsHistory(s: Sup, c: Call, pc: Pc)
    requires Inv(s) && c in s.b.calls && (s.b.grace.None? || s.b.grace == Some(c))
    ensures var w, b := Enqueue(s.w, c), Moved(s.b, c, pc, s.b.gate);
            && CaptureInv(b, s.m) && SentInv(s.log.sent, w, b) && HandInv(s.main, s.log.sent, w, b, s.m.changed)
            && ResultInv(w, b, s.log) && HalfInv(s.log, s.main, b, w)
  {
    var w, b := Enqueue(s.w, c), Moved(s.b, c, pc, s.b.gate);
    hide MastershipInv, PhaseInv, LogInv, RetryInv, FifoInv, WorkInv, GateInv, CallsInv, DrainInv, InFlight;
    forall i | 0 <= i < |s.log.sent| ensures TxFits(w, b, s.log.sent[i]) {
      assert TxFits(s.w, s.b, s.log.sent[i]);
    }
    assert HalfInv(s.log, s.main, b, w) by {
      if s.log.closeSends == 1 {
        forall i | 0 <= i < |w.accepted| ensures w.accepted[i] in w.done || b.grace == Some(w.accepted[i]) {
          if i < |s.w.accepted| {
            assert s.w.accepted[i] in s.w.done || s.b.grace == Some(s.w.accepted[i]);
          }
        }
      }
    }
    hide HalfInv, SentInv;
  }

  /** A closer finishes its own drain request instead of queueing it. */
  lemma WithdrawKeeps(s: Sup, c: Call, o: Outcome)
    requires Inv(s) && c in s.b.calls && (s.b.calls[c].pc.CloseTry? || s.b.calls[c].pc.CloseQueue?) && !o.Success?
    ensures Inv(s.(w := Finish(s.w, c, o), b := Moved(s.b, c, CloseReturnGate, s.b.gate)))
  {
    var w, b := Finish(s.w, c, o), Moved(s.b, c, CloseReturnGate, s.b.gate);
    assert CallFits(s.b, s.w, s.m, c);
    GateMoves(s.b, c, CloseReturnGate, s.b.gate);
    WithdrawKeepsCalls(s, c, o);
    WithdrawKeepsWork(s.w, c, o, InFlight(s.main));
    SameRequests(s, b);
    FinishResult(s.w, b, s.log, c, o);
    WithdrawKeepsHistory(s, b, c, o);
    hide MastershipInv, PhaseInv, LogInv, RetryInv, FifoInv, WorkInv, GateInv, CaptureInv;
    hide SentInv, HandInv, ResultInv, HalfInv, InFlight, CallFits, CallsInv;
  }

  lemma WithdrawKeepsCalls(s: Sup, c: Call, o: Outcome)
    requires CallsInv(s.b, s.w, s.m) && c in s.b.calls && (s.b.calls[c].pc.CloseTry? || s.b.calls[c].pc.CloseQueue?)
    ensures CallsInv(Moved(s.b, c, CloseReturnGate, s.b.gate), Finish(s.w, c, o), s.m)
  {
    var w, b := Finish(s.w, c, o), Moved(s.b, c, CloseReturnGate, s.b.gate);
    assert CallFits(s.b, s.w, s.m, c);
    forall d | d in b.calls ensures CallFits(b, w, s.m, d) {
      assert CallFits(s.b, s.w, s.m, d);
    }
  }

  lemma WithdrawKeepsWork(w: Work, c: Call, o: Outcome, inFlight: Option<Call>)
    requires FifoInv(w) && WorkInv(w, inFlight) && c !in w.accepted
    ensures FifoInv(Finish(w, c, o)) && WorkInv(Finish(w, c, o), inFlight)
  {
  }

  lemma WithdrawKeepsHistory(s: Sup, b: Book, c: Call, o: Outcome)
    requires SentInv(s.log.sent, s.w, b) && HandInv(s.main, s.log.sent, s.w, b, s.m.changed) &&
        HalfInv(s.log, s.main, b, s.w)
    ensures var w := Finish(s.w, c, o);
            SentInv(s.log.sent, w, b) && HandInv(s.main, s.log.sent, w, b, s.m.changed) && HalfInv(s.log, s.main, b, w)
  {
    forall i | 0 <= i < |s.log.sent| ensures TxFits(Finish(s.w, c, o), b, s.log.sent[i]) {
      assert TxFits(s.w, b, s.log.sent[i]);
    }
  }

  // ---------------------------------------------------------------- every step

  /** A step that only moves one call. */
  ghost predicate IsMove(s: Sup, c: Call, t: Sup)
    requires c in s.b.calls
  {
    c in t.b.calls && IsMoveTo(s, c, t, t.b.calls[c].pc, t.b.gate)
  }

  ghost predicate IsMoveTo(s: Sup, c: Call, t: Sup, pc: Pc, gate: Option<Call>)
    requires c in s.b.calls
  {
    && t == s.(b := Moved(s.b, c, pc, gate)) && GateStep(s.b, c, pc, gate)
    && CallFits(Moved(s.b, c, pc, gate), s.w, s.m, c) && (pc.SendQueue? ==> !s.flags.draining)
  }

  lemma IsMoveKeeps(s: Sup, c: Call, t: Sup)
    requires Inv(s) && c in s.b.calls && IsMove(s, c, t)
    ensures Inv(t)
  {
    GateMoves(s.b, c, t.b.calls[c].pc, t.b.gate);
    MoveKeeps(s, c, t.b.calls[c].pc, t.b.gate);
    hide Inv;
  }

  lemma SendEnters(s: Sup, c: Call, l: CallLabel)
    requires c in s.b.calls && SendCall(s, c, l).Some? && CallFits(s.b, s.w, s.m, c)
    requires s.b.calls[c].pc.SendStart? || s.b.calls[c].pc.SendGate? || s.b.calls[c].pc.SendReturnGate?
    ensures IsMove(s, c, SendCall(s, c, l).value)
  {
  }

  lemma SendChecks(s: Sup, c: Call, l: CallLabel)
    requires c in s.b.calls && SendCall(s, c, l).Some? && CallFits(s.b, s.w, s.m, c)
    requires !s.b.calls[c].pc.SendStart? && !s.b.calls[c].pc.SendGate? && !s.b.calls[c].pc.SendReturnGate?
    requires !s.b.calls[c].pc.SendWatch? && !(s.b.calls[c].pc.SendQueue? && l.Put?)
    ensures IsMove(s, c, SendCall(s, c, l).value)
  {
  }

  lemma SendCreates(s: Sup, c: Call, l: CallLabel)
    requires c in s.b.calls && SendCall(s, c, l).Some? && s.b.calls[c].pc.SendWatch?
    ensures SendCall(s, c, l).value
            == s.(b := Created(s.b, c, Request(false, s.m.changed, s.m.mode, s.m.session), SendCheckCtx,
                |s.w.accepted|))
  {
  }

  lemma SendQueues(s: Sup, c: Call, l: CallLabel)
    requires c in s.b.calls && SendCall(s, c, l).Some? && s.b.calls[c].pc.SendQueue? && l.Put?
    ensures |s.w.queue| < CAPACITY
    ensures SendCall(s, c, l).value == s.(w := Enqueue(s.w, c), b := Moved(s.b, c, SendReturnGate(None), s.b.gate))
  {
  }

  lemma SendCallKeeps(s: Sup, c: Call, l: CallLabel)
    requires Inv(s) && c in s.b.calls && SendCall(s, c, l).Some?
    ensures Inv(SendCall(s, c, l).value)
  {
    hide SendCall, IsMove;
    var pc := s.b.calls[c].pc;
    assert CallFits(s.b, s.w, s.m, c);
    if pc.SendWatch? {
      SendCreates(s, c, l);
      CreateKeeps(s, c, SendCheckCtx, Request(false, s.m.changed, s.m.mode, s.m.session));
    } else if pc.SendQueue? && l.Put? {
      SendQueues(s, c, l);
      EnqueueKeeps(s, c, SendReturnGate(None));
    } else {
      if pc.SendStart? || pc.SendGate? || pc.SendReturnGate? {
        SendEnters(s, c, l);
      } else {
        SendChecks(s, c, l);
      }
      IsMoveKeeps(s, c, SendCall(s, c, l).value);
    }
    hide Inv;
  }

  lemma CloseEnters(s: Sup, c: Call, l: CallLabel)
    requires c in s.b.calls && CloseCall(s, c, l).Some? && CallFits(s.b, s.w, s.m, c)
    requires s.b.calls[c].pc.CloseStart? || s.b.calls[c].pc.CloseCheckCtx? || s.b.calls[c].pc.CloseGate?
    ensures IsMove(s, c, CloseCall(s, c, l).value)
  {
  }

  lemma CloseLeaves(s: Sup, c: Call, l: CallLabel)
    requires c in s.b.calls && CloseCall(s, c, l).Some? && CallFits(s.b, s.w, s.m, c)
    requires !s.b.calls[c].pc.CloseStart? && !s.b.calls[c].pc.CloseCheckCtx? && !s.b.calls[c].pc.CloseGate?
    requires !(s.b.calls[c].pc.CloseLock? && s.b.grace.None?) && !s.b.calls[c].pc.CloseQueue?
    requires !(s.b.calls[c].pc.CloseTry? && s.flags.stopped)
    ensures IsMove(s, c, CloseCall(s, c, l).value)
  {
  }

  lemma CloseCreates(s: Sup, c: Call, l: CallLabel)
    requires c in s.b.calls && CloseCall(s, c, l).Some? && s.b.calls[c].pc.CloseLock? && s.b.grace.None?
    ensures CloseCall(s, c, l).value
            == s.(b := Created(s.b, c, Request(true, s.m.changed, s.m.mode, s.m.session), CloseTry, |s.w.accepted|),
                  flags := s.flags.(draining := true))
  {
  }

  /** The drain request is queued, or finished by the closer itself. */
  lemma CloseQueues(s: Sup, c: Call, l: CallLabel)
    requires c in s.b.calls && CloseCall(s, c, l).Some? && CallFits(s.b, s.w, s.m, c)
    requires s.b.calls[c].pc.CloseQueue? || (s.b.calls[c].pc.CloseTry? && s.flags.stopped)
    ensures var b := Moved(s.b, c, CloseReturnGate, s.b.gate);
            if s.b.calls[c].pc.CloseQueue? && l.Put?
            then |s.w.queue| < CAPACITY && CloseCall(s, c, l).value == s.(w := Enqueue(s.w, c), b := b)
            else CloseCall(s, c, l).value == s.(w := Finish(s.w, c, Withdrawal(s.b.calls[c].pc, l)), b := b)
  {
  }

  function Withdrawal(pc: Pc, l: CallLabel): (o: Outcome)
    ensures !o.Success?
  {
    if pc.CloseQueue? && l.Ctx? then Cancelled else StreamClosed
  }

  lemma CloseCallKeeps(s: Sup, c: Call, l: CallLabel)
    requires Inv(s) && c in s.b.calls && CloseCall(s, c, l).Some?
    ensures Inv(CloseCall(s, c, l).value)
  {
    hide CloseCall, IsMove;
    var pc := s.b.calls[c].pc;
    assert CallFits(s.b, s.w, s.m, c);
    if pc.CloseLock? && s.b.grace.None? {
      CloseCreates(s, c, l);
      CreateKeeps(s, c, CloseTry, Request(true, s.m.changed, s.m.mode, s.m.session));
    } else if pc.CloseQueue? || (pc.CloseTry? && s.flags.stopped) {
      CloseQueues(s, c, l);
      if pc.CloseQueue? && l.Put? {
        EnqueueKeeps(s, c, CloseReturnGate);
      } else {
        WithdrawKeeps(s, c, Withdrawal(pc, l));
      }
    } else {
      if pc.CloseStart? || pc.CloseCheckCtx? || pc.CloseGate? {
        CloseEnters(s, c, l);
      } else {
        CloseLeaves(s, c, l);
      }
      IsMoveKeeps(s, c, CloseCall(s, c, l).value);
    }
    hide Inv;
  }

  lemma WaitMoves(s: Sup, c: Call, l: CallLabel)
    requires c in s.b.calls && WaitCall(s, c, l).Some? && CallFits(s.b, s.w, s.m, c)
    ensures IsMove(s, c, WaitCall(s, c, l).value)
  {
  }

  lemma BecomeMoves(s: Sup, c: Call, l: CallLabel)
    requires c in s.b.calls && BecomeCall(s, c, l).Some? && CallFits(s.b, s.w, s.m, c)
    requires s.m.changed + 1 == |s.m.epochs| && s.m.epochs[s.m.changed].mode == s.m.mode
    ensures IsMove(s, c, BecomeCall(s, c, l).value)
  {
  }

  lemma CallKeeps(s: Sup, c: Call, l: CallLabel)
    requires Inv(s) && c in s.b.calls && CallStep(s, c, l).Some?
    ensures Inv(CallStep(s, c, l).value)
  {
    hide SendCall, CloseCall, WaitCall, BecomeCall, IsMove;
    var pc := s.b.calls[c].pc;
    assert CallFits(s.b, s.w, s.m, c);
    if pc.Wait? || pc.WaitSelect? || pc.WaitRecheck? {
      WaitMoves(s, c, l);
      IsMoveKeeps(s, c, WaitCall(s, c, l).value);
    } else if s.b.calls[c].kind.SEND? {
      SendCallKeeps(s, c, l);
    } else if s.b.calls[c].kind.CLOSE? {
      CloseCallKeeps(s, c, l);
    } else {
      BecomeMoves(s, c, l);
      IsMoveKeeps(s, c, BecomeCall(s, c, l).value);
    }
    hide Inv;
  }

  lemma ReceiverKeeps(s: Sup, n: nat, l: ReceiverLabel)
    requires Inv(s) && n in s.receivers && ReceiverStep(s, n, l).Some?
    ensures Inv(ReceiverStep(s, n, l).value)
  {
  }

  lemma EnvKeeps(s: Sup, l: EnvLabel)
    requires Inv(s) && EnvStep(s, l).Some?
    ensures Inv(EnvStep(s, l).value)
  {
    if l.NewCall? || l.EndCtx? {
      EnvKeepsCalls(s, l);
    } else {
      EnvKeepsFlags(s, l);
    }
  }

  lemma EnvKeepsFlags(s: Sup, l: EnvLabel)
    requires Inv(s) && EnvStep(s, l).Some? && !l.NewCall? && !l.EndCtx?
    ensures Inv(EnvStep(s, l).value)
  {
  }

  /** A new call, or a call whose context ends: every program counter that was there stays. */
  ghost predicate Enters(b: Book, d: Book, m: Mastership) {
    && d == b.(calls := d.calls)
    && (forall c :: c in b.calls ==> c in d.calls && d.calls[c] == b.calls[c].(ctxDone := d.calls[c].ctxDone))
    && (forall c :: c in d.calls && c !in b.calls ==>
          d.calls[c].since == m.changed && d.calls[c].pc == Entry(d.calls[c].kind))
  }

  lemma EnvEnters(s: Sup, l: EnvLabel)
    requires EnvStep(s, l).Some? && (l.NewCall? || l.EndCtx?)
    ensures EnvStep(s, l).value == s.(b := EnvStep(s, l).value.b) && Enters(s.b, EnvStep(s, l).value.b, s.m)
  {
  }

  lemma EntersKeepsCalls(b: Book, d: Book, w: Work, m: Mastership)
    requires GateInv(b) && CallsInv(b, w, m) && Enters(b, d, m) && |m.epochs| == m.changed + 1
    ensures GateInv(d) && CallsInv(d, w, m)
  {
    assert d.gate == b.gate;
    if b.gate.Some? {
      var g := b.gate.value;
      assert g in b.calls;
      assert g in d.calls && d.calls[g] == b.calls[g].(ctxDone := d.calls[g].ctxDone);
    }
    forall c | c in d.calls ensures CallFits(d, w, m, c) {
      if c in b.calls {
        assert CallFits(b, w, m, c);
      }
    }
    forall c | c in d.calls ensures Holds(d.calls[c].pc) <==> d.gate == Some(c) {
      if c in b.calls {
        assert Holds(b.calls[c].pc) <==> b.gate == Some(c);
      }
    }
  }

  lemma EntersKeepsDrain(b: Book, d: Book, m: Mastership, accepted: seq<Call>, draining: bool)
    requires DrainInv(b, accepted, draining) && Enters(b, d, m)
    ensures DrainInv(d, accepted, draining)
  {
    forall c | b.grace.Some? && c in d.calls ensures !d.calls[c].pc.SendQueue? {
      if c in b.calls {
        assert !b.calls[c].pc.SendQueue?;
      }
    }
  }

  lemma EnvKeepsCalls(s: Sup, l: EnvLabel)
    requires Inv(s) && EnvStep(s, l).Some? && (l.NewCall? || l.EndCtx?)
    ensures Inv(EnvStep(s, l).value)
  {
    var d := EnvStep(s, l).value.b;
    EnvEnters(s, l);
    EntersKeepsCalls(s.b, d, s.w, s.m);
    EntersKeepsDrain(s.b, d, s.m, s.w.accepted, s.flags.draining);
    SameRequests(s, d);
    hide MastershipInv, PhaseInv, LogInv, RetryInv, FifoInv, WorkInv, GateInv, CallsInv, DrainInv, CaptureInv;
    hide SentInv, HandInv, ResultInv, HalfInv, EnvStep, StopInv;
  }

  /** Every step of every thread keeps the invariant. */
  lemma StepKeeps(s: Sup, l: Label)
    requires Inv(s) && Next(s, l).Some?
    ensures Inv(Next(s, l).value)
  {
    hide Inv, MainStep, CallStep, ReceiverStep, EnvStep;
    match l
    case Main(m) => MainKeeps(s, m);
    case OfCall(c, a) => CallKeeps(s, c, a);
    case OfReceiver(n, b) => ReceiverKeeps(s, n, b);
    case Env(e) => EnvKeeps(s, e);
  }

  /** Every state of every run satisfies the invariant. */
  lemma {:induction false} RunInv(run: seq<Sup>, labels: seq<Label>, i: nat)
    requires Run(run, labels) && i < |run|
    ensures Inv(run[i])
  {
    if i == 0 {
      InitInv(run[0].retry.initial, run[0].retry.max);
    } else {
      RunInv(run, labels, i - 1);
      assert Next(run[i - 1], labels[i - 1]) == Some(run[i]);
      StepKeeps(run[i - 1], labels[i - 1]);
    }
  }
}
