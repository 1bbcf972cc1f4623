/**
 The objects behind the step system: the channel that announces a change of state, the request that is finished
 once, and the queue of pending requests. What the step system does with an epoch number, a map of outcomes and a
 sequence of calls is what these objects do with channel identities, fields and a buffer.
 */
module StreamObjects {
  import opened Supervisor

  /** A channel that carries nothing and is closed at most once. */
  class Signal {
    var closed: bool

    constructor ()
      ensures !closed
    {
      closed := false;
    }
  }

  /** The fields state and changed, with the channels that changed has held. */
  class StateCell {
    var state: Mode
    var changed: Signal
    ghost var channels: seq<Signal>
    ghost var epochs: seq<Epoch>
    ghost var session: nat

    ghost predicate Valid()
      reads this, channels
    {
      && channels != [] && channels[|channels| - 1] == changed
      && (forall i, j :: 0 <= i < j < |channels| ==> channels[i] != channels[j])
      && (forall i :: 0 <= i < |channels| ==> (channels[i].closed <==> i < |channels| - 1))
    }

    ghost function Closed(): set<int>
      reads this, channels
    {
      set i: int | 0 <= i < |channels| && channels[i].closed
    }

    /** The mastership part of the step system's state: an epoch is the place of a channel among all channels. */
    ghost function Abstract(): Mastership
      requires channels != []
      reads this, channels
    {
      Mastership(state, |channels| - 1, Closed(), session, epochs)
    }

    constructor ()
      ensures Valid() && fresh(changed) && Abstract() == Init(1, 1).m
    {
      state := Disconnected;
      var c := new Signal();
      changed := c;
      channels, epochs, session := [c], [Epoch(Disconnected, 0, Initial)], 0;
    }

    /** setState, which refines SetMode. */
    method SetState(st: Mode, ghost cause: Cause)
      requires Valid()
      modifies this, changed
      ensures Valid() && Abstract() == SetMode(old(Abstract()), st, cause)
      ensures old(channels) <= channels && (changed == old(changed) || fresh(changed))
    {
      var previous := state;
      if previous != st {
        state := st;
        changed.closed := true;
        changed := new Signal();
        ghost var n := |channels|;
        channels, epochs := channels + [changed], epochs + [Epoch(st, session, cause)];
        assert Closed() == old(Closed()) + {n - 1};
      }
    }

    /** The start of a connection attempt, which refines the Connect step: a new session in state Connecting. */
    method Connect()
      requires Valid()
      modifies this, changed
      ensures Valid()
      ensures Abstract() == SetMode(old(Abstract()).(session := old(session) + 1), Connecting, Dial)
      ensures old(channels) <= channels && (changed == old(changed) || fresh(changed))
    {
      session := session + 1;
      SetState(Connecting, Dial);
    }

    /** WatchState: a state and the channel that its next change will close. */
    method WatchState() returns (st: Mode, channel: Signal, ghost epoch: nat)
      requires Valid()
      ensures st == state && channel == changed && !channel.closed
      ensures epoch == Abstract().changed && channel == channels[epoch]
    {
      return state, changed, |channels| - 1;
    }

    /** Comparing channels, as serve does, is comparing epochs. */
    lemma SameChannelSameEpoch(epoch: nat)
      requires Valid() && epoch < |channels|
      ensures channels[epoch] == changed <==> epoch == Abstract().changed
      ensures channels[epoch].closed <==> epoch in Abstract().closed
    {
    }
  }

  /** sendRequest, as far as its outcome goes. */
  class SendRequest {
    var done: bool
    var err: Outcome

    constructor ()
      ensures !done
    {
      done, err := false, Success;
    }

    /** The first outcome stays. */
    method Finish(o: Outcome)
      modifies this
      ensures done && err == if old(done) then old(err) else o
    {
      if !done {
        err := o;
        done := true;
      }
    }
  }

  /** The buffered channel of pending requests. */
  class SendQueue {
    var buffer: seq<SendRequest>

    constructor ()
      ensures buffer == []
    {
      buffer := [];
    }

    /** failPending: every pending request is finished, requests finished before keep their outcome. */
    method FailPending(o: Outcome)
      modifies this, buffer
      ensures buffer == []
      ensures forall r :: r in old(buffer) ==> r.done && r.err == if old(r.done) then old(r.err) else o
    {
      ghost var all := buffer;
      ghost var k := 0;
      while buffer != []
        invariant k <= |all| && buffer == all[k..]
        invariant forall r :: r in all[..k] ==> r.done && r.err == if old(r.done) then old(r.err) else o
        invariant forall r :: r in all && r !in all[..k] ==> r.done == old(r.done) && r.err == old(r.err)
        decreases |buffer|
      {
        var req := buffer[0];
        buffer := buffer[1..];
        req.Finish(o);
        assert all[..k + 1] == all[..k] + [req];
        k := k + 1;
      }
      assert all[..k] == all;
    }
  }
}
