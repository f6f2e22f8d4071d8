/**
 Nobody gets stuck on the multiplexer (fluvio-socket, multiplexing.rs) but by waiting for the peer: what
 every caller and the dispatcher can do next, in every reachable state.
 */
module Progress {
  import opened Wrappers
  import opened Bytes
  import opened Multiplexer

  // ----- callers -----

  // A serial call that has not returned can go on while the lock is free.  Until it is woken it can be
  // dropped, and while it waits it can time out; it wakes if and only if it was notified.
  lemma {:induction false} CallerGoesOn(s: State, c: nat)
    requires IsSerial(s, c) && LockFree(s)
    ensures match s.calls[c].phase
            case Allocated => Enabled(s, RegisterSerial(c))
            case Registered => Enabled(s, Listen(c)) && Enabled(s, Abandon(c))
            case Listening => Enabled(s, SendRequest(c)) && Enabled(s, FailRequest(c)) && Enabled(s, Abandon(c))
            case Waiting =>
              Enabled(s, Expire(c)) && Enabled(s, Abandon(c)) && (Enabled(s, Wake(c)) <==> s.calls[c].notified)
            case Expired => Enabled(s, ReturnExpired(c))
            case Fetching => Enabled(s, Fetch(c))
            case Returned(_) => true
  {
  }

  // A stream can be registered while the lock is free; from then on it never needs the lock.
  lemma {:induction false} StreamGoesOn(s: State, c: nat)
    requires IsStream(s, c)
    ensures match s.calls[c].stage
            case Created => Enabled(s, RegisterStream(c)) <==> LockFree(s)
            case Enlisted => Enabled(s, SendRequest(c)) && Enabled(s, FailRequest(c))
            case Open => Enabled(s, DropStream(c)) && (Enabled(s, Take(c)) <==> s.calls[c].queue != [])
            case Failed => true
  {
  }

  // ----- the dispatcher -----

  lemma {:induction false} FailedStep(s: State, step: Step, c: nat)
    requires IsStream(s, c) && Enabled(s, step) && (s.calls[c].stage.Failed? ==> s.calls[c].closed)
    ensures IsStream(Apply(s, step), c)
    ensures Apply(s, step).calls[c].stage.Failed? ==> Apply(s, step).calls[c].closed
  {
    hide Apply;
    CallStep(s, step, c);
  }

  // A stream whose request failed is closed.
  lemma {:induction false} FailedIsClosed(steps: seq<Step>, c: nat)
    requires IsStream(Reach(steps), c)
    ensures Reach(steps).calls[c].stage.Failed? ==> Reach(steps).calls[c].closed
  {
    hide Apply, Enabled;
    if steps == [] {
      assert false;
    } else {
      var s, step := Reach(steps[..|steps| - 1]), steps[|steps| - 1];
      if IsStream(s, c) {
        FailedIsClosed(steps[..|steps| - 1], c);
        if Enabled(s, step) {
          FailedStep(s, step, c);
        }
      } else {
        StartsCreated(s, step, c);
      }
    }
  }

  lemma {:induction false} StartsCreated(s: State, step: Step, c: nat)
    requires Enabled(s, step) && IsStream(Apply(s, step), c) && !IsStream(s, c)
    ensures Apply(s, step).calls[c].stage.Created?
  {
    hide Apply;
    if c < |s.calls| {
      CallStep(s, step, c);
    } else {
      NewCall(s, step);
    }
  }

  // The queue of an open stream is full, and its consumer can take an item, or first send its request.
  predicate ConsumerIsDue(s: State, c: nat) {
    && IsStream(s, c) && !s.calls[c].closed && |s.calls[c].queue| == s.calls[c].capacity
    && (Enabled(s, Take(c)) || Enabled(s, SendRequest(c)))
  }

  lemma {:induction false} FullStreamIsDue(steps: seq<Step>, c: nat)
    requires |Reach(steps).calls| <= TWO32 && IsStream(Reach(steps), c) && Entry(Reach(steps), c)
    requires !Reach(steps).calls[c].closed && |Reach(steps).calls[c].queue| >= Reach(steps).calls[c].capacity
    ensures ConsumerIsDue(Reach(steps), c)
  {
    hide Reach;
    ReachableInv(steps);
    FailedIsClosed(steps, c);
    var s := Reach(steps);
    assert CallOk(s.calls[c], Entry(s, c), s.frames, InHand(s, c), s.stale);
    StreamGoesOn(s, c);
  }

  lemma {:induction false} SendingTo(steps: seq<Step>)
    requires |Reach(steps).calls| <= TWO32 && Reach(steps).dispatcher.Sending?
    ensures IsStream(Reach(steps), Reach(steps).dispatcher.call) && Entry(Reach(steps), Reach(steps).dispatcher.call)
  {
    hide Reach, CallOk;
    ReachableInv(steps);
  }

  lemma {:induction false} Visiting(steps: seq<Step>, id: int)
    requires |Reach(steps).calls| <= TWO32 && Reach(steps).dispatcher.Closing? && id in Reach(steps).dispatcher.todo
    ensures var s := Reach(steps);
            id in s.senders && s.senders[id] < |s.calls| && Entry(s, s.senders[id])
  {
    hide Reach, CallOk;
    ReachableInv(steps);
  }

  // Over every run, until it has stopped the dispatcher can go on, or it waits for room in the queue of an
  // open stream whose consumer can go on: there is no deadlock.
  lemma {:induction false} NoDeadlock(steps: seq<Step>)
    requires |Reach(steps).calls| <= TWO32
    ensures var s := Reach(steps);
            match s.dispatcher
            case Idle => (forall f :: Enabled(s, Receive(f))) && (forall eof :: Enabled(s, BeginClose(eof)))
            case Sending(c, _) => Enabled(s, FinishSend) || ConsumerIsDue(s, c)
            case Closing(todo, _) =>
              && (todo == {} ==> Enabled(s, EndClose))
              && forall id :: id in todo ==>
                   id in s.senders && (Enabled(s, CloseOne(id)) || ConsumerIsDue(s, s.senders[id]))
            case Stopped => true
  {
    hide Reach, ConsumerIsDue;
    var s := Reach(steps);
    match s.dispatcher
    case Sending(c, _) =>
      SendingTo(steps);
      if !Enabled(s, FinishSend) {
        FullStreamIsDue(steps, c);
      }
    case Closing(todo, _) =>
      forall id | id in todo
        ensures id in s.senders && (Enabled(s, CloseOne(id)) || ConsumerIsDue(s, s.senders[id]))
      {
        Visiting(steps, id);
        if !Enabled(s, CloseOne(id)) {
          FullStreamIsDue(steps, s.senders[id]);
        }
      }
    case Idle =>
    case Stopped =>
  }

  // Registering a stream sweeps out the queues whose receiver is gone, and nothing else.
  lemma {:induction false} RegisterSweeps(s: State, c: nat, id: int)
    requires Enabled(s, RegisterStream(c)) && id != s.calls[c].id
    ensures var s' := Apply(s, RegisterStream(c));
            && s'.senders[s.calls[c].id] == c
            && (id in s'.senders ==> id in s.senders && s'.senders[id] == s.senders[id])
            && (id in s.senders && s.senders[id] < |s.calls| ==>
                  var k := s.calls[s.senders[id]];
                  id in s'.senders <==> k.Serial? || !k.closed)
  {
  }
}
