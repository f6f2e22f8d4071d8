/**
 How streams of the multiplexer (fluvio-socket, multiplexing.rs) learn that the connection has ended:
 when the peer disconnects every open queue gets a last item, None, and when the multiplexer is
 terminated every queue is closed.
 */
module StreamClose {
  import opened Wrappers
  import opened Bytes
  import opened Multiplexer

  // Everything that was ever queued, oldest first.
  function Items(k: Call): seq<Option<Payload>>
    requires k.Stream?
  {
    k.taken + k.queue
  }

  // ----- one step -----

  // The step visits the entry of stream c in the loop of close (with eof) or of terminate (without).
  predicate Visits(s: State, step: Step, c: nat, eof: bool) {
    step.CloseOne? && Enabled(s, step) && IsStream(s, c) && s.senders[step.id] == c && s.dispatcher.eof == eof
  }

  // The step visits it after the peer has disconnected, while its receiver is there.
  predicate Ends(s: State, step: Step, c: nat) {
    Visits(s, step, c, true) && !s.calls[c].closed
  }

  // The step closes the queue: the request failed, the stream was dropped or the loop of terminate came by.
  predicate Shuts(s: State, step: Step, c: nat) {
    && IsStream(s, c) && Enabled(s, step)
    && (step == FailRequest(c) || step == DropStream(c) || Visits(s, step, c, false))
  }

  // Items are only added, None by an ending visit alone, and that as the last one.
  lemma {:induction false} ItemsStep(s: State, step: Step, c: nat)
    requires IsStream(s, c) && Enabled(s, step)
    ensures IsStream(Apply(s, step), c)
    ensures Ends(s, step, c) ==> Items(Apply(s, step).calls[c]) == Items(s.calls[c]) + [None]
    ensures !Ends(s, step, c) ==>
            || Items(Apply(s, step).calls[c]) == Items(s.calls[c])
            || (&& (step.Receive? || step.FinishSend?)
                && exists bytes :: Items(Apply(s, step).calls[c]) == Items(s.calls[c]) + [Some(bytes)])
  {
    hide Apply;
    CallStep(s, step, c);
    var k := s.calls[c];
    match step
    case Receive(f) => assert k.taken + (k.queue + [Some(f.bytes)]) == Items(k) + [Some(f.bytes)];
    case FinishSend =>
      var msg := s.dispatcher.msg;
      assert k.taken + (k.queue + [Some(msg)]) == Items(k) + [Some(msg)];
    case Take(d) =>
      if d == c { assert (k.taken + [k.queue[0]]) + k.queue[1..] == Items(k); }
    case CloseOne(_) => assert k.taken + (k.queue + [None]) == Items(k) + [None];
    case _ =>
  }

  // A queue is closed by such a step, and no step opens it again.
  lemma {:induction false} ClosedStep(s: State, step: Step, c: nat)
    requires IsStream(s, c) && Enabled(s, step)
    ensures IsStream(Apply(s, step), c)
    ensures Apply(s, step).calls[c].closed <==> s.calls[c].closed || Shuts(s, step, c)
  {
    hide Apply;
    CallStep(s, step, c);
  }

  lemma {:induction false} StartsEmpty(s: State, step: Step, c: nat)
    requires Enabled(s, step) && IsStream(Apply(s, step), c) && !IsStream(s, c)
    ensures c == |s.calls| && Items(Apply(s, step).calls[c]) == [] && !Apply(s, step).calls[c].closed
  {
    hide Apply;
    if c < |s.calls| {
      CallStep(s, step, c);
    } else {
      NewCall(s, step);
    }
  }

  // ----- the loop over the senders -----

  ghost predicate NoneLast(items: seq<Option<Payload>>) {
    items != [] && items[|items| - 1] == None && forall i :: 0 <= i < |items| - 1 ==> items[i].Some?
  }

  ghost predicate AllSome(items: seq<Option<Payload>>) {
    forall i :: 0 <= i < |items| ==> items[i].Some?
  }

  // Before its visit a stream has no None, after an ending one it has it as its last item.
  ghost predicate Marked(s: State, c: nat)
    requires IsStream(s, c)
  {
    var k := s.calls[c];
    || AllSome(Items(k))
    || (&& NoneLast(Items(k))
        && (s.dispatcher.Stopped? || (s.dispatcher.Closing? && k.id !in s.dispatcher.todo)))
  }

  // Every registered stream still to be visited, ended or closed.
  ghost predicate Swept(s: State, c: nat)
    requires IsStream(s, c)
  {
    var k := s.calls[c];
    s.dispatcher.Closing? && Entry(s, c) && !k.closed && k.id !in s.dispatcher.todo ==>
      s.dispatcher.eof && NoneLast(Items(k))
  }

  // What a step of the dispatcher does to its own state.
  lemma {:induction false} DispatcherStep(s: State, step: Step)
    requires Enabled(s, step)
    ensures var d, d' := s.dispatcher, Apply(s, step).dispatcher;
            && (d.Stopped? ==> d'.Stopped?)
            && (d'.Closing? ==> (d.Closing? && d'.eof == d.eof && d'.todo <= d.todo) || step.BeginClose?)
            && (d.Closing? ==> d'.Stopped? || d'.Closing?)
            && (d.Closing? || d.Stopped? ==> !step.Receive? && !step.FinishSend? && !step.BeginClose?)
            && (step.CloseOne? ==> d'.Closing? && d'.todo == d.todo - {step.id})
            && (d.Closing? && !step.CloseOne? && d'.Closing? ==> d'.todo == d.todo)
  {
  }

  // While it visits the senders, it holds the lock.
  lemma {:induction false} SendersKept(s: State, step: Step)
    requires Enabled(s, step) && s.dispatcher.Closing?
    ensures Apply(s, step).senders == s.senders
  {
    hide Deliver, CloseCall;
  }

  lemma {:induction false} MarkedStep(s: State, step: Step, c: nat)
    requires IsStream(s, c) && Enabled(s, step) && Marked(s, c)
    requires forall id :: id in s.senders && s.senders[id] == c ==> id == s.calls[c].id
    ensures IsStream(Apply(s, step), c) && Marked(Apply(s, step), c)
  {
    hide Apply, Items;
    ItemsStep(s, step, c);
    DispatcherStep(s, step);
    SameId(s, step, c);
  }

  lemma {:induction false} SameId(s: State, step: Step, c: nat)
    requires Enabled(s, step) && c < |s.calls|
    ensures c < |Apply(s, step).calls| && Apply(s, step).calls[c].id == s.calls[c].id
  {
    hide Apply;
    CallStep(s, step, c);
  }

  lemma {:induction false} SweptStep(s: State, step: Step, c: nat)
    requires IsStream(s, c) && Enabled(s, step) && Swept(s, c) && Marked(s, c)
    requires forall id :: id in s.senders && s.senders[id] == c ==> id == s.calls[c].id
    ensures IsStream(Apply(s, step), c) && Swept(Apply(s, step), c)
  {
    hide Apply, Items;
    ItemsStep(s, step, c);
    ClosedStep(s, step, c);
    DispatcherStep(s, step);
    if s.dispatcher.Closing? {
      SendersKept(s, step);
      SameId(s, step, c);
    } else if step.BeginClose? {
      BeginsWithAll(s, step, c);
    }
  }

  lemma {:induction false} BeginsWithAll(s: State, step: Step, c: nat)
    requires step.BeginClose? && Enabled(s, step) && c < |s.calls|
    ensures var s' := Apply(s, step);
            s'.calls == s.calls && s'.senders == s.senders && s'.dispatcher == Closing(s.senders.Keys, step.eof)
  {
  }

  // ----- runs -----

  lemma {:induction false} IdsOwned(s: State, c: nat)
    requires Inv(s) && |s.calls| <= TWO32 && c < |s.calls|
    ensures forall id :: id in s.senders && s.senders[id] == c ==> id == s.calls[c].id
  {
    hide CallOk;
  }

  lemma {:induction false} EntriesBelow(s: State)
    requires Inv(s)
    ensures forall id :: id in s.senders ==> s.senders[id] < |s.calls|
  {
    hide CallOk;
  }

  lemma {:induction false} SweptReach(steps: seq<Step>, c: nat)
    requires |Reach(steps).calls| <= TWO32 && IsStream(Reach(steps), c)
    ensures Marked(Reach(steps), c) && Swept(Reach(steps), c)
  {
    hide Apply, Enabled, Inv, Items;
    if steps == [] {
      assert false;
    } else {
      var last := |steps| - 1;
      var s, step := Reach(steps[..last]), steps[last];
      if Enabled(s, step) {
        CallsGrow(s, step);
      }
      if IsStream(s, c) {
        SweptReach(steps[..last], c);
        if Enabled(s, step) {
          ReachableInv(steps[..last]);
          IdsOwned(s, c);
          MarkedStep(s, step, c);
          SweptStep(s, step, c);
        }
      } else {
        ReachableInv(steps[..last]);
        EntriesBelow(s);
        StartsEmpty(s, step, c);
        FreshSwept(s, step, c);
      }
    }
  }

  lemma {:induction false} FreshSwept(s: State, step: Step, c: nat)
    requires Enabled(s, step) && IsStream(Apply(s, step), c) && !IsStream(s, c)
    requires forall id :: id in s.senders ==> s.senders[id] < |s.calls|
    ensures Swept(Apply(s, step), c)
  {
    hide Items;
    if c < |s.calls| {
      CallStep(s, step, c);
    } else {
      NewCall(s, step);
    }
  }

  // The n-th step of the run ends stream c, or closes its queue.
  ghost predicate EndsAt(steps: seq<Step>, n: nat, c: nat) {
    n < |steps| && Ends(Reach(steps[..n]), steps[n], c)
  }

  ghost predicate ShutsAt(steps: seq<Step>, n: nat, c: nat) {
    n < |steps| && Shuts(Reach(steps[..n]), steps[n], c)
  }

  ghost predicate EverEnded(steps: seq<Step>, c: nat) {
    exists n :: EndsAt(steps, n, c)
  }

  ghost predicate EverShut(steps: seq<Step>, c: nat) {
    exists n :: ShutsAt(steps, n, c)
  }

  lemma {:induction false} EarlierOrLast(steps: seq<Step>, n: nat, c: nat)
    requires steps != []
    ensures var last := |steps| - 1;
            && (EndsAt(steps, n, c) <==> EndsAt(steps[..last], n, c) || (n == last && EndsAt(steps, last, c)))
            && (ShutsAt(steps, n, c) <==> ShutsAt(steps[..last], n, c) || (n == last && ShutsAt(steps, last, c)))
  {
    hide Ends, Shuts, Reach;
    if n < |steps| - 1 {
      assert steps[..|steps| - 1][..n] == steps[..n];
    }
  }

  lemma {:induction false} EventsSplit(steps: seq<Step>, c: nat)
    requires steps != []
    ensures EverEnded(steps, c) <==> EverEnded(steps[..|steps| - 1], c) || EndsAt(steps, |steps| - 1, c)
    ensures EverShut(steps, c) <==> EverShut(steps[..|steps| - 1], c) || ShutsAt(steps, |steps| - 1, c)
  {
    hide EndsAt, ShutsAt;
    var last := |steps| - 1;
    forall n: nat
      ensures EndsAt(steps, n, c) <==> EndsAt(steps[..last], n, c) || (n == last && EndsAt(steps, last, c))
      ensures ShutsAt(steps, n, c) <==> ShutsAt(steps[..last], n, c) || (n == last && ShutsAt(steps, last, c))
    {
      EarlierOrLast(steps, n, c);
    }
  }

  lemma {:induction false} NeedsStream(s: State, step: Step, c: nat)
    ensures Ends(s, step, c) || Shuts(s, step, c) ==> Enabled(s, step) && IsStream(s, c)
  {
  }

  lemma {:induction false} StreamStays(steps: seq<Step>, m: nat, n: nat, c: nat)
    requires m <= n <= |steps| && IsStream(Reach(steps[..m]), c)
    ensures IsStream(Reach(steps[..n]), c)
    decreases n
  {
    hide Apply, Enabled;
    if m < n {
      StreamStays(steps, m, n - 1, c);
      assert steps[..n][..n - 1] == steps[..n - 1];
      var s, step := Reach(steps[..n - 1]), steps[n - 1];
      if Enabled(s, step) {
        ItemsStep(s, step, c);
      }
    }
  }

  // Before a stream there is no event for it.
  lemma {:induction false} NothingYet(steps: seq<Step>, c: nat)
    requires steps != [] && !IsStream(Reach(steps[..|steps| - 1]), c)
    ensures !EverEnded(steps, c) && !EverShut(steps, c)
  {
    hide Apply, Enabled, Ends, Shuts, Reach;
    var last := |steps| - 1;
    forall n: nat
      ensures !EndsAt(steps, n, c) && !ShutsAt(steps, n, c)
    {
      if n <= last {
        NeedsStream(Reach(steps[..n]), steps[n], c);
        if IsStream(Reach(steps[..n]), c) {
          StreamStays(steps, n, last, c);
        }
      }
    }
  }

  // What the events of a run mean for the state after it.
  ghost predicate Told(s: State, steps: seq<Step>, c: nat) {
    && IsStream(s, c)
    && (None in Items(s.calls[c]) <==> EverEnded(steps, c))
    && (s.calls[c].closed <==> EverShut(steps, c))
  }

  lemma {:induction false} ToldStep(steps: seq<Step>, c: nat)
    requires steps != [] && Told(Reach(steps[..|steps| - 1]), steps[..|steps| - 1], c)
    ensures Told(Reach(steps), steps, c)
  {
    hide Apply, Enabled, EverEnded, EverShut, Ends, Shuts, Items;
    var last := |steps| - 1;
    var s, step := Reach(steps[..last]), steps[last];
    EventsSplit(steps, c);
    NeedsStream(s, step, c);
    if Enabled(s, step) {
      ItemsStep(s, step, c);
      ClosedStep(s, step, c);
    }
  }

  lemma {:induction false} ToldReach(steps: seq<Step>, c: nat)
    requires IsStream(Reach(steps), c)
    ensures Told(Reach(steps), steps, c)
  {
    hide Apply, Enabled, Told, Items;
    if steps == [] {
      assert false;
    } else {
      var last := |steps| - 1;
      if IsStream(Reach(steps[..last]), c) {
        ToldReach(steps[..last], c);
        ToldStep(steps, c);
      } else {
        NothingYet(steps, c);
        StartsEmpty(Reach(steps[..last]), steps[last], c);
        StartsTold(steps, c);
      }
    }
  }

  lemma {:induction false} StartsTold(steps: seq<Step>, c: nat)
    requires IsStream(Reach(steps), c) && Items(Reach(steps).calls[c]) == [] && !Reach(steps).calls[c].closed
    requires !EverEnded(steps, c) && !EverShut(steps, c)
    ensures Told(Reach(steps), steps, c)
  {
    hide Reach, EverEnded, EverShut, Items;
  }

  // Over every run, a stream was given None if and only if the peer disconnected and the visit found its
  // receiver there.  None is then its last item, and Take stays enabled until None is taken.
  lemma {:induction false} EndOfStreamIff(steps: seq<Step>, c: nat)
    requires |Reach(steps).calls| <= TWO32 && IsStream(Reach(steps), c)
    ensures var s := Reach(steps);
            var k := s.calls[c];
            && (None in k.taken + k.queue <==> EverEnded(steps, c))
            && (EverEnded(steps, c) ==>
                  && NoneLast(k.taken + k.queue)
                  && (s.dispatcher.Closing? || s.dispatcher.Stopped?)
                  && (k.stage.Open? ==> (Enabled(s, Take(c)) <==> None !in k.taken)))
  {
    hide Reach, EverEnded, EverShut;
    ToldReach(steps, c);
    SweptReach(steps, c);
    var k := Reach(steps).calls[c];
    if EverEnded(steps, c) {
      TakenLast(k);
    }
  }

  // The last item has been taken if and only if nothing is left.
  lemma {:induction false} TakenLast(k: Call)
    requires k.Stream? && NoneLast(Items(k))
    ensures None in k.taken <==> k.queue == []
  {
    var items := Items(k);
    if k.queue == [] {
      assert items == k.taken;
    } else {
      forall i | 0 <= i < |k.taken|
        ensures k.taken[i].Some?
      {
        assert items[i] == k.taken[i];
      }
    }
  }

  // Over every run, a queue is closed if and only if its request failed, its stream was dropped or a
  // visit of terminate came by, and it never opens again.
  lemma {:induction false} ClosedIff(steps: seq<Step>, c: nat)
    requires IsStream(Reach(steps), c)
    ensures Reach(steps).calls[c].closed <==> EverShut(steps, c)
  {
    hide Reach, EverEnded, EverShut, Items;
    ToldReach(steps, c);
  }

  // When the dispatcher stops, every registered stream has been told: after the peer has disconnected each
  // one that is not closed has None as its last item, and after terminate there is none that is not closed.
  lemma {:induction false} EveryStreamTold(steps: seq<Step>, c: nat)
    requires |Reach(steps).calls| <= TWO32 && IsStream(Reach(steps), c) && Enabled(Reach(steps), EndClose)
    requires !Reach(steps).calls[c].stage.Created? && !Reach(steps).calls[c].closed
    ensures var s := Reach(steps);
            && s.dispatcher.eof && NoneLast(s.calls[c].taken + s.calls[c].queue)
            && Apply(s, EndClose) == s.(dispatcher := Stopped)
  {
    hide Reach;
    SweptReach(steps, c);
    ReachableInv(steps);
    var s := Reach(steps);
    assert CallOk(s.calls[c], Entry(s, c), s.frames, InHand(s, c), s.stale);
  }
}
