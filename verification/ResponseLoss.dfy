/**
 When a caller of the multiplexer (fluvio-socket, multiplexing.rs) gets its response and when the
 connection's end takes it away: closing an entry clears a slot that is already filled.
 */
module ResponseLoss {
  import opened Wrappers
  import opened Bytes
  import opened Multiplexer

  // ----- what happens to a slot -----

  // The step stores a frame in the slot of call c.
  predicate StoresIn(s: State, step: Step, c: nat) {
    step.Receive? && Enabled(s, step) && IsSerial(s, c) && step.frame.id in s.senders && s.senders[step.frame.id] == c
  }

  // The step closes the entry of call c.
  predicate ClosesIn(s: State, step: Step, c: nat) {
    step.CloseOne? && Enabled(s, step) && IsSerial(s, c) && s.senders[step.id] == c
  }

  lemma {:induction false} SlotStep(s: State, step: Step, c: nat)
    requires IsSerial(s, c) && Enabled(s, step)
    ensures var k := Apply(s, step).calls[c];
            && k.Serial?
            && (StoresIn(s, step, c) ==> k.slot == Some(step.frame.bytes))
            && (ClosesIn(s, step, c) ==> k.slot == None)
            && (!StoresIn(s, step, c) && !ClosesIn(s, step, c) ==> k.slot == s.calls[c].slot)
  {
    hide Apply;
    CallStep(s, step, c);
  }

  lemma {:induction false} NotifiedStep(s: State, step: Step, c: nat)
    requires IsSerial(s, c) && Enabled(s, step)
    ensures var k := Apply(s, step).calls[c];
            && k.Serial?
            && (s.calls[c].notified ==> k.notified)
            && (k.notified ==> s.calls[c].notified || StoresIn(s, step, c) || ClosesIn(s, step, c))
  {
    hide Apply;
    CallStep(s, step, c);
  }

  // A call that was woken has been notified, and its outcome is its slot.
  predicate Settled(k: Call)
    requires k.Serial?
  {
    && (k.phase.Fetching? ==> k.notified)
    && (k.phase.Returned? && k.phase.outcome.Responded? ==> k.notified && k.slot == Some(k.phase.outcome.bytes))
    && (k.phase.Returned? && k.phase.outcome.ConnectionClosed? ==> k.notified && k.slot == None)
  }

  // Nothing reaches the slot of a call that was woken.
  lemma {:induction false} SettledStep(s: State, step: Step, c: nat)
    requires IsSerial(s, c) && Enabled(s, step) && Settled(s.calls[c])
    requires Entry(s, c) <==> HoldsEntry(s.calls[c].phase)
    requires s.calls[c].id in s.senders ==> s.senders[s.calls[c].id] == c
    requires forall id :: id in s.senders && s.senders[id] == c ==> id == s.calls[c].id
    ensures Apply(s, step).calls[c].Serial? && Settled(Apply(s, step).calls[c])
  {
    hide Apply;
    CallStep(s, step, c);
  }

  lemma {:induction false} StartsFresh(s: State, step: Step, c: nat)
    requires Enabled(s, step) && IsSerial(Apply(s, step), c) && !IsSerial(s, c)
    ensures var k := Apply(s, step).calls[c];
            c == |s.calls| && k.phase.Allocated? && k.slot == None && !k.notified
  {
    hide Apply;
    if c < |s.calls| {
      CallStep(s, step, c);
    } else {
      NewCall(s, step);
    }
  }

  // The dispatcher never reads again once it closes.
  lemma {:induction false} ClosedStays(s: State, step: Step)
    requires (s.dispatcher.Closing? || s.dispatcher.Stopped?) && Enabled(s, step)
    ensures Apply(s, step).dispatcher.Closing? || Apply(s, step).dispatcher.Stopped?
    ensures !step.Receive?
  {
  }

  // ----- runs -----

  // The n-th step of the run stores a frame for call c, or closes its entry.
  ghost predicate Stores(steps: seq<Step>, n: nat, c: nat) {
    n < |steps| && StoresIn(Reach(steps[..n]), steps[n], c)
  }

  ghost predicate Closes(steps: seq<Step>, n: nat, c: nat) {
    n < |steps| && ClosesIn(Reach(steps[..n]), steps[n], c)
  }

  ghost predicate EverClosed(steps: seq<Step>, c: nat) {
    exists n :: Closes(steps, n, c)
  }

  ghost predicate EverStored(steps: seq<Step>, c: nat) {
    exists n :: Stores(steps, n, c)
  }

  // The n-th step stores the last frame for call c.
  ghost predicate StoresLast(steps: seq<Step>, n: nat, c: nat) {
    Stores(steps, n, c) && forall m :: n < m ==> !Stores(steps, m, c)
  }

  // The same events, one step earlier.
  lemma {:induction false} Earlier(steps: seq<Step>, n: nat, c: nat)
    requires steps != []
    ensures n < |steps| - 1 ==>
            && (Stores(steps, n, c) <==> Stores(steps[..|steps| - 1], n, c))
            && (Closes(steps, n, c) <==> Closes(steps[..|steps| - 1], n, c))
    ensures n >= |steps| - 1 ==> !Stores(steps[..|steps| - 1], n, c) && !Closes(steps[..|steps| - 1], n, c)
  {
    hide StoresIn, ClosesIn, Reach;
    if n < |steps| - 1 {
      assert steps[..|steps| - 1][..n] == steps[..n];
    }
  }

  lemma {:induction false} ClosedSplit(steps: seq<Step>, c: nat)
    requires steps != []
    ensures EverClosed(steps, c) <==> EverClosed(steps[..|steps| - 1], c) || Closes(steps, |steps| - 1, c)
    ensures EverStored(steps, c) <==> EverStored(steps[..|steps| - 1], c) || Stores(steps, |steps| - 1, c)
  {
    hide Stores, Closes;
    var last := |steps| - 1;
    forall n: nat
      ensures Closes(steps, n, c) <==> Closes(steps[..last], n, c) || (n == last && Closes(steps, last, c))
      ensures Stores(steps, n, c) <==> Stores(steps[..last], n, c) || (n == last && Stores(steps, last, c))
    {
      EarlierOrLast(steps, n, c);
    }
  }

  lemma {:induction false} EarlierOrLast(steps: seq<Step>, n: nat, c: nat)
    requires steps != []
    ensures var last := |steps| - 1;
            && (Closes(steps, n, c) <==> Closes(steps[..last], n, c) || (n == last && Closes(steps, last, c)))
            && (Stores(steps, n, c) <==> Stores(steps[..last], n, c) || (n == last && Stores(steps, last, c)))
  {
    hide StoresIn, ClosesIn, Reach;
    Earlier(steps, n, c);
  }

  ghost predicate HoldsLast(steps: seq<Step>, c: nat, bytes: Payload) {
    exists n: nat :: StoresLast(steps, n, c) && steps[n].Receive? && steps[n].frame.bytes == bytes
  }

  // What the events of a run mean for the state after it.
  ghost predicate Known(s: State, steps: seq<Step>, c: nat) {
    && IsSerial(s, c)
    && (s.calls[c].slot.Some? <==> EverStored(steps, c) && !EverClosed(steps, c))
    && (EverClosed(steps, c) ==> s.dispatcher.Closing? || s.dispatcher.Stopped?)
    && (s.calls[c].slot.Some? ==> HoldsLast(steps, c, s.calls[c].slot.value))
    && (s.calls[c].notified ==> EverStored(steps, c) || EverClosed(steps, c))
  }

  // A slot is filled if and only if a frame was stored and the entry was not closed, and then holds the
  // last such frame.
  lemma {:induction false} SlotIsLast(steps: seq<Step>, c: nat)
    requires IsSerial(Reach(steps), c)
    ensures Known(Reach(steps), steps, c)
  {
    hide Apply, Enabled, Known;
    if steps == [] {
      assert false;
    } else {
      var last := |steps| - 1;
      if IsSerial(Reach(steps[..last]), c) {
        SlotIsLast(steps[..last], c);
        KnownStep(steps, c);
      } else {
        NothingBefore(steps, c);
      }
    }
  }

  // One step more.
  lemma {:induction false} KnownStep(steps: seq<Step>, c: nat)
    requires steps != [] && Known(Reach(steps[..|steps| - 1]), steps[..|steps| - 1], c)
    ensures Known(Reach(steps), steps, c)
  {
    hide Apply, Enabled, EverClosed, EverStored, HoldsLast, StoresIn, ClosesIn, Stores, Closes;
    var last := |steps| - 1;
    var s, step := Reach(steps[..last]), steps[last];
    ClosedSplit(steps, c);
    LastStep(steps, c);
    NeedsEnabled(s, step, c);
    HoldsGoesOn(steps, c);
    if Enabled(s, step) {
      SlotStep(s, step, c);
      NotifiedStep(s, step, c);
      CallsGrow(s, step);
      if s.dispatcher.Closing? || s.dispatcher.Stopped? {
        ClosedStays(s, step);
      }
    }
  }

  lemma {:induction false} LastStep(steps: seq<Step>, c: nat)
    requires steps != []
    ensures var last := |steps| - 1;
            && (Stores(steps, last, c) <==> StoresIn(Reach(steps[..last]), steps[last], c))
            && (Closes(steps, last, c) <==> ClosesIn(Reach(steps[..last]), steps[last], c))
  {
  }

  lemma {:induction false} HoldsGoesOn(steps: seq<Step>, c: nat)
    requires steps != []
    ensures var last := |steps| - 1;
            && (Stores(steps, last, c) ==> steps[last].Receive? && HoldsLast(steps, c, steps[last].frame.bytes))
            && (!Stores(steps, last, c) ==>
                  forall bytes :: HoldsLast(steps[..last], c, bytes) ==> HoldsLast(steps, c, bytes))
  {
    hide Reach;
    var last := |steps| - 1;
    if Stores(steps, last, c) {
      assert StoresLast(steps, last, c);
    } else {
      forall bytes | HoldsLast(steps[..last], c, bytes)
        ensures HoldsLast(steps, c, bytes)
      {
        var n: nat :| StoresLast(steps[..last], n, c) && steps[..last][n].Receive?
                   && steps[..last][n].frame.bytes == bytes;
        LastGoesOn(steps, n, c);
      }
    }
  }

  // The last frame stays the last one without another.
  lemma {:induction false} LastGoesOn(steps: seq<Step>, n: nat, c: nat)
    requires steps != [] && !Stores(steps, |steps| - 1, c) && StoresLast(steps[..|steps| - 1], n, c)
    ensures n < |steps| - 1 && StoresLast(steps, n, c) && steps[..|steps| - 1][n] == steps[n]
  {
    hide StoresIn, Reach;
    Earlier(steps, n, c);
    forall m: nat | n < m
      ensures !Stores(steps, m, c)
    {
      Earlier(steps, m, c);
    }
  }

  lemma {:induction false} NeedsEnabled(s: State, step: Step, c: nat)
    ensures StoresIn(s, step, c) || ClosesIn(s, step, c) ==> Enabled(s, step)
    ensures StoresIn(s, step, c) ==> s.dispatcher.Idle? && step.Receive?
    ensures ClosesIn(s, step, c) ==> s.dispatcher.Closing? && !StoresIn(s, step, c)
  {
  }

  // Before a call there is no event for it.
  lemma {:induction false} NothingBefore(steps: seq<Step>, c: nat)
    requires steps != [] && IsSerial(Reach(steps), c) && !IsSerial(Reach(steps[..|steps| - 1]), c)
    ensures Known(Reach(steps), steps, c)
  {
    hide Apply, Enabled, HoldsLast;
    var last := |steps| - 1;
    forall n: nat
      ensures !Stores(steps, n, c) && !Closes(steps, n, c)
    {
      if n <= last && IsSerial(Reach(steps[..n]), c) {
        SerialStays(steps, n, last, c);
        assert false;
      }
    }
    StartsFresh(Reach(steps[..last]), steps[last], c);
  }

  lemma {:induction false} SettledReach(steps: seq<Step>, c: nat)
    requires |Reach(steps).calls| <= TWO32 && IsSerial(Reach(steps), c)
    ensures Settled(Reach(steps).calls[c])
  {
    hide Apply, Enabled, Inv, Settled;
    if steps == [] {
      assert false;
    } else {
      var last := |steps| - 1;
      var s, step := Reach(steps[..last]), steps[last];
      if Enabled(s, step) {
        CallsGrow(s, step);
      }
      if IsSerial(s, c) {
        SettledReach(steps[..last], c);
        if Enabled(s, step) {
          ReachableInv(steps[..last]);
          SerialEntryIff(steps[..last], c);
          EntriesOwned(s, c);
          SettledStep(s, step, c);
        }
      } else {
        StartsFresh(s, step, c);
        FreshSettled(Reach(steps).calls[c]);
      }
    }
  }

  lemma {:induction false} FreshSettled(k: Call)
    requires k.Serial? && k.phase.Allocated?
    ensures Settled(k)
  {
  }

  lemma {:induction false} EntriesOwned(s: State, c: nat)
    requires Inv(s) && |s.calls| <= TWO32 && c < |s.calls|
    ensures s.calls[c].id in s.senders ==> s.senders[s.calls[c].id] == c
    ensures forall id :: id in s.senders && s.senders[id] == c ==> id == s.calls[c].id
  {
    OwnEntry(s, c);
  }

  // Over every run, a caller that was woken is told that the connection is closed if and only if its
  // entry was closed, whether or not its response had come; otherwise it gets the last response.
  lemma {:induction false} ResponseLostIff(steps: seq<Step>, c: nat)
    requires |Reach(steps).calls| <= TWO32 && IsSerial(Reach(steps), c) && Reach(steps).calls[c].phase.Returned?
    requires var outcome := Reach(steps).calls[c].phase.outcome; outcome.Responded? || outcome.ConnectionClosed?
    ensures var outcome := Reach(steps).calls[c].phase.outcome;
            && (outcome.ConnectionClosed? <==> EverClosed(steps, c))
            && (outcome.Responded? ==> HoldsLast(steps, c, outcome.bytes))
  {
    hide Reach, EverClosed, EverStored, HoldsLast;
    SlotIsLast(steps, c);
    SettledReach(steps, c);
  }

  // A connection with one call.
  function One(
    phase: SerialPhase, slot: Option<Payload>, heard: bool, senders: map<int, nat>, frames: seq<Frame>,
    dispatcher: Dispatcher): State
  {
    State(2, [Serial(1, phase, slot, frames != [], 0, heard)], senders, frames, heard || !dispatcher.Idle?, dispatcher)
  }

  lemma {:induction false} ArrivesThenCloses(f: Frame)
    requires f.id == 1
    ensures var waits := One(Waiting, None, false, map[1 := 0], [], Idle);
            var arrived := One(Waiting, Some(f.bytes), false, map[1 := 0], [f], Idle);
            && StoresIn(waits, Receive(f), 0) && Enabled(waits, Receive(f)) && Apply(waits, Receive(f)) == arrived
            && Enabled(arrived, BeginClose(true))
            && Apply(arrived, BeginClose(true)) ==
                 One(Waiting, Some(f.bytes), false, map[1 := 0], [f], Closing({1}, true))
  {
    assert [] + [f] == [f];
    assert map[1 := 0].Keys == {1};
  }

  lemma {:induction false} ClosesEntry(f: Frame)
    requires f.id == 1
    ensures var closing := One(Waiting, Some(f.bytes), false, map[1 := 0], [f], Closing({1}, true));
            var closed := One(Waiting, None, true, map[1 := 0], [f], Closing({}, true));
            && Enabled(closing, CloseOne(1)) && Apply(closing, CloseOne(1)) == closed
            && Enabled(closed, EndClose)
            && Apply(closed, EndClose) == One(Waiting, None, true, map[1 := 0], [f], Stopped)
  {
    var closing := One(Waiting, Some(f.bytes), false, map[1 := 0], [f], Closing({1}, true));
    assert {1} - {1} == {};
    assert Apply(closing, CloseOne(1)).calls == [Serial(1, Waiting, None, true, 0, true)];
  }

  lemma {:induction false} WakesEmpty(f: Frame)
    requires f.id == 1
    ensures var stopped := One(Waiting, None, true, map[1 := 0], [f], Stopped);
            var woken := One(Fetching, None, true, map[], [f], Stopped);
            && Enabled(stopped, Wake(0)) && Apply(stopped, Wake(0)) == woken
            && Enabled(woken, Fetch(0))
            && Apply(woken, Fetch(0)) == One(Returned(ConnectionClosed), None, true, map[], [f], Stopped)
  {
    assert map[1 := 0] - {1} == map[];
  }

  // A response that has come and woken its caller is lost when the connection closes before the
  // caller runs.
  lemma {:induction false} ResponseLost(bytes: Payload) returns (steps: seq<Step>)
    ensures EverStored(steps, 0) && IsSerial(Reach(steps), 0)
    ensures Reach(steps).calls[0].phase == Returned(ConnectionClosed)
  {
    hide Apply, Reach, StoresIn, Enabled;
    var start := [StartSerial, RegisterSerial(0), Listen(0), SendRequest(0)];
    var f := Frame(1, bytes);
    FirstCallWaits();
    ArrivesThenCloses(f);
    ClosesEntry(f);
    WakesEmpty(f);
    ReachSnoc(start, Receive(f));
    var arrived := start + [Receive(f)];
    ReachSnoc(arrived, BeginClose(true));
    var closing := arrived + [BeginClose(true)];
    ReachSnoc(closing, CloseOne(1));
    var closed := closing + [CloseOne(1)];
    ReachSnoc(closed, EndClose);
    var stopped := closed + [EndClose];
    ReachSnoc(stopped, Wake(0));
    var woken := stopped + [Wake(0)];
    ReachSnoc(woken, Fetch(0));
    steps := woken + [Fetch(0)];
    assert steps[..4] == start && steps[4] == Receive(f);
    assert Stores(steps, 4, 0);
  }

  lemma {:induction false} FirstCallWaits()
    ensures Reach([StartSerial, RegisterSerial(0), Listen(0), SendRequest(0)]) ==
            One(Waiting, None, false, map[1 := 0], [], Idle)
  {
    var s1 := Apply(Init(), StartSerial);
    assert s1 == State(2, [Serial(1, Allocated, None, false, 0, false)], map[], [], false, Idle);
    var s2 := Apply(s1, RegisterSerial(0));
    assert s2 == State(2, [Serial(1, Registered, None, false, 0, false)], map[1 := 0], [], false, Idle);
    var s3 := Apply(s2, Listen(0));
    assert s3 == State(2, [Serial(1, Listening, None, false, 0, false)], map[1 := 0], [], false, Idle);
    var s4 := Apply(s3, SendRequest(0));
    assert s4 == State(2, [Serial(1, Waiting, None, false, 0, false)], map[1 := 0], [], false, Idle);
    hide Apply, Enabled;
    assert [] + [StartSerial] == [StartSerial];
    ReachSnoc([], StartSerial);
    ReachSnoc([StartSerial], RegisterSerial(0));
    assert [StartSerial] + [RegisterSerial(0)] == [StartSerial, RegisterSerial(0)];
    ReachSnoc([StartSerial, RegisterSerial(0)], Listen(0));
    assert [StartSerial, RegisterSerial(0)] + [Listen(0)] == [StartSerial, RegisterSerial(0), Listen(0)];
    ReachSnoc([StartSerial, RegisterSerial(0), Listen(0)], SendRequest(0));
    assert [StartSerial, RegisterSerial(0), Listen(0)] + [SendRequest(0)] ==
           [StartSerial, RegisterSerial(0), Listen(0), SendRequest(0)];
  }
}
