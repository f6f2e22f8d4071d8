/**
 The response multiplexer (fluvio-socket, multiplexing.rs) as a transition system.  Callers, the
 dispatcher and the peer take steps in any order; the dispatcher may hold the lock on `senders`
 across steps, and then no caller step that needs the lock is enabled.
 */
module Multiplexer {
  import opened Wrappers
  import opened Bytes

  type Payload = seq<Byte>

  datatype Frame = Frame(id: int, bytes: Payload)

  datatype Outcome =
    | Responded(bytes: Payload)   // the caller returns the decoding of these bytes
    | ConnectionClosed
    | TimedOut
    | WriteFailed
    | Abandoned                   // the future was dropped while waiting

  /** Where send_and_receive stands. */
  datatype SerialPhase =
    | Allocated
    | Registered
    | Listening
    | Waiting
    | Expired     // timed out and removed its entry
    | Fetching    // woken and removed its entry
    | Returned(outcome: Outcome)

  /** Where create_stream, or the stream it returned, stands. */
  datatype StreamPhase = Created | Enlisted | Open | Failed

  /** A call with its slot or queue.  `since` is the number of frames when it began to listen, and
      `heardClose` records whether it was listening when a close reached its entry. */
  datatype Call =
    | Serial(id: int, phase: SerialPhase, slot: Option<Payload>, notified: bool, since: nat, heardClose: bool)
    | Stream(id: int, stage: StreamPhase, capacity: nat, queue: seq<Option<Payload>>, closed: bool,
             taken: seq<Option<Payload>>, since: nat)

  datatype Dispatcher =
    | Idle
    | Sending(call: nat, msg: Payload)     // waiting for room in a queue, holding the lock
    | Closing(todo: set<int>, eof: bool)   // visiting the senders, holding the lock
    | Stopped

  datatype State = State(
    counter: int,
    calls: seq<Call>,
    senders: map<int, nat>,
    frames: seq<Frame>,
    stale: bool,
    dispatcher: Dispatcher)

  datatype Step =
    | StartSerial
    | StartStream(queueLen: nat)
    | RegisterSerial(c: nat)
    | RegisterStream(c: nat)
    | Listen(c: nat)
    | SendRequest(c: nat)
    | FailRequest(c: nat)
    | Expire(c: nat)
    | ReturnExpired(c: nat)
    | Wake(c: nat)
    | Fetch(c: nat)
    | Abandon(c: nat)
    | Take(c: nat)
    | DropStream(c: nat)
    | SetStale
    | Receive(frame: Frame)
    | FinishSend
    | BeginClose(eof: bool)
    | CloseOne(id: int)
    | EndClose

  // ----- correlation ids -----

  const TWO31: int := 0x8000_0000
  const TWO32: int := 0x1_0000_0000

  function Wrap32(x: int): int {
    (x + TWO31) % TWO32 - TWO31
  }

  // The id of the n-th call: the counter starts at 1 and wraps.
  function IdOf(n: nat): int {
    Wrap32(1 + n)
  }

  lemma {:induction false} IdsDistinct(m: nat, n: nat)
    requires m < n < TWO32
    ensures IdOf(m) != IdOf(n)
  {
    ModDistinct(1 + m + TWO31, 1 + n + TWO31);
  }

  lemma {:induction false} ModDistinct(x: int, y: int)
    requires x < y < x + TWO32
    ensures x % TWO32 != y % TWO32
  {
    var q := y / TWO32 - x / TWO32;
    assert y - x == TWO32 * q + (y % TWO32 - x % TWO32);
    assert q <= 0 ==> TWO32 * q <= 0;
    assert q >= 1 ==> TWO32 * q >= TWO32;
  }

  // Ids of n calls are pairwise distinct if and only if n is at most 2^32.
  lemma {:induction false} IdsDistinctIff(n: nat)
    ensures n <= TWO32 <==> forall i, j :: 0 <= i < j < n ==> IdOf(i) != IdOf(j)
  {
    if n <= TWO32 {
      forall i, j | 0 <= i < j < n
        ensures IdOf(i) != IdOf(j)
      {
        IdsDistinct(i, j);
      }
    } else {
      assert IdOf(0) == IdOf(TWO32);
    }
  }

  // ----- steps -----

  function Init(): State {
    State(1, [], map[], [], false, Idle)
  }

  predicate LockFree(s: State) {
    s.dispatcher.Idle? || s.dispatcher.Stopped?
  }

  predicate IsSerial(s: State, c: nat) {
    c < |s.calls| && s.calls[c].Serial?
  }

  predicate IsStream(s: State, c: nat) {
    c < |s.calls| && s.calls[c].Stream?
  }

  // Whether the caller's future is between registration and its return.
  predicate Pending(p: SerialPhase) {
    p.Registered? || p.Listening? || p.Waiting?
  }

  predicate Enabled(s: State, step: Step) {
    match step
    case StartSerial => true
    case StartStream(queueLen) => queueLen > 0
    case RegisterSerial(c) => IsSerial(s, c) && s.calls[c].phase.Allocated? && LockFree(s)
    case RegisterStream(c) => IsStream(s, c) && s.calls[c].stage.Created? && LockFree(s)
    case Listen(c) => IsSerial(s, c) && s.calls[c].phase.Registered?
    case SendRequest(c) =>
      (IsSerial(s, c) && s.calls[c].phase.Listening?) || (IsStream(s, c) && s.calls[c].stage.Enlisted?)
    case FailRequest(c) =>
      (IsSerial(s, c) && s.calls[c].phase.Listening?) || (IsStream(s, c) && s.calls[c].stage.Enlisted?)
    case Expire(c) => IsSerial(s, c) && s.calls[c].phase.Waiting? && LockFree(s)
    case ReturnExpired(c) => IsSerial(s, c) && s.calls[c].phase.Expired?
    case Wake(c) => IsSerial(s, c) && s.calls[c].phase.Waiting? && s.calls[c].notified && LockFree(s)
    case Fetch(c) => IsSerial(s, c) && s.calls[c].phase.Fetching?
    case Abandon(c) => IsSerial(s, c) && Pending(s.calls[c].phase)
    case Take(c) => IsStream(s, c) && s.calls[c].stage.Open? && s.calls[c].queue != []
    case DropStream(c) => IsStream(s, c) && s.calls[c].stage.Open?
    case SetStale => true
    case Receive(_) => s.dispatcher.Idle?
    case FinishSend =>
      s.dispatcher.Sending? && IsStream(s, s.dispatcher.call)
      && (s.calls[s.dispatcher.call].closed || |s.calls[s.dispatcher.call].queue| < s.calls[s.dispatcher.call].capacity)
    case BeginClose(_) => s.dispatcher.Idle?
    case CloseOne(id) =>
      s.dispatcher.Closing? && id in s.dispatcher.todo && id in s.senders && s.senders[id] < |s.calls|
      && (var k := s.calls[s.senders[id]];
          k.Stream? && s.dispatcher.eof ==> k.closed || |k.queue| < k.capacity)
    case EndClose => s.dispatcher.Closing? && s.dispatcher.todo == {}
  }

  function With(s: State, c: nat, k: Call): State
    requires c < |s.calls|
  {
    s.(calls := s.calls[c := k])
  }

  // senders.retain: queues whose receiver is gone are dropped, serial slots always stay.
  function Retain(s: State): map<int, nat> {
    map id | id in s.senders && !(IsStream(s, s.senders[id]) && s.calls[s.senders[id]].closed) :: s.senders[id]
  }

  // Event::notify reaches a listener only if there is one.
  predicate HasListener(p: SerialPhase) {
    p.Listening? || p.Waiting?
  }

  // Dispatcher::send
  function Deliver(s: State, f: Frame): State {
    var s' := s.(frames := s.frames + [f]);
    if f.id !in s.senders || s.senders[f.id] >= |s.calls| then s'
    else
      var c := s.senders[f.id];
      match s.calls[c]
      case Serial(id, phase, _, notified, since, heardClose) =>
        With(s', c, Serial(id, phase, Some(f.bytes), notified || HasListener(phase), since, heardClose))
      case Stream(id, stage, capacity, queue, closed, taken, since) =>
        if closed then s'
        else if |queue| < capacity then
          With(s', c, Stream(id, stage, capacity, queue + [Some(f.bytes)], closed, taken, since))
        else s'.(dispatcher := Sending(c, f.bytes))
  }

  // One element of the loops over `senders` in close and terminate.
  function CloseCall(k: Call, eof: bool): Call {
    match k
    case Serial(id, phase, _, notified, since, heardClose) =>
      Serial(id, phase, None, notified || HasListener(phase), since, heardClose || HasListener(phase))
    case Stream(id, stage, capacity, queue, closed, taken, since) =>
      if eof then (if closed then k else Stream(id, stage, capacity, queue + [None], closed, taken, since))
      else Stream(id, stage, capacity, queue, true, taken, since)
  }

  function Apply(s: State, step: Step): State
    requires Enabled(s, step)
  {
    match step
    case StartSerial =>
      s.(counter := Wrap32(s.counter + 1), calls := s.calls + [Serial(s.counter, Allocated, None, false, 0, false)])
    case StartStream(queueLen) =>
      s.(counter := Wrap32(s.counter + 1), calls := s.calls + [Stream(s.counter, Created, queueLen, [], false, [], 0)])
    case RegisterSerial(c) =>
      With(s, c, s.calls[c].(phase := Registered)).(senders := s.senders[s.calls[c].id := c])
    case RegisterStream(c) =>
      With(s, c, s.calls[c].(stage := Enlisted, since := |s.frames|)).(senders := Retain(s)[s.calls[c].id := c])
    case Listen(c) => With(s, c, s.calls[c].(phase := Listening, since := |s.frames|))
    case SendRequest(c) =>
      if s.calls[c].Serial? then With(s, c, s.calls[c].(phase := Waiting)) else With(s, c, s.calls[c].(stage := Open))
    case FailRequest(c) =>
      if s.calls[c].Serial? then With(s, c, s.calls[c].(phase := Returned(WriteFailed)))
      else With(s, c, s.calls[c].(stage := Failed, closed := true))
    case Expire(c) => With(s, c, s.calls[c].(phase := Expired)).(senders := s.senders - {s.calls[c].id})
    case ReturnExpired(c) => With(s, c, s.calls[c].(phase := Returned(TimedOut))).(stale := true)
    case Wake(c) => With(s, c, s.calls[c].(phase := Fetching)).(senders := s.senders - {s.calls[c].id})
    case Fetch(c) =>
      var outcome := if s.calls[c].slot.Some? then Responded(s.calls[c].slot.value) else ConnectionClosed;
      With(s, c, s.calls[c].(phase := Returned(outcome)))
    case Abandon(c) => With(s, c, s.calls[c].(phase := Returned(Abandoned)))
    case Take(c) =>
      With(s, c, s.calls[c].(queue := s.calls[c].queue[1..], taken := s.calls[c].taken + [s.calls[c].queue[0]]))
    case DropStream(c) => With(s, c, s.calls[c].(closed := true))
    case SetStale => s.(stale := true)
    case Receive(f) => Deliver(s, f)
    case FinishSend =>
      var c, msg := s.dispatcher.call, s.dispatcher.msg;
      if s.calls[c].closed then s.(dispatcher := Idle)
      else With(s, c, s.calls[c].(queue := s.calls[c].queue + [Some(msg)])).(dispatcher := Idle)
    case BeginClose(eof) => s.(stale := s.stale || eof, dispatcher := Closing(s.senders.Keys, eof))
    case CloseOne(id) =>
      With(s, s.senders[id], CloseCall(s.calls[s.senders[id]], s.dispatcher.eof))
        .(dispatcher := Closing(s.dispatcher.todo - {id}, s.dispatcher.eof))
    case EndClose => s.(dispatcher := Stopped)
  }

  // ----- what a step does to one call -----

  function CallAfter(s: State, step: Step, c: nat): Call
    requires Enabled(s, step) && c < |s.calls|
  {
    var k := s.calls[c];
    match step
    case RegisterSerial(d) => if d == c then k.(phase := Registered) else k
    case RegisterStream(d) => if d == c then k.(stage := Enlisted, since := |s.frames|) else k
    case Listen(d) => if d == c then k.(phase := Listening, since := |s.frames|) else k
    case SendRequest(d) => if d != c then k else if k.Serial? then k.(phase := Waiting) else k.(stage := Open)
    case FailRequest(d) =>
      if d != c then k
      else if k.Serial? then k.(phase := Returned(WriteFailed)) else k.(stage := Failed, closed := true)
    case Expire(d) => if d == c then k.(phase := Expired) else k
    case ReturnExpired(d) => if d == c then k.(phase := Returned(TimedOut)) else k
    case Wake(d) => if d == c then k.(phase := Fetching) else k
    case Fetch(d) =>
      if d != c then k
      else k.(phase := Returned(if k.slot.Some? then Responded(k.slot.value) else ConnectionClosed))
    case Abandon(d) => if d == c then k.(phase := Returned(Abandoned)) else k
    case Take(d) => if d == c then k.(queue := k.queue[1..], taken := k.taken + [k.queue[0]]) else k
    case DropStream(d) => if d == c then k.(closed := true) else k
    case Receive(f) => if f.id in s.senders && s.senders[f.id] == c then Stored(k, f.bytes) else k
    case FinishSend =>
      if s.dispatcher.call == c && !k.closed then k.(queue := k.queue + [Some(s.dispatcher.msg)]) else k
    case CloseOne(id) => if s.senders[id] == c then CloseCall(k, s.dispatcher.eof) else k
    case _ => k
  }

  // A frame for the call, if its queue has room.
  function Stored(k: Call, bytes: Payload): Call {
    if k.Serial? then k.(slot := Some(bytes), notified := k.notified || HasListener(k.phase))
    else if k.closed || |k.queue| >= k.capacity then k
    else k.(queue := k.queue + [Some(bytes)])
  }

  lemma {:induction false} CallStep(s: State, step: Step, c: nat)
    requires Enabled(s, step) && c < |s.calls|
    ensures c < |Apply(s, step).calls| && Apply(s, step).calls[c] == CallAfter(s, step, c)
  {
    hide Apply, CallAfter;
    if step.Receive? || step.FinishSend? || step.CloseOne? {
      DispatcherCallStep(s, step, c);
    } else {
      CallerCallStep(s, step, c);
    }
  }

  lemma {:induction false} DispatcherCallStep(s: State, step: Step, c: nat)
    requires Enabled(s, step) && c < |s.calls| && (step.Receive? || step.FinishSend? || step.CloseOne?)
    ensures c < |Apply(s, step).calls| && Apply(s, step).calls[c] == CallAfter(s, step, c)
  {
  }

  lemma {:induction false} CallerCallStep(s: State, step: Step, c: nat)
    requires Enabled(s, step) && c < |s.calls| && !step.Receive? && !step.FinishSend? && !step.CloseOne?
    ensures c < |Apply(s, step).calls| && Apply(s, step).calls[c] == CallAfter(s, step, c)
  {
    hide Deliver, CloseCall;
  }

  lemma {:induction false} NewCall(s: State, step: Step)
    requires Enabled(s, step)
    ensures var calls := Apply(s, step).calls;
            && |calls| == (if step.StartSerial? || step.StartStream? then |s.calls| + 1 else |s.calls|)
            && (step.StartSerial? ==> calls[|s.calls|] == Serial(s.counter, Allocated, None, false, 0, false))
            && (step.StartStream? ==> calls[|s.calls|] == Stream(s.counter, Created, step.queueLen, [], false, [], 0))
  {
  }

  lemma {:induction false} StaysStopped(s: State, step: Step)
    requires Enabled(s, step) && s.dispatcher.Stopped?
    ensures Apply(s, step).dispatcher.Stopped?
  {
  }

  // ----- the invariant -----

  // Payloads of the frames for one id, in arrival order.
  function FramesFor(frames: seq<Frame>, id: int): seq<Payload> {
    if frames == [] then []
    else
      var n := |frames| - 1;
      FramesFor(frames[..n], id) + if frames[n].id == id then [frames[n].bytes] else []
  }

  function Payloads(items: seq<Option<Payload>>): seq<Payload> {
    if items == [] then []
    else
      var n := |items| - 1;
      Payloads(items[..n]) + if items[n].Some? then [items[n].value] else []
  }

  predicate Entry(s: State, c: nat)
    requires c < |s.calls|
  {
    s.calls[c].id in s.senders && s.senders[s.calls[c].id] == c
  }

  // The message the dispatcher is about to queue for call c.
  function InHand(s: State, c: nat): seq<Payload> {
    if s.dispatcher.Sending? && s.dispatcher.call == c then [s.dispatcher.msg] else []
  }

  // The phases in which a serial call has its entry: from registration until it removes it itself.
  predicate HoldsEntry(p: SerialPhase) {
    Pending(p) || p == Returned(WriteFailed) || p == Returned(Abandoned)
  }

  predicate SerialOk(k: Call, entry: bool, frames: seq<Frame>, stale: bool)
    requires k.Serial?
  {
    && (entry <==> HoldsEntry(k.phase))
    && (k.slot.Some? ==> Frame(k.id, k.slot.value) in frames)
    && (k.phase.Returned? && k.phase.outcome.Responded? ==> Frame(k.id, k.phase.outcome.bytes) in frames)
    && (k.phase == Returned(TimedOut) ==> stale)
    && (HasListener(k.phase) ==> k.since <= |frames|)
    && (HasListener(k.phase) ==> (k.notified <==> k.heardClose || FramesFor(frames[k.since..], k.id) != []))
    && (k.phase.Allocated? || k.phase.Registered? ==> !k.notified && !k.heardClose)
  }

  predicate StreamOk(k: Call, entry: bool, frames: seq<Frame>, inHand: seq<Payload>)
    requires k.Stream?
  {
    && 0 < k.capacity && |k.queue| <= k.capacity
    && (k.stage.Created? ==> !entry && !k.closed && k.queue == [] && k.taken == [] && inHand == [])
    && (!k.stage.Created? && !k.closed ==>
          && entry
          && k.since <= |frames|
          && Payloads(k.taken + k.queue) + inHand == FramesFor(frames[k.since..], k.id))
  }

  predicate CallOk(k: Call, entry: bool, frames: seq<Frame>, inHand: seq<Payload>, stale: bool) {
    if k.Serial? then SerialOk(k, entry, frames, stale) && inHand == [] else StreamOk(k, entry, frames, inHand)
  }

  ghost predicate Inv(s: State) {
    && s.counter == IdOf(|s.calls|)
    && (forall c :: 0 <= c < |s.calls| ==> s.calls[c].id == IdOf(c))
    && (forall id :: id in s.senders ==> s.senders[id] < |s.calls| && s.calls[s.senders[id]].id == id)
    && (forall c :: 0 <= c < |s.calls| ==> CallOk(s.calls[c], Entry(s, c), s.frames, InHand(s, c), s.stale))
    && (s.dispatcher.Sending? ==> IsStream(s, s.dispatcher.call) && Entry(s, s.dispatcher.call))
    && (s.dispatcher.Closing? ==> s.dispatcher.todo <= s.senders.Keys)
    && (s.dispatcher.Closing? && s.dispatcher.eof ==> s.stale)
  }

  // ----- every step keeps it -----

  lemma {:induction false} WrapNext(n: nat)
    ensures Wrap32(IdOf(n) + 1) == IdOf(n + 1)
  {
    var x := 1 + n + TWO31;
    ModNext(x % TWO32, x / TWO32);
    assert x == TWO32 * (x / TWO32) + x % TWO32;
  }

  lemma {:induction false} ModNext(r: int, q: int)
    requires 0 <= r < TWO32
    ensures (TWO32 * q + r + 1) % TWO32 == (r + 1) % TWO32
  {
    ModOf(q, r);
    if r + 1 < TWO32 {
      ModOf(q, r + 1);
    } else {
      ModOf(q + 1, 0);
    }
  }

  lemma {:induction false} ModOf(q: int, r: int)
    requires 0 <= r < TWO32
    ensures (TWO32 * q + r) % TWO32 == r
  {
    var x := TWO32 * q + r;
    assert TWO32 * (x / TWO32 - q) == r - x % TWO32;
    assert x / TWO32 - q == 0;
  }

  lemma {:induction false} OtherEntry(s: State, c: nat, c2: nat)
    requires Inv(s) && |s.calls| <= TWO32 && c < |s.calls| && c2 < |s.calls| && c != c2
    ensures s.calls[c].id != s.calls[c2].id
  {
    if c < c2 { IdsDistinct(c, c2); } else { IdsDistinct(c2, c); }
  }

  // A step that changes only call c, and senders at most at its id.
  lemma {:induction false} LocalStep(s: State, s': State, c: nat)
    requires Inv(s) && |s.calls| <= TWO32 && c < |s.calls|
    requires s'.counter == s.counter && s'.frames == s.frames && s'.dispatcher == s.dispatcher
    requires s.stale ==> s'.stale
    requires |s'.calls| == |s.calls| && s'.calls[c].id == s.calls[c].id
    requires forall i :: 0 <= i < |s.calls| && i != c ==> s'.calls[i] == s.calls[i]
    requires forall id :: id != s.calls[c].id ==> (id in s'.senders <==> id in s.senders)
    requires forall id :: id != s.calls[c].id && id in s.senders ==> s'.senders[id] == s.senders[id]
    requires s.calls[c].id in s'.senders ==> s'.senders[s.calls[c].id] == c
    requires CallOk(s'.calls[c], Entry(s', c), s'.frames, InHand(s', c), s'.stale)
    requires s.dispatcher.Sending? && s.dispatcher.call == c ==> s'.calls[c].Stream? && Entry(s', c)
    requires s.dispatcher.Closing? ==> s'.senders == s.senders
    ensures Inv(s')
  {
    forall i | 0 <= i < |s.calls|
      ensures s'.calls[i].id == IdOf(i)
      ensures CallOk(s'.calls[i], Entry(s', i), s'.frames, InHand(s', i), s'.stale)
    {
      if i != c { OtherEntry(s, i, c); }
    }
    if s.dispatcher.Sending? && s.dispatcher.call != c { OtherEntry(s, s.dispatcher.call, c); }
  }

  // An id in senders leads to the call with that id.
  lemma {:induction false} OwnEntry(s: State, c: nat)
    requires Inv(s) && |s.calls| <= TWO32 && c < |s.calls|
    ensures s.calls[c].id in s.senders ==> s.senders[s.calls[c].id] == c
  {
    if s.calls[c].id in s.senders && s.senders[s.calls[c].id] != c {
      OtherEntry(s, c, s.senders[s.calls[c].id]);
    }
  }

  lemma {:induction false} StartKeepsInv(s: State, step: Step)
    requires Inv(s) && Enabled(s, step) && (step.StartSerial? || step.StartStream?)
    ensures Inv(Apply(s, step))
  {
    var s' := Apply(s, step);
    WrapNext(|s.calls|);
    forall c | 0 <= c < |s'.calls|
      ensures s'.calls[c].id == IdOf(c)
      ensures CallOk(s'.calls[c], Entry(s', c), s'.frames, InHand(s', c), s'.stale)
    {
      assert c < |s.calls| ==> s'.calls[c] == s.calls[c] && Entry(s', c) == Entry(s, c);
    }
  }

  // Steps in which a serial caller puts or removes its entry.
  lemma {:induction false} SerialLocksKeepInv(s: State, step: Step, c: nat)
    requires Inv(s) && |s.calls| <= TWO32 && Enabled(s, step) && IsSerial(s, c)
    requires step == RegisterSerial(c) || step == Expire(c) || step == Wake(c)
    ensures Inv(Apply(s, step))
  {
    hide FramesFor;
    OwnEntry(s, c);
    assert CallOk(s.calls[c], Entry(s, c), s.frames, InHand(s, c), s.stale);
    LocalStep(s, Apply(s, step), c);
  }

  // The other steps of a serial caller.
  lemma {:induction false} SerialKeepsInv(s: State, step: Step, c: nat)
    requires Inv(s) && |s.calls| <= TWO32 && Enabled(s, step) && IsSerial(s, c)
    requires step == Listen(c) || step == SendRequest(c) || step == FailRequest(c) || step == ReturnExpired(c)
             || step == Fetch(c) || step == Abandon(c)
    ensures Inv(Apply(s, step))
  {
    hide FramesFor;
    OwnEntry(s, c);
    assert CallOk(s.calls[c], Entry(s, c), s.frames, InHand(s, c), s.stale);
    assert s.frames[|s.frames|..] == [];
    NoFrames(s.calls[c].id);
    LocalStep(s, Apply(s, step), c);
  }

  lemma {:induction false} NoFrames(id: int)
    ensures FramesFor([], id) == []
  {
  }

  // Steps of a stream that leave the set of senders alone.
  lemma {:induction false} StreamKeepsInv(s: State, step: Step, c: nat)
    requires Inv(s) && |s.calls| <= TWO32 && Enabled(s, step) && IsStream(s, c)
    requires step in {SendRequest(c), FailRequest(c), Take(c), DropStream(c)}
    ensures Inv(Apply(s, step))
  {
    hide FramesFor, Payloads;
    OwnEntry(s, c);
    var k := s.calls[c];
    assert CallOk(k, Entry(s, c), s.frames, InHand(s, c), s.stale);
    if step.Take? {
      assert (k.taken + [k.queue[0]]) + k.queue[1..] == k.taken + k.queue;
    }
    LocalStep(s, Apply(s, step), c);
  }

  // Registration of a stream sweeps out the queues whose receiver is gone, and no others.
  lemma {:induction false} RegisterStreamKeepsInv(s: State, c: nat)
    requires Inv(s) && |s.calls| <= TWO32 && Enabled(s, RegisterStream(c))
    ensures Inv(Apply(s, RegisterStream(c)))
  {
    hide FramesFor, Payloads;
    var s' := Apply(s, RegisterStream(c));
    forall i | 0 <= i < |s.calls|
      ensures s'.calls[i].id == IdOf(i)
      ensures CallOk(s'.calls[i], Entry(s', i), s'.frames, InHand(s', i), s'.stale)
    {
      assert CallOk(s.calls[i], Entry(s, i), s.frames, InHand(s, i), s.stale);
      OwnEntry(s, i);
      if i != c {
        OtherEntry(s, i, c);
      } else {
        assert s.frames[|s.frames|..] == [];
        NoFrames(s.calls[c].id);
        NoPayloads();
      }
    }
  }

  lemma {:induction false} NoPayloads()
    ensures Payloads([]) == [] && Payloads([] + []) == []
  {
  }

  lemma {:induction false} PayloadsSnoc(items: seq<Option<Payload>>, item: Option<Payload>)
    ensures Payloads(items + [item]) == Payloads(items) + if item.Some? then [item.value] else []
  {
    assert (items + [item])[..|items|] == items;
  }

  lemma {:induction false} FramesSnoc(frames: seq<Frame>, f: Frame, since: nat, id: int)
    requires since <= |frames|
    ensures FramesFor((frames + [f])[since..], id)
         == FramesFor(frames[since..], id) + if f.id == id then [f.bytes] else []
  {
    var late := frames[since..];
    assert (frames + [f])[since..] == late + [f];
    assert (late + [f])[..|late|] == late;
  }

  lemma {:induction false} QueueSnoc(taken: seq<Option<Payload>>, queue: seq<Option<Payload>>, item: Option<Payload>)
    ensures Payloads(taken + (queue + [item])) == Payloads(taken + queue) + if item.Some? then [item.value] else []
  {
    assert taken + (queue + [item]) == (taken + queue) + [item];
    PayloadsSnoc(taken + queue, item);
  }

  lemma {:induction false} FinishSendKeepsInv(s: State)
    requires Inv(s) && |s.calls| <= TWO32 && Enabled(s, FinishSend)
    ensures Inv(Apply(s, FinishSend))
  {
    hide FramesFor, Payloads;
    var s' := Apply(s, FinishSend);
    var c, msg := s.dispatcher.call, s.dispatcher.msg;
    QueueSnoc(s.calls[c].taken, s.calls[c].queue, Some(msg));
    forall i | 0 <= i < |s.calls|
      ensures s'.calls[i].id == IdOf(i)
      ensures CallOk(s'.calls[i], Entry(s', i), s'.frames, InHand(s', i), s'.stale)
    {
      assert CallOk(s.calls[i], Entry(s, i), s.frames, InHand(s, i), s.stale);
      assert Entry(s', i) == Entry(s, i);
    }
  }

  // What a frame does to one call.
  lemma {:induction false} DeliverTo(s: State, f: Frame, i: nat)
    requires Inv(s) && |s.calls| <= TWO32 && s.dispatcher.Idle? && i < |s.calls|
    ensures var s' := Deliver(s, f);
            && |s'.calls| == |s.calls| && s'.senders == s.senders && s'.stale == s.stale
            && s'.calls[i].id == s.calls[i].id
            && (f.id != s.calls[i].id ==> s'.calls[i] == s.calls[i] && InHand(s', i) == [])
            && CallOk(s'.calls[i], Entry(s', i), s'.frames, InHand(s', i), s'.stale)
  {
    hide FramesFor, Payloads;
    OwnEntry(s, i);
    if f.id in s.senders && s.senders[f.id] != i { OtherEntry(s, i, s.senders[f.id]); }
    assert CallOk(s.calls[i], Entry(s, i), s.frames, InHand(s, i), s.stale);
    DeliverEffect(s, f, i);
    hide Inv, Deliver, CallOk;
    StoredOk(s.calls[i], Entry(s, i), s.frames, f, s.stale);
  }

  // Whether the frame has to wait for room in the queue of the call.
  predicate WaitsForRoom(k: Call) {
    k.Stream? && !k.closed && |k.queue| >= k.capacity
  }

  lemma {:induction false} DeliverEffect(s: State, f: Frame, i: nat)
    requires s.dispatcher.Idle? && i < |s.calls| && (f.id in s.senders ==> s.senders[f.id] < |s.calls|)
    ensures var s' := Deliver(s, f);
            var hit := f.id in s.senders && s.senders[f.id] == i;
            && |s'.calls| == |s.calls| && s'.senders == s.senders && s'.stale == s.stale
            && s'.frames == s.frames + [f] && s'.calls[i].id == s.calls[i].id
            && s'.calls[i] == (if hit then Stored(s.calls[i], f.bytes) else s.calls[i])
            && InHand(s', i) == (if hit && WaitsForRoom(s.calls[i]) then [f.bytes] else [])
  {
  }

  // A call in order stays so when a frame for it, or for another, arrives.
  lemma {:induction false} StoredOk(k: Call, entry: bool, frames: seq<Frame>, f: Frame, stale: bool)
    requires CallOk(k, entry, frames, [], stale)
    ensures var hit := f.id == k.id && entry;
            CallOk(if hit then Stored(k, f.bytes) else k, entry, frames + [f],
                   if hit && WaitsForRoom(k) then [f.bytes] else [], stale)
  {
    hide FramesFor, Payloads;
    if k.since <= |frames| { FramesSnoc(frames, f, k.since, k.id); }
    if k.Stream? { QueueSnoc(k.taken, k.queue, Some(f.bytes)); }
    assert Frame(f.id, f.bytes) in frames + [f];
    assert forall g :: g in frames ==> g in frames + [f];
  }

  lemma {:induction false} ReceiveKeepsInv(s: State, f: Frame)
    requires Inv(s) && |s.calls| <= TWO32 && Enabled(s, Receive(f))
    ensures Inv(Apply(s, Receive(f)))
  {
    hide CallOk;
    var s' := Apply(s, Receive(f));
    forall i | 0 <= i < |s.calls|
      ensures s'.calls[i].id == IdOf(i)
      ensures CallOk(s'.calls[i], Entry(s', i), s'.frames, InHand(s', i), s'.stale)
    {
      DeliverTo(s, f, i);
    }
  }

  lemma {:induction false} CloseOneKeepsInv(s: State, id: int)
    requires Inv(s) && |s.calls| <= TWO32 && Enabled(s, CloseOne(id))
    ensures Inv(Apply(s, CloseOne(id)))
  {
    hide FramesFor, Payloads;
    var s' := Apply(s, CloseOne(id));
    var c := s.senders[id];
    if s.calls[c].Stream? { QueueSnoc(s.calls[c].taken, s.calls[c].queue, None); }
    forall i | 0 <= i < |s.calls|
      ensures s'.calls[i].id == IdOf(i)
      ensures CallOk(s'.calls[i], Entry(s', i), s'.frames, InHand(s', i), s'.stale)
    {
      assert CallOk(s.calls[i], Entry(s, i), s.frames, InHand(s, i), s.stale);
      assert Entry(s', i) == Entry(s, i);
    }
  }

  lemma {:induction false} QuietKeepsInv(s: State, step: Step)
    requires Inv(s) && Enabled(s, step) && (step.SetStale? || step.BeginClose? || step.EndClose?)
    ensures Inv(Apply(s, step))
  {
    hide FramesFor, Payloads;
    var s' := Apply(s, step);
    forall i | 0 <= i < |s.calls|
      ensures CallOk(s'.calls[i], Entry(s', i), s'.frames, InHand(s', i), s'.stale)
    {
      assert CallOk(s.calls[i], Entry(s, i), s.frames, InHand(s, i), s.stale);
      assert Entry(s', i) == Entry(s, i) && InHand(s', i) == InHand(s, i);
    }
  }

  lemma {:induction false} StepKeepsInv(s: State, step: Step)
    requires Inv(s) && Enabled(s, step) && |s.calls| <= TWO32
    ensures Inv(Apply(s, step))
  {
    hide Inv, Apply;
    match step
    case StartSerial => StartKeepsInv(s, step);
    case StartStream(_) => StartKeepsInv(s, step);
    case RegisterStream(c) => RegisterStreamKeepsInv(s, c);
    case SendRequest(c) => if IsSerial(s, c) { SerialKeepsInv(s, step, c); } else { StreamKeepsInv(s, step, c); }
    case FailRequest(c) => if IsSerial(s, c) { SerialKeepsInv(s, step, c); } else { StreamKeepsInv(s, step, c); }
    case Take(c) => StreamKeepsInv(s, step, c);
    case DropStream(c) => StreamKeepsInv(s, step, c);
    case SetStale => QuietKeepsInv(s, step);
    case Receive(f) => ReceiveKeepsInv(s, f);
    case FinishSend => FinishSendKeepsInv(s);
    case BeginClose(_) => QuietKeepsInv(s, step);
    case CloseOne(id) => CloseOneKeepsInv(s, id);
    case EndClose => QuietKeepsInv(s, step);
    case RegisterSerial(c) => SerialLocksKeepInv(s, step, c);
    case Listen(c) => SerialKeepsInv(s, step, c);
    case Expire(c) => SerialLocksKeepInv(s, step, c);
    case ReturnExpired(c) => SerialKeepsInv(s, step, c);
    case Wake(c) => SerialLocksKeepInv(s, step, c);
    case Fetch(c) => SerialKeepsInv(s, step, c);
    case Abandon(c) => SerialKeepsInv(s, step, c);
  }

  // ----- runs -----

  // The states a schedule passes through, as far as its steps are enabled.
  function Reach(steps: seq<Step>): (s: State) {
    if steps == [] then Init()
    else
      var n := |steps| - 1;
      var s := Reach(steps[..n]);
      if Enabled(s, steps[n]) then Apply(s, steps[n]) else s
  }

  lemma {:induction false} CallsGrow(s: State, step: Step)
    requires Enabled(s, step)
    ensures |s.calls| <= |Apply(s, step).calls|
    ensures s.stale ==> Apply(s, step).stale
  {
  }

  lemma {:induction false} ReachableInv(steps: seq<Step>)
    requires |Reach(steps).calls| <= TWO32
    ensures Inv(Reach(steps))
  {
    if steps != [] {
      var n := |steps| - 1;
      var s := Reach(steps[..n]);
      if Enabled(s, steps[n]) { CallsGrow(s, steps[n]); }
      ReachableInv(steps[..n]);
      if Enabled(s, steps[n]) { StepKeepsInv(s, steps[n]); }
    }
  }

  // A serial caller that returns Ok returns the decoding of a frame that carried its own id.
  lemma {:induction false} OkCarriesOwnId(steps: seq<Step>, c: nat)
    requires |Reach(steps).calls| <= TWO32 && IsSerial(Reach(steps), c)
    requires Reach(steps).calls[c].phase.Returned? && Reach(steps).calls[c].phase.outcome.Responded?
    ensures var s := Reach(steps);
            Frame(IdOf(c), s.calls[c].phase.outcome.bytes) in s.frames
  {
    hide Reach;
    ReachableInv(steps);
    var s := Reach(steps);
    assert CallOk(s.calls[c], Entry(s, c), s.frames, InHand(s, c), s.stale);
  }

  // A frame for another id, known or not, changes nothing that a call can see.
  lemma {:induction false} ForeignFrameInvisible(steps: seq<Step>, f: Frame, c: nat)
    requires |Reach(steps).calls| <= TWO32 && c < |Reach(steps).calls| && Enabled(Reach(steps), Receive(f))
    requires f.id != IdOf(c)
    ensures var s := Reach(steps);
            var s' := Apply(s, Receive(f));
            && s'.calls[c] == s.calls[c] && (Entry(s', c) <==> Entry(s, c))
            && (f.id !in s.senders ==> s' == s.(frames := s.frames + [f]))
  {
    hide Reach;
    ReachableInv(steps);
    DeliverTo(Reach(steps), f, c);
  }

  // A frame that finds the queue of an open stream full.
  predicate FindsQueueFull(s: State, f: Frame) {
    && f.id in s.senders && IsStream(s, s.senders[f.id])
    && var k := s.calls[s.senders[f.id]];
       !k.closed && |k.queue| >= k.capacity
  }

  // What a frame for another id can do to a call is to hold the lock: its steps that need it stay
  // enabled if and only if the frame does not find a full queue.
  lemma {:induction false} ForeignFrameBlocksIff(steps: seq<Step>, f: Frame, c: nat, step: Step)
    requires |Reach(steps).calls| <= TWO32 && IsSerial(Reach(steps), c) && Enabled(Reach(steps), Receive(f))
    requires f.id != IdOf(c) && Enabled(Reach(steps), step)
    requires step == RegisterSerial(c) || step == Expire(c) || step == Wake(c)
    ensures Enabled(Apply(Reach(steps), Receive(f)), step) <==> !FindsQueueFull(Reach(steps), f)
  {
    hide Reach;
    ReachableInv(steps);
    IdAndEntry(Reach(steps), f.id, c);
    hide Inv;
    FullQueueHoldsLock(Reach(steps), f);
    hide FindsQueueFull, Apply;
    CallStep(Reach(steps), Receive(f), c);
  }

  lemma {:induction false} IdAndEntry(s: State, id: int, c: nat)
    requires Inv(s) && |s.calls| <= TWO32 && c < |s.calls|
    ensures s.calls[c].id == IdOf(c)
    ensures id in s.senders ==> s.senders[id] < |s.calls| && (s.senders[id] == c ==> id == IdOf(c))
  {
    hide CallOk;
  }

  lemma {:induction false} FullQueueHoldsLock(s: State, f: Frame)
    requires Enabled(s, Receive(f)) && (f.id in s.senders ==> s.senders[f.id] < |s.calls|)
    ensures LockFree(Apply(s, Receive(f))) <==> !FindsQueueFull(s, f)
  {
  }

  // A serial call has an entry in senders exactly while it is registered and has not removed it:
  // waiting calls keep theirs, and only a failed write or a dropped future leaves one behind.
  lemma {:induction false} SerialEntryIff(steps: seq<Step>, c: nat)
    requires |Reach(steps).calls| <= TWO32 && IsSerial(Reach(steps), c)
    ensures var s := Reach(steps);
            && (Entry(s, c) <==> HoldsEntry(s.calls[c].phase))
            && (s.calls[c].phase == Returned(TimedOut) ==> s.stale)
  {
    hide Reach;
    ReachableInv(steps);
    var s := Reach(steps);
    assert CallOk(s.calls[c], Entry(s, c), s.frames, InHand(s, c), s.stale);
  }

  // A frame for a call that listens is stored in its slot and wakes it: no response is missed.
  lemma {:induction false} ResponseWakesListener(steps: seq<Step>, f: Frame, c: nat)
    requires |Reach(steps).calls| <= TWO32 && IsSerial(Reach(steps), c)
    requires HasListener(Reach(steps).calls[c].phase) && f.id == IdOf(c) && Enabled(Reach(steps), Receive(f))
    ensures var k := Apply(Reach(steps), Receive(f)).calls[c];
            k.Serial? && k.slot == Some(f.bytes) && k.notified && k.phase == Reach(steps).calls[c].phase
  {
    hide Reach;
    ReachableInv(steps);
    var s := Reach(steps);
    assert CallOk(s.calls[c], Entry(s, c), s.frames, InHand(s, c), s.stale);
    OwnEntry(s, c);
  }

  // Every response that came since the caller listened has woken it.
  lemma {:induction false} NoLostWakeup(steps: seq<Step>, c: nat)
    requires |Reach(steps).calls| <= TWO32 && IsSerial(Reach(steps), c) && HasListener(Reach(steps).calls[c].phase)
    ensures var s := Reach(steps);
            s.calls[c].since <= |s.frames|
            && (FramesFor(s.frames[s.calls[c].since..], IdOf(c)) != [] ==> s.calls[c].notified)
  {
    hide Reach;
    ReachableInv(steps);
    var s := Reach(steps);
    assert CallOk(s.calls[c], Entry(s, c), s.frames, InHand(s, c), s.stale);
  }

  // An open stream has read and queued exactly the frames for its id since registration, in order.
  lemma {:induction false} StreamInOrder(steps: seq<Step>, c: nat)
    requires |Reach(steps).calls| <= TWO32 && IsStream(Reach(steps), c)
    ensures var s := Reach(steps);
            var k := s.calls[c];
            && |k.queue| <= k.capacity
            && (k.stage.Open? && !k.closed ==>
                  && k.since <= |s.frames|
                  && Payloads(k.taken + k.queue) + InHand(s, c) == FramesFor(s.frames[k.since..], IdOf(c)))
  {
    hide Reach;
    ReachableInv(steps);
    var s := Reach(steps);
    assert CallOk(s.calls[c], Entry(s, c), s.frames, InHand(s, c), s.stale);
  }

  // Once stale, always stale.
  lemma {:induction false} StaleStays(steps: seq<Step>, more: seq<Step>)
    requires Reach(steps).stale
    ensures Reach(steps + more).stale
  {
    hide Apply, Enabled;
    if more == [] {
      assert steps + more == steps;
    } else {
      var n := |more| - 1;
      StaleStays(steps, more[..n]);
      var all := steps + more;
      assert all[..|all| - 1] == steps + more[..n];
      var s := Reach(all[..|all| - 1]);
      if Enabled(s, all[|all| - 1]) { CallsGrow(s, all[|all| - 1]); }
    }
  }

  // The step marks the connection as unusable: a caller timed out, the peer disconnected or someone said so.
  predicate MarksStale(s: State, step: Step) {
    step.SetStale? || (step == BeginClose(true) && s.dispatcher.Idle?)
    || (step.ReturnExpired? && IsSerial(s, step.c) && s.calls[step.c].phase.Expired?)
  }

  lemma {:induction false} StaleStep(s: State, step: Step)
    ensures MarksStale(s, step) ==> Enabled(s, step)
    ensures Enabled(s, step) ==> (Apply(s, step).stale <==> s.stale || MarksStale(s, step))
  {
    hide CloseCall;
  }

  // Over every run, the connection is stale if and only if such a step was taken.
  lemma {:induction false} StaleIff(steps: seq<Step>)
    ensures Reach(steps).stale <==> exists n :: 0 <= n < |steps| && MarksStale(Reach(steps[..n]), steps[n])
  {
    hide Apply, Enabled, MarksStale;
    if steps != [] {
      var n := |steps| - 1;
      assert forall m :: 0 <= m < n ==> steps[..n][..m] == steps[..m];
      StaleIff(steps[..n]);
      StaleStep(Reach(steps[..n]), steps[n]);
    }
  }

  // The slot lock is never contended: when a caller reads its slot, senders no longer leads there.
  lemma {:induction false} SlotLockFree(steps: seq<Step>, c: nat)
    requires |Reach(steps).calls| <= TWO32 && IsSerial(Reach(steps), c) && Reach(steps).calls[c].phase.Fetching?
    ensures var s := Reach(steps);
            forall id :: id in s.senders ==> s.senders[id] != c
  {
    hide Reach;
    ReachableInv(steps);
    var s := Reach(steps);
    assert CallOk(s.calls[c], Entry(s, c), s.frames, InHand(s, c), s.stale);
  }

  // What one step does to the record of a heard close.
  lemma {:induction false} HeardCloseStep(s: State, step: Step, c: nat)
    requires Enabled(s, step) && IsSerial(s, c)
    ensures var k := Apply(s, step).calls[c];
            k.Serial? && (k.heardClose <==> s.calls[c].heardClose || ClosesListener(s, step, c))
  {
    hide Apply;
    CallStep(s, step, c);
  }

  // The step visits the entry of a serial call that listens.
  predicate ClosesListener(s: State, step: Step, c: nat) {
    && step.CloseOne? && Enabled(s, step) && s.senders[step.id] == c
    && s.calls[c].Serial? && HasListener(s.calls[c].phase)
  }

  // Over every run, a close was heard if and only if it reached the call while it listened.
  lemma {:induction false} HeardCloseIff(steps: seq<Step>, c: nat)
    requires IsSerial(Reach(steps), c)
    ensures Reach(steps).calls[c].heardClose <==>
            exists n :: 0 <= n < |steps| && ClosesListener(Reach(steps[..n]), steps[n], c)
  {
    hide Apply, Enabled, ClosesListener;
    if steps != [] {
      var n := |steps| - 1;
      var s := Reach(steps[..n]);
      assert forall m :: 0 <= m < n ==> steps[..n][..m] == steps[..m];
      EarlierCall(s, steps[n], c);
      if IsSerial(s, c) {
        HeardCloseIff(steps[..n], c);
        if Enabled(s, steps[n]) {
          HeardCloseStep(s, steps[n], c);
        }
        ClosingIsEnabled(s, steps[n], c);
      } else {
        NotYetClosed(steps, c, n);
      }
    }
  }

  lemma {:induction false} ClosingIsEnabled(s: State, step: Step, c: nat)
    ensures ClosesListener(s, step, c) ==> Enabled(s, step) && IsSerial(s, c)
  {
  }

  // A serial call comes from one, or from the step that starts it.
  lemma {:induction false} EarlierCall(s: State, step: Step, c: nat)
    ensures Enabled(s, step) && IsSerial(Apply(s, step), c) && !IsSerial(s, c) ==>
            c == |s.calls| && !Apply(s, step).calls[c].heardClose
    ensures Enabled(s, step) && IsSerial(s, c) ==> IsSerial(Apply(s, step), c)
  {
    hide Apply;
    if Enabled(s, step) {
      NewCall(s, step);
      if c < |s.calls| {
        CallStep(s, step, c);
      }
    }
  }

  lemma {:induction false} NotYetClosed(steps: seq<Step>, c: nat, n: nat)
    requires n <= |steps| && !IsSerial(Reach(steps[..n]), c)
    ensures forall m :: 0 <= m <= n && m < |steps| ==> !ClosesListener(Reach(steps[..m]), steps[m], c)
  {
    hide Apply, Enabled;
    forall m | 0 <= m <= n && m < |steps| ensures !ClosesListener(Reach(steps[..m]), steps[m], c) {
      ClosingIsEnabled(Reach(steps[..m]), steps[m], c);
      if IsSerial(Reach(steps[..m]), c) {
        SerialStays(steps, m, n, c);
      }
    }
  }

  lemma {:induction false} SerialStays(steps: seq<Step>, m: nat, n: nat, c: nat)
    requires m <= n <= |steps| && IsSerial(Reach(steps[..m]), c)
    ensures IsSerial(Reach(steps[..n]), c)
    decreases n
  {
    hide Apply, Enabled;
    if m < n {
      SerialStays(steps, m, n - 1, c);
      assert steps[..n][..n - 1] == steps[..n - 1];
      EarlierCall(Reach(steps[..n - 1]), steps[n - 1], c);
    }
  }

  // Over every run, once the dispatcher has stopped, a waiting call can wake if and only if a close
  // reached it while it listened or a frame for it came since it listens.
  lemma {:induction false} CloseWakesIff(steps: seq<Step>, c: nat)
    requires |Reach(steps).calls| <= TWO32 && IsSerial(Reach(steps), c)
    requires Reach(steps).dispatcher.Stopped? && Reach(steps).calls[c].phase.Waiting?
    ensures var s := Reach(steps);
            && s.calls[c].since <= |s.frames|
            && (Enabled(s, Wake(c)) <==> !Stranded(s, c))
            && (Enabled(s, Wake(c)) <==>
                  || (exists n :: 0 <= n < |steps| && ClosesListener(Reach(steps[..n]), steps[n], c))
                  || FramesFor(s.frames[s.calls[c].since..], IdOf(c)) != [])
  {
    hide Reach, ClosesListener;
    ReachableInv(steps);
    HeardCloseIff(steps, c);
    var s := Reach(steps);
    assert CallOk(s.calls[c], Entry(s, c), s.frames, InHand(s, c), s.stale);
  }

  // A serial caller that nothing will wake: the dispatcher has stopped and has not notified it.
  predicate Stranded(s: State, c: nat) {
    && s.dispatcher.Stopped? && IsSerial(s, c)
    && var k := s.calls[c];
       || ((k.phase.Allocated? || Pending(k.phase)) && !k.notified)
       || k.phase.Expired?
       || (k.phase.Returned? && !k.phase.outcome.Responded? && !k.phase.outcome.ConnectionClosed?)
  }

  // A call that starts after the dispatcher has stopped is stranded: no close will visit it.
  lemma {:induction false} LateCallStranded(s: State)
    requires s.dispatcher.Stopped?
    ensures Enabled(s, StartSerial) && Stranded(Apply(s, StartSerial), |s.calls|)
  {
  }

  // So is one that had not listened when the dispatcher stopped, in every run.
  lemma {:induction false} UnheardStranded(steps: seq<Step>, c: nat)
    requires |Reach(steps).calls| <= TWO32 && IsSerial(Reach(steps), c) && Reach(steps).dispatcher.Stopped?
    requires Reach(steps).calls[c].phase.Allocated? || Reach(steps).calls[c].phase.Registered?
    ensures Stranded(Reach(steps), c)
  {
    hide Reach;
    ReachableInv(steps);
    var s := Reach(steps);
    assert CallOk(s.calls[c], Entry(s, c), s.frames, InHand(s, c), s.stale);
  }

  lemma {:induction false} ClosedUnheard(s: State, id: int)
    requires Enabled(s, CloseOne(id)) && IsSerial(s, s.senders[id])
    requires s.calls[s.senders[id]].phase.Registered? && !s.calls[s.senders[id]].notified
    requires s.dispatcher.todo == {id}
    ensures var c := s.senders[id];
            var closed := Apply(s, CloseOne(id));
            && Enabled(closed, EndClose)
            && var stopped := Apply(closed, EndClose);
               stopped.dispatcher.Stopped? && IsSerial(stopped, c)
               && stopped.calls[c].phase.Registered? && !stopped.calls[c].notified
  {
    var c := s.senders[id];
    assert Apply(s, CloseOne(id)).calls[c] == CloseCall(s.calls[c], s.dispatcher.eof);
  }

  lemma {:induction false} WaitsUnheard(s: State, c: nat)
    requires s.dispatcher.Stopped? && IsSerial(s, c) && s.calls[c].phase.Registered? && !s.calls[c].notified
    ensures Enabled(s, Listen(c))
    ensures var heard := Apply(s, Listen(c));
            Enabled(heard, SendRequest(c))
            && Stranded(Apply(heard, SendRequest(c)), c) && Apply(heard, SendRequest(c)).calls[c].phase.Waiting?
  {
  }

  // A close between registration and listen is missed: the caller goes on to wait, unnotified.
  lemma {:induction false} MissedClose(s: State, id: int)
    requires Enabled(s, CloseOne(id)) && IsSerial(s, s.senders[id])
    requires s.calls[s.senders[id]].phase.Registered? && !s.calls[s.senders[id]].notified
    requires s.dispatcher.todo == {id}
    ensures var c := s.senders[id];
            var closed := Apply(s, CloseOne(id));
            && Enabled(closed, EndClose)
            && Enabled(Apply(closed, EndClose), Listen(c))
            && var heard := Apply(Apply(closed, EndClose), Listen(c));
               Enabled(heard, SendRequest(c))
               && Stranded(Apply(heard, SendRequest(c)), c) && Apply(heard, SendRequest(c)).calls[c].phase.Waiting?
  {
    ClosedUnheard(s, id);
    var stopped := Apply(Apply(s, CloseOne(id)), EndClose);
    hide Apply, Stranded;
    WaitsUnheard(stopped, s.senders[id]);
  }

  lemma {:induction false} StrandedStep(s: State, step: Step, c: nat)
    requires Stranded(s, c) && Enabled(s, step)
    ensures Stranded(Apply(s, step), c)
  {
    hide Apply;
    CallStep(s, step, c);
    StaysStopped(s, step);
  }

  // From then on, in every run, only its timeout or dropping its future ends the wait.
  lemma {:induction false} StrandedStays(steps: seq<Step>, more: seq<Step>, c: nat)
    requires Stranded(Reach(steps), c)
    ensures Stranded(Reach(steps + more), c)
  {
    hide Stranded, Enabled, Apply;
    if more == [] {
      assert steps + more == steps;
    } else {
      var n := |more| - 1;
      StrandedStays(steps, more[..n], c);
      var all := steps + more;
      assert all[..|all| - 1] == steps + more[..n];
      var s := Reach(all[..|all| - 1]);
      if Enabled(s, all[|all| - 1]) { StrandedStep(s, all[|all| - 1], c); }
    }
  }

  // A stream that has nothing queued when the dispatcher has stopped.
  predicate Silent(s: State, c: nat) {
    s.dispatcher.Stopped? && IsStream(s, c) && s.calls[c].queue == []
  }

  lemma {:induction false} LateStreamSilent(s: State, queueLen: nat)
    requires s.dispatcher.Stopped? && queueLen > 0
    ensures Enabled(s, StartStream(queueLen)) && Silent(Apply(s, StartStream(queueLen)), |s.calls|)
  {
  }

  lemma {:induction false} SilentStep(s: State, step: Step, c: nat)
    requires Silent(s, c) && Enabled(s, step)
    ensures Silent(Apply(s, step), c) && !Enabled(s, Take(c))
  {
    hide Apply;
    CallStep(s, step, c);
    StaysStopped(s, step);
  }

  // It never yields an item in any continuation.
  lemma {:induction false} SilentStays(steps: seq<Step>, more: seq<Step>, c: nat)
    requires Silent(Reach(steps), c)
    ensures Silent(Reach(steps + more), c) && !Enabled(Reach(steps + more), Take(c))
  {
    hide Apply;
    if more == [] {
      assert steps + more == steps;
    } else {
      var n := |more| - 1;
      SilentStays(steps, more[..n], c);
      var all := steps + more;
      assert all[..|all| - 1] == steps + more[..n];
      var s := Reach(all[..|all| - 1]);
      if Enabled(s, all[|all| - 1]) { SilentStep(s, all[|all| - 1], c); }
    }
  }

  lemma {:induction false} ReachSnoc(steps: seq<Step>, step: Step)
    requires Enabled(Reach(steps), step)
    ensures Reach(steps + [step]) == Apply(Reach(steps), step)
  {
    hide Apply, Enabled;
    assert (steps + [step])[..|steps|] == steps;
  }

  // The missed close is reachable.
  lemma {:induction false} StrandedReachable() returns (steps: seq<Step>)
    ensures Stranded(Reach(steps), 0) && Reach(steps).calls[0].phase.Waiting?
  {
    hide Reach;
    steps := [StartSerial, RegisterSerial(0), BeginClose(true)];
    FirstCallClosing();
    MissedClose(Reach(steps), 1);
    hide Apply, Enabled, Stranded;
    ReachSnoc(steps, CloseOne(1));
    steps := steps + [CloseOne(1)];
    ReachSnoc(steps, EndClose);
    steps := steps + [EndClose];
    ReachSnoc(steps, Listen(0));
    steps := steps + [Listen(0)];
    ReachSnoc(steps, SendRequest(0));
    steps := steps + [SendRequest(0)];
  }

  lemma {:induction false} FirstCallClosing()
    ensures Reach([StartSerial, RegisterSerial(0), BeginClose(true)]) ==
            State(2, [Serial(1, Registered, None, false, 0, false)], map[1 := 0], [], true, Closing({1}, true))
  {
    var first := Apply(Init(), StartSerial);
    assert first == State(2, [Serial(1, Allocated, None, false, 0, false)], map[], [], false, Idle);
    var second := Apply(first, RegisterSerial(0));
    assert second == State(2, [Serial(1, Registered, None, false, 0, false)], map[1 := 0], [], false, Idle);
    assert second.senders.Keys == {1};
    hide Apply, Enabled;
    assert [] + [StartSerial] == [StartSerial];
    ReachSnoc([], StartSerial);
    ReachSnoc([StartSerial], RegisterSerial(0));
    assert [StartSerial] + [RegisterSerial(0)] == [StartSerial, RegisterSerial(0)];
    ReachSnoc([StartSerial, RegisterSerial(0)], BeginClose(true));
    assert [StartSerial, RegisterSerial(0)] + [BeginClose(true)] == [StartSerial, RegisterSerial(0), BeginClose(true)];
  }
}
