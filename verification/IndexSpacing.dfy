/**
 How densely a run of appends is indexed between two opens (fluvio-storage, mut_index.rs).
 Batches are numbered from the open; `sizes` are their sizes and positions are prefix sums.
 */
module IndexSpacing {
  import opened OffsetIndex

  function Position(sizes: seq<nat>, i: nat): nat
    requires i <= |sizes|
  {
    if i == 0 then 0 else Position(sizes, i - 1) + sizes[i - 1]
  }

  /** The batches recorded so far and the byte accumulator. */
  datatype Track = Track(picks: seq<nat>, accumulated: nat)

  // The run of write_index calls for all batches, starting from an open with `room` free slots.
  function Follow(sizes: seq<nat>, interval: nat, room: nat): (t: Track) {
    if sizes == [] then Track([], 0)
    else
      var n := |sizes| - 1;
      var t := Follow(sizes[..n], interval, room);
      if t.accumulated < interval then Track(t.picks, t.accumulated + sizes[n])
      else if |t.picks| < room then Track(t.picks + [n], 0)
      else t
  }

  // The write_index calls of a run are the steps of MutLogIndex.WriteIndex.
  function Run(s: IndexState, interval: nat, capacity: nat, writes: seq<(Entry, nat)>): IndexState {
    if writes == [] then s
    else
      var n := |writes| - 1;
      WriteStep(Run(s, interval, capacity, writes[..n]), interval, capacity, writes[n].0, writes[n].1)
  }

  function Sizes(writes: seq<(Entry, nat)>): (r: seq<nat>)
    ensures |r| == |writes| && forall i :: 0 <= i < |r| ==> r[i] == writes[i].1
  {
    seq(|writes|, i requires 0 <= i < |writes| => writes[i].1)
  }

  function EntriesAt(writes: seq<(Entry, nat)>, picks: seq<nat>): (r: seq<Entry>)
    requires forall i :: 0 <= i < |picks| ==> picks[i] < |writes|
    ensures |r| == |picks| && forall i :: 0 <= i < |r| ==> r[i] == writes[picks[i]].0
  {
    seq(|picks|, i requires 0 <= i < |picks| => writes[picks[i]].0)
  }

  lemma {:induction false} PicksInRange(sizes: seq<nat>, interval: nat, room: nat)
    ensures var picks := Follow(sizes, interval, room).picks;
            && |picks| <= room
            && (forall i :: 0 <= i < |picks| ==> picks[i] < |sizes|)
            && (forall i, j :: 0 <= i < j < |picks| ==> picks[i] < picks[j])
  {
    if sizes != [] { PicksInRange(sizes[..|sizes| - 1], interval, room); }
  }

  // The entries added by a run are those of the picked writes, in order.
  lemma {:induction false} RunFollows(s: IndexState, interval: nat, capacity: nat, writes: seq<(Entry, nat)>)
    requires s.accumulated == 0 && |s.entries| <= capacity
    ensures var t := Follow(Sizes(writes), interval, capacity - |s.entries|);
            var s' := Run(s, interval, capacity, writes);
            && (forall i :: 0 <= i < |t.picks| ==> t.picks[i] < |writes|)
            && s'.entries == s.entries + EntriesAt(writes, t.picks)
            && s'.accumulated == t.accumulated
  {
    var room := capacity - |s.entries|;
    PicksInRange(Sizes(writes), interval, room);
    if writes == [] {
      assert Sizes(writes) == [];
    } else {
      var n := |writes| - 1;
      RunFollows(s, interval, capacity, writes[..n]);
      assert Sizes(writes)[..n] == Sizes(writes[..n]);
    }
  }

  lemma {:induction false} PositionOfPrefix(sizes: seq<nat>, n: nat, i: nat)
    requires i <= n <= |sizes|
    ensures Position(sizes[..n], i) == Position(sizes, i)
  {
    if i > 0 { PositionOfPrefix(sizes, n, i - 1); }
  }

  // Position right after the last recorded batch, where the accumulator starts to count.
  function CountedFrom(sizes: seq<nat>, picks: seq<nat>): nat
    requires forall i :: 0 <= i < |picks| ==> picks[i] < |sizes|
  {
    if picks == [] then 0 else Position(sizes, picks[|picks| - 1] + 1)
  }

  // While a slot is free, the accumulator is the distance from the last recorded batch, and it
  // exceeds the interval by less than one batch.
  ghost predicate Counting(sizes: seq<nat>, interval: nat, room: nat, t: Track) {
    && (forall i :: 0 <= i < |t.picks| ==> t.picks[i] < |sizes|)
    && (|t.picks| < room ==>
          t.accumulated == Position(sizes, |sizes|) - CountedFrom(sizes, t.picks))
    && (t.accumulated > 0 ==> |sizes| > 0)
    && (t.accumulated > 0 && |t.picks| < room ==> t.accumulated - sizes[|sizes| - 1] < interval)
  }

  lemma {:induction false} AccumulatorCounts(sizes: seq<nat>, interval: nat, room: nat)
    ensures Counting(sizes, interval, room, Follow(sizes, interval, room))
  {
    PicksInRange(sizes, interval, room);
    if sizes != [] {
      var n := |sizes| - 1;
      AccumulatorCounts(sizes[..n], interval, room);
      PicksInRange(sizes[..n], interval, room);
      var before := Follow(sizes[..n], interval, room);
      PositionOfPrefix(sizes, n, n);
      if before.picks != [] {
        PositionOfPrefix(sizes, n, before.picks[|before.picks| - 1] + 1);
      }
    }
  }

  // Consecutive recorded batches a < b: between them lie at least `interval` bytes, and the
  // batches before the last one do not reach it.
  lemma {:induction false} Spacing(sizes: seq<nat>, interval: nat, room: nat, i: nat)
    requires i + 1 < |Follow(sizes, interval, room).picks|
    ensures var picks := Follow(sizes, interval, room).picks;
            var a, b := picks[i], picks[i + 1];
            && a < b < |sizes|
            && Position(sizes, b) - Position(sizes, a) >= interval + sizes[a]
            && (interval > 0 ==> Position(sizes, b) - Position(sizes, a) < interval + sizes[a] + sizes[b - 1])
    decreases |sizes|
  {
    PicksInRange(sizes, interval, room);
    var n := |sizes| - 1;
    var before := Follow(sizes[..n], interval, room);
    PicksInRange(sizes[..n], interval, room);
    var picks := Follow(sizes, interval, room).picks;
    var a, b := picks[i], picks[i + 1];
    if i + 1 < |before.picks| {
      Spacing(sizes[..n], interval, room, i);
      PositionOfPrefix(sizes, n, a);
      PositionOfPrefix(sizes, n, b);
    } else {
      AccumulatorCounts(sizes[..n], interval, room);
      PositionOfPrefix(sizes, n, n);
      PositionOfPrefix(sizes, n, a + 1);
    }
  }

  // The first batch recorded after an open is the first one at or beyond the interval.
  lemma {:induction false} FirstRecorded(sizes: seq<nat>, interval: nat, room: nat)
    requires Follow(sizes, interval, room).picks != []
    ensures var a := Follow(sizes, interval, room).picks[0];
            && a < |sizes|
            && Position(sizes, a) >= interval
            && (interval > 0 ==> a > 0 && Position(sizes, a - 1) < interval)
    decreases |sizes|
  {
    PicksInRange(sizes, interval, room);
    var n := |sizes| - 1;
    var before := Follow(sizes[..n], interval, room);
    PicksInRange(sizes[..n], interval, room);
    if before.picks != [] {
      FirstRecorded(sizes[..n], interval, room);
      PositionOfPrefix(sizes, n, before.picks[0]);
      if before.picks[0] > 0 { PositionOfPrefix(sizes, n, before.picks[0] - 1); }
    } else {
      AccumulatorCounts(sizes[..n], interval, room);
      PositionOfPrefix(sizes, n, n);
      if n > 0 { PositionOfPrefix(sizes, n, n - 1); }
    }
  }

  // The accumulator never passes interval - 1 plus one batch size, even once the index is full.
  lemma {:induction false} AccumulatorBound(sizes: seq<nat>, interval: nat, room: nat, largest: nat)
    requires forall i :: 0 <= i < |sizes| ==> sizes[i] <= largest
    ensures var acc := Follow(sizes, interval, room).accumulated;
            acc == 0 || acc <= interval - 1 + largest
  {
    if sizes != [] { AccumulatorBound(sizes[..|sizes| - 1], interval, room, largest); }
  }

  // With a positive interval no run ever records the start of the log, so by OffsetIndex.ReopenIff
  // an index that is not full reopens with all its entries, over any number of opens.
  lemma {:induction false} RunStaysOffStart(
    s: IndexState, interval: nat, capacity: nat, writes: seq<(Entry, nat)>, from: nat)
    requires interval > 0 && s.accumulated == 0 && |s.entries| <= capacity && OffStart(s.entries)
    requires forall i :: 0 <= i < |writes| ==> writes[i].0.position == from + Position(Sizes(writes), i)
    ensures OffStart(Run(s, interval, capacity, writes).entries)
  {
    hide Run, Follow, Position;
    var sizes, room := Sizes(writes), capacity - |s.entries|;
    var picks := Follow(sizes, interval, room).picks;
    RunFollows(s, interval, capacity, writes);
    PicksInRange(sizes, interval, room);
    if picks != [] {
      FirstRecorded(sizes, interval, room);
      forall i | 0 <= i < |picks|
        ensures writes[picks[i]].0.position != 0
      {
        PositionsGrow(sizes, picks[0], picks[i]);
      }
    }
  }

  lemma {:induction false} PositionsGrow(sizes: seq<nat>, i: nat, j: nat)
    requires i <= j <= |sizes|
    ensures Position(sizes, i) <= Position(sizes, j)
    decreases j
  {
    if i < j { PositionsGrow(sizes, i, j - 1); }
  }
}
