/**
 Retention (fluvio-storage, cleaner.rs): closed segments are removed, oldest first, when a replica
 outgrows its limit, and one by one when they expire.
 */
module Cleaner {
  import opened Wrappers
  import opened SegmentList
  import opened Bytes
  import opened OffsetIndex

  /** ReplicaSize: the sizes of the active and of the closed segments, as last stored. */
  class ReplicaSize {
    var active: nat
    var prev: nat

    constructor ()
      ensures active == 0 && prev == 0
    {
      active, prev := 0, 0;
    }
  }

  function SaturatingSub(a: nat, b: nat): nat {
    if a < b then 0 else a - b
  }

  // Segments that one size pass asks to remove: the excess over the segment size, rounded up.
  function CountToRemove(total: nat, maxPartition: nat, segmentMax: nat): nat
    requires segmentMax > 0
  {
    var excess := SaturatingSub(total, maxPartition);
    excess / segmentMax + if excess % segmentMax > 0 then 1 else 0
  }

  function Smaller(a: nat, b: nat): nat {
    if a < b then a else b
  }

  function Kept(segments: seq<Closed>, count: nat): seq<Closed> {
    segments[Smaller(count, |segments|)..]
  }

  function Unexpired(segments: seq<Closed>, expired: int -> bool): seq<Closed> {
    if segments == [] then []
    else (if expired(segments[0].base) then [] else [segments[0]]) + Unexpired(segments[1..], expired)
  }

  // The fewest segments of full size that cover the excess.
  method SegmentsToRemove(total: nat, maxPartition: nat, segmentMax: nat) returns (count: nat)
    requires segmentMax > 0
    ensures total - maxPartition <= count * segmentMax
    ensures forall fewer: nat :: fewer < count ==> fewer * segmentMax < total - maxPartition
    ensures count == CountToRemove(total, maxPartition, segmentMax)
  {
    var excess := SaturatingSub(total, maxPartition);
    count := excess / segmentMax;
    if excess % segmentMax > 0 {
      count := count + 1;
    }
    FewestCover(total, maxPartition, segmentMax);
  }

  // find_first: the bases of the oldest segments
  method FindFirst(segments: seq<Closed>, count: nat) returns (bases: seq<int>)
    ensures |bases| == Smaller(count, |segments|)
    ensures forall i :: 0 <= i < |bases| ==> bases[i] == segments[i].base
  {
    bases := [];
    while |bases| < count && |bases| < |segments|
      invariant |bases| <= count && |bases| <= |segments|
      invariant forall i :: 0 <= i < |bases| ==> bases[i] == segments[i].base
      decreases |segments| - |bases|
    {
      bases := bases + [segments[|bases|].base];
    }
  }

  class Cleaner {
    const maxPartition: nat
    const segmentMax: nat
    const list: SegmentList
    const size: ReplicaSize

    constructor (maxPartition: nat, segmentMax: nat, list: SegmentList, size: ReplicaSize)
      ensures this.maxPartition == maxPartition && this.segmentMax == segmentMax
      ensures this.list == list && this.size == size
    {
      this.maxPartition := maxPartition;
      this.segmentMax := segmentMax;
      this.list := list;
      this.size := size;
    }

    // One size pass removes an oldest prefix and then measures what is left.
    method EnforceSize()
      requires segmentMax > 0 && list.Valid()
      modifies size`prev, list
      ensures list.Valid()
      ensures size.active + old(size.prev) <= maxPartition ==>
              list.segments == old(list.segments) && size.prev == old(size.prev)
      ensures size.active + old(size.prev) > maxPartition ==>
              && list.segments ==
                   Kept(old(list.segments), CountToRemove(size.active + old(size.prev), maxPartition, segmentMax))
              && size.prev == Occupied(list.segments)
    {
      hide Occupied, CountToRemove, Without, Ordered, Offsets, MinOffset, MaxOffset;
      if SaturatingSub(size.active + size.prev, maxPartition) > 0 {
        var countToRemove := SegmentsToRemove(size.active + size.prev, maxPartition, segmentMax);
        var toRemove := FindFirst(list.segments, countToRemove);
        WithoutPrefix(list.segments, toRemove, 0);
        assert list.segments[0..] == list.segments;
        list.RemoveSegments(toRemove);
        size.prev := Occupied(list.segments);
      }
    }

    // Expired segments go wherever they stand; the others keep their order.
    method EnforceTtl(expired: int -> bool)
      requires list.Valid()
      modifies size`prev, list
      ensures list.Valid()
      ensures list.segments == Unexpired(old(list.segments), expired)
      ensures size.prev == if list.segments == old(list.segments) then old(size.prev) else Occupied(list.segments)
    {
      hide Occupied, Without, Ordered, Offsets, MinOffset, MaxOffset;
      var bases := [];
      for i := 0 to |list.segments|
        invariant forall b :: b in bases ==> expired(b)
        invariant forall j :: 0 <= j < i && expired(list.segments[j].base) ==> list.segments[j].base in bases
        invariant bases == [] <==> forall j :: 0 <= j < i ==> !expired(list.segments[j].base)
      {
        if expired(list.segments[i].base) {
          bases := bases + [list.segments[i].base];
        }
      }
      WithoutExpired(list.segments, bases, expired);
      UnexpiredKeepsAllIff(list.segments, expired);
      if bases != [] {
        list.RemoveSegments(bases);
        size.prev := Occupied(list.segments);
      }
    }

    // Size passes without new writes end with the replica within its limit or without closed
    // segments, after at most one pass per segment.
    method CleanUntilStable() returns (passes: nat)
      requires segmentMax > 0 && list.Valid() && size.prev == Occupied(list.segments)
      modifies size`prev, list
      ensures list.Valid() && size.prev == Occupied(list.segments)
      ensures size.active + size.prev <= maxPartition || list.segments == []
      ensures passes + |list.segments| <= |old(list.segments)|
      ensures list.segments == old(list.segments)[|old(list.segments)| - |list.segments|..]
    {
      hide Occupied, CountToRemove, Kept, Ordered, Offsets, MinOffset, MaxOffset;
      passes := 0;
      ghost var was, k := list.segments, 0;
      while size.active + size.prev > maxPartition && list.segments != []
        invariant list.Valid() && size.prev == Occupied(list.segments)
        invariant passes <= k <= |was| && list.segments == was[k..]
        decreases |list.segments|
      {
        ghost var count := CountToRemove(size.active + size.prev, maxPartition, segmentMax);
        CountPositive(size.active + size.prev, maxPartition, segmentMax);
        k := KeptSuffix(was, k, count);
        EnforceSize();
        passes := passes + 1;
      }
    }
  }

  lemma {:induction false} KeptSuffix(was: seq<Closed>, k: nat, count: nat) returns (next: nat)
    requires k < |was| && count >= 1
    ensures k < next <= |was| && Kept(was[k..], count) == was[next..]
  {
    next := k + Smaller(count, |was| - k);
  }

  lemma {:induction false} WithoutExpired(segments: seq<Closed>, bases: seq<int>, expired: int -> bool)
    requires forall b :: b in bases ==> expired(b)
    requires forall j :: 0 <= j < |segments| && expired(segments[j].base) ==> segments[j].base in bases
    ensures Without(segments, bases) == Unexpired(segments, expired)
  {
    if segments != [] {
      WithoutExpired(segments[1..], bases, expired);
    }
  }

  lemma {:induction false} UnexpiredKeepsAllIff(segments: seq<Closed>, expired: int -> bool)
    ensures |Unexpired(segments, expired)| <= |segments|
    ensures Unexpired(segments, expired) == segments <==>
            forall j :: 0 <= j < |segments| ==> !expired(segments[j].base)
    ensures Unexpired(segments, expired) != segments ==> |Unexpired(segments, expired)| < |segments|
  {
    if segments != [] {
      UnexpiredKeepsAllIff(segments[1..], expired);
      assert segments == [segments[0]] + segments[1..];
    }
  }

  // ----- how far a size pass goes -----

  // Rounding up covers the excess and overshoots by less than one segment.
  lemma {:induction false} CountBound(total: nat, maxPartition: nat, segmentMax: nat)
    requires segmentMax > 0 && total > maxPartition
    ensures var c := CountToRemove(total, maxPartition, segmentMax);
            total - maxPartition <= c * segmentMax < total - maxPartition + segmentMax
  {
    var excess := total - maxPartition;
    var q, r := excess / segmentMax, excess % segmentMax;
    assert excess == segmentMax * q + r;
    assert (q + 1) * segmentMax == segmentMax * q + segmentMax;
  }

  lemma {:induction false} CountPositive(total: nat, maxPartition: nat, segmentMax: nat)
    requires segmentMax > 0 && total > maxPartition
    ensures CountToRemove(total, maxPartition, segmentMax) >= 1
  {
    CountBound(total, maxPartition, segmentMax);
  }

  lemma {:induction false} FewestCover(total: nat, maxPartition: nat, segmentMax: nat)
    requires segmentMax > 0
    ensures var c := CountToRemove(total, maxPartition, segmentMax);
            && total - maxPartition <= c * segmentMax
            && forall fewer: nat :: fewer < c ==> fewer * segmentMax < total - maxPartition
  {
    var c := CountToRemove(total, maxPartition, segmentMax);
    if total > maxPartition {
      CountBound(total, maxPartition, segmentMax);
      hide CountToRemove;
      forall fewer: nat | fewer < c ensures fewer * segmentMax < total - maxPartition {
        Scale(fewer, c - 1, segmentMax);
        assert (c - 1) * segmentMax == c * segmentMax - segmentMax;
      }
    } else {
      assert 0 / segmentMax == 0 && 0 % segmentMax == 0;
    }
  }

  predicate AtMost(segments: seq<Closed>, limit: nat) {
    forall i :: 0 <= i < |segments| ==> segments[i].Size() <= limit
  }

  lemma {:induction false} DropBound(segments: seq<Closed>, k: nat, limit: nat)
    requires k <= |segments| && AtMost(segments, limit)
    ensures Occupied(segments) - Occupied(segments[k..]) <= k * limit
  {
    if k > 0 {
      DropBound(segments[1..], k - 1, limit);
      assert segments[1..][k - 1..] == segments[k..];
      assert k * limit == (k - 1) * limit + limit;
    } else {
      assert segments[0..] == segments;
    }
  }

  // The limit less one segment and less what the removed ones take beyond the segment size.
  function PassFloor(total: nat, maxPartition: nat, segmentMax: nat, extra: nat): int
    requires segmentMax > 0
  {
    maxPartition - segmentMax - CountToRemove(total, maxPartition, segmentMax) * extra
  }

  // What a pass leaves, with any bound on the size of closed segments.
  lemma {:induction false} PassKeeps(
    segments: seq<Closed>, active: nat, maxPartition: nat, segmentMax: nat, extra: nat)
    requires segmentMax > 0 && AtMost(segments, segmentMax + extra)
    requires active + Occupied(segments) > maxPartition
    ensures var total := active + Occupied(segments);
            var count := CountToRemove(total, maxPartition, segmentMax);
            active + Occupied(Kept(segments, count)) > PassFloor(total, maxPartition, segmentMax, extra)
  {
    hide Occupied, CountToRemove;
    var total := active + Occupied(segments);
    var c := CountToRemove(total, maxPartition, segmentMax);
    var k := Smaller(c, |segments|);
    CountBound(total, maxPartition, segmentMax);
    DropBound(segments, k, segmentMax + extra);
    Scale(k, c, segmentMax + extra);
    assert c * (segmentMax + extra) == c * segmentMax + c * extra;
  }

  // If no closed segment exceeds the segment size, a pass never brings the total down to the limit
  // less one segment.
  lemma {:induction false} PassKeepsEnough(segments: seq<Closed>, active: nat, maxPartition: nat, segmentMax: nat)
    requires segmentMax > 0 && AtMost(segments, segmentMax)
    requires active + Occupied(segments) > maxPartition
    ensures var total := active + Occupied(segments);
            var kept := Kept(segments, CountToRemove(total, maxPartition, segmentMax));
            active + Occupied(kept) > maxPartition - segmentMax
  {
    hide Occupied, CountToRemove;
    PassKeeps(segments, active, maxPartition, segmentMax, 0);
  }

  lemma {:induction false} Scale(a: nat, b: nat, c: nat)
    requires a <= b
    ensures a * c <= b * c
  {
    assert b * c == a * c + (b - a) * c;
  }

  lemma {:induction false} KeptContiguous(segments: seq<Closed>, count: nat)
    requires Offsets(segments) && Contiguous(segments)
    ensures var kept := Kept(segments, count);
            && Offsets(kept) && Contiguous(kept)
            && (forall s :: s in kept ==> s in segments)
            && (kept != [] ==> segments != [] && segments[0].base <= kept[0].base
                               && segments[|segments| - 1] == kept[|kept| - 1])
  {
    var k := Smaller(count, |segments|);
    if 0 < k < |segments| {
      ContiguousIsDisjoint(segments, 0, k);
    }
  }

  // A size pass over a log without gaps serves every offset of it from the new first base on with the
  // same segment as before, and none below.
  lemma {:induction false} PassKeepsLookups(segments: seq<Closed>, count: nat, offset: int)
    requires Offsets(segments) && Contiguous(segments)
    requires segments != [] ==>
             var last := segments[|segments| - 1];
             offset < last.end || last.base < last.end
    ensures var kept := Kept(segments, count);
            var before := Find(segments, MinOffset(segments), MaxOffset(segments), offset);
            var after := Find(kept, MinOffset(kept), MaxOffset(kept), offset);
            && Contiguous(kept)
            && after == if kept != [] && offset >= kept[0].base then before else None
  {
    hide Find, MaxOffset, MinOffset, Offsets, Kept, Disjoint;
    var kept := Kept(segments, count);
    KeptContiguous(segments, count);
    NoGapFinds(segments, offset);
    NoGapFinds(kept, offset);
    var before := Find(segments, MinOffset(segments), MaxOffset(segments), offset);
    var after := Find(kept, MinOffset(kept), MaxOffset(kept), offset);
    if after.Some? {
      FirstNotPastLast(segments);
      FirstNotPastLast(kept);
      hide Contiguous;
      OneContains(segments, before.value, after.value, offset);
    }
  }

  lemma {:induction false} FirstNotPastLast(segments: seq<Closed>)
    requires Contiguous(segments)
    ensures segments != [] ==> segments[0].base <= segments[|segments| - 1].base
  {
  }

  lemma {:induction false} OneContains(segments: seq<Closed>, a: Closed, b: Closed, offset: int)
    requires Disjoint(segments) && a in segments && b in segments
    requires Contains(a, offset) && Contains(b, offset)
    ensures a == b
  {
    var i :| 0 <= i < |segments| && segments[i] == a;
    var j :| 0 <= j < |segments| && segments[j] == b;
    assert i < j ==> a.end <= b.base;
    assert j < i ==> b.end <= a.base;
  }
}
