/**
 The closed segments of a replica (fluvio-storage, segments.rs): an ordered list with cached bounds,
 and the lookup of the segment that serves an offset.
 */
module SegmentList {
  import opened Wrappers
  import opened Bytes
  import opened OffsetIndex

  /** A closed segment: base offset, end offset, its log file and the slots of its index file. */
  datatype Closed = Closed(base: int, end: int, file: seq<Byte>, slots: seq<Entry>) {
    // occupied_memory: log and index
    function Size(): nat {
      |file| + 8 * |slots|
    }
  }

  // The map is kept as the list of its values, in key order.
  predicate Ordered(segments: seq<Closed>) {
    forall i, j :: 0 <= i < j < |segments| ==> segments[i].base < segments[j].base
  }

  predicate Offsets(segments: seq<Closed>) {
    forall i :: 0 <= i < |segments| ==> 0 <= segments[i].base
  }

  // No two segments overlap.
  predicate Disjoint(segments: seq<Closed>) {
    forall i, j :: 0 <= i < j < |segments| ==> segments[i].end <= segments[j].base
  }

  predicate Contains(s: Closed, offset: int) {
    s.base <= offset < s.end
  }

  function Occupied(segments: seq<Closed>): nat {
    if segments == [] then 0 else segments[0].Size() + Occupied(segments[1..])
  }

  // The smallest base, -1 when there is none.
  function MinOffset(segments: seq<Closed>): int {
    if segments == [] then -1 else segments[0].base
  }

  // The largest end, 0 when there is none.
  function MaxOffset(segments: seq<Closed>): (r: int)
    ensures r >= 0
    ensures forall i :: 0 <= i < |segments| ==> segments[i].end <= r
    ensures r == 0 || exists i :: 0 <= i < |segments| && segments[i].end == r
  {
    if segments == [] then 0
    else
      var n := |segments| - 1;
      var m := MaxOffset(segments[..n]);
      if segments[n].end > m then segments[n].end else m
  }

  function Insert(segments: seq<Closed>, s: Closed): seq<Closed> {
    if segments == [] || s.base < segments[0].base then [s] + segments
    else if s.base == segments[0].base then [s] + segments[1..]
    else [segments[0]] + Insert(segments[1..], s)
  }

  // The list without the given bases.
  function Without(segments: seq<Closed>, bases: seq<int>): seq<Closed> {
    if segments == [] then []
    else (if segments[0].base in bases then [] else [segments[0]]) + Without(segments[1..], bases)
  }

  // The last entry with a key in [lo, hi].
  function LastInRange(segments: seq<Closed>, lo: int, hi: int): (r: Option<Closed>)
    ensures r.Some? ==> r.value in segments && lo <= r.value.base <= hi
    ensures r.None? ==> forall i :: 0 <= i < |segments| ==> !(lo <= segments[i].base <= hi)
  {
    if segments == [] then None
    else
      var n := |segments| - 1;
      if lo <= segments[n].base <= hi then Some(segments[n]) else LastInRange(segments[..n], lo, hi)
  }

  function Find(segments: seq<Closed>, minOffset: int, maxOffset: int, offset: int): Option<Closed> {
    if offset < minOffset then None
    else if offset == minOffset then LastInRange(segments, offset, offset)
    else if offset >= maxOffset then None
    else LastInRange(segments, offset - maxOffset + minOffset + 1, offset)
  }

  class SegmentList {
    var segments: seq<Closed>
    var minOffset: int
    var maxOffset: int

    ghost predicate Valid()
      reads this
    {
      && Ordered(segments) && Offsets(segments)
      && minOffset == MinOffset(segments) && maxOffset == MaxOffset(segments)
    }

    constructor ()
      ensures Valid() && segments == []
    {
      segments, minOffset, maxOffset := [], -1, 0;
    }

    method UpdateMinMax()
      requires Ordered(segments) && Offsets(segments)
      modifies this`minOffset, this`maxOffset
      ensures Valid()
    {
      var high, low := 0, -1;
      for i := 0 to |segments|
        invariant high == MaxOffset(segments[..i])
        invariant low == if i == 0 then -1 else segments[0].base
      {
        assert segments[..i + 1][..i] == segments[..i];
        if segments[i].end > high {
          high := segments[i].end;
        }
        if low < 0 || segments[i].base < low {
          low := segments[i].base;
        }
      }
      assert segments[..|segments|] == segments;
      maxOffset, minOffset := high, low;
    }

    method AddSegment(s: Closed)
      requires Valid() && 0 <= s.base
      modifies this
      ensures Valid()
      ensures segments == Insert(old(segments), s)
    {
      InsertIsMapInsert(segments, s);
      segments := Insert(segments, s);
      UpdateMinMax();
    }

    method RemoveSegment(base: int) returns (removed: bool)
      requires Valid()
      modifies this
      ensures Valid()
      ensures segments == Without(old(segments), [base])
      ensures removed <==> exists i :: 0 <= i < |old(segments)| && old(segments)[i].base == base
    {
      WithoutIsFilter(segments, [base]);
      removed := exists i :: 0 <= i < |segments| && segments[i].base == base;
      if removed {
        segments := Without(segments, [base]);
        UpdateMinMax();
      } else {
        WithoutAbsent(segments, [base]);
      }
    }

    method RemoveSegments(bases: seq<int>)
      requires Valid()
      modifies this
      ensures Valid()
      ensures segments == Without(old(segments), bases)
    {
      hide Without, Ordered, Offsets, MinOffset, MaxOffset;
      WithoutAbsent(segments, []);
      for i := 0 to |bases|
        invariant Valid()
        invariant segments == Without(old(segments), bases[..i])
      {
        WithoutOneMore(old(segments), bases[..i], bases[i]);
        assert bases[..i + 1] == bases[..i] + [bases[i]];
        var _ := RemoveSegment(bases[i]);
      }
      assert bases[..|bases|] == bases;
    }

    // The segment serving an offset: the one with the greatest base at or below it, for every offset
    // from the first base up to the greatest end.
    method FindSegment(offset: int) returns (r: Option<Closed>)
      requires Valid()
      ensures r == Find(segments, minOffset, maxOffset, offset)
      ensures r.Some? <==>
              segments != [] && (offset == segments[0].base || segments[0].base < offset < MaxOffset(segments))
      ensures r.Some? ==> r.value in segments && r.value.base <= offset
      ensures r.Some? ==> forall s :: s in segments && s.base <= offset ==> s.base <= r.value.base
    {
      r := Find(segments, minOffset, maxOffset, offset);
      FindIsFloor(segments, offset);
    }
  }

  // ----- the ordered list as a map -----

  lemma {:induction false} InsertMembers(segments: seq<Closed>, s: Closed, x: Closed)
    requires Ordered(segments)
    ensures x in Insert(segments, s) <==> x == s || (x in segments && x.base != s.base)
  {
    if segments != [] {
      var head, tail := segments[0], segments[1..];
      assert segments == [head] + tail;
      assert forall j :: 0 <= j < |tail| ==> head.base < tail[j].base by {
        assert forall j :: 0 <= j < |tail| ==> tail[j] == segments[j + 1];
      }
      if head.base < s.base {
        InsertMembers(tail, s, x);
      }
    }
  }

  lemma {:induction false} OrderedCons(head: Closed, tail: seq<Closed>)
    requires Ordered(tail) && forall x :: x in tail ==> head.base < x.base
    ensures Ordered([head] + tail)
  {
    var r := [head] + tail;
    forall i, j | 0 <= i < j < |r| ensures r[i].base < r[j].base {
      assert r[j] == tail[j - 1] && r[j] in tail;
      assert i > 0 ==> r[i] == tail[i - 1];
    }
  }

  lemma {:induction false} OrderedTail(segments: seq<Closed>)
    requires Ordered(segments) && segments != []
    ensures Ordered(segments[1..]) && forall x :: x in segments[1..] ==> segments[0].base < x.base
  {
  }

  lemma {:induction false} InsertOrdered(segments: seq<Closed>, s: Closed)
    requires Ordered(segments)
    ensures Ordered(Insert(segments, s))
  {
    if segments == [] {
      OrderedCons(s, []);
    } else {
      var head, tail := segments[0], segments[1..];
      OrderedTail(segments);
      hide Ordered;
      if s.base < head.base {
        OrderedCons(s, segments);
      } else if s.base == head.base {
        OrderedCons(s, tail);
      } else {
        InsertOrdered(tail, s);
        forall x | x in Insert(tail, s) ensures head.base < x.base {
          InsertMembers(tail, s, x);
        }
        OrderedCons(head, Insert(tail, s));
      }
    }
  }

  // Insertion keeps the order, replaces the segment with the same base and keeps all others.
  lemma {:induction false} InsertIsMapInsert(segments: seq<Closed>, s: Closed)
    requires Ordered(segments)
    ensures Ordered(Insert(segments, s))
    ensures forall x :: x in Insert(segments, s) <==> x == s || (x in segments && x.base != s.base)
    ensures Offsets(segments) && 0 <= s.base ==> Offsets(Insert(segments, s))
  {
    hide Insert, Ordered;
    InsertOrdered(segments, s);
    forall x ensures x in Insert(segments, s) <==> x == s || (x in segments && x.base != s.base) {
      InsertMembers(segments, s, x);
    }
    var r := Insert(segments, s);
    forall i | 0 <= i < |r| && Offsets(segments) && 0 <= s.base ensures 0 <= r[i].base {
      assert r[i] in r;
    }
  }

  // A segment beyond all others goes to the end.
  lemma {:induction false} InsertLast(segments: seq<Closed>, s: Closed)
    requires forall i :: 0 <= i < |segments| ==> segments[i].base < s.base
    ensures Insert(segments, s) == segments + [s]
  {
    if segments != [] {
      InsertLast(segments[1..], s);
      assert segments == [segments[0]] + segments[1..];
    }
  }

  lemma {:induction false} OccupiedPush(segments: seq<Closed>, s: Closed)
    ensures Occupied(segments + [s]) == Occupied(segments) + s.Size()
  {
    if segments != [] {
      OccupiedPush(segments[1..], s);
      assert (segments + [s])[1..] == segments[1..] + [s];
    }
  }

  lemma {:induction false} WithoutMembers(segments: seq<Closed>, bases: seq<int>, x: Closed)
    ensures x in Without(segments, bases) <==> x in segments && x.base !in bases
  {
    if segments != [] {
      assert segments == [segments[0]] + segments[1..];
      WithoutMembers(segments[1..], bases, x);
    }
  }

  lemma {:induction false} WithoutOrdered(segments: seq<Closed>, bases: seq<int>)
    requires Ordered(segments)
    ensures Ordered(Without(segments, bases))
  {
    if segments != [] {
      var rest := Without(segments[1..], bases);
      OrderedTail(segments);
      hide Ordered;
      WithoutOrdered(segments[1..], bases);
      forall x | x in rest ensures segments[0].base < x.base {
        WithoutMembers(segments[1..], bases, x);
      }
      OrderedCons(segments[0], rest);
      assert [] + rest == rest;
    }
  }

  // Removal keeps the order and exactly the segments with other bases.
  lemma {:induction false} WithoutIsFilter(segments: seq<Closed>, bases: seq<int>)
    requires Ordered(segments)
    ensures Ordered(Without(segments, bases))
    ensures forall x :: x in Without(segments, bases) <==> x in segments && x.base !in bases
    ensures Offsets(segments) ==> Offsets(Without(segments, bases))
  {
    hide Without, Ordered;
    WithoutOrdered(segments, bases);
    forall x ensures x in Without(segments, bases) <==> x in segments && x.base !in bases {
      WithoutMembers(segments, bases, x);
    }
    var r := Without(segments, bases);
    forall i | 0 <= i < |r| && Offsets(segments) ensures 0 <= r[i].base {
      assert r[i] in r;
    }
  }

  lemma {:induction false} WithoutAbsent(segments: seq<Closed>, bases: seq<int>)
    requires forall i :: 0 <= i < |segments| ==> segments[i].base !in bases
    ensures Without(segments, bases) == segments
  {
    if segments != [] {
      WithoutAbsent(segments[1..], bases);
    }
  }

  lemma {:induction false} WithoutOneMore(segments: seq<Closed>, bases: seq<int>, b: int)
    ensures Without(Without(segments, bases), [b]) == Without(segments, bases + [b])
  {
    if segments != [] {
      var head, rest := segments[0], Without(segments[1..], bases);
      WithoutOneMore(segments[1..], bases, b);
      assert head.base in bases + [b] <==> head.base in bases || head.base in [b];
      if head.base in bases {
        assert Without(segments, bases) == rest;
      } else {
        assert Without(segments, bases)[1..] == rest;
      }
    }
  }

  // Removing the bases of the first segments drops exactly those.
  lemma {:induction false} WithoutPrefix(segments: seq<Closed>, bases: seq<int>, i: nat)
    requires Ordered(segments) && |bases| <= |segments| && i <= |segments|
    requires forall j :: 0 <= j < |bases| ==> bases[j] == segments[j].base
    ensures Without(segments[i..], bases) == segments[if i < |bases| then |bases| else i..]
    decreases |segments| - i
  {
    if i < |segments| {
      var tail := segments[i..];
      assert tail[1..] == segments[i + 1..];
      WithoutPrefix(segments, bases, i + 1);
      if i < |bases| {
        assert bases[i] == tail[0].base;
      } else {
        assert tail[0].base !in bases;
      }
    }
  }

  // ----- lookup -----

  lemma {:induction false} LastInRangeIsGreatest(segments: seq<Closed>, lo: int, hi: int)
    requires Ordered(segments)
    ensures var r := LastInRange(segments, lo, hi);
            r.Some? ==> forall s :: s in segments && s.base <= hi ==> s.base <= r.value.base
  {
    if segments != [] {
      LastInRangeIsGreatest(segments[..|segments| - 1], lo, hi);
      assert segments == segments[..|segments| - 1] + [segments[|segments| - 1]];
    }
  }

  ghost predicate IsFloor(segments: seq<Closed>, offset: int, r: Closed) {
    && r in segments && r.base <= offset
    && forall s :: s in segments && s.base <= offset ==> s.base <= r.base
  }

  // The arithmetic lower bound of the range never passes the first base, so the lookup is a floor.
  lemma {:induction false} FindFrom(segments: seq<Closed>, high: int, offset: int)
    requires Ordered(segments) && segments != [] && 0 <= segments[0].base
    ensures var r := Find(segments, segments[0].base, high, offset);
            && (r.Some? <==> offset == segments[0].base || segments[0].base < offset < high)
            && (r.Some? ==> IsFloor(segments, offset, r.value))
  {
    var low := segments[0].base;
    LastInRangeIsGreatest(segments, offset, offset);
    LastInRangeIsGreatest(segments, offset - high + low + 1, offset);
    hide Ordered, LastInRange;
  }

  lemma {:induction false} FindIsFloor(segments: seq<Closed>, offset: int)
    requires Ordered(segments) && Offsets(segments)
    ensures var r := Find(segments, MinOffset(segments), MaxOffset(segments), offset);
            && (r.Some? <==>
                 segments != [] && (offset == segments[0].base || segments[0].base < offset < MaxOffset(segments)))
            && (r.Some? ==> IsFloor(segments, offset, r.value))
  {
    if segments != [] {
      hide MaxOffset, Find, IsFloor;
      FindFrom(segments, MaxOffset(segments), offset);
    }
  }

  lemma {:induction false} FloorIsContaining(segments: seq<Closed>, offset: int, s: Closed, r: Closed)
    requires Disjoint(segments) && IsFloor(segments, offset, r)
    requires s in segments && Contains(s, offset)
    requires Ordered(segments)
    ensures s == r
  {
    var i :| 0 <= i < |segments| && segments[i] == s;
    var k :| 0 <= k < |segments| && segments[k] == r;
  }

  // Among segments that do not overlap, the lookup returns the one that contains the offset, if and
  // only if one does.
  lemma {:induction false} FindContainsIff(segments: seq<Closed>, offset: int)
    requires Ordered(segments) && Offsets(segments) && Disjoint(segments)
    ensures var r := Find(segments, MinOffset(segments), MaxOffset(segments), offset);
            (r.Some? && Contains(r.value, offset)) <==> exists s :: s in segments && Contains(s, offset)
  {
    FindIsFloor(segments, offset);
    hide Find;
    var r := Find(segments, MinOffset(segments), MaxOffset(segments), offset);
    forall s | s in segments && Contains(s, offset) ensures r == Some(s) {
      assert segments[0].base <= s.base;
      FloorIsContaining(segments, offset, s, r.value);
    }
  }

  // Every segment starts where the one before it ends; only the last one can be empty.
  ghost predicate Contiguous(segments: seq<Closed>) {
    && Ordered(segments)
    && (forall i :: 0 <= i < |segments| ==> segments[i].base <= segments[i].end)
    && (forall i, j :: 0 <= i < j < |segments| ==> j == i + 1 ==> segments[i].end == segments[j].base)
  }

  lemma {:induction false} ContiguousIsDisjoint(segments: seq<Closed>, i: nat, j: nat)
    requires Contiguous(segments) && i < j < |segments|
    ensures segments[i].end <= segments[j].base
    decreases j - i
  {
    if i + 1 < j {
      ContiguousIsDisjoint(segments, i, j - 1);
    }
  }

  lemma {:induction false} SomeContains(segments: seq<Closed>, offset: int)
    requires Contiguous(segments) && segments != []
    requires segments[0].base <= offset < segments[|segments| - 1].end
    ensures exists s :: s in segments && Contains(s, offset)
  {
    var n := |segments| - 1;
    if offset >= segments[n].base {
      assert Contains(segments[n], offset);
    } else {
      SomeContains(segments[..n], offset);
    }
  }

  // Without gaps, a segment is found if and only if the offset lies in the log or is its first, and
  // it contains every offset that lies in the log.
  lemma {:induction false} NoGapFinds(segments: seq<Closed>, offset: int)
    requires Offsets(segments) && Contiguous(segments)
    ensures Disjoint(segments)
    ensures var r := Find(segments, MinOffset(segments), MaxOffset(segments), offset);
            && (r.Some? <==>
                 segments != [] && segments[0].base <= offset
                 && (offset < segments[|segments| - 1].end || offset == segments[0].base))
            && (r.Some? && offset < segments[|segments| - 1].end ==> r.value in segments && Contains(r.value, offset))
  {
    forall i, j | 0 <= i < j < |segments| ensures segments[i].end <= segments[j].base {
      ContiguousIsDisjoint(segments, i, j);
    }
    FindIsFloor(segments, offset);
    FindContainsIff(segments, offset);
    if segments != [] {
      LastEndIsMax(segments);
      if segments[0].base <= offset < segments[|segments| - 1].end {
        SomeContains(segments, offset);
      }
    }
  }

  lemma {:induction false} LastEndIsMax(segments: seq<Closed>)
    requires segments != [] && Offsets(segments) && Contiguous(segments) && Disjoint(segments)
    ensures MaxOffset(segments) == segments[|segments| - 1].end
  {
    var n := |segments| - 1;
    forall i | 0 <= i < |segments| ensures segments[i].end <= segments[n].end {
      assert i < n ==> segments[i].end <= segments[n].base;
    }
  }

  // With a gap, an offset inside it is answered with the segment before it.
  lemma {:induction false} GapIsAnsweredWrongly(a: Closed, b: Closed, offset: int)
    requires 0 <= a.base < a.end <= offset < b.base < b.end
    ensures var segments := [a, b];
            var r := Find(segments, MinOffset(segments), MaxOffset(segments), offset);
            r == Some(a) && !Contains(a, offset)
  {
    var segments := [a, b];
    assert segments[1].end <= MaxOffset(segments);
    FindIsFloor(segments, offset);
  }
}
