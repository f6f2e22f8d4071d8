/**
 What expiry leaves of a log (fluvio-storage, cleaner.rs): segments go wherever they stand, so the
 rest can have gaps.
 */
module Expiry {
  import opened Wrappers
  import opened Bytes
  import opened BatchFormat
  import opened BatchStream
  import opened OffsetIndex
  import opened SegmentLog
  import opened SegmentReads
  import opened S = SegmentList
  import C = Cleaner
  import R = Replica

  // ----- the closed segments alone -----

  // No expired segment lies between two that stay.
  ghost predicate KeptTogether(segments: seq<Closed>, expired: int -> bool) {
    forall i, j, k :: 0 <= i < j < k < |segments| ==>
      !expired(segments[i].base) && expired(segments[j].base) ==> expired(segments[k].base)
  }

  lemma {:induction false} NoneKept(segments: seq<Closed>, expired: int -> bool)
    ensures C.Unexpired(segments, expired) == [] <==>
            forall i :: 0 <= i < |segments| ==> expired(segments[i].base)
  {
    if segments != [] {
      NoneKept(segments[1..], expired);
      assert forall i :: 0 <= i < |segments| - 1 ==> segments[1..][i] == segments[i + 1];
      assert forall i :: 0 < i < |segments| ==> segments[i] == segments[1..][i - 1];
    }
  }

  // The first segment that stays, compared with the first one.
  lemma {:induction false} FirstKept(segments: seq<Closed>, expired: int -> bool)
    requires Ordered(segments) && segments != []
    ensures var kept := C.Unexpired(segments, expired);
            kept != [] ==>
              && segments[0].base <= kept[0].base
              && (segments[0].base == kept[0].base <==> !expired(segments[0].base))
  {
    var tail := segments[1..];
    if expired(segments[0].base) && tail != [] {
      FirstKept(tail, expired);
      assert tail[0] == segments[1];
    }
  }

  // A list with its first segment split off.
  lemma {:induction false} ContiguousHead(h: Closed, rest: seq<Closed>)
    ensures Contiguous([h] + rest) <==>
            && Contiguous(rest) && h.base <= h.end
            && (rest != [] ==> h.end == rest[0].base && h.base < rest[0].base)
  {
    var all := [h] + rest;
    assert all[0] == h && all[1..] == rest;
    assert forall i :: 0 <= i < |rest| ==> all[i + 1] == rest[i];
    if Contiguous(all) {
      ContiguousTail(all);
      assert rest != [] ==> all[1] == rest[0];
    }
    if Contiguous(rest) && h.base <= h.end && (rest != [] ==> h.end == rest[0].base && h.base < rest[0].base) {
      ContiguousCons(h, rest);
    }
  }

  lemma {:induction false} ContiguousTail(segments: seq<Closed>)
    requires Contiguous(segments) && segments != []
    ensures Contiguous(segments[1..])
  {
    var tail := segments[1..];
    assert forall i :: 0 <= i < |tail| ==> tail[i] == segments[i + 1];
  }

  lemma {:induction false} ContiguousCons(h: Closed, rest: seq<Closed>)
    requires Contiguous(rest) && h.base <= h.end && (rest != [] ==> h.end == rest[0].base && h.base < rest[0].base)
    ensures Contiguous([h] + rest)
  {
    var all := [h] + rest;
    assert forall i :: 0 < i < |all| ==> all[i] == rest[i - 1];
    assert forall i :: 0 <= i < |rest| ==> rest[0].base <= rest[i].base;
  }

  lemma {:induction false} KeptTogetherStep(segments: seq<Closed>, expired: int -> bool)
    requires segments != []
    ensures var tail := segments[1..];
            KeptTogether(segments, expired) <==>
            && KeptTogether(tail, expired)
            && (!expired(segments[0].base) ==>
                  C.Unexpired(tail, expired) == [] || !expired(tail[0].base))
  {
    var tail := segments[1..];
    hide C.Unexpired;
    NoneKept(tail, expired);
    assert forall i :: 0 <= i < |tail| ==> tail[i] == segments[i + 1];
    assert forall i :: 0 < i < |segments| ==> segments[i] == tail[i - 1];
  }

  // What expiry leaves of a list without gaps has none if and only if no expired segment lies between
  // two that stay.
  lemma {:induction false} UnexpiredContiguousIff(segments: seq<Closed>, expired: int -> bool)
    requires Contiguous(segments)
    ensures Contiguous(C.Unexpired(segments, expired)) <==> KeptTogether(segments, expired)
  {
    hide Contiguous;
    if segments == [] {
      assert KeptTogether(segments, expired);
    } else {
      hide KeptTogether;
      var h, tail := segments[0], segments[1..];
      UnexpiredHead(segments, expired);
      hide C.Unexpired;
      assert segments == [h] + tail;
      ContiguousHead(h, tail);
      UnexpiredContiguousIff(tail, expired);
      KeptTogetherStep(segments, expired);
      ContiguousHead(h, C.Unexpired(tail, expired));
      if tail != [] {
        OrderedOf(tail);
        FirstKept(tail, expired);
      } else {
        NoneKept(tail, expired);
      }
    }
  }

  lemma {:induction false} UnexpiredHead(segments: seq<Closed>, expired: int -> bool)
    requires segments != []
    ensures var rest := C.Unexpired(segments[1..], expired);
            C.Unexpired(segments, expired) == if expired(segments[0].base) then rest else [segments[0]] + rest
  {
  }

  lemma {:induction false} OrderedOf(segments: seq<Closed>)
    requires Contiguous(segments)
    ensures Ordered(segments)
  {
  }

  // Three segments of which only the middle one expires: its offsets are then answered with the first.
  lemma {:induction false} ExpiryLeavesGap(a: Closed, b: Closed, c: Closed, expired: int -> bool, offset: int)
    requires 0 <= a.base < a.end && b.base < b.end && c.base < c.end && Contiguous([a, b, c])
    requires !expired(a.base) && expired(b.base) && !expired(c.base) && Contains(b, offset)
    ensures var kept := C.Unexpired([a, b, c], expired);
            var r := Find(kept, MinOffset(kept), MaxOffset(kept), offset);
            kept == [a, c] && r == Some(a) && !Contains(a, offset)
  {
    var all := [a, b, c];
    assert all[0] == a && all[1] == b && all[2] == c;
    assert all[1..] == [b, c] && [b, c][1..] == [c];
    assert C.Unexpired([c], expired) == [c];
    assert C.Unexpired([b, c], expired) == [] + [c];
    assert C.Unexpired(all, expired) == [a, c];
    GapIsAnsweredWrongly(a, c, offset);
  }

  // ----- together with the active segment -----

  // No segment with offsets has expired behind one that stays.
  ghost predicate ExpiredFirst(segments: seq<Closed>, expired: int -> bool) {
    forall i, j :: 0 <= i < j < |segments| ==>
      !expired(segments[i].base) && segments[j].base < segments[j].end ==> !expired(segments[j].base)
  }

  // No segment with offsets has expired.
  predicate NonEmptyKept(segments: seq<Closed>, expired: int -> bool) {
    forall j :: 0 <= j < |segments| ==> segments[j].base < segments[j].end ==> !expired(segments[j].base)
  }

  lemma {:induction false} ExpiredFirstStep(segments: seq<Closed>, expired: int -> bool)
    requires segments != []
    ensures var tail := segments[1..];
            ExpiredFirst(segments, expired) <==>
            ExpiredFirst(tail, expired) && (!expired(segments[0].base) ==> NonEmptyKept(tail, expired))
  {
    var tail := segments[1..];
    assert forall i :: 0 <= i < |tail| ==> tail[i] == segments[i + 1];
    assert forall i :: 0 < i < |segments| ==> segments[i] == tail[i - 1];
  }

  // Segments that stay, if one does, are all but empty ones exactly if the first one is among them.
  lemma {:induction false} FirstDecides(segments: seq<Closed>, expired: int -> bool)
    requires Contiguous(segments) && ExpiredFirst(segments, expired) && C.Unexpired(segments, expired) != []
    ensures segments != []
    ensures !expired(segments[0].base) <==> NonEmptyKept(segments, expired)
  {
    hide C.Unexpired;
    NoneKept(segments, expired);
    assert segments != [];
    if !expired(segments[0].base) {
      assert forall j :: 0 < j < |segments| && segments[j].base < segments[j].end ==> !expired(segments[j].base);
    } else {
      assert |segments| > 1 ==> segments[0].base < segments[1].base == segments[0].end;
    }
  }

  // The offsets that contiguous segments span.
  lemma {:induction false} SpanEmptyIff(segments: seq<Closed>)
    requires Contiguous(segments) && segments != []
    ensures segments[0].base <= segments[|segments| - 1].end
    ensures segments[0].base == segments[|segments| - 1].end <==>
            forall j :: 0 <= j < |segments| ==> segments[j].base == segments[j].end
  {
    if |segments| > 1 {
      assert segments[0].base < segments[1].base && segments[0].end == segments[1].base;
      assert segments[0].base < segments[|segments| - 1].base;
    }
  }

  // The rest follows the active segment without gaps if and only if no segment with offsets has
  // expired behind one that stays.
  lemma {:induction false} UnexpiredFollowsIff(segments: seq<Closed>, base: int, expired: int -> bool)
    requires R.Follows(segments, base)
    ensures R.Follows(C.Unexpired(segments, expired), base) <==> ExpiredFirst(segments, expired)
  {
    hide Contiguous;
    if segments == [] {
      assert ExpiredFirst(segments, expired);
    } else {
      hide ExpiredFirst;
      var h, tail := segments[0], segments[1..];
      UnexpiredHead(segments, expired);
      hide C.Unexpired;
      assert segments == [h] + tail;
      ContiguousHead(h, tail);
      assert tail != [] ==> tail[|tail| - 1] == segments[|segments| - 1];
      UnexpiredFollowsIff(tail, base, expired);
      ExpiredFirstStep(segments, expired);
      if !expired(h.base) {
        KeptHead(h, tail, base, expired);
      }
    }
  }

  // A first segment that stays.
  lemma {:induction false} KeptHead(h: Closed, tail: seq<Closed>, base: int, expired: int -> bool)
    requires R.Follows([h] + tail, base) && R.Follows(tail, base)
    requires R.Follows(C.Unexpired(tail, expired), base) <==> ExpiredFirst(tail, expired)
    ensures R.Follows([h] + C.Unexpired(tail, expired), base) <==>
            ExpiredFirst(tail, expired) && NonEmptyKept(tail, expired)
  {
    hide C.Unexpired, Contiguous, ExpiredFirst, NonEmptyKept;
    var rest := C.Unexpired(tail, expired);
    ContiguousHead(h, tail);
    ContiguousHead(h, rest);
    NoneKept(tail, expired);
    assert ([h] + tail)[|tail|] == if tail == [] then h else tail[|tail| - 1];
    assert ([h] + rest)[|rest|] == if rest == [] then h else rest[|rest| - 1];
    if rest == [] {
      NothingKept(h, tail, base, expired);
    } else {
      OrderedOf(tail);
      FirstKept(tail, expired);
      if ExpiredFirst(tail, expired) {
        FirstDecides(tail, expired);
      }
    }
  }

  lemma {:induction false} NothingKept(h: Closed, tail: seq<Closed>, base: int, expired: int -> bool)
    requires R.Follows([h] + tail, base) && C.Unexpired(tail, expired) == []
    ensures h.end == base <==> ExpiredFirst(tail, expired) && NonEmptyKept(tail, expired)
  {
    hide C.Unexpired;
    NoneKept(tail, expired);
    ContiguousHead(h, tail);
    assert ([h] + tail)[|tail|] == if tail == [] then h else tail[|tail| - 1];
    if tail != [] {
      SpanEmptyIff(tail);
    }
  }

  // ----- on a replica -----

  // What belongs to the segments that stay.
  function Staying<T>(segments: seq<Closed>, xs: seq<T>, expired: int -> bool): seq<T>
    requires |xs| == |segments|
  {
    if segments == [] then []
    else (if expired(segments[0].base) then [] else [xs[0]]) + Staying(segments[1..], xs[1..], expired)
  }

  lemma {:induction false} StayingHead<T>(segments: seq<Closed>, xs: seq<T>, expired: int -> bool)
    requires |xs| == |segments| > 0
    ensures var rest := Staying(segments[1..], xs[1..], expired);
            Staying(segments, xs, expired) == if expired(segments[0].base) then rest else [xs[0]] + rest
  {
  }

  lemma {:induction false} BackedHead(segments: seq<Closed>, logs: seq<seq<Batch>>, picks: seq<seq<nat>>)
    requires R.Backed(segments, logs, picks) && segments != []
    ensures Backs(segments[0], logs[0], picks[0]) && R.Backed(segments[1..], logs[1..], picks[1..])
  {
    hide Backs;
    forall i | 0 <= i < |segments| - 1
      ensures Backs(segments[1..][i], logs[1..][i], picks[1..][i])
    {
      assert Backs(segments[i + 1], logs[i + 1], picks[i + 1]);
    }
  }

  lemma {:induction false} BackedCons(
    c: Closed, log: seq<Batch>, pick: seq<nat>, segments: seq<Closed>, logs: seq<seq<Batch>>, picks: seq<seq<nat>>)
    requires Backs(c, log, pick) && R.Backed(segments, logs, picks)
    ensures R.Backed([c] + segments, [log] + logs, [pick] + picks)
  {
    hide Backs;
  }

  lemma {:induction false} StayingBacked(
    segments: seq<Closed>, logs: seq<seq<Batch>>, picks: seq<seq<nat>>, expired: int -> bool)
    requires R.Backed(segments, logs, picks)
    ensures R.Backed(
              C.Unexpired(segments, expired), Staying(segments, logs, expired), Staying(segments, picks, expired))
    decreases |segments|
  {
    hide Backs;
    if segments != [] {
      UnexpiredHead(segments, expired);
      StayingHead(segments, logs, expired);
      StayingHead(segments, picks, expired);
      hide C.Unexpired, Staying;
      BackedHead(segments, logs, picks);
      var rest, l, p := segments[1..], logs[1..], picks[1..];
      StayingBacked(rest, l, p, expired);
      if !expired(segments[0].base) {
        BackedCons(segments[0], logs[0], picks[0],
                   C.Unexpired(rest, expired), Staying(rest, l, expired), Staying(rest, p, expired));
      }
    }
  }

  lemma {:induction false} StayingSizes(segments: seq<Closed>, limit: nat, expired: int -> bool)
    requires C.AtMost(segments, limit)
    ensures C.AtMost(C.Unexpired(segments, expired), limit)
  {
    if segments != [] {
      StayingSizes(segments[1..], limit, expired);
    }
  }

  lemma {:induction false} ClosedLast(logs: seq<seq<Batch>>, log: seq<Batch>)
    ensures R.ClosedBatches([]) == [] && R.ClosedBatches(logs + [log]) == R.ClosedBatches(logs) + log
  {
    R.LogJoined(logs, log);
  }

  lemma {:induction false} ClosedHead(log: seq<Batch>, logs: seq<seq<Batch>>)
    ensures R.ClosedBatches([log] + logs) == log + R.ClosedBatches(logs)
    decreases |logs|
  {
    hide R.ClosedBatches;
    if logs == [] {
      ClosedLast([], log);
      assert [log] + logs == [] + [log];
    } else {
      var n := |logs| - 1;
      ClosedHead(log, logs[..n]);
      ClosedLast([log] + logs[..n], logs[n]);
      ClosedLast(logs[..n], logs[n]);
      assert logs == logs[..n] + [logs[n]] && [log] + logs == ([log] + logs[..n]) + [logs[n]];
      assert (log + R.ClosedBatches(logs[..n])) + logs[n] == log + (R.ClosedBatches(logs[..n]) + logs[n]);
    }
  }

  // A segment without offsets has no batches.
  lemma {:induction false} NoOffsetsNoBatches(c: Closed, bs: seq<Batch>, picks: seq<nat>)
    requires Backs(c, bs, picks)
    ensures c.base <= c.end && (c.base == c.end ==> bs == [])
  {
    hide Layout, Picked, LogBytes;
    if bs != [] {
      AtLeastBase(bs, c.base, c.end, 0);
      BelowEnd(bs, c.base, c.end, 0);
    } else {
      NothingLaid(c.base, c.end);
    }
  }

  lemma {:induction false} NothingLaid(base: int, end: int)
    ensures Layout([], base, end) ==> base == end
  {
  }

  // If all segments with offsets stay, so do all batches.
  lemma {:induction false} AllBatchesStay(
    segments: seq<Closed>, logs: seq<seq<Batch>>, picks: seq<seq<nat>>, expired: int -> bool)
    requires R.Backed(segments, logs, picks) && NonEmptyKept(segments, expired)
    ensures R.ClosedBatches(Staying(segments, logs, expired)) == R.ClosedBatches(logs)
    decreases |segments|
  {
    hide Backs, R.ClosedBatches;
    if segments != [] {
      StayingHead(segments, logs, expired);
      BackedHead(segments, logs, picks);
      var rest, l, p := segments[1..], logs[1..], picks[1..];
      assert forall j :: 0 <= j < |rest| ==> rest[j] == segments[j + 1];
      AllBatchesStay(rest, l, p, expired);
      hide Staying, NonEmptyKept;
      NoOffsetsNoBatches(segments[0], logs[0], picks[0]);
      assert logs == [logs[0]] + l;
      ClosedHead(logs[0], l);
      ClosedHead(logs[0], Staying(rest, l, expired));
      HeadStays(segments, expired);
      assert [] + R.ClosedBatches(l) == R.ClosedBatches(l);
    }
  }

  lemma {:induction false} HeadStays(segments: seq<Closed>, expired: int -> bool)
    requires NonEmptyKept(segments, expired) && segments != []
    ensures segments[0].base < segments[0].end ==> !expired(segments[0].base)
  {
  }

  // Without gaps, what stays is the end of the log.
  lemma {:induction false} BatchesSuffix(
    segments: seq<Closed>, logs: seq<seq<Batch>>, picks: seq<seq<nat>>, expired: int -> bool) returns (n: nat)
    requires R.Backed(segments, logs, picks) && ExpiredFirst(segments, expired)
    ensures n <= |R.ClosedBatches(logs)|
    ensures R.ClosedBatches(Staying(segments, logs, expired)) == R.ClosedBatches(logs)[n..]
    decreases |segments|
  {
    hide Backs, R.ClosedBatches, ExpiredFirst;
    if segments == [] {
      n := 0;
      assert Staying(segments, logs, expired) == logs;
    } else {
      StayingHead(segments, logs, expired);
      BackedHead(segments, logs, picks);
      hide Staying;
      ExpiredFirstStep(segments, expired);
      var rest, l, p := segments[1..], logs[1..], picks[1..];
      assert logs == [logs[0]] + l;
      ClosedHead(logs[0], l);
      if expired(segments[0].base) {
        var m := BatchesSuffix(rest, l, p, expired);
        n := |logs[0]| + m;
        assert (logs[0] + R.ClosedBatches(l))[n..] == R.ClosedBatches(l)[m..];
      } else {
        n := 0;
        AllBatchesStay(rest, l, p, expired);
        ClosedHead(logs[0], Staying(rest, l, expired));
      }
    }
  }

  // Segments that all hold offsets still do.
  lemma {:induction false} LastStaysFull(segments: seq<Closed>, expired: int -> bool)
    requires Contiguous(segments) && R.LastFull(segments)
    ensures R.LastFull(C.Unexpired(segments, expired))
  {
    forall i | 0 <= i < |segments|
      ensures segments[i].base < segments[i].end
    {
      assert i + 1 < |segments| ==> segments[i].base < segments[i + 1].base == segments[i].end;
    }
    StayingFull(segments, expired);
  }

  lemma {:induction false} StayingFull(segments: seq<Closed>, expired: int -> bool)
    requires forall i :: 0 <= i < |segments| ==> segments[i].base < segments[i].end
    ensures forall s :: s in C.Unexpired(segments, expired) ==> s.base < s.end
  {
    if segments != [] {
      StayingFull(segments[1..], expired);
    }
  }

  // The segments that stay, with the active one: valid again if and only if there are no gaps.
  lemma {:induction false} StayingStacked(
    segments: seq<Closed>, logs: seq<seq<Batch>>, picks: seq<seq<nat>>, base: int, limit: nat, expired: int -> bool)
    requires R.Stacked(segments, logs, picks, base, limit)
    ensures |logs| == |picks| == |segments|
    ensures var (l, p) := (Staying(segments, logs, expired), Staying(segments, picks, expired));
            R.Stacked(C.Unexpired(segments, expired), l, p, base, limit) <==> ExpiredFirst(segments, expired)
  {
    hide C.Unexpired, Staying, ExpiredFirst, Contiguous, C.AtMost, Backs;
    StayingBacked(segments, logs, picks, expired);
    StayingSizes(segments, limit, expired);
    UnexpiredFollowsIff(segments, base, expired);
  }

  // What is left after a front part is gone.
  ghost predicate IsSuffix<T>(s: seq<T>, all: seq<T>) {
    exists n :: 0 <= n <= |all| && s == all[n..]
  }

  // An expiry pass of the cleaner: the replica stays valid, with the end of its log, if and only if no
  // segment with offsets has expired behind one that stays.
  method Expire(r: R.FileReplica, cleaner: C.Cleaner, expired: int -> bool)
    requires r.Valid() && cleaner.list == r.prev && cleaner.size == r.size
    modifies r.size`prev, r.prev, r`logs, r`picks
    ensures r.active.batches == old(r.active.batches) && r.prev.segments == C.Unexpired(old(r.prev.segments), expired)
    ensures r.size.prev == Occupied(r.prev.segments)
    ensures r.Valid() <==> ExpiredFirst(old(r.prev.segments), expired)
    ensures r.Valid() ==> IsSuffix(r.Batches(), old(r.Batches()))
  {
    hide R.FileReplica.Valid, Segment.Valid, SegmentList.Valid, Occupied, R.FileReplica.IndexLimit, R.LastFull;
    hide ExpiredFirst, R.Stacked, C.Unexpired, Staying, R.ClosedBatches, R.OccupiedBytes;
    ghost var before, logs, picks := r.prev.segments, r.logs, r.picks;
    ghost var n := AfterExpiry(r, expired);
    PartsOf(r);
    cleaner.EnforceTtl(expired);
    r.logs, r.picks := Staying(before, logs, expired), Staying(before, picks, expired);
    ValidIff(r);
  }

  // The parts of a valid replica that a pass leaves alone.
  ghost predicate Untouched(r: R.FileReplica)
    reads r, r.size, r.active, r.active.log, r.active.index, r.active.index.slots
  {
    && r.active.Valid()
    && r.active.log.maxLen == r.maxLen && r.interval + r.maxLen <= U32_LIMIT
    && r.active.index.slots.Length == r.indexMaxBytes / 8 && 0 <= r.active.baseOffset
    && (!r.shortCircuit ==> r.size.active == R.OccupiedBytes(r.active))
  }

  lemma {:induction false} PartsOf(r: R.FileReplica)
    requires r.Valid()
    ensures Untouched(r) && r.prev.Valid() && r.size.prev == Occupied(r.prev.segments)
  {
    hide Segment.Valid, SegmentList.Valid, Occupied, R.FileReplica.IndexLimit, R.LastFull, R.Stacked, R.OccupiedBytes;
  }

  lemma {:induction false} ValidIff(r: R.FileReplica)
    requires Untouched(r) && r.prev.Valid() && r.size.prev == Occupied(r.prev.segments)
    requires !r.shortCircuit ==> R.LastFull(r.prev.segments)
    ensures r.Valid() <==>
            R.Stacked(r.prev.segments, r.logs, r.picks, r.active.baseOffset, r.maxLen + r.IndexLimit())
  {
    hide Segment.Valid, SegmentList.Valid, Occupied, R.FileReplica.IndexLimit, R.LastFull, R.Stacked, R.OccupiedBytes;
  }

  // What is known of the replica before the pass.
  lemma {:induction false} AfterExpiry(r: R.FileReplica, expired: int -> bool) returns (n: nat)
    requires r.Valid()
    ensures |r.logs| == |r.picks| == |r.prev.segments|
    ensures var (l, p) := (Staying(r.prev.segments, r.logs, expired), Staying(r.prev.segments, r.picks, expired));
            && (R.Stacked(C.Unexpired(r.prev.segments, expired), l, p, r.active.baseOffset, r.maxLen + r.IndexLimit())
                <==> ExpiredFirst(r.prev.segments, expired))
            && (!r.shortCircuit ==> R.LastFull(C.Unexpired(r.prev.segments, expired)))
            && (ExpiredFirst(r.prev.segments, expired) ==>
                  n <= |r.Batches()| && R.ClosedBatches(l) + r.active.batches == r.Batches()[n..])
  {
    hide Segment.Valid, SegmentList.Valid, Occupied, R.FileReplica.IndexLimit, R.LastFull, ExpiredFirst;
    hide C.Unexpired, Staying, R.ClosedBatches, R.OccupiedBytes;
    StayingStacked(r.prev.segments, r.logs, r.picks, r.active.baseOffset, r.maxLen + r.IndexLimit(), expired);
    if !r.shortCircuit {
      LastStaysFull(r.prev.segments, expired);
    }
    n := 0;
    if ExpiredFirst(r.prev.segments, expired) {
      n := BatchesSuffix(r.prev.segments, r.logs, r.picks, expired);
      assert r.Batches()[n..] == R.ClosedBatches(r.logs)[n..] + r.active.batches;
    }
  }

  lemma {:induction false} LogsSuffix(logs: seq<seq<Batch>>, k: nat) returns (n: nat)
    requires k <= |logs|
    ensures n <= |R.ClosedBatches(logs)| && R.ClosedBatches(logs[k..]) == R.ClosedBatches(logs)[n..]
    decreases |logs|
  {
    hide R.ClosedBatches;
    if k == 0 {
      n := 0;
      assert logs[0..] == logs;
    } else {
      var m := LogsSuffix(logs[1..], k - 1);
      n := |logs[0]| + m;
      assert logs == [logs[0]] + logs[1..] && logs[k..] == logs[1..][k - 1..];
      ClosedHead(logs[0], logs[1..]);
      assert (logs[0] + R.ClosedBatches(logs[1..]))[n..] == R.ClosedBatches(logs[1..])[m..];
    }
  }

  lemma {:induction false} SuffixExpiresFirst(segments: seq<Closed>, k: nat, expired: int -> bool)
    requires k <= |segments| && ExpiredFirst(segments, expired)
    ensures ExpiredFirst(segments[k..], expired)
  {
    assert forall i :: 0 <= i < |segments| - k ==> segments[k..][i] == segments[k + i];
  }

  // The two passes of the cleaner, as it runs them: if segments expire oldest first, the replica stays
  // valid and holds the end of its log.
  method CleanPass(r: R.FileReplica, cleaner: C.Cleaner, expired: int -> bool)
    requires r.Valid() && cleaner.list == r.prev && cleaner.size == r.size && cleaner.segmentMax == r.maxLen > 0
    modifies r.size`prev, r.prev, r`logs, r`picks
    ensures r.active.batches == old(r.active.batches) && r.size.prev == Occupied(r.prev.segments)
    ensures ExpiredFirst(old(r.prev.segments), expired) ==> r.Valid()
    ensures r.Valid() ==> IsSuffix(r.Batches(), old(r.Batches()))
  {
    hide R.FileReplica.Valid, Occupied, ExpiredFirst, R.ClosedBatches, C.PassFloor, IsSuffix;
    ghost var segments, logs, whole := r.prev.segments, r.logs, r.Batches();
    R.Clean(r, cleaner);
    ghost var k :| 0 <= k <= |logs| == |segments| && r.logs == logs[k..] && r.prev.segments == segments[k..];
    ghost var m := LogsSuffix(logs, k);
    ghost var cleaned := r.Batches();
    FrontDropped(R.ClosedBatches(logs), r.active.batches, m);
    if ExpiredFirst(segments, expired) {
      SuffixExpiresFirst(segments, k, expired);
    }
    Expire(r, cleaner, expired);
    SuffixTwice(whole, cleaned, r.Batches());
  }

  lemma {:induction false} FrontDropped<T>(a: seq<T>, b: seq<T>, n: nat)
    requires n <= |a|
    ensures IsSuffix(a[n..] + b, a + b)
  {
    assert (a + b)[n..] == a[n..] + b;
  }

  lemma {:induction false} SuffixTwice<T>(a: seq<T>, b: seq<T>, c: seq<T>)
    requires IsSuffix(b, a)
    ensures IsSuffix(c, b) ==> IsSuffix(c, a)
  {
    if IsSuffix(c, b) {
      var m :| 0 <= m <= |a| && b == a[m..];
      var n :| 0 <= n <= |b| && c == b[n..];
      assert c == a[m + n..];
    }
  }
}
