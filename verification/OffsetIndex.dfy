/**
 The sparse offset index of a segment (fluvio-storage, mut_index.rs and index.rs).  The memory-mapped
 file is an array of slots holding byte-swapped (offset, position) pairs.
 */
module OffsetIndex {
  import opened Wrappers
  import opened Bytes

  const U32_LIMIT: int := 0x1_0000_0000

  type Size = x: int | 0 <= x < 0x1_0000_0000

  datatype Entry = Entry(offset: Size, position: Size)

  const EMPTY_SLOT := Entry(0, 0)

  // ----- byte order -----

  function Reversed(s: seq<Byte>): (r: seq<Byte>)
    ensures |r| == |s|
  {
    if s == [] then [] else Reversed(s[1..]) + [s[0]]
  }

  // u32::to_be on a little-endian machine
  function SwapBytes(x: Size): (r: Size) {
    Pow256Values();
    BigEndianInverse(Reversed(BigEndian(x, 4)));
    FromBigEndian(Reversed(BigEndian(x, 4)))
  }

  lemma {:induction false} ReversedTwice(s: seq<Byte>)
    ensures Reversed(Reversed(s)) == s
  {
    if s != [] {
      ReversedTwice(s[1..]);
      ReversedSnoc(Reversed(s[1..]), s[0]);
    }
  }

  lemma {:induction false} ReversedSnoc(s: seq<Byte>, b: Byte)
    ensures Reversed(s + [b]) == [b] + Reversed(s)
  {
    if s == [] {
      assert Reversed([b]) == Reversed([]) + [b];
    } else {
      assert (s + [b])[1..] == s[1..] + [b];
      ReversedSnoc(s[1..], b);
    }
  }

  lemma {:induction false} SwapTwice(x: Size)
    ensures SwapBytes(SwapBytes(x)) == x
  {
    Pow256Values();
    var bytes := Reversed(BigEndian(x, 4));
    BigEndianInverse(bytes);
    ReversedTwice(BigEndian(x, 4));
    BigEndianRoundTrip(x, 4);
  }

  lemma {:induction false} SwapZero()
    ensures SwapBytes(0) == 0
  {
    assert BigEndian(0, 4) == [0, 0, 0, 0];
    var z: seq<Byte> := [0, 0, 0, 0];
    assert Reversed(z) == z by {
      assert z[1..] == [0, 0, 0];
      assert z[1..][1..] == [0, 0];
      assert z[1..][1..][1..] == [0];
    }
    BigEndianRoundTrip(0, 4);
  }

  lemma {:induction false} ReversedFour(a: Byte, b: Byte, c: Byte, d: Byte)
    ensures Reversed([a, b, c, d]) == [d, c, b, a]
  {
    ReversedSnoc([a, b, c], d);
    ReversedSnoc([a, b], c);
    ReversedSnoc([a], b);
    ReversedSnoc([], a);
    hide Reversed;
    assert [] + [a] == [a] && [a] + [b] == [a, b] && [a, b] + [c] == [a, b, c] && [a, b, c] + [d] == [a, b, c, d];
    assert Reversed([a]) == [a] by { ReversedNone(); }
  }

  lemma {:induction false} ReversedNone()
    ensures Reversed([]) == []
  {
  }

  lemma {:induction false} FourDigits(x: Size)
    ensures 0 <= x / 0x100_0000 < 0x100
    ensures BigEndian(x, 4) == [x / 0x100_0000, x / 0x1_0000 % 0x100, x / 0x100 % 0x100, x % 0x100]
  {
    BigEndianByte(x, 4, 0);
    BigEndianByte(x, 4, 1);
    BigEndianByte(x, 4, 2);
    BigEndianByte(x, 4, 3);
    assert Pow256(0) == 1 && Pow256(1) == 0x100 && Pow256(2) == 0x1_0000 && Pow256(3) == 0x100_0000;
    hide BigEndian, Pow256;
  }

  // The four bytes change places: the last becomes the first.
  lemma {:induction false} SwapDigits(x: Size)
    ensures SwapBytes(x) ==
            (x % 0x100) * 0x100_0000 + (x / 0x100 % 0x100) * 0x1_0000 + (x / 0x1_0000 % 0x100) * 0x100 + x / 0x100_0000
  {
    hide BigEndian, FromBigEndian, Reversed, Pow256;
    FourDigits(x);
    var a, b, c, d := x / 0x100_0000, x / 0x1_0000 % 0x100, x / 0x100 % 0x100, x % 0x100;
    ReversedFour(a, b, c, d);
    FromFour(d, c, b, a);
  }

  // The file holds offset and position most significant byte first: the bytes of a stored slot, from the
  // lowest, are the digits of the number to the base 256, from the highest.
  lemma {:induction false} StoredBytes(e: Entry)
    ensures var slot := ToBe(e);
            && StoredDigits(slot.offset, e.offset) && StoredDigits(slot.position, e.position)
  {
    SwapDigits(e.offset);
    SwapDigits(e.position);
    hide SwapBytes;
    DigitsSwapped(e.offset, SwapBytes(e.offset));
    DigitsSwapped(e.position, SwapBytes(e.position));
  }

  predicate StoredDigits(stored: Size, x: Size) {
    && stored % 0x100 == x / 0x100_0000
    && stored / 0x100 % 0x100 == x / 0x1_0000 % 0x100
    && stored / 0x1_0000 % 0x100 == x / 0x100 % 0x100
    && stored / 0x100_0000 == x % 0x100
  }

  lemma {:induction false} DigitsSwapped(x: Size, y: Size)
    requires y ==
             (x % 0x100) * 0x100_0000 + (x / 0x100 % 0x100) * 0x1_0000 + (x / 0x1_0000 % 0x100) * 0x100 + x / 0x100_0000
    ensures StoredDigits(y, x)
  {
    FourDigits(x);
    hide BigEndian;
    DigitsOf(y, x % 0x100, x / 0x100 % 0x100, x / 0x1_0000 % 0x100, x / 0x100_0000);
  }

  lemma {:induction false} DigitsOf(y: Size, a: Byte, b: Byte, c: Byte, d: Byte)
    requires y == a * 0x100_0000 + b * 0x1_0000 + c * 0x100 + d
    ensures y / 0x100_0000 == a && y / 0x1_0000 % 0x100 == b && y / 0x100 % 0x100 == c && y % 0x100 == d
  {
    assert y / 0x100 == a * 0x1_0000 + b * 0x100 + c;
    assert y / 0x1_0000 == a * 0x100 + b;
  }

  function ToBe(e: Entry): Entry {
    Entry(SwapBytes(e.offset), SwapBytes(e.position))
  }

  // Storing and loading an entry is lossless, and only position 0 is stored as position 0.
  lemma {:induction false} ToBeTwice(e: Entry)
    ensures ToBe(ToBe(e)) == e
    ensures ToBe(e).position == 0 <==> e.position == 0
  {
    SwapTwice(e.offset);
    SwapTwice(e.position);
    SwapZero();
  }

  // ----- lookup -----

  predicate Increasing(entries: seq<Entry>) {
    forall i, j :: 0 <= i < j < |entries| ==>
      entries[i].offset < entries[j].offset && entries[i].position < entries[j].position
  }

  // The last entry whose offset does not exceed the wanted one.
  function Floor(entries: seq<Entry>, offset: Size): Option<Entry> {
    if entries == [] then None
    else if entries[|entries| - 1].offset <= offset then Some(entries[|entries| - 1])
    else Floor(entries[..|entries| - 1], offset)
  }

  lemma {:induction false} FloorAt(entries: seq<Entry>, offset: Size, k: nat)
    requires k < |entries| && entries[k].offset <= offset
    requires forall j :: k < j < |entries| ==> offset < entries[j].offset
    ensures Floor(entries, offset) == Some(entries[k])
  {
    if k < |entries| - 1 { FloorAt(entries[..|entries| - 1], offset, k); }
  }

  lemma {:induction false} FloorNone(entries: seq<Entry>, offset: Size)
    requires forall j :: 0 <= j < |entries| ==> offset < entries[j].offset
    ensures Floor(entries, offset) == None
  {
    if entries != [] { FloorNone(entries[..|entries| - 1], offset); }
  }

  function Stored(slots: seq<Entry>): (entries: seq<Entry>)
    ensures |entries| == |slots|
    ensures forall i :: 0 <= i < |slots| ==> entries[i] == ToBe(slots[i])
  {
    seq(|slots|, i requires 0 <= i < |slots| => ToBe(slots[i]))
  }

  // lookup_entry: binary search over stored slots
  method LookupEntry(slots: seq<Entry>, offset: Size) returns (r: Option<nat>)
    requires |slots| > 0 && Increasing(Stored(slots))
    ensures r.Some? ==> r.value < |slots| && Floor(Stored(slots), offset) == Some(Stored(slots)[r.value])
    ensures r.None? ==> Floor(Stored(slots), offset) == None
  {
    hide ToBe;
    ghost var entries := Stored(slots);
    var first := ToBe(slots[0]);
    if offset < first.offset {
      FloorNone(entries, offset);
      return None;
    }
    var low, high := 0, |slots|;
    while low < high
      invariant 0 <= low <= high <= |slots|
      invariant forall j :: 0 <= j < low ==> entries[j].offset < offset
      invariant forall j :: high <= j < |slots| ==> offset < entries[j].offset
    {
      var mid := (low + high) / 2;
      var candidate := ToBe(slots[mid]);
      if candidate.offset == offset {
        FloorAt(entries, offset, mid);
        return Some(mid);
      } else if candidate.offset < offset {
        low := mid + 1;
      } else {
        high := mid;
      }
    }
    FloorAt(entries, offset, low - 1);
    return Some(low - 1);
  }

  // ----- the mutable index -----

  datatype IndexState = IndexState(entries: seq<Entry>, accumulated: nat, lastDelta: nat)

  // One write_index call on the abstract state.
  function WriteStep(s: IndexState, interval: nat, capacity: nat, e: Entry, batchSize: nat): (r: IndexState)
    ensures r.lastDelta == e.offset
  {
    var s' := s.(lastDelta := e.offset);
    if s.accumulated < interval then s'.(accumulated := s.accumulated + batchSize)
    else if |s.entries| < capacity then s'.(entries := s.entries + [e], accumulated := 0)
    else s'
  }

  class MutLogIndex {
    const slots: array<Entry>
    const maxIndexInterval: Size
    var firstEmptySlot: nat
    var accumulatedBatchLen: Size
    var lastOffsetDelta: Size

    ghost predicate Valid()
      reads this, slots
    {
      firstEmptySlot <= slots.Length
    }

    // Nothing but zeroes behind the slots in use.
    ghost predicate Zeroed()
      reads this, slots
      requires Valid()
    {
      forall i :: firstEmptySlot <= i < slots.Length ==> slots[i] == EMPTY_SLOT
    }

    ghost function Entries(): seq<Entry>
      reads this, slots
      requires Valid()
    {
      Stored(slots[..firstEmptySlot])
    }

    ghost function State(): IndexState
      reads this, slots
      requires Valid()
    {
      IndexState(Entries(), accumulatedBatchLen, lastOffsetDelta)
    }

    // create: an index file of zeroes
    constructor (indexMaxBytes: nat, interval: Size)
      ensures Valid() && fresh(slots) && slots.Length == indexMaxBytes / 8 && maxIndexInterval == interval
      ensures State() == IndexState([], 0, 0) && Zeroed()
    {
      slots := new Entry[indexMaxBytes / 8](_ => EMPTY_SLOT);
      maxIndexInterval := interval;
      firstEmptySlot, accumulatedBatchLen, lastOffsetDelta := 0, 0, 0;
    }

    // open: the slots as they were stored, with the counters back at zero
    constructor Map(stored: array<Entry>, interval: Size, firstEmpty: nat)
      requires firstEmpty <= stored.Length
      ensures Valid() && slots == stored && maxIndexInterval == interval
      ensures State() == IndexState(Stored(stored[..firstEmpty]), 0, 0)
    {
      slots := stored;
      maxIndexInterval := interval;
      firstEmptySlot, accumulatedBatchLen, lastOffsetDelta := firstEmpty, 0, 0;
    }

    // The caller keeps offsets increasing and stays within u32, as the assertions in write_index demand.
    method WriteIndex(offsetDelta: Size, filePosition: Size, batchSize: Size)
      requires Valid()
      requires if offsetDelta > 0 then offsetDelta > lastOffsetDelta else lastOffsetDelta == 0
      requires accumulatedBatchLen < maxIndexInterval ==> accumulatedBatchLen + batchSize < U32_LIMIT
      modifies this, slots
      ensures Valid() && (old(Zeroed()) ==> Zeroed())
      ensures State() ==
              WriteStep(old(State()), maxIndexInterval, slots.Length, Entry(offsetDelta, filePosition), batchSize)
    {
      hide ToBe;
      lastOffsetDelta := offsetDelta;
      if accumulatedBatchLen < maxIndexInterval {
        accumulatedBatchLen := accumulatedBatchLen + batchSize;
        return;
      }
      if firstEmptySlot < slots.Length {
        var entry := Entry(offsetDelta, filePosition);
        ToBeTwice(entry);
        slots[firstEmptySlot] := ToBe(entry);
        accumulatedBatchLen := 0;
        firstEmptySlot := firstEmptySlot + 1;
        assert Entries() == old(Entries()) + [entry];
      }
    }

    method FindOffset(relativeOffset: Size) returns (r: Option<Entry>)
      requires Valid() && Increasing(Entries())
      ensures r == Floor(Entries(), relativeOffset)
    {
      if firstEmptySlot == 0 {
        return None;
      }
      var lower := slots[..firstEmptySlot];
      var found := LookupEntry(lower, relativeOffset);
      match found
      case Some(i) => r := Some(ToBe(slots[i]));
      case None => r := None;
    }

    // shrink: the file keeps exactly the slots in use
    method Shrink() returns (file: seq<Entry>)
      requires Valid()
      ensures Stored(file) == Entries()
    {
      file := slots[..firstEmptySlot];
    }
  }

  // The first slot whose position is 0, which is what open takes for an empty one.
  function FirstEmpty(slots: seq<Entry>): (r: Option<nat>)
    ensures r.Some? ==> r.value < |slots| && slots[r.value].position == 0
    ensures r.Some? ==> forall j :: 0 <= j < r.value ==> slots[j].position != 0
    ensures r.None? ==> forall j :: 0 <= j < |slots| ==> slots[j].position != 0
  {
    if slots == [] then None
    else if slots[0].position == 0 then Some(0)
    else
      var i :- FirstEmpty(slots[1..]);
      Some(i + 1)
  }

  // find_first_empty_index
  method FindFirstEmptyIndex(slots: array<Entry>) returns (r: Option<nat>)
    ensures r == FirstEmpty(slots[..])
  {
    for i := 0 to slots.Length
      invariant forall j :: 0 <= j < i ==> slots[j].position != 0
    {
      if slots[i].position == 0 {
        return Some(i);
      }
    }
    return None;
  }

  // open: fails when no slot looks empty
  method Open(stored: array<Entry>, interval: Size) returns (r: Option<MutLogIndex>)
    ensures r.None? <==> FirstEmpty(stored[..]).None?
    ensures r.Some? ==>
            && fresh(r.value) && r.value.Valid() && r.value.slots == stored && r.value.maxIndexInterval == interval
            && Some(r.value.firstEmptySlot) == FirstEmpty(stored[..])
            && r.value.State() == IndexState(Stored(stored[..r.value.firstEmptySlot]), 0, 0)
  {
    var slot := FindFirstEmptyIndex(stored);
    if slot.None? {
      return None;
    }
    var index := new MutLogIndex.Map(stored, interval, slot.value);
    r := Some(index);
  }

  // Opening a stored index of n entries finds n again if and only if no entry sits at position 0
  // and a slot is free; it fails if and only if every slot is taken by such entries.
  lemma {:induction false} ReopenIff(slots: seq<Entry>, n: nat)
    requires n <= |slots|
    requires forall i :: n <= i < |slots| ==> slots[i] == EMPTY_SLOT
    ensures FirstEmpty(slots) == Some(n) <==> n < |slots| && OffStart(Stored(slots[..n]))
    ensures FirstEmpty(slots) == None <==> n == |slots| && OffStart(Stored(slots[..n]))
  {
    hide ToBe, FirstEmpty;
    var entries := Stored(slots[..n]);
    forall i | 0 <= i < n
      ensures slots[i].position == 0 <==> entries[i].position == 0
    {
      ToBeTwice(slots[i]);
    }
    assert n < |slots| ==> slots[n] == EMPTY_SLOT && slots[n].position == 0;
    assert OffStart(entries) <==> forall i :: 0 <= i < n ==> slots[i].position != 0;
  }

  // No entry points at the start of the log.
  predicate OffStart(entries: seq<Entry>) {
    forall i :: 0 <= i < |entries| ==> entries[i].position != 0
  }

  /** The read-only index of a closed segment. */
  class LogIndex {
    const slots: seq<Entry>

    constructor (file: seq<Entry>)
      ensures slots == file
    {
      slots := file;
    }

    method FindOffset(offset: Size) returns (r: Option<Entry>)
      requires |slots| > 0 && Increasing(Stored(slots))
      ensures r == Floor(Stored(slots), offset)
    {
      var found := LookupEntry(slots, offset);
      match found
      case Some(i) => r := Some(ToBe(slots[i]));
      case None => r := None;
    }
  }
}
