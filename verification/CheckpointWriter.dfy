/**
 The replication checkpoint (fluvio-storage, checkpoint.rs): offsets are published at any time and a
 lazy writer stores the one it sees.  Publishing and writing interleave arbitrarily, and the writer
 may miss values in between.
 */
module CheckpointWriter {
  import opened Wrappers
  import opened Bytes

  predicate IsOffset(x: int) {
    InRange(x, true, 8)
  }

  // LazyWriter::read on a file: exactly 8 bytes are an offset.
  function ReadOffset(file: seq<Byte>): (r: Option<int>)
    ensures r.Some? <==> |file| == 8
    ensures r.Some? ==> IsOffset(r.value)
  {
    if |file| != 8 then None else Some(DecodeInt(file, true, 8).value.0)
  }

  // What CheckPoint::create takes from an existing file; an error resets to 0.
  function Recovered(file: seq<Byte>): (x: int)
    ensures IsOffset(x)
  {
    Pow256Values();
    match ReadOffset(file)
    case Some(x) => x
    case None => 0
  }

  // seek to the start and write 8 bytes
  function Overwrite(file: seq<Byte>, x: int): (r: seq<Byte>)
    requires IsOffset(x)
    ensures |r| == if |file| > 8 then |file| else 8
  {
    EncodeInt(x, true, 8) + if |file| > 8 then file[8..] else []
  }

  lemma {:induction false} OverwriteRecovers(file: seq<Byte>, x: int)
    requires IsOffset(x)
    ensures Recovered(Overwrite(file, x)) == if |file| <= 8 then x else 0
  {
    IntRoundTrip(x, true, 8, []);
    assert EncodeInt(x, true, 8) + [] == EncodeInt(x, true, 8);
  }

  /** `loaded` is LazyWriter.offset: the value read at start, which writing never updates. */
  class LazyWriter {
    var file: seq<Byte>
    var loaded: int

    constructor (file: seq<Byte>)
      ensures this.file == file && loaded == 0
    {
      this.file := file;
      loaded := 0;
    }

    method Read() returns (r: Option<int>)
      modifies this
      ensures r == ReadOffset(file) && file == old(file)
      ensures loaded == if r.Some? then r.value else old(loaded)
    {
      r := ReadOffset(file);
      if r.Some? {
        loaded := r.value;
      }
    }

    // One turn of write_loop on an offset from the listener.
    method OnOffset(offset: int)
      requires IsOffset(offset)
      modifies this
      ensures loaded == old(loaded)
      ensures file == WriteTurn(old(file), loaded, offset)
    {
      if offset != loaded {
        file := Overwrite(file, offset);
      }
    }
  }

  function WriteTurn(file: seq<Byte>, loaded: int, offset: int): seq<Byte>
    requires IsOffset(offset)
  {
    if offset == loaded then file else Overwrite(file, offset)
  }

  // CheckPoint::create: the file on disk, the published offset and the writer it starts.
  method Create(existing: Option<seq<Byte>>, initialOffset: int) returns (writer: LazyWriter, published: int)
    requires IsOffset(initialOffset)
    ensures fresh(writer)
    ensures existing.None? ==> writer.file == [] && writer.loaded == 0 && published == initialOffset
    ensures existing.Some? ==>
            writer.file == existing.value && published == Recovered(existing.value) == writer.loaded
  {
    if existing.Some? {
      writer := new LazyWriter(existing.value);
      var stored := writer.Read();
      published := if stored.Some? then stored.value else 0;
    } else {
      writer := new LazyWriter([]);
      published := initialOffset;
    }
  }

  // ----- runs -----

  datatype Event = Publish(offset: int) | Process

  /** `processed` are the offsets the writer has seen, in order. */
  datatype State = State(file: seq<Byte>, loaded: int, current: int, processed: seq<int>)

  function Run(s: State, events: seq<Event>): (s': State)
    requires IsOffset(s.current)
    requires forall i :: 0 <= i < |events| && events[i].Publish? ==> IsOffset(events[i].offset)
    ensures IsOffset(s'.current) && s'.loaded == s.loaded
  {
    if events == [] then s
    else
      var n := |events| - 1;
      var t := Run(s, events[..n]);
      match events[n]
      case Publish(offset) => t.(current := offset)
      case Process => t.(file := WriteTurn(t.file, t.loaded, t.current), processed := t.processed + [t.current])
  }

  // The last processed offset other than the loaded one: the only values that reach the file.
  function LastWritten(processed: seq<int>, loaded: int): (r: Option<int>)
    ensures r.Some? ==> r.value in processed && r.value != loaded
    ensures r.None? ==> forall i :: 0 <= i < |processed| ==> processed[i] == loaded
  {
    if processed == [] then None
    else if processed[|processed| - 1] != loaded then Some(processed[|processed| - 1])
    else LastWritten(processed[..|processed| - 1], loaded)
  }

  // The recovered value over any run: the starting value until something was written, then the last
  // written one, unless the starting file was too long.
  lemma {:induction false} RecoveredAfterRun(start: State, events: seq<Event>)
    requires start.processed == [] && IsOffset(start.current)
    requires forall i :: 0 <= i < |events| && events[i].Publish? ==> IsOffset(events[i].offset)
    ensures var s := Run(start, events);
            && (|s.file| > 8 <==> |start.file| > 8)
            && Recovered(s.file) ==
                 match LastWritten(s.processed, s.loaded)
                 case None => Recovered(start.file)
                 case Some(x) => if |start.file| <= 8 then x else 0
  {
    hide Recovered, Overwrite;
    if events != [] {
      var n := |events| - 1;
      RecoveredAfterRun(start, events[..n]);
      var t := Run(start, events[..n]);
      if events[n].Process? {
        OverwriteRecovers(t.file, t.current);
        assert (t.processed + [t.current])[..|t.processed|] == t.processed;
      }
    }
  }

  // A writer as CheckPoint::create starts it.
  predicate Started(s: State) {
    s.processed == [] && IsOffset(s.current) && s.loaded == Recovered(s.file)
  }

  // The recovered offset is the latest processed one if and only if the writer did not come back to
  // the offset it had loaded after writing another.
  lemma {:induction false} RecoversLatestIff(start: State, events: seq<Event>)
    requires Started(start) && |start.file| <= 8
    requires forall i :: 0 <= i < |events| && events[i].Publish? ==> IsOffset(events[i].offset)
    requires Run(start, events).processed != []
    ensures var s := Run(start, events);
            var latest := s.processed[|s.processed| - 1];
            Recovered(s.file) == latest <==>
            latest != s.loaded || forall i :: 0 <= i < |s.processed| ==> s.processed[i] == s.loaded
  {
    hide Recovered;
    RecoveredAfterRun(start, events);
  }

  lemma {:induction false} RevertProcesses(start: State, a: int, b: int)
    requires start.processed == [] && IsOffset(start.current) && IsOffset(a) && IsOffset(b)
    ensures Run(start, [Publish(b), Process, Publish(a), Process]).processed == [b, a]
  {
    hide WriteTurn;
    var one, two, three := [Publish(b)], [Publish(b), Process], [Publish(b), Process, Publish(a)];
    var events := [Publish(b), Process, Publish(a), Process];
    assert one[..0] == [] && two[..1] == one && three[..2] == two && events[..3] == three;
    assert Run(start, one).processed == [];
    assert Run(start, two).processed == [b];
    assert Run(start, three).processed == [b];
  }

  // Going back is not recorded: after a, b and a again, the file still says b.
  lemma {:induction false} RevertIsLost(start: State, a: int, b: int)
    requires Started(start) && |start.file| <= 8 && start.loaded == a && a != b && IsOffset(b)
    ensures var s := Run(start, [Publish(b), Process, Publish(a), Process]);
            s.processed[|s.processed| - 1] == a && Recovered(s.file) == b
  {
    hide Recovered, Overwrite, Run;
    var events := [Publish(b), Process, Publish(a), Process];
    RevertProcesses(start, a, b);
    RecoveredAfterRun(start, events);
    assert [b, a][..1] == [b];
    assert LastWritten([b, a], a) == Some(b);
  }

  // A file longer than 8 bytes never recovers anything but 0.
  lemma {:induction false} LongFileRecoversZero(start: State, events: seq<Event>)
    requires start.processed == [] && IsOffset(start.current) && |start.file| > 8
    requires forall i :: 0 <= i < |events| && events[i].Publish? ==> IsOffset(events[i].offset)
    ensures Recovered(Run(start, events).file) == 0
  {
    RecoveredAfterRun(start, events);
    assert ReadOffset(start.file).None?;
  }

  // Offsets published in non-decreasing order, from the starting one on.
  predicate NonDecreasing(from: int, events: seq<Event>)
    decreases |events|
  {
    events == [] ||
    (var n := |events| - 1;
     NonDecreasing(from, events[..n]) && (events[n].Publish? ==> events[n].offset >= LastPublished(from, events[..n])))
  }

  function LastPublished(from: int, events: seq<Event>): int {
    if events == [] then from
    else if events[|events| - 1].Publish? then events[|events| - 1].offset
    else LastPublished(from, events[..|events| - 1])
  }

  lemma {:induction false} ProcessedInOrder(start: State, events: seq<Event>)
    requires start.processed == [] && IsOffset(start.current) && NonDecreasing(start.current, events)
    requires forall i :: 0 <= i < |events| && events[i].Publish? ==> IsOffset(events[i].offset)
    ensures var s := Run(start, events);
            && s.current == LastPublished(start.current, events)
            && start.current <= s.current
            && (forall i :: 0 <= i < |s.processed| ==> start.current <= s.processed[i] <= s.current)
            && (forall i, j :: 0 <= i <= j < |s.processed| ==> s.processed[i] <= s.processed[j])
            && (forall i :: 0 <= i < |s.processed| ==>
                  s.processed[i] == start.current || Publish(s.processed[i]) in events)
            && (s.current == start.current || Publish(s.current) in events)
  {
    if events != [] {
      ProcessedInOrder(start, events[..|events| - 1]);
    }
  }

  // For every run of non-decreasing offsets from a file of at most 8 bytes, what is recovered is the
  // latest processed offset (the starting value before that), was published, and is not ahead.
  lemma {:induction false} SafeRecovery(start: State, events: seq<Event>)
    requires Started(start) && |start.file| <= 8
    requires start.current >= start.loaded && NonDecreasing(start.current, events)
    requires forall i :: 0 <= i < |events| && events[i].Publish? ==> IsOffset(events[i].offset)
    ensures var s := Run(start, events);
            var r := Recovered(s.file);
            && r <= s.current
            && (r == start.loaded || r == start.current || Publish(r) in events)
            && r == if s.processed == [] then start.loaded else s.processed[|s.processed| - 1]
  {
    hide Recovered;
    RecoveredAfterRun(start, events);
    ProcessedInOrder(start, events);
  }
}
