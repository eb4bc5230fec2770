/**
 The writing end of the threaded stream: chunks are compressed by other threads, merged back into order,
 and come out of the threaded reader as they were written.
 */
module ThreadedWriter {
  import opened Basics
  import opened Frames
  import opened ThreadedStream
  import Lz4Encoder

  function Joined(parts: seq<seq<byte>>): seq<byte> {
    if parts == [] then [] else Joined(parts[..|parts| - 1]) + parts[|parts| - 1]
  }

  lemma JoinedExtends(parts: seq<seq<byte>>, part: seq<byte>)
    ensures Joined(parts + [part]) == Joined(parts) + part
  {
    assert (parts + [part])[..|parts|] == parts;
  }

  /** The longest that a chunk can become by compression. */
  function WorstSize(data: seq<byte>): nat { |data| + |data| / 255 + 2 }

  /** Even after compression the lengths of these chunks fit their 32-bit fields. */
  ghost predicate AllSmall(jobs: seq<seq<byte>>) {
    forall c :: 0 <= c < |jobs| ==> WorstSize(jobs[c]) < TWO_32
  }

  // ----- The thread that writes

  class Lz4Writer {
    var buffer: seq<byte>
    var counter: nat
    /** The chunks sent to be compressed; their places are their numbers. */
    var jobs: seq<seq<byte>>

    ghost predicate Valid()
      reads this
    {
      |buffer| < CHUNK_SIZE && counter == |jobs|
    }

    ghost function Written(): seq<byte>
      reads this
    {
      Joined(jobs) + buffer
    }

    constructor ()
      ensures Valid() && Written() == [] && jobs == []
    {
      buffer, counter, jobs := [], 0, [];
    }

    /** Sends the whole buffer as one chunk. */
    method Flush()
      requires counter == |jobs|
      modifies this
      ensures Valid() && buffer == [] && Written() == Joined(jobs) == old(Written())
      ensures AllSmall(jobs) <==> old(AllSmall(jobs)) && (old(buffer) == [] || WorstSize(old(buffer)) < TWO_32)
      ensures jobs == old(jobs) + if old(buffer) == [] then [] else [old(buffer)]
    {
      if buffer == [] {
        return;
      }
      JoinedExtends(jobs, buffer);
      SmallExtends(jobs, buffer);
      jobs, counter, buffer := jobs + [buffer], counter + 1, [];
    }

    method Write(slice: seq<byte>) returns (n: nat)
      requires Valid()
      modifies this
      ensures Valid() && n == |slice| && Written() == old(Written()) + slice
      ensures AllSmall(jobs) <==>
        old(AllSmall(jobs)) && (|old(buffer)| + |slice| < CHUNK_SIZE || WorstSize(old(buffer) + slice) < TWO_32)
      ensures if |old(buffer)| + |slice| < CHUNK_SIZE then jobs == old(jobs) && buffer == old(buffer) + slice
        else jobs == old(jobs) + [old(buffer) + slice] && buffer == []
    {
      ConcatAssoc(Joined(jobs), buffer, slice);
      buffer := buffer + slice;
      if |buffer| >= CHUNK_SIZE {
        Flush();
      }
      n := |slice|;
    }

    /** Sends what is left; everything written has then been sent. */
    method Join()
      requires Valid()
      modifies this
      ensures Valid() && Joined(jobs) == old(Written())
      ensures AllSmall(jobs) <==> old(AllSmall(jobs))
      ensures jobs == old(jobs) + if old(buffer) == [] then [] else [old(buffer)]
    {
      Flush();
    }
  }

  lemma SmallExtends(jobs: seq<seq<byte>>, job: seq<byte>)
    ensures AllSmall(jobs + [job]) <==> AllSmall(jobs) && WorstSize(job) < TWO_32
  {
    var more := jobs + [job];
    assert more[|jobs|] == job;
    assert forall c :: 0 <= c < |jobs| ==> more[c] == jobs[c];
  }

  // ----- The threads that compress

  /** The bytes are a compressed form of the data. */
  ghost predicate Compressed(data: seq<byte>, bytes: seq<byte>) {
    Decoded(Chunk(true, bytes)) == Some(data) && |bytes| <= WorstSize(data)
  }

  /** What a compressing thread does with a chunk, whatever its dictionary finds. */
  method CompressJob(job: Item, insertSlot: nat -> nat, lookupSlot: nat -> nat) returns (r: Item)
    ensures r.counter == job.counter && Compressed(job.bytes, r.bytes)
  {
    var bytes := Lz4Encoder.Compress(job.bytes, insertSlot, lookupSlot);
    r := Item(job.counter, bytes);
  }

  /** How many chunks were sent, which wait, which are being compressed, and what was handed on, in that order. */
  datatype Workers = Workers(sent: nat, waiting: seq<nat>, working: set<nat>, done: seq<Item>)

  const IDLE := Workers(0, [], {}, [])

  ghost predicate Finishes(jobs: seq<seq<byte>>, s: Workers, t: Workers, item: Item) {
    && item.counter in s.working && item.counter < |jobs| && Compressed(jobs[item.counter], item.bytes)
    && t == s.(working := s.working - {item.counter}, done := s.done + [item])
  }

  /** A chunk is sent, taken up by a thread, or handed on by it. */
  ghost predicate WorkStep(jobs: seq<seq<byte>>, s: Workers, t: Workers) {
    || (s.sent < |jobs| && t == s.(sent := s.sent + 1, waiting := s.waiting + [s.sent]))
    || (s.waiting != [] && t == s.(waiting := s.waiting[1..], working := s.working + {s.waiting[0]}))
    || (exists item :: Finishes(jobs, s, t, item))
  }

  /** A run of any number of compressing threads, in any interleaving. */
  ghost predicate IsWork(jobs: seq<seq<byte>>, run: seq<Workers>) {
    run != [] && run[0] == IDLE && forall i :: 0 < i < |run| ==> WorkStep(jobs, run[i - 1], run[i])
  }

  ghost predicate AllDone(jobs: seq<seq<byte>>, s: Workers) {
    s.sent == |jobs| && s.waiting == [] && s.working == {}
  }

  /** Items with different numbers, each a chunk in compressed form. */
  ghost predicate Results(jobs: seq<seq<byte>>, items: seq<Item>) {
    && (forall i :: 0 <= i < |items| ==>
          items[i].counter < |jobs| && Compressed(jobs[items[i].counter], items[i].bytes))
    && (forall i, j :: 0 <= i < j < |items| ==> items[i].counter != items[j].counter)
  }

  /** Every chunk that was sent waits, is in work, or is done: it is in one of the places, and once. */
  ghost predicate WorkInv(jobs: seq<seq<byte>>, s: Workers) {
    && s.sent <= |jobs| && Results(jobs, s.done) && Distinct(s.waiting)
    && (forall i :: 0 <= i < |s.waiting| ==> s.waiting[i] < s.sent && s.waiting[i] !in s.working)
    && (forall c :: c in s.working ==> c < s.sent)
    && (forall i :: 0 <= i < |s.done| ==>
          s.done[i].counter < s.sent && s.done[i].counter !in s.working && s.done[i].counter !in s.waiting)
    && (forall c :: 0 <= c < s.sent ==> c in s.waiting || c in s.working || Arrived(s.done, c))
  }

  lemma SendKeepsInv(jobs: seq<seq<byte>>, s: Workers, t: Workers)
    requires WorkInv(jobs, s) && s.sent < |jobs| && t == s.(sent := s.sent + 1, waiting := s.waiting + [s.sent])
    ensures WorkInv(jobs, t)
  {
    assert forall c :: c in t.waiting <==> c in s.waiting || c == s.sent;
  }

  lemma TakeKeepsInv(jobs: seq<seq<byte>>, s: Workers, t: Workers)
    requires WorkInv(jobs, s) && s.waiting != []
    requires t == s.(waiting := s.waiting[1..], working := s.working + {s.waiting[0]})
    ensures WorkInv(jobs, t)
  {
    assert forall c :: c in s.waiting <==> c in t.waiting || c == s.waiting[0];
    assert s.waiting[0] !in t.waiting;
  }

  lemma FinishKeepsInv(jobs: seq<seq<byte>>, s: Workers, t: Workers, item: Item)
    requires WorkInv(jobs, s) && Finishes(jobs, s, t, item)
    ensures WorkInv(jobs, t)
  {
    hide Compressed;
    assert item.counter !in s.waiting;
    forall c | 0 <= c < t.sent ensures c in t.waiting || c in t.working || Arrived(t.done, c) {
      if c == item.counter {
        assert t.done[|s.done|].counter == c;
      } else if Arrived(s.done, c) {
        var i :| 0 <= i < |s.done| && s.done[i].counter == c;
        assert t.done[i].counter == c;
      }
    }
  }

  lemma {:induction false} WorkKeepsInv(jobs: seq<seq<byte>>, run: seq<Workers>, i: nat)
    requires IsWork(jobs, run) && i < |run|
    ensures WorkInv(jobs, run[i])
  {
    if i > 0 {
      WorkKeepsInv(jobs, run, i - 1);
      var s, t := run[i - 1], run[i];
      assert WorkStep(jobs, s, t);
      if s.sent < |jobs| && t == s.(sent := s.sent + 1, waiting := s.waiting + [s.sent]) {
        SendKeepsInv(jobs, s, t);
      } else if s.waiting != [] && t == s.(waiting := s.waiting[1..], working := s.working + {s.waiting[0]}) {
        TakeKeepsInv(jobs, s, t);
      } else {
        var item :| Finishes(jobs, s, t, item);
        FinishKeepsInv(jobs, s, t, item);
      }
    }
  }

  ghost predicate Complete(jobs: seq<seq<byte>>, items: seq<Item>) {
    Results(jobs, items) && forall c :: 0 <= c < |jobs| ==> Arrived(items, c)
  }

  /** When all is done, every chunk has been handed on in compressed form, once, whatever the interleaving. */
  lemma WorkDelivers(jobs: seq<seq<byte>>, run: seq<Workers>)
    requires IsWork(jobs, run) && AllDone(jobs, run[|run| - 1])
    ensures Complete(jobs, run[|run| - 1].done)
  {
    WorkKeepsInv(jobs, run, |run| - 1);
  }

  // ----- The file

  ghost function FrameAt(items: seq<Item>, c: nat): Chunk
    requires Arrived(items, c)
  {
    var i :| 0 <= i < |items| && items[i].counter == c;
    Chunk(true, items[i].bytes)
  }

  /** The first `n` frames of the file. */
  ghost function FramesFrom(items: seq<Item>, n: nat): seq<Chunk>
    requires forall c :: 0 <= c < n ==> Arrived(items, c)
  {
    seq(n, c requires 0 <= c < n => FrameAt(items, c))
  }

  lemma FrameAtItem(jobs: seq<seq<byte>>, items: seq<Item>, i: nat)
    requires Results(jobs, items) && i < |items|
    ensures Arrived(items, items[i].counter) && FrameAt(items, items[i].counter) == Chunk(true, items[i].bytes)
  {
    assert Arrived(items, items[i].counter);
    var j :| 0 <= j < |items| && items[j].counter == items[i].counter &&
      FrameAt(items, items[i].counter) == Chunk(true, items[j].bytes);
    assert i == j;
  }

  lemma FrameAtDecodes(jobs: seq<seq<byte>>, items: seq<Item>, c: nat)
    requires Complete(jobs, items) && c < |jobs|
    ensures FrameAt(items, c).compressed && Compressed(jobs[c], FrameAt(items, c).payload)
  {
    assert Arrived(items, c);
    var i :| 0 <= i < |items| && items[i].counter == c;
    FrameAtItem(jobs, items, i);
  }

  lemma FramesExtend(items: seq<Item>, n: nat)
    requires forall c :: 0 <= c <= n ==> Arrived(items, c)
    ensures FramesFrom(items, n + 1) == FramesFrom(items, n) + [FrameAt(items, n)]
  {
    hide FrameAt;
  }

  lemma {:induction false} FramesUnpack(jobs: seq<seq<byte>>, items: seq<Item>, n: nat)
    requires Complete(jobs, items) && n <= |jobs|
    ensures Unpacked(FramesFrom(items, n)) == Some(Joined(jobs[..n]))
  {
    hide FrameAt, Decoded, Results, Arrived;
    if n == 0 {
      assert Unpacked([]) == Some([]) && jobs[..0] == [];
    } else {
      hide FramesFrom, Unpacked, Joined;
      FramesUnpack(jobs, items, n - 1);
      FrameAtDecodes(jobs, items, n - 1);
      FramesExtend(items, n - 1);
      UnpackedExtends(FramesFrom(items, n - 1), FrameAt(items, n - 1));
      assert jobs[..n] == jobs[..n - 1] + [jobs[n - 1]];
      JoinedExtends(jobs[..n - 1], jobs[n - 1]);
    }
  }

  /** The frames of the file stand for what was sent, and their lengths fit. */
  lemma FramesStandFor(jobs: seq<seq<byte>>, items: seq<Item>)
    requires Complete(jobs, items)
    ensures var frames := FramesFrom(items, |jobs|);
      && FramesOf(frames, items) && Unpacked(frames) == Some(Joined(jobs))
      && (AllSmall(jobs) ==> AllShort(frames))
  {
    FramesUnpack(jobs, items, |jobs|);
    assert jobs[..|jobs|] == jobs;
    var frames := FramesFrom(items, |jobs|);
    forall i | 0 <= i < |items| ensures frames[items[i].counter] == Chunk(true, items[i].bytes) {
      FrameAtItem(jobs, items, i);
    }
    forall c | 0 <= c < |frames| ensures |frames[c].payload| <= WorstSize(jobs[c]) {
      FrameAtDecodes(jobs, items, c);
    }
  }

  /**
   The threads' results are merged into a file. Its frames read back exactly if their lengths fit, and then
   it unpacks to everything that was sent; chunks that are small enough before compression make them fit.
   */
  method MergeAll(ghost jobs: seq<seq<byte>>, items: seq<Item>) returns (file: seq<byte>)
    requires Complete(jobs, items)
    ensures file == FileBytes(FramesFrom(items, |jobs|))
    ensures ReadChunks(file) == FramesFrom(items, |jobs|) <==> AllShort(FramesFrom(items, |jobs|))
    ensures AllShort(FramesFrom(items, |jobs|)) ==> Unpacked(ReadChunks(file)) == Some(Joined(jobs))
    ensures AllSmall(jobs) ==> AllShort(FramesFrom(items, |jobs|))
  {
    hide Unpacked, FramesOf, FramesFrom, AllSmall, AllShort, FileBytes, ReadChunks, Results;
    ghost var frames := FramesFrom(items, |jobs|);
    ghost var merged;
    FramesStandFor(jobs, items);
    FramesFromLength(items, |jobs|);
    file, merged := Merge(items, frames);
    ReadFile(frames);
  }

  lemma FramesFromLength(items: seq<Item>, n: nat)
    requires forall c :: 0 <= c < n ==> Arrived(items, c)
    ensures |FramesFrom(items, n)| == n
  {}

  // ----- And back

  ghost predicate AllDelivered(chunks: seq<Chunk>, run: seq<Pipeline>) {
    IsRun(chunks, run) && run[|run| - 1].next == |chunks| && run[|run| - 1].waiting == []
  }

  lemma {:induction false} StopsAt(chunks: seq<Chunk>, n: nat)
    requires n < |chunks| && Decoded(chunks[n]).None?
    ensures Unpacked(chunks).None?
    decreases |chunks|
  {
    if n < |chunks| - 1 {
      StopsAt(chunks[..|chunks| - 1], n);
    }
  }

  /** Reads a file through the reading and decompressing threads: if all of it decodes, all of it comes out. */
  method ReadThreaded(ghost file: seq<byte>, ghost run: seq<Pipeline>, arrivals: seq<Item>, n: nat)
    returns (all: seq<byte>)
    requires n > 0 && AllDelivered(ReadChunks(file), run) && arrivals == run[|run| - 1].sent
    ensures Unpacked(ReadChunks(file)).Some? ==> all == Unpacked(ReadChunks(file)).value
  {
    hide Unpacked, ReadChunks, IsRun, Incoming;
    ghost var chunks := ReadChunks(file);
    RunDelivers(chunks, run);
    var reader := new Lz4Reader(chunks, arrivals);
    ghost var good;
    all, good := reader.ReadToEnd(n);
    if good < |chunks| {
      StopsAt(chunks, good);
    } else {
      assert chunks[..good] == chunks;
    }
  }

  /**
   The way of the bytes through all the threads: compressed in any interleaving, merged into a file, read and
   decompressed in any interleaving, they come out as they went in, as long as the lengths of the frames fit.
   */
  method WriteThenRead(ghost jobs: seq<seq<byte>>, compressed: seq<Item>, ghost run: seq<Pipeline>,
      delivered: seq<Item>, n: nat)
    returns (file: seq<byte>, all: seq<byte>)
    requires Complete(jobs, compressed) && n > 0
    requires AllDelivered(ReadChunks(FileBytes(FramesFrom(compressed, |jobs|))), run)
    requires delivered == run[|run| - 1].sent
    ensures AllShort(FramesFrom(compressed, |jobs|)) ==> all == Joined(jobs)
    ensures AllSmall(jobs) ==> all == Joined(jobs)
  {
    hide Unpacked, FramesFrom, AllSmall, AllShort, FileBytes, ReadChunks, Complete, IsRun;
    file := MergeAll(jobs, compressed);
    all := ReadThreaded(file, run, delivered, n);
  }
}
