/**
 The threaded stream: chunks are read, decompressed and delivered by several threads, and put back
 into file order by their counters.
 */
module ThreadedStream {
  import opened Basics
  import opened Frames

  /** A chunk in flight: its number in the file and its bytes. */
  datatype Item = Item(counter: nat, bytes: seq<byte>)

  // ----- The threads that feed the reader

  /** The reading thread's position, the compressed chunks waiting, and what has been delivered, in order of arrival. */
  datatype Pipeline = Pipeline(next: nat, waiting: seq<nat>, sent: seq<Item>)

  const START := Pipeline(0, [], [])

  /** One step of either thread. A chunk that does not decode is dropped. */
  ghost predicate Step(chunks: seq<Chunk>, s: Pipeline, t: Pipeline) {
    || (s.next < |chunks| && !chunks[s.next].compressed
        && t == s.(next := s.next + 1, sent := s.sent + [Item(s.next, chunks[s.next].payload)]))
    || (s.next < |chunks| && chunks[s.next].compressed
        && t == s.(next := s.next + 1, waiting := s.waiting + [s.next]))
    || (s.waiting != [] && s.waiting[0] < |chunks|
        && t == s.(waiting := s.waiting[1..], sent := s.sent + Delivered(chunks, s.waiting[0])))
  }

  function Delivered(chunks: seq<Chunk>, c: nat): seq<Item>
    requires c < |chunks|
  {
    match Decoded(chunks[c])
    case Some(bytes) => [Item(c, bytes)]
    case None => []
  }

  /** A run of the threads, in any interleaving. */
  ghost predicate IsRun(chunks: seq<Chunk>, run: seq<Pipeline>) {
    run != [] && run[0] == START && forall i :: 0 < i < |run| ==> Step(chunks, run[i - 1], run[i])
  }

  /** Every item is a decoded chunk of the file. */
  ghost predicate Genuine(chunks: seq<Chunk>, items: seq<Item>) {
    forall i :: 0 <= i < |items| ==>
      items[i].counter < |chunks| && Decoded(chunks[items[i].counter]) == Some(items[i].bytes)
  }

  ghost predicate Holds(chunks: seq<Chunk>, items: seq<Item>, c: nat)
    requires c < |chunks|
  {
    Decoded(chunks[c]).Some? ==> Item(c, Decoded(chunks[c]).value) in items
  }

  ghost predicate PipelineInv(chunks: seq<Chunk>, s: Pipeline) {
    && s.next <= |chunks| && Genuine(chunks, s.sent)
    && (forall i :: 0 <= i < |s.waiting| ==> s.waiting[i] < s.next)
    && (forall c :: 0 <= c < s.next ==> c in s.waiting || Holds(chunks, s.sent, c))
  }

  lemma StepKeepsInv(chunks: seq<Chunk>, s: Pipeline, t: Pipeline)
    requires PipelineInv(chunks, s) && Step(chunks, s, t)
    ensures PipelineInv(chunks, t)
  {
    forall c | 0 <= c < t.next ensures c in t.waiting || Holds(chunks, t.sent, c) {
      if c < s.next {
        if c in s.waiting {
          assert c in t.waiting || c == s.waiting[0];
        } else {
          assert Holds(chunks, s.sent, c) && s.sent <= t.sent;
        }
      } else if chunks[c].compressed {
        assert t.waiting[|s.waiting|] == c;
      } else {
        assert t.sent[|s.sent|] == Item(c, chunks[c].payload);
      }
    }
  }

  lemma {:induction false} RunKeepsInv(chunks: seq<Chunk>, run: seq<Pipeline>, i: nat)
    requires IsRun(chunks, run) && i < |run|
    ensures PipelineInv(chunks, run[i])
  {
    if i > 0 {
      RunKeepsInv(chunks, run, i - 1);
      StepKeepsInv(chunks, run[i - 1], run[i]);
    }
  }

  /** What is still to come: genuine, and complete from chunk `counter` on. */
  ghost predicate Incoming(chunks: seq<Chunk>, counter: nat, items: seq<Item>) {
    Genuine(chunks, items) && forall c :: counter <= c < |chunks| ==> Holds(chunks, items, c)
  }

  /** When the threads are done, exactly the chunks that decode have been delivered, whatever the interleaving. */
  lemma RunDelivers(chunks: seq<Chunk>, run: seq<Pipeline>)
    requires IsRun(chunks, run)
    requires run[|run| - 1].next == |chunks| && run[|run| - 1].waiting == []
    ensures Incoming(chunks, 0, run[|run| - 1].sent)
  {
    RunKeepsInv(chunks, run, |run| - 1);
  }

  // ----- The reader

  function SwapRemove<T>(s: seq<T>, i: nat): seq<T>
    requires i < |s|
  {
    s[i := s[|s| - 1]][..|s| - 1]
  }

  lemma SwapRemoveKeeps<T>(s: seq<T>, i: nat, x: T)
    requires i < |s| && x in s && x != s[i]
    ensures x in SwapRemove(s, i)
  {
    var j :| 0 <= j < |s| && s[j] == x;
    assert SwapRemove(s, i)[if j == |s| - 1 then i else j] == x;
  }

  /** The index of the item with a given counter. */
  method FindItem(queue: seq<Item>, counter: nat) returns (r: Option<nat>)
    ensures r.Some? ==> r.value < |queue| && queue[r.value].counter == counter
    ensures r.None? ==> forall i :: 0 <= i < |queue| ==> queue[i].counter != counter
  {
    for i := 0 to |queue|
      invariant forall j :: 0 <= j < i ==> queue[j].counter != counter
    {
      if queue[i].counter == counter {
        return Some(i);
      }
    }
    return None;
  }

  /** Taking the next chunk off the queue leaves all later ones. */
  lemma TakeFromQueue(chunks: seq<Chunk>, counter: nat, queue: seq<Item>, rx: seq<Item>, i: nat)
    requires Incoming(chunks, counter, queue + rx) && i < |queue| && queue[i].counter == counter
    ensures counter < |chunks| && Decoded(chunks[counter]) == Some(queue[i].bytes)
    ensures Incoming(chunks, counter + 1, SwapRemove(queue, i) + rx)
  {
    var before, after := queue + rx, SwapRemove(queue, i) + rx;
    assert before[i] == queue[i];
    forall j | 0 <= j < |after|
      ensures after[j].counter < |chunks| && Decoded(chunks[after[j].counter]) == Some(after[j].bytes)
    {
      if j < |queue| - 1 {
        assert after[j] == before[if j == i then |queue| - 1 else j];
      } else {
        assert after[j] == before[j + 1];
      }
    }
    forall c | counter + 1 <= c < |chunks| ensures Holds(chunks, after, c) {
      assert Holds(chunks, before, c);
      if Decoded(chunks[c]).Some? {
        var x := Item(c, Decoded(chunks[c]).value);
        if x in queue {
          SwapRemoveKeeps(queue, i, x);
        }
      }
    }
  }

  /** Taking the next chunk straight off the channel. */
  lemma TakeFromChannel(chunks: seq<Chunk>, counter: nat, queue: seq<Item>, rx: seq<Item>)
    requires Incoming(chunks, counter, queue + rx) && rx != [] && rx[0].counter == counter
    ensures counter < |chunks| && Decoded(chunks[counter]) == Some(rx[0].bytes)
    ensures Incoming(chunks, counter + 1, queue + rx[1..])
  {
    var before, after := queue + rx, queue + rx[1..];
    assert before[|queue|] == rx[0];
    forall j | 0 <= j < |after| ensures after[j] == before[if j < |queue| then j else j + 1] {}
    forall c | counter + 1 <= c < |chunks| ensures Holds(chunks, after, c) {
      assert Holds(chunks, before, c);
      assert Decoded(chunks[c]).Some? ==> Item(c, Decoded(chunks[c]).value) != rx[0];
    }
  }

  class Lz4Reader {
    var rx: seq<Item>
    var queue: seq<Item>
    var counter: nat
    var buffer: seq<byte>
    var position: nat
    ghost const chunks: seq<Chunk>
    ghost var given: seq<byte>

    /** What was given out, followed by what is left of the buffer, is the first `counter` chunks. */
    ghost predicate Valid()
      reads this
    {
      && position <= |buffer| && counter <= |chunks|
      && Unpacked(chunks[..counter]) == Some(given + buffer[position..])
      && Incoming(chunks, counter, queue + rx)
    }

    /** Everything before the first chunk that does not decode has been given out. */
    ghost predicate AtEnd()
      reads this
    {
      && counter <= |chunks| && (counter < |chunks| ==> Decoded(chunks[counter]).None?)
      && Unpacked(chunks[..counter]) == Some(given)
    }

    /** `arrivals` is what the channel will deliver before it closes. */
    constructor (ghost chunks: seq<Chunk>, arrivals: seq<Item>)
      requires Incoming(chunks, 0, arrivals)
      ensures Valid() && this.chunks == chunks && given == []
    {
      rx, queue, counter, buffer, position := arrivals, [], 0, [], 0;
      this.chunks, given := chunks, [];
      new;
      assert queue + rx == arrivals && chunks[..0] == [] && given + buffer[position..] == [];
    }

    method ReadCached(n: nat) returns (r: seq<byte>)
      requires Valid()
      modifies this`position, this`given
      ensures Valid() && given == old(given) + r
      ensures |r| == Min(n, |buffer| - old(position)) && position == old(position) + |r|
    {
      var len := Min(n, |buffer| - position);
      r := buffer[position..position + len];
      assert buffer[position..] == r + buffer[position + len..];
      ConcatAssoc(given, r, buffer[position + len..]);
      position, given := position + len, given + r;
    }

    /** The next chunk in file order becomes the buffer. */
    method Load(bytes: seq<byte>)
      requires counter < |chunks| && position == |buffer| && Decoded(chunks[counter]) == Some(bytes)
      requires Unpacked(chunks[..counter]) == Some(given + buffer[position..])
      modifies this`buffer, this`position, this`counter
      ensures counter == old(counter) + 1 && position <= |buffer| && buffer == bytes && position == 0
      ensures Unpacked(chunks[..counter]) == Some(given + buffer[position..])
    {
      assert given + buffer[position..] == given;
      assert chunks[..counter + 1][..counter] == chunks[..counter];
      buffer, position, counter := bytes, 0, counter + 1;
      assert buffer[position..] == bytes;
    }

    /** Makes the next chunk the buffer, receiving items until it turns up; false when the channel has closed. */
    method NextChunk() returns (found: bool)
      requires Valid() && position == |buffer|
      modifies this
      ensures Valid() && given == old(given)
      ensures found ==> |rx| < |old(rx)| || (|rx| == |old(rx)| && |queue| < |old(queue)|)
      ensures !found ==> AtEnd()
    {
      hide Incoming, Decoded, Unpacked;
      var index := FindItem(queue, counter);
      if index.Some? {
        TakeFromQueue(chunks, counter, queue, rx, index.value);
        var bytes := queue[index.value].bytes;
        queue := SwapRemove(queue, index.value);
        Load(bytes);
        return true;
      }
      while rx != []
        invariant Valid() && position == |buffer| && given == old(given) && |rx| <= |old(rx)|
        invariant forall i :: 0 <= i < |queue| ==> queue[i].counter != counter
        decreases |rx|
      {
        var item := rx[0];
        if item.counter == counter {
          TakeFromChannel(chunks, counter, queue, rx);
          rx := rx[1..];
          Load(item.bytes);
          return true;
        }
        assert queue + rx == (queue + [item]) + rx[1..];
        queue, rx := queue + [item], rx[1..];
      }
      NothingLeft(chunks, counter, queue, rx);
      assert given + buffer[position..] == given;
      return false;
    }

    /** Up to `n` bytes; none, for positive `n`, only at the end. */
    method Read(n: nat) returns (r: seq<byte>)
      requires Valid()
      modifies this
      ensures Valid() && given == old(given) + r && |r| <= n
      ensures r == [] && n > 0 ==> AtEnd()
      ensures r != [] ==>
        (old(|rx|), old(|queue|), old(|buffer| - position) decreases to |rx|, |queue|, |buffer| - position)
    {
      while position == |buffer|
        invariant Valid() && given == old(given) && |rx| <= |old(rx)|
        invariant (rx == old(rx) && queue == old(queue) && buffer == old(buffer) && position == old(position)) ||
          |rx| < |old(rx)| || (|rx| == |old(rx)| && |queue| < |old(queue)|)
        decreases |rx|, |queue|
      {
        var found := NextChunk();
        if !found {
          return [];
        }
      }
      r := ReadCached(n);
    }

    /** Reads to the end: all the bytes before the first chunk that does not decode, in file order. */
    method ReadToEnd(n: nat) returns (all: seq<byte>, ghost good: nat)
      requires Valid() && given == [] && n > 0
      modifies this
      ensures good <= |chunks| && (good < |chunks| ==> Decoded(chunks[good]).None?)
      ensures Unpacked(chunks[..good]) == Some(all)
    {
      all := [];
      while true
        invariant Valid() && given == all
        decreases |rx|, |queue|, |buffer| - position
      {
        var r := Read(n);
        all := all + r;
        if r == [] {
          good := counter;
          return;
        }
      }
    }
  }

  lemma NothingLeft(chunks: seq<Chunk>, counter: nat, queue: seq<Item>, rx: seq<Item>)
    requires Incoming(chunks, counter, queue + rx) && rx == []
    requires forall i :: 0 <= i < |queue| ==> queue[i].counter != counter
    ensures counter < |chunks| ==> Decoded(chunks[counter]).None?
  {
    if counter < |chunks| {
      assert Holds(chunks, queue + rx, counter) && queue + rx == queue;
    }
  }

  // ----- The writer's merge loop

  /** Every arrival is a frame under its own number. */
  ghost predicate FramesOf(frames: seq<Chunk>, items: seq<Item>) {
    forall i :: 0 <= i < |items| ==>
      items[i].counter < |frames| && frames[items[i].counter] == Chunk(true, items[i].bytes)
  }

  /** Writes `buffer` as frame number `expected` and then every queued frame that is next in order. */
  method WriteInOrder(file: seq<byte>, queue: seq<Item>, expected: nat, buffer: seq<byte>, ghost frames: seq<Chunk>)
    returns (file': seq<byte>, queue': seq<Item>, expected': nat)
    requires FramesOf(frames, queue) && expected < |frames| && frames[expected] == Chunk(true, buffer)
    requires file == FileBytes(frames[..expected])
    ensures expected < expected' <= |frames| && file' == FileBytes(frames[..expected'])
    ensures FramesOf(frames, queue') && forall i :: 0 <= i < |queue'| ==> queue'[i].counter != expected'
    ensures forall x :: x in queue && x.counter >= expected' ==> x in queue'
  {
    file', queue', expected' := file, queue, expected;
    var next := buffer;
    while true
      invariant expected <= expected' < |frames| && frames[expected'] == Chunk(true, next)
      invariant file' == FileBytes(frames[..expected']) && FramesOf(frames, queue')
      invariant forall x :: x in queue && x.counter > expected' ==> x in queue'
      decreases |frames| - expected'
    {
      FileExtends(frames[..expected'], frames[expected']);
      assert frames[..expected' + 1] == frames[..expected'] + [frames[expected']];
      file' := file' + FrameBytes(Chunk(true, next));
      expected' := expected' + 1;
      var index := FindItem(queue', expected');
      if index.None? {
        return;
      }
      next := queue'[index.value].bytes;
      forall x | x in queue && x.counter > expected' ensures x in SwapRemove(queue', index.value) {
        SwapRemoveKeeps(queue', index.value, x);
      }
      queue' := SwapRemove(queue', index.value);
    }
  }

  ghost predicate Arrived(arrivals: seq<Item>, c: nat) {
    exists i :: 0 <= i < |arrivals| && arrivals[i].counter == c
  }

  /**
   The merge thread: whatever order the frames arrive in, they are written in counter order, none lost or
   repeated.
   */
  method Merge(arrivals: seq<Item>, ghost frames: seq<Chunk>)
    returns (file: seq<byte>, ghost merged: nat)
    requires FramesOf(frames, arrivals)
    ensures merged <= |frames| && file == FileBytes(frames[..merged])
    ensures merged < |frames| ==> !Arrived(arrivals, merged)
    ensures (forall c :: 0 <= c < |frames| ==> Arrived(arrivals, c)) ==> file == FileBytes(frames)
  {
    file := [];
    var expected, queue := 0, [];
    for k := 0 to |arrivals|
      invariant expected <= |frames| && file == FileBytes(frames[..expected]) && FramesOf(frames, queue)
      invariant forall i :: 0 <= i < |queue| ==> queue[i].counter != expected
      invariant forall i :: 0 <= i < k && arrivals[i].counter >= expected ==> arrivals[i] in queue
    {
      var item := arrivals[k];
      if item.counter != expected {
        queue := queue + [item];
      } else {
        file, queue, expected := WriteInOrder(file, queue, expected, item.bytes, frames);
      }
    }
    merged := expected;
    assert merged == |frames| ==> frames[..merged] == frames;
  }
}
