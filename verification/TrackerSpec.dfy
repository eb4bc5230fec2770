/**
 Live culling, as a state machine: which allocations are pending in which table, what was sent over
 the sharded queues, and what every call does to both.
 */
module TrackerSpec {
  import opened Basics
  import opened Links
  import opened OrderedMaps
  import opened Trace

  /** A pending allocation with its reallocations. */
  datatype Bucket = Bucket(id: Id, events: seq<Buffered>)

  /** What is sent to the processing thread: a single event, or a whole bucket. */
  datatype Message = Single(event: Event) | Batch(bucket: Bucket)

  function MessageId(m: Message): Id {
    match m
    case Batch(b) => b.id
    case Single(e) => if e.Alloc? || e.Realloc? || e.Free? then e.id else UNTRACKED
  }

  /** The events the processing thread writes for a message. */
  function EventsOf(m: Message): seq<Event> {
    match m
    case Single(e) => [e]
    case Batch(b) => Chain(b.id, b.events, |b.events|)
  }

  // ----- The sharded queues

  const QUEUES := 5

  type Shards = qs: seq<seq<Message>> | |qs| == QUEUES witness [[], [], [], [], []]

  /** Messages waiting to be taken, messages taken but not yet handled, and all those handled. */
  datatype Channel = Channel(queues: Shards, buffers: Shards, received: seq<Message>)

  const IDLE := Channel([[], [], [], [], []], [[], [], [], [], []], [])

  /** The queue of a shard key: the key's third bit decides between the first and the last. */
  function QueueOf(key: nat): nat { if key / 4 % 2 == 1 then 4 else 0 }

  function Send(c: Channel, m: Message): Channel {
    var q := QueueOf(MessageId(m).thread);
    c.(queues := c.queues[q := c.queues[q] + [m]])
  }

  /** The consumer swaps one queue with its own empty buffer for it. */
  function Take(c: Channel, i: nat): Channel
    requires i < QUEUES
  {
    c.(queues := c.queues[i := c.buffers[i]], buffers := c.buffers[i := c.queues[i]])
  }

  /** The consumer handles everything in its buffers, one buffer after the other. */
  function Drain(c: Channel): Channel {
    c.(buffers := IDLE.buffers,
       received := c.received + c.buffers[0] + c.buffers[1] + c.buffers[2] + c.buffers[3] + c.buffers[4])
  }

  /** Every message is in the queue or the buffer of its allocation. */
  ghost predicate ChannelOk(c: Channel) {
    forall i :: 0 <= i < QUEUES ==> InQueue(c.queues[i], i) && InQueue(c.buffers[i], i)
  }

  ghost predicate InQueue(ms: seq<Message>, i: nat) {
    forall m :: m in ms ==> QueueOf(MessageId(m).thread) == i
  }

  /** Of the queues only the first and the last are used; the first is for threads whose number has no third bit. */
  lemma QueuesUsed(c: Channel, i: nat, m: Message)
    requires ChannelOk(c) && i < QUEUES && m in c.queues[i] + c.buffers[i]
    ensures i == if MessageId(m).thread % 8 < 4 then 0 else 4
  {
    hide QueueOf, MessageId;
    assert InQueue(c.queues[i], i) && InQueue(c.buffers[i], i);
    ThirdBit(MessageId(m).thread);
  }

  lemma ThirdBit(key: nat)
    ensures QueueOf(key) == if key % 8 < 4 then 0 else 4
  {
    var q, r := key / 8, key % 8;
    assert key == 4 * (2 * q) + r;
    assert key / 4 == 2 * q + r / 4;
  }

  /** The events about one allocation in the first `n` messages. */
  ghost function Delivered(ms: seq<Message>, n: nat, id: Id): seq<Event>
    requires n <= |ms|
  {
    if n == 0 then [] else Delivered(ms, n - 1, id) + (if MessageId(ms[n - 1]) == id then EventsOf(ms[n - 1]) else [])
  }

  ghost function About(ms: seq<Message>, id: Id): seq<Event> { Delivered(ms, |ms|, id) }

  lemma {:induction false} DeliveredPrefix(a: seq<Message>, b: seq<Message>, n: nat, id: Id)
    requires n <= |a|
    ensures Delivered(a + b, n, id) == Delivered(a, n, id)
  {
    if n > 0 {
      DeliveredPrefix(a, b, n - 1, id);
    }
  }

  lemma AboutOneMore(a: seq<Message>, m: Message, id: Id)
    ensures About(a + [m], id) == About(a, id) + (if MessageId(m) == id then EventsOf(m) else [])
  {
    DeliveredPrefix(a, [m], |a|, id);
  }

  lemma {:induction false} AboutConcat(a: seq<Message>, b: seq<Message>, id: Id)
    ensures About(a + b, id) == About(a, id) + About(b, id)
  {
    if b == [] {
      assert a + b == a;
    } else {
      var rest, m := b[..|b| - 1], b[|b| - 1];
      assert b == rest + [m] && a + b == (a + rest) + [m];
      AboutConcat(a, rest, id);
      AboutOneMore(a + rest, m, id);
      AboutOneMore(rest, m, id);
    }
  }

  lemma {:induction false} NotAbout(ms: seq<Message>, n: nat, i: nat, id: Id)
    requires n <= |ms| && InQueue(ms, i) && QueueOf(id.thread) != i
    ensures Delivered(ms, n, id) == []
  {
    if n > 0 {
      NotAbout(ms, n - 1, i, id);
      assert ms[n - 1] in ms;
    }
  }

  /** All events about an allocation that were sent, in the order in which they are or will be written. */
  ghost function Outgoing(c: Channel, id: Id): seq<Event>
    requires ChannelOk(c)
  {
    var q := QueueOf(id.thread);
    About(c.received, id) + About(c.buffers[q], id) + About(c.queues[q], id)
  }

  /** Sending appends, for the allocation the message is about and no other. */
  lemma SendOutgoing(c: Channel, m: Message, id: Id)
    requires ChannelOk(c)
    ensures ChannelOk(Send(c, m))
    ensures Outgoing(Send(c, m), id) == Outgoing(c, id) + (if MessageId(m) == id then EventsOf(m) else [])
  {
    AboutOneMore(c.queues[QueueOf(MessageId(m).thread)], m, id);
  }

  lemma TakeOutgoing(c: Channel, i: nat, id: Id)
    requires ChannelOk(c) && i < QUEUES && c.buffers[i] == []
    ensures ChannelOk(Take(c, i)) && Outgoing(Take(c, i), id) == Outgoing(c, id)
  {}

  lemma DrainAbout(r: seq<Message>, b: seq<seq<Message>>, id: Id)
    requires |b| == QUEUES && forall i :: 0 <= i < QUEUES ==> InQueue(b[i], i)
    ensures About(r + b[0] + b[1] + b[2] + b[3] + b[4], id) == About(r, id) + About(b[QueueOf(id.thread)], id)
  {
    hide Delivered, InQueue;
    AboutConcat(r, b[0], id);
    AboutConcat(r + b[0], b[1], id);
    AboutConcat(r + b[0] + b[1], b[2], id);
    AboutConcat(r + b[0] + b[1] + b[2], b[3], id);
    AboutConcat(r + b[0] + b[1] + b[2] + b[3], b[4], id);
    forall i | 0 <= i < QUEUES && i != QueueOf(id.thread) ensures About(b[i], id) == [] {
      NotAbout(b[i], |b[i]|, i, id);
    }
  }

  lemma DrainOutgoing(c: Channel, id: Id)
    requires ChannelOk(c)
    ensures ChannelOk(Drain(c)) && Outgoing(Drain(c), id) == Outgoing(c, id)
    ensures About(Drain(c).received, id) <= Outgoing(c, id)
  {
    DrainAbout(c.received, c.buffers, id);
  }

  // ----- Tables of pending allocations

  /** An ordered map from identifiers to buckets. */
  datatype Table = Table(order: seq<Id>, values: map<Id, Bucket>)

  const NOTHING := Table([], map[])

  ghost predicate TableOk(t: Table) {
    && Distinct(t.order) && (forall id :: id in t.order <==> id in t.values)
    && (forall id :: id in t.values ==> t.values[id].id == id && t.values[id].events != [])
  }

  ghost function Inserted(t: Table, id: Id, b: Bucket): Table {
    Table(Without(t.order, id) + [id], t.values[id := b])
  }

  ghost function Removed(t: Table, id: Id): Table {
    Table(Without(t.order, id), t.values - {id})
  }

  function Popped(t: Table): Table
    requires t.order != []
  {
    Table(t.order[1..], t.values - {t.order[0]})
  }

  lemma PoppedOk(t: Table)
    requires TableOk(t) && t.order != []
    ensures t.order[0] in t.values && t.values[t.order[0]].id == t.order[0]
    ensures TableOk(Popped(t)) && Popped(t) == Removed(t, t.order[0])
  {
    assert t.order[0] in t.order;
    WithoutAt(t.order, 0);
    var rest := t.order[1..];
    assert forall id :: id in rest ==> id in t.order;
    forall id | id in t.order && id != t.order[0] ensures id in rest {
      var i :| 0 <= i < |t.order| && t.order[i] == id;
      assert rest[i - 1] == id;
    }
  }

  lemma WithoutMembers(order: seq<Id>, id: Id)
    requires Distinct(order)
    ensures Distinct(Without(order, id)) && forall i :: i in Without(order, id) <==> i in order && i != id
  {
    if id in order {
      var p := Position(order, id);
      var rest := Cut(order, p);
      forall i | i in order && i != id ensures i in rest {
        var k := Position(order, i);
        assert rest[if k < p then k else k - 1] == i;
      }
      forall i | i in rest ensures i in order && i != id {
        var k := Position(rest, i);
        assert i == order[if k < p then k else k + 1];
      }
      CutDistinct(order, p);
    }
  }

  lemma RemovedOk(t: Table, id: Id)
    requires TableOk(t)
    ensures TableOk(Removed(t, id))
  {
    WithoutMembers(t.order, id);
  }

  lemma InsertedOk(t: Table, id: Id, b: Bucket)
    requires TableOk(t) && b.id == id && b.events != []
    ensures TableOk(Inserted(t, id, b))
  {
    WithoutMembers(t.order, id);
    var rest := Without(t.order, id);
    var order := rest + [id];
    assert forall i :: i in order <==> i in rest || i == id;
  }

  // ----- Flushing from the front

  datatype Flushed = Flushed(table: Table, channel: Channel)

  ghost predicate FlushOk(f: Flushed) { TableOk(f.table) && ChannelOk(f.channel) }

  /** Buckets are sent from the front as long as they should be, going by their number and the first of them. */
  function FlushWhile(f: Flushed, due: (nat, Bucket) -> bool): Flushed
    decreases |f.table.order|
  {
    var t := f.table;
    if t.order == [] || t.order[0] !in t.values || !due(|t.order|, t.values[t.order[0]]) then f
    else FlushWhile(Flushed(Popped(t), Send(f.channel, Batch(t.values[t.order[0]]))), due)
  }

  /** The events of an allocation that waits in a table. */
  ghost function Waiting(t: Table, id: Id): seq<Event> {
    if id in t.values then EventsOf(Batch(t.values[id])) else []
  }

  ghost predicate WasDue(b: Bucket, due: (nat, Bucket) -> bool) { exists n: nat :: due(n, b) }

  /** What flushing does to one allocation: nothing, or it moves from the table to the channel, in full. */
  ghost predicate Settled(f: Flushed, f': Flushed, due: (nat, Bucket) -> bool, id: Id)
    requires FlushOk(f) && FlushOk(f')
  {
    && Outgoing(f'.channel, id) + Waiting(f'.table, id) == Outgoing(f.channel, id) + Waiting(f.table, id)
    && (id in f'.table.values ==>
          id in f.table.values && f'.table.values[id] == f.table.values[id] &&
          Outgoing(f'.channel, id) == Outgoing(f.channel, id))
    && (id in f.table.values && id !in f'.table.values ==> WasDue(f.table.values[id], due))
  }

  lemma PopSettles(f: Flushed, due: (nat, Bucket) -> bool, id: Id)
    requires FlushOk(f) && f.table.order != [] && f.table.order[0] in f.table.values
    requires due(|f.table.order|, f.table.values[f.table.order[0]])
    ensures var f' := Flushed(Popped(f.table), Send(f.channel, Batch(f.table.values[f.table.order[0]])));
      FlushOk(f') && Settled(f, f', due, id)
  {
    hide ChannelOk, TableOk, Outgoing, Send, Removed, Chain;
    var b := f.table.values[f.table.order[0]];
    PoppedOk(f.table);
    SendOutgoing(f.channel, Batch(b), id);
    if id == b.id {
      assert WasDue(b, due);
    }
  }

  lemma SettledTrans(f: Flushed, g: Flushed, h: Flushed, due: (nat, Bucket) -> bool, id: Id)
    requires FlushOk(f) && FlushOk(g) && FlushOk(h) && Settled(f, g, due, id) && Settled(g, h, due, id)
    ensures Settled(f, h, due, id)
  {}

  lemma {:induction false} FlushSettles(f: Flushed, due: (nat, Bucket) -> bool, id: Id)
    requires FlushOk(f)
    ensures FlushOk(FlushWhile(f, due)) && Settled(f, FlushWhile(f, due), due, id)
    decreases |f.table.order|
  {
    hide ChannelOk, Outgoing, Send, Waiting;
    var t := f.table;
    if t.order != [] && t.order[0] in t.values && due(|t.order|, t.values[t.order[0]]) {
      var g := Flushed(Popped(t), Send(f.channel, Batch(t.values[t.order[0]])));
      PopSettles(f, due, id);
      FlushSettles(g, due, id);
      SettledTrans(f, g, FlushWhile(g, due), due, id);
    }
  }

  /** Flushing a table sends nothing about allocations that are not in it. */
  lemma SettledElsewhere(f: Flushed, f': Flushed, due: (nat, Bucket) -> bool, id: Id)
    requires FlushOk(f) && FlushOk(f') && Settled(f, f', due, id) && id !in f.table.values
    ensures Outgoing(f'.channel, id) == Outgoing(f.channel, id)
  {
    hide Outgoing, ChannelOk, TableOk;
    assert Outgoing(f'.channel, id) + [] == Outgoing(f'.channel, id);
    assert Outgoing(f.channel, id) + [] == Outgoing(f.channel, id);
  }
}
