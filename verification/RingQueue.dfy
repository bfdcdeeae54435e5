/** The circular buffer of queue_sem.c and queue_cond.c as a value, with the histories of
    enqueued and dequeued messages.

    A resize sets tail to count without wrapping. When the new capacity equals the count,
    tail equals the capacity; the next enqueue, once a dequeue has made room, would write
    one past the end of the buffer. `Healthy` says exactly when that cannot happen. */
module RingQueue {
  import opened MessageHash

  datatype Ring = Ring(cells: seq<Message>, capacity: nat, head: nat, tail: nat, count: nat)

  /** x % n for x below 2n. */
  function Wrap(x: nat, n: nat): (y: nat) {
    if x < n then x else x - n
  }

  lemma ModUnique(x: nat, n: nat, y: nat)
    requires 0 < n && y < n && (x == y || x == y + n)
    ensures x % n == y
  {
    var q, r := x / n, x % n;
    assert x == q * n + r;
    assert q >= 2 ==> q * n >= 2 * n;
  }

  lemma WrapIsMod(x: nat, n: nat)
    requires 0 < n && x < 2 * n
    ensures x % n == Wrap(x, n) < n
  {
    if x >= n {
      ModUnique(x, n, x - n);
    } else {
      ModUnique(x, n, x);
    }
  }

  /** tail is where the next message goes, or one past the end right after an exact resize. */
  ghost predicate Valid(r: Ring) {
    && |r.cells| == r.capacity > 0
    && r.head < r.capacity && r.tail <= r.capacity && r.count <= r.capacity
    && Wrap(r.tail, r.capacity) == Wrap(r.head + r.count, r.capacity)
  }

  /** The queued messages, oldest first. */
  function Contents(r: Ring): (s: seq<Message>)
    requires Valid(r)
    ensures |s| == r.count
    ensures forall i :: 0 <= i < r.count ==> s[i] == r.cells[Wrap(r.head + i, r.capacity)]
  {
    seq(r.count, i requires 0 <= i < r.count => r.cells[Wrap(r.head + i, r.capacity)])
  }

  // ----- operations

  function Empty(size: nat, uninitialised: seq<Message>): (r: Ring) {
    Ring(uninitialised, size, 0, 0, 0)
  }

  /** The message goes to the cell at tail, and tail moves on, round the end. */
  function Enqueue(r: Ring, m: Message): (e: Ring)
    requires r.tail < |r.cells| && r.capacity > 0
  {
    r.(cells := r.cells[r.tail := m], tail := (r.tail + 1) % r.capacity, count := r.count + 1)
  }

  /** head moves on, round the end. */
  function Dequeue(r: Ring): (d: Ring)
    requires r.count > 0 && r.capacity > 0
  {
    r.(head := (r.head + 1) % r.capacity, count := r.count - 1)
  }

  /** A new buffer of n cells that starts with the contents; the other cells are uninitialised. */
  function Resize(r: Ring, n: nat, uninitialised: seq<Message>): (z: Ring)
    requires Valid(r) && r.count <= n && |uninitialised| == n - r.count
  {
    Ring(Contents(r) + uninitialised, n, 0, r.count, r.count)
  }

  // ----- the ring behaves as a FIFO queue

  lemma EmptyIsEmpty(size: nat, uninitialised: seq<Message>)
    requires size > 0 && |uninitialised| == size
    ensures Valid(Empty(size, uninitialised)) && Contents(Empty(size, uninitialised)) == []
  {
  }

  /** As long as tail is a valid index, enqueue appends. */
  lemma EnqueueAppends(r: Ring, m: Message)
    requires Valid(r) && r.count < r.capacity && r.tail < r.capacity
    ensures Valid(Enqueue(r, m)) && Contents(Enqueue(r, m)) == Contents(r) + [m]
    ensures Enqueue(r, m).tail < r.capacity
  {
    WrapIsMod(r.tail + 1, r.capacity);
    var e := Enqueue(r, m);
    assert r.tail == Wrap(r.head + r.count, r.capacity);
    var s, l := Contents(e), Contents(r) + [m];
    forall i | 0 <= i < e.count ensures s[i] == l[i] {
      assert s[i] == e.cells[Wrap(r.head + i, r.capacity)];
    }
    assert s == l;
  }

  lemma DequeueRemovesFirst(r: Ring)
    requires Valid(r) && r.count > 0
    ensures Valid(Dequeue(r)) && Contents(r) == [r.cells[r.head]] + Contents(Dequeue(r))
    ensures Dequeue(r).tail == r.tail
  {
    WrapIsMod(r.head + 1, r.capacity);
    var d := Dequeue(r);
    var s, l := Contents(r), [r.cells[r.head]] + Contents(d);
    forall i | 0 <= i < r.count ensures s[i] == l[i] {
      assert s[i] == r.cells[Wrap(r.head + i, r.capacity)];
      if i > 0 {
        assert l[i] == Contents(d)[i - 1] == r.cells[Wrap(d.head + (i - 1), r.capacity)];
      }
    }
    assert s == l;
  }

  lemma NothingLeft(r: Ring)
    requires Valid(r) && r.count == 0
    ensures Contents(r) == []
  {
  }

  lemma ResizeKeepsContents(r: Ring, n: nat, uninitialised: seq<Message>)
    requires Valid(r) && r.count <= n && n > 0 && |uninitialised| == n - r.count
    ensures Valid(Resize(r, n, uninitialised)) && Contents(Resize(r, n, uninitialised)) == Contents(r)
    ensures Resize(r, n, uninitialised).tail < n <==> r.count < n
  {
    var z, s := Resize(r, n, uninitialised), Contents(r);
    forall i | 0 <= i < z.count ensures Contents(z)[i] == s[i] {
      assert Contents(z)[i] == z.cells[Wrap(0 + i, n)] == z.cells[i];
      assert z.cells[i] == s[i];
    }
    assert Contents(z) == s;
  }

  // ----- when a resize is safe

  /** What threads do to the ring between two resizes. */
  datatype Op = Put(m: Message) | Take

  /** The guard the threads test before the operation: room for a put, a message for a take. */
  predicate Allowed(r: Ring, op: Op) {
    if op.Put? then r.count < r.capacity else r.count > 0
  }

  function Apply(r: Ring, op: Op): (a: Ring)
    requires Allowed(r, op) && r.capacity > 0 && (op.Put? ==> r.tail < |r.cells|)
  {
    match op
    case Put(m) => Enqueue(r, m)
    case Take => Dequeue(r)
  }

  /** Every put in the sequence that passes its guard writes inside the buffer. */
  ghost predicate InBounds(r: Ring, ops: seq<Op>)
    requires r.capacity > 0
    decreases |ops|
  {
    ops == [] || !Allowed(r, ops[0]) ||
    ((ops[0].Put? ==> r.tail < |r.cells|) && InBounds(Apply(r, ops[0]), ops[1..]))
  }

  lemma {:induction false} HealthyRuns(r: Ring, ops: seq<Op>)
    requires Valid(r) && r.tail < r.capacity
    ensures InBounds(r, ops)
    decreases |ops|
  {
    if ops != [] && Allowed(r, ops[0]) {
      if ops[0].Put? {
        EnqueueAppends(r, ops[0].m);
      } else {
        DequeueRemovesFirst(r);
      }
      HealthyRuns(Apply(r, ops[0]), ops[1..]);
    }
  }

  /** After an exact resize, one take and one put write past the end. */
  lemma ExactOverflows(r: Ring, m: Message)
    requires Valid(r) && r.count > 0 && r.tail == r.capacity
    ensures !InBounds(r, [Take, Put(m)])
  {
    DequeueRemovesFirst(r);
    var d, ops := Dequeue(r), [Take, Put(m)];
    assert Allowed(d, Put(m)) && d.tail >= |d.cells|;
    assert !InBounds(d, [Put(m)]);
    assert Apply(r, ops[0]) == d && ops[1..] == [Put(m)];
  }

  /** A resize is followed only by in-bounds writes, whatever the threads then do, if and only
      if the new capacity exceeds the count. */
  lemma ResizeSafeIff(r: Ring, n: nat, uninitialised: seq<Message>)
    requires Valid(r) && r.count <= n && n > 0 && |uninitialised| == n - r.count
    ensures (forall ops: seq<Op> :: InBounds(Resize(r, n, uninitialised), ops)) <==> r.count < n
  {
    hide InBounds, Contents;
    var z := Resize(r, n, uninitialised);
    ResizeKeepsContents(r, n, uninitialised);
    if r.count < n {
      forall ops: seq<Op> ensures InBounds(z, ops) {
        HealthyRuns(z, ops);
      }
    } else {
      ExactOverflows(z, z.cells[0]);
    }
  }

  /** Capacity 10, five messages queued, one press of '-': the sixth message goes out of bounds. */
  lemma ShrinkTenToFive(q: seq<Message>, m: Message)
    requires |q| == 10
    ensures Valid(Ring(q, 10, 0, 5, 5)) && !InBounds(Resize(Ring(q, 10, 0, 5, 5), 5, []), [Take, Put(m)])
  {
    var r := Ring(q, 10, 0, 5, 5);
    ResizeKeepsContents(r, 5, []);
    ExactOverflows(Resize(r, 5, []), m);
  }

  // ----- a queue with its histories

  /** `exact` records that the last resize left no room and that nothing was enqueued since. */
  datatype Queue = Queue(ring: Ring, added: seq<Message>, extracted: seq<Message>, exact: bool)

  /** FIFO: what was extracted is the beginning of what was added, and the ring holds the rest. */
  ghost predicate Fifo(q: Queue) {
    && Valid(q.ring)
    && q.added == q.extracted + Contents(q.ring)
    && (q.exact <==> q.ring.tail == q.ring.capacity)
  }

  function NewQueue(size: nat, uninitialised: seq<Message>): (q: Queue) {
    Queue(Empty(size, uninitialised), [], [], false)
  }

  function Add(q: Queue, m: Message): (a: Queue)
    requires q.ring.tail < |q.ring.cells| && q.ring.capacity > 0
  {
    Queue(Enqueue(q.ring, m), q.added + [m], q.extracted, false)
  }

  function Extract(q: Queue): (e: Queue)
    requires q.ring.count > 0 && q.ring.capacity > 0 && q.ring.head < |q.ring.cells|
  {
    Queue(Dequeue(q.ring), q.added, q.extracted + [q.ring.cells[q.ring.head]], q.exact)
  }

  function Resized(q: Queue, n: nat, uninitialised: seq<Message>): (z: Queue)
    requires Valid(q.ring) && q.ring.count <= n && |uninitialised| == n - q.ring.count
  {
    Queue(Resize(q.ring, n, uninitialised), q.added, q.extracted, q.ring.count == n)
  }

  lemma NewQueueFifo(size: nat, uninitialised: seq<Message>)
    requires size > 0 && |uninitialised| == size
    ensures Fifo(NewQueue(size, uninitialised))
  {
    EmptyIsEmpty(size, uninitialised);
  }

  lemma AddFifo(q: Queue, m: Message)
    requires Fifo(q) && q.ring.count < q.ring.capacity && q.ring.tail < q.ring.capacity
    ensures Fifo(Add(q, m))
  {
    hide Contents, Enqueue;
    EnqueueAppends(q.ring, m);
    assert q.added + [m] == q.extracted + (Contents(q.ring) + [m]);
    EnqueueShape(q.ring, m);
  }

  lemma EnqueueShape(r: Ring, m: Message)
    requires r.tail < |r.cells| && r.capacity > 0
    ensures Enqueue(r, m).capacity == r.capacity && Enqueue(r, m).count == r.count + 1
  {
  }

  lemma ExtractFifo(q: Queue)
    requires Fifo(q) && q.ring.count > 0
    ensures Fifo(Extract(q))
  {
    hide Contents;
    DequeueRemovesFirst(q.ring);
    assert q.extracted + ([q.ring.cells[q.ring.head]] + Contents(Dequeue(q.ring)))
        == (q.extracted + [q.ring.cells[q.ring.head]]) + Contents(Dequeue(q.ring));
  }

  lemma ResizedFifo(q: Queue, n: nat, uninitialised: seq<Message>)
    requires Fifo(q) && q.ring.count <= n && n > 0 && |uninitialised| == n - q.ring.count
    ensures Fifo(Resized(q, n, uninitialised))
  {
    ResizeKeepsContents(q.ring, n, uninitialised);
  }

  // ----- what the operations do to count, capacity and history

  lemma AddShape(q: Queue, m: Message)
    requires q.ring.tail < |q.ring.cells| && q.ring.capacity > 0
    ensures Add(q, m).ring.count == q.ring.count + 1 && Add(q, m).ring.capacity == q.ring.capacity
    ensures Add(q, m).added == q.added + [m]
  {
  }

  lemma ExtractShape(q: Queue)
    requires q.ring.count > 0 && q.ring.capacity > 0 && q.ring.head < |q.ring.cells|
    ensures Extract(q).ring.count == q.ring.count - 1 && Extract(q).ring.capacity == q.ring.capacity
    ensures Extract(q).added == q.added
  {
  }

  lemma ResizedShape(q: Queue, n: nat, cells: seq<Message>)
    requires Valid(q.ring) && q.ring.count <= n && |cells| == n - q.ring.count
    ensures Resized(q, n, cells).ring.count == q.ring.count && Resized(q, n, cells).ring.capacity == n
    ensures Resized(q, n, cells).added == q.added && (Resized(q, n, cells).exact <==> q.ring.count == n)
  {
  }

  /** Totals: added minus extracted is the count, which never exceeds the capacity. */
  lemma FifoTotals(q: Queue)
    requires Fifo(q)
    ensures |q.added| - |q.extracted| == q.ring.count <= q.ring.capacity
    ensures q.extracted <= q.added
  {
  }
}
