/** Two things that do happen in the semaphore variant, for every initial size, with one producer
    and one consumer: the write past the end of the buffer, and a shrink request that is dropped
    although nothing is wrong with it. */
module SemOverflow {
  import opened MessageHash
  import opened RingQueue
  import opened SemQueue
  import opened SemSafety

  function Last(run: seq<State>): (s: State)
    requires run != []
  {
    run[|run| - 1]
  }

  lemma Extend(run: seq<State>, size: nat, s': State) returns (r: seq<State>)
    requires Run(run, size) && Next(Last(run), s')
    ensures r == run + [s'] && Run(r, size) && Last(r) == s'
  {
    hide Next, Init;
    r := run + [s'];
    forall i | 0 <= i < |r| - 1 ensures Next(r[i], r[i + 1]) {
      if i < |run| - 1 {
        assert Next(run[i], run[i + 1]);
      }
    }
  }

  lemma ExtendThread(run: seq<State>, size: nat, t: nat, sh': Shared, pc': Pc) returns (r: seq<State>)
    requires Run(run, size) && !Last(run).sh.fault && t < |Last(run).threads|
    requires var s := Last(run); ProducerMove(t, s.sh, s.threads[t], sh', pc') || ConsumerMove(t, s.sh, s.threads[t], sh', pc')
    ensures Run(r, size) && r != [] && Last(r) == State(sh', Last(run).threads[t := pc'])
  {
    hide Init, ProducerMove, ConsumerMove;
    var s, s' := Last(run), State(sh', Last(run).threads[t := pc']);
    assert ThreadStep(s, t, s');
    r := Extend(run, size, s');
  }

  lemma Bounds(run: seq<State>, size: nat)
    requires Run(run, size)
    ensures var q := Last(run).sh.queue;
            && q.ring.head < |q.ring.cells| == q.ring.capacity && q.ring.tail <= q.ring.capacity
            && (q.exact <==> q.ring.tail == q.ring.capacity)
  {
    hide Next, Init;
    InvRun(run, size, |run| - 1);
  }

  /** n messages queued in `capacity` cells, both threads at the top of their loops, nothing else
      going on. */
  ghost predicate Ready(run: seq<State>, size: nat, capacity: nat, n: nat) {
    && Run(run, size)
    && var sh := Last(run).sh;
       && Last(run).threads == [PTop, CTop] && sh.owner == FREE && sh.request == 0 && sh.cleanup == 0 && !sh.fault
       && sh.queue.ring.capacity == capacity && sh.queue.ring.count == n && !sh.queue.exact
       && sh.empty == capacity - n && sh.filled == n
  }

  lemma FillOne(run: seq<State>, size: nat, capacity: nat, n: nat) returns (r: seq<State>)
    requires Ready(run, size, capacity, n) && n < capacity
    ensures Ready(r, size, capacity, n + 1)
  {
    hide Next, Init, Contents, WellMade, Add, ConsumerMove;
    Bounds(run, size);
    var sh := Last(run).sh;
    var m := SomeMessage();
    AddShape(sh.queue, m);
    r := ExtendThread(run, size, 0, sh.(empty := sh.empty - 1), PToken);
    r := ExtendThread(r, size, 0, sh.(empty := sh.empty - 1), PMessage(m));
    r := ExtendThread(r, size, 0, sh.(empty := sh.empty - 1, owner := 0), PInside(m));
    var done := sh.(empty := sh.empty - 1, queue := Add(sh.queue, m));
    r := ExtendThread(r, size, 0, done, PAnnounce);
    r := ExtendThread(r, size, 0, done.(filled := done.filled + 1), PTop);
    AddNotExact(sh.queue, m);
  }

  lemma AddNotExact(q: Queue, m: Message)
    requires q.ring.tail < |q.ring.cells| && q.ring.capacity > 0
    ensures !Add(q, m).exact
  {
  }

  lemma {:induction false} FillTo(run: seq<State>, size: nat, capacity: nat, n: nat, upTo: nat) returns (r: seq<State>)
    requires Ready(run, size, capacity, n) && n <= upTo <= capacity
    ensures Ready(r, size, capacity, upTo)
    decreases upTo - n
  {
    if n == upTo {
      r := run;
    } else {
      r := FillOne(run, size, capacity, n);
      hide Ready;
      r := FillTo(r, size, capacity, n + 1, upTo);
    }
  }

  lemma Begin(size: nat) returns (r: seq<State>)
    requires size > 0 && size % 5 == 0
    ensures Ready(r, size, size, 0)
  {
    var m := SomeMessage();
    var cells := seq(size, _ => m);
    var sh := Shared(NewQueue(size, cells), size, 0, 0, 0, FREE, 0, 0, 0, 0, false, false);
    r := [State(sh, [])];
    r := Extend(r, size, State(sh, [PTop]));
    r := Extend(r, size, State(sh, [PTop, CTop]));
  }

  /** A key is pressed, and the consumer takes the mutex to look for the request. */
  lemma Press(run: seq<State>, size: nat, capacity: nat, n: nat, increase: bool) returns (r: seq<State>)
    requires Ready(run, size, capacity, n) && (increase || capacity >= 10)
    ensures Run(r, size) && r != []
    ensures Last(r) == State(
              Last(run).sh.(newCapacity := if increase then capacity + 5 else capacity - 5,
                            request := if increase then 1 else -1, owner := 1), [PTop, CInspect])
  {
    hide Init, Contents, Resized, ProducerMove, ResizeMove;
    var sh := Last(run).sh;
    var asked := Requested(sh, increase);
    assert Next(Last(run), State(asked, Last(run).threads));
    hide Next;
    r := Extend(run, size, State(asked, Last(run).threads));
    r := ExtendThread(r, size, 1, asked.(owner := 1), CInspect);
  }

  /** The consumer installs the new buffer. */
  lemma Install(run: seq<State>, size: nat, sh: Shared, n: nat, pc: Pc) returns (r: seq<State>)
    requires Run(run, size) && run != [] && Last(run) == State(sh, [PTop, CInspect]) && !sh.fault
    requires sh.request != 0 && sh.newCapacity == n && n > 0 && n >= sh.queue.ring.count && Valid(sh.queue.ring)
    requires var c := sh.queue.ring.capacity; pc == if n >= c then CPosting(LoopTop, n - c) else CTrying(LoopTop, c - n)
    ensures Run(r, size) && r != [] && Last(r).threads == [PTop, pc]
    ensures var q := Last(r).sh.queue;
            && Last(r).sh == sh.(queue := q) && q.ring.capacity == n && q.ring.count == sh.queue.ring.count
            && (q.exact <==> n == q.ring.count)
  {
    hide Run, Resized, Contents, ProducerMove;
    var m := SomeMessage();
    var cells := seq(n - sh.queue.ring.count, _ => m);
    ResizedShape(sh.queue, n, cells);
    var done := sh.(queue := Resized(sh.queue, n, cells));
    assert ResizeMove(sh, LoopTop, done, pc) by {
      assert |cells| == n - sh.queue.ring.count && done.queue == Resized(sh.queue, n, cells);
    }
    hide ResizeMove, Valid;
    r := ExtendThread(run, size, 1, done, pc);
  }

  /** The consumer carries out a growth. */
  lemma Grow(run: seq<State>, size: nat, capacity: nat, n: nat) returns (r: seq<State>)
    requires Ready(run, size, capacity, n) && n < capacity
    ensures Ready(r, size, capacity + 5, n)
  {
    hide Init, Next, Contents, ResizeMove, ProducerMove;
    assert Valid(Last(run).sh.queue.ring) by { InvRun(run, size, |run| - 1); }
    r := Press(run, size, capacity, n, true);
    r := Install(r, size, Last(r).sh, capacity + 5, CPosting(LoopTop, 5));
    hide Run, Valid;
    var mid := Last(r).sh;
    r := GiveOut(r, size, mid, 5);
    r := ExtendThread(r, size, 1, mid.(empty := mid.empty + 5, request := 0, owner := FREE), CTop);
  }

  /** The consumer carries out a shrink to exactly the number of queued messages. */
  lemma ShrinkToCount(run: seq<State>, size: nat, n: nat) returns (r: seq<State>)
    requires n > 0 && n % 5 == 0 && Ready(run, size, n + 5, n)
    ensures Run(r, size)
    ensures var sh := Last(r).sh;
            && Last(r).threads == [PTop, CTop] && sh.owner == FREE && sh.request == 0 && !sh.fault
            && sh.queue.ring.capacity == sh.queue.ring.count == n && sh.queue.exact && sh.filled == n
  {
    hide Init, Next, Contents, ResizeMove, ProducerMove;
    assert Valid(Last(run).sh.queue.ring) by { InvRun(run, size, |run| - 1); }
    r := Press(run, size, n + 5, n, false);
    r := Install(r, size, Last(r).sh, n, CTrying(LoopTop, 5));
    hide Run, Valid;
    var mid := Last(r).sh;
    r := TakeBack(r, size, mid, 5);
    r := ExtendThread(r, size, 1, mid.(empty := 0, request := 0, owner := FREE), CTop);
  }

  lemma {:induction false} TakeBack(run: seq<State>, size: nat, sh: Shared, left: nat) returns (r: seq<State>)
    requires Run(run, size) && Last(run) == State(sh, [PTop, CTrying(LoopTop, left)]) && !sh.fault && sh.empty == left
    ensures Run(r, size) && r != [] && Last(r) == State(sh.(empty := 0), [PTop, CTrying(LoopTop, 0)])
    decreases left
  {
    if left == 0 {
      r := run;
    } else {
      var next := sh.(empty := sh.empty - 1);
      r := ExtendThread(run, size, 1, next, CTrying(LoopTop, left - 1));
      hide Run, ConsumerMove, ProducerMove;
      r := TakeBack(r, size, next, left - 1);
    }
  }

  lemma {:induction false} GiveOut(run: seq<State>, size: nat, sh: Shared, left: nat) returns (r: seq<State>)
    requires Run(run, size) && Last(run) == State(sh, [PTop, CPosting(LoopTop, left)]) && !sh.fault
    ensures Run(r, size) && r != [] && Last(r) == State(sh.(empty := sh.empty + left), [PTop, CPosting(LoopTop, 0)])
    decreases left
  {
    if left == 0 {
      r := run;
    } else {
      var next := sh.(empty := sh.empty + 1);
      r := ExtendThread(run, size, 1, next, CPosting(LoopTop, left - 1));
      hide Run, ConsumerMove, ProducerMove;
      r := GiveOut(r, size, next, left - 1);
    }
  }

  /** The consumer takes one message out of the full queue. */
  lemma TakeOne(run: seq<State>, size: nat, n: nat) returns (r: seq<State>)
    requires Run(run, size) && n > 0
    requires var sh := Last(run).sh;
             && Last(run).threads == [PTop, CTop] && sh.owner == FREE && sh.request == 0 && !sh.fault
             && sh.queue.ring.capacity == sh.queue.ring.count == n && sh.queue.exact && sh.filled == n
    ensures Run(r, size)
    ensures var sh := Last(r).sh;
            && Last(r).threads == [PTop, CTop] && sh.owner == FREE && sh.request == 0 && !sh.fault
            && sh.queue.ring.capacity == n && sh.queue.ring.count == n - 1 && sh.queue.exact && sh.empty > 0
  {
    hide Init, Next, Extract, ResizeMove, ProducerMove;
    Bounds(run, size);
    var sh := Last(run).sh;
    r := ExtendThread(run, size, 1, sh.(owner := 1), CInspect);
    r := ExtendThread(r, size, 1, sh, CWait);
    var token := sh.(filled := sh.filled - 1);
    r := ExtendThread(r, size, 1, token, CToken);
    hide Run;
    r := Dequeued(r, size, token);
    ExtractShape(sh.queue);
    ExtractExact(sh.queue);
  }

  lemma Dequeued(run: seq<State>, size: nat, sh: Shared) returns (r: seq<State>)
    requires Run(run, size) && run != [] && Last(run) == State(sh, [PTop, CToken])
    requires sh.owner == FREE && sh.request == 0 && !sh.fault && sh.queue.ring.count > 0
    requires sh.queue.ring.head < |sh.queue.ring.cells| && sh.queue.ring.capacity > 0
    ensures Run(r, size) && r != [] && Last(r) == State(sh.(queue := Extract(sh.queue), empty := sh.empty + 1), [PTop, CTop])
  {
    hide Run, Extract, ResizeMove, ProducerMove;
    r := ExtendThread(run, size, 1, sh.(owner := 1), CInside);
    var taken := sh.(queue := Extract(sh.queue));
    r := ExtendThread(r, size, 1, taken, CRelease);
    r := ExtendThread(r, size, 1, taken.(empty := taken.empty + 1), CTop);
  }

  lemma ExtractExact(q: Queue)
    requires q.ring.count > 0 && q.ring.capacity > 0 && q.ring.head < |q.ring.cells|
    ensures Extract(q).exact == q.exact
  {
  }

  /** Press '+', fill the queue up to five cells, press '-', let the consumer take one message,
      and the producer's next message goes past the end; no cleanup and no failed trywait is
      needed. */
  lemma OverflowReachable(size: nat) returns (run: seq<State>)
    requires size > 0 && size % 5 == 0
    ensures Run(run, size) && Last(run).sh.fault
  {
    hide Init, Next, Contents, WellMade;
    run := Begin(size);
    run := Grow(run, size, size, 0);
    run := FillTo(run, size, size + 5, 0, size);
    run := ShrinkToCount(run, size, size);
    run := TakeOne(run, size, size);
    Bounds(run, size);
    hide ConsumerMove;
    var sh := Last(run).sh;
    var m := SomeMessage();
    var token := sh.(empty := sh.empty - 1);
    run := ExtendThread(run, size, 0, token, PToken);
    run := ExtendThread(run, size, 0, token, PMessage(m));
    run := ExtendThread(run, size, 0, token.(owner := 0), PInside(m));
    run := ExtendThread(run, size, 0, token.(owner := 0, fault := true), PInside(m));
  }

  /** Press '+', fill all cells, press '-': the consumer drops the pending shrink although it is
      well-formed and memory is available. */
  lemma ShrinkDropped(size: nat) returns (run: seq<State>)
    requires size > 0 && size % 5 == 0
    ensures Run(run, size) && |run| >= 2
    ensures var s, s' := run[|run| - 2], Last(run);
            && s.sh.request == -1 && s'.sh.request == 0 && s'.sh.queue == s.sh.queue
            && 0 < s.sh.newCapacity < s.sh.queue.ring.count
  {
    hide Init, Next, Contents, WellMade, ProducerMove;
    run := Begin(size);
    run := Grow(run, size, size, 0);
    run := FillTo(run, size, size + 5, 0, size + 5);
    run := Press(run, size, size + 5, size + 5, false);
    var sh := Last(run).sh;
    var dropped := sh.(request := 0, owner := FREE);
    assert ResizeMove(sh, LoopTop, dropped, CTop);
    assert ThreadStep(Last(run), 1, State(dropped, [PTop, CTop])) by {
      assert [PTop, CTop] == Last(run).threads[1 := CTop];
    }
    assert Next(Last(run), State(dropped, [PTop, CTop])) by { StepIsNext(Last(run), 1, State(dropped, [PTop, CTop])); }
    run := Extend(run, size, State(dropped, [PTop, CTop]));
  }

  lemma StepIsNext(s: State, t: nat, s': State)
    requires ThreadStep(s, t, s') && !s.sh.fault
    ensures Next(s, s')
  {
  }
}
