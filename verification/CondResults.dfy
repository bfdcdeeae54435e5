/** FIFO order, request coherence and the progress of a pending shrink in the
    condition-variable variant. */
module CondResults {
  import opened MessageHash
  import opened RingQueue
  import opened CondQueue

  // ----- the invariant

  ghost predicate RequestOk(sh: Shared) {
    && sh.request in {-1, 0, 1}
    && sh.queue.ring.capacity > 0 && sh.queue.ring.capacity % 5 == 0
    && (sh.request != 0 ==> sh.newCapacity == sh.queue.ring.capacity + 5 * sh.request && sh.newCapacity > 0)
  }

  /** resize_in_progress is up exactly while a consumer keeps the mutex for a resize, which was
      requested and does not go below the count. */
  ghost predicate ResizeOk(sh: Shared) {
    && (sh.inProgress <==> sh.owner != FREE)
    && (sh.inProgress ==> sh.request != 0 && sh.newCapacity >= sh.queue.ring.count)
  }

  ghost predicate SharedOk(sh: Shared) {
    && Fifo(sh.queue) && RequestOk(sh) && ResizeOk(sh) && sh.refused == 0
    && (sh.fault ==> sh.queue.exact)
    && forall m :: m in sh.queue.added ==> WellMade(m)
  }

  ghost predicate MutexOk(s: State) {
    && FREE <= s.sh.owner < |s.threads|
    && forall t :: 0 <= t < |s.threads| ==> (s.threads[t] == CResizing <==> s.sh.owner == t)
  }

  ghost predicate Inv(s: State) {
    SharedOk(s.sh) && MutexOk(s)
  }

  lemma InvInit(s: State, size: nat)
    requires Init(s, size)
    ensures Inv(s)
  {
    NewQueueFifo(size, s.sh.queue.ring.cells);
  }

  // ----- critical sections

  lemma ProducerKeeps(sh: Shared, sh': Shared, pc': Pc)
    requires SharedOk(sh) && !sh.fault && sh.owner == FREE && ProducerSection(sh, sh', pc')
    ensures SharedOk(sh') && sh'.owner == FREE && pc' != CResizing
    ensures sh'.queue.extracted == sh.queue.extracted && sh'.queue.ring.capacity == sh.queue.ring.capacity
    ensures sh.request != 0 ==> sh' == sh
    ensures sh' != sh ==> (sh'.fault <==> sh.queue.exact) && !sh'.queue.exact == !sh'.fault
  {
    hide Contents, WellMade;
    if sh'.queue != sh.queue {
      var m :| WellMade(m) && sh' == sh.(queue := Add(sh.queue, m));
      AddFifo(sh.queue, m);
    }
  }

  /** An attempt made when the request is due is never refused. */
  lemma BeginKeeps(t: nat, sh: Shared, sh': Shared, pc': Pc)
    requires SharedOk(sh) && sh.owner == FREE && sh.request != 0 && Due(sh) && BeginResize(t, sh, sh', pc')
    ensures SharedOk(sh') && sh' == sh.(inProgress := true, owner := t) && pc' == CResizing
  {
    hide Contents, WellMade;
  }

  lemma FinishKeeps(sh: Shared, sh': Shared, pc': Pc)
    requires SharedOk(sh) && !sh.fault && sh.owner != FREE && FinishResize(sh, sh', pc')
    ensures SharedOk(sh') && sh'.request == 0 && sh'.owner == FREE && pc' == CTop && !sh'.fault
    ensures sh'.queue.extracted == sh.queue.extracted && sh'.queue.added == sh.queue.added
    ensures sh'.queue.ring.count == sh.queue.ring.count
    ensures sh'.queue == sh.queue ||
            (sh'.queue.ring.capacity != sh.queue.ring.capacity
             && (sh'.queue.exact <==> sh'.queue.ring.capacity == sh'.queue.ring.count))
  {
    hide Contents, WellMade;
    if sh'.queue != sh.queue {
      var n := sh.newCapacity;
      var cells: seq<Message> :| |cells| == n - sh.queue.ring.count && sh'.queue == Resized(sh.queue, n, cells);
      ResizedFifo(sh.queue, n, cells);
      ResizedShape(sh.queue, n, cells);
      assert n == sh.queue.ring.capacity + 5 || n == sh.queue.ring.capacity - 5;
    }
  }

  lemma ExtractKeeps(sh: Shared)
    requires SharedOk(sh) && !sh.fault && sh.owner == FREE && sh.queue.ring.count > 0
    ensures SharedOk(sh.(queue := Extract(sh.queue)))
    ensures Extract(sh.queue).ring.count == sh.queue.ring.count - 1 && Extract(sh.queue).added == sh.queue.added
    ensures |Extract(sh.queue).extracted| == |sh.queue.extracted| + 1
    ensures Extract(sh.queue).exact == sh.queue.exact && Extract(sh.queue).ring.capacity == sh.queue.ring.capacity
  {
    hide Contents, WellMade;
    ExtractFifo(sh.queue);
  }

  /** What a consumer's stretch of code can do: nothing, begin a resize, or take one message and
      then possibly begin a resize. */
  lemma ConsumerKeeps(t: nat, sh: Shared, pc: Pc, sh': Shared, pc': Pc)
    requires SharedOk(sh) && !sh.fault && sh.owner == FREE && ConsumerSection(t, sh, pc, sh', pc')
    ensures SharedOk(sh') && (sh'.owner == FREE || sh'.owner == t) && (pc' == CResizing <==> sh'.owner == t)
    ensures sh'.request == sh.request && sh'.newCapacity == sh.newCapacity
    ensures sh'.queue == sh.queue || (sh.queue.ring.count > 0 && sh'.queue == Extract(sh.queue))
    ensures sh'.queue != sh.queue && sh.request == -1 ==>
              (sh'.inProgress <==> sh'.queue.ring.count <= sh.newCapacity)
  {
    hide Contents, WellMade, Extract, RequestOk;
    if pc == CTop && sh.request != 0 && Due(sh) {
      BeginKeeps(t, sh, sh', pc');
    } else if sh.queue.ring.count > 0 {
      ExtractKeeps(sh);
      var taken := sh.(queue := Extract(sh.queue));
      if sh' != sh && taken.request == -1 && Due(taken) {
        BeginKeeps(t, taken, sh', pc');
      }
    }
  }

  lemma SectionKeeps(t: nat, sh: Shared, pc: Pc, sh': Shared, pc': Pc)
    requires SharedOk(sh) && !sh.fault && Section(t, sh, pc, sh', pc') && (pc == CResizing <==> sh.owner == t)
    ensures SharedOk(sh') && (pc' == CResizing <==> sh'.owner == t)
    ensures sh'.owner == sh.owner || (sh.owner == FREE && sh'.owner == t) || (sh.owner == t && sh'.owner == FREE)
  {
    hide Contents, WellMade, ConsumerSection, ProducerSection, FinishResize, SharedOk;
    if pc == CResizing {
      FinishKeeps(sh, sh', pc');
    } else if sh' == sh && pc' == Exited {
    } else if pc == PTop || pc == PWaiting {
      ProducerKeeps(sh, sh', pc');
    } else {
      ConsumerKeeps(t, sh, pc, sh', pc');
    }
  }

  // ----- every run

  lemma InvStep(s: State, s': State)
    requires Inv(s) && Next(s, s')
    ensures Inv(s')
  {
    if MainStep(s, s') {
      hide WellMade, Fifo;
    } else {
      hide SharedOk, Section;
      var t: nat :| ThreadStep(s, t, s');
      SectionKeeps(t, s.sh, s.threads[t], s'.sh, s'.threads[t]);
    }
  }

  lemma {:induction false} InvRun(run: seq<State>, size: nat, i: nat)
    requires Run(run, size) && i < |run|
    ensures Inv(run[i])
  {
    hide Inv, Next, Init;
    if i == 0 {
      InvInit(run[0], size);
    } else {
      InvRun(run, size, i - 1);
      assert Next(run[i - 1], run[i - 1 + 1]);
      InvStep(run[i - 1], run[i]);
    }
  }

  // ----- results over whole runs

  /** FIFO over whole runs, as in the semaphore variant; the totals agree with the histories. */
  lemma FifoOverRuns(run: seq<State>, size: nat, i: nat)
    requires Run(run, size) && i < |run|
    ensures var q := run[i].sh.queue;
            && q.extracted <= q.added
            && Valid(q.ring) && q.added[|q.extracted|..] == Contents(q.ring)
            && |q.added| - |q.extracted| == q.ring.count <= q.ring.capacity
            && forall m :: m in q.extracted ==> m.hash == CalculateHash(m)
  {
    hide Run, CalculateHash, Contents;
    InvRun(run, size, i);
    var q := run[i].sh.queue;
    FifoTotals(q);
    forall m | m in q.extracted ensures m.hash == CalculateHash(m) {
      assert m in q.added;
    }
  }

  /** The "Cannot shrink" error is never reached, resize_in_progress is up exactly while a
      consumer keeps the mutex, and a pending request fits the capacity. */
  lemma RequestsHonoured(run: seq<State>, size: nat, i: nat)
    requires Run(run, size) && i < |run|
    ensures var sh, c := run[i].sh, run[i].sh.queue.ring.capacity;
            && sh.refused == 0 && (sh.inProgress <==> sh.owner != FREE)
            && (sh.inProgress ==> sh.request != 0 && sh.newCapacity >= sh.queue.ring.count)
            && sh.request in {-1, 0, 1} && c > 0 && c % 5 == 0
            && (sh.request != 0 ==> sh.newCapacity == c + 5 * sh.request > 0)
  {
    hide Run;
    InvRun(run, size, i);
  }

  // ----- the write past the end

  /** Whenever a producer's stretch of code changes anything, it writes past the end of the buffer
      if and only if the last resize left no room and nothing was enqueued since; otherwise it
      enqueues. */
  lemma OverflowIff(run: seq<State>, size: nat, i: nat, t: nat, s': State)
    requires Run(run, size) && i < |run| && !run[i].sh.fault && ThreadStep(run[i], t, s')
    requires (run[i].threads[t] == PTop || run[i].threads[t] == PWaiting) && s'.sh != run[i].sh
    ensures s'.sh.fault <==> run[i].sh.queue.exact
    ensures !s'.sh.fault ==> |s'.sh.queue.added| == |run[i].sh.queue.added| + 1
  {
    hide Run, Contents;
    InvRun(run, size, i);
  }

  /** The step from s to s' puts a new buffer in place. */
  predicate Installs(s: State, s': State) {
    s'.sh.queue.ring.capacity != s.sh.queue.ring.capacity
  }

  /** Only a resize to exactly the count makes the next enqueue dangerous. */
  lemma ExactArises(s: State, s': State)
    requires Inv(s) && Next(s, s') && !s.sh.queue.exact && s'.sh.queue.exact
    ensures Installs(s, s') && s'.sh.queue.ring.capacity == s'.sh.queue.ring.count
  {
    hide Contents, WellMade, ConsumerSection, ProducerSection, FinishResize, SharedOk;
    if !MainStep(s, s') {
      var t: nat :| ThreadStep(s, t, s');
      var pc := s.threads[t];
      if pc == CResizing {
        FinishKeeps(s.sh, s'.sh, s'.threads[t]);
      } else if pc == PTop || pc == PWaiting {
        ProducerKeeps(s.sh, s'.sh, s'.threads[t]);
      } else {
        ConsumerKeeps(t, s.sh, pc, s'.sh, s'.threads[t]);
        ExtractKeeps(s.sh);
      }
    }
  }

  /** Every buffer that is installed during the run has more cells than there are messages. */
  ghost predicate Roomy(run: seq<State>) {
    forall i :: 0 <= i < |run| - 1 && Installs(run[i], run[i + 1]) ==>
      run[i + 1].sh.queue.ring.capacity > run[i + 1].sh.queue.ring.count
  }

  /** A run in which every installed resize leaves room never writes past the end. */
  lemma {:induction false} RoomyRunsAreSafe(run: seq<State>, size: nat, i: nat)
    requires Run(run, size) && Roomy(run) && i < |run|
    ensures !run[i].sh.queue.exact && !run[i].sh.fault
  {
    hide Inv, Next, Installs;
    InvRun(run, size, i);
    if i > 0 {
      RoomyRunsAreSafe(run, size, i - 1);
      assert Next(run[i - 1], run[i - 1 + 1]);
      InvRun(run, size, i - 1);
      assert Installs(run[i - 1], run[i - 1 + 1]) ==> run[i].sh.queue.ring.capacity > run[i].sh.queue.ring.count;
      if run[i].sh.queue.exact {
        ExactArises(run[i - 1], run[i]);
      }
    }
    FaultIsExact(run[i]);
  }

  lemma FaultIsExact(s: State)
    requires Inv(s)
    ensures s.sh.fault ==> s.sh.queue.exact
  {
  }

  // ----- producers and a pending request

  /** A producer's stretch of code under the mutex can put a message in, or write it past the end,
      if and only if there is room, no request is pending and the mutex is free; otherwise it
      changes nothing. */
  lemma ProducerAddsIff(run: seq<State>, size: nat, i: nat, t: nat)
    requires Run(run, size) && i < |run| && !run[i].sh.fault && t < |run[i].threads|
    requires run[i].threads[t] == PTop || run[i].threads[t] == PWaiting
    ensures var sh, r := run[i].sh, run[i].sh.queue.ring;
            (exists s' :: ThreadStep(run[i], t, s') && s'.sh != sh)
            <==> r.count < r.capacity && sh.request == 0 && sh.owner == FREE
  {
    hide Run, Contents;
    InvRun(run, size, i);
    var s, sh := run[i], run[i].sh;
    if sh.queue.ring.count < sh.queue.ring.capacity && sh.request == 0 && sh.owner == FREE {
      var m := SomeMessage();
      hide WellMade;
      var r := sh.queue.ring;
      var sh' := if r.tail < |r.cells| then sh.(queue := Add(sh.queue, m)) else sh.(fault := true);
      AddedDiffers(sh.queue, m);
      assert ProducerSection(sh, sh', PTop);
      assert ThreadStep(s, t, State(sh', s.threads[t := PTop]));
    }
  }

  lemma AddedDiffers(q: Queue, m: Message)
    ensures q.ring.tail < |q.ring.cells| && q.ring.capacity > 0 ==> Add(q, m) != q
  {
  }

  lemma RequestHolds(s: State, s': State)
    requires Inv(s) && Next(s, s') && s.sh.request != 0
    ensures s'.sh.queue.added == s.sh.queue.added
    ensures s'.sh.request != 0 ==> s'.sh.request == s.sh.request && s'.sh.newCapacity == s.sh.newCapacity
  {
    hide Contents, WellMade, ConsumerSection, ProducerSection, FinishResize, Extract, Fifo;
    if !MainStep(s, s') {
      var t: nat :| ThreadStep(s, t, s');
      var pc := s.threads[t];
      if pc == CResizing {
        FinishKeeps(s.sh, s'.sh, s'.threads[t]);
      } else if s'.sh == s.sh {
      } else if pc == PTop || pc == PWaiting {
        ProducerKeeps(s.sh, s'.sh, s'.threads[t]);
      } else {
        ConsumerKeeps(t, s.sh, pc, s'.sh, s'.threads[t]);
        if s'.sh.queue != s.sh.queue {
          ExtractKeeps(s.sh);
        }
      }
    }
  }

  /** While a request, to grow or to shrink, stays pending nothing is added, and neither direction
      nor target changes. */
  lemma {:induction false} PendingStopsAdds(run: seq<State>, size: nat, i: nat, j: nat)
    requires Run(run, size) && i <= j < |run|
    requires forall k :: i <= k <= j ==> run[k].sh.request != 0
    ensures run[j].sh.queue.added == run[i].sh.queue.added
    ensures run[j].sh.request == run[i].sh.request && run[j].sh.newCapacity == run[i].sh.newCapacity
    decreases j
  {
    hide Inv, Next, Init;
    if i < j {
      PendingStopsAdds(run, size, i, j - 1);
      InvRun(run, size, j - 1);
      assert Next(run[j - 1], run[j - 1 + 1]);
      RequestHolds(run[j - 1], run[j]);
    }
  }

  /** What main can ask for when nothing is pending: always to grow by five, and to shrink by five
      if and only if more than five cells are there. */
  lemma RequestsMade(run: seq<State>, size: nat, i: nat)
    requires Run(run, size) && i < |run| && run[i].sh.owner == FREE && run[i].sh.request == 0
    ensures var s, c := run[i], run[i].sh.queue.ring.capacity;
            && (exists s' :: MainStep(s, s') && s'.sh == s.sh.(request := 1, newCapacity := c + 5))
            && ((exists s' :: MainStep(s, s') && s'.sh.request == -1) <==> c > 5)
  {
    hide Run, Fifo, WellMade;
    InvRun(run, size, i);
    var s := run[i];
    var grow, shrink := s.(sh := Requested(s.sh, true)), s.(sh := Requested(s.sh, false));
    assert MainStep(s, grow) && MainStep(s, shrink);
  }

  // ----- consumers

  /** A consumer that gets the mutex at the top of its loop, and is not told to leave, begins a
      resize at once if and only if a request can be carried out; otherwise, as when it comes
      back from waiting, it takes a message if and only if there is one. */
  lemma ConsumerChooses(run: seq<State>, size: nat, i: nat, t: nat, s': State)
    requires Run(run, size) && i < |run| && !run[i].sh.fault && ThreadStep(run[i], t, s') && s'.threads[t] != Exited
    requires run[i].threads[t] == CTop || run[i].threads[t] == CWaiting
    ensures var sh, r := run[i].sh, run[i].sh.queue.ring;
            var due := run[i].threads[t] == CTop
                       && (sh.request == 1 || (sh.request == -1 && r.count <= sh.newCapacity));
            && (due <==> s'.threads[t] == CResizing && s'.sh.queue == sh.queue)
            && (due ==> s'.sh == sh.(inProgress := true, owner := t))
            && (!due ==> (|s'.sh.queue.extracted| == |sh.queue.extracted| + 1 <==> r.count > 0))
  {
    hide Run, Contents, WellMade, Extract;
    InvRun(run, size, i);
    var sh := run[i].sh;
    if sh.queue.ring.count > 0 {
      ExtractKeeps(sh);
    }
    if Due(sh) && sh.request != 0 && run[i].threads[t] == CTop {
      BeginKeeps(t, sh, s'.sh, s'.threads[t]);
    }
  }

  /** A consumer in the middle of a resize ends it in one of two ways, and both can happen: the new
      buffer is there, or memory was short and nothing but the request is gone. Either way the
      flag is down, the mutex free, and the messages are the same. */
  lemma ResizeEnds(run: seq<State>, size: nat, i: nat, t: nat)
    requires Run(run, size) && i < |run| && !run[i].sh.fault && t < |run[i].threads| && run[i].threads[t] == CResizing
    ensures var s := run[i];
            var dropped := s.sh.(request := 0, inProgress := false, owner := FREE);
            && ThreadStep(s, t, State(dropped, s.threads[t := CTop]))
            && (exists s' :: ThreadStep(s, t, s') && s'.sh.queue.ring.capacity == s.sh.newCapacity)
            && forall s' :: ThreadStep(s, t, s') ==>
                 && s'.threads == s.threads[t := CTop] && s'.sh == dropped.(queue := s'.sh.queue)
                 && (s'.sh.queue != s.sh.queue ==> s'.sh.queue.ring.capacity == s.sh.newCapacity)
                 && s'.sh.queue.added == s.sh.queue.added && s'.sh.queue.extracted == s.sh.queue.extracted
  {
    hide Run, Contents, WellMade;
    InvRun(run, size, i);
    var s, sh, n := run[i], run[i].sh, run[i].sh.newCapacity;
    forall s' | ThreadStep(s, t, s')
      ensures s'.threads == s.threads[t := CTop]
              && s'.sh == sh.(request := 0, inProgress := false, owner := FREE, queue := s'.sh.queue)
              && (s'.sh.queue != sh.queue ==> s'.sh.queue.ring.capacity == n)
              && s'.sh.queue.added == sh.queue.added && s'.sh.queue.extracted == sh.queue.extracted
    {
      FinishKeeps(sh, s'.sh, s'.threads[t]);
      if s'.sh.queue != sh.queue {
        var cells: seq<Message> :| |cells| == n - sh.queue.ring.count && s'.sh.queue == Resized(sh.queue, n, cells);
        ResizedShape(sh.queue, n, cells);
      }
    }
    InstallPossible(s, t);
  }

  lemma InstallPossible(s: State, t: nat)
    requires Inv(s) && t < |s.threads| && s.threads[t] == CResizing
    ensures exists s' :: ThreadStep(s, t, s') && s'.sh.queue.ring.capacity == s.sh.newCapacity
  {
    hide Contents, WellMade, Resized;
    var sh, n := s.sh, s.sh.newCapacity;
    assert n > 0 && n >= sh.queue.ring.count && Valid(sh.queue.ring);
    var m := SomeMessage();
    var cells := seq(n - sh.queue.ring.count, _ => m);
    ResizedShape(sh.queue, n, cells);
    var done := sh.(request := 0, inProgress := false, owner := FREE, queue := Resized(sh.queue, n, cells));
    assert |cells| == n - sh.queue.ring.count && done.queue == Resized(sh.queue, n, cells);
    assert FinishResize(sh, done, CTop);
    assert ThreadStep(s, t, State(done, s.threads[t := CTop]));
  }

  /** A producer that finds the queue full or a request pending, and a consumer that finds the queue
      empty, waits, or starts over when the wait times out. */
  lemma CanWait(s: State, t: nat)
    requires t < |s.threads| && s.sh.owner == FREE && !s.sh.inProgress
    ensures var pc, r := s.threads[t], s.sh.queue.ring;
            && ((pc == PTop || pc == PWaiting) && (r.count == r.capacity || s.sh.request != 0) ==>
                  && ThreadStep(s, t, State(s.sh, s.threads[t := PWaiting]))
                  && ThreadStep(s, t, State(s.sh, s.threads[t := PTop])))
            && (r.count == 0 && (pc == CWaiting || (pc == CTop && s.sh.request == 0)) ==>
                  && ThreadStep(s, t, State(s.sh, s.threads[t := CWaiting]))
                  && ThreadStep(s, t, State(s.sh, s.threads[t := CTop])))
  {
    hide FinishResize, BeginResize, WellMade, Valid;
  }

  /** Every thread can be told to leave, with the mutex free or at its loop top, and a thread that
      has left stays away. */
  lemma CanLeave(s: State, t: nat)
    requires t < |s.threads|
    ensures var pc := s.threads[t];
            && (pc == PTop || pc == CTop ==> ThreadStep(s, t, State(s.sh, s.threads[t := Exited])))
            && (s.sh.owner == FREE && (pc == PWaiting || pc == CWaiting) ==>
                  ThreadStep(s, t, State(s.sh, s.threads[t := Exited])))
            && (pc == Exited ==> forall s' :: !ThreadStep(s, t, s'))
  {
    hide FinishResize, BeginResize, WellMade, Valid;
  }

  // ----- a pending shrink

  /** Messages taken out between two states of a run. */
  function Taken(s: State, s': State): (n: int) {
    |s'.sh.queue.extracted| - |s.sh.queue.extracted|
  }

  /** One step of a run while a shrink is pending and stays pending: nothing is added and the
      target stays; a message is taken out only while no resize is in progress, and if the count
      then fits the target the resize begins at once. */
  lemma PendingStep(s: State, s': State)
    requires Inv(s) && Next(s, s') && s.sh.request == -1 && s'.sh.request == -1
    ensures s'.sh.queue.added == s.sh.queue.added && s'.sh.newCapacity == s.sh.newCapacity
    ensures s'.sh.queue.ring.count == s.sh.queue.ring.count - Taken(s, s')
    ensures 0 <= Taken(s, s') <= 1
    ensures Taken(s, s') > 0 ==> !s.sh.inProgress && (s'.sh.inProgress <==> s'.sh.queue.ring.count <= s'.sh.newCapacity)
    ensures s.sh.inProgress ==> s'.sh.inProgress
  {
    hide Contents, WellMade, ConsumerSection, ProducerSection, FinishResize, Extract, Fifo;
    if !MainStep(s, s') {
      var t: nat :| ThreadStep(s, t, s');
      var pc := s.threads[t];
      if pc == CResizing {
        FinishKeeps(s.sh, s'.sh, s'.threads[t]);
      } else if s'.sh == s.sh {
      } else if pc == PTop || pc == PWaiting {
        ProducerKeeps(s.sh, s'.sh, s'.threads[t]);
      } else {
        ConsumerKeeps(t, s.sh, pc, s'.sh, s'.threads[t]);
        if s'.sh.queue != s.sh.queue {
          ExtractKeeps(s.sh);
        }
      }
    }
  }

  /** While a shrink stays pending from state i to state j, nothing is added and the count falls
      by exactly the number of messages taken out. Unless the resize has begun, these are fewer
      than the count exceeds the target; if it has, at most as many, or one. */
  lemma {:induction false} PendingShrink(run: seq<State>, size: nat, i: nat, j: nat)
    requires Run(run, size) && i <= j < |run|
    requires forall k :: i <= k <= j ==> run[k].sh.request == -1
    ensures run[j].sh.newCapacity == run[i].sh.newCapacity && run[j].sh.queue.added == run[i].sh.queue.added
    ensures run[j].sh.queue.ring.count == run[i].sh.queue.ring.count - Taken(run[i], run[j])
    ensures var n, excess := Taken(run[i], run[j]), run[i].sh.queue.ring.count - run[i].sh.newCapacity;
            && 0 <= n
            && (n > 0 && !run[j].sh.inProgress ==> n < excess)
            && (n > 0 && run[j].sh.inProgress ==> n <= excess || n == 1)
    decreases j
  {
    hide Inv, Next, Init;
    if i < j {
      PendingShrink(run, size, i, j - 1);
      InvRun(run, size, j - 1);
      assert Next(run[j - 1], run[j - 1 + 1]);
      PendingStep(run[j - 1], run[j]);
    }
  }

  /** A pending shrink is cleared only at the end of a resize attempt that was begun when the
      count fitted the target. */
  lemma ClearedOnlyWhenDue(run: seq<State>, size: nat, i: nat)
    requires Run(run, size) && i + 1 < |run|
    requires run[i].sh.request == -1 && run[i + 1].sh.request != -1
    ensures run[i].sh.inProgress && run[i + 1].sh.request == 0
    ensures run[i].sh.queue.ring.count <= run[i].sh.newCapacity
    ensures run[i + 1].sh.queue.ring.count == run[i].sh.queue.ring.count
    ensures run[i + 1].sh.queue.added == run[i].sh.queue.added && Taken(run[i], run[i + 1]) == 0
  {
    hide Contents, WellMade, ConsumerSection, ProducerSection, FinishResize, Extract, Fifo;
    InvRun(run, size, i);
    var s, s' := run[i], run[i + 1];
    assert Next(s, s');
    hide Run;
    if !MainStep(s, s') {
      var t: nat :| ThreadStep(s, t, s');
      var pc := s.threads[t];
      if pc == CResizing {
        FinishKeeps(s.sh, s'.sh, s'.threads[t]);
      } else if s'.sh != s.sh {
        if pc == PTop || pc == PWaiting {
          ProducerKeeps(s.sh, s'.sh, s'.threads[t]);
        } else {
          ConsumerKeeps(t, s.sh, pc, s'.sh, s'.threads[t]);
        }
      }
    }
  }
}
