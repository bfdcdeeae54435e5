/** The condition-variable variant as a small-step system (thread_funcs.c, queue_cond.c,
    main.c): one step is one stretch of code under the mutex, from acquiring it (or waking
    from pthread_cond_timedwait) to releasing it (or waiting again), except that a resize is
    two steps, between which resize_in_progress is up and the consumer keeps the mutex. A wait
    may end at any time, by a signal, a broadcast, the timeout or spuriously, so signals need
    no state. */
module CondQueue {
  import opened MessageHash
  import opened RingQueue

  datatype Pc = PTop | PWaiting | CTop | CWaiting | CResizing | Exited

  const FREE := -1

  datatype Shared = Shared(
    queue: Queue, request: int, newCapacity: int, inProgress: bool,
    owner: int,     // the consumer that is resizing, or FREE
    refused: nat,   // resizes refused because the new capacity is below the count
    fault: bool)    // a message was written past the end of the buffer

  datatype State = State(sh: Shared, threads: seq<Pc>)

  ghost predicate Init(s: State, size: nat) {
    && size > 0 && size % 5 == 0 && s.threads == []
    && |s.sh.queue.ring.cells| == size
    && s.sh == Shared(NewQueue(size, s.sh.queue.ring.cells), 0, 0, false, FREE, 0, false)
  }

  // ----- producers

  /** Why a producer waits. */
  predicate MustWait(sh: Shared) {
    sh.queue.ring.count == sh.queue.ring.capacity || sh.request != 0 || sh.inProgress
  }

  ghost predicate ProducerSection(sh: Shared, sh': Shared, pc': Pc) {
    var r := sh.queue.ring;
    || (sh' == sh && pc' == Exited)
    || (MustWait(sh) && sh' == sh && (pc' == PWaiting || pc' == PTop))
    || (!MustWait(sh) && sh' == sh && pc' == PTop)  // create_message failed
    || (!MustWait(sh) && exists m | WellMade(m) ::
          if r.tail < |r.cells| && r.capacity > 0 then sh' == sh.(queue := Add(sh.queue, m)) && pc' == PTop
          else sh' == sh.(fault := true) && pc' == PTop)
  }

  // ----- consumers

  /** resize_queue_internal_cond up to raising resize_in_progress, or its refusal, after which
      the caller clears the request. */
  ghost predicate BeginResize(t: nat, sh: Shared, sh': Shared, pc': Pc) {
    var n := sh.newCapacity;
    if n <= 0 then sh' == sh.(request := 0) && pc' == CTop
    else if n < sh.queue.ring.count then sh' == sh.(request := 0, refused := sh.refused + 1) && pc' == CTop
    else sh' == sh.(inProgress := true, owner := t) && pc' == CResizing
  }

  /** The rest of it, and the clearing of the request that follows every call. */
  ghost predicate FinishResize(sh: Shared, sh': Shared, pc': Pc) {
    var r, n := sh.queue.ring, sh.newCapacity;
    && pc' == CTop
    && (|| sh' == sh.(request := 0, inProgress := false, owner := FREE)  // allocation failed
        || (&& n > 0 && n >= r.count && Valid(r)
            && sh' == sh.(request := 0, inProgress := false, owner := FREE, queue := sh'.queue)
            && exists cells: seq<Message> | |cells| == n - r.count :: sh'.queue == Resized(sh.queue, n, cells)))
  }

  /** The request can be carried out now. */
  predicate Due(sh: Shared) {
    sh.request == 1 || (sh.request == -1 && sh.queue.ring.count <= sh.newCapacity)
  }

  ghost predicate TakeSection(t: nat, sh: Shared, sh': Shared, pc': Pc) {
    var r := sh.queue.ring;
    || (sh' == sh && pc' == Exited)
    || (r.count == 0 && sh' == sh && (pc' == CWaiting || pc' == CTop))
    || (&& r.count > 0 && r.capacity > 0 && r.head < |r.cells|
        && var taken := sh.(queue := Extract(sh.queue));
           if taken.request == -1 && !taken.inProgress && Due(taken) then BeginResize(t, taken, sh', pc')
           else sh' == taken && pc' == CTop)
  }

  ghost predicate ConsumerSection(t: nat, sh: Shared, pc: Pc, sh': Shared, pc': Pc) {
    if pc == CTop && sh.request != 0 && !sh.inProgress && Due(sh) then BeginResize(t, sh, sh', pc')
    else TakeSection(t, sh, sh', pc')
  }

  /** Thread t goes through a stretch of code under the mutex, which must be free or its own. */
  ghost predicate Section(t: nat, sh: Shared, pc: Pc, sh': Shared, pc': Pc) {
    match pc
    case PTop => (sh.owner == FREE && ProducerSection(sh, sh', pc')) || (sh' == sh && pc' == Exited)
    case PWaiting => sh.owner == FREE && ProducerSection(sh, sh', pc')
    case CTop => (sh.owner == FREE && ConsumerSection(t, sh, pc, sh', pc')) || (sh' == sh && pc' == Exited)
    case CWaiting => sh.owner == FREE && ConsumerSection(t, sh, pc, sh', pc')
    case CResizing => sh.owner == t && FinishResize(sh, sh', pc')
    case Exited => false
  }

  ghost predicate ThreadStep(s: State, t: nat, s': State) {
    && t < |s.threads| && |s'.threads| == |s.threads| && s'.threads == s.threads[t := s'.threads[t]]
    && Section(t, s.sh, s.threads[t], s'.sh, s'.threads[t])
  }

  // ----- main

  /** request_resize_cond for '+' or '-'. */
  function Requested(sh: Shared, increase: bool): (r: Shared) {
    var target := if increase then sh.queue.ring.capacity + 5 else sh.queue.ring.capacity - 5;
    if sh.request == 0 && !sh.inProgress && !(target <= 0 && !increase)
    then sh.(newCapacity := target, request := if increase then 1 else -1) else sh
  }

  ghost predicate MainStep(s: State, s': State) {
    || (s'.sh == s.sh && (s'.threads == s.threads + [PTop] || s'.threads == s.threads + [CTop]))
    || (s'.threads == s.threads && s.sh.owner == FREE && (s'.sh == Requested(s.sh, true) || s'.sh == Requested(s.sh, false)))
  }

  ghost predicate Next(s: State, s': State) {
    !s.sh.fault && (MainStep(s, s') || exists t: nat :: ThreadStep(s, t, s'))
  }

  ghost predicate Run(run: seq<State>, size: nat) {
    && run != [] && Init(run[0], size)
    && forall i :: 0 <= i < |run| - 1 ==> Next(run[i], run[i + 1])
  }
}
