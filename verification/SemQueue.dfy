/** The semaphore variant: producers, consumers and main as a small-step system
    (thread_funcs.c, queue_sem.c, main.c).

    One step is one semaphore operation, one lock, or one critical section up to its unlock;
    a resize is broken up further, one step per sem_post or sem_trywait, because other
    threads use the semaphore meanwhile. Flags that main sets (keep_running, the active
    arrays), timeouts, unlocked reads of resize_request and failing allocations are free
    choices. */
module SemQueue {
  import opened MessageHash
  import opened RingQueue

  /** The two places where a consumer resizes: at the loop top, and holding a filled token. */
  datatype Place = LoopTop | WithToken

  datatype Pc =
    | PTop                                  // producer: loop top, about to wait for an empty slot
    | PToken                                // has an empty token
    | PMessage(msg: Message)                // has a token and a message
    | PInside(msg: Message)                 // holds the mutex
    | PReturning(exiting: bool)             // about to post the empty token back
    | PAnnounce                             // about to post filled_slots
    | CTop                                  // consumer: loop top
    | CInspect                              // holds the mutex, looking for a resize request
    | CWait                                 // about to wait for a filled slot
    | CToken                                // has a filled token
    | CInside                               // holds the mutex
    | CPosting(place: Place, left: nat)     // growing: posts still to do
    | CTrying(place: Place, left: nat)      // shrinking: trywaits still to do
    | CReturning(exiting: bool)             // about to post the filled token back
    | CRelease                              // about to post empty_slots
    | Exited

  const FREE := -1

  datatype Shared = Shared(
    queue: Queue, empty: nat, filled: nat, request: int, newCapacity: int, owner: int,
    failed: nat,               // trywaits that failed so far
    cleanE: nat, cleanF: nat,  // posts by signal_cleanup_sem so far
    cleanup: nat, half: bool,  // main's position in the cleanup loop
    fault: bool)               // a message was written past the end of the buffer

  datatype State = State(sh: Shared, threads: seq<Pc>)

  ghost predicate Init(s: State, size: nat) {
    && size > 0 && size % 5 == 0 && s.threads == []
    && |s.sh.queue.ring.cells| == size
    && s.sh == Shared(NewQueue(size, s.sh.queue.ring.cells), size, 0, 0, 0, FREE, 0, 0, 0, 0, false, false)
  }

  // ----- producers

  ghost predicate ProducerMove(t: nat, sh: Shared, pc: Pc, sh': Shared, pc': Pc) {
    var r := sh.queue.ring;
    match pc
    case PTop =>
      || (sh' == sh && (pc' == PTop || pc' == Exited))
      || (sh.empty > 0 && sh' == sh.(empty := sh.empty - 1) && pc' == PToken)
    case PToken =>
      sh' == sh && (pc'.PReturning? || (pc'.PMessage? && WellMade(pc'.msg)))
    case PMessage(msg) =>
      sh.owner == FREE && sh' == sh.(owner := t) && pc' == PInside(msg)
    case PInside(msg) =>
      if r.count >= r.capacity || sh.request != 0 then
        sh' == sh.(owner := FREE) && pc' == PReturning(false)
      else if r.tail < |r.cells| && r.capacity > 0 then
        sh' == sh.(queue := Add(sh.queue, msg), owner := FREE) && pc' == PAnnounce
      else
        sh' == sh.(fault := true) && pc' == pc
    case PReturning(exiting) =>
      sh' == sh.(empty := sh.empty + 1) && pc' == if exiting then Exited else PTop
    case PAnnounce =>
      sh' == sh.(filled := sh.filled + 1) && pc' == PTop
    case _ => false
  }

  // ----- consumers

  function AfterResize(place: Place): (pc: Pc) {
    if place == LoopTop then CTop else CReturning(false)
  }

  /** resize_queue_internal_sem up to the first semaphore operation, or its failure. */
  ghost predicate ResizeMove(sh: Shared, place: Place, sh': Shared, pc': Pc) {
    var r, n := sh.queue.ring, sh.newCapacity;
    || (sh' == sh.(request := 0, owner := FREE) && pc' == AfterResize(place))
    || (&& n > 0 && n >= r.count && Valid(r)
        && sh' == sh.(queue := sh'.queue)
        && (exists cells: seq<Message> | |cells| == n - r.count :: sh'.queue == Resized(sh.queue, n, cells))
        && pc' == if n >= r.capacity then CPosting(place, n - r.capacity) else CTrying(place, r.capacity - n))
  }

  ghost predicate ConsumerMove(t: nat, sh: Shared, pc: Pc, sh': Shared, pc': Pc) {
    var r := sh.queue.ring;
    match pc
    case CTop =>
      || (sh' == sh && pc' == Exited)
      || (sh.owner == FREE && sh' == sh.(owner := t) && pc' == CInspect)
    case CInspect =>
      if sh.request != 0 then ResizeMove(sh, LoopTop, sh', pc')
      else sh' == sh.(owner := FREE) && pc' == CWait
    case CWait =>
      || (sh' == sh && (pc' == CTop || pc' == Exited))
      || (sh.filled > 0 && sh' == sh.(filled := sh.filled - 1) && pc' == CToken)
    case CToken =>
      || (sh' == sh && pc' == CReturning(true))
      || (sh.owner == FREE && sh' == sh.(owner := t) && pc' == CInside)
    case CInside =>
      if (sh.request == -1 && r.count <= sh.newCapacity) || sh.request == 1 then
        ResizeMove(sh, WithToken, sh', pc')
      else if r.count == 0 then
        sh' == sh.(owner := FREE) && pc' == CReturning(false)
      else
        && r.head < |r.cells| && r.capacity > 0
        && sh' == sh.(queue := Extract(sh.queue), owner := FREE) && pc' == CRelease
    case CPosting(place, left) =>
      if left > 0 then sh' == sh.(empty := sh.empty + 1) && pc' == CPosting(place, left - 1)
      else sh' == sh.(request := 0, owner := FREE) && pc' == AfterResize(place)
    case CTrying(place, left) =>
      if left > 0 then
        && sh' == (if sh.empty > 0 then sh.(empty := sh.empty - 1) else sh.(failed := sh.failed + 1))
        && pc' == CTrying(place, left - 1)
      else sh' == sh.(request := 0, owner := FREE) && pc' == AfterResize(place)
    case CReturning(exiting) =>
      sh' == sh.(filled := sh.filled + 1) && pc' == if exiting then Exited else CTop
    case CRelease =>
      sh' == sh.(empty := sh.empty + 1) && pc' == CTop
    case _ => false
  }

  ghost predicate ThreadStep(s: State, t: nat, s': State) {
    && t < |s.threads| && |s'.threads| == |s.threads| && s'.threads == s.threads[t := s'.threads[t]]
    && (|| ProducerMove(t, s.sh, s.threads[t], s'.sh, s'.threads[t])
        || ConsumerMove(t, s.sh, s.threads[t], s'.sh, s'.threads[t]))
  }

  // ----- main

  /** request_resize_sem for '+' or '-'. */
  function Requested(sh: Shared, increase: bool): (r: Shared) {
    var target := if increase then sh.queue.ring.capacity + 5 else sh.queue.ring.capacity - 5;
    if sh.request == 0 && !(target <= 0 && !increase)
    then sh.(newCapacity := target, request := if increase then 1 else -1) else sh
  }

  /** Starting a thread, a resize request, or one half-turn of the cleanup loop. */
  ghost predicate MainStep(s: State, s': State) {
    var sh := s.sh;
    || (sh.cleanup == 0 && s'.sh == sh && (s'.threads == s.threads + [PTop] || s'.threads == s.threads + [CTop]))
    || (&& s'.threads == s.threads && sh.cleanup == 0 && sh.owner == FREE
        && (|| s'.sh == Requested(sh, true) || s'.sh == Requested(sh, false)
            || (s'.sh == sh.(cleanup := s'.sh.cleanup) && s'.sh.cleanup >= sh.queue.ring.capacity + 5)))
    || (&& s'.threads == s.threads && sh.cleanup > 0
        && s'.sh == if !sh.half then sh.(empty := sh.empty + 1, cleanE := sh.cleanE + 1, half := true)
                    else sh.(filled := sh.filled + 1, cleanF := sh.cleanF + 1, half := false, cleanup := sh.cleanup - 1))
  }

  /** Behaviour is followed up to the first write past the buffer. */
  ghost predicate Next(s: State, s': State) {
    !s.sh.fault && (MainStep(s, s') || exists t: nat :: ThreadStep(s, t, s'))
  }

  ghost predicate Run(run: seq<State>, size: nat) {
    && run != [] && Init(run[0], size)
    && forall i :: 0 <= i < |run| - 1 ==> Next(run[i], run[i + 1])
  }
}
