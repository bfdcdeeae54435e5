/** What the semaphore variant guarantees over whole runs, and exactly where it stops. */
module SemResults {
  import opened MessageHash
  import opened RingQueue
  import opened SemQueue
  import opened SemSafety

  /** Both token equations, in every reachable state. */
  lemma TokensConserved(run: seq<State>, size: nat, i: nat)
    requires Run(run, size) && i < |run|
    ensures var s, r := run[i], run[i].sh.queue.ring;
            && s.sh.empty + Held(EmptyToken, s.threads) + r.count == r.capacity + s.sh.failed + s.sh.cleanE
            && s.sh.filled + Held(FilledToken, s.threads) == r.count + s.sh.cleanF
  {
    hide Run;
    InvRun(run, size, i);
  }

  /** Before the first cleanup post, a consumer that has its token and the mutex finds a
      message: the "woke up but queue empty" branch is unreachable. */
  lemma NoEmptyWakeUp(run: seq<State>, size: nat, i: nat, t: nat)
    requires Run(run, size) && i < |run| && t < |run[i].threads|
    requires run[i].threads[t].CInside? && run[i].sh.cleanF == 0
    ensures run[i].sh.queue.ring.count > 0
  {
    hide Run;
    InvRun(run, size, i);
    HeldCovers(run[i].threads, t);
  }

  lemma {:induction false} EmptyHeldCovers(ts: seq<Pc>, t: nat)
    requires t < |ts| && forall u :: 0 <= u < |ts| ==> !ts[u].CTrying?
    ensures Held(EmptyToken, ts) >= Holding(EmptyToken, ts[t]) >= 0
    decreases |ts|
  {
    if |ts| > 1 {
      EmptyHeldCovers(ts[1..], if t == 0 then 0 else t - 1);
    }
  }

  /** Without failed trywaits and cleanup posts, a producer that has its token and the mutex
      finds room: the "queue full" branch is taken only on a pending resize. */
  lemma NoFullAfterToken(run: seq<State>, size: nat, i: nat, t: nat)
    requires Run(run, size) && i < |run| && t < |run[i].threads|
    requires run[i].threads[t].PInside? && run[i].sh.failed == 0 && run[i].sh.cleanE == 0
    ensures run[i].sh.queue.ring.count < run[i].sh.queue.ring.capacity
  {
    hide Run;
    InvRun(run, size, i);
    var s := run[i];
    forall u | 0 <= u < |s.threads| ensures !s.threads[u].CTrying? {
      assert Holds(s.threads[t]);
      assert Holds(s.threads[u]) <==> s.sh.owner == u;
    }
    EmptyHeldCovers(s.threads, t);
  }

  /** FIFO over whole runs: the messages taken out are the first ones put in, in order, every
      one of them verifies, and the ring holds the rest. */
  lemma FifoOverRuns(run: seq<State>, size: nat, i: nat)
    requires Run(run, size) && i < |run|
    ensures var q := run[i].sh.queue;
            && q.extracted <= q.added
            && Valid(q.ring) && q.added[|q.extracted|..] == Contents(q.ring)
            && |q.added| - |q.extracted| == q.ring.count <= q.ring.capacity
            && forall m :: m in q.extracted ==> m.hash == CalculateHash(m)
  {
    hide Run, CalculateHash, Contents;
    InvRun(run, size, i);
    var q := run[i].sh.queue;
    FifoTotals(q);
    forall m | m in q.extracted ensures m.hash == CalculateHash(m) {
      assert m in q.added;
    }
  }

  /** resize_request is -1, 0 or 1; while one is pending and not being carried out, the target
      is the capacity plus or minus five, and positive; the capacity stays a multiple of five. */
  lemma RequestCoherent(run: seq<State>, size: nat, i: nat)
    requires Run(run, size) && i < |run|
    ensures var sh, c := run[i].sh, run[i].sh.queue.ring.capacity;
            && sh.request in {-1, 0, 1} && c > 0 && c % 5 == 0
            && (sh.request != 0 && sh.owner == FREE ==> sh.newCapacity == c + 5 * sh.request > 0)
  {
    hide Run;
    InvRun(run, size, i);
  }

  // ----- the write past the end

  /** A producer inside its critical section whose guard passes writes past the end of the
      buffer if and only if the last resize left no room and nothing was enqueued since. */
  lemma OverflowIff(run: seq<State>, size: nat, i: nat, t: nat, s': State)
    requires Run(run, size) && i < |run| && !run[i].sh.fault && ThreadStep(run[i], t, s')
    requires run[i].threads[t].PInside?
    requires run[i].sh.queue.ring.count < run[i].sh.queue.ring.capacity && run[i].sh.request == 0
    ensures s'.sh.fault <==> run[i].sh.queue.exact
  {
    hide Run, Contents;
    InvRun(run, size, i);
  }

  /** The step from s to s' puts a new buffer in place. */
  predicate Installs(s: State, s': State) {
    s'.sh.queue.ring.capacity != s.sh.queue.ring.capacity
  }

  /** Only a resize to exactly the count makes the next enqueue dangerous. */
  lemma ExactArises(s: State, s': State)
    requires Inv(s) && Next(s, s') && !s.sh.queue.exact && s'.sh.queue.exact
    ensures Installs(s, s') && s'.sh.queue.ring.capacity == s'.sh.queue.ring.count
  {
    hide Contents, EmptyConserved, FilledConserved, MessagesOk, FaultOk, Valid;
    if !MainStep(s, s') {
      var t: nat :| ThreadStep(s, t, s');
      assert Holds(s.threads[t]) <==> s.sh.owner == t;
    }
  }

  /** Every buffer that is installed during the run has more cells than there are messages. */
  ghost predicate Roomy(run: seq<State>) {
    forall i :: 0 <= i < |run| - 1 && Installs(run[i], run[i + 1]) ==>
      run[i + 1].sh.queue.ring.capacity > run[i + 1].sh.queue.ring.count
  }

  /** A run in which every installed resize leaves room never writes past the end. */
  lemma {:induction false} RoomyRunsAreSafe(run: seq<State>, size: nat, i: nat)
    requires Run(run, size) && Roomy(run) && i < |run|
    ensures !run[i].sh.queue.exact && !run[i].sh.fault
  {
    hide Inv, Next, Installs;
    InvRun(run, size, i);
    if i > 0 {
      RoomyRunsAreSafe(run, size, i - 1);
      assert Next(run[i - 1], run[i - 1 + 1]);
      InvRun(run, size, i - 1);
      assert Installs(run[i - 1], run[i - 1 + 1]) ==> run[i].sh.queue.ring.capacity > run[i].sh.queue.ring.count;
      if run[i].sh.queue.exact {
        ExactArises(run[i - 1], run[i]);
      }
    }
    FaultIsExact(run[i]);
  }

  lemma FaultIsExact(s: State)
    requires Inv(s)
    ensures s.sh.fault ==> s.sh.queue.exact
  {
  }

  // ----- a pending shrink

  /** With memory available, a consumer about to resize to a fitting target does so. */
  lemma InstallPossible(s: State, t: nat, place: Place)
    requires Inv(s) && t < |s.threads| && s.sh.request != 0 && s.sh.queue.ring.count <= s.sh.newCapacity
    requires s.threads[t] == if place == LoopTop then CInspect else CInside
    ensures exists s' :: ThreadStep(s, t, s') && Committed(s'.threads[t])
  {
    hide Resized, Contents, WellMade;
    var sh, n := s.sh, s.sh.newCapacity;
    assert Holds(s.threads[t]) <==> s.sh.owner == t;
    assert Valid(sh.queue.ring) && sh.queue.ring.count <= sh.queue.ring.capacity;
    var m := SomeMessage();
    var cells := seq(n - sh.queue.ring.count, _ => m);
    var pc := if n >= sh.queue.ring.capacity then CPosting(place, n - sh.queue.ring.capacity)
              else CTrying(place, sh.queue.ring.capacity - n);
    var done := sh.(queue := Resized(sh.queue, n, cells));
    assert ResizeMove(sh, place, done, pc) by {
      assert |cells| == n - sh.queue.ring.count && done.queue == Resized(sh.queue, n, cells);
    }
    hide ResizeMove, Valid;
    assert ThreadStep(s, t, State(done, s.threads[t := pc]));
  }

  /** A consumer that finds a pending request at the top of its loop can carry it out if and only
      if the target is not below the count. Otherwise every step it can take drops the request
      and changes nothing else: a shrink that cannot be done at once is not done later. */
  lemma LoopTopDropsIff(run: seq<State>, size: nat, i: nat, t: nat)
    requires Run(run, size) && i < |run| && t < |run[i].threads|
    requires run[i].threads[t] == CInspect && run[i].sh.request != 0
    ensures var s, sh := run[i], run[i].sh;
            && ((exists s' :: ThreadStep(s, t, s') && Committed(s'.threads[t])) <==> sh.queue.ring.count <= sh.newCapacity)
            && (sh.queue.ring.count > sh.newCapacity ==>
                  forall s' :: ThreadStep(s, t, s') ==>
                    s'.sh == sh.(request := 0, owner := FREE) && s'.threads == s.threads[t := CTop])
  {
    hide Run, Resized, Contents;
    InvRun(run, size, i);
    var s, sh, n := run[i], run[i].sh, run[i].sh.newCapacity;
    hide WellMade;
    if sh.queue.ring.count <= n {
      InstallPossible(s, t, LoopTop);
    }
  }

  // ----- producers and a pending request

  /** A producer that has got the mutex puts its message in, or writes it past the end of the
      buffer, if and only if there is room and no request is pending; otherwise it releases the
      mutex and goes on to post its token back. */
  lemma ProducerAddsIff(run: seq<State>, size: nat, i: nat, t: nat, s': State)
    requires Run(run, size) && i < |run| && !run[i].sh.fault && ThreadStep(run[i], t, s')
    requires run[i].threads[t].PInside?
    ensures var sh, r := run[i].sh, run[i].sh.queue.ring;
            && (s'.sh.queue.added == sh.queue.added + [run[i].threads[t].msg] || s'.sh.fault
                <==> r.count < r.capacity && sh.request == 0)
            && (!(r.count < r.capacity && sh.request == 0) ==>
                  s'.sh == sh.(owner := FREE) && s'.threads[t] == PReturning(false))
  {
    hide Run, Contents;
    InvRun(run, size, i);
  }

  lemma RequestHolds(s: State, s': State)
    requires Inv(s) && Next(s, s') && s.sh.request != 0
    ensures s'.sh.queue.added == s.sh.queue.added
    ensures s'.sh.request != 0 ==> s'.sh.request == s.sh.request && s'.sh.newCapacity == s.sh.newCapacity
  {
    hide Contents, Inv, Valid, Add;
  }

  /** While a request stays pending nothing is added, and neither direction nor target changes. */
  lemma {:induction false} PendingStopsAdds(run: seq<State>, size: nat, i: nat, j: nat)
    requires Run(run, size) && i <= j < |run|
    requires forall k :: i <= k <= j ==> run[k].sh.request != 0
    ensures run[j].sh.queue.added == run[i].sh.queue.added
    ensures run[j].sh.request == run[i].sh.request && run[j].sh.newCapacity == run[i].sh.newCapacity
    decreases j
  {
    hide Inv, Next, Init;
    if i < j {
      PendingStopsAdds(run, size, i, j - 1);
      InvRun(run, size, j - 1);
      assert Next(run[j - 1], run[j - 1 + 1]);
      RequestHolds(run[j - 1], run[j]);
    }
  }

  /** What main can ask for when nothing is pending: always to grow by five, and to shrink by five
      if and only if more than five cells are there. */
  lemma RequestsMade(s: State)
    requires s.sh.owner == FREE && s.sh.cleanup == 0 && s.sh.request == 0 && s.sh.queue.ring.capacity > 0
    ensures exists s' :: MainStep(s, s') && s'.sh == s.sh.(request := 1, newCapacity := s.sh.queue.ring.capacity + 5)
    ensures (exists s' :: MainStep(s, s') && s'.sh.request == -1) <==> s.sh.queue.ring.capacity > 5
  {
    var grow, shrink := s.(sh := Requested(s.sh, true)), s.(sh := Requested(s.sh, false));
    assert MainStep(s, grow) && MainStep(s, shrink);
  }

  // ----- consumers that hold a token

  /** A consumer that has its token and the mutex takes a message if and only if there is one and
      no pending request can be carried out. If one can, it carries it out, or drops it when
      memory is short, and puts its token back; if there is no message it only puts it back. */
  lemma ConsumerTakesIff(run: seq<State>, size: nat, i: nat, t: nat, s': State)
    requires Run(run, size) && i < |run| && ThreadStep(run[i], t, s') && run[i].threads[t].CInside?
    ensures var sh, r := run[i].sh, run[i].sh.queue.ring;
            var fits := sh.request == 1 || (sh.request == -1 && r.count <= sh.newCapacity);
            && (|s'.sh.queue.extracted| == |sh.queue.extracted| + 1 <==> r.count > 0 && !fits)
            && (fits ==>
                  || (s'.threads[t] == CReturning(false) && s'.sh == sh.(request := 0, owner := FREE))
                  || (&& Committed(s'.threads[t]) && s'.threads[t].place == WithToken
                      && s'.sh.queue.ring.capacity == sh.newCapacity))
            && (r.count == 0 && !fits ==> s'.sh == sh.(owner := FREE) && s'.threads[t] == CReturning(false))
            && (fits ==> exists s'' :: ThreadStep(run[i], t, s'') && Committed(s''.threads[t]))
  {
    hide Run, Contents, Resized, WellMade;
    InvRun(run, size, i);
    var s, sh := run[i], run[i].sh;
    if sh.request == 1 || (sh.request == -1 && sh.queue.ring.count <= sh.newCapacity) {
      FitsTarget(s, t);
      InstallPossible(s, t, WithToken);
      if Committed(s'.threads[t]) {
        InstalledFacts(sh, WithToken, s'.sh, s'.threads[t]);
        InstalledExtracts(sh, WithToken, s'.sh, s'.threads[t]);
      }
    }
    hide Inv, Valid, Fifo;
  }

  lemma FitsTarget(s: State, t: nat)
    requires Inv(s) && t < |s.threads| && s.threads[t] == CInside
    requires s.sh.request == 1 || s.sh.queue.ring.count <= s.sh.newCapacity
    ensures s.sh.queue.ring.count <= s.sh.newCapacity
  {
    hide Contents;
  }

  lemma InstalledExtracts(sh: Shared, place: Place, sh': Shared, pc': Pc)
    requires ResizeMove(sh, place, sh', pc') && Committed(pc')
    ensures sh'.queue.extracted == sh.queue.extracted
  {
    hide Contents;
  }

  /** When memory is short the consumer drops the request and changes nothing else. */
  lemma ShortOfMemory(run: seq<State>, size: nat, i: nat, t: nat)
    requires Run(run, size) && i < |run| && t < |run[i].threads| && run[i].sh.request != 0
    requires var s := run[i];
             || s.threads[t] == CInspect
             || (s.threads[t] == CInside && (s.sh.request == 1 || s.sh.queue.ring.count <= s.sh.newCapacity))
    ensures var s, back := run[i], if run[i].threads[t] == CInspect then CTop else CReturning(false);
            ThreadStep(s, t, State(s.sh.(request := 0, owner := FREE), s.threads[t := back]))
  {
    hide Run, Contents, Valid;
    InvRun(run, size, i);
    var s := run[i];
    var place := if s.threads[t] == CInspect then LoopTop else WithToken;
    assert ResizeMove(s.sh, place, s.sh.(request := 0, owner := FREE), AfterResize(place));
  }

  // ----- leaving

  /** A thread that has its token when it is told to leave posts it back and is gone: two steps
      later the semaphores are as if it had never taken it. */
  lemma LeavesWithoutToken(s: State, t: nat, s1: State, s2: State)
    requires ThreadStep(s, t, s1) && ThreadStep(s1, t, s2)
    requires s.threads[t] == PToken || s.threads[t] == CToken
    requires s1.threads[t] == PReturning(true) || s1.threads[t] == CReturning(true)
    ensures s2.threads == s.threads[t := Exited]
    ensures s2.sh == if s.threads[t] == PToken then s.sh.(empty := s.sh.empty + 1) else s.sh.(filled := s.sh.filled + 1)
  {
    hide ResizeMove, Valid;
  }

  /** Every thread can be told to leave, at its loop top, while it waits for a token and when it has
      just got one, and a thread that has left stays away. */
  lemma CanLeave(s: State, t: nat)
    requires t < |s.threads|
    ensures var pc := s.threads[t];
            && (pc == PTop || pc == CTop || pc == CWait ==> ThreadStep(s, t, State(s.sh, s.threads[t := Exited])))
            && (pc == PToken ==> ThreadStep(s, t, State(s.sh, s.threads[t := PReturning(true)])))
            && (pc == CToken ==> ThreadStep(s, t, State(s.sh, s.threads[t := CReturning(true)])))
            && (pc == Exited ==> forall s' :: !ThreadStep(s, t, s'))
  {
    hide ResizeMove, Valid, WellMade;
  }

  /** A wait for a token may time out, and a message may not get made; the thread then starts over,
      in the second case after posting its token back. */
  lemma CanStartOver(s: State, t: nat)
    requires t < |s.threads|
    ensures var pc := s.threads[t];
            && (pc == PTop ==> ThreadStep(s, t, s))
            && (pc == CWait ==> ThreadStep(s, t, State(s.sh, s.threads[t := CTop])))
            && (pc == PToken ==> ThreadStep(s, t, State(s.sh, s.threads[t := PReturning(false)])))
            && (pc == PReturning(false) ==>
                  ThreadStep(s, t, State(s.sh.(empty := s.sh.empty + 1), s.threads[t := PTop])))
  {
    hide ResizeMove, Valid, WellMade;
    assert s.threads[t := s.threads[t]] == s.threads;
  }

  // ----- at rest

  /** The thread holds no token and owes none. */
  predicate AtRest(pc: Pc) {
    pc == PTop || pc == CTop || pc == CInspect || pc == CWait || pc == Exited
  }

  lemma {:induction false} NothingHeld(ts: seq<Pc>)
    requires forall t :: 0 <= t < |ts| ==> AtRest(ts[t])
    ensures Held(EmptyToken, ts) == Held(FilledToken, ts) == 0
  {
    if ts != [] {
      assert AtRest(ts[0]);
      NothingHeld(ts[1..]);
    }
  }

  /** When every thread is at the top of its loop, waiting for a token or gone, the semaphores say
      what they are meant to say, up to failed trywaits and cleanup posts: filled_slots is the
      number of messages, and empty_slots the number of free cells. */
  lemma SemaphoresAtRest(run: seq<State>, size: nat, i: nat)
    requires Run(run, size) && i < |run|
    requires forall t :: 0 <= t < |run[i].threads| ==> AtRest(run[i].threads[t])
    ensures var sh, r := run[i].sh, run[i].sh.queue.ring;
            && sh.filled == r.count + sh.cleanF
            && sh.empty == r.capacity - r.count + sh.failed + sh.cleanE
  {
    hide Run, AtRest;
    TokensConserved(run, size, i);
    NothingHeld(run[i].threads);
  }

  // ----- cleanup

  /** What the rest of a cleanup call will still post. */
  predicate CleanupOk(s: State, e: int, f: int, n: int) {
    && s.sh.cleanF - f + s.sh.cleanup == n
    && s.sh.cleanE - e + s.sh.cleanup == n + (if s.sh.half then 1 else 0)
  }

  lemma CleanupStep(s: State, s': State, e: int, f: int, n: int)
    requires Next(s, s') && s.sh.cleanup > 0 && CleanupOk(s, e, f, n)
    ensures CleanupOk(s', e, f, n) && (s'.sh.cleanup == 0 ==> !s'.sh.half)
  {
    hide Contents, Add, Extract, Resized, Valid, WellMade;
  }

  lemma QuietStep(s: State, s': State)
    requires Next(s, s') && s.sh.cleanup == 0 && !s.sh.half
    ensures !s'.sh.half && s'.sh.cleanE == s.sh.cleanE && s'.sh.cleanF == s.sh.cleanF
    ensures s'.sh.cleanup == 0 || s'.sh.cleanup >= s.sh.queue.ring.capacity + 5
  {
    hide Contents, Add, Extract, Resized, Valid, WellMade;
  }

  lemma {:induction false} HalfOnlyInside(run: seq<State>, size: nat, i: nat)
    requires Run(run, size) && i < |run|
    ensures run[i].sh.cleanup == 0 ==> !run[i].sh.half
  {
    hide Next;
    if i > 0 {
      HalfOnlyInside(run, size, i - 1);
      assert Next(run[i - 1], run[i - 1 + 1]);
      var s, s' := run[i - 1], run[i];
      if s.sh.cleanup == 0 {
        QuietStep(s, s');
      } else {
        CleanupStep(s, s', s.sh.cleanE - (if s.sh.half then 1 else 0), s.sh.cleanF, s.sh.cleanup);
      }
    }
  }

  lemma {:induction false} CleanupUnderWay(run: seq<State>, size: nat, i: nat, j: nat)
    requires Run(run, size) && i < j < |run|
    requires run[i].sh.cleanup == 0 && forall k :: i < k < j ==> run[k].sh.cleanup > 0
    requires run[i + 1].sh.cleanup > 0
    ensures CleanupOk(run[j], run[i].sh.cleanE, run[i].sh.cleanF, run[i + 1].sh.cleanup)
    ensures run[i + 1].sh.cleanup >= run[i].sh.queue.ring.capacity + 5
    decreases j
  {
    hide Next, Init;
    HalfOnlyInside(run, size, i);
    assert Next(run[i], run[i + 1]);
    QuietStep(run[i], run[i + 1]);
    if j > i + 1 {
      CleanupUnderWay(run, size, i, j - 1);
      assert Next(run[j - 1], run[j - 1 + 1]);
      CleanupStep(run[j - 1], run[j], run[i].sh.cleanE, run[i].sh.cleanF, run[i + 1].sh.cleanup);
    }
  }

  /** From its beginning after state i to its end in state j, a cleanup call posts both semaphores
      equally often, at least five times more than there were cells. */
  lemma CleanupPosts(run: seq<State>, size: nat, i: nat, j: nat)
    requires Run(run, size) && i + 1 < j < |run|
    requires run[i].sh.cleanup == 0 == run[j].sh.cleanup && forall k :: i < k < j ==> run[k].sh.cleanup > 0
    ensures run[j].sh.cleanE - run[i].sh.cleanE == run[j].sh.cleanF - run[i].sh.cleanF
    ensures run[j].sh.cleanF - run[i].sh.cleanF >= run[i].sh.queue.ring.capacity + 5
  {
    hide Run;
    assert run[i + 1].sh.cleanup > 0;
    CleanupUnderWay(run, size, i, j);
    HalfOnlyInside(run, size, j);
  }
}
