/** Counting over the steps of a run: how often each thread returns from the barrier, and how often
    each block and each pair of each round is claimed. */
module SortCounts {
  import opened IndexRecords
  import opened BottomUp
  import opened SortWorkers
  import opened SliceJobs
  import opened SortSafety
  import opened SortPreservation
  import opened SortResults

  // ----- returns from the barrier

  /** Between the two states thread t returns from pthread_barrier_wait. */
  predicate Returns(s: State, s': State, t: nat) {
    t < |s.threads| && t < |s'.threads| && s.threads[t].pc.Blocked? && !s'.threads[t].pc.Blocked?
  }

  /** How often thread t does so in the first n steps. */
  function Departures(run: seq<State>, t: nat, n: nat): (d: nat)
    requires n < |run|
  {
    if n == 0 then 0 else Departures(run, t, n - 1) + if Returns(run[n - 1], run[n], t) then 1 else 0
  }

  /** One step keeps each thread's count of departures equal to the generation it has seen. */
  lemma SeenStep(c: Config, s: State, t: nat, s': State, u: nat)
    requires c.Valid() && Inv(c, s) && Step(c, s, t, s') && Inv(c, s') && u < c.threads
    ensures Seen(s', u) == Seen(s, u) + if Returns(s, s', u) then 1 else 0
  {
    hide DataOk, CountsOk, MutexOk, BarrierOk, SortStep, RoundStep;
    assert ThreadOk(c, s.sh.generation, u, s.threads[u]);
    assert ThreadOk(c, s'.sh.generation, u, s'.threads[u]);
    if s'.sh.generation != s.sh.generation {
      assert s'.sh.generation == s.sh.generation + 1 && s'.threads[u].pc.Blocked? by {
        LastArrival(c, s, t, s');
      }
      LastArrival(c, s, t, s');
    } else {
      SameKind(c, s, t, s');
    }
  }

  /** The generation up to which thread u has come. */
  function Seen(s: State, u: nat): (g: nat) {
    if u < |s.threads| && s.threads[u].pc.Blocked? then s.threads[u].pc.ticket else s.sh.generation
  }

  /** A step within a generation: entering the barrier, returning from it in the next generation,
      or neither. */
  lemma SameKind(c: Config, s: State, t: nat, s': State)
    requires c.Valid() && Inv(c, s) && Step(c, s, t, s') && s'.sh.generation == s.sh.generation
    ensures var pc, pc' := s.threads[t].pc, s'.threads[t].pc;
            && (!pc.Blocked? && pc'.Blocked? ==> pc'.ticket == s.sh.generation)
            && (pc.Blocked? ==> !pc'.Blocked? && pc.ticket + 1 == s.sh.generation)
  {
    hide DataOk, CountsOk, MutexOk, BarrierOk, Cut, Off, Put;
    assert ThreadOk(c, s.sh.generation, t, s.threads[t]);
  }

  lemma {:induction false} DeparturesSeen(c: Config, run: seq<State>, u: nat, n: nat)
    requires c.Valid() && Run(c, run) && n < |run| && u < c.threads
    ensures Departures(run, u, n) == Seen(run[n], u)
  {
    hide Inv, Step, Seen, Returns;
    if n == 0 {
      assert Seen(run[0], u) == 0 by { SeenInit(c, run[0], u); }
    } else {
      DeparturesSeen(c, run, u, n - 1);
      InvRun(c, run, n - 1);
      InvRun(c, run, n);
      assert Next(c, run[n - 1], run[n - 1 + 1]);
      var t: nat :| Step(c, run[n - 1], t, run[n]);
      SeenStep(c, run[n - 1], t, run[n], u);
    }
  }

  lemma SeenInit(c: Config, s: State, u: nat)
    requires Init(c, s)
    ensures Seen(s, u) == 0
  {
  }

  /** In every reachable state the numbers of times that two threads have returned from the
      barrier differ by at most one, and a thread that is behind is inside the barrier: no two
      threads are ever on opposite sides of one. */
  lemma NobodyAhead(c: Config, run: seq<State>, t: nat, u: nat, n: nat)
    requires c.Valid() && Run(c, run) && n < |run| && t < c.threads && u < c.threads
    requires |run[n].threads| == c.threads
    ensures Departures(run, t, n) <= Departures(run, u, n) + 1
    ensures Departures(run, u, n) < Departures(run, t, n) ==>
              run[n].threads[u].pc.Blocked? && run[n].threads[u].pc.ticket < run[n].sh.generation
  {
    DeparturesSeen(c, run, t, n);
    DeparturesSeen(c, run, u, n);
    InvRun(c, run, n);
    var s := run[n];
    assert ThreadOk(c, s.sh.generation, t, s.threads[t]);
    assert ThreadOk(c, s.sh.generation, u, s.threads[u]);
    hide Run, Departures, DataOk, CountsOk, MutexOk, BarrierOk;
  }

  /** Each thread returns from the barrier exactly 2 + 3*log2(blocks) times. */
  lemma BarriersCrossed(c: Config, run: seq<State>, s: State, t: nat)
    requires c.Valid() && Completes(c, run, s) && t < c.threads
    ensures Departures(run, t, |run| - 1) == 2 + 3 * c.rounds
  {
    DeparturesSeen(c, run, t, |run| - 1);
    InvRun(c, run, |run| - 1);
    WorkersSort(c, run, s);
    hide Run, Departures;
  }

  // ----- claims

  /** A phase in which jobs are claimed. */
  predicate Working(c: Config, p: Phase) {
    p.BlockPhase? || (p.MergePhase? && p.k < c.rounds)
  }

  function JobsOf(c: Config, p: Phase): (J: Jobs)
    requires c.blocks > 0 && Working(c, p)
  {
    if p.BlockPhase? then SortJobs(c) else MergeJobs(c, p.k)
  }

  function MapOf(s: State, p: Phase): (m: seq<bool>) {
    if p.BlockPhase? then s.sh.blockMap else s.sh.mergeMap
  }

  /** The step from s to s' claims the job at block b in phase p. */
  predicate Claims(s: State, s': State, p: Phase, b: nat) {
    && PhaseOf(s.sh.generation) == p && b < |MapOf(s, p)| && b < |MapOf(s', p)|
    && !MapOf(s, p)[b] && MapOf(s', p)[b]
  }

  /** How often that happens in the first n steps. */
  function ClaimCount(run: seq<State>, p: Phase, b: nat, n: nat): (k: nat)
    requires n < |run|
  {
    if n == 0 then 0 else ClaimCount(run, p, b, n - 1) + if Claims(run[n - 1], run[n], p, b) then 1 else 0
  }

  /** No claim before the phase, one or none in it as the map says, one after it. */
  predicate Counted(s: State, p: Phase, b: nat, k: nat) {
    && b < |MapOf(s, p)|
    && k == if s.sh.generation < Crossings(p) then 0
            else if s.sh.generation > Crossings(p) then 1
            else if MapOf(s, p)[b] then 1 else 0
  }

  lemma PhaseAt(g: nat, p: Phase)
    ensures PhaseOf(g) == p <==> g == Crossings(p)
  {
    CrossingsOfPhase(g);
  }

  /** A claim byte set in its phase stays set until the phase is over. */
  lemma MapGrows(c: Config, s: State, t: nat, s': State, p: Phase, b: nat)
    requires c.Valid() && Inv(c, s) && Step(c, s, t, s') && s'.sh.generation == s.sh.generation
    requires PhaseOf(s.sh.generation) == p && Working(c, p) && b < c.blocks
    ensures |MapOf(s', p)| == c.blocks && (MapOf(s, p)[b] ==> MapOf(s', p)[b])
  {
    hide DataOk, CountsOk, MutexOk, BarrierOk, Cut, Off, Put;
    assert ThreadOk(c, s.sh.generation, t, s.threads[t]);
  }

  /** When the phase ends every job has been claimed. */
  lemma MapFull(c: Config, s: State, t: nat, s': State, p: Phase, b: nat)
    requires c.Valid() && Inv(c, s) && Step(c, s, t, s') && s'.sh.generation != s.sh.generation
    requires PhaseOf(s.sh.generation) == p && Working(c, p) && JobsOf(c, p).width > 0 && JobsOf(c, p).Is(b)
    ensures MapOf(s, p)[b] && MapOf(s', p) == MapOf(s, p)
  {
    hide CountsOk, MutexOk, BarrierOk, Cut, Off, Put, JobsOk, AfterRound, Aligned, Moves;
    LastArrival(c, s, t, s');
    JobLocal(JobsOf(c, p), s.sh.arr, MapOf(s, p), s.sh.generation, s.threads, t);
  }

  /** When a phase with jobs begins its map is clear. */
  lemma MapClear(c: Config, s: State, t: nat, s': State, p: Phase, b: nat)
    requires c.Valid() && Inv(c, s) && Step(c, s, t, s') && s'.sh.generation != s.sh.generation
    requires PhaseOf(s'.sh.generation) == p && Working(c, p) && b < c.blocks
    ensures |MapOf(s', p)| == c.blocks && !MapOf(s', p)[b]
  {
    hide CountsOk, MutexOk, BarrierOk, Cut, Off, Put, JobsOk, AfterRound, Moves;
    LastArrival(c, s, t, s');
    assert PhaseOf(s.sh.generation + 1) == After(PhaseOf(s.sh.generation));
    assert s'.threads[0].pc.Blocked?;
    assert ThreadOk(c, s.sh.generation, 0, s.threads[0]);
  }

  lemma CountedStep(c: Config, s: State, t: nat, s': State, p: Phase, b: nat, k: nat)
    requires c.Valid() && Inv(c, s) && Inv(c, s') && Step(c, s, t, s') && Working(c, p)
    requires JobsOf(c, p).width > 0 && JobsOf(c, p).Is(b) && Counted(s, p, b, k)
    ensures Counted(s', p, b, k + if Claims(s, s', p, b) then 1 else 0)
  {
    PhaseAt(s.sh.generation, p);
    PhaseAt(s'.sh.generation, p);
    if s'.sh.generation != s.sh.generation {
      LastArrival(c, s, t, s');
      if PhaseOf(s.sh.generation) == p {
        MapFull(c, s, t, s', p, b);
      } else if PhaseOf(s'.sh.generation) == p {
        MapClear(c, s, t, s', p, b);
      }
    } else if PhaseOf(s.sh.generation) == p {
      MapGrows(c, s, t, s', p, b);
    }
    hide DataOk, CountsOk, MutexOk, BarrierOk, Step, PhaseOf, ThreadsOk;
  }

  lemma {:induction false} CountedRun(c: Config, run: seq<State>, p: Phase, b: nat, n: nat)
    requires c.Valid() && Run(c, run) && n < |run| && Working(c, p)
    requires JobsOf(c, p).width > 0 && JobsOf(c, p).Is(b)
    ensures Counted(run[n], p, b, ClaimCount(run, p, b, n))
  {
    hide Inv, Step, Claims, Counted;
    if n == 0 {
      CountedInit(c, run[0], p, b);
    } else {
      CountedRun(c, run, p, b, n - 1);
      InvRun(c, run, n - 1);
      InvRun(c, run, n);
      assert Next(c, run[n - 1], run[n - 1 + 1]);
      var t: nat :| Step(c, run[n - 1], t, run[n]);
      CountedStep(c, run[n - 1], t, run[n], p, b, ClaimCount(run, p, b, n - 1));
    }
  }

  lemma CountedInit(c: Config, s: State, p: Phase, b: nat)
    requires Init(c, s) && c.blocks > 0 && Working(c, p) && JobsOf(c, p).width > 0 && JobsOf(c, p).Is(b)
    ensures Counted(s, p, b, 0)
  {
  }

  /** In every run in which all workers return, each block is claimed exactly once, and in each
      round k each pair of runs of 2^k blocks is claimed exactly once. */
  lemma ClaimedOnce(c: Config, run: seq<State>, s: State, b: nat)
    requires c.Valid() && Completes(c, run, s) && b < c.blocks
    ensures ClaimCount(run, BlockPhase, b, |run| - 1) == 1
    ensures forall k: nat :: k < c.rounds && Aligned(b, 2 * Pow2(k)) ==> ClaimCount(run, MergePhase(k), b, |run| - 1) == 1
  {
    hide Init, Next, Finished, IsSort, Pow2, Covered, PrefixSorted;
    WorkersSort(c, run, s);
    AlignedOne(b);
    CountedRun(c, run, BlockPhase, b, |run| - 1);
    forall k: nat | k < c.rounds && Aligned(b, 2 * Pow2(k))
      ensures ClaimCount(run, MergePhase(k), b, |run| - 1) == 1
    {
      CountedRun(c, run, MergePhase(k), b, |run| - 1);
    }
  }

  // ----- which job is claimed

  /** The thread has looked at the block numbered like itself. */
  predicate LookedAtOwn(pc: Pc) {
    pc.OwnUnlock? || pc.ScanLock? || pc.Scan? || pc.ScanUnlock? || pc.Sorting?
  }

  lemma OwnBlockStep(c: Config, s: State, t: nat, s': State, u: nat)
    requires Step(c, s, t, s') && |s.sh.blockMap| == c.blocks && u < |s.threads| && u < c.blocks
    requires LookedAtOwn(s.threads[u].pc) ==> s.sh.blockMap[u]
    ensures |s'.sh.blockMap| == c.blocks && (LookedAtOwn(s'.threads[u].pc) ==> s'.sh.blockMap[u])
  {
    hide Cut, Off, Put;
  }

  /** Every thread first sees to the block numbered like itself: when it sorts, or looks for another
      block, that one has been claimed, by itself or by a thread that was faster. */
  lemma {:induction false} OwnBlockFirst(c: Config, run: seq<State>, i: nat, t: nat)
    requires c.Valid() && Run(c, run) && i < |run| && t < c.threads
    ensures |run[i].threads| == c.threads && |run[i].sh.blockMap| == c.blocks
    ensures LookedAtOwn(run[i].threads[t].pc) ==> run[i].sh.blockMap[t]
  {
    hide Step, LookedAtOwn, Inv;
    if i == 0 {
      assert !LookedAtOwn(run[0].threads[t].pc) by {
        assert run[0].threads[t] == Thread(Barrier(AtStart), 1, 1);
        NotAtStart();
      }
    } else {
      OwnBlockFirst(c, run, i - 1, t);
      assert Next(c, run[i - 1], run[i - 1 + 1]);
      var u: nat :| Step(c, run[i - 1], u, run[i]);
      OwnBlockStep(c, run[i - 1], u, run[i], t);
      SameThreads(c, run[i - 1], u, run[i]);
    }
  }

  lemma NotAtStart()
    ensures !LookedAtOwn(Barrier(AtStart))
  {
  }

  lemma SameThreads(c: Config, s: State, t: nat, s': State)
    requires Step(c, s, t, s')
    ensures |s'.threads| == |s.threads|
  {
    hide Moves;
  }

  /** A thread that looks at its own block claims it if it is free; a thread that scans claims the
      first free block, and in a round the first free pair. */
  lemma ClaimsFirstFree(c: Config, run: seq<State>, i: nat, t: nat, s': State)
    requires c.Valid() && Run(c, run) && i < |run| && t < c.threads && Step(c, run[i], t, s')
    ensures |run[i].threads| == c.threads
    ensures var s, pc, b := run[i], run[i].threads[t].pc, Claim(t, s'.threads[t]);
            && (pc.OwnTest? ==> t < |s.sh.blockMap| && b == if s.sh.blockMap[t] then NONE else t)
            && (pc.Scan? && b >= 0 ==> b < |s.sh.blockMap| && !s.sh.blockMap[b] && forall d :: 0 <= d < b ==> s.sh.blockMap[d])
            && (pc.PairScan? && b >= 0 ==>
                  && b < |s.sh.mergeMap| && !s.sh.mergeMap[b]
                  && forall d: nat :: d < b && Aligned(d, 2 * Pow2(RoundNo(s.threads[t]))) ==> s.sh.mergeMap[d])
  {
    hide Inv, Step, Aligned, Pow2, Claim, RoundNo, Init, Next;
    InvRun(c, run, i);
    var s := run[i];
    InvSizes(c, s);
    LookStep(c, s, t, s');
    if s.threads[t].pc.Scan? {
      ScanBelow(c, s, t);
    } else if s.threads[t].pc.PairScan? {
      PairsBelow(c, s, t);
    }
  }

  lemma InvSizes(c: Config, s: State)
    requires c.Valid() && Inv(c, s)
    ensures |s.threads| == c.threads && |s.sh.blockMap| == c.blocks && |s.sh.mergeMap| == c.blocks
    ensures c.threads <= c.blocks
  {
    hide DataOk, CountsOk, MutexOk, BarrierOk, ThreadsOk;
  }

  /** One look at a map entry: it is claimed if it is free. */
  lemma LookStep(c: Config, s: State, t: nat, s': State)
    requires Step(c, s, t, s') && t < |s.sh.blockMap|
    ensures var pc, b := s.threads[t].pc, Claim(t, s'.threads[t]);
            && (pc.OwnTest? ==> b == if s.sh.blockMap[t] then NONE else t)
            && (pc.Scan? && b >= 0 ==> b == pc.i < |s.sh.blockMap| && !s.sh.blockMap[b])
            && (pc.PairScan? && b >= 0 ==> b == pc.i < |s.sh.mergeMap| && !s.sh.mergeMap[b])
  {
    hide Cut, Off, Put;
  }

  lemma ScanBelow(c: Config, s: State, t: nat)
    requires c.Valid() && Inv(c, s) && t < c.threads && s.threads[t].pc.Scan?
    ensures forall d :: 0 <= d < s.threads[t].pc.i && d < c.blocks ==> s.sh.blockMap[d]
  {
    assert ThreadOk(c, s.sh.generation, t, s.threads[t]);
    hide CountsOk, MutexOk, BarrierOk, JobsOk, Cut, Off;
    var J := SortJobs(c);
    JobLocal(J, s.sh.arr, s.sh.blockMap, s.sh.generation, s.threads, t);
    forall d: nat | d < s.threads[t].pc.i && d < c.blocks ensures s.sh.blockMap[d] {
      AlignedOne(d);
      assert J.Is(d);
    }
  }

  lemma PairsBelow(c: Config, s: State, t: nat)
    requires c.Valid() && Inv(c, s) && t < c.threads && s.threads[t].pc.PairScan?
    ensures forall d: nat :: d < s.threads[t].pc.i && d < c.blocks && Aligned(d, 2 * Pow2(RoundNo(s.threads[t]))) ==>
              s.sh.mergeMap[d]
  {
    assert ThreadOk(c, s.sh.generation, t, s.threads[t]);
    hide CountsOk, MutexOk, BarrierOk, JobsOk, Cut, Off, Aligned;
    var J := MergeJobs(c, RoundNo(s.threads[t]));
    JobLocal(J, s.sh.arr, s.sh.mergeMap, s.sh.generation, s.threads, t);
    forall d: nat | d < s.threads[t].pc.i && d < c.blocks && Aligned(d, J.width) ensures s.sh.mergeMap[d] {
      assert J.Is(d);
    }
  }
}
