/** Every step of every worker keeps the invariant of SortSafety. */
module SortPreservation {
  import opened IndexRecords
  import opened BottomUp
  import opened SortWorkers
  import opened SliceJobs
  import opened SortSafety

  // ----- control: phases, mutex, barrier

  lemma BarrierThreadOk(c: Config, t: nat, sh: Shared, th: Thread, sh': Shared, th': Thread)
    requires c.Valid() && ThreadOk(c, sh.generation, t, th) && BarrierStep(c, t, sh, th, sh', th')
    ensures ThreadOk(c, sh'.generation, t, th')
  {
    hide IsSort, Cut, Off;
    if th.pc.Blocked? {
      assert PhaseOf(sh.generation) == After(PhaseOf(th.pc.ticket));
    }
  }

  lemma RoundThreadOk(c: Config, t: nat, sh: Shared, th: Thread, sh': Shared, th': Thread)
    requires c.Valid() && ThreadOk(c, sh.generation, t, th) && RoundStep(c, t, sh, th, sh', th')
    ensures ThreadOk(c, sh'.generation, t, th')
  {
    hide IsSort, Cut, Off, Put, PhaseOf;
    if th.pc.LoopTest? && RoundNo(th) < c.rounds {
      Pow2Monotone(RoundNo(th), c.rounds);
    }
  }

  /** A thread's step keeps its own program counter in step with the barrier generation. */
  lemma ThreadOkStep(c: Config, t: nat, sh: Shared, th: Thread, sh': Shared, th': Thread)
    requires c.Valid() && ThreadOk(c, sh.generation, t, th) && Moves(c, t, sh, th, sh', th')
    ensures ThreadOk(c, sh'.generation, t, th')
  {
    hide IsSort, Cut, Off, PhaseOf, RoundStep, BarrierStep, Put;
    if BarrierStep(c, t, sh, th, sh', th') {
      BarrierThreadOk(c, t, sh, th, sh', th');
    } else if RoundStep(c, t, sh, th, sh', th') {
      RoundThreadOk(c, t, sh, th, sh', th');
    }
  }

  /** The generation changes only when the last thread arrives; then all are inside the barrier. */
  lemma LastArrival(c: Config, s: State, t: nat, s': State)
    requires c.Valid() && Inv(c, s) && Step(c, s, t, s') && s'.sh.generation != s.sh.generation
    ensures s.threads[t].pc.Barrier? && s'.sh.generation == s.sh.generation + 1 && s'.sh.arrived == 0
    ensures s'.sh == s.sh.(arrived := 0, generation := s.sh.generation + 1)
    ensures forall u :: 0 <= u < |s'.threads| ==>
              s'.threads[u].pc.Blocked? && s'.threads[u].pc.ticket == s.sh.generation
              && (u != t ==> s'.threads[u] == s.threads[u])
  {
    hide IsSort, Cut, Off, DataOk, CountsOk, ThreadsOk;
    var g := s.sh.generation;
    assert s.threads[t].pc.Barrier?;
    TallyUpdate(s.threads, Waiting(g), t, s'.threads[t]);
    AllWait(s'.threads, g);
  }

  lemma ThreadsOkStep(c: Config, s: State, t: nat, s': State)
    requires c.Valid() && Inv(c, s) && Step(c, s, t, s')
    ensures ThreadsOk(c, s')
  {
    ThreadOkStep(c, t, s.sh, s.threads[t], s'.sh, s'.threads[t]);
    if s'.sh.generation != s.sh.generation {
      LastArrival(c, s, t, s');
    }
    hide Moves, PhaseOf, DataOk, CountsOk, MutexOk, BarrierOk;
    forall u | 0 <= u < |s'.threads| ensures ThreadOk(c, s'.sh.generation, u, s'.threads[u]) {
      if u != t {
        assert ThreadOk(c, s.sh.generation, u, s.threads[u]);
      }
    }
  }

  lemma MutexOkStep(c: Config, s: State, t: nat, s': State)
    requires c.Valid() && Inv(c, s) && Step(c, s, t, s')
    ensures MutexOk(s')
  {
    hide IsSort, Cut, Off, DataOk, CountsOk, ThreadsOk, BarrierOk, Put;
    forall u | 0 <= u < |s'.threads| ensures Holds(s'.threads[u].pc) <==> s'.sh.owner == u {
      assert Holds(s.threads[u].pc) <==> s.sh.owner == u;
      assert Holds(s.threads[t].pc) <==> s.sh.owner == t;
    }
  }

  lemma ArrivalWeight(c: Config, t: nat, sh: Shared, th: Thread, sh': Shared, th': Thread)
    requires Moves(c, t, sh, th, sh', th') && sh'.generation == sh.generation
    requires th.pc.Blocked? ==> th.pc.ticket < sh.generation
    ensures sh'.arrived == sh.arrived + Weigh(Waiting(sh.generation), th') - Weigh(Waiting(sh.generation), th)
    ensures sh'.arrived != sh.arrived ==> sh.arrived + 1 != c.threads && sh'.arrived == sh.arrived + 1
  {
    hide Cut, Off, Put;
  }

  /** A thread inside the barrier moves only once it has been released. */
  lemma OnlyReleasedMove(c: Config, t: nat, sh: Shared, th: Thread, sh': Shared, th': Thread)
    requires Moves(c, t, sh, th, sh', th') && th.pc.Blocked?
    ensures th.pc.ticket < sh.generation
  {
    hide Cut, Off, Put, Resume;
  }

  lemma BarrierOkStep(c: Config, s: State, t: nat, s': State)
    requires c.Valid() && Inv(c, s) && Step(c, s, t, s')
    ensures BarrierOk(c, s')
  {
    hide IsSort, Cut, Off, DataOk, CountsOk, ThreadsOk, MutexOk, Put, Moves, Weigh;
    var g := s.sh.generation;
    if s'.sh.generation != g {
      LastArrival(c, s, t, s');
      NobodyWaits(s'.threads, g);
    } else {
      if s.threads[t].pc.Blocked? {
        OnlyReleasedMove(c, t, s.sh, s.threads[t], s'.sh, s'.threads[t]);
      }
      TallyUpdate(s.threads, Waiting(g), t, s'.threads[t]);
      ArrivalWeight(c, t, s.sh, s.threads[t], s'.sh, s'.threads[t]);
    }
  }

  lemma NobodyWaits(ts: seq<Thread>, g: nat)
    requires forall t :: 0 <= t < |ts| ==> ts[t].pc.Blocked? && ts[t].pc.ticket == g
    ensures Tally(ts, Waiting(g + 1)) == 0
  {
    TallyZero(ts, Waiting(g + 1));
  }

  // ----- data: what a step does to the jobs of the current phase

  /** The block phase is under way and thread t takes a step of its sorting code. */
  ghost predicate SortMove(c: Config, s: State, t: nat, s': State) {
    && c.Valid() && t < |s.threads| && |s'.threads| == |s.threads| && s'.threads == s.threads[t := s'.threads[t]]
    && JobsOk(SortJobs(c), s.sh.arr, s.sh.blockMap, s.sh.generation, s.threads)
    && SortStep(c, t, s.sh, s.threads[t], s'.sh, s'.threads[t])
  }

  ghost predicate SortMoveOk(c: Config, s': State)
    requires c.blocks > 0
  {
    JobsOk(SortJobs(c), s'.sh.arr, s'.sh.blockMap, s'.sh.generation, s'.threads)
  }

  lemma JobLocal(J: Jobs, arr: seq<Record>, map_: seq<bool>, gen: nat, ts: seq<Thread>, t: nat)
    requires JobsOk(J, arr, map_, gen, ts) && t < |ts|
    ensures J.Valid() && |arr| == |J.before| && |map_| == J.n
    ensures LocalJob(J, arr, map_, gen, t, ts[t])
  {
    hide LocalJob, Cut, Off;
  }

  lemma WaitingJob(J: Jobs, arr: seq<Record>, map_: seq<bool>, gen: nat, ts: seq<Thread>, b: nat)
    requires JobsOk(J, arr, map_, gen, ts) && J.Is(b) && !map_[b]
    ensures J.Part(arr, b) == J.Part(J.before, b)
  {
  }

  lemma SortClaims(c: Config, s: State, t: nat, s': State)
    requires SortMove(c, s, t, s') && (s.threads[t].pc.OwnTest? || s.threads[t].pc.Scan?)
    ensures SortMoveOk(c, s')
  {
    hide IsSort, AfterRound, Cut, Off, Aligned, JobsOk;
    var J, sh, th, th' := SortJobs(c), s.sh, s.threads[t], s'.threads[t];
    SortJobsValid(c);
    JobLocal(J, sh.arr, sh.blockMap, sh.generation, s.threads, t);
    var b := Claim(t, th');
    if b >= 0 {
      WaitingJob(J, sh.arr, sh.blockMap, sh.generation, s.threads, b);
      JobsClaim(J, sh.arr, sh.blockMap, sh.generation, s.threads, t, th', b);
    } else {
      JobsQuiet(J, sh.arr, sh.blockMap, sh.generation, s.threads, t, th');
    }
  }

  lemma SortLocks(c: Config, s: State, t: nat, s': State)
    requires SortMove(c, s, t, s')
    requires !s.threads[t].pc.OwnTest? && !s.threads[t].pc.Scan? && !s.threads[t].pc.Sorting?
    ensures SortMoveOk(c, s')
  {
    hide IsSort, AfterRound, Cut, Off, Aligned, JobsOk;
    var J, sh, th, th' := SortJobs(c), s.sh, s.threads[t], s'.threads[t];
    JobLocal(J, sh.arr, sh.blockMap, sh.generation, s.threads, t);
    var b := Claim(t, th);
    if b >= 0 {
      JobsWork(J, sh.arr, sh.arr, sh.blockMap, sh.generation, s.threads, t, th', b);
    } else {
      JobsQuiet(J, sh.arr, sh.blockMap, sh.generation, s.threads, t, th');
    }
  }

  /** Where job b's slice lies, and that writing there stays inside it. */
  lemma JobSlice(J: Jobs, arr: seq<Record>, b: nat, o: nat, s: seq<Record>)
    requires J.Valid() && J.Is(b) && |arr| == |J.before| && o + |s| <= |J.Part(J.before, b)|
    ensures |J.Part(J.before, b)| == |J.Part(J.after, b)| == Off(J.r, b + J.width) - Off(J.r, b)
    ensures Off(J.r, b + J.width) <= |arr|
    ensures SameOutside(arr, Put(arr, Off(J.r, b) + o, s), Off(J.r, b), Off(J.r, b + J.width))
  {
    AlignedGap(b, J.n, J.width);
    OffMonotone(J.r, b + J.width, J.n);
    CutLength(J.before, J.r, b, b + J.width);
    CutLength(J.after, J.r, b, b + J.width);
    hide Cut, Off, Put;
    PutOutside(arr, Off(J.r, b) + o, s, Off(J.r, b), Off(J.r, b + J.width));
  }

  /** A sorting thread keeps its job while qsort moves records about inside the slice. */
  lemma StillSorting(J: Jobs, arr: seq<Record>, arr': seq<Record>, map_: seq<bool>, gen: nat, t: nat, th: Thread, th': Thread)
    requires J.width > 0 && th.pc.Sorting? && LocalJob(J, arr, map_, gen, t, th)
    requires th'.pc.Sorting? && th'.pc.block == th.pc.block && th'.pc.slice == th.pc.slice
    ensures Claim(t, th) == th.pc.block && Claim(t, th') == th.pc.block && J.Is(th.pc.block)
    ensures th.pc.slice == J.Part(J.before, th.pc.block)
    ensures LocalJob(J, arr', map_, gen, t, th')
  {
    hide Cut, Off, Aligned;
  }

  lemma SortWrites(c: Config, s: State, t: nat, s': State)
    requires SortMove(c, s, t, s') && s.threads[t].pc.Sorting? && s.threads[t].pc.writes > 0
    ensures SortMoveOk(c, s')
  {
    hide IsSort, AfterRound, Cut, Off, Aligned, JobsOk, Put, SameOutside;
    var J, sh, th, th' := SortJobs(c), s.sh, s.threads[t], s'.threads[t];
    var b, slice := th.pc.block, th.pc.slice;
    JobLocal(J, sh.arr, sh.blockMap, sh.generation, s.threads, t);
    StillSorting(J, sh.arr, s'.sh.arr, sh.blockMap, sh.generation, t, th, th');
    var junk: seq<Record> :| |junk| == |slice| && s'.sh == sh.(arr := Put(sh.arr, Off(c.Per(), b), junk));
    hide SortStep;
    assert J.Valid() by {
      SortJobsValid(c);
    }
    assert |sh.arr| == |J.before| by {
      }
    JobSlice(J, sh.arr, b, 0, junk);
    assert Off(J.r, b) + 0 == Off(J.r, b);
    JobsWork(J, sh.arr, s'.sh.arr, sh.blockMap, sh.generation, s.threads, t, th', b);
  }

  lemma SortReturns(c: Config, s: State, t: nat, s': State)
    requires SortMove(c, s, t, s') && s.threads[t].pc.Sorting? && s.threads[t].pc.writes == 0
    ensures SortMoveOk(c, s')
  {
    hide IsSort, AfterRound, Cut, Off, Aligned, JobsOk, Put, SameOutside;
    var J, sh, th, th' := SortJobs(c), s.sh, s.threads[t], s'.threads[t];
    var b, slice := th.pc.block, th.pc.slice;
    JobLocal(J, sh.arr, sh.blockMap, sh.generation, s.threads, t);
    StillSorting(J, sh.arr, s'.sh.arr, sh.blockMap, sh.generation, t, th, th);
    assert s'.sh == sh.(arr := Put(sh.arr, Off(J.r, b), c.qs(slice)));
    assert LocalJob(J, s'.sh.arr, sh.blockMap, sh.generation, t, th') && Claim(t, th') == NONE;
    assert J.Valid() && c.qs(slice) == J.Part(J.after, b) by {
      SortJobsValid(c);
    }
    JobSlice(J, sh.arr, b, 0, []);
    CutPut(sh.arr, J.r, b, b + J.width, c.qs(slice));
    JobsWork(J, sh.arr, s'.sh.arr, sh.blockMap, sh.generation, s.threads, t, th', b);
  }

  /** Merge round k is under way and thread t takes a step of its merging code. */
  ghost predicate MergeMove(c: Config, k: nat, s: State, t: nat, s': State) {
    && c.Valid() && k < c.rounds
    && t < |s.threads| && |s'.threads| == |s.threads| && s'.threads == s.threads[t := s'.threads[t]]
    && s.threads[t].step == Pow2(k)
    && JobsOk(MergeJobs(c, k), s.sh.arr, s.sh.mergeMap, s.sh.generation, s.threads)
    && !s.threads[t].pc.LoopTest? && !s.threads[t].pc.Clearing?
    && RoundStep(c, t, s.sh, s.threads[t], s'.sh, s'.threads[t])
  }

  ghost predicate MergeMoveOk(c: Config, k: nat, s': State)
    requires c.blocks > 0
  {
    JobsOk(MergeJobs(c, k), s'.sh.arr, s'.sh.mergeMap, s'.sh.generation, s'.threads)
  }

  /** Inside a round, a block has a right neighbour run exactly when a whole pair fits. */
  lemma PairBound(c: Config, k: nat, i: nat)
    requires c.Valid() && k < c.rounds && Aligned(i, 2 * Pow2(k))
    ensures i + Pow2(k) < c.blocks <==> i < c.blocks
    ensures i < c.blocks ==> i + 2 * Pow2(k) <= c.blocks
    ensures Aligned(i + 2 * Pow2(k), 2 * Pow2(k))
  {
    AlignedPow2(k + 1, c.rounds);
    if i < c.blocks {
      AlignedGap(i, c.blocks, 2 * Pow2(k));
    }
  }

  /** No other pair start lies between a pair start and the next one. */
  lemma ScanAdvances(J: Jobs, map_: seq<bool>, i: nat)
    requires J.width > 0 && Aligned(i, J.width) && AllClaimedBelow(J, map_, i)
    requires i < |map_| ==> map_[i]
    ensures AllClaimedBelow(J, map_, i + J.width)
  {
    forall b: nat | b < i + J.width && J.Is(b) && b < |map_| ensures map_[b] {
      if b > i {
        AlignedGap(i, b, J.width);
      }
    }
  }

  lemma PairClaims(c: Config, k: nat, s: State, t: nat, s': State)
    requires MergeMove(c, k, s, t, s') && s.threads[t].pc.PairScan?
    ensures MergeMoveOk(c, k, s')
  {
    hide IsSort, Cut, Off, JobsOk, AllClaimedBelow, Aligned, Pow2, AfterRound;
    var J, sh, th, th' := MergeJobs(c, k), s.sh, s.threads[t], s'.threads[t];
    JobLocal(J, sh.arr, sh.mergeMap, sh.generation, s.threads, t);
    var i := th.pc.i;
    PairBound(c, k, i);
    if i + th.step >= |sh.mergeMap| {
      assert AllClaimedBelow(J, sh.mergeMap, J.n) by {
        AllClaimedTo(J, sh.mergeMap, i);
      }
      JobsQuiet(J, sh.arr, sh.mergeMap, sh.generation, s.threads, t, th');
    } else if sh.mergeMap[i] {
      ScanAdvances(J, sh.mergeMap, i);
      JobsQuiet(J, sh.arr, sh.mergeMap, sh.generation, s.threads, t, th');
    } else {
      WaitingJob(J, sh.arr, sh.mergeMap, sh.generation, s.threads, i);
      JobsClaim(J, sh.arr, sh.mergeMap, sh.generation, s.threads, t, th', i);
    }
  }

  lemma AllClaimedTo(J: Jobs, map_: seq<bool>, i: nat)
    requires J.width > 0 && J.n <= i && AllClaimedBelow(J, map_, i)
    ensures AllClaimedBelow(J, map_, J.n)
  {
  }

  /** Equal slices have equal halves. */
  lemma HalfCuts(a: seq<Record>, p: seq<Record>, r: nat, b: nat, m: nat, e: nat)
    requires b <= m <= e && Off(r, e) <= |a| && |a| == |p| && Cut(a, r, b, e) == Cut(p, r, b, e)
    ensures Cut(a, r, b, m) == Cut(p, r, b, m) && Cut(a, r, m, e) == Cut(p, r, m, e)
  {
    OffMonotone(r, m, e);
    CutLength(a, r, b, m);
    CutLength(p, r, b, m);
    CutSplit(a, r, b, m, e);
    CutSplit(p, r, b, m, e);
    hide Cut, Off;
    var w := Cut(a, r, b, e);
    var h := |Cut(a, r, b, m)|;
    assert Cut(a, r, b, m) == w[..h] && Cut(a, r, m, e) == w[h..];
    assert Cut(p, r, b, m) == w[..h] && Cut(p, r, m, e) == w[h..];
  }

  /** The claimed pair is still as it was at the start of the round, so merging its two
      runs gives the finished slice. */
  lemma PairReady(c: Config, k: nat, arr: seq<Record>, b: nat)
    requires c.Valid() && k < c.rounds && |arr| == |c.input| && MergeJobs(c, k).Is(b)
    requires MergeJobs(c, k).Part(arr, b) == MergeJobs(c, k).Part(MergeJobs(c, k).before, b)
    ensures Merged(arr, c.Per(), b, Pow2(k)) == MergeJobs(c, k).Part(MergeJobs(c, k).after, b)
  {
    hide Cut, Off, Aligned, IsSort, AfterRound, Pow2;
    var J := MergeJobs(c, k);
    MergeJobsValid(c, k);
    AlignedGap(b, J.n, J.width);
    OffMonotone(J.r, b + J.width, J.n);
    HalfCuts(arr, J.before, J.r, b, b + Pow2(k), b + 2 * Pow2(k));
  }

  /** A pair with an empty run has no records at all: there is nothing to merge. */
  lemma EmptyPair(c: Config, k: nat, arr: seq<Record>, b: nat)
    requires c.Valid() && k < c.rounds && |arr| == |c.input| && MergeJobs(c, k).Is(b)
    requires Cut(arr, c.Per(), b, b + Pow2(k)) == [] || Cut(arr, c.Per(), b + Pow2(k), b + 2 * Pow2(k)) == []
    ensures MergeJobs(c, k).Part(arr, b) == MergeJobs(c, k).Part(MergeJobs(c, k).after, b)
  {
    hide Cut, Off, Aligned, IsSort, AfterRound, Pow2;
    var J := MergeJobs(c, k);
    MergeJobsValid(c, k);
    AlignedGap(b, J.n, J.width);
    OffMonotone(J.r, b + J.width, J.n);
    OffMonotone(J.r, b + Pow2(k), b + 2 * Pow2(k));
    CutLength(arr, J.r, b, b + Pow2(k));
    CutLength(arr, J.r, b + Pow2(k), b + 2 * Pow2(k));
    if Cut(arr, c.Per(), b, b + Pow2(k)) == [] {
      OffStrict(J.r, b, b + Pow2(k));
    } else {
      OffStrict(J.r, b + Pow2(k), b + 2 * Pow2(k));
    }
    OffZero(b);
    OffZero(b + 2 * Pow2(k));
    CutLength(arr, J.r, b, b + 2 * Pow2(k));
    CutLength(J.after, J.r, b, b + 2 * Pow2(k));
  }

  lemma PairLocks(c: Config, k: nat, s: State, t: nat, s': State)
    requires MergeMove(c, k, s, t, s') && (s.threads[t].pc.PairLock? || s.threads[t].pc.PairUnlock?)
    ensures MergeMoveOk(c, k, s')
  {
    hide IsSort, Cut, Off, JobsOk, AllClaimedBelow, Pow2, Merge, SameOutside, AfterRound, Aligned;
    var J, sh, th, th' := MergeJobs(c, k), s.sh, s.threads[t], s'.threads[t];
    JobLocal(J, sh.arr, sh.mergeMap, sh.generation, s.threads, t);
    var b := Claim(t, th);
    if b < 0 {
      NoneBelow(J, sh.mergeMap);
      JobsQuiet(J, sh.arr, sh.mergeMap, sh.generation, s.threads, t, th');
    } else {
      assert J.Is(b);
      var x, y := LeftRun(c, sh, th, b), RightRun(c, sh, th, b);
      Unchanged(sh.arr, Off(J.r, b), Off(J.r, b + J.width));
      if x != [] && y != [] {
        PairReady(c, k, sh.arr, b);
        assert x[0..] == x && y[0..] == y && [] + Merge(x, y) == Merge(x, y);
        assert MergeProgress(J, sh.arr, th'.step, b, [], 0, 0);
      } else {
        EmptyPair(c, k, sh.arr, b);
      }
      JobsWork(J, sh.arr, sh.arr, sh.mergeMap, sh.generation, s.threads, t, th', b);
    }
  }

  lemma NoneBelow(J: Jobs, map_: seq<bool>)
    requires J.width > 0
    ensures Aligned(0, J.width) && AllClaimedBelow(J, map_, 0)
  {
  }

  lemma Unchanged(a: seq<Record>, lo: nat, hi: nat)
    ensures SameOutside(a, a, lo, hi)
  {
  }

  lemma MergeSteps(c: Config, k: nat, s: State, t: nat, s': State)
    requires MergeMove(c, k, s, t, s') && s.threads[t].pc.Merging?
    ensures MergeMoveOk(c, k, s')
  {
    hide IsSort, Cut, Off, JobsOk, AllClaimedBelow, Pow2, Merge, SameOutside, AfterRound, Aligned;
    var J, sh, th, th' := MergeJobs(c, k), s.sh, s.threads[t], s'.threads[t];
    JobLocal(J, sh.arr, sh.mergeMap, sh.generation, s.threads, t);
    var b, tmp, i, j := th.pc.block, th.pc.tmp, th.pc.i, th.pc.j;
    MergeAdvances(LeftRun(c, sh, th, b), RightRun(c, sh, th, b), tmp, i, j);
    Unchanged(sh.arr, Off(J.r, b), Off(J.r, b + J.width));
    JobSlice(J, sh.arr, b, 0, []);
    OffEnd(J, sh.arr, b);
    JobsWork(J, sh.arr, sh.arr, sh.mergeMap, sh.generation, s.threads, t, th', b);
  }

  lemma OffEnd(J: Jobs, arr: seq<Record>, b: nat)
    requires J.Valid() && J.Is(b) && |arr| == |J.before|
    ensures Off(J.r, b) <= Off(J.r, b + J.width) <= |arr|
  {
    AlignedGap(b, J.n, J.width);
    OffMonotone(J.r, b, b + J.width);
    OffMonotone(J.r, b + J.width, J.n);
  }

  lemma CopySteps(c: Config, k: nat, s: State, t: nat, s': State)
    requires MergeMove(c, k, s, t, s') && s.threads[t].pc.Copying?
    ensures MergeMoveOk(c, k, s')
  {
    hide IsSort, Cut, Off, JobsOk, AllClaimedBelow, Pow2, SameOutside, Put, AfterRound, Aligned;
    var J, sh, th, th' := MergeJobs(c, k), s.sh, s.threads[t], s'.threads[t];
    JobLocal(J, sh.arr, sh.mergeMap, sh.generation, s.threads, t);
    var b, tmp, i := th.pc.block, th.pc.tmp, th.pc.k;
    OffEnd(J, sh.arr, b);
    JobSlice(J, sh.arr, b, 0, []);
    if i < |tmp| {
      JobSlice(J, sh.arr, b, i, [tmp[i]]);
      PutOne(sh.arr, Off(J.r, b) + i, tmp[i]);
    } else {
      Unchanged(sh.arr, Off(J.r, b), Off(J.r, b + J.width));
      assert J.Part(sh.arr, b) == tmp by {
        CopyDone(J, sh.arr, b, tmp);
      }
    }
    JobsWork(J, sh.arr, s'.sh.arr, sh.mergeMap, sh.generation, s.threads, t, th', b);
  }

  lemma PutOne(a: seq<Record>, at: nat, x: Record)
    requires at < |a|
    ensures Put(a, at, [x]) == a[at := x]
  {
  }

  lemma CopyDone(J: Jobs, arr: seq<Record>, b: nat, tmp: seq<Record>)
    requires J.Valid() && J.Is(b) && |arr| == |J.before|
    requires CopyProgress(J, arr, b, tmp, |tmp|) && tmp == J.Part(J.after, b)
    ensures J.Part(arr, b) == tmp
  {
    hide Cut, Off;
    OffEnd(J, arr, b);
    CutLength(arr, J.r, b, b + J.width);
    CutLength(J.after, J.r, b, b + J.width);
    var p := J.Part(arr, b);
    forall i | 0 <= i < |tmp| ensures p[i] == tmp[i] {
    }
  }

  // ----- data: barriers, clearing, phase changes

  lemma WorkStepData(c: Config, s: State, t: nat, s': State)
    requires c.Valid() && Inv(c, s) && Step(c, s, t, s') && !BarrierStep(c, t, s.sh, s.threads[t], s'.sh, s'.threads[t])
    ensures Shape(c, s') && DataOk(c, s')
  {
    hide IsSort, Cut, Off, JobsOk, AfterRound, BarrierOk, MutexOk, CountsOk, Put, Pow2, LocalJob;
    var th, th' := s.threads[t], s'.threads[t];
    assert ThreadOk(c, s.sh.generation, t, th);
    assert s'.sh.generation == s.sh.generation;
    if SortStep(c, t, s.sh, th, s'.sh, th') {
      assert PhaseOf(s.sh.generation) == BlockPhase;
      assert SortMove(c, s, t, s');
      if th.pc.OwnTest? || th.pc.Scan? {
        SortClaims(c, s, t, s');
      } else if th.pc.Sorting? {
        if th.pc.writes > 0 {
          SortWrites(c, s, t, s');
        } else {
          SortReturns(c, s, t, s');
        }
      } else {
        SortLocks(c, s, t, s');
      }
    } else {
      RoundStepData(c, s, t, s');
    }
  }

  lemma RoundStepData(c: Config, s: State, t: nat, s': State)
    requires c.Valid() && Inv(c, s) && Step(c, s, t, s') && RoundStep(c, t, s.sh, s.threads[t], s'.sh, s'.threads[t])
    ensures Shape(c, s') && DataOk(c, s')
  {
    hide IsSort, Cut, Off, JobsOk, AfterRound, BarrierOk, MutexOk, CountsOk, Put, Pow2, LocalJob;
    var th, th' := s.threads[t], s'.threads[t];
    assert ThreadOk(c, s.sh.generation, t, th);
    if th.pc.LoopTest? {
    } else if th.pc.Clearing? {
      assert t == 0;
    } else {
      var k := RoundNo(th);
      assert PhaseOf(s.sh.generation) == MergePhase(k);
      assert MergeMove(c, k, s, t, s');
      if th.pc.PairScan? {
        PairClaims(c, k, s, t, s');
      } else if th.pc.Merging? {
        MergeSteps(c, k, s, t, s');
      } else if th.pc.Copying? {
        CopySteps(c, k, s, t, s');
      } else {
        PairLocks(c, k, s, t, s');
      }
    }
  }

  /** Arriving early or leaving late touches no job. */
  lemma BarrierStepData(c: Config, s: State, t: nat, s': State)
    requires c.Valid() && Inv(c, s) && Step(c, s, t, s') && BarrierStep(c, t, s.sh, s.threads[t], s'.sh, s'.threads[t])
    requires s'.sh.generation == s.sh.generation
    ensures Shape(c, s') && DataOk(c, s')
  {
    hide IsSort, Cut, Off, JobsOk, AfterRound, BarrierOk, MutexOk, CountsOk, Put, Pow2, AllClaimedBelow, Aligned;
    var sh, th, th' := s.sh, s.threads[t], s'.threads[t];
    assert ThreadOk(c, sh.generation, t, th);
    match PhaseOf(sh.generation)
    case BlockPhase =>
      JobLocal(SortJobs(c), sh.arr, sh.blockMap, sh.generation, s.threads, t);
      JobsQuiet(SortJobs(c), sh.arr, sh.blockMap, sh.generation, s.threads, t, th');
    case MergePhase(k) =>
      JobLocal(MergeJobs(c, k), sh.arr, sh.mergeMap, sh.generation, s.threads, t);
      JobsQuiet(MergeJobs(c, k), sh.arr, sh.mergeMap, sh.generation, s.threads, t, th');
    case _ =>
  }

  /** When the last thread arrives, every job of the phase is done and the next phase starts
      from the array of the sequential sort. */
  lemma PhaseChange(c: Config, s: State, t: nat, s': State)
    requires c.Valid() && Inv(c, s) && Step(c, s, t, s') && s'.sh.generation != s.sh.generation
    ensures Shape(c, s') && DataOk(c, s') && CountsOk(c, s'.sh)
  {
    hide IsSort, Cut, Off, JobsOk, AfterRound, Pow2, Aligned, Unclaimed, Moves, AllClaimedBelow;
    LastArrival(c, s, t, s');
    var sh, th := s.sh, s.threads[t];
    var g := sh.generation;
    assert ThreadOk(c, g, t, th);
    assert PhaseOf(g + 1) == After(PhaseOf(g));
    match PhaseOf(g)
    case Setup =>
      SortJobsValid(c);
      JobsBegin(SortJobs(c), sh.blockMap, g + 1, s'.threads);
      JobCount(sh.blockMap, c.rounds, 0);
      assert Pow2(0) == 1 by {
        PowZero();
      }
    case BlockPhase =>
      var J := SortJobs(c);
      PhaseDone(c, J, s, t, s', sh.blockMap);
    case RoundTop(k) =>
      assert ThreadOk(c, g, 0, s.threads[0]);
    case Clear(k) =>
      assert ThreadOk(c, g, 0, s.threads[0]);
      assert s'.threads[0].pc.Blocked?;
      MergeJobsValid(c, k);
      JobsBegin(MergeJobs(c, k), sh.mergeMap, g + 1, s'.threads);
      JobCount(sh.mergeMap, c.rounds, k + 1);
      PowStep(k);
      PowStep(c.rounds - k - 1);
    case MergePhase(k) =>
      var J := MergeJobs(c, k);
      PhaseDone(c, J, s, t, s', sh.mergeMap);
  }

  lemma PowZero()
    ensures Pow2(0) == 1
  {
  }

  lemma PowStep(k: nat)
    ensures Pow2(k + 1) == 2 * Pow2(k)
  {
  }

  /** All threads have left the claim loop: every job is claimed, and no one still holds one. */
  lemma PhaseDone(c: Config, J: Jobs, s: State, t: nat, s': State, map_: seq<bool>)
    requires JobsOk(J, s.sh.arr, map_, s.sh.generation, s.threads) && t < |s.threads| && |s'.threads| == |s.threads|
    requires s.threads[t].pc.Barrier?
    requires forall u :: 0 <= u < |s.threads| && u != t ==> s.threads[u].pc.Blocked?
    ensures s.sh.arr == J.after && Unclaimed(map_, 0, J.width) == 0
  {
    hide Cut, Off, Aligned, JobsOk, Unclaimed, AllClaimedBelow;
    JobLocal(J, s.sh.arr, map_, s.sh.generation, s.threads, t);
    JobsEnd(J, s.sh.arr, map_, s.sh.generation, s.threads);
    AlignedZero(J.width);
    NothingUnclaimed(J, map_, 0);
  }

  lemma AlignedZero(step: nat)
    requires step > 0
    ensures Aligned(0, step)
  {
  }

  // ----- claim counts

  lemma CountsStep(c: Config, s: State, t: nat, s': State)
    requires c.Valid() && Inv(c, s) && Step(c, s, t, s') && s'.sh.generation == s.sh.generation
    ensures CountsOk(c, s'.sh)
  {
    hide IsSort, Cut, Off, JobsOk, AfterRound, BarrierOk, MutexOk, Put, Pow2, Aligned, Unclaimed, AllClaimedBelow;
    var sh, sh', th, th' := s.sh, s'.sh, s.threads[t], s'.threads[t];
    assert ThreadOk(c, sh.generation, t, th);
    if sh'.sorts != sh.sorts {
      var i := if th.pc.OwnTest? then t else th.pc.i;
      AlignedOne(i);
      UnclaimedAfterClaim(sh.blockMap, 0, 1, i);
    } else if sh'.merges != sh.merges {
      var k := RoundNo(th);
      JobLocal(MergeJobs(c, k), sh.arr, sh.mergeMap, sh.generation, s.threads, t);
      UnclaimedAfterClaim(sh.mergeMap, 0, 2 * Pow2(k), th.pc.i);
    }
  }

  /** The invariant is inductive. */
  lemma InvStep(c: Config, s: State, t: nat, s': State)
    requires c.Valid() && Inv(c, s) && Step(c, s, t, s')
    ensures Inv(c, s')
  {
    hide Moves, ThreadsOk, MutexOk, BarrierOk, DataOk, CountsOk, BarrierStep;
    ThreadsOkStep(c, s, t, s');
    MutexOkStep(c, s, t, s');
    BarrierOkStep(c, s, t, s');
    if s'.sh.generation != s.sh.generation {
      PhaseChange(c, s, t, s');
    } else {
      CountsStep(c, s, t, s');
      if BarrierStep(c, t, s.sh, s.threads[t], s'.sh, s'.threads[t]) {
        BarrierStepData(c, s, t, s');
      } else {
        WorkStepData(c, s, t, s');
      }
    }
  }

  /** Every state of every run satisfies the invariant, whatever the schedule. */
  lemma {:induction false} InvRun(c: Config, run: seq<State>, i: nat)
    requires c.Valid() && Run(c, run) && i < |run|
    ensures Inv(c, run[i])
  {
    if i == 0 {
      InvInit(c, run[0]);
    } else {
      InvRun(c, run, i - 1);
      assert Next(c, run[i - 1], run[i - 1 + 1]);
      var t: nat :| Step(c, run[i - 1], t, run[i]);
      InvStep(c, run[i - 1], t, run[i]);
    }
  }
}
