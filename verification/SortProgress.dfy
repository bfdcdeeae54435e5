/** No schedule of the workers deadlocks or runs for ever. */
module SortProgress {
  import opened IndexRecords
  import opened BottomUp
  import opened SortWorkers
  import opened SliceJobs
  import opened SortSafety
  import opened SortPreservation

  // ----- every unfinished state has an enabled step

  /** The thread waits for something another thread has to do. */
  predicate Stuck(sh: Shared, th: Thread) {
    match th.pc
    case Blocked(_, ticket) => ticket >= sh.generation
    case OwnLock => sh.owner != FREE
    case ScanLock => sh.owner != FREE
    case PairLock => sh.owner != FREE
    case Returned => true
    case _ => false
  }

  lemma SortCodeMoves(c: Config, t: nat, sh: Shared, th: Thread) returns (sh': Shared, th': Thread)
    requires !Stuck(sh, th) && ThreadPhase(th) == BlockPhase && !th.pc.Barrier? && !th.pc.Blocked?
    ensures SortStep(c, t, sh, th, sh', th')
  {
    hide Cut, Off, Put;
    sh', th' := sh, th;
    match th.pc
    case OwnLock => sh', th' := sh.(owner := t), th.(pc := OwnTest);
    case OwnTest =>
      if t < |sh.blockMap| && !sh.blockMap[t] {
        sh', th' := sh.(blockMap := sh.blockMap[t := true], sorts := sh.sorts + 1), th.(pc := OwnUnlock(true));
      } else {
        th' := th.(pc := OwnUnlock(false));
      }
    case OwnUnlock(mine) =>
      sh' := sh.(owner := FREE);
      th' := th.(pc := if mine then Sorting(t, Cut(sh.arr, c.Per(), t, t + 1), 0) else ScanLock);
    case ScanLock => sh', th' := sh.(owner := t), th.(pc := Scan(0));
    case Scan(i) =>
      if i >= |sh.blockMap| {
        th' := th.(pc := ScanUnlock(-1));
      } else if sh.blockMap[i] {
        th' := th.(pc := Scan(i + 1));
      } else {
        sh', th' := sh.(blockMap := sh.blockMap[i := true], sorts := sh.sorts + 1), th.(pc := ScanUnlock(i));
      }
    case ScanUnlock(found) =>
      sh' := sh.(owner := FREE);
      th' := th.(pc := if found >= 0 then Sorting(found, Cut(sh.arr, c.Per(), found, found + 1), 0) else Barrier(AtSorted));
    case Sorting(b, slice, writes) =>
      if writes > 0 {
        sh', th' := sh.(arr := Put(sh.arr, Off(c.Per(), b), slice)), th.(pc := Sorting(b, slice, writes - 1));
      } else {
        sh', th' := sh.(arr := Put(sh.arr, Off(c.Per(), b), c.qs(slice))), th.(pc := ScanLock);
      }
    case _ =>
  }

  lemma RoundCodeMoves(c: Config, t: nat, sh: Shared, th: Thread) returns (sh': Shared, th': Thread)
    requires !Stuck(sh, th) && ThreadPhase(th) != BlockPhase && !th.pc.Barrier? && !th.pc.Blocked?
    ensures RoundStep(c, t, sh, th, sh', th')
  {
    hide Cut, Off, Put;
    sh', th' := sh, th;
    match th.pc
    case LoopTest => th' := th.(pc := if th.step < c.blocks then Barrier(AtRound) else Returned);
    case Clearing(m) =>
      if m < |sh.mergeMap| {
        sh', th' := sh.(mergeMap := sh.mergeMap[m := false]), th.(pc := Clearing(m + 1));
      } else {
        th' := th.(pc := Barrier(AtCleared));
      }
    case PairLock => sh', th' := sh.(owner := t), th.(pc := PairScan(0));
    case PairScan(i) =>
      if i + th.step >= |sh.mergeMap| {
        th' := th.(pc := PairUnlock(-1));
      } else if sh.mergeMap[i] {
        th' := th.(pc := PairScan(i + 2 * th.step));
      } else {
        sh', th' := sh.(mergeMap := sh.mergeMap[i := true], merges := sh.merges + 1), th.(pc := PairUnlock(i));
      }
    case PairUnlock(found) =>
      sh' := sh.(owner := FREE);
      th' := th.(pc := if found < 0 then Barrier(AtMerged)
                       else if LeftRun(c, sh, th, found) != [] && RightRun(c, sh, th, found) != []
                       then Merging(found, [], 0, 0) else PairLock);
    case Merging(b, tmp, i, j) =>
      var x, y := LeftRun(c, sh, th, b), RightRun(c, sh, th, b);
      th' := th.(pc := if i < |x| && (j >= |y| || x[i].timeMark < y[j].timeMark)
                       then Merging(b, tmp + [x[i]], i + 1, j)
                       else if j < |y| then Merging(b, tmp + [y[j]], i, j + 1)
                       else Copying(b, tmp, 0));
    case Copying(b, tmp, k) =>
      if k < |tmp| {
        sh' := sh.(arr := Put(sh.arr, Off(c.Per(), b) + k, [tmp[k]]));
        th' := th.(pc := Copying(b, tmp, k + 1));
      } else {
        th' := th.(pc := PairLock);
      }
    case _ =>
  }

  lemma UnstuckMoves(c: Config, s: State, t: nat) returns (s': State)
    requires t < |s.threads| && !Stuck(s.sh, s.threads[t])
    ensures Step(c, s, t, s')
  {
    var sh, th := s.sh, s.threads[t];
    var sh', th' := sh, th;
    if th.pc.Barrier? {
      th' := th.(pc := Blocked(th.pc.site, sh.generation));
      sh' := if sh.arrived + 1 == c.threads then sh.(arrived := 0, generation := sh.generation + 1)
             else sh.(arrived := sh.arrived + 1);
    } else if th.pc.Blocked? {
      th' := Resume(t, th, th.pc.site);
    } else if ThreadPhase(th) == BlockPhase {
      hide SortStep;
      sh', th' := SortCodeMoves(c, t, sh, th);
    } else {
      hide RoundStep;
      sh', th' := RoundCodeMoves(c, t, sh, th);
    }
    s' := State(sh', s.threads[t := th']);
  }

  /** If every thread is stuck and the mutex is free, then all of them have returned. */
  lemma AllStuckIsFinished(c: Config, s: State)
    requires c.Valid() && Inv(c, s) && s.sh.owner == FREE
    requires forall t :: 0 <= t < |s.threads| ==> Stuck(s.sh, s.threads[t])
    ensures Finished(s)
  {
    hide DataOk, CountsOk, MutexOk;
    var g := s.sh.generation;
    AllWait(s.threads, g);
    forall t | 0 <= t < |s.threads| ensures ThreadOk(c, g, t, s.threads[t]) && (s.threads[t].pc == Returned || s.threads[t].pc.Blocked?) {
    }
    var r :| 0 <= r < |s.threads| && !(s.threads[r].pc.Blocked? && s.threads[r].pc.ticket == g);
    assert s.threads[r].pc == Returned && PhaseOf(g) == RoundTop(c.rounds);
  }

  /** Deadlock freedom: as long as some worker has not returned, some worker can move. */
  lemma NoDeadlock(c: Config, s: State)
    requires c.Valid() && Inv(c, s) && !Finished(s)
    ensures exists s' :: Next(c, s, s')
  {
    hide DataOk, CountsOk, Step;
    if s.sh.owner != FREE {
      var t := s.sh.owner;
      assert Holds(s.threads[t].pc);
      var s' := UnstuckMoves(c, s, t);
      assert Next(c, s, s');
    } else if t: nat :| t < |s.threads| && !Stuck(s.sh, s.threads[t]) {
      var s' := UnstuckMoves(c, s, t);
      assert Next(c, s, s');
    } else {
      AllStuckIsFinished(c, s);
    }
  }

  // ----- every step makes progress

  function ClaimsLeft(c: Config, sh: Shared): (n: nat) {
    if sh.sorts + sh.merges <= 2 * c.blocks then 2 * c.blocks - sh.sorts - sh.merges else 0
  }

  function CrossingsLeft(c: Config, sh: Shared): (n: nat) {
    if sh.generation <= 2 + 3 * c.rounds then 2 + 3 * c.rounds - sh.generation else 0
  }

  /** Barrier crossings left, then claims left or not yet begun, then moves left. */
  datatype Measure = Measure(crossings: nat, claims: nat, moves: nat)

  function Remaining(c: Config, s: State): (m: Measure) {
    Measure(CrossingsLeft(c, s.sh),
            2 * ClaimsLeft(c, s.sh) + Tally(s.threads, Starting),
            Tally(s.threads, Effort(c.blocks, |c.input|, s.sh.generation)))
  }

  predicate Below(m: Measure, l: Measure) {
    || m.crossings < l.crossings
    || (m.crossings == l.crossings && m.claims < l.claims)
    || (m.crossings == l.crossings && m.claims == l.claims && m.moves < l.moves)
  }

  lemma CountBounds(c: Config, s: State)
    requires c.Valid() && Inv(c, s)
    ensures s.sh.sorts <= c.blocks && s.sh.merges < c.blocks && s.sh.generation <= 2 + 3 * c.rounds
  {
    hide Unclaimed, DataOk, ThreadsOk, MutexOk, BarrierOk;
    CrossingsOfPhase(s.sh.generation);
  }

  /** A merging thread never holds more records than there are. */
  lemma MergingBound(c: Config, s: State, t: nat)
    requires c.Valid() && Inv(c, s) && t < |s.threads| && s.threads[t].pc.Merging?
    ensures var th := s.threads[t];
            var x, y := LeftRun(c, s.sh, th, th.pc.block), RightRun(c, s.sh, th, th.pc.block);
            |th.pc.tmp| + (|x| - th.pc.i) + (|y| - th.pc.j) <= |c.input|
  {
    hide Cut, Off, Merge, JobsOk, CountsOk, MutexOk, BarrierOk, AllClaimedBelow, AfterRound, Pow2;
    var th := s.threads[t];
    assert ThreadOk(c, s.sh.generation, t, th);
    var k := RoundNo(th);
    var J := MergeJobs(c, k);
    JobLocal(J, s.sh.arr, s.sh.mergeMap, s.sh.generation, s.threads, t);
    PartBound(J, th.pc.block);
  }

  lemma PartBound(J: Jobs, b: nat)
    ensures |J.Part(J.after, b)| <= |J.after|
  {
  }

  lemma SortEffort(c: Config, t: nat, sh: Shared, th: Thread, sh': Shared, th': Thread)
    requires SortStep(c, t, sh, th, sh', th') && |sh.blockMap| == c.blocks
    ensures Lighter(c, sh, th, sh', th')
  {
    hide Cut, Off, Put;
  }

  lemma RoundEffort(c: Config, t: nat, sh: Shared, th: Thread, sh': Shared, th': Thread)
    requires RoundStep(c, t, sh, th, sh', th') && |sh.mergeMap| == c.blocks && th.step > 0
    requires th.pc.Merging? ==>
               var x, y := LeftRun(c, sh, th, th.pc.block), RightRun(c, sh, th, th.pc.block);
               th.pc.i <= |x| && th.pc.j <= |y| && |th.pc.tmp| + (|x| - th.pc.i) + (|y| - th.pc.j) <= |c.input|
    ensures Lighter(c, sh, th, sh', th')
  {
    hide Cut, Off, Put;
  }

  /** The step makes a claim, begins the claimed work, or is one of finitely many moves between. */
  ghost predicate Lighter(c: Config, sh: Shared, th: Thread, sh': Shared, th': Thread) {
    var e := Effort(c.blocks, |c.input|, sh.generation);
    && sh'.generation == sh.generation
    && (|| (sh'.sorts + sh'.merges == sh.sorts + sh.merges + 1 && Weigh(Starting, th') <= Weigh(Starting, th) + 1)
        || (sh'.sorts + sh'.merges == sh.sorts + sh.merges && Weigh(Starting, th') < Weigh(Starting, th))
        || (sh'.sorts + sh'.merges == sh.sorts + sh.merges && Weigh(Starting, th') == Weigh(Starting, th)
            && Weigh(e, th') < Weigh(e, th)))
  }

  lemma StepIsLighter(c: Config, s: State, t: nat, s': State)
    requires c.Valid() && Inv(c, s) && Step(c, s, t, s') && s'.sh.generation == s.sh.generation
    ensures Lighter(c, s.sh, s.threads[t], s'.sh, s'.threads[t])
  {
    hide Cut, Off, Put, DataOk, CountsOk, MutexOk, BarrierOk, SortStep, RoundStep, PhaseOf, Pow2;
    var sh, th, sh', th' := s.sh, s.threads[t], s'.sh, s'.threads[t];
    assert ThreadOk(c, sh.generation, t, th);
    if BarrierStep(c, t, sh, th, sh', th') {
    } else if SortStep(c, t, sh, th, sh', th') {
      SortEffort(c, t, sh, th, sh', th');
    } else {
      if th.pc.Merging? {
        MergingBound(c, s, t);
        MergingIndices(c, s, t);
      }
      RoundEffort(c, t, sh, th, sh', th');
    }
  }

  lemma MergingIndices(c: Config, s: State, t: nat)
    requires c.Valid() && Inv(c, s) && t < |s.threads| && s.threads[t].pc.Merging?
    ensures var th := s.threads[t];
            && th.pc.i <= |LeftRun(c, s.sh, th, th.pc.block)|
            && th.pc.j <= |RightRun(c, s.sh, th, th.pc.block)|
  {
    hide Cut, Off, Merge, JobsOk, CountsOk, MutexOk, BarrierOk, AllClaimedBelow, AfterRound, Pow2;
    var th := s.threads[t];
    assert ThreadOk(c, s.sh.generation, t, th);
    JobLocal(MergeJobs(c, RoundNo(th)), s.sh.arr, s.sh.mergeMap, s.sh.generation, s.threads, t);
  }

  /** Termination: the lexicographic measure falls on every step of every thread. */
  lemma StepDecreases(c: Config, s: State, t: nat, s': State)
    requires c.Valid() && Inv(c, s) && Step(c, s, t, s')
    ensures Below(Remaining(c, s'), Remaining(c, s))
  {
    InvStep(c, s, t, s');
    CountBounds(c, s);
    CountBounds(c, s');
    if s'.sh.generation != s.sh.generation {
      LastArrival(c, s, t, s');
    } else {
      StepIsLighter(c, s, t, s');
      hide Inv, Moves, Weigh;
      TallyUpdate(s.threads, Starting, t, s'.threads[t]);
      TallyUpdate(s.threads, Effort(c.blocks, |c.input|, s.sh.generation), t, s'.threads[t]);
    }
  }

  /** An endless schedule that moves some worker whenever one has not returned. */
  ghost predicate Schedule(c: Config, run: nat -> State) {
    Init(c, run(0)) && forall i: nat :: Next(c, run(i), run(i + 1)) || (Finished(run(i)) && run(i + 1) == run(i))
  }

  lemma {:induction false} ScheduleInv(c: Config, run: nat -> State, i: nat)
    requires c.Valid() && Schedule(c, run)
    ensures Inv(c, run(i))
  {
    hide Inv, Step, Init, Finished;
    if i == 0 {
      InvInit(c, run(0));
    } else {
      ScheduleInv(c, run, i - 1);
      assert Next(c, run(i - 1), run(i - 1 + 1)) || run(i) == run(i - 1);
      if Next(c, run(i - 1), run(i)) {
        var t: nat :| Step(c, run(i - 1), t, run(i));
        InvStep(c, run(i - 1), t, run(i));
      }
    }
  }

  lemma {:induction false} FinishesFrom(c: Config, run: nat -> State, i: nat) returns (n: nat)
    requires c.Valid() && Schedule(c, run)
    ensures n >= i && Finished(run(n))
    decreases Remaining(c, run(i)).crossings, Remaining(c, run(i)).claims, Remaining(c, run(i)).moves
  {
    hide Inv, Step, Init, Finished, Remaining;
    if Finished(run(i)) {
      n := i;
    } else {
      ScheduleInv(c, run, i);
      assert Next(c, run(i), run(i + 1));
      var t: nat :| Step(c, run(i), t, run(i + 1));
      StepDecreases(c, run(i), t, run(i + 1));
      n := FinishesFrom(c, run, i + 1);
    }
  }

  /** Every schedule, fair or not, brings every worker to its return. */
  lemma EveryScheduleFinishes(c: Config, run: nat -> State)
    requires c.Valid() && Schedule(c, run)
    ensures exists n: nat :: Finished(run(n))
  {
    var n := FinishesFrom(c, run, 0);
  }

  lemma ExtendRun(c: Config, run: seq<State>, s': State)
    requires Run(c, run) && Next(c, run[|run| - 1], s')
    ensures Run(c, run + [s'])
  {
    hide Step, Init;
    var longer := run + [s'];
    forall i | 0 <= i < |longer| - 1 ensures Next(c, longer[i], longer[i + 1]) {
      if i < |run| - 1 {
        assert Next(c, run[i], run[i + 1]);
      }
    }
  }

  lemma {:induction false} FinishRun(c: Config, run: seq<State>) returns (full: seq<State>)
    requires c.Valid() && Run(c, run)
    ensures Run(c, full) && run <= full && Finished(full[|full| - 1])
    decreases Remaining(c, run[|run| - 1]).crossings, Remaining(c, run[|run| - 1]).claims, Remaining(c, run[|run| - 1]).moves
  {
    hide Inv, Step, Init, Finished, Remaining;
    var s := run[|run| - 1];
    InvRun(c, run, |run| - 1);
    if Finished(s) {
      full := run;
    } else {
      NoDeadlock(c, s);
      var s' :| Next(c, s, s');
      var t: nat :| Step(c, s, t, s');
      StepDecreases(c, s, t, s');
      ExtendRun(c, run, s');
      full := FinishRun(c, run + [s']);
    }
  }

  /** Every valid configuration has a run in which all workers return. */
  lemma SomeRunFinishes(c: Config) returns (run: seq<State>)
    requires c.Valid()
    ensures Run(c, run) && Finished(run[|run| - 1])
  {
    var s := State(Shared(c.input, AllFalse(c.blocks), AllFalse(c.blocks), FREE, 0, 0, 0, 0),
                   seq(c.threads, _ => Thread(Barrier(AtStart), 1, 1)));
    run := FinishRun(c, [s]);
  }
}
