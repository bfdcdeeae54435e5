/** The worker threads of sort_index.c as a small-step system.

    One step is one thread doing one thing between two points where another thread may
    run: arriving at or leaving the barrier, taking or releasing the map mutex, looking at
    one map entry, clearing one map byte, writing one record of its slice. qsort is a fixed
    function of the slice that may scribble over the slice any finite number of times
    before the result is in place. */
module SortWorkers {
  import opened IndexRecords
  import opened BottomUp

  /** The five pthread_barrier_wait calls, in program order. */
  datatype Site = AtStart | AtSorted | AtRound | AtCleared | AtMerged

  datatype Pc =
    | Barrier(site: Site)                  // about to call pthread_barrier_wait
    | Blocked(site: Site, ticket: nat)     // inside it, having arrived in generation `ticket`
    | OwnLock                              // lock, then look at the block numbered like the thread
    | OwnTest
    | OwnUnlock(mine: bool)
    | ScanLock                             // lock, then look for any unsorted block
    | Scan(i: nat)
    | ScanUnlock(found: int)
    | Sorting(block: nat, slice: seq<Record>, writes: nat)  // inside qsort
    | LoopTest                             // while (step < blocks)
    | Clearing(m: nat)                     // thread 0: memset of merge_map
    | PairLock                             // lock, then look for an unmerged pair
    | PairScan(i: nat)
    | PairUnlock(found: int)
    | Merging(block: nat, tmp: seq<Record>, i: nat, j: nat) // inside merge
    | Copying(block: nat, tmp: seq<Record>, k: nat)         // inside memcpy
    | Returned

  datatype Thread = Thread(pc: Pc, step: nat, stepNum: nat)

  /** Everything the threads share; `sorts` and `merges` count claims. */
  datatype Shared = Shared(
    arr: seq<Record>, blockMap: seq<bool>, mergeMap: seq<bool>,
    owner: int, arrived: nat, generation: nat, sorts: nat, merges: nat)

  datatype State = State(sh: Shared, threads: seq<Thread>)

  const FREE := -1

  datatype Config = Config(
    input: seq<Record>, rounds: nat, blocks: nat, threads: nat, qs: seq<Record> -> seq<Record>)
  {
    /** What main has checked before it starts the threads. */
    ghost predicate Valid() {
      threads >= 1 && blocks == Pow2(rounds) && blocks >= 4 * threads && IsSort(qs)
    }

    function Per(): (r: nat) {
      if blocks == 0 then 0 else PerBlock(|input|, blocks)
    }
  }

  function AllFalse(n: nat): (m: seq<bool>) {
    seq(n, _ => false)
  }

  ghost predicate Init(c: Config, s: State) {
    && s.sh == Shared(c.input, AllFalse(c.blocks), AllFalse(c.blocks), FREE, 0, 0, 0, 0)
    && |s.threads| == c.threads
    && forall t :: 0 <= t < |s.threads| ==> s.threads[t] == Thread(Barrier(AtStart), 1, 1)
  }

  /** Where a thread goes on after leaving the barrier. */
  function Resume(t: nat, th: Thread, site: Site): (r: Thread) {
    match site
    case AtStart => th.(pc := OwnLock)
    case AtSorted => Thread(LoopTest, 1, 1)
    case AtRound => th.(pc := if t == 0 then Clearing(0) else Barrier(AtCleared))
    case AtCleared => th.(pc := PairLock)
    case AtMerged => Thread(LoopTest, 2 * th.step, th.stepNum + 1)
  }

  ghost predicate BarrierStep(c: Config, t: nat, sh: Shared, th: Thread, sh': Shared, th': Thread) {
    match th.pc
    case Barrier(site) =>
      && th' == th.(pc := Blocked(site, sh.generation))
      && sh' == if sh.arrived + 1 == c.threads
                then sh.(arrived := 0, generation := sh.generation + 1)
                else sh.(arrived := sh.arrived + 1)
    case Blocked(site, ticket) =>
      ticket < sh.generation && sh' == sh && th' == Resume(t, th, site)
    case _ => false
  }

  /** Claiming and sorting blocks. */
  ghost predicate SortStep(c: Config, t: nat, sh: Shared, th: Thread, sh': Shared, th': Thread) {
    match th.pc
    case OwnLock => sh.owner == FREE && sh' == sh.(owner := t) && th' == th.(pc := OwnTest)
    case OwnTest =>
      if t < |sh.blockMap| && !sh.blockMap[t] then
        && sh' == sh.(blockMap := sh.blockMap[t := true], sorts := sh.sorts + 1)
        && th' == th.(pc := OwnUnlock(true))
      else
        sh' == sh && th' == th.(pc := OwnUnlock(false))
    case OwnUnlock(mine) =>
      && sh' == sh.(owner := FREE)
      && if mine then BeginsSort(c, sh, th, t, th') else th' == th.(pc := ScanLock)
    case ScanLock => sh.owner == FREE && sh' == sh.(owner := t) && th' == th.(pc := Scan(0))
    case Scan(i) =>
      if i >= |sh.blockMap| then sh' == sh && th' == th.(pc := ScanUnlock(-1))
      else if sh.blockMap[i] then sh' == sh && th' == th.(pc := Scan(i + 1))
      else
        && sh' == sh.(blockMap := sh.blockMap[i := true], sorts := sh.sorts + 1)
        && th' == th.(pc := ScanUnlock(i))
    case ScanUnlock(found) =>
      && sh' == sh.(owner := FREE)
      && if found >= 0 then BeginsSort(c, sh, th, found, th') else th' == th.(pc := Barrier(AtSorted))
    case Sorting(b, slice, writes) =>
      if writes > 0 then
        && th' == th.(pc := Sorting(b, slice, writes - 1))
        && exists junk: seq<Record> | |junk| == |slice| :: sh' == sh.(arr := Put(sh.arr, Off(c.Per(), b), junk))
      else
        && th' == th.(pc := ScanLock)
        && sh' == sh.(arr := Put(sh.arr, Off(c.Per(), b), c.qs(slice)))
    case _ => false
  }

  ghost predicate BeginsSort(c: Config, sh: Shared, th: Thread, b: nat, th': Thread) {
    && th'.pc.Sorting?
    && th' == th.(pc := Sorting(b, Cut(sh.arr, c.Per(), b, b + 1), th'.pc.writes))
  }

  /** The round loop: its test, the clearing of merge_map, claiming and merging pairs. */
  ghost predicate RoundStep(c: Config, t: nat, sh: Shared, th: Thread, sh': Shared, th': Thread) {
    match th.pc
    case LoopTest =>
      sh' == sh && th' == th.(pc := if th.step < c.blocks then Barrier(AtRound) else Returned)
    case Clearing(m) =>
      if m < |sh.mergeMap| then
        sh' == sh.(mergeMap := sh.mergeMap[m := false]) && th' == th.(pc := Clearing(m + 1))
      else
        sh' == sh && th' == th.(pc := Barrier(AtCleared))
    case PairLock => sh.owner == FREE && sh' == sh.(owner := t) && th' == th.(pc := PairScan(0))
    case PairScan(i) =>
      if i + th.step >= |sh.mergeMap| then sh' == sh && th' == th.(pc := PairUnlock(-1))
      else if sh.mergeMap[i] then sh' == sh && th' == th.(pc := PairScan(i + 2 * th.step))
      else
        && sh' == sh.(mergeMap := sh.mergeMap[i := true], merges := sh.merges + 1)
        && th' == th.(pc := PairUnlock(i))
    case PairUnlock(found) =>
      && sh' == sh.(owner := FREE)
      && th' == th.(pc := if found < 0 then Barrier(AtMerged)
                          else if LeftRun(c, sh, th, found) != [] && RightRun(c, sh, th, found) != []
                          then Merging(found, [], 0, 0) else PairLock)
    case Merging(b, tmp, i, j) =>
      var x, y := LeftRun(c, sh, th, b), RightRun(c, sh, th, b);
      && sh' == sh
      && th' == th.(pc := if i < |x| && (j >= |y| || x[i].timeMark < y[j].timeMark)
                          then Merging(b, tmp + [x[i]], i + 1, j)
                          else if j < |y| then Merging(b, tmp + [y[j]], i, j + 1)
                          else Copying(b, tmp, 0))
    case Copying(b, tmp, k) =>
      if k < |tmp| then
        && sh' == sh.(arr := Put(sh.arr, Off(c.Per(), b) + k, [tmp[k]]))
        && th' == th.(pc := Copying(b, tmp, k + 1))
      else
        sh' == sh && th' == th.(pc := PairLock)
    case _ => false
  }

  function LeftRun(c: Config, sh: Shared, th: Thread, b: nat): (x: seq<Record>) {
    Cut(sh.arr, c.Per(), b, b + th.step)
  }

  function RightRun(c: Config, sh: Shared, th: Thread, b: nat): (y: seq<Record>) {
    Cut(sh.arr, c.Per(), b + th.step, b + 2 * th.step)
  }

  ghost predicate Moves(c: Config, t: nat, sh: Shared, th: Thread, sh': Shared, th': Thread) {
    || BarrierStep(c, t, sh, th, sh', th')
    || SortStep(c, t, sh, th, sh', th')
    || RoundStep(c, t, sh, th, sh', th')
  }

  /** Thread t takes one step; nothing but the shared memory and thread t changes. */
  ghost predicate Step(c: Config, s: State, t: nat, s': State) {
    && t < |s.threads| && |s'.threads| == |s.threads|
    && s'.threads == s.threads[t := s'.threads[t]]
    && Moves(c, t, s.sh, s.threads[t], s'.sh, s'.threads[t])
  }

  ghost predicate Next(c: Config, s: State, s': State) {
    exists t: nat :: Step(c, s, t, s')
  }

  /** Every worker has returned. */
  ghost predicate Finished(s: State) {
    forall t :: 0 <= t < |s.threads| ==> s.threads[t].pc == Returned
  }

  /** A run from the initial state under an arbitrary schedule. */
  ghost predicate Run(c: Config, run: seq<State>) {
    && run != [] && Init(c, run[0])
    && forall i :: 0 <= i < |run| - 1 ==> Next(c, run[i], run[i + 1])
  }
}
