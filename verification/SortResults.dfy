/** What the parallel sort delivers, for any number of threads and any schedule. */
module SortResults {
  import opened IndexRecords
  import opened BottomUp
  import opened SortWorkers
  import opened SliceJobs
  import opened SortSafety
  import opened SortPreservation

  // ----- the outcome of a finished run

  lemma FinishedState(c: Config, s: State)
    requires c.Valid() && Inv(c, s) && Finished(s)
    ensures s.sh.arr == AfterRound(c.qs, c.input, c.blocks, c.rounds)
    ensures s.sh.generation == 2 + 3 * c.rounds
    ensures s.sh.sorts == c.blocks && s.sh.merges == c.blocks - 1
  {
    hide MutexOk, BarrierOk, AfterRound;
    assert ThreadOk(c, s.sh.generation, 0, s.threads[0]);
    CrossingsOfPhase(s.sh.generation);
  }

  /** s is the last state of a run, with every worker returned. */
  ghost predicate Completes(c: Config, run: seq<State>, s: State) {
    Run(c, run) && s == run[|run| - 1] && Finished(s)
  }

  /** a holds the records of input, its first p sorted and the others where they were. */
  ghost predicate PrefixSorted(a: seq<Record>, input: seq<Record>, p: nat) {
    p <= |a| == |input| && Permutation(a, input) && Sorted(a[..p]) && a[p..] == input[p..]
  }

  /** When all workers have returned, the array is a permutation of the input, its first
      blocks * (records / blocks) records are sorted and the rest is untouched; each thread
      has crossed 2 + 3*log2(blocks) barriers; every block was sorted once and exactly
      blocks - 1 pairs were merged. */
  lemma WorkersSort(c: Config, run: seq<State>, s: State)
    requires c.Valid() && Completes(c, run, s)
    ensures PrefixSorted(s.sh.arr, c.input, Covered(|c.input|, c.blocks))
    ensures s.sh.arr == AfterRound(c.qs, c.input, c.blocks, c.rounds)
    ensures s.sh.generation == 2 + 3 * c.rounds && s.sh.sorts == c.blocks && s.sh.merges + 1 == c.blocks
  {
    InvRun(c, run, |run| - 1);
    hide Inv, Run, Finished, Permutation, Sorted, IsSort, AfterRound;
    FinishedState(c, s);
    BottomUpSorts(c.qs, c.input, c.blocks, c.rounds);
  }

  /** If the blocks divide the records evenly, everything is sorted. */
  lemma WorkersSortEverything(c: Config, run: seq<State>, s: State)
    requires c.Valid() && Completes(c, run, s) && |c.input| % c.blocks == 0
    ensures Sorted(s.sh.arr) && Permutation(s.sh.arr, c.input)
  {
    hide Completes, Permutation, Sorted, IsSort;
    WorkersSort(c, run, s);
    assert s.sh.arr[..|c.input|] == s.sh.arr;
  }

  // ----- schedule independence

  /** Between rounds the array is the one the sequential sort has at that point. */
  lemma BarrierSnapshot(c: Config, run: seq<State>, i: nat, k: nat)
    requires c.Valid() && Run(c, run) && i < |run|
    requires PhaseOf(run[i].sh.generation) == RoundTop(k) || PhaseOf(run[i].sh.generation) == Clear(k)
    ensures run[i].sh.arr == AfterRound(c.qs, c.input, c.blocks, k)
  {
    InvRun(c, run, i);
  }

  /** Same input, same blocks, same qsort: two runs with any numbers of threads and any
      schedules agree on the array whenever both are at the same point between rounds,
      and at the end. */
  lemma ScheduleIndependent(c: Config, run: seq<State>, i: nat, d: Config, other: seq<State>, j: nat)
    requires c.Valid() && d.Valid() && d == c.(threads := d.threads)
    requires Run(c, run) && Run(d, other) && i < |run| && j < |other|
    requires run[i].sh.generation == other[j].sh.generation
    requires !PhaseOf(run[i].sh.generation).BlockPhase? && !PhaseOf(run[i].sh.generation).MergePhase?
    ensures run[i].sh.arr == other[j].sh.arr
  {
    InvRun(c, run, i);
    InvRun(d, other, j);
  }

  // ----- ownership

  /** How many blocks a claim covers. */
  function Width(th: Thread): (w: nat) {
    if ThreadPhase(th).MergePhase? then 2 * th.step else 1
  }

  lemma JobEnds(J: Jobs, arr: seq<Record>, map_: seq<bool>, gen: nat, ts: seq<Thread>, t: nat)
    requires JobsOk(J, arr, map_, gen, ts) && t < |ts| && Claim(t, ts[t]) >= 0
    ensures Off(J.r, Claim(t, ts[t]) + J.width) <= |arr|
  {
    JobLocal(J, arr, map_, gen, ts, t);
    OffEnd(J, arr, Claim(t, ts[t]));
  }

  lemma JobsDisjoint(J: Jobs, arr: seq<Record>, map_: seq<bool>, gen: nat, ts: seq<Thread>, t: nat, u: nat)
    requires JobsOk(J, arr, map_, gen, ts) && t < |ts| && u < |ts| && t != u
    requires Claim(t, ts[t]) >= 0 && Claim(u, ts[u]) >= 0
    ensures Claim(t, ts[t]) + J.width <= Claim(u, ts[u]) || Claim(u, ts[u]) + J.width <= Claim(t, ts[t])
  {
    JobLocal(J, arr, map_, gen, ts, t);
    JobLocal(J, arr, map_, gen, ts, u);
    var b, d := Claim(t, ts[t]), Claim(u, ts[u]);
    assert b != d;
    hide Off, Cut, LocalJob;
    if b < d {
      AlignedGap(b, d, J.width);
    } else {
      AlignedGap(d, b, J.width);
    }
  }

  /** The jobs of the phase that two working threads are both in. */
  lemma SharedPhase(c: Config, s: State, t: nat, u: nat) returns (J: Jobs, map_: seq<bool>)
    requires c.Valid() && Inv(c, s) && t < c.threads && u < c.threads
    requires Claim(t, s.threads[t]) >= 0 && Claim(u, s.threads[u]) >= 0
    ensures JobsOk(J, s.sh.arr, map_, s.sh.generation, s.threads)
    ensures J.r == c.Per() && Width(s.threads[t]) == J.width && Width(s.threads[u]) == J.width
  {
    var g, th, uh := s.sh.generation, s.threads[t], s.threads[u];
    assert ThreadOk(c, g, t, th) && ThreadOk(c, g, u, uh);
    hide JobsOk, CountsOk, MutexOk, BarrierOk, AfterRound, Off, Pow2, IsSort;
    J, map_ := SortJobs(c), s.sh.blockMap;
    if PhaseOf(g).MergePhase? {
      J, map_ := MergeJobs(c, PhaseOf(g).k), s.sh.mergeMap;
    }
  }

  /** What a thread has claimed ends inside the array, so no size clamp ever fires. */
  lemma NoClamp(c: Config, run: seq<State>, i: nat, t: nat)
    requires c.Valid() && Run(c, run) && i < |run| && t < c.threads
    requires |run[i].threads| == c.threads && Claim(t, run[i].threads[t]) >= 0
    ensures (Claim(t, run[i].threads[t]) + Width(run[i].threads[t])) * c.Per() <= |c.input|
  {
    InvRun(c, run, i);
    var s := run[i];
    assert |s.sh.arr| == |c.input|;
    hide Inv, Run, Off, JobsOk, IsSort, Claim, Width;
    var J, map_ := SharedPhase(c, s, t, t);
    JobEnds(J, s.sh.arr, map_, s.sh.generation, s.threads, t);
    OffIsProduct(J.r, Claim(t, s.threads[t]) + J.width);
  }

  /** In every reachable state the index ranges that two threads have claimed and not yet
      finished are disjoint. */
  lemma Ownership(c: Config, run: seq<State>, i: nat, t: nat, u: nat)
    requires c.Valid() && Run(c, run) && i < |run| && t < c.threads && u < c.threads && t != u
    requires |run[i].threads| == c.threads
    requires Claim(t, run[i].threads[t]) >= 0 && Claim(u, run[i].threads[u]) >= 0
    ensures var b, w := Claim(t, run[i].threads[t]), Width(run[i].threads[t]);
            var d, x := Claim(u, run[i].threads[u]), Width(run[i].threads[u]);
            (b + w) * c.Per() <= d * c.Per() || (d + x) * c.Per() <= b * c.Per()
  {
    InvRun(c, run, i);
    var s := run[i];
    hide Inv, Run, Off, JobsOk, IsSort, Claim, Width;
    var J, map_ := SharedPhase(c, s, t, u);
    JobsDisjoint(J, s.sh.arr, map_, s.sh.generation, s.threads, t, u);
    OrderedProducts(J.r, Claim(t, s.threads[t]), Claim(u, s.threads[u]), J.width);
  }

  lemma OrderedProducts(r: nat, b: int, d: int, w: nat)
    requires b + w <= d || d + w <= b
    ensures (b + w) * r <= d * r || (d + w) * r <= b * r
  {
    if b + w <= d {
      assert (b + w) * r <= d * r;
    } else {
      assert (d + w) * r <= b * r;
    }
  }

  /** While thread 0 clears merge_map without the mutex, no other thread is anywhere in the
      code that reads or writes merge_map. */
  lemma ClearingIsAlone(c: Config, run: seq<State>, i: nat, u: nat)
    requires c.Valid() && Run(c, run) && i < |run| && |run[i].threads| == c.threads && 0 < u < c.threads
    requires run[i].threads[0].pc.Clearing?
    ensures var pc := run[i].threads[u].pc;
            (pc.Blocked? && pc.site == AtRound) || pc == Barrier(AtCleared) || (pc.Blocked? && pc.site == AtCleared)
  {
    InvRun(c, run, i);
    var s := run[i];
    assert ThreadOk(c, s.sh.generation, 0, s.threads[0]);
    assert ThreadOk(c, s.sh.generation, u, s.threads[u]);
    hide DataOk, CountsOk, MutexOk, BarrierOk, Run;
    var pc := s.threads[u].pc;
    if pc.Blocked? {
      assert pc.ticket == s.sh.generation || PhaseOf(s.sh.generation) == After(PhaseOf(pc.ticket));
    }
  }

  // ----- barrier agreement

  /** All threads inside the body of the round loop are in the round that the barrier generation
      stands for and have its step, a power of two below the number of blocks; only a thread that
      has yet to return from the last barrier of the previous round is not there. */
  lemma BarrierAgreement(c: Config, run: seq<State>, i: nat, t: nat)
    requires c.Valid() && Run(c, run) && i < |run| && |run[i].threads| == c.threads && t < c.threads
    ensures var g, th := run[i].sh.generation, run[i].threads[t];
            InRound(th) && !(th.pc.Blocked? && th.pc.site == AtMerged && th.pc.ticket < g) ==>
              && (PhaseOf(g).RoundTop? || PhaseOf(g).Clear? || PhaseOf(g).MergePhase?)
              && th.step == Pow2(PhaseOf(g).k) < c.blocks
  {
    InvRun(c, run, i);
    var s := run[i];
    assert ThreadOk(c, s.sh.generation, t, s.threads[t]);
    hide Inv, Run;
    var g, th := s.sh.generation, s.threads[t];
    if InRound(th) && !(th.pc.Blocked? && th.pc.site == AtMerged && th.pc.ticket < g) {
      StepAgrees(c, g, t, th);
    }
  }

  lemma StepAgrees(c: Config, g: nat, t: nat, th: Thread)
    requires c.Valid() && ThreadOk(c, g, t, th) && InRound(th)
             && !(th.pc.Blocked? && th.pc.site == AtMerged && th.pc.ticket < g)
    ensures PhaseOf(g).RoundTop? || PhaseOf(g).Clear? || PhaseOf(g).MergePhase?
    ensures th.step == Pow2(PhaseOf(g).k) < c.blocks
  {
    hide IsSort;
    if th.pc.Blocked? && th.pc.ticket < g {
      assert PhaseOf(g) == After(PhaseOf(th.pc.ticket));
    }
    Pow2Monotone(RoundNo(th), c.rounds);
  }
}
