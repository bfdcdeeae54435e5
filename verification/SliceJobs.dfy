/** A phase of the parallel sort as a set of jobs on disjoint slices.

    In the block-sorting phase and in every merge round, the job at block b rewrites the
    `width` blocks starting there from their content in `before` to their content in
    `after`. A claim map hands every job to one thread. JobsOk is what holds at every
    moment of such a phase, whoever has claimed what and however far each owner is. */
module SliceJobs {
  import opened IndexRecords
  import opened BottomUp
  import opened SortWorkers

  datatype Jobs = Jobs(n: nat, r: nat, width: nat, before: seq<Record>, after: seq<Record>)
  {
    ghost predicate Valid() {
      && width > 0 && Aligned(n, width)
      && |before| == |after| && Off(r, n) <= |before|
      && before[Off(r, n)..] == after[Off(r, n)..]
    }

    /** b is the first block of a job. */
    predicate Is(b: int)
      requires width > 0
    {
      0 <= b < n && Aligned(b, width)
    }

    function Part(a: seq<Record>, b: nat): (s: seq<Record>) {
      Cut(a, r, b, b + width)
    }
  }

  const NONE := -1

  /** The block a thread has claimed and not yet finished, or NONE. */
  function Claim(t: nat, th: Thread): (b: int)
    ensures b >= NONE
  {
    match th.pc
    case OwnUnlock(mine) => if mine then t else NONE
    case ScanUnlock(found) => if found >= 0 then found else NONE
    case Sorting(b, _, _) => b
    case PairUnlock(found) => if found >= 0 then found else NONE
    case Merging(b, _, _, _) => b
    case Copying(b, _, _) => b
    case _ => NONE
  }

  ghost predicate AllClaimedBelow(J: Jobs, map_: seq<bool>, i: nat)
    requires J.width > 0
  {
    forall b: nat :: b < i && J.Is(b) && b < |map_| ==> map_[b]
  }

  /** What thread t knows about its own job and about the map, by program counter. */
  ghost predicate LocalJob(J: Jobs, arr: seq<Record>, map_: seq<bool>, gen: nat, t: nat, th: Thread)
    requires J.width > 0
  {
    var b := Claim(t, th);
    && (b >= 0 ==> J.Is(b) && b < |map_| && map_[b])
    && match th.pc
       case OwnUnlock(mine) => mine ==> J.Part(arr, t) == J.Part(J.before, t)
       case Scan(i) => i <= J.n && AllClaimedBelow(J, map_, i)
       case ScanUnlock(f) => if f >= 0 then J.Part(arr, f) == J.Part(J.before, f) else AllClaimedBelow(J, map_, J.n)
       case Sorting(b, slice, _) => slice == J.Part(J.before, b)
       case PairScan(i) => Aligned(i, J.width) && AllClaimedBelow(J, map_, i)
       case PairUnlock(f) => if f >= 0 then J.Part(arr, f) == J.Part(J.before, f) else AllClaimedBelow(J, map_, J.n)
       case Merging(b, tmp, i, j) => MergeProgress(J, arr, th.step, b, tmp, i, j)
       case Copying(b, tmp, k) => tmp == J.Part(J.after, b) && CopyProgress(J, arr, b, tmp, k)
       case Barrier(_) => AllClaimedBelow(J, map_, J.n)
       case Blocked(_, ticket) => ticket == gen ==> AllClaimedBelow(J, map_, J.n)
       case _ => true
  }

  /** What is in tmp followed by the merge of what is left is the finished slice. */
  ghost predicate MergeProgress(J: Jobs, arr: seq<Record>, step: nat, b: nat, tmp: seq<Record>, i: nat, j: nat) {
    var x, y := Cut(arr, J.r, b, b + step), Cut(arr, J.r, b + step, b + 2 * step);
    && 2 * step == J.width && i <= |x| && j <= |y|
    && tmp + Merge(x[i..], y[j..]) == J.Part(J.after, b)
  }

  ghost predicate CopyProgress(J: Jobs, arr: seq<Record>, b: nat, tmp: seq<Record>, k: nat) {
    && k <= |tmp| && Off(J.r, b) + |tmp| <= |arr|
    && forall i :: 0 <= i < k ==> arr[Off(J.r, b) + i] == tmp[i]
  }

  ghost predicate Unheld(ts: seq<Thread>, b: int) {
    forall t :: 0 <= t < |ts| ==> Claim(t, ts[t]) != b
  }

  ghost predicate WaitingJobs(J: Jobs, arr: seq<Record>, map_: seq<bool>)
    requires J.width > 0
  {
    forall b: nat :: J.Is(b) && b < |map_| && !map_[b] ==> J.Part(arr, b) == J.Part(J.before, b)
  }

  ghost predicate FinishedJobs(J: Jobs, arr: seq<Record>, map_: seq<bool>, ts: seq<Thread>)
    requires J.width > 0
  {
    forall b: nat :: J.Is(b) && b < |map_| && map_[b] && Unheld(ts, b) ==> J.Part(arr, b) == J.Part(J.after, b)
  }

  ghost predicate LocalJobs(J: Jobs, arr: seq<Record>, map_: seq<bool>, gen: nat, ts: seq<Thread>)
    requires J.width > 0
  {
    forall t :: 0 <= t < |ts| ==> LocalJob(J, arr, map_, gen, t, ts[t])
  }

  /** No two threads hold the same job. */
  ghost predicate DistinctClaims(ts: seq<Thread>) {
    forall t, u :: 0 <= t < |ts| && 0 <= u < |ts| && t != u && Claim(t, ts[t]) >= 0 ==>
      Claim(t, ts[t]) != Claim(u, ts[u])
  }

  ghost predicate JobsOk(J: Jobs, arr: seq<Record>, map_: seq<bool>, gen: nat, ts: seq<Thread>) {
    && J.Valid() && |map_| == J.n && |arr| == |J.before|
    && arr[Off(J.r, J.n)..] == J.before[Off(J.r, J.n)..]
    && WaitingJobs(J, arr, map_)
    && FinishedJobs(J, arr, map_, ts)
    && LocalJobs(J, arr, map_, gen, ts)
    && DistinctClaims(ts)
  }

  // ----- beginning and end of a phase

  ghost predicate NoClaims(ts: seq<Thread>) {
    forall t :: 0 <= t < |ts| ==> Claim(t, ts[t]) == NONE
  }

  lemma JobsBegin(J: Jobs, map_: seq<bool>, gen: nat, ts: seq<Thread>)
    requires J.Valid() && |map_| == J.n && (forall b :: 0 <= b < J.n ==> !map_[b])
    requires forall t :: 0 <= t < |ts| ==> ts[t].pc.Blocked? && ts[t].pc.ticket < gen
    ensures JobsOk(J, J.before, map_, gen, ts)
  {
  }

  lemma JobsEnd(J: Jobs, arr: seq<Record>, map_: seq<bool>, gen: nat, ts: seq<Thread>)
    requires JobsOk(J, arr, map_, gen, ts) && NoClaims(ts) && AllClaimedBelow(J, map_, J.n)
    ensures arr == J.after
  {
    hide Cut, Off, LocalJobs, LocalJob;
    forall b: nat | b < J.n && Aligned(b, J.width)
      ensures Cut(arr, J.r, b, b + J.width) == Cut(J.after, J.r, b, b + J.width)
    {
      assert J.Is(b) && map_[b] && Unheld(ts, b);
      assert J.Part(arr, b) == J.Part(J.after, b);
    }
    SameArray(arr, J.after, J.r, J.width, J.n);
  }

  // ----- what one thread's move does to the others

  lemma ClaimedGrows(J: Jobs, map_: seq<bool>, b: nat, i: nat)
    requires J.width > 0 && b < |map_| && AllClaimedBelow(J, map_, i)
    ensures AllClaimedBelow(J, map_[b := true], i)
  {
  }

  /** A claim by another thread disturbs no local knowledge. */
  lemma LocalGrows(J: Jobs, arr: seq<Record>, map_: seq<bool>, gen: nat, t: nat, th: Thread, b: nat)
    requires J.width > 0 && b < |map_| && LocalJob(J, arr, map_, gen, t, th)
    ensures LocalJob(J, arr, map_[b := true], gen, t, th)
  {
    hide AllClaimedBelow, MergeProgress, CopyProgress, Cut;
    match th.pc
    case Scan(i) => ClaimedGrows(J, map_, b, i);
    case PairScan(i) => ClaimedGrows(J, map_, b, i);
    case ScanUnlock(f) => if f < 0 { ClaimedGrows(J, map_, b, J.n); }
    case PairUnlock(f) => if f < 0 { ClaimedGrows(J, map_, b, J.n); }
    case Barrier(_) => ClaimedGrows(J, map_, b, J.n);
    case Blocked(_, ticket) => if ticket == gen { ClaimedGrows(J, map_, b, J.n); }
    case _ =>
  }

  lemma PartOutside(J: Jobs, arr: seq<Record>, arr': seq<Record>, d: nat, b: nat)
    requires J.width > 0 && J.Is(b) && J.Is(d) && b != d
    requires SameOutside(arr, arr', Off(J.r, d), Off(J.r, d + J.width))
    ensures J.Part(arr', b) == J.Part(arr, b)
    ensures forall c: nat, e: nat :: b <= c <= e <= b + J.width ==> Cut(arr', J.r, c, e) == Cut(arr, J.r, c, e)
  {
    hide Cut, SameOutside;
    if b < d {
      AlignedGap(b, d, J.width);
    } else {
      AlignedGap(d, b, J.width);
    }
    forall c: nat, e: nat | b <= c <= e <= b + J.width ensures Cut(arr', J.r, c, e) == Cut(arr, J.r, c, e) {
      CutOutside(arr, arr', J.r, d, d + J.width, c, e);
    }
  }

  lemma CopyOutside(J: Jobs, arr: seq<Record>, arr': seq<Record>, d: nat, b: nat, tmp: seq<Record>, k: nat)
    requires J.Valid() && J.Is(b) && J.Is(d) && b != d && |arr| == |J.before|
    requires SameOutside(arr, arr', Off(J.r, d), Off(J.r, d + J.width))
    requires tmp == J.Part(J.after, b) && CopyProgress(J, arr, b, tmp, k)
    ensures CopyProgress(J, arr', b, tmp, k)
  {
    AlignedGap(b, J.n, J.width);
    OffMonotone(J.r, b + J.width, J.n);
    CutLength(J.after, J.r, b, b + J.width);
    if b < d {
      AlignedGap(b, d, J.width);
      OffMonotone(J.r, b + J.width, d);
    } else {
      AlignedGap(d, b, J.width);
      OffMonotone(J.r, d + J.width, b);
    }
    hide Off, Cut;
  }

  /** A write inside another thread's job disturbs no local knowledge. */
  lemma LocalOutside(J: Jobs, arr: seq<Record>, arr': seq<Record>, map_: seq<bool>, gen: nat, t: nat, th: Thread, d: nat)
    requires J.Valid() && |arr| == |J.before| && LocalJob(J, arr, map_, gen, t, th) && J.Is(d) && Claim(t, th) != d
    requires SameOutside(arr, arr', Off(J.r, d), Off(J.r, d + J.width))
    ensures LocalJob(J, arr', map_, gen, t, th)
  {
    hide AllClaimedBelow, Cut, Off, SameOutside, Merge;
    var b := Claim(t, th);
    if b >= 0 {
      PartOutside(J, arr, arr', d, b);
      match th.pc
      case Copying(b, tmp, k) => CopyOutside(J, arr, arr', d, b, tmp, k);
      case Merging(b, tmp, i, j) => assert MergeProgress(J, arr', th.step, b, tmp, i, j);
      case _ =>
    }
  }

  // ----- the three kinds of moves inside a phase

  /** A move that holds no job before or after and touches neither array nor map. */
  lemma JobsQuiet(J: Jobs, arr: seq<Record>, map_: seq<bool>, gen: nat, ts: seq<Thread>, t: nat, th': Thread)
    requires JobsOk(J, arr, map_, gen, ts) && t < |ts|
    requires Claim(t, ts[t]) == NONE && Claim(t, th') == NONE && LocalJob(J, arr, map_, gen, t, th')
    ensures JobsOk(J, arr, map_, gen, ts[t := th'])
  {
    hide LocalJob, Claim, Cut, Off;
    var ts' := ts[t := th'];
    forall b: nat | J.Is(b) && b < |map_| && map_[b] && Unheld(ts', b) ensures J.Part(arr, b) == J.Part(J.after, b) {
      assert Unheld(ts, b) by {
        forall u | 0 <= u < |ts| ensures Claim(u, ts[u]) != b {
          if u != t {
            assert Claim(u, ts'[u]) != b;
          }
        }
      }
    }
  }

  /** A thread without a job claims job b. */
  lemma JobsClaim(J: Jobs, arr: seq<Record>, map_: seq<bool>, gen: nat, ts: seq<Thread>, t: nat, th': Thread, b: nat)
    requires JobsOk(J, arr, map_, gen, ts) && t < |ts| && J.Is(b) && !map_[b]
    requires Claim(t, ts[t]) == NONE && Claim(t, th') == b && LocalJob(J, arr, map_[b := true], gen, t, th')
    ensures JobsOk(J, arr, map_[b := true], gen, ts[t := th'])
  {
    var ts', m' := ts[t := th'], map_[b := true];
    forall u | 0 <= u < |ts| && u != t
      ensures Claim(u, ts[u]) != b && LocalJob(J, arr, m', gen, u, ts'[u])
    {
      assert LocalJob(J, arr, map_, gen, u, ts[u]);
      LocalGrows(J, arr, map_, gen, u, ts[u], b);
    }
    hide LocalJob, Claim, Cut, Off;
    forall d: nat | J.Is(d) && d < |m'| && m'[d] && Unheld(ts', d) ensures J.Part(arr, d) == J.Part(J.after, d) {
      assert Claim(t, ts'[t]) != d;
      assert Unheld(ts, d) by {
        forall u | 0 <= u < |ts| ensures Claim(u, ts[u]) != d {
          if u != t {
            assert Claim(u, ts'[u]) != d;
          }
        }
      }
    }
  }

  /** The owner of job b works on it, and either keeps it or has finished it. */
  lemma JobsWork(J: Jobs, arr: seq<Record>, arr': seq<Record>, map_: seq<bool>, gen: nat,
                 ts: seq<Thread>, t: nat, th': Thread, b: nat)
    requires JobsOk(J, arr, map_, gen, ts) && t < |ts| && Claim(t, ts[t]) == b && J.Is(b)
    requires SameOutside(arr, arr', Off(J.r, b), Off(J.r, b + J.width))
    requires LocalJob(J, arr', map_, gen, t, th')
    requires Claim(t, th') == b || (Claim(t, th') == NONE && J.Part(arr', b) == J.Part(J.after, b))
    ensures JobsOk(J, arr', map_, gen, ts[t := th'])
  {
    var ts' := ts[t := th'];
    assert map_[b] by {
      assert LocalJob(J, arr, map_, gen, t, ts[t]);
    }
    AlignedGap(b, J.n, J.width);
    TailOutside(arr, arr', J.r, b, b + J.width, J.n);
    hide LocalJob, Claim, Cut, Off, SameOutside;
    forall u | 0 <= u < |ts| && u != t ensures LocalJob(J, arr', map_, gen, u, ts'[u]) {
      assert Claim(u, ts[u]) != b;
      assert LocalJob(J, arr, map_, gen, u, ts[u]);
      LocalOutside(J, arr, arr', map_, gen, u, ts[u], b);
    }
    forall d: nat | J.Is(d) && d < |map_| && !map_[d] ensures J.Part(arr', d) == J.Part(J.before, d) {
      PartOutside(J, arr, arr', b, d);
    }
    forall d: nat | J.Is(d) && d < |map_| && map_[d] && Unheld(ts', d) ensures J.Part(arr', d) == J.Part(J.after, d) {
      if d == b {
        assert Claim(t, ts'[t]) != b;
      } else {
        PartOutside(J, arr, arr', b, d);
        assert Unheld(ts, d) by {
          forall u | 0 <= u < |ts| ensures Claim(u, ts[u]) != d {
            if u != t {
              assert Claim(u, ts'[u]) != d;
            }
          }
        }
      }
    }
  }

  // ----- the two instances

  function SortJobs(c: Config): (J: Jobs)
    requires c.blocks > 0
  {
    Jobs(c.blocks, c.Per(), 1, c.input, AfterRound(c.qs, c.input, c.blocks, 0))
  }

  function MergeJobs(c: Config, k: nat): (J: Jobs)
    requires c.blocks > 0
  {
    Jobs(c.blocks, c.Per(), 2 * Pow2(k),
         AfterRound(c.qs, c.input, c.blocks, k), AfterRound(c.qs, c.input, c.blocks, k + 1))
  }

  lemma {:induction false} AlignedOne(b: nat)
    ensures Aligned(b, 1)
  {
    if b > 0 {
      AlignedOne(b - 1);
    }
  }

  /** In the first phase every job sorts one block. */
  lemma SortJobsValid(c: Config)
    requires c.Valid()
    ensures SortJobs(c).Valid()
    ensures forall b: nat :: b < c.blocks ==>
              SortJobs(c).Is(b) && SortJobs(c).Part(SortJobs(c).after, b) == c.qs(SortJobs(c).Part(c.input, b))
  {
    hide IsSort, Cut, Off, Aligned;
    OffCovered(|c.input|, c.blocks);
    AlignedOne(c.blocks);
    SortFromAt(c.qs, c.input, c.Per(), 0, c.blocks, 0);
    forall b: nat | b < c.blocks
      ensures SortJobs(c).Is(b) && SortJobs(c).Part(SortJobs(c).after, b) == c.qs(SortJobs(c).Part(c.input, b))
    {
      AlignedOne(b);
      SortFromAt(c.qs, c.input, c.Per(), 0, c.blocks, b);
    }
  }

  /** In merge round k every job merges two neighbouring runs of 2^k blocks. */
  lemma MergeJobsValid(c: Config, k: nat)
    requires c.Valid() && k < c.rounds
    ensures MergeJobs(c, k).Valid()
    ensures forall b: nat :: b < c.blocks && Aligned(b, 2 * Pow2(k)) ==>
              MergeJobs(c, k).Is(b)
              && MergeJobs(c, k).Part(MergeJobs(c, k).after, b) == Merged(MergeJobs(c, k).before, c.Per(), b, Pow2(k))
  {
    hide IsSort, Cut, Off, MergeFrom, Merged;
    var J := MergeJobs(c, k);
    OffCovered(|c.input|, c.blocks);
    AlignedPow2(k + 1, c.rounds);
    assert Aligned(0, 2 * Pow2(k));
    assert J.after == MergeFrom(J.before, J.r, 0, Pow2(k), J.n);
    MergeFromAt(J.before, J.r, 0, Pow2(k), J.n, 0);
    forall b: nat | b < c.blocks && Aligned(b, 2 * Pow2(k))
      ensures J.Is(b) && J.Part(J.after, b) == Merged(J.before, J.r, b, Pow2(k))
    {
      MergeFromAt(J.before, J.r, 0, Pow2(k), J.n, b);
    }
  }
}
