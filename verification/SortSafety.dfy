/** What holds in every reachable state of the parallel sort.

    The barrier generation determines the phase; every thread is in that phase, or still
    inside the barrier call that ended the previous one. At the phases without jobs the
    array is exactly the sequential bottom-up sort's array of that round. */
module SortSafety {
  import opened BottomUp
  import opened SortWorkers
  import opened SliceJobs

  // ----- phases

  datatype Phase = Setup | BlockPhase | RoundTop(k: nat) | Clear(k: nat) | MergePhase(k: nat)

  function After(p: Phase): (q: Phase) {
    match p
    case Setup => BlockPhase
    case BlockPhase => RoundTop(0)
    case RoundTop(k) => Clear(k)
    case Clear(k) => MergePhase(k)
    case MergePhase(k) => RoundTop(k + 1)
  }

  /** The phase after g barrier crossings. */
  function PhaseOf(g: nat): (p: Phase) {
    if g == 0 then Setup else After(PhaseOf(g - 1))
  }

  function Crossings(p: Phase): (g: nat) {
    match p
    case Setup => 0
    case BlockPhase => 1
    case RoundTop(k) => 2 + 3 * k
    case Clear(k) => 3 + 3 * k
    case MergePhase(k) => 4 + 3 * k
  }

  lemma {:induction false} CrossingsOfPhase(g: nat)
    ensures Crossings(PhaseOf(g)) == g
  {
    if g > 0 {
      CrossingsOfPhase(g - 1);
    }
  }

  function SitePhase(site: Site, k: nat): (p: Phase) {
    match site
    case AtStart => Setup
    case AtSorted => BlockPhase
    case AtRound => RoundTop(k)
    case AtCleared => Clear(k)
    case AtMerged => MergePhase(k)
  }

  function RoundNo(th: Thread): (k: nat) {
    if th.stepNum == 0 then 0 else th.stepNum - 1
  }

  /** The phase a thread's program counter belongs to. */
  function ThreadPhase(th: Thread): (p: Phase) {
    var k := RoundNo(th);
    match th.pc
    case Barrier(site) => SitePhase(site, k)
    case Blocked(site, _) => SitePhase(site, k)
    case LoopTest => RoundTop(k)
    case Returned => RoundTop(k)
    case Clearing(_) => Clear(k)
    case PairLock => MergePhase(k)
    case PairScan(_) => MergePhase(k)
    case PairUnlock(_) => MergePhase(k)
    case Merging(_, _, _, _) => MergePhase(k)
    case Copying(_, _, _) => MergePhase(k)
    case _ => BlockPhase
  }

  /** The thread is inside the body of the round loop. */
  predicate InRound(th: Thread) {
    match th.pc
    case Barrier(site) => site in {AtRound, AtCleared, AtMerged}
    case Blocked(site, _) => site in {AtRound, AtCleared, AtMerged}
    case _ => ThreadPhase(th).Clear? || ThreadPhase(th).MergePhase?
  }

  ghost predicate ThreadOk(c: Config, gen: nat, t: nat, th: Thread) {
    && th.stepNum >= 1 && RoundNo(th) <= c.rounds && th.step == Pow2(RoundNo(th))
    && (if th.pc.Blocked? then ThreadPhase(th) == PhaseOf(th.pc.ticket) && th.pc.ticket <= gen <= th.pc.ticket + 1
        else ThreadPhase(th) == PhaseOf(gen))
    && (InRound(th) ==> RoundNo(th) < c.rounds)
    && (th.pc == Returned ==> RoundNo(th) == c.rounds)
    && (th.pc.Clearing? ==> t == 0)
  }

  // ----- counting threads

  datatype Gauge = Waiting(gen: nat) | Starting | Effort(n: nat, records: nat, gen: nat)

  function Weigh(g: Gauge, th: Thread): (w: nat) {
    match g
    case Waiting(gen) => if th.pc.Blocked? && th.pc.ticket == gen then 1 else 0
    case Starting => if IsStarting(th.pc) then 1 else 0
    case Effort(n, records, gen) => PcEffort(n, records, gen, th.pc)
  }

  /** The thread has made a claim but not yet released the mutex. */
  predicate IsStarting(pc: Pc) {
    match pc
    case OwnUnlock(mine) => mine
    case ScanUnlock(f) => f >= 0
    case PairUnlock(f) => f >= 0
    case _ => false
  }

  /** Bounds the moves a thread has left before its next claim or barrier crossing. */
  function PcEffort(n: nat, records: nat, gen: nat, pc: Pc): (e: nat) {
    match pc
    case Barrier(_) => 1
    case Blocked(_, ticket) => if ticket < gen then n + 10 else 0
    case OwnLock => n + 7
    case OwnTest => n + 6
    case OwnUnlock(mine) => if mine then 0 else n + 5
    case ScanLock => n + 4
    case Scan(i) => (if i < n then n - i else 0) + 3
    case ScanUnlock(f) => if f >= 0 then 0 else 2
    case Sorting(_, _, writes) => n + 5 + writes
    case LoopTest => 2
    case Clearing(m) => (if m < n then n - m else 0) + 2
    case PairLock => n + 4
    case PairScan(i) => (if i < n then n - i else 0) + 3
    case PairUnlock(f) => if f >= 0 then 0 else 2
    case Merging(_, tmp, _, _) => n + 6 + (if |tmp| < 2 * records then 2 * records - |tmp| else 0)
    case Copying(_, tmp, k) => n + 5 + (if k < |tmp| then |tmp| - k else 0)
    case Returned => 0
  }

  function Tally(ts: seq<Thread>, g: Gauge): (n: nat) {
    if ts == [] then 0 else Weigh(g, ts[0]) + Tally(ts[1..], g)
  }

  lemma {:induction false} TallyUpdate(ts: seq<Thread>, g: Gauge, t: nat, th: Thread)
    requires t < |ts|
    ensures Tally(ts[t := th], g) == Tally(ts, g) - Weigh(g, ts[t]) + Weigh(g, th)
  {
    hide Weigh;
    if t == 0 {
      assert ts[t := th][1..] == ts[1..];
    } else {
      TallyUpdate(ts[1..], g, t - 1, th);
      assert ts[t := th][1..] == ts[1..][t - 1 := th];
    }
  }

  lemma {:induction false} TallyZero(ts: seq<Thread>, g: Gauge)
    requires forall t :: 0 <= t < |ts| ==> Weigh(g, ts[t]) == 0
    ensures Tally(ts, g) == 0
  {
    hide Weigh;
    if ts != [] {
      TallyZero(ts[1..], g);
    }
  }

  /** As many waiting threads as threads: all of them wait. */
  lemma {:induction false} AllWait(ts: seq<Thread>, gen: nat)
    ensures Tally(ts, Waiting(gen)) <= |ts|
    ensures Tally(ts, Waiting(gen)) == |ts| <==>
            forall t :: 0 <= t < |ts| ==> ts[t].pc.Blocked? && ts[t].pc.ticket == gen
  {
    if ts != [] {
      AllWait(ts[1..], gen);
      if Tally(ts, Waiting(gen)) == |ts| {
        forall t | 0 <= t < |ts| ensures ts[t].pc.Blocked? && ts[t].pc.ticket == gen {
          if t > 0 {
            assert ts[t] == ts[1..][t - 1];
          }
        }
      }
    }
  }

  // ----- counting claims

  /** Jobs of the given width, from block b on, that no thread has claimed. */
  function Unclaimed(map_: seq<bool>, b: nat, width: nat): (n: nat)
    requires width > 0
    decreases |map_| - b
  {
    if b >= |map_| then 0 else (if map_[b] then 0 else 1) + Unclaimed(map_, b + width, width)
  }

  lemma {:induction false} UnclaimedSuffix(map_: seq<bool>, m': seq<bool>, b: nat, width: nat)
    requires width > 0 && |map_| == |m'| && forall i :: b <= i < |map_| ==> map_[i] == m'[i]
    ensures Unclaimed(map_, b, width) == Unclaimed(m', b, width)
    decreases |map_| - b
  {
    if b < |map_| {
      UnclaimedSuffix(map_, m', b + width, width);
    }
  }

  lemma {:induction false} UnclaimedAfterClaim(map_: seq<bool>, b: nat, width: nat, d: nat)
    requires width > 0 && b <= d < |map_| && Aligned(d - b, width) && !map_[d]
    ensures Unclaimed(map_, b, width) == Unclaimed(map_[d := true], b, width) + 1
    decreases |map_| - b
  {
    if b == d {
      UnclaimedSuffix(map_, map_[d := true], b + width, width);
    } else {
      UnclaimedAfterClaim(map_, b + width, width, d);
    }
  }

  lemma {:induction false} NothingUnclaimed(J: Jobs, map_: seq<bool>, b: nat)
    requires J.Valid() && |map_| == J.n && AllClaimedBelow(J, map_, J.n) && Aligned(b, J.width)
    ensures Unclaimed(map_, b, J.width) == 0
    decreases |map_| - b
  {
    if b < |map_| {
      assert J.Is(b);
      NothingUnclaimed(J, map_, b + J.width);
    }
  }

  lemma {:induction false} UnclaimedScale(m: seq<bool>, l: seq<bool>, b: nat, width: nat)
    requires width > 0 && |l| == 2 * |m| && (forall i :: 0 <= i < |m| ==> !m[i]) && (forall i :: 0 <= i < |l| ==> !l[i])
    ensures Unclaimed(l, 2 * b, 2 * width) == Unclaimed(m, b, width)
    decreases |m| - b
  {
    if b < |m| {
      UnclaimedScale(m, l, b + width, width);
    }
  }

  lemma {:induction false} UnclaimedOnes(map_: seq<bool>, b: nat)
    requires b <= |map_| && forall i :: 0 <= i < |map_| ==> !map_[i]
    ensures Unclaimed(map_, b, 1) == |map_| - b
    decreases |map_| - b
  {
    if b < |map_| {
      UnclaimedOnes(map_, b + 1);
    }
  }

  /** A cleared map of 2^m bytes offers 2^(m-j) jobs of width 2^j. */
  lemma {:induction false} JobCount(map_: seq<bool>, m: nat, j: nat)
    requires j <= m && |map_| == Pow2(m) && forall i :: 0 <= i < |map_| ==> !map_[i]
    ensures Unclaimed(map_, 0, Pow2(j)) == Pow2(m - j)
    decreases j
  {
    if j == 0 {
      UnclaimedOnes(map_, 0);
    } else {
      JobCount(AllFalse(Pow2(m - 1)), m - 1, j - 1);
      UnclaimedScale(AllFalse(Pow2(m - 1)), map_, 0, Pow2(j - 1));
    }
  }

  // ----- the invariant

  /** The thread is between locking and unlocking map_mutex. */
  predicate Holds(pc: Pc) {
    pc.OwnTest? || pc.OwnUnlock? || pc.Scan? || pc.ScanUnlock? || pc.PairScan? || pc.PairUnlock?
  }

  ghost predicate Shape(c: Config, s: State) {
    && |s.threads| == c.threads && |s.sh.arr| == |c.input|
    && |s.sh.blockMap| == c.blocks && |s.sh.mergeMap| == c.blocks
  }

  ghost predicate ThreadsOk(c: Config, s: State) {
    forall t :: 0 <= t < |s.threads| ==> ThreadOk(c, s.sh.generation, t, s.threads[t])
  }

  /** Mutual exclusion: the mutex owner is exactly the thread between lock and unlock. */
  ghost predicate MutexOk(s: State) {
    && FREE <= s.sh.owner < |s.threads|
    && forall t :: 0 <= t < |s.threads| ==> (Holds(s.threads[t].pc) <==> s.sh.owner == t)
  }

  ghost predicate BarrierOk(c: Config, s: State) {
    s.sh.arrived < c.threads && s.sh.arrived == Tally(s.threads, Waiting(s.sh.generation))
  }

  /** How far thread 0 has cleared merge_map. */
  ghost predicate ClearedOk(c: Config, s: State)
    requires c.Valid() && Shape(c, s)
  {
    var th := s.threads[0];
    var upTo := match th.pc
      case Clearing(m) => m
      case Barrier(_) => c.blocks
      case Blocked(_, ticket) => if ticket == s.sh.generation then c.blocks else 0
      case _ => 0;
    upTo <= c.blocks && forall i :: 0 <= i < upTo ==> !s.sh.mergeMap[i]
  }

  ghost predicate DataOk(c: Config, s: State)
    requires c.Valid() && Shape(c, s)
  {
    match PhaseOf(s.sh.generation)
    case Setup => s.sh.arr == c.input && s.sh.blockMap == AllFalse(c.blocks)
    case BlockPhase => JobsOk(SortJobs(c), s.sh.arr, s.sh.blockMap, s.sh.generation, s.threads)
    case RoundTop(k) => s.sh.arr == AfterRound(c.qs, c.input, c.blocks, k)
    case Clear(k) => s.sh.arr == AfterRound(c.qs, c.input, c.blocks, k) && ClearedOk(c, s)
    case MergePhase(k) => JobsOk(MergeJobs(c, k), s.sh.arr, s.sh.mergeMap, s.sh.generation, s.threads)
  }

  /** Claims so far: every block once, and 2^(rounds-k-1) pairs in round k. */
  ghost predicate CountsOk(c: Config, sh: Shared) {
    match PhaseOf(sh.generation)
    case Setup => sh.sorts == 0 && sh.merges == 0 && sh.blockMap == AllFalse(c.blocks)
    case BlockPhase => sh.merges == 0 && sh.sorts + Unclaimed(sh.blockMap, 0, 1) == c.blocks
    case RoundTop(k) => sh.sorts == c.blocks && k <= c.rounds && sh.merges + Pow2(c.rounds - k) == c.blocks
    case Clear(k) => sh.sorts == c.blocks && k < c.rounds && sh.merges + Pow2(c.rounds - k) == c.blocks
    case MergePhase(k) =>
      && sh.sorts == c.blocks && k < c.rounds
      && sh.merges + Unclaimed(sh.mergeMap, 0, 2 * Pow2(k)) + Pow2(c.rounds - k - 1) == c.blocks
  }

  ghost predicate Inv(c: Config, s: State)
    requires c.Valid()
  {
    Shape(c, s) && ThreadsOk(c, s) && MutexOk(s) && BarrierOk(c, s) && DataOk(c, s) && CountsOk(c, s.sh)
  }

  lemma InvInit(c: Config, s: State)
    requires c.Valid() && Init(c, s)
    ensures Inv(c, s)
  {
    TallyZero(s.threads, Waiting(0));
  }
}
