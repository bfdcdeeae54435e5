/** Exactly when the whole program sorts: the law its users expect, and where it stops. */
module SortOutcome {
  import opened IndexRecords
  import opened BottomUp
  import opened SortWorkers
  import opened SortProgress
  import opened SortResults
  import opened SortIndex

  /** The array main leaves behind after any complete run. */
  function Outcome(c: Config): (a: seq<Record>)
    requires c.blocks > 0
  {
    FinalMerge(AfterRound(c.qs, c.input, c.blocks, c.rounds), c.threads, c.blocks)
  }

  /** Whatever the schedule, main ends with the same array, a permutation of the input. */
  lemma OutcomeOfEveryRun(c: Config, run: seq<State>, s: State)
    requires c.Valid() && Completes(c, run, s)
    ensures FinalMerge(s.sh.arr, c.threads, c.blocks) == Outcome(c)
    ensures Permutation(Outcome(c), c.input)
  {
    hide Completes, IsSort, AfterRound, FinalMerge, Sorted, Permutation;
    WorkersSort(c, run, s);
    assert Permutation(s.sh.arr, c.input);
    FinalMergeKeepsKeys(s.sh.arr, c.threads, c.blocks);
    PermutationTransitive(FinalMerge(s.sh.arr, c.threads, c.blocks), s.sh.arr, c.input);
  }

  lemma PermutationTransitive(a: seq<Record>, b: seq<Record>, d: seq<Record>)
    requires Permutation(a, b) && Permutation(b, d)
    ensures Permutation(a, d)
  {
  }

  /** The number of records, blocks and threads for which every input gets sorted. */
  predicate AlwaysSorts(records: nat, blocks: nat, threads: nat)
    requires blocks > 0
  {
    records % blocks == 0 || records <= 1 || (records == 2 && threads > 1)
  }

  lemma SortsWhenItShould(c: Config)
    requires c.Valid() && AlwaysSorts(|c.input|, c.blocks, c.threads)
    ensures Sorted(Outcome(c))
  {
    hide IsSort, AfterRound, Merge;
    var a := AfterRound(c.qs, c.input, c.blocks, c.rounds);
    if |a| <= 1 {
      assert Sorted(a);
      FinalMergeKeepsKeys(a, c.threads, c.blocks);
    } else if |c.input| % c.blocks == 0 {
      BottomUpSorts(c.qs, c.input, c.blocks, c.rounds);
      assert a[..|a|] == a;
      FinalMergeKeepsKeys(a, c.threads, c.blocks);
    } else {
      MergeSorts(a[..|a| / 2], a[|a| / 2..]);
    }
  }

  // ----- an input that stays unsorted

  /** n-1 records with time mark 1, then one with time mark 0. */
  function OnesThenZero(n: nat): (s: seq<Record>)
    requires n > 0
    ensures |s| == n
  {
    seq(n, i requires 0 <= i < n => Record(if i == n - 1 then 0.0 else 1.0, i))
  }

  ghost predicate OnesBeforeLast(s: seq<Record>) {
    && s != [] && s[|s| - 1].timeMark == 0.0
    && forall i :: 0 <= i < |s| - 1 ==> s[i].timeMark == 1.0
  }

  /** The workers leave such an input's shape alone: the zero is in the uncovered tail. */
  lemma TailStays(c: Config)
    requires c.Valid() && c.input != [] && c.input == OnesThenZero(|c.input|) && |c.input| % c.blocks != 0
    ensures OnesBeforeLast(AfterRound(c.qs, c.input, c.blocks, c.rounds))
  {
    hide IsSort, AfterRound, Sorted;
    BottomUpSorts(c.qs, c.input, c.blocks, c.rounds);
    var a, p := AfterRound(c.qs, c.input, c.blocks, c.rounds), Covered(|c.input|, c.blocks);
    CancelTail(a, c.input, p);
    forall i | 0 <= i < |a| - 1 ensures a[i].timeMark == 1.0 {
      if i < p {
        assert a[..p][i] in multiset(a[..p]);
        assert a[..p][i] in c.input[..p];
      } else {
        assert a[i] == a[p..][i - p];
      }
    }
    assert a[|a| - 1] == a[p..][|a| - 1 - p];
  }

  lemma CancelTail(a: seq<Record>, b: seq<Record>, p: nat)
    requires |a| == |b| && p <= |a| && Permutation(a, b) && a[p..] == b[p..]
    ensures multiset(a[..p]) == multiset(b[..p])
  {
    assert a == a[..p] + a[p..] && b == b[..p] + b[p..];
    var t := multiset(a[p..]);
    assert multiset(a) == multiset(a[..p]) + t && multiset(b) == multiset(b[..p]) + t;
    assert multiset(a[..p]) == multiset(a) - t && multiset(b[..p]) == multiset(b) - t;
  }

  /** Merging the halves does not help: a one still comes first. */
  lemma StillUnsorted(a: seq<Record>, threads: nat, blocks: nat)
    requires OnesBeforeLast(a) && |a| >= 2 && (|a| > 2 || threads <= 1 || blocks <= 1)
    ensures !Sorted(FinalMerge(a, threads, blocks))
  {
    var f := FinalMerge(a, threads, blocks);
    FinalMergeKeepsKeys(a, threads, blocks);
    assert f[0].timeMark == 1.0;
    assert a[|a| - 1] in multiset(f);
    var i :| 0 <= i < |f| && f[i] == a[|a| - 1];
    assert i > 0;
  }

  lemma FailsWhenItShould(c: Config)
    requires c.Valid() && !AlwaysSorts(|c.input|, c.blocks, c.threads) && c.input == OnesThenZero(|c.input|)
    ensures !Sorted(Outcome(c))
  {
    hide IsSort, AfterRound, Sorted, FinalMerge, OnesThenZero;
    TailStays(c);
    StillUnsorted(AfterRound(c.qs, c.input, c.blocks, c.rounds), c.threads, c.blocks);
  }

  // ----- the exact condition

  /** Some complete run of c leaves the array unsorted, or none does. */
  ghost predicate SortsInEveryRun(c: Config) {
    forall run: seq<State>, s: State :: Completes(c, run, s) ==> Sorted(FinalMerge(s.sh.arr, c.threads, c.blocks))
  }

  /** For given numbers of records, blocks and threads: every run on every input ends sorted
      if and only if blocks divides records, or there is at most one record, or there are
      two records and the final merge takes place. */
  lemma SortsEveryInputIff(records: nat, rounds: nat, threads: nat, qs: seq<Record> -> seq<Record>)
    requires threads >= 1 && Pow2(rounds) >= 4 * threads && IsSort(qs)
    ensures (forall input: seq<Record> :: |input| == records ==>
               SortsInEveryRun(Config(input, rounds, Pow2(rounds), threads, qs)))
            <==> AlwaysSorts(records, Pow2(rounds), threads)
  {
    hide IsSort, AfterRound, Sorted, FinalMerge, OnesThenZero, Completes, Pow2, Permutation;
    if AlwaysSorts(records, Pow2(rounds), threads) {
      forall input: seq<Record> | |input| == records
        ensures SortsInEveryRun(Config(input, rounds, Pow2(rounds), threads, qs))
      {
        var c := Config(input, rounds, Pow2(rounds), threads, qs);
        SortsWhenItShould(c);
        forall run: seq<State>, s: State | Completes(c, run, s)
          ensures Sorted(FinalMerge(s.sh.arr, c.threads, c.blocks))
        {
          OutcomeOfEveryRun(c, run, s);
        }
      }
    } else {
      var c := Config(OnesThenZero(records), rounds, Pow2(rounds), threads, qs);
      UnsortedRun(c);
    }
  }

  lemma UnsortedRun(c: Config)
    requires c.Valid() && !AlwaysSorts(|c.input|, c.blocks, c.threads) && c.input == OnesThenZero(|c.input|)
    ensures !SortsInEveryRun(c)
  {
    hide IsSort, AfterRound, Sorted, FinalMerge, OnesThenZero, Finished, Run;
    FailsWhenItShould(c);
    var run := SomeRunFinishes(c);
    assert Completes(c, run, run[|run| - 1]);
    OutcomeOfEveryRun(c, run, run[|run| - 1]);
  }
}
