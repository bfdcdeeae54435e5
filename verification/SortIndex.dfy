/** The array code of sort_index.c: merge, merging two slices in place, the claim scans, a
    worker on its own, and main's argument check and final merge. */
module SortIndex {
  import opened IndexRecords
  import opened BottomUp
  import opened SortWorkers

  // ----- merge

  /** What is written so far, followed by the merge of what is left, is the whole merge. */
  ghost predicate Progress(a: seq<Record>, b: seq<Record>, out: seq<Record>, i: nat, j: nat) {
    i <= |a| && j <= |b| && |out| == i + j && out + Merge(a[i..], b[j..]) == Merge(a, b)
  }

  lemma TakeLeft(a: seq<Record>, b: seq<Record>, out: seq<Record>, i: nat, j: nat, next: seq<Record>)
    requires Progress(a, b, out, i, j) && i < |a| && (j == |b| || a[i].timeMark < b[j].timeMark)
    requires |next| == |out| + 1 && next[..|out|] == out && next[|out|] == a[i]
    ensures Progress(a, b, next, i + 1, j)
  {
    MergeAdvances(a, b, out, i, j);
    assert next == out + [a[i]];
  }

  lemma TakeRight(a: seq<Record>, b: seq<Record>, out: seq<Record>, i: nat, j: nat, next: seq<Record>)
    requires Progress(a, b, out, i, j) && j < |b| && (i == |a| || !(a[i].timeMark < b[j].timeMark))
    requires |next| == |out| + 1 && next[..|out|] == out && next[|out|] == b[j]
    ensures Progress(a, b, next, i, j + 1)
  {
    MergeAdvances(a, b, out, i, j);
    assert next == out + [b[j]];
  }

  /** When one slice is used up the rest of the other follows. */
  lemma MergeRest(a: seq<Record>, b: seq<Record>, out: seq<Record>, i: nat, j: nat, x: seq<Record>, y: seq<Record>)
    requires Progress(a, b, out, i, j) && x == a[i..] && y == b[j..] && (x == [] || y == [])
    ensures (out + x) + y == Merge(a, b)
  {
    MergeEmpty(x, y);
    hide Merge;
    assert (out + x) + y == out + (x + y);
  }

  lemma MergeEmpty(x: seq<Record>, y: seq<Record>)
    requires x == [] || y == []
    ensures Merge(x, y) == x + y
  {
    assert x + y == if x == [] then y else x;
  }

  /** Either of the two loops that copy what is left of one slice. */
  method CopyRest(dst: array<Record>, k: nat, src: array<Record>, from: nat, n: nat)
    requires dst != src && k + n <= dst.Length && from + n <= src.Length
    modifies dst
    ensures dst[..k + n] == old(dst[..k]) + src[from..from + n]
  {
    var i := 0;
    while i < n
      invariant i <= n
      invariant dst[..k] == old(dst[..k]) && dst[k..k + i] == src[from..from + i]
    {
      dst[k + i] := src[from + i];
      i := i + 1;
    }
    assert dst[..k + n] == dst[..k] + dst[k..k + n];
  }

  /** The main loop of merge, up to the end of one slice. */
  method MergeWhileBoth(dst: array<Record>, src: array<Record>, la: nat, na: nat, lb: nat, nb: nat)
    returns (i: nat, j: nat)
    requires dst != src && la + na <= src.Length && lb + nb <= src.Length && na + nb == dst.Length
    modifies dst
    ensures i <= na && j <= nb && (i == na || j == nb)
    ensures Progress(src[la..la + na], src[lb..lb + nb], dst[..i + j], i, j)
  {
    hide Merge, Progress;
    i, j := 0, 0;
    var k := 0;
    ghost var a, b := src[la..la + na], src[lb..lb + nb];
    NothingYet(a, b);
    while i < na && j < nb
      invariant i <= na && j <= nb && k == i + j
      invariant Progress(a, b, dst[..k], i, j)
    {
      ghost var out := dst[..k];
      if src[la + i].timeMark < src[lb + j].timeMark {
        dst[k] := src[la + i];
        TakeLeft(a, b, out, i, j, dst[..k + 1]);
        k, i := k + 1, i + 1;
      } else {
        dst[k] := src[lb + j];
        TakeRight(a, b, out, i, j, dst[..k + 1]);
        k, j := k + 1, j + 1;
      }
    }
    assert src[la..la + na] == a && src[lb..lb + nb] == b;
  }

  /** merge(dst, a, na, b, nb), with a and b the slices of src from `la` and `lb`. */
  method MergeInto(dst: array<Record>, src: array<Record>, la: nat, na: nat, lb: nat, nb: nat)
    requires dst != src && la + na <= src.Length && lb + nb <= src.Length && na + nb == dst.Length
    modifies dst
    ensures dst[..] == Merge(src[la..la + na], src[lb..lb + nb])
  {
    hide Merge, Progress;
    ghost var s := src[..];
    var i, j := MergeWhileBoth(dst, src, la, na, lb, nb);
    ghost var a, b, out := s[la..la + na], s[lb..lb + nb], dst[..i + j];
    assert src[..] == s && src[la..la + na] == a && src[lb..lb + nb] == b;
    CopyRest(dst, i + j, src, la + i, na - i);
    assert src[..] == s && dst[..na + j] == out + s[la + i..la + na];
    CopyRest(dst, na + j, src, lb + j, nb - j);
    assert src[..] == s && dst[..na + nb] == (out + s[la + i..la + na]) + s[lb + j..lb + nb];
    assert src[la..la + na] == a && src[lb..lb + nb] == b && dst[..] == dst[..na + nb];
    MergeRest(a, b, out, i, j, s[la + i..la + na], s[lb + j..lb + nb]);
  }

  lemma NothingYet(a: seq<Record>, b: seq<Record>)
    ensures Progress(a, b, [], 0, 0)
  {
    assert a[0..] == a && b[0..] == b && [] + Merge(a, b) == Merge(a, b);
  }

  /** memcpy of all of tmp to base[left..]. */
  method CopyBack(base: array<Record>, left: nat, tmp: array<Record>)
    requires base != tmp && left + tmp.Length <= base.Length
    modifies base
    ensures base[..] == Put(old(base[..]), left, tmp[..])
  {
    ghost var was := base[..];
    var i := 0;
    while i < tmp.Length
      invariant i <= tmp.Length
      invariant forall x :: 0 <= x < i ==> base[left + x] == tmp[x]
      invariant forall x :: 0 <= x < base.Length && !(left <= x < left + i) ==> base[x] == was[x]
    {
      base[left + i] := tmp[i];
      i := i + 1;
    }
    assert base[..] == Put(was, left, tmp[..]);
  }

  /** Merge base[left..mid] with base[mid..right] through a temporary copy. */
  method MergeInPlace(base: array<Record>, left: nat, mid: nat, right: nat)
    requires left <= mid <= right <= base.Length
    modifies base
    ensures base[..] == Put(old(base[..]), left, Merge(old(base[left..mid]), old(base[mid..right])))
  {
    hide Merge, Put;
    var n1, n2 := mid - left, right - mid;
    ghost var was := base[..];
    if n1 > 0 && n2 > 0 {
      var tmp := new Record[n1 + n2](_ => Record(0.0, 0));
      MergeInto(tmp, base, left, n1, mid, n2);
      CopyBack(base, left, tmp);
    } else {
      NothingToMerge(was, left, mid, right);
      assert base[left..mid] == was[left..mid] && base[mid..right] == was[mid..right];
    }
  }

  lemma NothingToMerge(a: seq<Record>, left: nat, mid: nat, right: nat)
    requires left <= mid <= right <= |a| && (left == mid || mid == right)
    ensures Put(a, left, Merge(a[left..mid], a[mid..right])) == a
  {
    assert Merge(a[left..mid], a[mid..right]) == a[left..right];
    assert a == a[..left] + a[left..right] + a[right..];
  }

  // ----- the claim scans

  /** The scan of block_map: the first unsorted block, or -1. */
  method FirstUnclaimed(map_: array<bool>) returns (block: int)
    ensures -1 <= block < map_.Length
    ensures block < 0 ==> false !in map_[..]
    ensures block >= 0 ==> !map_[block] && forall c :: 0 <= c < block ==> map_[c]
  {
    for i := 0 to map_.Length
      invariant forall c :: 0 <= c < i ==> map_[c]
    {
      if !map_[i] {
        return i;
      }
    }
    return -1;
  }

  /** The scan of merge_map: the first unmerged pair that has a right run, or -1. */
  method FirstUnmerged(map_: array<bool>, step: nat) returns (block: int)
    requires step > 0
    ensures block < 0 ==> block == -1 && forall c: nat :: c + step < map_.Length && Aligned(c, 2 * step) ==> map_[c]
    ensures block >= 0 ==>
              && block + step < map_.Length && Aligned(block, 2 * step) && !map_[block]
              && forall c: nat :: c < block && Aligned(c, 2 * step) ==> map_[c]
  {
    var i := 0;
    while i + step < map_.Length
      invariant Aligned(i, 2 * step)
      invariant forall c: nat :: c < i && c < map_.Length && Aligned(c, 2 * step) ==> map_[c]
    {
      if !map_[i] {
        return i;
      }
      forall c: nat | c < i + 2 * step && c < map_.Length && Aligned(c, 2 * step) ensures map_[c] {
        if c > i {
          AlignedGap(i, c, 2 * step);
        }
      }
      i := i + 2 * step;
    }
    forall c: nat | c + step < map_.Length && Aligned(c, 2 * step) ensures map_[c] {
      assert c < i;
    }
    return -1;
  }

  // ----- the worker when it is the only thread

  /** How many records a block gets: fewer than r if the records run out. */
  function BlockCount(offset: nat, r: nat, records: nat): (count: nat)
    requires offset <= records
    ensures offset + count <= records && count <= r
  {
    if offset + r > records then records - offset else r
  }

  /** qsort on block b, with the clamp on the last block. */
  method SortOneBlock(base: array<Record>, r: nat, b: nat, n: nat, qs: seq<Record> -> seq<Record>)
    requires IsSort(qs) && b < n && Off(r, n) <= base.Length
    modifies base
    ensures base[..] == SortBlock(qs, old(base[..]), r, b)
  {
    OffIsProduct(r, b);
    OffIsProduct(r, b + 1);
    OffMonotone(r, b + 1, n);
    hide Off;
    var offset := b * r;
    var count := BlockCount(offset, r, base.Length);
    assert offset == Off(r, b) && offset + count == Off(r, b + 1);
    ghost var was := base[..];
    var slice := base[offset..offset + count];
    SortFacts(qs, slice);
    CutLength(was, r, b, b + 1);
    hide IsSort, Cut;
    var sorted := new Record[count](i requires 0 <= i < |qs(slice)| => qs(slice)[i]);
    assert sorted[..] == qs(slice);
    CopyBack(base, offset, sorted);
  }

  /** One claimed pair: the index arithmetic with its clamps, then the merge. */
  method MergeBlocks(base: array<Record>, r: nat, b: nat, step: nat, n: nat)
    requires b + 2 * step <= n && Off(r, n) <= base.Length
    modifies base
    ensures base[..] == MergePair(old(base[..]), r, b, step)
  {
    OffIsProduct(r, b);
    OffIsProduct(r, b + step);
    OffIsProduct(r, b + 2 * step);
    OffMonotone(r, b, b + step);
    OffMonotone(r, b + step, b + 2 * step);
    OffMonotone(r, b + 2 * step, n);
    hide Off, Merge;
    var left, mid, right := b * r, (b + step) * r, (b + step * 2) * r;
    mid := AtMost(mid, base.Length);
    right := AtMost(right, base.Length);
    ghost var was := base[..];
    assert base[left..mid] == Cut(was, r, b, b + step);
    assert base[mid..right] == Cut(was, r, b + step, b + 2 * step);
    MergeInPlace(base, left, mid, right);
  }

  function AtMost(x: nat, records: nat): (y: nat)
    ensures y <= records && (y == x || (y == records && x > records))
  {
    if x > records then records else x
  }

  lemma SortFromStep(qs: seq<Record> -> seq<Record>, a: seq<Record>, r: nat, b: nat, n: nat)
    requires b < n
    ensures SortFrom(qs, a, r, b, n) == SortFrom(qs, SortBlock(qs, a, r, b), r, b + 1, n)
  {
  }

  lemma SortFromEnd(qs: seq<Record> -> seq<Record>, a: seq<Record>, r: nat, n: nat)
    ensures SortFrom(qs, a, r, n, n) == a
  {
  }

  /** The claim loop over blocks. */
  method SortBlocksAlone(base: array<Record>, r: nat, n: nat, qs: seq<Record> -> seq<Record>)
    requires IsSort(qs) && Off(r, n) <= base.Length
    modifies base
    ensures base[..] == SortFrom(qs, old(base[..]), r, 0, n)
  {
    hide IsSort, Off, SortBlock, SortFrom;
    ghost var was := base[..];
    var blockMap := new bool[n](_ => false);
    ghost var done := 0;
    while true
      invariant 0 <= done <= n
      invariant forall c :: 0 <= c < n ==> blockMap[c] == (c < done)
      invariant SortFrom(qs, base[..], r, done, n) == SortFrom(qs, was, r, 0, n)
      decreases n - done
    {
      ghost var claimed := blockMap[..];
      assert done < n ==> !claimed[done] && false in claimed;
      var block := FirstUnclaimed(blockMap);
      assert blockMap[..] == claimed;
      if block < 0 {
        SortFromEnd(qs, base[..], r, n);
        break;
      }
      assert block == done;
      blockMap[block] := true;
      ghost var before := base[..];
      SortOneBlock(base, r, block, n, qs);
      SortFromStep(qs, before, r, done, n);
      done := done + 1;
    }
  }

  /** The claim loop of one merge round. */
  method MergeRoundAlone(base: array<Record>, r: nat, n: nat, step: nat, mergeMap: array<bool>)
    requires step > 0 && Aligned(n, 2 * step) && Off(r, n) <= base.Length && mergeMap.Length == n
    modifies base, mergeMap
    ensures base[..] == MergeFrom(old(base[..]), r, 0, step, n)
  {
    hide Off, Cut, Merge, MergePair;
    ghost var was := base[..];
    for m := 0 to n
      invariant forall c :: 0 <= c < m ==> !mergeMap[c]
      invariant base[..] == was
    {
      mergeMap[m] := false;
    }
    ghost var done: nat := 0;
    while true
      invariant done <= n && Aligned(done, 2 * step)
      invariant forall c: nat :: c < n && Aligned(c, 2 * step) ==> mergeMap[c] == (c < done)
      invariant MergeFrom(base[..], r, done, step, n) == MergeFrom(was, r, 0, step, n)
      decreases n - done
    {
      var block := FirstUnmerged(mergeMap, step);
      if block < 0 {
        if done < n {
          AlignedGap(done, n, 2 * step);
        }
        break;
      }
      assert block == done;
      AlignedGap(done, n, 2 * step);
      mergeMap[block] := true;
      MergeBlocks(base, r, block, step, n);
      done := done + 2 * step;
      forall c: nat | c < n && Aligned(c, 2 * step) ensures mergeMap[c] == (c < done) {
        if c > block {
          AlignedGap(block, c, 2 * step);
        }
      }
    }
  }

  /** worker() run by a single thread on all the blocks: an executable bottom-up merge sort. */
  method WorkerAlone(base: array<Record>, n: nat, ghost m: nat, qs: seq<Record> -> seq<Record>)
    requires IsSort(qs) && n == Pow2(m)
    modifies base
    ensures base[..] == AfterRound(qs, old(base[..]), n, m)
  {
    hide IsSort, Off, SortFrom, MergeFrom, AfterRound, Pow2, Aligned;
    var r := PerBlock(base.Length, n);
    OffCovered(base.Length, n);
    ghost var was := base[..];
    SortBlocksAlone(base, r, n, qs);
    AfterRoundUnfolds(qs, was, n, 0);
    var mergeMap := new bool[n](_ => false);
    var step := 1;
    ghost var k := 0;
    PowersOfTwo(0, m);
    while step < n
      invariant k <= m && step == Pow2(k) && mergeMap.Length == n && (k == m ==> step == n)
      invariant base[..] == AfterRound(qs, was, n, k)
      invariant fresh(mergeMap)
      decreases m - k
    {
      PowersOfTwo(k, m);
      MergeRoundAlone(base, r, n, step, mergeMap);
      AfterRoundUnfolds(qs, was, n, k + 1);
      k := k + 1;
      step := step * 2;
    }
    PowersOfTwo(k, m);
  }

  lemma PowersOfTwo(k: nat, m: nat)
    requires k <= m
    ensures Pow2(0) == 1 && Pow2(k + 1) == 2 * Pow2(k)
    ensures k < m <==> Pow2(k) < Pow2(m)
    ensures k < m ==> Aligned(Pow2(m), 2 * Pow2(k))
  {
    Pow2Monotone(k, m);
    if k < m {
      AlignedPow2(k + 1, m);
    }
  }

  lemma AfterRoundUnfolds(qs: seq<Record> -> seq<Record>, input: seq<Record>, n: nat, k: nat)
    requires n > 0
    ensures k == 0 ==> AfterRound(qs, input, n, 0) == SortFrom(qs, input, PerBlock(|input|, n), 0, n)
    ensures k > 0 ==>
              AfterRound(qs, input, n, k)
              == MergeFrom(AfterRound(qs, input, n, k - 1), PerBlock(|input|, n), 0, Pow2(k - 1), n)
  {
  }

  // ----- main: argument check and final merge

  /** The bitwise and of two's complement numbers. */
  function BitAnd(x: int, y: int): (z: int)
    decreases if x >= 0 then x else -1 - x
  {
    if x == 0 || y == 0 then 0
    else if x == -1 then y
    else if y == -1 then x
    else 2 * BitAnd(x / 2, y / 2) + (if x % 2 == 1 && y % 2 == 1 then 1 else 0)
  }

  /** The condition under which main goes on. */
  predicate ArgumentsAccepted(memsize: nat, pageSize: nat, blocks: int, threads: int)
    requires pageSize > 0
  {
    memsize % pageSize == 0 && BitAnd(blocks, blocks - 1) == 0 && blocks >= threads * 4
  }

  lemma {:induction false} BitAndSelf(x: nat)
    ensures BitAnd(x, x) == x
  {
    if x > 0 {
      BitAndSelf(x / 2);
    }
  }

  lemma {:induction false} BitAndNegative(x: int, y: int)
    requires x < 0 && y < 0
    ensures BitAnd(x, y) < 0
    decreases -1 - x
  {
    if x != -1 && y != -1 {
      BitAndNegative(x / 2, y / 2);
    }
  }

  lemma BitAndStep(x: nat)
    requires x > 0
    ensures x % 2 == 0 ==> BitAnd(x, x - 1) == 2 * BitAnd(x / 2, x / 2 - 1)
    ensures x % 2 == 1 ==> BitAnd(x, x - 1) == x - 1
  {
    if x % 2 == 0 {
      assert (x - 1) / 2 == x / 2 - 1;
    } else {
      assert (x - 1) / 2 == x / 2;
      BitAndSelf(x / 2);
    }
  }

  ghost predicate PowerOfTwo(x: int) {
    exists m: nat :: x == Pow2(m)
  }

  lemma Pow2Parity(m: nat)
    ensures m == 0 ==> Pow2(m) == 1
    ensures m > 0 ==> Pow2(m) > 1 && Pow2(m) % 2 == 0 && Pow2(m) / 2 == Pow2(m - 1)
  {
  }

  /** For every int, blocks & (blocks - 1) is zero exactly for zero and the powers of two. */
  lemma {:induction false} PowerOfTwoTest(blocks: int)
    ensures BitAnd(blocks, blocks - 1) == 0 <==> blocks == 0 || PowerOfTwo(blocks)
    decreases blocks
  {
    hide Pow2, BitAnd, PowerOfTwo;
    if blocks < 0 {
      BitAndNegative(blocks, blocks - 1);
      OnlyPositive(blocks);
    } else if blocks == 0 {
      BitAndZero();
    } else {
      BitAndStep(blocks);
      PowerOfTwoStep(blocks);
      if blocks % 2 == 0 {
        PowerOfTwoTest(blocks / 2);
      }
    }
  }

  lemma OnlyPositive(x: int)
    ensures PowerOfTwo(x) ==> x > 0
  {
  }

  lemma PowerOfTwoStep(x: nat)
    requires x > 0
    ensures PowerOfTwo(x) <==> x == 1 || (x % 2 == 0 && PowerOfTwo(x / 2))
  {
    if PowerOfTwo(x) {
      var m: nat :| x == Pow2(m);
      Pow2Parity(m);
      if m > 0 {
        assert x / 2 == Pow2(m - 1);
      }
    }
    Pow2Parity(0);
    assert x == 1 ==> x == Pow2(0);
    if x % 2 == 0 && PowerOfTwo(x / 2) {
      var h: nat :| x / 2 == Pow2(h);
      Pow2Parity(h + 1);
      assert x == Pow2(h + 1);
    }
  }

  lemma BitAndZero()
    ensures BitAnd(0, -1) == 0
  {
  }

  /** The workers are proved correct for these arguments, blocks being 2^m. */
  ghost predicate Proved(input: seq<Record>, qs: seq<Record> -> seq<Record>, blocks: int, threads: int, m: nat) {
    blocks >= 0 && threads >= 0 && Config(input, m, blocks, threads, qs).Valid()
  }

  lemma ProvedIff(input: seq<Record>, qs: seq<Record> -> seq<Record>, blocks: int, threads: int)
    requires IsSort(qs) && threads >= 1
    ensures (exists m: nat :: Proved(input, qs, blocks, threads, m)) <==> PowerOfTwo(blocks) && blocks >= 4 * threads
  {
    hide IsSort;
    if PowerOfTwo(blocks) && blocks >= 4 * threads {
      var m: nat :| blocks == Pow2(m);
      assert Proved(input, qs, blocks, threads, m);
    }
    if m: nat :| Proved(input, qs, blocks, threads, m) {
      assert blocks == Pow2(m);
    }
  }

  /** For all ints: with at least one thread the argument check lets through exactly the
      configurations the workers are proved for; with none, in which case nothing is started,
      also zero blocks. */
  lemma AcceptedIffValid(
      input: seq<Record>, qs: seq<Record> -> seq<Record>, blocks: int, threads: int, memsize: nat, pageSize: nat)
    requires pageSize > 0 && IsSort(qs)
    ensures ArgumentsAccepted(memsize, pageSize, blocks, threads) <==>
            && memsize % pageSize == 0
            && if threads >= 1 then exists m: nat :: Proved(input, qs, blocks, threads, m)
               else blocks >= 4 * threads && (blocks == 0 || PowerOfTwo(blocks))
  {
    hide IsSort, BitAnd, Proved, PowerOfTwo;
    PowerOfTwoTest(blocks);
    if threads >= 1 {
      ProvedIff(input, qs, blocks, threads);
    }
  }

  /** main's merge of the two halves after the workers have returned. */
  function FinalMerge(a: seq<Record>, threads: nat, blocks: nat): (f: seq<Record>) {
    if threads > 1 && blocks > 1 then Merge(a[..|a| / 2], a[|a| / 2..]) else a
  }

  method MergeHalves(base: array<Record>, threads: nat, blocks: nat)
    modifies base
    ensures base[..] == FinalMerge(old(base[..]), threads, blocks)
    ensures base[..] == if threads > 1 && blocks > 1
                        then Merge(old(base[..base.Length / 2]), old(base[base.Length / 2..])) else old(base[..])
  {
    if threads > 1 && blocks > 1 {
      hide Merge;
      ghost var was := base[..];
      var mid := base.Length / 2;
      assert base[0..mid] == was[..mid] && base[mid..base.Length] == was[mid..];
      MergeInPlace(base, 0, mid, base.Length);
      assert base[..] == Merge(was[..mid], was[mid..]);
    }
  }

  /** With more than one thread and block, two sorted halves become one sorted array in which, for
      every time mark, the records of the second half come before those of the first, each group
      in its own order; halves that are not sorted are still interleaved in order. Otherwise the
      array stays as it is. */
  lemma FinalMergeJoinsHalves(a: seq<Record>, threads: nat, blocks: nat)
    ensures threads > 1 && blocks > 1 ==> Interleaves(FinalMerge(a, threads, blocks), a[..|a| / 2], a[|a| / 2..])
    ensures threads > 1 && blocks > 1 && Sorted(a[..|a| / 2]) && Sorted(a[|a| / 2..]) ==>
              && Sorted(FinalMerge(a, threads, blocks))
              && forall k: real ::
                   WithKey(FinalMerge(a, threads, blocks), k) == WithKey(a[|a| / 2..], k) + WithKey(a[..|a| / 2], k)
    ensures threads <= 1 || blocks <= 1 ==> FinalMerge(a, threads, blocks) == a
  {
    var x, y := a[..|a| / 2], a[|a| / 2..];
    hide Merge, WithKey, Interleaves;
    MergeInterleaves(x, y);
    if Sorted(x) && Sorted(y) {
      MergeSorts(x, y);
      forall k: real ensures WithKey(Merge(x, y), k) == WithKey(y, k) + WithKey(x, k) {
        MergeTiesRightFirst(x, y, k);
      }
    }
  }

  /** On any array the final merge permutes; on a sorted one it changes no time mark. */
  lemma FinalMergeKeepsKeys(a: seq<Record>, threads: nat, blocks: nat)
    ensures Permutation(FinalMerge(a, threads, blocks), a)
    ensures Sorted(a) ==>
              Sorted(FinalMerge(a, threads, blocks)) && Keys(FinalMerge(a, threads, blocks)) == Keys(a)
  {
    var x, y := a[..|a| / 2], a[|a| / 2..];
    assert x + y == a;
    hide Keys, Merge;
    MergePermutes(x, y);
    if Sorted(a) {
      MergeSorts(x, y);
      SortedPermutationsShareKeys(FinalMerge(a, threads, blocks), a);
    }
  }
}
