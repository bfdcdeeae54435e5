/** The sequential bottom-up block merge sort that the worker threads of sort_index.c
    carry out together: sort every block, then merge neighbouring runs of 1, 2, 4, ...
    blocks. `AfterRound(.., k)` is the array after k merge rounds. */
module BottomUp {
  import opened IndexRecords

  // ----- block offsets

  /** Index of the first record of block b when every block holds r records. */
  function Off(r: nat, b: nat): (o: nat) {
    if b == 0 then 0 else Off(r, b - 1) + r
  }

  lemma {:induction false} OffIsProduct(r: nat, b: nat)
    ensures Off(r, b) == b * r
  {
    if b > 0 {
      OffIsProduct(r, b - 1);
    }
  }

  lemma {:induction false} OffMonotone(r: nat, b: nat, c: nat)
    requires b <= c
    ensures Off(r, b) <= Off(r, c)
  {
    if b < c {
      OffMonotone(r, b, c - 1);
    }
  }

  lemma {:induction false} OffStrict(r: nat, b: nat, c: nat)
    requires b < c && Off(r, b) >= Off(r, c)
    ensures r == 0
  {
    OffMonotone(r, b, c - 1);
  }

  lemma {:induction false} OffZero(b: nat)
    ensures Off(0, b) == 0
  {
    if b > 0 {
      OffZero(b - 1);
    }
  }

  lemma DivModFacts(x: nat, n: nat)
    requires n > 0
    ensures x / n * n + x % n == x && 0 <= x % n < n && x / n >= 0
  {
  }

  /** recs_per_block. */
  function PerBlock(records: nat, blocks: nat): (r: nat)
    requires blocks > 0
  {
    DivModFacts(records, blocks);
    records / blocks
  }

  /** How many records the blocks cover: blocks * (records / blocks). */
  function Covered(records: nat, blocks: nat): (p: nat)
    requires blocks > 0
    ensures p <= records && records - p < blocks
    ensures p == records <==> records % blocks == 0
  {
    DivModFacts(records, blocks);
    blocks * PerBlock(records, blocks)
  }

  lemma OffCovered(records: nat, blocks: nat)
    requires blocks > 0
    ensures Off(PerBlock(records, blocks), blocks) == Covered(records, blocks)
  {
    OffIsProduct(PerBlock(records, blocks), blocks);
  }

  // ----- powers of two and alignment

  function Pow2(k: nat): (p: nat)
    ensures p > 0
  {
    if k == 0 then 1 else 2 * Pow2(k - 1)
  }

  lemma {:induction false} Pow2Monotone(j: nat, k: nat)
    requires j <= k
    ensures Pow2(j) <= Pow2(k)
    ensures j < k ==> Pow2(j) < Pow2(k)
  {
    if j < k {
      Pow2Monotone(j, k - 1);
    }
  }

  /** c is a multiple of step. */
  predicate Aligned(c: nat, step: nat)
    requires step > 0
  {
    c == 0 || (c >= step && Aligned(c - step, step))
  }

  lemma {:induction false} AlignedIsMultiple(q: nat, step: nat)
    requires step > 0
    ensures Aligned(q * step, step)
  {
    if q > 0 {
      AlignedIsMultiple(q - 1, step);
      assert (q - 1) * step == q * step - step;
    }
  }

  /** Exactly the multiples are aligned. */
  lemma {:induction false} AlignedQuotient(c: nat, step: nat) returns (q: nat)
    requires step > 0 && Aligned(c, step)
    ensures c == q * step
  {
    if c == 0 {
      q := 0;
    } else {
      q := AlignedQuotient(c - step, step);
      assert (q + 1) * step == q * step + step;
      q := q + 1;
    }
  }

  lemma {:induction false} AlignedSum(c: nat, d: nat, step: nat)
    requires step > 0 && Aligned(c, step) && Aligned(d, step)
    ensures Aligned(c + d, step)
  {
    if d > 0 {
      AlignedSum(c, d - step, step);
    }
  }

  lemma {:induction false} AlignedHalf(c: nat, step: nat)
    requires step > 0 && Aligned(c, 2 * step)
    ensures Aligned(c, step) && Aligned(c + step, step)
  {
    if c > 0 {
      AlignedHalf(c - 2 * step, step);
    }
  }

  lemma {:induction false} AlignedGap(c: nat, d: nat, step: nat)
    requires step > 0 && Aligned(c, step) && Aligned(d, step) && c < d
    ensures c + step <= d
  {
    if c > 0 {
      AlignedGap(c - step, d - step, step);
    }
  }

  lemma {:induction false} AlignedBack(c: nat, d: nat, step: nat)
    requires step > 0 && Aligned(c, step) && Aligned(d, step) && c <= d
    ensures Aligned((d - c) as nat, step)
  {
    if c > 0 {
      AlignedBack(c - step, d - step, step);
    }
  }

  lemma {:induction false} AlignedPow2(j: nat, k: nat)
    requires j <= k
    ensures Aligned(Pow2(k), Pow2(j))
  {
    if j == k {
      assert Aligned(0, Pow2(j));
    } else {
      AlignedPow2(j, k - 1);
      AlignedSum(Pow2(k - 1), Pow2(k - 1), Pow2(j));
    }
  }

  // ----- slices of whole blocks

  /** Records of blocks b, b+1, ..., c-1, with the end clamped to the number of records. */
  function Cut(a: seq<Record>, r: nat, b: nat, c: nat): (s: seq<Record>) {
    var end := if Off(r, c) > |a| then |a| else Off(r, c);
    if Off(r, b) <= end then a[Off(r, b)..end] else []
  }

  /** a with s written over it from index lo on. */
  function Put(a: seq<Record>, lo: nat, s: seq<Record>): (p: seq<Record>)
    ensures |p| == |a|
  {
    if lo + |s| <= |a| then a[..lo] + s + a[lo + |s|..] else a
  }

  /** The clamp never shortens a slice of blocks that all lie below n. */
  lemma CutLength(a: seq<Record>, r: nat, b: nat, c: nat)
    requires b <= c && Off(r, c) <= |a|
    ensures |Cut(a, r, b, c)| == Off(r, c) - Off(r, b)
    ensures Cut(a, r, b, c) == a[Off(r, b)..Off(r, c)]
  {
    OffMonotone(r, b, c);
  }

  /** a and p may differ only at indices lo..hi-1. */
  ghost predicate SameOutside(a: seq<Record>, p: seq<Record>, lo: nat, hi: nat) {
    && |p| == |a|
    && (forall i :: 0 <= i < lo && i < |a| ==> p[i] == a[i])
    && (forall i :: hi <= i < |a| ==> p[i] == a[i])
  }

  /** A change inside blocks b..c-1 leaves every other block alone. */
  lemma CutOutside(a: seq<Record>, p: seq<Record>, r: nat, b: nat, c: nat, x: nat, y: nat)
    requires SameOutside(a, p, Off(r, b), Off(r, c))
    requires x <= y && (y <= b || c <= x)
    ensures Cut(p, r, x, y) == Cut(a, r, x, y)
  {
    OffMonotone(r, x, y);
    if y <= b {
      OffMonotone(r, y, b);
    } else {
      OffMonotone(r, c, x);
    }
    hide Off;
  }

  lemma TailOutside(a: seq<Record>, p: seq<Record>, r: nat, b: nat, c: nat, n: nat)
    requires SameOutside(a, p, Off(r, b), Off(r, c)) && c <= n && Off(r, n) <= |a|
    ensures p[Off(r, n)..] == a[Off(r, n)..]
  {
    OffMonotone(r, c, n);
    hide Off;
  }

  lemma PutOutside(a: seq<Record>, lo: nat, s: seq<Record>, from: nat, to: nat)
    requires from <= lo && lo + |s| <= to
    ensures SameOutside(a, Put(a, lo, s), from, to)
  {
  }

  lemma PutInside(a: seq<Record>, lo: nat, s: seq<Record>)
    requires lo + |s| <= |a|
    ensures Put(a, lo, s)[lo..lo + |s|] == s
  {
  }

  lemma CutPut(a: seq<Record>, r: nat, b: nat, c: nat, s: seq<Record>)
    requires b <= c && Off(r, c) <= |a| && |s| == Off(r, c) - Off(r, b)
    ensures Cut(Put(a, Off(r, b), s), r, b, c) == s
    ensures SameOutside(a, Put(a, Off(r, b), s), Off(r, b), Off(r, c))
  {
    OffMonotone(r, b, c);
    hide Off;
    PutInside(a, Off(r, b), s);
    PutOutside(a, Off(r, b), s, Off(r, b), Off(r, c));
  }

  lemma PutPermutes(a: seq<Record>, r: nat, b: nat, c: nat, s: seq<Record>)
    requires b <= c && Off(r, c) <= |a| && Permutation(s, Cut(a, r, b, c))
    ensures |s| == Off(r, c) - Off(r, b)
    ensures Permutation(Put(a, Off(r, b), s), a)
  {
    CutLength(a, r, b, c);
    SameLength(s, Cut(a, r, b, c));
    var lo, hi := Off(r, b), Off(r, c);
    OffMonotone(r, b, c);
    assert a == a[..lo] + a[lo..hi] + a[hi..];
  }

  // ----- arrays that agree run by run are equal

  ghost predicate SameRuns(a: seq<Record>, b: seq<Record>, r: nat, step: nat, n: nat)
    requires step > 0
  {
    forall c: nat :: c < n && Aligned(c, step) ==> Cut(a, r, c, c + step) == Cut(b, r, c, c + step)
  }

  lemma PrefixSplit(a: seq<Record>, r: nat, d: nat, c: nat)
    requires d <= c && Off(r, c) <= |a|
    ensures Off(r, d) <= Off(r, c)
    ensures a[..Off(r, c)] == a[..Off(r, d)] + Cut(a, r, d, c)
  {
    OffMonotone(r, d, c);
    hide Off;
    assert Cut(a, r, d, c) == a[Off(r, d)..Off(r, c)];
  }

  lemma {:induction false} SamePrefix(a: seq<Record>, b: seq<Record>, r: nat, step: nat, n: nat, c: nat)
    requires step > 0 && Aligned(c, step) && c <= n && Off(r, n) <= |a| && |a| == |b|
    requires SameRuns(a, b, r, step, n)
    ensures Off(r, c) <= |a| && a[..Off(r, c)] == b[..Off(r, c)]
  {
    OffMonotone(r, c, n);
    hide Cut;
    if c > 0 {
      var d := c - step;
      SamePrefix(a, b, r, step, n, d);
      PrefixSplit(a, r, d, c);
      PrefixSplit(b, r, d, c);
      assert Cut(a, r, d, d + step) == Cut(b, r, d, d + step);
    }
  }

  lemma SameArray(a: seq<Record>, b: seq<Record>, r: nat, step: nat, n: nat)
    requires step > 0 && Aligned(n, step) && Off(r, n) <= |a| && |a| == |b|
    requires SameRuns(a, b, r, step, n)
    requires a[Off(r, n)..] == b[Off(r, n)..]
    ensures a == b
  {
    SamePrefix(a, b, r, step, n, n);
    assert a == a[..Off(r, n)] + a[Off(r, n)..];
    assert b == b[..Off(r, n)] + b[Off(r, n)..];
  }

  // ----- the block-sorting phase

  function SortBlock(qs: seq<Record> -> seq<Record>, a: seq<Record>, r: nat, b: nat): (p: seq<Record>)
    ensures |p| == |a|
  {
    Put(a, Off(r, b), qs(Cut(a, r, b, b + 1)))
  }

  /** Sort blocks b, b+1, ..., n-1 in turn. */
  function SortFrom(qs: seq<Record> -> seq<Record>, a: seq<Record>, r: nat, b: nat, n: nat): (p: seq<Record>)
    ensures |p| == |a|
    decreases n - b
  {
    if b >= n then a else SortFrom(qs, SortBlock(qs, a, r, b), r, b + 1, n)
  }

  lemma SortBlockAt(qs: seq<Record> -> seq<Record>, a: seq<Record>, r: nat, b: nat, n: nat, i: nat)
    requires IsSort(qs) && b < n && Off(r, n) <= |a| && i < n
    ensures Cut(SortBlock(qs, a, r, b), r, i, i + 1)
         == if i == b then qs(Cut(a, r, i, i + 1)) else Cut(a, r, i, i + 1)
    ensures SortBlock(qs, a, r, b)[Off(r, n)..] == a[Off(r, n)..]
    ensures Permutation(SortBlock(qs, a, r, b), a)
  {
    hide IsSort, Cut, Put, SameOutside, Permutation;
    OffMonotone(r, b + 1, n);
    var s := qs(Cut(a, r, b, b + 1));
    SortFacts(qs, Cut(a, r, b, b + 1));
    PutPermutes(a, r, b, b + 1, s);
    CutPut(a, r, b, b + 1, s);
    TailOutside(a, SortBlock(qs, a, r, b), r, b, b + 1, n);
    if i != b {
      CutOutside(a, SortBlock(qs, a, r, b), r, b, b + 1, i, i + 1);
    }
  }

  lemma {:induction false} SortFromAt(qs: seq<Record> -> seq<Record>, a: seq<Record>, r: nat, b: nat, n: nat, i: nat)
    requires IsSort(qs) && b <= n && Off(r, n) <= |a| && i < n
    ensures Cut(SortFrom(qs, a, r, b, n), r, i, i + 1)
         == if i < b then Cut(a, r, i, i + 1) else qs(Cut(a, r, i, i + 1))
    ensures SortFrom(qs, a, r, b, n)[Off(r, n)..] == a[Off(r, n)..]
    ensures Permutation(SortFrom(qs, a, r, b, n), a)
    decreases n - b
  {
    hide IsSort, Cut, Off, SortBlock;
    if b < n {
      SortBlockAt(qs, a, r, b, n, i);
      SortFromAt(qs, SortBlock(qs, a, r, b), r, b + 1, n, i);
    }
  }

  // ----- one merge round

  /** The two runs of `step` blocks starting at block b, merged in place. */
  function MergePair(a: seq<Record>, r: nat, b: nat, step: nat): (p: seq<Record>)
    ensures |p| == |a|
  {
    Put(a, Off(r, b), Merged(a, r, b, step))
  }

  function Merged(a: seq<Record>, r: nat, b: nat, step: nat): (s: seq<Record>) {
    Merge(Cut(a, r, b, b + step), Cut(a, r, b + step, b + 2 * step))
  }

  /** Merge the pairs that start at b, b + 2*step, ... while a right run exists below n. */
  function MergeFrom(a: seq<Record>, r: nat, b: nat, step: nat, n: nat): (p: seq<Record>)
    requires step > 0
    ensures |p| == |a|
    decreases n - b
  {
    if b + step >= n then a else MergeFrom(MergePair(a, r, b, step), r, b + 2 * step, step, n)
  }

  lemma CutSplit(a: seq<Record>, r: nat, b: nat, c: nat, d: nat)
    requires b <= c <= d && Off(r, d) <= |a|
    ensures Cut(a, r, b, c) + Cut(a, r, c, d) == Cut(a, r, b, d)
  {
    OffMonotone(r, b, c);
    OffMonotone(r, c, d);
    hide Off;
  }

  lemma MergedPermutes(a: seq<Record>, r: nat, b: nat, step: nat)
    requires Off(r, b + 2 * step) <= |a|
    ensures Permutation(Merged(a, r, b, step), Cut(a, r, b, b + 2 * step))
    ensures |Merged(a, r, b, step)| == Off(r, b + 2 * step) - Off(r, b)
  {
    hide Cut, Off, Merge, Permutation;
    var x, y, z := Cut(a, r, b, b + step), Cut(a, r, b + step, b + 2 * step), Cut(a, r, b, b + 2 * step);
    assert x + y == z by {
      CutSplit(a, r, b, b + step, b + 2 * step);
    }
    assert |z| == Off(r, b + 2 * step) - Off(r, b) by {
      CutLength(a, r, b, b + 2 * step);
    }
    MergePermutes(x, y);
    assert |z| == |x| + |y|;
  }

  lemma MergePairAt(a: seq<Record>, r: nat, b: nat, step: nat, n: nat, c: nat)
    requires step > 0 && Aligned(b, 2 * step) && Aligned(n, 2 * step) && b < n && Off(r, n) <= |a|
    requires Aligned(c, 2 * step) && c < n
    ensures b == c ==> Cut(MergePair(a, r, b, step), r, c, c + 2 * step) == Merged(a, r, c, step)
    ensures b != c ==> Merged(MergePair(a, r, b, step), r, c, step) == Merged(a, r, c, step)
    ensures b != c ==> Cut(MergePair(a, r, b, step), r, c, c + 2 * step) == Cut(a, r, c, c + 2 * step)
    ensures MergePair(a, r, b, step)[Off(r, n)..] == a[Off(r, n)..]
    ensures Permutation(MergePair(a, r, b, step), a)
  {
    hide Cut, Put, Merge, Off, Permutation, SameOutside;
    AlignedGap(b, n, 2 * step);
    var d, s := b + 2 * step, Merged(a, r, b, step);
    OffMonotone(r, d, n);
    MergedPermutes(a, r, b, step);
    PutPermutes(a, r, b, d, s);
    CutPut(a, r, b, d, s);
    var p := MergePair(a, r, b, step);
    TailOutside(a, p, r, b, d, n);
    if b != c {
      if c < b {
        AlignedGap(c, b, 2 * step);
      } else {
        AlignedGap(b, c, 2 * step);
      }
      CutOutside(a, p, r, b, d, c, c + 2 * step);
      CutOutside(a, p, r, b, d, c, c + step);
      CutOutside(a, p, r, b, d, c + step, c + 2 * step);
    }
  }

  lemma {:induction false} MergeFromAt(a: seq<Record>, r: nat, b: nat, step: nat, n: nat, c: nat)
    requires step > 0 && Aligned(b, 2 * step) && Aligned(n, 2 * step) && b <= n && Off(r, n) <= |a|
    requires Aligned(c, 2 * step) && c < n
    ensures Cut(MergeFrom(a, r, b, step, n), r, c, c + 2 * step)
         == if c < b then Cut(a, r, c, c + 2 * step) else Merged(a, r, c, step)
    ensures MergeFrom(a, r, b, step, n)[Off(r, n)..] == a[Off(r, n)..]
    ensures Permutation(MergeFrom(a, r, b, step, n), a)
    decreases n - b
  {
    hide Cut, Put, Merged, Off, MergePair;
    if b < n {
      AlignedGap(b, n, 2 * step);
      MergePairAt(a, r, b, step, n, c);
      MergeFromAt(MergePair(a, r, b, step), r, b + 2 * step, step, n, c);
      if b < c {
        AlignedGap(b, c, 2 * step);
      }
    }
  }

  // ----- the whole sort

  /** The array after the block sorts and k merge rounds. */
  function AfterRound(qs: seq<Record> -> seq<Record>, input: seq<Record>, blocks: nat, k: nat): (a: seq<Record>)
    requires blocks > 0
    ensures |a| == |input|
  {
    var r := PerBlock(|input|, blocks);
    if k == 0 then SortFrom(qs, input, r, 0, blocks)
    else MergeFrom(AfterRound(qs, input, blocks, k - 1), r, 0, Pow2(k - 1), blocks)
  }

  lemma CutIsSlice(a: seq<Record>, r: nat, b: nat, c: nat, lo: nat, hi: nat)
    requires b <= c && Off(r, c) <= |a| && lo == b * r && hi == c * r
    ensures lo <= hi <= |a| && Cut(a, r, b, c) == a[lo..hi]
  {
    CutLength(a, r, b, c);
    OffMonotone(r, b, c);
    OffIsProduct(r, b);
    OffIsProduct(r, c);
  }

  /** The first phase by array indices: with records / blocks records per block, block b becomes
      its own sort. */
  lemma BlockBySlice(
      qs: seq<Record> -> seq<Record>, input: seq<Record>, n: nat, r: nat, b: nat, lo: nat, hi: nat)
    requires IsSort(qs) && b < n && r == |input| / n && lo == b * r && hi == (b + 1) * r
    ensures lo <= hi <= |input| && AfterRound(qs, input, n, 0)[lo..hi] == qs(input[lo..hi])
  {
    hide IsSort, Cut, Off, SortFrom;
    OffCovered(|input|, n);
    OffMonotone(r, b + 1, n);
    SortFromAt(qs, input, r, 0, n, b);
    CutIsSlice(input, r, b, b + 1, lo, hi);
    CutIsSlice(AfterRound(qs, input, n, 0), r, b, b + 1, lo, hi);
  }

  lemma PairByCuts(
      qs: seq<Record> -> seq<Record>, input: seq<Record>, n: nat, m: nat, r: nat, k: nat, c: nat, s: nat)
    requires IsSort(qs) && n == Pow2(m) && r == |input| / n && s == Pow2(k)
    requires k < m && c < n && Aligned(c, 2 * s)
    ensures Off(r, c + 2 * s) <= |input|
    ensures Cut(AfterRound(qs, input, n, k + 1), r, c, c + 2 * s) == Merged(AfterRound(qs, input, n, k), r, c, s)
  {
    hide IsSort, Cut, Off, MergeFrom, AfterRound, Merged, Aligned, Pow2, Covered;
    RoundUnfolds(qs, input, n, k);
    RunsAlign(n, m, k);
    OffCovered(|input|, n);
    AlignedGap(c, n, 2 * s);
    OffMonotone(r, c + 2 * s, n);
    MergeFromAt(AfterRound(qs, input, n, k), r, 0, s, n, c);
  }

  lemma RoundUnfolds(qs: seq<Record> -> seq<Record>, input: seq<Record>, n: nat, k: nat)
    requires n > 0
    ensures AfterRound(qs, input, n, k + 1)
            == MergeFrom(AfterRound(qs, input, n, k), PerBlock(|input|, n), 0, Pow2(k), n)
  {
    hide MergeFrom, PerBlock;
  }

  lemma RunsAlign(n: nat, m: nat, k: nat)
    requires n == Pow2(m) && k < m
    ensures Aligned(0, 2 * Pow2(k)) && Aligned(n, 2 * Pow2(k))
  {
    AlignedPow2(k + 1, m);
  }

  lemma MergedBySlices(a: seq<Record>, r: nat, c: nat, s: nat, left: nat, mid: nat, right: nat)
    requires Off(r, c + 2 * s) <= |a|
    requires left == c * r && mid == (c + s) * r && right == (c + 2 * s) * r
    ensures left <= mid <= right <= |a| && Merged(a, r, c, s) == Merge(a[left..mid], a[mid..right])
  {
    hide Cut, Off, Merge;
    OffMonotone(r, c + s, c + 2 * s);
    CutIsSlice(a, r, c, c + s, left, mid);
    CutIsSlice(a, r, c + s, c + 2 * s, mid, right);
  }

  /** Round k by array indices: the s = 2^k blocks from block c on, up to mid, and the s blocks
      after them, up to right, become their merge, the first ones as its left slice. */
  lemma RoundBySlice(
      qs: seq<Record> -> seq<Record>, input: seq<Record>, n: nat, m: nat, r: nat, k: nat, c: nat, s: nat,
      left: nat, mid: nat, right: nat)
    requires IsSort(qs) && n == Pow2(m) && r == |input| / n && s == Pow2(k)
    requires k < m && c < n && Aligned(c, 2 * s)
    requires left == c * r && mid == (c + s) * r && right == (c + 2 * s) * r
    ensures left <= mid <= right <= |input|
    ensures AfterRound(qs, input, n, k + 1)[left..right]
            == Merge(AfterRound(qs, input, n, k)[left..mid], AfterRound(qs, input, n, k)[mid..right])
  {
    hide IsSort, Cut, Off, AfterRound, Pow2, Merge, Aligned, Merged;
    PairByCuts(qs, input, n, m, r, k, c, s);
    MergedBySlices(AfterRound(qs, input, n, k), r, c, s, left, mid, right);
    CutIsSlice(AfterRound(qs, input, n, k + 1), r, c, c + 2 * s, left, right);
  }

  /** Every run of `step` blocks below n is sorted. */
  ghost predicate RunsSorted(a: seq<Record>, r: nat, step: nat, n: nat)
    requires step > 0
  {
    forall c: nat :: c < n && Aligned(c, step) ==> Sorted(Cut(a, r, c, c + step))
  }

  lemma SortedBlocks(qs: seq<Record> -> seq<Record>, a: seq<Record>, r: nat, n: nat)
    requires IsSort(qs) && n > 0 && Off(r, n) <= |a|
    ensures RunsSorted(SortFrom(qs, a, r, 0, n), r, 1, n)
    ensures Permutation(SortFrom(qs, a, r, 0, n), a)
    ensures SortFrom(qs, a, r, 0, n)[Off(r, n)..] == a[Off(r, n)..]
  {
    SortFromAt(qs, a, r, 0, n, 0);
    forall c: nat | c < n && Aligned(c, 1) ensures Sorted(Cut(SortFrom(qs, a, r, 0, n), r, c, c + 1)) {
      SortFromAt(qs, a, r, 0, n, c);
      SortFacts(qs, Cut(a, r, c, c + 1));
    }
  }

  lemma MergedRunsSorted(a: seq<Record>, r: nat, step: nat, n: nat)
    requires step > 0 && n > 0 && Aligned(n, 2 * step) && Off(r, n) <= |a| && RunsSorted(a, r, step, n)
    ensures RunsSorted(MergeFrom(a, r, 0, step, n), r, 2 * step, n)
    ensures Permutation(MergeFrom(a, r, 0, step, n), a)
    ensures MergeFrom(a, r, 0, step, n)[Off(r, n)..] == a[Off(r, n)..]
  {
    hide Cut, Off, MergeFrom, Sorted, Merge, Permutation;
    assert Aligned(0, 2 * step);
    MergeFromAt(a, r, 0, step, n, 0);
    forall c: nat | c < n && Aligned(c, 2 * step)
      ensures Sorted(Cut(MergeFrom(a, r, 0, step, n), r, c, c + 2 * step))
    {
      MergeFromAt(a, r, 0, step, n, c);
      AlignedHalf(c, step);
      AlignedGap(c, n, 2 * step);
      MergeSorts(Cut(a, r, c, c + step), Cut(a, r, c + step, c + 2 * step));
    }
  }

  /** a arranges input into sorted runs of `step` blocks and leaves the uncovered tail alone. */
  ghost predicate SortedInRuns(a: seq<Record>, input: seq<Record>, r: nat, step: nat, n: nat)
    requires step > 0
  {
    && |a| == |input| && Off(r, n) <= |a|
    && RunsSorted(a, r, step, n)
    && Permutation(a, input)
    && a[Off(r, n)..] == input[Off(r, n)..]
  }

  lemma {:induction false} AfterRoundSortsRuns(
      qs: seq<Record> -> seq<Record>, input: seq<Record>, n: nat, m: nat, k: nat)
    requires IsSort(qs) && k <= m && n == Pow2(m)
    ensures SortedInRuns(AfterRound(qs, input, n, k), input, PerBlock(|input|, n), Pow2(k), n)
  {
    OffCovered(|input|, n);
    if k == 0 {
      SortedBlocks(qs, input, PerBlock(|input|, n), n);
    } else {
      AfterRoundSortsRuns(qs, input, n, m, k - 1);
      AlignedPow2(k, m);
      MergedRunsSorted(AfterRound(qs, input, n, k - 1), PerBlock(|input|, n), Pow2(k - 1), n);
    }
  }

  lemma OneRun(a: seq<Record>, r: nat, n: nat)
    requires n > 0 && RunsSorted(a, r, n, n) && Off(r, n) <= |a|
    ensures Sorted(a[..Off(r, n)])
  {
    assert Aligned(0, n);
    assert Cut(a, r, 0, 0 + n) == a[..Off(r, n)];
  }

  /** All m rounds: a permutation whose first blocks*(records/blocks) records are sorted,
      with the remaining records untouched. */
  lemma BottomUpSorts(qs: seq<Record> -> seq<Record>, input: seq<Record>, n: nat, m: nat)
    requires IsSort(qs) && n == Pow2(m)
    ensures var p, a := Covered(|input|, n), AfterRound(qs, input, n, m);
            && Permutation(a, input)
            && Sorted(a[..p])
            && a[p..] == input[p..]
  {
    hide AfterRound, Permutation, Off, IsSort, RunsSorted, Sorted;
    AfterRoundSortsRuns(qs, input, n, m, m);
    OffCovered(|input|, n);
    OneRun(AfterRound(qs, input, n, m), PerBlock(|input|, n), n);
  }
}
