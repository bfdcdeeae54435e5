/** Index records, the key order the sort uses, and the two-way merge of sort_index.c.

    `Merge` is the value the array method SortIndex.MergeInto computes. It is pinned down
    independently by MergeIsTheOnlyOne: it is the one sorted interleaving of two sorted
    slices in which, for equal time marks, the right slice comes first. */
module IndexRecords {

  // time_mark is modelled as an exact ordered key (no NaN); recno rides along.
  datatype Record = Record(timeMark: real, recno: nat)

  /** The three-way comparison handed to qsort. */
  function Compare(a: Record, b: Record): (r: int) {
    (if a.timeMark > b.timeMark then 1 else 0) - (if a.timeMark < b.timeMark then 1 else 0)
  }

  /** The comparison is minus one, zero or one as the time marks are in ascending order, equal or
      in descending order; so it is antisymmetric, and zero exactly on equal time marks. */
  lemma CompareOrders(a: Record, b: Record)
    ensures Compare(a, b) == -1 <==> a.timeMark < b.timeMark
    ensures Compare(a, b) == 0 <==> a.timeMark == b.timeMark
    ensures Compare(a, b) == 1 <==> a.timeMark > b.timeMark
    ensures Compare(b, a) == 0 - Compare(a, b)
  {
  }

  ghost predicate Sorted(s: seq<Record>) {
    forall i, j :: 0 <= i < j < |s| ==> s[i].timeMark <= s[j].timeMark
  }

  ghost predicate Permutation(a: seq<Record>, b: seq<Record>) {
    multiset(a) == multiset(b)
  }

  /** What any qsort call promises: a permutation that Compare never finds out of order. */
  ghost predicate IsSort(f: seq<Record> -> seq<Record>) {
    forall s: seq<Record> ::
      Permutation(f(s), s) && forall i, j :: 0 <= i < j < |f(s)| ==> Compare(f(s)[i], f(s)[j]) <= 0
  }

  lemma SortFacts(f: seq<Record> -> seq<Record>, s: seq<Record>)
    requires IsSort(f)
    ensures |f(s)| == |s| && Permutation(f(s), s) && Sorted(f(s))
  {
    assert |multiset(f(s))| == |f(s)| && |multiset(s)| == |s|;
  }

  function Keys(s: seq<Record>): (k: seq<real>)
    ensures |k| == |s|
  {
    seq(|s|, i requires 0 <= i < |s| => s[i].timeMark)
  }

  /** The records of s whose time mark is k, in order. */
  function WithKey(s: seq<Record>, k: real): (r: seq<Record>) {
    if s == [] then [] else (if s[0].timeMark == k then [s[0]] else []) + WithKey(s[1..], k)
  }

  function Merge(a: seq<Record>, b: seq<Record>): (r: seq<Record>)
    ensures |r| == |a| + |b|
  {
    if a == [] then b
    else if b == [] then a
    else if a[0].timeMark < b[0].timeMark then [a[0]] + Merge(a[1..], b)
    else [b[0]] + Merge(a, b[1..])
  }

  // ----- merge keeps every record and sorts

  lemma {:induction false} MergePermutes(a: seq<Record>, b: seq<Record>)
    ensures Permutation(Merge(a, b), a + b)
  {
    if a == [] {
      assert a + b == b;
    } else if b == [] {
      assert a + b == a;
    } else if a[0].timeMark < b[0].timeMark {
      MergePermutes(a[1..], b);
      assert a + b == [a[0]] + (a[1..] + b);
    } else {
      MergePermutes(a, b[1..]);
      assert b == [b[0]] + b[1..];
    }
  }

  /** s is made of a and b, each in its own order. */
  ghost predicate Interleaves(s: seq<Record>, a: seq<Record>, b: seq<Record>)
    decreases |s|
  {
    if s == [] then a == [] && b == []
    else
      || (a != [] && s[0] == a[0] && Interleaves(s[1..], a[1..], b))
      || (b != [] && s[0] == b[0] && Interleaves(s[1..], a, b[1..]))
  }

  lemma {:induction false} InterleavesOne(a: seq<Record>)
    ensures Interleaves(a, a, []) && Interleaves(a, [], a)
  {
    if a != [] {
      InterleavesOne(a[1..]);
    }
  }

  /** Sorted or not, the merge keeps the order of both slices. */
  lemma {:induction false} MergeInterleaves(a: seq<Record>, b: seq<Record>)
    ensures Interleaves(Merge(a, b), a, b)
  {
    if a == [] || b == [] {
      InterleavesOne(a);
      InterleavesOne(b);
    } else if a[0].timeMark < b[0].timeMark {
      MergeInterleaves(a[1..], b);
      assert Merge(a, b)[1..] == Merge(a[1..], b);
    } else {
      MergeInterleaves(a, b[1..]);
      assert Merge(a, b)[1..] == Merge(a, b[1..]);
    }
  }

  lemma MergeMember(a: seq<Record>, b: seq<Record>, x: Record)
    requires x in Merge(a, b)
    ensures x in a || x in b
  {
    MergePermutes(a, b);
    assert x in multiset(Merge(a, b));
    assert x in multiset(a + b);
  }

  lemma PrependSorted(x: Record, s: seq<Record>)
    requires Sorted(s) && forall y | y in s :: x.timeMark <= y.timeMark
    ensures Sorted([x] + s)
  {
  }

  lemma {:induction false} MergeSorts(a: seq<Record>, b: seq<Record>)
    requires Sorted(a) && Sorted(b)
    ensures Sorted(Merge(a, b))
  {
    if a == [] || b == [] {
    } else if a[0].timeMark < b[0].timeMark {
      MergeSorts(a[1..], b);
      forall y | y in Merge(a[1..], b) ensures a[0].timeMark <= y.timeMark {
        MergeMember(a[1..], b, y);
      }
      PrependSorted(a[0], Merge(a[1..], b));
    } else {
      MergeSorts(a, b[1..]);
      forall y | y in Merge(a, b[1..]) ensures b[0].timeMark <= y.timeMark {
        MergeMember(a, b[1..], y);
      }
      PrependSorted(b[0], Merge(a, b[1..]));
    }
  }

  /** Such a function exists: merging the records in one by one. */
  function MergeAll(s: seq<Record>): (r: seq<Record>) {
    if s == [] then [] else Merge([s[0]], MergeAll(s[1..]))
  }

  lemma {:induction false} MergeAllSorts(s: seq<Record>)
    ensures Permutation(MergeAll(s), s) && Sorted(MergeAll(s))
  {
    if s != [] {
      var x, rest := [s[0]], MergeAll(s[1..]);
      MergeAllSorts(s[1..]);
      MergeSorts(x, rest);
      MergePermutes(x, rest);
      assert s == x + s[1..];
    }
  }

  lemma MergeAllIsSort()
    ensures IsSort(MergeAll)
  {
    forall s: seq<Record>
      ensures Permutation(MergeAll(s), s)
      ensures forall i, j :: 0 <= i < j < |MergeAll(s)| ==> Compare(MergeAll(s)[i], MergeAll(s)[j]) <= 0
    {
      MergeAllSorts(s);
    }
  }

  // ----- merging one record at a time

  /** One record moves from the two runs to the output; the output followed by the merge of the
      rest stays the same merge. */
  lemma MergeAdvances(x: seq<Record>, y: seq<Record>, tmp: seq<Record>, i: nat, j: nat)
    requires i <= |x| && j <= |y|
    ensures i < |x| && (j >= |y| || x[i].timeMark < y[j].timeMark) ==>
              (tmp + [x[i]]) + Merge(x[i + 1..], y[j..]) == tmp + Merge(x[i..], y[j..])
    ensures !(i < |x| && (j >= |y| || x[i].timeMark < y[j].timeMark)) && j < |y| ==>
              (tmp + [y[j]]) + Merge(x[i..], y[j + 1..]) == tmp + Merge(x[i..], y[j..])
    ensures i >= |x| && j >= |y| ==> tmp == tmp + Merge(x[i..], y[j..])
  {
    var a, b := x[i..], y[j..];
    if i < |x| {
      assert a == [x[i]] + x[i + 1..] && a[1..] == x[i + 1..];
    }
    if j < |y| {
      assert b == [y[j]] + y[j + 1..] && b[1..] == y[j + 1..];
    }
  }

  // ----- ties: the right slice comes first, and that determines the result

  lemma {:induction false} WithKeyNone(s: seq<Record>, k: real)
    requires forall x | x in s :: x.timeMark != k
    ensures WithKey(s, k) == []
  {
    if s != [] {
      assert s[0] in s;
      WithKeyNone(s[1..], k);
    }
  }

  lemma WithKeyCons(x: Record, s: seq<Record>, k: real)
    ensures WithKey([x] + s, k) == (if x.timeMark == k then [x] else []) + WithKey(s, k)
  {
    assert ([x] + s)[1..] == s;
  }

  lemma TakeLeftKeepsTies(x: Record, a: seq<Record>, b: seq<Record>, m: seq<Record>, k: real)
    requires WithKey(m, k) == WithKey(b, k) + WithKey(a, k)
    requires x.timeMark == k ==> WithKey(b, k) == []
    ensures WithKey([x] + m, k) == WithKey(b, k) + WithKey([x] + a, k)
  {
    WithKeyCons(x, m, k);
    WithKeyCons(x, a, k);
    hide WithKey;
  }

  lemma TakeRightKeepsTies(x: Record, a: seq<Record>, b: seq<Record>, m: seq<Record>, k: real)
    requires WithKey(m, k) == WithKey(b, k) + WithKey(a, k)
    ensures WithKey([x] + m, k) == WithKey([x] + b, k) + WithKey(a, k)
  {
    WithKeyCons(x, m, k);
    WithKeyCons(x, b, k);
    hide WithKey;
    assert [x] + (WithKey(b, k) + WithKey(a, k)) == ([x] + WithKey(b, k)) + WithKey(a, k);
  }

  lemma {:induction false} MergeTiesRightFirst(a: seq<Record>, b: seq<Record>, k: real)
    requires Sorted(a) && Sorted(b)
    ensures WithKey(Merge(a, b), k) == WithKey(b, k) + WithKey(a, k)
  {
    if a == [] || b == [] {
      assert WithKey([], k) == [];
    } else if a[0].timeMark < b[0].timeMark {
      var x, rest, m := a[0], a[1..], Merge(a[1..], b);
      MergeTiesRightFirst(rest, b, k);
      if x.timeMark == k {
        WithKeyNone(b, k);
      }
      assert a == [x] + rest && Merge(a, b) == [x] + m;
      hide WithKey, Merge, Sorted;
      TakeLeftKeepsTies(x, rest, b, m, k);
    } else {
      var x, rest, m := b[0], b[1..], Merge(a, b[1..]);
      MergeTiesRightFirst(a, rest, k);
      assert b == [x] + rest && Merge(a, b) == [x] + m;
      hide WithKey, Merge, Sorted;
      TakeRightKeepsTies(x, a, rest, m, k);
    }
  }

  lemma {:induction false} HeadIsFirstOfItsKey(s: seq<Record>, k: real)
    requires WithKey(s, k) != []
    ensures WithKey(s, k)[0] in s && WithKey(s, k)[0].timeMark == k
  {
    if s[0].timeMark != k {
      HeadIsFirstOfItsKey(s[1..], k);
    }
  }

  ghost predicate AgreeByKey(s: seq<Record>, t: seq<Record>) {
    forall k: real :: WithKey(s, k) == WithKey(t, k)
  }

  lemma HeadNotAbove(s: seq<Record>, t: seq<Record>)
    requires Sorted(t) && AgreeByKey(s, t) && s != []
    ensures t != [] && t[0].timeMark <= s[0].timeMark
    ensures t[0].timeMark == s[0].timeMark ==> t[0] == s[0]
  {
    var k := s[0].timeMark;
    assert WithKey(s, k)[0] == s[0];
    assert WithKey(t, k) == WithKey(s, k);
    HeadIsFirstOfItsKey(t, k);
  }

  lemma TailsAgree(s: seq<Record>, t: seq<Record>)
    requires AgreeByKey(s, t) && s != [] && t != [] && s[0] == t[0]
    ensures AgreeByKey(s[1..], t[1..])
  {
    forall k: real ensures WithKey(s[1..], k) == WithKey(t[1..], k) {
      assert WithKey(s, k) == WithKey(t, k);
      var h := if s[0].timeMark == k then [s[0]] else [];
      assert (h + WithKey(s[1..], k))[|h|..] == WithKey(s[1..], k);
      assert (h + WithKey(t[1..], k))[|h|..] == WithKey(t[1..], k);
    }
  }

  /** Two sorted sequences that agree key by key are equal. */
  lemma {:induction false} SortedByKeyUnique(s: seq<Record>, t: seq<Record>)
    requires Sorted(s) && Sorted(t) && AgreeByKey(s, t)
    ensures s == t
  {
    if s == [] {
      if t != [] {
        HeadNotAbove(t, s);
      }
    } else {
      HeadNotAbove(s, t);
      HeadNotAbove(t, s);
      TailsAgree(s, t);
      SortedByKeyUnique(s[1..], t[1..]);
      assert s == [s[0]] + s[1..] && t == [t[0]] + t[1..];
    }
  }

  /** For every key, s lists b's records with that key and then a's. */
  ghost predicate TiesRightFirst(s: seq<Record>, a: seq<Record>, b: seq<Record>) {
    forall k: real :: WithKey(s, k) == WithKey(b, k) + WithKey(a, k)
  }

  /** Merge is exactly the sorted interleaving that puts the right slice first on ties. */
  lemma MergeIsTheOnlyOne(a: seq<Record>, b: seq<Record>, s: seq<Record>)
    requires Sorted(a) && Sorted(b)
    ensures s == Merge(a, b) <==> Sorted(s) && TiesRightFirst(s, a, b)
  {
    var m := Merge(a, b);
    MergeSorts(a, b);
    forall k: real ensures WithKey(m, k) == WithKey(b, k) + WithKey(a, k) {
      MergeTiesRightFirst(a, b, k);
    }
    if Sorted(s) && TiesRightFirst(s, a, b) {
      forall k: real ensures WithKey(s, k) == WithKey(m, k) {
      }
      SortedByKeyUnique(s, m);
    }
  }

  // ----- the sequence of keys of a sorted array is determined by its records

  ghost predicate Ascending(x: seq<real>) {
    forall i, j :: 0 <= i < j < |x| ==> x[i] <= x[j]
  }

  lemma RemoveAt<T>(s: seq<T>, i: nat)
    requires i < |s|
    ensures multiset(s[..i] + s[i + 1..]) == multiset(s) - multiset{s[i]}
  {
    assert s == s[..i] + ([s[i]] + s[i + 1..]);
  }

  lemma LeastIsFirst(x: seq<real>, v: real)
    requires Ascending(x) && v in multiset(x)
    ensures x != [] && x[0] <= v
  {
    var i :| 0 <= i < |x| && x[i] == v;
  }

  lemma DropFirst<T>(x: seq<T>)
    requires x != []
    ensures multiset(x[1..]) == multiset(x) - multiset{x[0]}
  {
    RemoveAt(x, 0);
    assert x[..0] + x[0 + 1..] == x[1..];
  }

  lemma SameLength<T>(x: seq<T>, y: seq<T>)
    requires multiset(x) == multiset(y)
    ensures |x| == |y|
  {
    assert |multiset(x)| == |x| && |multiset(y)| == |y|;
  }

  lemma {:induction false} AscendingUnique(x: seq<real>, y: seq<real>)
    requires Ascending(x) && Ascending(y) && multiset(x) == multiset(y)
    ensures x == y
  {
    SameLength(x, y);
    if x != [] {
      assert x[0] == y[0] by {
        assert x[0] in multiset(x) && y[0] in multiset(y);
        LeastIsFirst(y, x[0]);
        LeastIsFirst(x, y[0]);
      }
      assert multiset(x[1..]) == multiset(y[1..]) by {
        DropFirst(x);
        DropFirst(y);
      }
      AscendingUnique(x[1..], y[1..]);
      assert x == [x[0]] + x[1..] && y == [y[0]] + y[1..];
    }
  }

  lemma KeysWithout(s: seq<Record>, i: nat)
    requires i < |s|
    ensures multiset(Keys(s)) == multiset(Keys(s[..i] + s[i + 1..])) + multiset{s[i].timeMark}
  {
    var k := Keys(s);
    assert k == k[..i] + ([k[i]] + k[i + 1..]);
    assert Keys(s[..i] + s[i + 1..]) == k[..i] + k[i + 1..];
  }

  lemma {:induction false} PermutationKeys(s: seq<Record>, t: seq<Record>)
    requires Permutation(s, t)
    ensures multiset(Keys(s)) == multiset(Keys(t))
  {
    hide Keys;
    SameLength(s, t);
    if s == [] {
      assert t == [];
    } else {
      assert s[0] in multiset(t);
      var i :| 0 <= i < |t| && t[i] == s[0];
      assert Permutation(s[..0] + s[0 + 1..], t[..i] + t[i + 1..]) by {
        RemoveAt(t, i);
        RemoveAt(s, 0);
      }
      PermutationKeys(s[..0] + s[0 + 1..], t[..i] + t[i + 1..]);
      KeysWithout(s, 0);
      KeysWithout(t, i);
    }
  }

  /** Sorted permutations of one array carry the same time marks at every index. */
  lemma SortedPermutationsShareKeys(s: seq<Record>, t: seq<Record>)
    requires Sorted(s) && Sorted(t) && Permutation(s, t)
    ensures Keys(s) == Keys(t)
  {
    PermutationKeys(s, t);
    AscendingUnique(Keys(s), Keys(t));
  }
}
