/** Generic sequence operations mirroring the JavaScript array methods the
    pages use: `filter`, `reduce`, `slice`, `reverse`, de-duplication through
    a `Set`, and the (stable) `sort` with a numeric comparator. */
module Seqs {

  // ---------------------------------------------------------------------------
  // filter and subsequences
  // ---------------------------------------------------------------------------

  /** The elements of `s` that satisfy `p`, in their original order. */
  function Filter<T(!new)>(s: seq<T>, p: T -> bool): (r: seq<T>)
    ensures |r| <= |s|
    ensures forall i :: 0 <= i < |r| ==> p(r[i])
    ensures forall x :: x in r <==> x in s && p(x)
  {
    if |s| == 0 then []
    else (if p(s[0]) then [s[0]] else []) + Filter(s[1..], p)
  }

  /** `a` is obtained from `b` by deleting elements: an order-preserving subsequence. */
  ghost predicate IsSubseq<T>(a: seq<T>, b: seq<T>)
    decreases |b|
  {
    if |a| == 0 then true
    else if |b| == 0 then false
    else (a[0] == b[0] && IsSubseq(a[1..], b[1..])) || IsSubseq(a, b[1..])
  }

  /** Every sequence is a subsequence of itself. */
  lemma {:induction false} SubseqRefl<T>(s: seq<T>)
    ensures IsSubseq(s, s)
    decreases |s|
  {
    if |s| > 0 {
      SubseqRefl(s[1..]);
    }
  }

  /** A filter keeps the survivors in their original relative order. */
  lemma {:induction false} FilterIsSubseq<T(!new)>(s: seq<T>, p: T -> bool)
    ensures IsSubseq(Filter(s, p), s)
    decreases |s|
  {
    if |s| > 0 {
      FilterIsSubseq(s[1..], p);
      var r := Filter(s, p);
      if p(s[0]) {
        assert r[0] == s[0] && r[1..] == Filter(s[1..], p);
      } else {
        assert r == Filter(s[1..], p);
      }
    }
  }

  /** Filtering with a stronger predicate yields a subsequence of filtering
      with a weaker one: tightening a condition never adds elements. */
  lemma {:induction false} FilterMonotone<T(!new)>(s: seq<T>, p: T -> bool, q: T -> bool)
    requires forall x :: p(x) ==> q(x)
    ensures IsSubseq(Filter(s, p), Filter(s, q))
    decreases |s|
  {
    if |s| > 0 {
      FilterMonotone(s[1..], p, q);
      var a, b := Filter(s, p), Filter(s, q);
      if p(s[0]) {
        assert a[0] == b[0] && a[1..] == Filter(s[1..], p) && b[1..] == Filter(s[1..], q);
      } else if q(s[0]) {
        assert a == Filter(s[1..], p);
        assert b[1..] == Filter(s[1..], q);
      } else {
        assert a == Filter(s[1..], p) && b == Filter(s[1..], q);
      }
    }
  }

  /** Filtering a sequence extended at the end extends the filtered sequence
      by that element exactly when it passes. */
  lemma {:induction false} FilterSnoc<T(!new)>(s: seq<T>, x: T, p: T -> bool)
    ensures Filter(s + [x], p) == Filter(s, p) + (if p(x) then [x] else [])
    decreases |s|
  {
    if |s| == 0 {
      assert s + [x] == [x];
      assert [x][1..] == [];
    } else {
      FilterSnoc(s[1..], x, p);
      var h := if p(s[0]) then [s[0]] else [];
      assert (s + [x])[0] == s[0];
      assert (s + [x])[1..] == s[1..] + [x];
      var t := if p(x) then [x] else [];
      assert Filter(s + [x], p) == h + Filter(s[1..] + [x], p);
      assert Filter(s, p) == h + Filter(s[1..], p);
      assert h + (Filter(s[1..], p) + t) == (h + Filter(s[1..], p)) + t;
    }
  }

  /** A filter whose predicate holds everywhere keeps the whole sequence. */
  lemma {:induction false} FilterAll<T(!new)>(s: seq<T>, p: T -> bool)
    requires forall i :: 0 <= i < |s| ==> p(s[i])
    ensures Filter(s, p) == s
    decreases |s|
  {
    if |s| > 0 {
      FilterAll(s[1..], p);
    }
  }

  // ---------------------------------------------------------------------------
  // reduce with `+`
  // ---------------------------------------------------------------------------

  /** `s.reduce((acc, x) => acc + f(x), 0)`: the left-to-right sum of `f`. */
  function Sum<T>(s: seq<T>, f: T -> real): real
  {
    if |s| == 0 then 0.0 else Sum(s[..|s| - 1], f) + f(s[|s| - 1])
  }

  /** The sum over a concatenation is the sum of the parts. */
  lemma {:induction false} SumAppend<T>(a: seq<T>, b: seq<T>, f: T -> real)
    ensures Sum(a + b, f) == Sum(a, f) + Sum(b, f)
    decreases |b|
  {
    if |b| == 0 {
      assert a + b == a;
    } else {
      var ab := a + b;
      assert ab[..|ab| - 1] == a + b[..|b| - 1];
      assert ab[|ab| - 1] == b[|b| - 1];
      SumAppend(a, b[..|b| - 1], f);
    }
  }

  /** A sum of non-negative terms is non-negative. */
  lemma {:induction false} SumNonNegative<T>(s: seq<T>, f: T -> real)
    requires forall i :: 0 <= i < |s| ==> f(s[i]) >= 0.0
    ensures Sum(s, f) >= 0.0
    decreases |s|
  {
    if |s| > 0 {
      SumNonNegative(s[..|s| - 1], f);
    }
  }

  /** The sum read from the front: first element plus the sum of the rest. */
  lemma SumCons<T>(s: seq<T>, f: T -> real)
    requires |s| > 0
    ensures Sum(s, f) == f(s[0]) + Sum(s[1..], f)
  {
    assert s == [s[0]] + s[1..];
    SumAppend([s[0]], s[1..], f);
    assert [s[0]][..0] == [];
  }

  // ---------------------------------------------------------------------------
  // slice and reverse
  // ---------------------------------------------------------------------------

  /** `s.slice(0, n)`: the first `min(n, |s|)` elements. */
  function Take<T>(s: seq<T>, n: nat): (r: seq<T>)
    ensures |r| == if |s| <= n then |s| else n
    ensures forall i :: 0 <= i < |r| ==> r[i] == s[i]
  {
    if |s| <= n then s else s[..n]
  }

  /** `[...s].reverse()`. */
  function Reverse<T>(s: seq<T>): (r: seq<T>)
    ensures |r| == |s|
    ensures forall i :: 0 <= i < |s| ==> r[i] == s[|s| - 1 - i]
  {
    if |s| == 0 then [] else [s[|s| - 1]] + Reverse(s[..|s| - 1])
  }

  // ---------------------------------------------------------------------------
  // de-duplication in first-seen order (`Array.from(new Set(s))`)
  // ---------------------------------------------------------------------------

  predicate NoDup<T(==)>(s: seq<T>)
  {
    forall i, j :: 0 <= i < j < |s| ==> s[i] != s[j]
  }

  /** The elements of `s` not in `seen`, each once, at the place it first occurs. */
  function DedupFrom<T(==,!new)>(s: seq<T>, seen: set<T>): (r: seq<T>)
    ensures NoDup(r)
    ensures forall x :: x in r <==> x in s && x !in seen
    ensures IsSubseq(r, s)
    decreases |s|
  {
    if |s| == 0 then []
    else if s[0] in seen then DedupFrom(s[1..], seen)
    else
      var rest := DedupFrom(s[1..], seen + {s[0]});
      assert ([s[0]] + rest)[1..] == rest;
      [s[0]] + rest
  }

  /** `Array.from(new Set(s))`: the distinct elements of `s` in first-seen order. */
  function Dedup<T(==,!new)>(s: seq<T>): (r: seq<T>)
    ensures NoDup(r)
    ensures forall x :: x in r <==> x in s
    ensures IsSubseq(r, s)
  {
    DedupFrom(s, {})
  }

  // ---------------------------------------------------------------------------
  // stable sort, descending by a numeric key
  // ---------------------------------------------------------------------------

  predicate SortedDesc<T>(s: seq<T>, key: T -> real)
  {
    forall i, j :: 0 <= i < j < |s| ==> key(s[i]) >= key(s[j])
  }

  /** Inserts `x` before the first element whose key is not larger, so that
      `x` precedes every element of equal key already in `s`. */
  function InsertDesc<T>(x: T, s: seq<T>, key: T -> real): (r: seq<T>)
    ensures |r| == |s| + 1
  {
    if |s| == 0 then [x]
    else if key(s[0]) <= key(x) then [x] + s
    else [s[0]] + InsertDesc(x, s[1..], key)
  }

  lemma {:induction false} InsertPerm<T>(x: T, s: seq<T>, key: T -> real)
    ensures multiset(InsertDesc(x, s, key)) == multiset(s) + multiset{x}
    decreases |s|
  {
    if |s| > 0 && key(s[0]) > key(x) {
      InsertPerm(x, s[1..], key);
      assert s == [s[0]] + s[1..];
    }
  }

  lemma {:induction false} InsertSorted<T>(x: T, s: seq<T>, key: T -> real)
    requires SortedDesc(s, key)
    ensures SortedDesc(InsertDesc(x, s, key), key)
    decreases |s|
  {
    if |s| > 0 && key(s[0]) > key(x) {
      var rest := InsertDesc(x, s[1..], key);
      InsertSorted(x, s[1..], key);
      InsertPerm(x, s[1..], key);
      forall j | 0 <= j < |rest|
        ensures key(s[0]) >= key(rest[j])
      {
        assert rest[j] in multiset(rest);
        if rest[j] != x {
          assert rest[j] in multiset(s[1..]);
          var k :| 0 <= k < |s[1..]| && s[1..][k] == rest[j];
          assert s[1 + k] == rest[j];
        }
      }
      var r := InsertDesc(x, s, key);
      assert r == [s[0]] + rest;
      forall i, j | 0 <= i < j < |r|
        ensures key(r[i]) >= key(r[j])
      {
        if i > 0 {
          assert r[i] == rest[i - 1] && r[j] == rest[j - 1];
        } else {
          assert r[j] == rest[j - 1];
        }
      }
    }
  }

  /** `[...s].sort((a, b) => key(b) - key(a))`. JavaScript's sort is stable,
      and a stable sort by a total preorder has exactly one result, so
      insertion sort describes it. */
  function SortDesc<T>(s: seq<T>, key: T -> real): (r: seq<T>)
    ensures |r| == |s|
    ensures SortedDesc(r, key)
    ensures multiset(r) == multiset(s)
  {
    if |s| == 0 then []
    else
      var rest := SortDesc(s[1..], key);
      InsertSorted(s[0], rest, key);
      InsertPerm(s[0], rest, key);
      assert s == [s[0]] + s[1..];
      InsertDesc(s[0], rest, key)
  }

  /** Dropping the first element keeps a sequence free of duplicates, and
      the first element does not recur. */
  lemma NoDupTail<T>(s: seq<T>)
    requires |s| > 0 && NoDup(s)
    ensures NoDup(s[1..]) && s[0] !in s[1..]
  {
    forall k | 0 <= k < |s| - 1
      ensures s[1..][k] != s[0]
    {
      assert s[1..][k] == s[k + 1];
    }
  }

  /** Putting an element not yet present in front keeps a sequence free of
      duplicates. */
  lemma ConsNoDup<T>(y: T, s: seq<T>)
    requires NoDup(s) && y !in s
    ensures NoDup([y] + s)
  {
    var r := [y] + s;
    forall i, j | 0 <= i < j < |r|
      ensures r[i] != r[j]
    {
      assert r[j] == s[j - 1];
      if i > 0 {
        assert r[i] == s[i - 1];
      }
    }
  }

  /** Inserting an element not yet present keeps a sequence free of duplicates. */
  lemma {:induction false} InsertNoDup<T>(x: T, s: seq<T>, key: T -> real)
    requires NoDup(s) && x !in s
    ensures NoDup(InsertDesc(x, s, key))
    decreases |s|
  {
    if |s| > 0 && key(s[0]) <= key(x) {
      ConsNoDup(x, s);
    } else if |s| > 0 {
      NoDupTail(s);
      InsertNoDup(x, s[1..], key);
      InsertPerm(x, s[1..], key);
      var rest := InsertDesc(x, s[1..], key);
      forall y | y in rest
        ensures y == x || y in s[1..]
      {
        assert y in multiset(rest);
      }
      ConsNoDup(s[0], rest);
    }
  }

  /** Sorting keeps a sequence free of duplicates. */
  lemma {:induction false} SortNoDup<T>(s: seq<T>, key: T -> real)
    requires NoDup(s)
    ensures NoDup(SortDesc(s, key))
    decreases |s|
  {
    if |s| > 0 {
      NoDupTail(s);
      SortNoDup(s[1..], key);
      var rest := SortDesc(s[1..], key);
      forall y | y in rest
        ensures y in s[1..]
      {
        assert y in multiset(rest);
      }
      InsertNoDup(s[0], rest, key);
    }
  }

  /** The elements of `s` whose key is `v`, in order. */
  function WithKey<T>(s: seq<T>, key: T -> real, v: real): (r: seq<T>)
    ensures forall i :: 0 <= i < |r| ==> key(r[i]) == v
  {
    if |s| == 0 then []
    else (if key(s[0]) == v then [s[0]] else []) + WithKey(s[1..], key, v)
  }

  lemma {:induction false} InsertWithKey<T>(x: T, s: seq<T>, key: T -> real, v: real)
    ensures WithKey(InsertDesc(x, s, key), key, v)
         == (if key(x) == v then [x] else []) + WithKey(s, key, v)
    decreases |s|
  {
    var r := InsertDesc(x, s, key);
    if |s| == 0 {
    } else if key(s[0]) <= key(x) {
      assert r[0] == x && r[1..] == s;
    } else {
      InsertWithKey(x, s[1..], key, v);
      assert r[0] == s[0] && r[1..] == InsertDesc(x, s[1..], key);
    }
  }

  /** The first `n` of a descending sort: elements of the input, still descending. */
  lemma TakeSorted<T>(s: seq<T>, key: T -> real, n: nat)
    ensures |Take(SortDesc(s, key), n)| <= n
    ensures forall i :: 0 <= i < |Take(SortDesc(s, key), n)| ==> Take(SortDesc(s, key), n)[i] in s
    ensures SortedDesc(Take(SortDesc(s, key), n), key)
  {
    var sorted := SortDesc(s, key);
    var r := Take(sorted, n);
    forall i | 0 <= i < |r|
      ensures r[i] in s
    {
      assert r[i] == sorted[i];
      assert sorted[i] in multiset(sorted);
    }
  }

  /** The first `n` of a descending sort of distinct elements are distinct. */
  lemma TakeSortedNoDup<T>(s: seq<T>, key: T -> real, n: nat)
    requires NoDup(s)
    ensures NoDup(Take(SortDesc(s, key), n))
  {
    SortNoDup(s, key);
    var sorted := SortDesc(s, key);
    assert forall i :: 0 <= i < |Take(sorted, n)| ==> Take(sorted, n)[i] == sorted[i];
  }

  /** Cutting a descending sort after `n` elements drops only elements whose
      key is at most every kept key, and drops something only when `n` are kept. */
  lemma TakeSortedKeepsLargest<T>(s: seq<T>, key: T -> real, n: nat, x: T)
    requires x in s && x !in Take(SortDesc(s, key), n)
    ensures |Take(SortDesc(s, key), n)| == n
    ensures forall k :: 0 <= k < n ==> key(Take(SortDesc(s, key), n)[k]) >= key(x)
  {
    var sorted := SortDesc(s, key);
    var r := Take(sorted, n);
    assert x in multiset(s);
    assert x in sorted;
    var j :| 0 <= j < |sorted| && sorted[j] == x;
    assert forall k :: 0 <= k < |r| ==> r[k] == sorted[k] && r[k] in r;
    assert j >= |r|;
    assert |r| == n;
  }

  /** The elements of key `v` among the first `n` are a prefix of the
      elements of key `v` overall. */
  lemma {:induction false} WithKeyTake<T>(s: seq<T>, key: T -> real, v: real, n: nat)
    ensures WithKey(Take(s, n), key, v) <= WithKey(s, key, v)
    decreases |s|
  {
    if |s| > n {
      if n == 0 {
        assert Take(s, n) == [];
      } else {
        WithKeyTake(s[1..], key, v, n - 1);
        var t := Take(s, n);
        assert t[0] == s[0];
        assert t[1..] == Take(s[1..], n - 1);
      }
    }
  }

  /** Stability: among elements of equal key, the sort keeps input order. */
  lemma {:induction false} SortIsStable<T>(s: seq<T>, key: T -> real, v: real)
    ensures WithKey(SortDesc(s, key), key, v) == WithKey(s, key, v)
    decreases |s|
  {
    if |s| > 0 {
      SortIsStable(s[1..], key, v);
      InsertWithKey(s[0], SortDesc(s[1..], key), key, v);
    }
  }

  /** The index of the first element of maximal key. */
  function FirstMaxIndex<T>(s: seq<T>, key: T -> real): (i: nat)
    requires |s| > 0
    ensures i < |s|
    ensures forall j :: 0 <= j < |s| ==> key(s[j]) <= key(s[i])
    ensures forall j :: 0 <= j < i ==> key(s[j]) < key(s[i])
  {
    if |s| == 1 then 0
    else
      var k := FirstMaxIndex(s[1..], key);
      if key(s[1 + k]) <= key(s[0]) then 0 else 1 + k
  }

  /** The index of the last element of minimal key. */
  function LastMinIndex<T>(s: seq<T>, key: T -> real): (i: nat)
    requires |s| > 0
    ensures i < |s|
    ensures forall j :: 0 <= j < |s| ==> key(s[i]) <= key(s[j])
    ensures forall j :: i < j < |s| ==> key(s[i]) < key(s[j])
  {
    if |s| == 1 then 0
    else
      var k := LastMinIndex(s[1..], key);
      if key(s[1 + k]) > key(s[0]) then 0 else 1 + k
  }

  /** After sorting, the head is the first maximum of the input. */
  lemma {:induction false} SortHeadIsFirstMax<T>(s: seq<T>, key: T -> real)
    requires |s| > 0
    ensures SortDesc(s, key)[0] == s[FirstMaxIndex(s, key)]
    decreases |s|
  {
    if |s| > 1 {
      SortHeadIsFirstMax(s[1..], key);
    }
  }

  lemma {:induction false} InsertLast<T>(x: T, s: seq<T>, key: T -> real)
    requires SortedDesc(s, key) && |s| > 0
    ensures var r := InsertDesc(x, s, key);
      r[|r| - 1] == if key(s[|s| - 1]) > key(x) then x else s[|s| - 1]
    decreases |s|
  {
    if key(s[0]) > key(x) && |s| > 1 {
      InsertLast(x, s[1..], key);
    }
  }

  /** After sorting, the last element is the last minimum of the input. */
  lemma {:induction false} SortLastIsLastMin<T>(s: seq<T>, key: T -> real)
    requires |s| > 0
    ensures SortDesc(s, key)[|s| - 1] == s[LastMinIndex(s, key)]
    decreases |s|
  {
    if |s| > 1 {
      SortLastIsLastMin(s[1..], key);
      InsertLast(s[0], SortDesc(s[1..], key), key);
    }
  }
}
