/** The array operations of JavaScript that the pages rely on: filter, a
    left-to-right sum (reduce), and Array.prototype.sort with a comparator
    that orders by a numeric key, highest first. Since ES2019 that sort is
    stable, so it is modelled as a stable insertion sort. */
module Seqs {

  /** Array.prototype.filter. */
  function Filter<T>(s: seq<T>, p: T -> bool): (r: seq<T>)
    ensures |r| <= |s|
    ensures forall i :: 0 <= i < |r| ==> r[i] in s && p(r[i])
    ensures forall i :: 0 <= i < |s| && p(s[i]) ==> s[i] in r
    decreases |s|
  {
    if s == [] then [] else (if p(s[0]) then [s[0]] else []) + Filter(s[1..], p)
  }

  /** Filtering a sequence whose every element passes leaves it as it is. */
  lemma {:induction false} FilterAll<T>(s: seq<T>, p: T -> bool)
    requires forall i :: 0 <= i < |s| ==> p(s[i])
    ensures Filter(s, p) == s
    decreases |s|
  {
    if s != [] {
      FilterAll(s[1..], p);
    }
  }

  /** a can be obtained from b by deleting elements, keeping the order. */
  ghost predicate IsSubsequence<T>(a: seq<T>, b: seq<T>)
    decreases |a| + |b|
  {
    a == [] ||
    (b != [] && ((a[0] == b[0] && IsSubsequence(a[1..], b[1..])) || IsSubsequence(a, b[1..])))
  }

  lemma {:induction false} FilterIsSubsequence<T>(s: seq<T>, p: T -> bool)
    ensures IsSubsequence(Filter(s, p), s)
    decreases |s|
  {
    if s != [] {
      FilterIsSubsequence(s[1..], p);
      if p(s[0]) {
        assert Filter(s, p) == [s[0]] + Filter(s[1..], p);
        assert Filter(s, p)[1..] == Filter(s[1..], p);
      } else {
        assert Filter(s, p) == Filter(s[1..], p);
      }
    }
  }

  /** A prefix of a subsequence is a subsequence. */
  lemma {:induction false} SubsequencePrefix<T>(a: seq<T>, b: seq<T>, k: nat)
    requires IsSubsequence(a, b) && k <= |a|
    ensures IsSubsequence(a[..k], b)
    decreases |a| + |b|
  {
    if k > 0 {
      if a[0] == b[0] && IsSubsequence(a[1..], b[1..]) {
        SubsequencePrefix(a[1..], b[1..], k - 1);
        assert a[..k][1..] == a[1..][..k - 1];
      } else {
        SubsequencePrefix(a, b[1..], k);
      }
    }
  }

  /** The elements that fail p and those that pass it add up to the whole. */
  lemma {:induction false} FilterComplement<T>(s: seq<T>, p: T -> bool, q: T -> bool)
    requires forall x :: q(x) == !p(x)
    ensures |Filter(s, p)| + |Filter(s, q)| == |s|
    decreases |s|
  {
    if s != [] {
      FilterComplement(s[1..], p, q);
    }
  }

  /** Filtering after appending one element. */
  lemma {:induction false} FilterAppend<T>(s: seq<T>, x: T, h: T -> bool)
    ensures Filter(s + [x], h) == Filter(s, h) + (if h(x) then [x] else [])
    decreases |s|
  {
    if s == [] {
      assert s + [x] == [x];
    } else {
      assert (s + [x])[1..] == s[1..] + [x];
      FilterAppend(s[1..], x, h);
    }
  }

  /** The positions of s whose element satisfies p. */
  ghost function Positions<T>(s: seq<T>, p: T -> bool): set<int> {
    set i | 0 <= i < |s| && p(s[i])
  }

  /** A filter keeps one element per position that satisfies the predicate. */
  lemma {:induction false} FilterCountsPositions<T>(s: seq<T>, p: T -> bool)
    ensures |Filter(s, p)| == |Positions(s, p)|
    decreases |s|
  {
    if s != [] {
      var n := |s| - 1;
      var t := s[..n];
      assert s == t + [s[n]];
      FilterAppend(t, s[n], p);
      FilterCountsPositions(t, p);
      PositionsAppend(t, s[n], p);
    }
  }

  lemma PositionsAppend<T>(t: seq<T>, x: T, p: T -> bool)
    ensures Positions(t + [x], p) == Positions(t, p) + (if p(x) then {|t|} else {})
    ensures |t| !in Positions(t, p)
  {
    var s := t + [x];
    forall i | 0 <= i < |t|
      ensures s[i] == t[i]
    {
    }
  }

  /** Array.prototype.reduce((sum, x) => sum + f(x), 0). */
  function Sum<T>(s: seq<T>, f: T -> int): int
    decreases |s|
  {
    if s == [] then 0 else f(s[0]) + Sum(s[1..], f)
  }

  /** With no negative term, the sum is at least every single term. */
  lemma {:induction false} SumBoundsTerms<T>(s: seq<T>, f: T -> int)
    requires forall i :: 0 <= i < |s| ==> f(s[i]) >= 0
    ensures Sum(s, f) >= 0
    ensures forall i :: 0 <= i < |s| ==> f(s[i]) <= Sum(s, f)
    decreases |s|
  {
    if s != [] {
      assert forall i :: 0 <= i < |s| - 1 ==> s[1..][i] == s[i + 1];
      SumBoundsTerms(s[1..], f);
    }
  }

  /** Comparator order: every element's key is at least that of any later one. */
  ghost predicate NonIncreasing<T>(s: seq<T>, key: T -> int) {
    forall i, j :: 0 <= i < j < |s| ==> key(s[i]) >= key(s[j])
  }

  /** Puts x in front of the first element whose key is not larger than its own. */
  function InsertDesc<T>(x: T, s: seq<T>, key: T -> int): (r: seq<T>)
    decreases |s|
  {
    if s == [] || key(s[0]) <= key(x) then [x] + s else [s[0]] + InsertDesc(x, s[1..], key)
  }

  /** [...s].sort((a, b) => key(b) - key(a)): a sorted copy, highest key first,
      equal keys in their original order. */
  function SortDesc<T>(s: seq<T>, key: T -> int): (r: seq<T>)
    decreases |s|
  {
    if s == [] then [] else InsertDesc(s[0], SortDesc(s[1..], key), key)
  }

  lemma {:induction false} InsertDescProperties<T>(x: T, s: seq<T>, key: T -> int)
    requires NonIncreasing(s, key)
    ensures multiset(InsertDesc(x, s, key)) == multiset(s) + multiset{x}
    ensures NonIncreasing(InsertDesc(x, s, key), key)
  {
    InsertDescPermutes(x, s, key);
    InsertDescSorted(x, s, key);
  }

  lemma {:induction false} InsertDescPermutes<T>(x: T, s: seq<T>, key: T -> int)
    ensures multiset(InsertDesc(x, s, key)) == multiset(s) + multiset{x}
    decreases |s|
  {
    if s != [] && key(s[0]) > key(x) {
      assert s == [s[0]] + s[1..];
      InsertDescPermutes(x, s[1..], key);
    }
  }

  /** Inserting below a bound keeps every key below it. */
  lemma {:induction false} InsertDescBounded<T>(x: T, s: seq<T>, key: T -> int, b: int)
    requires key(x) <= b
    requires forall i :: 0 <= i < |s| ==> key(s[i]) <= b
    ensures forall i :: 0 <= i < |InsertDesc(x, s, key)| ==> key(InsertDesc(x, s, key)[i]) <= b
    decreases |s|
  {
    if s != [] && key(s[0]) > key(x) {
      InsertDescBounded(x, s[1..], key, b);
      assert InsertDesc(x, s, key) == [s[0]] + InsertDesc(x, s[1..], key);
    }
  }

  lemma {:induction false} InsertDescSorted<T>(x: T, s: seq<T>, key: T -> int)
    requires NonIncreasing(s, key)
    ensures NonIncreasing(InsertDesc(x, s, key), key)
    decreases |s|
  {
    if s == [] || key(s[0]) <= key(x) {
      assert forall i :: 0 <= i < |s| ==> key(s[i]) <= key(s[0]);
      NonIncreasingCons(x, s, key);
    } else {
      var t := s[1..];
      assert forall i :: 0 <= i < |t| ==> key(t[i]) <= key(s[0]) by {
        forall i | 0 <= i < |t| ensures key(t[i]) <= key(s[0]) {
          assert t[i] == s[i + 1];
        }
      }
      assert NonIncreasing(t, key) by {
        forall i, j | 0 <= i < j < |t| ensures key(t[i]) >= key(t[j]) {
          assert t[i] == s[i + 1] && t[j] == s[j + 1];
        }
      }
      InsertDescSorted(x, t, key);
      InsertDescBounded(x, t, key, key(s[0]));
      NonIncreasingCons(s[0], InsertDesc(x, t, key), key);
    }
  }

  /** An element with a key at least every key of a non-increasing sequence
      can go in front of it. */
  lemma NonIncreasingCons<T>(x: T, s: seq<T>, key: T -> int)
    requires NonIncreasing(s, key)
    requires forall i :: 0 <= i < |s| ==> key(s[i]) <= key(x)
    ensures NonIncreasing([x] + s, key)
  {
    var r := [x] + s;
    forall i, j | 0 <= i < j < |r| ensures key(r[i]) >= key(r[j]) {
      assert r[j] == s[j - 1];
      if i > 0 {
        assert r[i] == s[i - 1];
      }
    }
  }

  /** The sorted copy is a permutation of the input in non-increasing key order. */
  lemma {:induction false} SortDescProperties<T>(s: seq<T>, key: T -> int)
    ensures multiset(SortDesc(s, key)) == multiset(s)
    ensures NonIncreasing(SortDesc(s, key), key)
    decreases |s|
  {
    if s != [] {
      SortDescProperties(s[1..], key);
      InsertDescProperties(s[0], SortDesc(s[1..], key), key);
      assert s == [s[0]] + s[1..];
    }
  }

  /** The first element of a sorted copy has the largest key of the input. */
  lemma SortDescHeadIsMax<T>(s: seq<T>, key: T -> int)
    requires s != []
    ensures |SortDesc(s, key)| == |s|
    ensures forall i :: 0 <= i < |s| ==> key(s[i]) <= key(SortDesc(s, key)[0])
  {
    var r := SortDesc(s, key);
    SortDescProperties(s, key);
    assert |r| == |multiset(r)| == |multiset(s)| == |s|;
    forall i | 0 <= i < |s| ensures key(s[i]) <= key(r[0]) {
      var x := s[i];
      assert x in multiset(s);
      assert x in multiset(r);
      var j :| 0 <= j < |r| && r[j] == x;
      assert j == 0 || key(r[0]) >= key(r[j]);
    }
  }

  /** Sorting keeps every key below a bound that all input keys are below. */
  lemma {:induction false} SortDescBounded<T>(s: seq<T>, key: T -> int, b: int)
    requires forall i :: 0 <= i < |s| ==> key(s[i]) <= b
    ensures forall i :: 0 <= i < |SortDesc(s, key)| ==> key(SortDesc(s, key)[i]) <= b
    decreases |s|
  {
    if s != [] {
      var t := s[1..];
      forall i | 0 <= i < |t| ensures key(t[i]) <= b {
        assert t[i] == s[i + 1];
      }
      SortDescBounded(t, key, b);
      InsertDescBounded(s[0], SortDesc(t, key), key, b);
    }
  }

  /** Under the stable sort, the first element is the earliest one with the
      largest key: ties go to the element that came first. */
  lemma {:induction false} SortDescHeadIsFirstMax<T>(s: seq<T>, key: T -> int, k: nat)
    requires k < |s|
    requires forall i :: 0 <= i < |s| ==> key(s[i]) <= key(s[k])
    requires forall i :: 0 <= i < k ==> key(s[i]) < key(s[k])
    ensures SortDesc(s, key) != [] && SortDesc(s, key)[0] == s[k]
    decreases |s|
  {
    var t := s[1..];
    var r := SortDesc(t, key);
    SortDescProperties(t, key);
    if k == 0 {
      forall i | 0 <= i < |t| ensures key(t[i]) <= key(s[0]) {
        assert t[i] == s[i + 1];
      }
      SortDescBounded(t, key, key(s[0]));
    } else {
      forall i | 0 <= i < |t| ensures key(t[i]) <= key(t[k - 1]) {
        assert t[i] == s[i + 1];
      }
      forall i | 0 <= i < k - 1 ensures key(t[i]) < key(t[k - 1]) {
        assert t[i] == s[i + 1];
      }
      SortDescHeadIsFirstMax(t, key, k - 1);
      assert key(s[0]) < key(r[0]);
    }
  }

  /** `slice(0, n)` */
  function Take<T>(s: seq<T>, n: nat): (r: seq<T>)
    ensures |r| == if |s| < n then |s| else n
    ensures forall i :: 0 <= i < |r| ==> r[i] == s[i]
  {
    if |s| <= n then s else s[..n]
  }

  /** If every element passing p also passes q, fewer elements pass p. */
  lemma {:induction false} FilterMonotone<T>(s: seq<T>, p: T -> bool, q: T -> bool)
    requires forall i :: 0 <= i < |s| && p(s[i]) ==> q(s[i])
    ensures |Filter(s, p)| <= |Filter(s, q)|
    decreases |s|
  {
    if s != [] {
      assert forall i :: 0 <= i < |s| - 1 ==> s[1..][i] == s[i + 1];
      FilterMonotone(s[1..], p, q);
    }
  }

  /** Sorting a copy does not change the sum over it. */
  lemma {:induction false} SumSortDesc<T>(s: seq<T>, key: T -> int, f: T -> int)
    ensures Sum(SortDesc(s, key), f) == Sum(s, f)
    decreases |s|
  {
    if s != [] {
      SumSortDesc(s[1..], key, f);
      SumInsertDesc(s[0], SortDesc(s[1..], key), key, f);
    }
  }

  lemma {:induction false} SumInsertDesc<T>(x: T, s: seq<T>, key: T -> int, f: T -> int)
    ensures Sum(InsertDesc(x, s, key), f) == f(x) + Sum(s, f)
    decreases |s|
  {
    if s == [] || key(s[0]) <= key(x) {
      assert ([x] + s)[1..] == s;
    } else {
      SumInsertDesc(x, s[1..], key, f);
      assert ([s[0]] + InsertDesc(x, s[1..], key))[1..] == InsertDesc(x, s[1..], key);
    }
  }
}
