/** Generic facts about sequences: counting, first-seen de-duplication, filtering,
    flattening and order-preserving subsequences. */
module Seqs {

  lemma AppendAssociative<T>(a: seq<T>, b: seq<T>, c: seq<T>)
    ensures (a + b) + c == a + (b + c)
  {
  }

  /** Number of occurrences of `x` in `s` (Python's `Counter(s)[x]`). */
  function Count<T(==)>(s: seq<T>, x: T): (n: nat)
    ensures n <= |s|
    ensures n > 0 <==> x in s
    decreases |s|
  {
    if s == [] then 0 else (if s[0] == x then 1 else 0) + Count(s[1..], x)
  }

  ghost predicate NoDuplicates<T>(s: seq<T>) {
    forall i, j :: 0 <= i < j < |s| ==> s[i] != s[j]
  }

  /** Position of the first occurrence of `x` in `s`. */
  function FirstIndex<T(==)>(s: seq<T>, x: T): (i: nat)
    requires x in s
    ensures i < |s| && s[i] == x
    ensures x !in s[..i]
    decreases |s|
  {
    if s[0] == x then 0
    else
      var k := FirstIndex(s[1..], x);
      assert s[..k + 1] == [s[0]] + s[1..][..k];
      k + 1
  }

  lemma FirstIndexOfPrefix<T>(s: seq<T>, n: nat, x: T)
    requires n <= |s| && x in s[..n]
    ensures x in s && FirstIndex(s, x) == FirstIndex(s[..n], x)
  {
    var i := FirstIndex(s[..n], x);
    var j := FirstIndex(s, x);
    assert s[..n][..i] == s[..i];
    assert forall m :: 0 <= m < i ==> s[..i][m] == s[m];
    assert forall m :: 0 <= m < j ==> s[..j][m] == s[m];
  }

  /** The distinct elements of `s` in first-seen order (the key order of a Python
      dict or Counter filled from `s`). */
  function Distinct<T(==)>(s: seq<T>): (r: seq<T>)
    ensures NoDuplicates(r)
    ensures forall i :: 0 <= i < |r| ==> r[i] in s
    ensures forall i :: 0 <= i < |s| ==> s[i] in r
    ensures |r| <= |s|
    decreases |s|
  {
    if s == [] then []
    else
      var d := Distinct(s[..|s| - 1]);
      assert s == s[..|s| - 1] + [s[|s| - 1]];
      if s[|s| - 1] in d then d else d + [s[|s| - 1]]
  }

  /** Distinct keeps first-seen order: an element listed earlier was seen earlier. */
  lemma {:induction false} DistinctFirstSeenOrder<T>(s: seq<T>)
    ensures forall i, j :: 0 <= i < j < |Distinct(s)| ==>
              FirstIndex(s, Distinct(s)[i]) < FirstIndex(s, Distinct(s)[j])
    decreases |s|
  {
    if s != [] {
      var p := s[..|s| - 1];
      DistinctFirstSeenOrder(p);
      assert FirstSeenOrdered(p);
      if s[|s| - 1] in Distinct(p) {
        FirstSeenKept(s);
      } else {
        FirstSeenNew(s);
      }
    }
  }

  ghost predicate FirstSeenOrdered<T>(s: seq<T>) {
    forall i, j :: 0 <= i < j < |Distinct(s)| ==>
      FirstIndex(s, Distinct(s)[i]) < FirstIndex(s, Distinct(s)[j])
  }

  /** A repeated last element leaves the first-seen order as it was. */
  lemma FirstSeenKept<T>(s: seq<T>)
    requires s != [] && s[|s| - 1] in Distinct(s[..|s| - 1])
    requires FirstSeenOrdered(s[..|s| - 1])
    ensures FirstSeenOrdered(s)
  {
    assert Distinct(s) == Distinct(s[..|s| - 1]);
    SeenBeforeLast(s);
  }

  /** A new last element is listed last and was seen last. */
  lemma FirstSeenNew<T>(s: seq<T>)
    requires s != [] && s[|s| - 1] !in Distinct(s[..|s| - 1])
    requires FirstSeenOrdered(s[..|s| - 1])
    ensures FirstSeenOrdered(s)
  {
    var d := Distinct(s[..|s| - 1]);
    var r := Distinct(s);
    assert r == d + [s[|s| - 1]];
    SeenBeforeLast(s);
    LastFirstSeen(s);
    forall i, j | 0 <= i < j < |r|
      ensures FirstIndex(s, r[i]) < FirstIndex(s, r[j])
    {
      assert r[i] == d[i];
      if j < |d| {
        assert r[j] == d[j];
      }
    }
  }

  /** An element already seen before the last position is first seen where it was
      first seen in the prefix. */
  lemma SeenBeforeLast<T>(s: seq<T>)
    requires s != []
    ensures forall y :: y in Distinct(s[..|s| - 1]) ==>
              y in s && FirstIndex(s, y) == FirstIndex(s[..|s| - 1], y) < |s| - 1
  {
    var n := |s| - 1;
    forall y | y in Distinct(s[..n])
      ensures y in s && FirstIndex(s, y) == FirstIndex(s[..n], y) < n
    {
      FirstIndexOfPrefix(s, n, y);
    }
  }

  /** The last element, when new, is first seen at the last position. */
  lemma LastFirstSeen<T>(s: seq<T>)
    requires s != [] && s[|s| - 1] !in Distinct(s[..|s| - 1])
    ensures FirstIndex(s, s[|s| - 1]) == |s| - 1
  {
    var n := |s| - 1;
    var p := s[..n];
    assert s[n] !in p;
    forall m | 0 <= m < n
      ensures s[m] != s[n]
    {
      assert p[m] == s[m];
    }
  }

  lemma {:induction false} DistinctCardinality<T>(s: seq<T>)
    requires NoDuplicates(s)
    ensures |set x | x in s| == |s|
    decreases |s|
  {
    if s != [] {
      var p := s[..|s| - 1];
      var last := s[|s| - 1];
      DistinctCardinality(p);
      assert last !in p by {
        assert forall k :: 0 <= k < |p| ==> p[k] == s[k];
      }
      assert (set x | x in s) == (set x | x in p) + {last} by {
        assert s == p + [last];
      }
    }
  }

  /** The elements of `s` that satisfy `keep`, in order. */
  function Filter<T>(s: seq<T>, keep: T -> bool): (r: seq<T>)
    ensures |r| <= |s|
    decreases |s|
  {
    if s == [] then []
    else (if keep(s[0]) then [s[0]] else []) + Filter(s[1..], keep)
  }

  /** Filtering keeps exactly the elements that satisfy `keep`. */
  lemma {:induction false} FilterMembers<T>(s: seq<T>, keep: T -> bool)
    ensures forall i :: 0 <= i < |Filter(s, keep)| ==> Filter(s, keep)[i] in s && keep(Filter(s, keep)[i])
    ensures forall i :: 0 <= i < |s| && keep(s[i]) ==> s[i] in Filter(s, keep)
    decreases |s|
  {
    if s != [] {
      FilterMembers(s[1..], keep);
      var head := if keep(s[0]) then [s[0]] else [];
      var rest := Filter(s[1..], keep);
      assert Filter(s, keep) == head + rest;
      forall i | 0 <= i < |Filter(s, keep)|
        ensures Filter(s, keep)[i] in s && keep(Filter(s, keep)[i])
      {
        if i >= |head| {
          assert Filter(s, keep)[i] == rest[i - |head|];
        }
      }
      forall i | 0 <= i < |s| && keep(s[i])
        ensures s[i] in Filter(s, keep)
      {
        if i > 0 {
          assert s[i] == s[1..][i - 1];
        }
      }
    }
  }

  /** Filtering keeps every copy of an element that satisfies `keep` and no copy
      of one that does not. */
  lemma {:induction false} FilterMultiset<T>(s: seq<T>, keep: T -> bool)
    ensures forall x :: multiset(Filter(s, keep))[x] == if keep(x) then multiset(s)[x] else 0
    decreases |s|
  {
    if s != [] {
      FilterMultiset(s[1..], keep);
      var head := if keep(s[0]) then [s[0]] else [];
      assert Filter(s, keep) == head + Filter(s[1..], keep);
      assert s == [s[0]] + s[1..];
      assert multiset(s) == multiset([s[0]]) + multiset(s[1..]);
    }
  }

  lemma {:induction false} FilterAppend<T>(a: seq<T>, b: seq<T>, keep: T -> bool)
    ensures Filter(a + b, keep) == Filter(a, keep) + Filter(b, keep)
    decreases |a|
  {
    if a == [] {
      assert a + b == b;
    } else {
      var h := if keep(a[0]) then [a[0]] else [];
      assert (a + b)[1..] == a[1..] + b;
      FilterAppend(a[1..], b, keep);
      calc {
        Filter(a + b, keep);
        h + Filter(a[1..] + b, keep);
        h + (Filter(a[1..], keep) + Filter(b, keep));
        (h + Filter(a[1..], keep)) + Filter(b, keep);
        Filter(a, keep) + Filter(b, keep);
      }
    }
  }

  /** Concatenation of a sequence of sequences. */
  function Flatten<T>(ss: seq<seq<T>>): seq<T>
    decreases |ss|
  {
    if ss == [] then [] else ss[0] + Flatten(ss[1..])
  }

  /** Where the `n`-th part starts in `Flatten(ss)`. */
  function FlatOffset<T>(ss: seq<seq<T>>, n: nat): nat
    requires n <= |ss|
    decreases n
  {
    if n == 0 then 0 else |ss[0]| + FlatOffset(ss[1..], n - 1)
  }

  /** Element `i` of part `n` sits at `FlatOffset(ss, n) + i` of the flattening,
      and the flattening is exactly as long as all parts together. */
  lemma {:induction false} FlattenIndex<T>(ss: seq<seq<T>>, n: nat, i: nat)
    requires n < |ss| && i < |ss[n]|
    ensures |Flatten(ss)| == FlatOffset(ss, |ss|)
    ensures FlatOffset(ss, n) + i < |Flatten(ss)|
    ensures Flatten(ss)[FlatOffset(ss, n) + i] == ss[n][i]
    decreases n
  {
    FlattenLength(ss);
    if n > 0 {
      assert ss[n] == ss[1..][n - 1];
      FlattenIndex(ss[1..], n - 1, i);
    }
  }

  lemma {:induction false} FlattenLength<T>(ss: seq<seq<T>>)
    ensures |Flatten(ss)| == FlatOffset(ss, |ss|)
    decreases |ss|
  {
    if ss != [] {
      FlattenLength(ss[1..]);
    }
  }

  /** `a` is `b` with some elements deleted, the rest kept in their order. */
  predicate IsSubsequence<T(==)>(a: seq<T>, b: seq<T>)
    decreases |b|
  {
    if a == [] then true
    else if b == [] then false
    else (a[0] == b[0] && IsSubsequence(a[1..], b[1..])) || IsSubsequence(a, b[1..])
  }

  lemma {:induction false} FilterIsSubsequence<T>(s: seq<T>, keep: T -> bool)
    ensures IsSubsequence(Filter(s, keep), s)
    decreases |s|
  {
    if s != [] {
      FilterIsSubsequence(s[1..], keep);
      var r := Filter(s, keep);
      if keep(s[0]) {
        assert r[0] == s[0] && r[1..] == Filter(s[1..], keep);
      } else {
        assert r == Filter(s[1..], keep);
      }
    }
  }

  lemma {:induction false} SubsequenceOfItself<T>(s: seq<T>)
    ensures IsSubsequence(s, s)
    decreases |s|
  {
    if s != [] {
      SubsequenceOfItself(s[1..]);
    }
  }

  lemma {:induction false} SubsequenceLength<T>(a: seq<T>, b: seq<T>)
    requires IsSubsequence(a, b)
    ensures |a| <= |b|
    decreases |b|
  {
    if a != [] {
      if a[0] == b[0] && IsSubsequence(a[1..], b[1..]) {
        SubsequenceLength(a[1..], b[1..]);
      } else {
        SubsequenceLength(a, b[1..]);
      }
    }
  }
}
