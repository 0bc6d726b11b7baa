/** Sorting by a "ranks at or above" relation, as Python's `list.sort(reverse=True)`
    and `sorted(..., reverse=True)` do for the keys the engine sorts on. */
module Sorting {
  import opened Seqs

  ghost predicate Total<T(!new)>(above: (T, T) -> bool) {
    forall a, b :: above(a, b) || above(b, a)
  }

  ghost predicate Transitive<T(!new)>(above: (T, T) -> bool) {
    forall a, b, c :: above(a, b) && above(b, c) ==> above(a, c)
  }

  /** `above` is total and transitive: every two elements can be ranked. */
  ghost predicate TotalPreorder<T(!new)>(above: (T, T) -> bool) {
    Total(above) && Transitive(above)
  }

  /** Every element ranks at or above every later one. */
  ghost predicate SortedBy<T>(s: seq<T>, above: (T, T) -> bool) {
    forall i, j :: 0 <= i < j < |s| ==> above(s[i], s[j])
  }

  /** Places `x` in front of the first element it ranks at or above. */
  function Insert<T>(x: T, s: seq<T>, above: (T, T) -> bool): (r: seq<T>)
    decreases |s|
  {
    if s == [] || above(x, s[0]) then [x] + s
    else [s[0]] + Insert(x, s[1..], above)
  }

  lemma {:induction false} InsertPermutes<T>(x: T, s: seq<T>, above: (T, T) -> bool)
    ensures multiset(Insert(x, s, above)) == multiset(s) + multiset{x}
    ensures |Insert(x, s, above)| == |s| + 1
    decreases |s|
  {
    if s != [] && !above(x, s[0]) {
      InsertPermutes(x, s[1..], above);
      assert s == [s[0]] + s[1..];
    }
  }

  lemma {:induction false} InsertSorted<T(!new)>(x: T, s: seq<T>, above: (T, T) -> bool)
    requires TotalPreorder(above)
    requires SortedBy(s, above)
    ensures SortedBy(Insert(x, s, above), above)
    decreases |s|
  {
    var r := Insert(x, s, above);
    if s == [] {
    } else if above(x, s[0]) {
      forall j | 1 <= j < |r|
        ensures above(x, r[j])
      {
        assert r[j] == s[j - 1];
        if j > 1 {
          assert above(s[0], s[j - 1]);
        }
      }
    } else {
      var tail := Insert(x, s[1..], above);
      InsertSorted(x, s[1..], above);
      InsertPermutes(x, s[1..], above);
      assert above(s[0], x);
      forall k | 0 <= k < |tail|
        ensures above(s[0], tail[k])
      {
        assert tail[k] in multiset(s[1..]) + multiset{x};
        if tail[k] != x {
          assert tail[k] in s[1..];
        }
      }
      assert r == [s[0]] + tail;
    }
  }

  lemma {:induction false} InsertNoDuplicates<T>(x: T, s: seq<T>, above: (T, T) -> bool)
    requires NoDuplicates(s) && x !in s
    ensures NoDuplicates(Insert(x, s, above))
  {
    InsertPermutes(x, s, above);
    var r := Insert(x, s, above);
    forall i, j | 0 <= i < j < |r|
      ensures r[i] != r[j]
    {
      MultisetNoDuplicates(r, s, x, i, j);
    }
  }

  /** Two positions of `r` holding the same value would give that value
      multiplicity two, which `s + [x]` without duplicates cannot have. */
  lemma MultisetNoDuplicates<T>(r: seq<T>, s: seq<T>, x: T, i: nat, j: nat)
    requires NoDuplicates(s) && x !in s
    requires multiset(r) == multiset(s) + multiset{x}
    requires i < j < |r|
    ensures r[i] != r[j]
  {
    MultiplicityAtMostOne(s, r[i]);
    RepeatedValueMultiplicity(r, i, j);
  }

  lemma RepeatedValueMultiplicity<T>(r: seq<T>, i: nat, j: nat)
    requires i < j < |r|
    ensures r[i] == r[j] ==> multiset(r)[r[i]] >= 2
  {
    assert r == r[..i] + [r[i]] + r[i + 1..j] + [r[j]] + r[j + 1..];
  }

  lemma {:induction false} MultiplicityAtMostOne<T>(s: seq<T>, v: T)
    requires NoDuplicates(s)
    ensures multiset(s)[v] <= 1
    decreases |s|
  {
    if s != [] {
      MultiplicityAtMostOne(s[1..], v);
      assert s == [s[0]] + s[1..];
      if s[0] == v {
        assert forall k :: 0 <= k < |s[1..]| ==> s[1..][k] == s[k + 1];
        assert v !in s[1..];
      }
    }
  }

  /** Insertion sort: a permutation of `s` in which every element ranks at or above
      every later one; distinct inputs stay distinct. */
  function InsertionSort<T(!new)>(s: seq<T>, above: (T, T) -> bool): (r: seq<T>)
    requires TotalPreorder(above)
    ensures SortedBy(r, above)
    ensures multiset(r) == multiset(s)
    ensures |r| == |s|
    ensures NoDuplicates(s) ==> NoDuplicates(r)
    decreases |s|
  {
    if s == [] then []
    else
      var init := s[..|s| - 1];
      var last := s[|s| - 1];
      assert s == init + [last];
      var sorted := InsertionSort(init, above);
      InsertSorted(last, sorted, above);
      InsertPermutes(last, sorted, above);
      InsertKeepsDistinct(s, sorted, above);
      Insert(last, sorted, above)
  }

  lemma InsertKeepsDistinct<T>(s: seq<T>, sorted: seq<T>, above: (T, T) -> bool)
    requires s != []
    requires multiset(sorted) == multiset(s[..|s| - 1])
    requires NoDuplicates(s[..|s| - 1]) ==> NoDuplicates(sorted)
    ensures NoDuplicates(s) ==> NoDuplicates(Insert(s[|s| - 1], sorted, above))
  {
    var init := s[..|s| - 1];
    var last := s[|s| - 1];
    if NoDuplicates(s) {
      assert forall k :: 0 <= k < |init| ==> init[k] == s[k];
      assert last !in init;
      assert last !in multiset(init);
      InsertNoDuplicates(last, sorted, above);
    }
  }
}
