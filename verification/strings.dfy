/** The parts of Python's `str` behaviour the retrieval engine relies on: `strip()`,
    `lower()`/`upper()`, the `in` substring test, `replace`, `split()` and the
    maximal runs that `re.findall(r'\b\w+\b', ...)` returns. */
module Strings {
  import opened Seqs

  /** `str.isspace()` for one code point. */
  predicate IsSpace(c: char) {
    || c == ' '
    || '\t' <= c <= '\r'
    || '\U{1c}' <= c <= '\U{1f}'
    || c == '\U{85}' || c == '\U{a0}' || c == '\U{1680}'
    || '\U{2000}' <= c <= '\U{200a}'
    || c == '\U{2028}' || c == '\U{2029}' || c == '\U{202f}' || c == '\U{205f}' || c == '\U{3000}'
  }

  predicate NotSpace(c: char) {
    !IsSpace(c)
  }

  /** The regular-expression class `\w`, restricted to ASCII letters, digits and `_`. */
  predicate IsWordChar(c: char) {
    'a' <= c <= 'z' || 'A' <= c <= 'Z' || '0' <= c <= '9' || c == '_'
  }

  function LowerChar(c: char): char {
    if 'A' <= c <= 'Z' then (c as int + 32) as char else c
  }

  function UpperChar(c: char): char {
    if 'a' <= c <= 'z' then (c as int - 32) as char else c
  }

  function Lower(s: string): (r: string)
    ensures |r| == |s|
    ensures forall i :: 0 <= i < |s| ==> r[i] == LowerChar(s[i])
  {
    seq(|s|, i requires 0 <= i < |s| => LowerChar(s[i]))
  }

  function Upper(s: string): (r: string)
    ensures |r| == |s|
    ensures forall i :: 0 <= i < |s| ==> r[i] == UpperChar(s[i])
  {
    seq(|s|, i requires 0 <= i < |s| => UpperChar(s[i]))
  }

  // ---------------------------------------------------------------------------
  // str.strip()

  /** Number of leading whitespace characters. */
  function LeadingSpace(s: string): (n: nat)
    ensures n <= |s|
    ensures forall i :: 0 <= i < n ==> IsSpace(s[i])
    ensures n < |s| ==> !IsSpace(s[n])
    decreases |s|
  {
    if s == [] || !IsSpace(s[0]) then 0 else 1 + LeadingSpace(s[1..])
  }

  /** Number of trailing whitespace characters. */
  function TrailingSpace(s: string): (n: nat)
    ensures n <= |s|
    ensures forall i :: |s| - n <= i < |s| ==> IsSpace(s[i])
    ensures n < |s| ==> !IsSpace(s[|s| - n - 1])
    decreases |s|
  {
    if s == [] || !IsSpace(s[|s| - 1]) then 0 else 1 + TrailingSpace(s[..|s| - 1])
  }

  /** Where `s.strip()` starts inside `s`. */
  function StripStart(s: string): (a: nat)
    ensures a <= |s|
  {
    var a := LeadingSpace(s);
    if a == |s| then 0 else a
  }

  /** Where `s.strip()` ends inside `s`. */
  function StripEnd(s: string): (b: nat)
    ensures StripStart(s) <= b <= |s|
  {
    if LeadingSpace(s) == |s| then 0 else |s| - TrailingSpace(s)
  }

  /** `s.strip()`: the slice of `s` between the first and the last non-whitespace
      character; empty exactly when `s` is all whitespace. */
  function Strip(s: string): (r: string)
    ensures r == s[StripStart(s)..StripEnd(s)]
    ensures r == [] <==> forall i :: 0 <= i < |s| ==> IsSpace(s[i])
    ensures r != [] ==> !IsSpace(r[0]) && !IsSpace(r[|r| - 1])
  {
    s[StripStart(s)..StripEnd(s)]
  }

  // ---------------------------------------------------------------------------
  // substring test and str.replace

  predicate StartsWith(s: string, p: string) {
    |p| <= |s| && s[..|p|] == p
  }

  /** Python's `p in s`. */
  predicate Contains(s: string, p: string)
    ensures Contains(s, p) ==> |p| <= |s|
    decreases |s|
  {
    StartsWith(s, p) || (s != [] && Contains(s[1..], p))
  }

  /** `p` sits at position `i` of `s`. */
  predicate OccursAt(s: string, p: string, i: int) {
    0 <= i <= |s| - |p| && s[i..i + |p|] == p
  }

  /** `p in s` exactly when `p` sits at some position of `s`. */
  lemma {:induction false} ContainsAt(s: string, p: string)
    ensures Contains(s, p) <==> exists i :: OccursAt(s, p, i)
    decreases |s|
  {
    if s != [] {
      ContainsAt(s[1..], p);
      if StartsWith(s, p) {
        assert OccursAt(s, p, 0);
      }
      if Contains(s[1..], p) {
        var i :| OccursAt(s[1..], p, i);
        assert s[i + 1..i + 1 + |p|] == s[1..][i..i + |p|];
        assert OccursAt(s, p, i + 1);
      }
      if exists i :: OccursAt(s, p, i) {
        var i :| OccursAt(s, p, i);
        if i > 0 {
          assert s[1..][i - 1..i - 1 + |p|] == s[i..i + |p|];
          assert OccursAt(s[1..], p, i - 1);
        } else {
          assert StartsWith(s, p);
        }
      }
    } else {
      if Contains(s, p) {
        assert OccursAt(s, p, 0);
      }
      if exists i :: OccursAt(s, p, i) {
        var i :| OccursAt(s, p, i);
        assert i == 0 && |p| == 0;
        assert s[..|p|] == p;
        assert StartsWith(s, p);
      }
    }
  }

  /** `p` is not in `s` when, at every place `p` could start, the character facing
      `p[j]` differs from it. */
  lemma NotContainsByChar(s: string, p: string, j: nat)
    requires j < |p|
    requires forall i :: j <= i <= |s| - |p| + j ==> s[i] != p[j]
    ensures !Contains(s, p)
  {
    forall i | 0 <= i <= |s| - |p|
      ensures !OccursAt(s, p, i)
    {
      assert s[i..i + |p|][j] == s[i + j];
    }
    ContainsAt(s, p);
  }

  /** Lower-casing both sides keeps a case-sensitive match: the `lower() in lower()`
      gate of the redactor opens whenever the literal keyword occurs. */
  lemma LowerKeepsContains(s: string, p: string)
    requires Contains(s, p)
    ensures Contains(Lower(s), Lower(p))
  {
    ContainsAt(s, p);
    var i :| OccursAt(s, p, i);
    assert Lower(s)[i..i + |p|] == Lower(p);
    assert OccursAt(Lower(s), Lower(p), i);
    ContainsAt(Lower(s), Lower(p));
  }

  /** Python's `s.replace(pat, rep)` for a non-empty `pat`: every occurrence, found
      left to right without overlap, is replaced. */
  function Replace(s: string, pat: string, rep: string): (r: string)
    requires |pat| > 0
    ensures !Contains(s, pat) ==> r == s
    ensures |rep| >= |pat| ==> |r| >= |s|
    ensures |rep| > |pat| && Contains(s, pat) ==> |r| > |s|
    ensures Contains(s, pat) ==> Contains(r, rep)
    decreases |s|
  {
    if |s| < |pat| then s
    else if s[..|pat|] == pat then
      var r := rep + Replace(s[|pat|..], pat, rep);
      assert r[..|rep|] == rep;
      r
    else
      var tail := Replace(s[1..], pat, rep);
      var r := [s[0]] + tail;
      assert Contains(tail, rep) ==> Contains(r, rep) by {
        assert r[1..] == tail;
      }
      r
  }

  // ---------------------------------------------------------------------------
  // maximal runs: re.findall(r'\b\w+\b', ...) and str.split()

  /** Length of the run of `inRun` characters at the front of `s`. */
  function RunLength(s: string, inRun: char -> bool): (n: nat)
    ensures n <= |s|
    ensures forall i :: 0 <= i < n ==> inRun(s[i])
    ensures n < |s| ==> !inRun(s[n])
    decreases |s|
  {
    if s == [] || !inRun(s[0]) then 0 else 1 + RunLength(s[1..], inRun)
  }

  ghost predicate AllIn(w: string, inRun: char -> bool) {
    forall i :: 0 <= i < |w| ==> inRun(w[i])
  }

  /** The maximal runs of `inRun` characters of `s`, left to right. Every run is
      non-empty, consists of `inRun` characters only, and together the runs hold
      exactly the `inRun` characters of `s`, in order. */
  function Runs(s: string, inRun: char -> bool): (r: seq<string>)
    ensures forall k :: 0 <= k < |r| ==> |r[k]| > 0 && AllIn(r[k], inRun)
    ensures Flatten(r) == Filter(s, inRun)
    decreases |s|
  {
    if s == [] then []
    else if !inRun(s[0]) then
      assert Filter(s, inRun) == Filter(s[1..], inRun);
      Runs(s[1..], inRun)
    else
      var n := RunLength(s, inRun);
      var rest := Runs(s[n..], inRun);
      RunsCons(s, n, rest, inRun);
      [s[..n]] + rest
  }

  /** The step of `Runs` that takes a leading run off the front. */
  lemma RunsCons(s: string, n: nat, rest: seq<string>, inRun: char -> bool)
    requires 0 < n <= |s| && forall i :: 0 <= i < n ==> inRun(s[i])
    requires forall k :: 0 <= k < |rest| ==> |rest[k]| > 0 && AllIn(rest[k], inRun)
    requires Flatten(rest) == Filter(s[n..], inRun)
    ensures forall k :: 0 <= k < |[s[..n]] + rest| ==> |([s[..n]] + rest)[k]| > 0 && AllIn(([s[..n]] + rest)[k], inRun)
    ensures Flatten([s[..n]] + rest) == Filter(s, inRun)
  {
    var head := s[..n];
    assert AllIn(head, inRun);
    assert s == head + s[n..];
    FilterRun(head, s[n..], inRun);
    FlattenCons(head, rest);
    forall k | 0 <= k < |[head] + rest|
      ensures |([head] + rest)[k]| > 0 && AllIn(([head] + rest)[k], inRun)
    {
      if k > 0 {
        assert ([head] + rest)[k] == rest[k - 1];
      }
    }
  }

  /** Filtering keeps a leading run of kept characters whole. */
  lemma FilterRun(head: string, tail: string, keep: char -> bool)
    requires AllIn(head, keep)
    ensures Filter(head + tail, keep) == head + Filter(tail, keep)
  {
    FilterAppend(head, tail, keep);
    FilterAll(head, keep);
  }

  lemma FlattenCons<T>(x: seq<T>, rest: seq<seq<T>>)
    ensures Flatten([x] + rest) == x + Flatten(rest)
  {
    assert ([x] + rest)[1..] == rest;
  }

  lemma {:induction false} FilterAll(s: string, keep: char -> bool)
    requires AllIn(s, keep)
    ensures Filter(s, keep) == s
    decreases |s|
  {
    if s != [] {
      FilterAll(s[1..], keep);
    }
  }

  /** A non-empty stretch of `inRun` characters is a single run. */
  lemma RunsOfWord(w: string, inRun: char -> bool)
    requires w != [] && AllIn(w, inRun)
    ensures Runs(w, inRun) == [w]
  {
    RunLengthOfWord(w, inRun);
    assert w[..|w|] == w && w[|w|..] == [];
  }

  lemma {:induction false} RunLengthOfWord(w: string, inRun: char -> bool)
    requires AllIn(w, inRun)
    ensures RunLength(w, inRun) == |w|
    decreases |w|
  {
    if w != [] {
      RunLengthOfWord(w[1..], inRun);
    }
  }

  /** A character outside the runs separates them: the runs of `a + [c] + b` are
      those of `a` followed by those of `b`. Together with `RunsOfWord` this pins
      `Runs` down as the maximal runs. */
  lemma {:induction false} RunsSplit(a: string, c: char, b: string, inRun: char -> bool)
    requires !inRun(c)
    ensures Runs(a + [c] + b, inRun) == Runs(a, inRun) + Runs(b, inRun)
    decreases |a|
  {
    var s := a + [c] + b;
    if a == [] {
      assert s == [c] + b && s[1..] == b;
      RunsSkip(s, inRun);
    } else if !inRun(a[0]) {
      assert s[1..] == a[1..] + [c] + b;
      RunsSkip(s, inRun);
      RunsSkip(a, inRun);
      RunsSplit(a[1..], c, b, inRun);
    } else {
      var n := RunLength(a, inRun);
      RunLengthBefore(a, c, b, inRun);
      assert s[..n] == a[..n];
      assert s[n..] == a[n..] + [c] + b;
      RunsTake(s, inRun);
      RunsTake(a, inRun);
      RunsSplit(a[n..], c, b, inRun);
      AppendAssociative([a[..n]], Runs(a[n..], inRun), Runs(b, inRun));
    }
  }

  lemma RunsSkip(s: string, inRun: char -> bool)
    requires s != [] && !inRun(s[0])
    ensures Runs(s, inRun) == Runs(s[1..], inRun)
  {
  }

  lemma RunsTake(s: string, inRun: char -> bool)
    requires s != [] && inRun(s[0])
    ensures Runs(s, inRun) == [s[..RunLength(s, inRun)]] + Runs(s[RunLength(s, inRun)..], inRun)
  {
  }

  /** A run that starts inside `a` ends inside `a`, before the separator. */
  lemma {:induction false} RunLengthBefore(a: string, c: char, b: string, inRun: char -> bool)
    requires !inRun(c)
    ensures RunLength(a + [c] + b, inRun) == RunLength(a, inRun)
    decreases |a|
  {
    var s := a + [c] + b;
    if a != [] && inRun(a[0]) {
      assert s[1..] == a[1..] + [c] + b;
      RunLengthBefore(a[1..], c, b, inRun);
    }
  }

  /** `s.split()`: the maximal runs of non-whitespace characters. */
  function SplitWhitespace(s: string): seq<string> {
    Runs(s, NotSpace)
  }
}
