/** Order-preserving filtering and mapping of sequences: the shape of every
    report loop, which walks its entities in order and writes one line for
    each entity it keeps. */
module Seqs {

  /** The elements of `s` that `keep` accepts, in their order in `s`. */
  function Filter<T>(s: seq<T>, keep: T -> bool): (r: seq<T>)
    ensures |r| <= |s|
    ensures forall i :: 0 <= i < |r| ==> r[i] in s && keep(r[i])
    ensures forall i :: 0 <= i < |s| && keep(s[i]) ==> s[i] in r
  {
    if s == [] then []
    else Filter(s[..|s| - 1], keep) + (if keep(s[|s| - 1]) then [s[|s| - 1]] else [])
  }

  /** `f` applied to each element of `s`. */
  function Map<T, U>(s: seq<T>, f: T -> U): (r: seq<U>)
    ensures |r| == |s|
    ensures forall i :: 0 <= i < |s| ==> r[i] == f(s[i])
  {
    if s == [] then [] else Map(s[..|s| - 1], f) + [f(s[|s| - 1])]
  }

  /** Every earlier element compares at most equal to every later one. */
  predicate Sorted<T>(s: seq<T>, cmp: (T, T) -> int)
  {
    forall i, j :: 0 <= i < j < |s| ==> cmp(s[i], s[j]) <= 0
  }

  /** Filtering a concatenation filters each part: an element's fate does
      not depend on its neighbours, and the kept elements keep their order. */
  lemma {:induction false} FilterAppend<T>(a: seq<T>, b: seq<T>, keep: T -> bool)
    ensures Filter(a + b, keep) == Filter(a, keep) + Filter(b, keep)
    decreases |b|
  {
    if b == [] {
      assert a + b == a;
    } else {
      var b0 := b[..|b| - 1];
      var x := b[|b| - 1];
      assert (a + b)[..|a + b| - 1] == a + b0;
      assert b[..|b| - 1] == b0;
      FilterAppend(a, b0, keep);
    }
  }

  /** A filter keeps a one-element sequence exactly when it accepts it. */
  lemma FilterSingle<T>(x: T, keep: T -> bool)
    ensures Filter([x], keep) == if keep(x) then [x] else []
  {
    assert [x][..0] == [];
  }

  /** Filtering a sorted sequence gives a sorted sequence. */
  lemma {:induction false} FilterSorted<T>(s: seq<T>, keep: T -> bool, cmp: (T, T) -> int)
    requires Sorted(s, cmp)
    ensures Sorted(Filter(s, keep), cmp)
  {
    if s != [] {
      var init := s[..|s| - 1];
      var x := s[|s| - 1];
      FilterSorted(init, keep, cmp);
      var f := Filter(init, keep);
      if keep(x) {
        forall i | 0 <= i < |f|
          ensures cmp(f[i], x) <= 0
        {
          assert f[i] in init;
          var k :| 0 <= k < |init| && init[k] == f[i];
          assert s[k] == f[i];
        }
      }
    }
  }

  /** Filtering a prefix one element longer. */
  lemma FilterPrefixStep<T>(s: seq<T>, n: nat, keep: T -> bool)
    requires n < |s|
    ensures Filter(s[..n + 1], keep) ==
            Filter(s[..n], keep) + (if keep(s[n]) then [s[n]] else [])
  {
    assert s[..n + 1][..n] == s[..n];
  }

  /** Mapping a concatenation maps each part. */
  lemma {:induction false} MapAppend<T, U>(a: seq<T>, b: seq<T>, f: T -> U)
    ensures Map(a + b, f) == Map(a, f) + Map(b, f)
  {
  }

  /** What a report loop writes: one `line` for each element `keep`
      accepts, in input order, and nothing for the others. */
  function Emitted<T, U>(s: seq<T>, keep: T -> bool, line: T -> U): (r: seq<U>)
    ensures |r| <= |s|
  {
    Map(Filter(s, keep), line)
  }

  /** One more element adds its line at the end, or nothing. */
  lemma EmittedStep<T, U>(s: seq<T>, x: T, keep: T -> bool, line: T -> U)
    ensures Emitted(s + [x], keep, line) ==
            Emitted(s, keep, line) + (if keep(x) then [line(x)] else [])
  {
    assert (s + [x])[..|s|] == s;
  }

  /** The loop step: the prefix one longer adds the next element's line,
      or nothing. */
  lemma EmittedPrefixStep<T, U>(s: seq<T>, i: nat, keep: T -> bool, line: T -> U)
    requires i < |s|
    ensures Emitted(s[..i + 1], keep, line) ==
            Emitted(s[..i], keep, line) + (if keep(s[i]) then [line(s[i])] else [])
  {
    assert s[..i + 1] == s[..i] + [s[i]];
    EmittedStep(s[..i], s[i], keep, line);
  }

  /** The lines for a concatenation are the lines for each part: each
      element is decided on its own and the lines keep the input order. */
  lemma EmittedAppend<T, U>(a: seq<T>, b: seq<T>, keep: T -> bool, line: T -> U)
    ensures Emitted(a + b, keep, line) == Emitted(a, keep, line) + Emitted(b, keep, line)
  {
    FilterAppend(a, b, keep);
    MapAppend(Filter(a, keep), Filter(b, keep), line);
  }

  /** A single element yields its line exactly when it is kept. */
  lemma EmittedSingle<T, U>(x: T, keep: T -> bool, line: T -> U)
    ensures Emitted([x], keep, line) == if keep(x) then [line(x)] else []
  {
    FilterSingle(x, keep);
  }

  /** Two filters that agree on every element keep the same elements. */
  lemma {:induction false} FilterSameKeep<T>(s: seq<T>, k1: T -> bool, k2: T -> bool)
    requires forall i :: 0 <= i < |s| ==> k1(s[i]) == k2(s[i])
    ensures Filter(s, k1) == Filter(s, k2)
  {
    if s != [] {
      var init := s[..|s| - 1];
      assert forall i :: 0 <= i < |init| ==> init[i] == s[i];
      FilterSameKeep(init, k1, k2);
    }
  }

  /** Two keep tests that agree on every element emit the same lines. */
  lemma EmittedSameKeep<T, U>(s: seq<T>, k1: T -> bool, k2: T -> bool, line: T -> U)
    requires forall i :: 0 <= i < |s| ==> k1(s[i]) == k2(s[i])
    ensures Emitted(s, k1, line) == Emitted(s, k2, line)
  {
    FilterSameKeep(s, k1, k2);
  }
}
