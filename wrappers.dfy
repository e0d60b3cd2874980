/**
 * Optional values, standing for Python's `None`-or-value results, results
 * that carry the message of a raised exception, and first-match search.
 */
module Wrappers {
  datatype Option<T> = None | Some(value: T)
  {
    /** The value, or `default` when there is none (Python's `x or default` on optional fields). */
    function GetOr(default: T): T {
      match this
      case Some(v) => v
      case None => default
    }
  }

  /** A value, or the message of the exception the operation raises instead. */
  datatype Result<T> = Success(value: T) | Failure(error: string)

  /** The index of the first element satisfying `p`: a `for` loop that returns at its first hit. */
  function FirstIndex<T>(xs: seq<T>, p: T -> bool): (r: Option<nat>)
    ensures r.Some? ==> r.value < |xs| && p(xs[r.value])
    ensures r.Some? ==> forall j :: 0 <= j < r.value ==> !p(xs[j])
    ensures r.None? <==> forall j :: 0 <= j < |xs| ==> !p(xs[j])
  {
    if xs == [] then None
    else if p(xs[0]) then Some(0)
    else
      var r := FirstIndex(xs[1..], p);
      if r.Some? then Some(r.value + 1) else None
  }

  /** The first hit is the index after the misses. */
  lemma FirstIndexAt<T>(xs: seq<T>, p: T -> bool, i: nat)
    requires i < |xs| && p(xs[i]) && forall j :: 0 <= j < i ==> !p(xs[j])
    ensures FirstIndex(xs, p) == Some(i)
  {
    var r := FirstIndex(xs, p);
    assert r.Some?;
    assert !(r.value < i) && !(i < r.value);
  }

  /** The index of the last element satisfying `p`: what a loop that overwrites a variable at each hit leaves. */
  function LastIndex<T>(xs: seq<T>, p: T -> bool): (r: Option<nat>)
    ensures r.Some? ==> r.value < |xs| && p(xs[r.value])
    ensures r.Some? ==> forall j :: r.value < j < |xs| ==> !p(xs[j])
    ensures r.None? <==> forall j :: 0 <= j < |xs| ==> !p(xs[j])
  {
    if xs == [] then None
    else if p(xs[|xs| - 1]) then Some(|xs| - 1)
    else LastIndex(xs[..|xs| - 1], p)
  }

  /** `[f(x) for x in s]`, built from the back as a loop appending to a list builds it. */
  function MapSeq<T, U>(f: T -> U, s: seq<T>): seq<U> {
    if s == [] then [] else MapSeq(f, s[..|s| - 1]) + [f(s[|s| - 1])]
  }

  /** The list comprehension applies `f` to each element in its place. */
  lemma {:induction false} MapSeqIndex<T, U>(f: T -> U, s: seq<T>)
    ensures |MapSeq(f, s)| == |s|
    ensures forall i :: 0 <= i < |s| ==> MapSeq(f, s)[i] == f(s[i])
  {
    if s != [] {
      var init := s[..|s| - 1];
      MapSeqIndex(f, init);
      forall i | 0 <= i < |init|
        ensures MapSeq(f, s)[i] == f(s[i])
      {
        assert init[i] == s[i];
      }
    }
  }

  /** `[x for x in s if p(x)]`, built from the back as a loop appending to a list builds it. */
  function Filter<T>(p: T -> bool, s: seq<T>): (r: seq<T>)
    ensures |r| <= |s|
  {
    if s == [] then [] else Filter(p, s[..|s| - 1]) + (if p(s[|s| - 1]) then [s[|s| - 1]] else [])
  }

  /** The filtered list holds exactly the elements satisfying `p`. */
  lemma {:induction false} FilterSpec<T>(p: T -> bool, s: seq<T>)
    ensures forall x :: x in Filter(p, s) <==> x in s && p(x)
  {
    if s != [] {
      var init := s[..|s| - 1];
      FilterSpec(p, init);
      assert s == init + [s[|s| - 1]];
    }
  }

  /** Filtering keeps everything when every element satisfies `p`. */
  lemma {:induction false} FilterAll<T>(p: T -> bool, s: seq<T>)
    requires forall i :: 0 <= i < |s| ==> p(s[i])
    ensures Filter(p, s) == s
  {
    if s != [] {
      FilterAll(p, s[..|s| - 1]);
      assert s == s[..|s| - 1] + [s[|s| - 1]];
    }
  }

  /** Filtering a concatenation filters each part. */
  lemma {:induction false} FilterConcat<T>(p: T -> bool, a: seq<T>, b: seq<T>)
    ensures Filter(p, a + b) == Filter(p, a) + Filter(p, b)
    decreases |b|
  {
    if b != [] {
      var init := b[..|b| - 1];
      FilterConcat(p, a, init);
      assert (a + b)[..|a + b| - 1] == a + init;
    } else {
      assert a + b == a;
    }
  }

  /** Filters by predicates that agree on every element give the same list. */
  lemma {:induction false} FilterCongruent<T>(p: T -> bool, q: T -> bool, s: seq<T>)
    requires forall i :: 0 <= i < |s| ==> p(s[i]) == q(s[i])
    ensures Filter(p, s) == Filter(q, s)
  {
    if s != [] {
      FilterCongruent(p, q, s[..|s| - 1]);
    }
  }

  /** The conjunction of two predicates. */
  function Both<T>(p: T -> bool, q: T -> bool): T -> bool {
    x => p(x) && q(x)
  }

  /** Two filters in turn keep, in order, the elements satisfying both. */
  lemma {:induction false} FilterFilter<T>(p: T -> bool, q: T -> bool, s: seq<T>)
    ensures Filter(p, Filter(q, s)) == Filter(Both(q, p), s)
  {
    if s != [] {
      var init := s[..|s| - 1];
      var last := s[|s| - 1];
      FilterFilter(p, q, init);
      FilterConcat(p, Filter(q, init), if q(last) then [last] else []);
    }
  }

  /** `s.pop(i)`: the list without its element at `i`. */
  function RemoveAt<T>(s: seq<T>, i: nat): (r: seq<T>)
    requires i < |s|
    ensures |r| == |s| - 1
    ensures r[..i] == s[..i] && r[i..] == s[i + 1..]
  {
    s[..i] + s[i + 1..]
  }
}
