/**
 * Python's `sorted`: a stable sort under a total "less than or equal"
 * relation.  Insertion sort from the back places each element before the
 * first element it is less than or equal to, so equal elements keep their
 * input order, as Python's sort does.
 */
module Sorting {
  /** Any two values are comparable one way or the other. */
  ghost predicate Total<T(!new)>(le: (T, T) -> bool) {
    forall a, b :: le(a, b) || le(b, a)
  }

  /** Each element is less than or equal to the next one. */
  predicate Sorted<T>(s: seq<T>, le: (T, T) -> bool) {
    forall i :: 0 <= i < |s| - 1 ==> le(s[i], s[i + 1])
  }

  function Insert<T>(x: T, s: seq<T>, le: (T, T) -> bool): seq<T> {
    if s == [] || le(x, s[0]) then [x] + s else [s[0]] + Insert(x, s[1..], le)
  }

  /** `sorted(s)` */
  function Sort<T>(s: seq<T>, le: (T, T) -> bool): seq<T> {
    if s == [] then [] else Insert(s[0], Sort(s[1..], le), le)
  }

  /** Insertion keeps a list sorted and adds exactly the one element. */
  lemma {:induction false} InsertSpec<T(!new)>(x: T, s: seq<T>, le: (T, T) -> bool)
    requires Total(le) && Sorted(s, le)
    ensures Sorted(Insert(x, s, le), le)
    ensures multiset(Insert(x, s, le)) == multiset(s) + multiset{x}
    ensures Insert(x, s, le) != [] && (Insert(x, s, le)[0] == x || (s != [] && Insert(x, s, le)[0] == s[0]))
  {
    if s != [] && !le(x, s[0]) {
      var t := s[1..];
      assert Sorted(t, le);
      InsertSpec(x, t, le);
      var r := Insert(x, t, le);
      assert le(s[0], x);
      assert r[0] == x || r[0] == t[0];
      assert s == [s[0]] + t;
      assert Sorted([s[0]] + r, le) by {
        forall i | 0 <= i < |r|
          ensures le(([s[0]] + r)[i], ([s[0]] + r)[i + 1])
        {
          if i > 0 {
            assert ([s[0]] + r)[i] == r[i - 1] && ([s[0]] + r)[i + 1] == r[i];
          }
        }
      }
    }
  }

  /** `sorted(s)` is sorted and holds the same elements as `s`, as often. */
  lemma {:induction false} SortSpec<T(!new)>(s: seq<T>, le: (T, T) -> bool)
    requires Total(le)
    ensures Sorted(Sort(s, le), le)
    ensures multiset(Sort(s, le)) == multiset(s)
    ensures |Sort(s, le)| == |s|
  {
    if s != [] {
      SortSpec(s[1..], le);
      InsertSpec(s[0], Sort(s[1..], le), le);
      assert s == [s[0]] + s[1..];
    }
    assert |multiset(Sort(s, le))| == |multiset(s)|;
  }

  /** Numbers in ascending order. */
  function IntLe(): (int, int) -> bool {
    (a: int, b: int) => a <= b
  }

  lemma IntLeTotal()
    ensures Total(IntLe())
  {
  }

  /** On numbers, sorted pairwise means sorted everywhere. */
  lemma {:induction false} SortedIntsAll(s: seq<int>)
    requires Sorted(s, IntLe())
    ensures forall i, j :: 0 <= i < j < |s| ==> s[i] <= s[j]
    decreases |s|
  {
    if |s| > 1 {
      SortedIntsAll(s[1..]);
      forall i, j | 0 <= i < j < |s|
        ensures s[i] <= s[j]
      {
        if i > 0 {
          assert s[i] == s[1..][i - 1] && s[j] == s[1..][j - 1];
        } else if j > 1 {
          assert s[1] <= s[1..][j - 1];
        }
      }
    }
  }

  /** `sorted(xs)` on numbers: ascending, the same numbers as often. */
  function SortInts(xs: seq<int>): (r: seq<int>)
  {
    Sort(xs, IntLe())
  }

  lemma SortIntsSpec(xs: seq<int>)
    ensures |SortInts(xs)| == |xs|
    ensures forall i, j :: 0 <= i < j < |xs| ==> SortInts(xs)[i] <= SortInts(xs)[j]
    ensures multiset(SortInts(xs)) == multiset(xs)
  {
    IntLeTotal();
    SortSpec(xs, IntLe());
    SortedIntsAll(SortInts(xs));
  }

  /** Python's `<=` on strings: lexicographic on code points, a prefix first. */
  predicate StrLeP(a: string, b: string) {
    if a == [] then true
    else if b == [] then false
    else if a[0] != b[0] then a[0] < b[0]
    else StrLeP(a[1..], b[1..])
  }

  function StrLe(): (string, string) -> bool {
    (a: string, b: string) => StrLeP(a, b)
  }

  lemma {:induction false} StrLeTotalAt(a: string, b: string)
    ensures StrLeP(a, b) || StrLeP(b, a)
  {
    if a != [] && b != [] && a[0] == b[0] {
      StrLeTotalAt(a[1..], b[1..]);
    }
  }

  /** Any two strings are ordered one way or the other. */
  lemma StrLeTotal()
    ensures Total(StrLe())
  {
    forall a: string, b: string
      ensures StrLeP(a, b) || StrLeP(b, a)
    {
      StrLeTotalAt(a, b);
    }
  }

  /** Two strings each less than or equal to the other are equal. */
  lemma {:induction false} StrLeAntisymmetric(a: string, b: string)
    requires StrLeP(a, b) && StrLeP(b, a)
    ensures a == b
  {
    if a != [] && b != [] {
      StrLeAntisymmetric(a[1..], b[1..]);
      assert a == [a[0]] + a[1..] && b == [b[0]] + b[1..];
    }
  }

  /** String order is transitive. */
  lemma {:induction false} StrLeTransitive(a: string, b: string, c: string)
    requires StrLeP(a, b) && StrLeP(b, c)
    ensures StrLeP(a, c)
  {
    if a != [] && b != [] && c != [] && a[0] == b[0] && b[0] == c[0] {
      StrLeTransitive(a[1..], b[1..], c[1..]);
    }
  }
}
