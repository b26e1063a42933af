/**
 * Python's ordering of `str` values (code point by code point, a proper
 * prefix first) and the built-in `sorted` on lists of names.
 */
module Ordering {

  /** `a <= b` on Python strings. */
  predicate Le(a: string, b: string) {
    if a == [] then true
    else if b == [] then false
    else if a[0] != b[0] then a[0] < b[0]
    else Le(a[1..], b[1..])
  }

  predicate IsSorted(s: seq<string>) {
    forall i, j :: 0 <= i < j < |s| ==> Le(s[i], s[j])
  }

  lemma {:induction false} LeReflexive(a: string)
    ensures Le(a, a)
  {
    if a != [] { LeReflexive(a[1..]); }
  }

  lemma {:induction false} LeTotal(a: string, b: string)
    ensures Le(a, b) || Le(b, a)
  {
    if a != [] && b != [] && a[0] == b[0] {
      LeTotal(a[1..], b[1..]);
    }
  }

  lemma {:induction false} LeTransitive(a: string, b: string, c: string)
    requires Le(a, b) && Le(b, c)
    ensures Le(a, c)
  {
    if a != [] && b != [] && c != [] && a[0] == b[0] && b[0] == c[0] {
      LeTransitive(a[1..], b[1..], c[1..]);
    }
  }

  lemma {:induction false} LeAntisymmetric(a: string, b: string)
    requires Le(a, b) && Le(b, a)
    ensures a == b
  {
    if a != [] && b != [] {
      LeAntisymmetric(a[1..], b[1..]);
      assert a == [a[0]] + a[1..] && b == [b[0]] + b[1..];
    }
  }

  /** Inserts `x` into a sorted list before the first element it does not exceed. */
  function Insert(x: string, s: seq<string>): (r: seq<string>)
    requires IsSorted(s)
    ensures IsSorted(r)
    ensures multiset(r) == multiset(s) + multiset{x}
  {
    if s == [] then [x]
    else
      assert s == [s[0]] + s[1..];
      if Le(x, s[0]) then
        forall j | 0 <= j < |s| ensures Le(x, s[j]) {
          if j > 0 { LeTransitive(x, s[0], s[j]); }
        }
        ConsSorted(x, s);
        [x] + s
      else
        var rest := Insert(x, s[1..]);
        LeTotal(x, s[0]);
        LeastOfInsert(s, x, rest);
        ConsSorted(s[0], rest);
        [s[0]] + rest
  }

  /** A sorted list stays sorted with a new head that does not exceed any of its elements. */
  lemma ConsSorted(h: string, s: seq<string>)
    requires IsSorted(s)
    requires forall j :: 0 <= j < |s| ==> Le(h, s[j])
    ensures IsSorted([h] + s)
  {
    var r := [h] + s;
    forall i, j | 0 <= i < j < |r| ensures Le(r[i], r[j]) {
      assert r[j] == s[j - 1];
      if i > 0 { assert r[i] == s[i - 1]; }
    }
  }

  /** The head of a sorted list does not exceed any element of its tail with `x` added, when it does not exceed `x`. */
  lemma LeastOfInsert(s: seq<string>, x: string, rest: seq<string>)
    requires s != [] && IsSorted(s) && Le(s[0], x)
    requires multiset(rest) == multiset(s[1..]) + multiset{x}
    ensures forall j :: 0 <= j < |rest| ==> Le(s[0], rest[j])
  {
    forall j | 0 <= j < |rest| ensures Le(s[0], rest[j]) {
      assert rest[j] in multiset(rest);
      if rest[j] != x {
        assert rest[j] in multiset(s[1..]);
        var k :| 0 <= k < |s[1..]| && s[1..][k] == rest[j];
        assert s[k + 1] == rest[j];
      }
    }
  }

  /** `sorted(s)`: the same elements, in order. */
  function Sort(s: seq<string>): (r: seq<string>)
    ensures IsSorted(r)
    ensures multiset(r) == multiset(s)
  {
    if s == [] then []
    else
      assert s == [s[0]] + s[1..];
      Insert(s[0], Sort(s[1..]))
  }

  lemma HeadIsLeast(a: seq<string>, x: string)
    requires IsSorted(a) && x in a
    ensures Le(a[0], x)
  {
    var i :| 0 <= i < |a| && a[i] == x;
    if i == 0 { LeReflexive(x); }
  }

  lemma SortedTail(s: seq<string>)
    requires s != [] && IsSorted(s)
    ensures IsSorted(s[1..])
  {
    var t := s[1..];
    forall i, j | 0 <= i < j < |t| ensures Le(t[i], t[j]) {
      assert t[i] == s[i + 1] && t[j] == s[j + 1];
    }
  }

  lemma TailMultiset(a: seq<string>)
    requires a != []
    ensures multiset(a[1..]) == multiset(a) - multiset{a[0]}
  {
    assert a == [a[0]] + a[1..];
  }

  /** Sorting pins the result down: two sorted lists with the same elements are equal. */
  lemma {:induction false} SortedUnique(a: seq<string>, b: seq<string>)
    requires IsSorted(a) && IsSorted(b) && multiset(a) == multiset(b)
    ensures a == b
  {
    if a != [] {
      SameHead(a, b);
      SortedTail(a);
      SortedTail(b);
      SortedUnique(a[1..], b[1..]);
      assert a == [a[0]] + a[1..] && b == [b[0]] + b[1..];
    }
  }

  /** Two sorted lists with the same elements start alike, and their tails have the same elements. */
  lemma SameHead(a: seq<string>, b: seq<string>)
    requires a != [] && IsSorted(a) && IsSorted(b) && multiset(a) == multiset(b)
    ensures b != [] && a[0] == b[0] && multiset(a[1..]) == multiset(b[1..])
  {
    assert |b| == |multiset(b)| == |a| > 0;
    assert a[0] in multiset(b) && b[0] in multiset(a);
    HeadIsLeast(a, b[0]);
    HeadIsLeast(b, a[0]);
    LeAntisymmetric(a[0], b[0]);
    TailMultiset(a);
    TailMultiset(b);
  }
}
