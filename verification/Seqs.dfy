/** Generic sequence operations the catalog pipeline is built from: the
    order-preserving `filter` of JavaScript arrays, the subsequence relation
    that every filter result stands in, and the first-occurrence
    de-duplication performed by spreading a `Set`. */
module Seqs {

  function Min(a: int, b: int): (m: int) { if a <= b then a else b }

  /** `s.filter(p)`: the elements of `s` that satisfy `p`, in their original order. */
  function Filter<T(!new)>(s: seq<T>, p: T -> bool): (r: seq<T>)
    ensures |r| <= |s|
    ensures forall x :: x in r <==> x in s && p(x)
    ensures forall x :: multiset(r)[x] == (if p(x) then multiset(s)[x] else 0)
    decreases |s|
  {
    if s == [] then []
    else
      assert s == [s[0]] + s[1..];
      (if p(s[0]) then [s[0]] else []) + Filter(s[1..], p)
  }

  /** Filtering a concatenation filters each part. */
  lemma {:induction false} FilterAppend<T(!new)>(a: seq<T>, b: seq<T>, p: T -> bool)
    ensures Filter(a + b, p) == Filter(a, p) + Filter(b, p)
    decreases |a|
  {
    if a == [] {
      assert a + b == b;
    } else {
      assert (a + b)[0] == a[0];
      assert (a + b)[1..] == a[1..] + b;
      FilterAppend(a[1..], b, p);
      var head := if p(a[0]) then [a[0]] else [];
      calc {
        Filter(a + b, p);
        head + Filter(a[1..] + b, p);
        head + (Filter(a[1..], p) + Filter(b, p));
        { Assoc(head, Filter(a[1..], p), Filter(b, p)); }
        (head + Filter(a[1..], p)) + Filter(b, p);
        Filter(a, p) + Filter(b, p);
      }
    }
  }

  /** `a` can be obtained from `b` by deleting elements. */
  predicate IsSubsequence<T(==)>(a: seq<T>, b: seq<T>)
    decreases |b|
  {
    if a == [] then true
    else if b == [] then false
    else if a[0] == b[0] then IsSubsequence(a[1..], b[1..])
    else IsSubsequence(a, b[1..])
  }

  lemma {:induction false} SubsequenceReflexive<T>(s: seq<T>)
    ensures IsSubsequence(s, s)
    decreases |s|
  {
    if s != [] {
      SubsequenceReflexive(s[1..]);
    }
  }

  lemma {:induction false} FilterIsSubsequence<T(!new)>(s: seq<T>, p: T -> bool)
    ensures IsSubsequence(Filter(s, p), s)
    decreases |s|
  {
    if s != [] {
      FilterIsSubsequence(s[1..], p);
      var rest := Filter(s[1..], p);
      if p(s[0]) {
        assert Filter(s, p) == [s[0]] + rest;
        assert ([s[0]] + rest)[1..] == rest;
      } else {
        assert Filter(s, p) == rest;
        if rest != [] {
          assert rest[0] in rest;
        }
      }
    }
  }

  /** Filtering twice with the same predicate changes nothing the second time. */
  lemma {:induction false} FilterIdempotent<T(!new)>(s: seq<T>, p: T -> bool)
    ensures Filter(Filter(s, p), p) == Filter(s, p)
    decreases |s|
  {
    if s != [] {
      FilterIdempotent(s[1..], p);
      var rest := Filter(s[1..], p);
      if p(s[0]) {
        calc {
          Filter(Filter(s, p), p);
          Filter([s[0]] + rest, p);
          { assert ([s[0]] + rest)[1..] == rest; }
          [s[0]] + Filter(rest, p);
          [s[0]] + rest;
          Filter(s, p);
        }
      } else {
        assert Filter(s, p) == [] + rest == rest;
      }
    }
  }

  /** Predicates that agree on the elements of `s` select the same elements. */
  lemma {:induction false} FilterCongruent<T(!new)>(s: seq<T>, p: T -> bool, q: T -> bool)
    requires forall x :: x in s ==> p(x) == q(x)
    ensures Filter(s, p) == Filter(s, q)
    decreases |s|
  {
    if s != [] {
      assert s[0] in s;
      forall x | x in s[1..] ensures p(x) == q(x) {
        assert x in s;
      }
      FilterCongruent(s[1..], p, q);
    }
  }

  /** A filter that keeps every element of `s` returns `s` itself. */
  lemma {:induction false} FilterKeepsAll<T(!new)>(s: seq<T>, p: T -> bool)
    requires forall x :: x in s ==> p(x)
    ensures Filter(s, p) == s
    decreases |s|
  {
    if s != [] {
      assert s[0] in s;
      forall x | x in s[1..] ensures p(x) {
        assert x in s;
      }
      FilterKeepsAll(s[1..], p);
      assert [s[0]] + s[1..] == s;
    }
  }

  /** Filtering by a conjunction is filtering by one conjunct after the other. */
  lemma {:induction false} FilterConjunction<T(!new)>(s: seq<T>, p: T -> bool, q: T -> bool, both: T -> bool)
    requires forall x :: both(x) == (p(x) && q(x))
    ensures Filter(s, both) == Filter(Filter(s, q), p)
    decreases |s|
  {
    if s != [] {
      FilterConjunction(s[1..], p, q, both);
      var rest := Filter(s[1..], q);
      if q(s[0]) {
        assert Filter(s, q) == [s[0]] + rest;
        assert ([s[0]] + rest)[1..] == rest;
      } else {
        assert Filter(s, q) == rest;
      }
    }
  }

  /** Two filters with disjoint predicates split the filter by their disjunction. */
  lemma {:induction false} FilterDisjointCount<T(!new)>(s: seq<T>, p: T -> bool, q: T -> bool, either: T -> bool)
    requires forall x :: either(x) == (p(x) || q(x))
    requires forall x :: !(p(x) && q(x))
    ensures |Filter(s, p)| + |Filter(s, q)| == |Filter(s, either)|
    decreases |s|
  {
    if s != [] {
      FilterDisjointCount(s[1..], p, q, either);
    }
  }

  predicate NoDuplicates<T(==)>(s: seq<T>) {
    forall i, j :: 0 <= i < j < |s| ==> s[i] != s[j]
  }

  /** The position of the first occurrence of `x` in `s`. */
  function FirstIndex<T(==)>(s: seq<T>, x: T): (k: nat)
    requires x in s
    ensures k < |s| && s[k] == x
    ensures forall j :: 0 <= j < k ==> s[j] != x
    decreases |s|
  {
    if s[0] == x then 0 else 1 + FirstIndex(s[1..], x)
  }

  /** `[...new Set(s)]`: the distinct elements of `s`, each where it first occurs. */
  function Distinct<T(==,!new)>(s: seq<T>): (r: seq<T>)
    ensures forall x :: x in r <==> x in s
    ensures NoDuplicates(r)
    decreases |s|
  {
    if s == [] then []
    else
      var d := Distinct(s[..|s| - 1]);
      var last := s[|s| - 1];
      assert forall x :: x in s <==> x in s[..|s| - 1] || x == last;
      if last in d then d else d + [last]
  }

  lemma FirstIndexSnoc<T>(s: seq<T>, y: T, x: T)
    requires x in s
    ensures FirstIndex(s + [y], x) == FirstIndex(s, x)
  {
    var k := FirstIndex(s, x);
    assert (s + [y])[k] == x;
    var k' := FirstIndex(s + [y], x);
    assert k' <= k;
  }

  /** Ranks the elements of `r` by their first occurrence in `s`. */
  ghost predicate InFirstOccurrenceOrder<T(!new)>(r: seq<T>, s: seq<T>)
    requires forall x :: x in r ==> x in s
  {
    forall i, j :: 0 <= i < j < |r| ==> FirstIndex(s, r[i]) < FirstIndex(s, r[j])
  }

  /** Appending an element keeps the first-occurrence ranks of those already present. */
  lemma SnocKeepsOrder<T(!new)>(r: seq<T>, init: seq<T>, last: T)
    requires forall x :: x in r ==> x in init
    requires InFirstOccurrenceOrder(r, init)
    ensures InFirstOccurrenceOrder(r, init + [last])
  {
    forall i, j | 0 <= i < j < |r| ensures FirstIndex(init + [last], r[i]) < FirstIndex(init + [last], r[j]) {
      FirstIndexSnoc(init, last, r[i]);
      FirstIndexSnoc(init, last, r[j]);
    }
  }

  /** A new element appended after the others ranks last. */
  lemma SnocNewLast<T(!new)>(r: seq<T>, init: seq<T>, last: T)
    requires forall x :: x in r ==> x in init
    requires InFirstOccurrenceOrder(r, init + [last])
    requires last !in init
    ensures InFirstOccurrenceOrder(r + [last], init + [last])
  {
    var s := init + [last];
    assert FirstIndex(s, last) == |init|;
    var r' := r + [last];
    forall i, j | 0 <= i < j < |r'| ensures FirstIndex(s, r'[i]) < FirstIndex(s, r'[j]) {
      assert r'[i] == r[i];
      FirstIndexSnoc(init, last, r[i]);
      if j < |r| {
        assert r'[j] == r[j];
      }
    }
  }

  /** The elements of `Distinct(s)` appear in the order of their first occurrence in `s`. */
  lemma {:induction false} DistinctFirstOccurrenceOrder<T(!new)>(s: seq<T>)
    ensures InFirstOccurrenceOrder(Distinct(s), s)
    decreases |s|
  {
    if s != [] {
      var init, last := s[..|s| - 1], s[|s| - 1];
      assert s == init + [last];
      DistinctFirstOccurrenceOrder(init);
      var d := Distinct(init);
      SnocKeepsOrder(d, init, last);
      if last !in d {
        SnocNewLast(d, init, last);
      }
    }
  }

  /** Concatenation is associative. */
  lemma Assoc<T>(a: seq<T>, b: seq<T>, c: seq<T>)
    ensures a + (b + c) == (a + b) + c
  {
  }
}
