/**
 The LINQ-to-objects operators the program uses, over eagerly evaluated
 sequences: Where (filter), Select (projection), Count, and the query
 expression `from x in s where p(x) select f(x)`.
 */
module Linq {

  /** The identity projection of a degenerate `select x` clause. */
  function Id<T>(x: T): T { x }

  /** The predicate of a query expression that has no `where` clause. */
  predicate Always<T>(x: T) { true }

  /** What Where makes of one element: the element itself if it satisfies p, else nothing. */
  function Keep<T>(x: T, p: T -> bool): seq<T> { if p(x) then [x] else [] }

  /** Enumerable.Where: the elements of s that satisfy p, enumerated front to back. */
  function Where<T>(s: seq<T>, p: T -> bool): (r: seq<T>)
    ensures |r| <= |s|
  {
    if s == [] then []
    else if p(s[0]) then [s[0]] + Where(s[1..], p)
    else Where(s[1..], p)
  }

  /** Enumerable.Select: f applied to every element of s, in order. */
  function Select<T, U>(s: seq<T>, f: T -> U): (r: seq<U>)
    ensures |r| == |s|
    ensures forall i :: 0 <= i < |s| ==> r[i] == f(s[i])
  {
    if s == [] then [] else [f(s[0])] + Select(s[1..], f)
  }

  /** Enumerable.Count: the number of elements an enumeration yields. */
  function Count<T>(s: seq<T>): (n: nat)
    ensures n == |s|
  {
    if s == [] then 0 else 1 + Count(s[1..])
  }

  /**
   A query expression `from x in s where p(x) select f(x)`, read as a
   comprehension: one pass that keeps and projects in the same step.
   */
  function Query<T, U>(s: seq<T>, p: T -> bool, f: T -> U): (r: seq<U>)
    ensures |r| <= |s|
  {
    if s == [] then []
    else if p(s[0]) then [f(s[0])] + Query(s[1..], p, f)
    else Query(s[1..], p, f)
  }

  /**
   The positions of s whose elements satisfy p, in increasing order: the
   reference against which the order-preserving filters are stated.
   */
  ghost function Positions<T>(s: seq<T>, p: T -> bool): (ix: seq<nat>)
    ensures forall k :: 0 <= k < |ix| ==> ix[k] < |s| && p(s[ix[k]])
    ensures forall i :: 0 <= i < |s| && p(s[i]) ==> i in ix
    ensures forall k, l :: 0 <= k < l < |ix| ==> ix[k] < ix[l]
  {
    if s == [] then []
    else Positions(s[..|s| - 1], p) + (if p(s[|s| - 1]) then [|s| - 1] else [])
  }

  /** r holds exactly the elements of s that satisfy p, in the order they have in s. */
  ghost predicate IsFilterOf<T>(r: seq<T>, s: seq<T>, p: T -> bool)
  {
    var ix := Positions(s, p);
    |r| == |ix| && forall k :: 0 <= k < |r| ==> r[k] == s[ix[k]]
  }

  /** r holds f of exactly the elements of s that satisfy p, in the order they have in s. */
  ghost predicate IsProjectedFilterOf<T, U>(r: seq<U>, s: seq<T>, p: T -> bool, f: T -> U)
  {
    var ix := Positions(s, p);
    |r| == |ix| && forall k :: 0 <= k < |r| ==> r[k] == f(s[ix[k]])
  }

  /** Filtering distributes over concatenation: Where never reorders. */
  lemma {:induction false} WhereAppend<T>(a: seq<T>, b: seq<T>, p: T -> bool)
    ensures Where(a + b, p) == Where(a, p) + Where(b, p)
  {
    if a == [] {
      assert a + b == b;
    } else {
      assert (a + b)[0] == a[0];
      assert (a + b)[1..] == a[1..] + b;
      WhereAppend(a[1..], b, p);
    }
  }

  /** Where only drops elements: what it keeps is a sub-multiset of its input. */
  lemma {:induction false} WhereSubMultiset<T>(s: seq<T>, p: T -> bool)
    ensures multiset(Where(s, p)) <= multiset(s)
  {
    if s != [] {
      assert s == [s[0]] + s[1..];
      WhereSubMultiset(s[1..], p);
    }
  }

  /** Filtering the suffix of s from position i: what s[i] contributes, then the rest. */
  lemma WhereFrom<T>(s: seq<T>, i: nat, p: T -> bool)
    requires i < |s|
    ensures Where(s[i..], p) == Keep(s[i], p) + Where(s[i + 1..], p)
  {
    assert s[i..][0] == s[i];
    assert s[i..][1..] == s[i + 1..];
  }

  /** Where keeps exactly the elements at the satisfying positions, in order. */
  lemma {:induction false} WhereIsFilter<T>(s: seq<T>, p: T -> bool)
    ensures IsFilterOf(Where(s, p), s, p)
  {
    if s != [] {
      var init, last := s[..|s| - 1], s[|s| - 1];
      assert s == init + [last];
      WhereAppend(init, [last], p);
      WhereIsFilter(init, p);
      assert [last][1..] == [];
      assert Where([last], p) == if p(last) then [last] else [];
    }
  }

  /** An element is kept by Where exactly when it is in s and satisfies p. */
  lemma WhereMembers<T>(s: seq<T>, p: T -> bool)
    ensures forall i :: 0 <= i < |Where(s, p)| ==> Where(s, p)[i] in s && p(Where(s, p)[i])
    ensures forall i :: 0 <= i < |s| && p(s[i]) ==> s[i] in Where(s, p)
  {
    var r, ix := Where(s, p), Positions(s, p);
    WhereIsFilter(s, p);
    forall i | 0 <= i < |s| && p(s[i])
      ensures s[i] in r
    {
      var k :| 0 <= k < |ix| && ix[k] == i;
      assert r[k] == s[i];
    }
  }

  /** The query expression form and the method-call form `s.Where(p).Select(f)` agree. */
  lemma {:induction false} QueryIsWhereSelect<T, U>(s: seq<T>, p: T -> bool, f: T -> U)
    ensures Query(s, p, f) == Select(Where(s, p), f)
  {
    if s != [] {
      QueryIsWhereSelect(s[1..], p, f);
      if p(s[0]) {
        assert Where(s, p) == [s[0]] + Where(s[1..], p);
        assert Select([s[0]] + Where(s[1..], p), f)[1..] == Select(Where(s[1..], p), f);
      }
    }
  }

  /** `from x in s where p(x) select x` is `s.Where(p)`. */
  lemma QueryIdIsWhere<T>(s: seq<T>, p: T -> bool)
    ensures Query(s, p, Id) == Where(s, p)
  {
    QueryIsWhereSelect(s, p, Id);
  }

  /** `from x in s select f(x)` is `s.Select(f)`. */
  lemma {:induction false} QueryAlwaysIsSelect<T, U>(s: seq<T>, f: T -> U)
    ensures Query(s, Always, f) == Select(s, f)
  {
    if s != [] {
      QueryAlwaysIsSelect(s[1..], f);
    }
  }

  /** A query expression keeps and projects exactly the satisfying elements, in order. */
  lemma QueryIsProjectedFilter<T, U>(s: seq<T>, p: T -> bool, f: T -> U)
    ensures IsProjectedFilterOf(Query(s, p, f), s, p, f)
  {
    QueryIsWhereSelect(s, p, f);
    WhereIsFilter(s, p);
  }

  /** Projecting a filter keeps and projects exactly the satisfying elements, in order. */
  lemma SelectWhereIsProjectedFilter<T, U>(s: seq<T>, p: T -> bool, f: T -> U)
    ensures IsProjectedFilterOf(Select(Where(s, p), f), s, p, f)
  {
    WhereIsFilter(s, p);
  }
}
