/**
 * The LINQ operators the controller chains (Where, Select, Distinct, and
 * ToArray over a selector that may throw), on finite sequences.
 */
module Enumerable {
  import opened Wrappers

  /** Enumerable.Where: keeps, in order, the elements that satisfy p. */
  function Where<T(==,!new)>(p: T -> bool, s: seq<T>): (r: seq<T>)
    ensures |r| <= |s|
    ensures forall x :: x in r <==> x in s && p(x)
  {
    if s == [] then [] else (if p(s[0]) then [s[0]] else []) + Where(p, s[1..])
  }

  /** Where distributes over concatenation, so it keeps the order of the input. */
  lemma {:induction false} WhereAppend<T(!new)>(p: T -> bool, a: seq<T>, b: seq<T>)
    ensures Where(p, a + b) == Where(p, a) + Where(p, b)
  {
    if a == [] {
      assert a + b == b;
    } else {
      assert (a + b)[1..] == a[1..] + b;
      WhereAppend(p, a[1..], b);
    }
  }

  /** Enumerable.Select. */
  function Select<T, U>(f: T -> U, s: seq<T>): (r: seq<U>)
    ensures |r| == |s|
    ensures forall i :: 0 <= i < |s| ==> r[i] == f(s[i])
  {
    seq(|s|, i requires 0 <= i < |s| => f(s[i]))
  }

  lemma SelectAppend<T, U>(f: T -> U, a: seq<T>, b: seq<T>)
    ensures Select(f, a + b) == Select(f, a) + Select(f, b)
  {
  }

  /** A value is selected from the filtered elements exactly when some element passing the filter maps to it. */
  lemma SelectWhereMembership<T(!new), U(!new)>(f: T -> U, p: T -> bool, s: seq<T>, x: U)
    ensures x in Select(f, Where(p, s)) <==> exists e :: e in s && p(e) && f(e) == x
  {
    var w := Where(p, s);
    if x in Select(f, w) {
      var i :| 0 <= i < |w| && Select(f, w)[i] == x;
      assert w[i] in w;
    }
    if exists e :: e in s && p(e) && f(e) == x {
      var e :| e in s && p(e) && f(e) == x;
      assert e in w;
      var i :| 0 <= i < |w| && w[i] == e;
      assert Select(f, w)[i] == x;
    }
  }

  /**
   * Select followed by ToArray, where the selector may throw: the first
   * exception in order ends the enumeration; otherwise every element is mapped.
   */
  function SelectOrFail<T, U, E>(f: T -> Result<U, E>, s: seq<T>): (r: Result<seq<U>, E>)
    ensures r.Success? <==> forall i :: 0 <= i < |s| ==> f(s[i]).Success?
    ensures r.Success? ==> |r.value| == |s| && forall i :: 0 <= i < |s| ==> r.value[i] == f(s[i]).value
    ensures r.Failure? ==> exists i :: 0 <= i < |s| && f(s[i]) == Failure(r.error)
                                       && forall j :: 0 <= j < i ==> f(s[j]).Success?
  {
    if s == [] then Success([])
    else
      match f(s[0])
      case Failure(e) => Failure(e)
      case Success(u) =>
        match SelectOrFail(f, s[1..])
        case Failure(e) =>
          assert forall j :: 1 <= j < |s| ==> s[j] == s[1..][j - 1];
          Failure(e)
        case Success(us) => Success([u] + us)
  }

  /** Once every element has been mapped, a value is in the result exactly when some element maps to it. */
  lemma SelectOrFailMembership<T(!new), U(!new), E>(f: T -> Result<U, E>, s: seq<T>, u: U)
    requires SelectOrFail(f, s).Success?
    ensures u in SelectOrFail(f, s).value <==> exists e :: e in s && f(e) == Success(u)
  {
    var r := SelectOrFail(f, s).value;
    if u in r {
      var i :| 0 <= i < |r| && r[i] == u;
      assert s[i] in s;
    }
    if exists e :: e in s && f(e) == Success(u) {
      var e :| e in s && f(e) == Success(u);
      var i :| 0 <= i < |s| && s[i] == e;
      assert r[i] == u;
    }
  }

  /** The mapping fails exactly when some element's selector throws. */
  lemma SelectOrFailFails<T(!new), U, E>(f: T -> Result<U, E>, s: seq<T>)
    ensures SelectOrFail(f, s).Failure? <==> exists e :: e in s && f(e).Failure?
  {
    if exists e :: e in s && f(e).Failure? {
      var e :| e in s && f(e).Failure?;
      var i :| 0 <= i < |s| && s[i] == e;
    }
  }

  predicate NoDuplicates<T(==,!new)>(s: seq<T>) {
    forall i, j :: 0 <= i < j < |s| ==> s[i] != s[j]
  }

  /** Enumerable.Distinct with the default (ordinal) equality: each value once, at its first occurrence. */
  function Distinct<T(==,!new)>(s: seq<T>): (r: seq<T>)
    ensures NoDuplicates(r)
    ensures forall x :: x in r <==> x in s
    ensures |r| <= |s|
  {
    if s == [] then []
    else
      var d := Distinct(s[..|s| - 1]);
      assert s == s[..|s| - 1] + [s[|s| - 1]];
      if s[|s| - 1] in d then d else d + [s[|s| - 1]]
  }

  /** The position of the first occurrence of x in s. */
  function IndexOf<T(==,!new)>(s: seq<T>, x: T): (k: nat)
    requires x in s
    ensures k < |s| && s[k] == x
    ensures forall j :: 0 <= j < k ==> s[j] != x
  {
    if s[0] == x then 0 else 1 + IndexOf(s[1..], x)
  }

  lemma IndexOfInPrefix<T(!new)>(p: seq<T>, s: seq<T>, x: T)
    requires p <= s && x in p
    ensures IndexOf(s, x) == IndexOf(p, x)
  {
    var k, k' := IndexOf(s, x), IndexOf(p, x);
    assert s[k'] == x;
    assert k <= k';
    assert p[k] == x;
  }

  /** Distinct lists the values in the order of their first occurrences in the input. */
  lemma {:induction false} DistinctKeepsFirstOccurrenceOrder<T(!new)>(s: seq<T>)
    ensures forall i, j :: 0 <= i < j < |Distinct(s)| ==> IndexOf(s, Distinct(s)[i]) < IndexOf(s, Distinct(s)[j])
  {
    if s != [] {
      var p := s[..|s| - 1];
      var x := s[|s| - 1];
      var d := Distinct(p);
      DistinctKeepsFirstOccurrenceOrder(p);
      forall y | y in p
        ensures IndexOf(s, y) == IndexOf(p, y) && IndexOf(s, y) < |p|
      {
        IndexOfInPrefix(p, s, y);
      }
      if x !in d {
        assert forall j :: 0 <= j < |p| ==> s[j] == p[j] && p[j] != x;
        assert IndexOf(s, x) == |s| - 1;
      }
    }
  }

  /**
   * Distinct of a concatenation begins with Distinct of the first part; what
   * follows comes from the second part and never occurs in the first.
   */
  lemma {:induction false} DistinctOfAppend<T(!new)>(a: seq<T>, b: seq<T>)
    ensures Distinct(a) <= Distinct(a + b)
    ensures forall i :: |Distinct(a)| <= i < |Distinct(a + b)| ==> Distinct(a + b)[i] in b && Distinct(a + b)[i] !in a
  {
    if b == [] {
      assert a + b == a;
    } else {
      var b' := b[..|b| - 1];
      assert (a + b)[..|a + b| - 1] == a + b';
      assert (a + b)[|a + b| - 1] == b[|b| - 1];
      DistinctOfAppend(a, b');
    }
  }

  /**
   * Filtering keeps the order of first occurrences: for two values that pass,
   * the one that comes first in the filtered list comes first in the input.
   */
  lemma {:induction false} WhereKeepsFirstOccurrenceOrder<T(!new)>(p: T -> bool, s: seq<T>, x: T, y: T)
    requires x in Where(p, s) && y in Where(p, s)
    requires IndexOf(Where(p, s), x) < IndexOf(Where(p, s), y)
    ensures IndexOf(s, x) < IndexOf(s, y)
  {
    var w := Where(p, s);
    var w' := Where(p, s[1..]);
    assert s == [s[0]] + s[1..];
    assert p(s[0]) ==> w[0] == s[0];
    if s[0] == x {
    } else if s[0] == y {
      assert false;
    } else {
      assert x in w' && y in w';
      if p(s[0]) {
        assert w == [s[0]] + w';
        assert IndexOf(w, x) == 1 + IndexOf(w', x) by { assert w[1..] == w'; }
        assert IndexOf(w, y) == 1 + IndexOf(w', y) by { assert w[1..] == w'; }
      } else {
        assert w == w';
      }
      WhereKeepsFirstOccurrenceOrder(p, s[1..], x, y);
    }
  }

  /** Filtering and then de-duplicating keeps the values in the order of their first occurrence in the input. */
  lemma DistinctWhereFirstOccurrenceOrder<T(!new)>(p: T -> bool, s: seq<T>)
    ensures forall i :: 0 <= i < |Distinct(Where(p, s))| ==> Distinct(Where(p, s))[i] in s
    ensures forall i, j :: 0 <= i < j < |Distinct(Where(p, s))| ==>
              IndexOf(s, Distinct(Where(p, s))[i]) < IndexOf(s, Distinct(Where(p, s))[j])
  {
    var w := Where(p, s);
    var d := Distinct(w);
    DistinctKeepsFirstOccurrenceOrder(w);
    forall i, j | 0 <= i < j < |d|
      ensures IndexOf(s, d[i]) < IndexOf(s, d[j])
    {
      WhereKeepsFirstOccurrenceOrder(p, s, d[i], d[j]);
    }
  }
}
