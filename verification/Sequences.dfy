/** List comprehensions and the few facts about them the other modules use. */
module Sequences {

  predicate Distinct<T(==)>(xs: seq<T>) {
    forall i, j :: 0 <= i < j < |xs| ==> xs[i] != xs[j]
  }

  ghost predicate DistinctOn<T, U>(key: T -> U, xs: seq<T>) {
    forall i, j :: 0 <= i < j < |xs| ==> key(xs[i]) != key(xs[j])
  }

  ghost predicate SameElements<T(!new)>(a: seq<T>, b: seq<T>) {
    forall x :: x in a <==> x in b
  }

  function Filter<T>(keep: T -> bool, xs: seq<T>): seq<T> {
    if xs == [] then []
    else if keep(xs[0]) then [xs[0]] + Filter(keep, xs[1..])
    else Filter(keep, xs[1..])
  }

  lemma {:induction false} FilterMembers<T(!new)>(keep: T -> bool, xs: seq<T>)
    ensures forall x :: x in Filter(keep, xs) <==> x in xs && keep(x)
  {
    if xs != [] {
      FilterMembers(keep, xs[1..]);
      assert xs == [xs[0]] + xs[1..];
    }
  }

  lemma {:induction false} FilterAppend<T>(keep: T -> bool, p: seq<T>, q: seq<T>)
    ensures Filter(keep, p + q) == Filter(keep, p) + Filter(keep, q)
  {
    if p == [] {
      assert p + q == q;
    } else {
      assert (p + q)[1..] == p[1..] + q && (p + q)[0] == p[0];
      FilterAppend(keep, p[1..], q);
    }
  }

  lemma {:induction false} FilterAll<T>(keep: T -> bool, xs: seq<T>)
    requires forall x :: x in xs ==> keep(x)
    ensures Filter(keep, xs) == xs
  {
    if xs != [] {
      assert xs == [xs[0]] + xs[1..];
      FilterAll(keep, xs[1..]);
    }
  }

  lemma {:induction false} FilterNone<T>(keep: T -> bool, xs: seq<T>)
    requires forall x :: x in xs ==> !keep(x)
    ensures Filter(keep, xs) == []
  {
    if xs != [] {
      assert xs == [xs[0]] + xs[1..];
      FilterNone(keep, xs[1..]);
    }
  }

  lemma {:induction false} FilterDistinctOn<T(!new), U>(keep: T -> bool, key: T -> U, xs: seq<T>)
    requires DistinctOn(key, xs)
    ensures DistinctOn(key, Filter(keep, xs))
  {
    if xs != [] {
      var rest := Filter(keep, xs[1..]);
      FilterDistinctOn(keep, key, xs[1..]);
      FilterMembers(keep, xs[1..]);
      forall i | 0 <= i < |rest| ensures key(xs[0]) != key(rest[i]) {
        assert rest[i] in xs[1..];
        var j :| 0 <= j < |xs[1..]| && xs[1..][j] == rest[i];
        assert xs[j + 1] == rest[i];
      }
    }
  }

  lemma JoinDistinct<T>(p: seq<T>, q: seq<T>)
    requires Distinct(p) && Distinct(q) && forall x :: x in p ==> x !in q
    ensures Distinct(p + q)
  {
    forall i, j | 0 <= i < j < |p + q| ensures (p + q)[i] != (p + q)[j] {
      if i < |p| <= j {
        assert p[i] in p && q[j - |p|] in q;
      }
    }
  }

  lemma DistinctParts<T>(p: seq<T>, q: seq<T>)
    requires Distinct(p + q)
    ensures Distinct(p) && Distinct(q)
    ensures forall x :: x in p ==> x !in q
  {
    assert forall i :: 0 <= i < |p| ==> (p + q)[i] == p[i];
    assert forall i :: 0 <= i < |q| ==> (p + q)[|p| + i] == q[i];
  }

  lemma Assoc<T>(p: seq<T>, q: seq<T>, r: seq<T>)
    ensures p + q + r == p + (q + r)
  {
  }

  // Equal concatenations with equally long first parts have equal parts.
  lemma SplitAt<T>(p: seq<T>, x: seq<T>, q: seq<T>, y: seq<T>)
    requires p + x == q + y && |p| == |q|
    ensures p == q && x == y
  {
    assert p == (p + x)[..|p|] == (q + y)[..|q|] == q;
    assert x == (p + x)[|p|..] == (q + y)[|q|..] == y;
  }

  lemma SplitSame<T>(p: seq<T>, x: seq<T>, y: seq<T>)
    ensures p + x == p + y <==> x == y
  {
    if p + x == p + y {
      SplitAt(p, x, p, y);
    }
  }

  lemma Nonempty<T(!new)>(a: seq<T>)
    ensures a != [] <==> exists x :: x in a
  {
    assert |a| > 0 ==> a[0] in a;
  }
}
