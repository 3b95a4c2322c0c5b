/** Distinct, Except, Intersect, Union and Concat under an equality comparer.

    LINQ implements the first four with a hash set of already-seen elements:
    Distinct and Union add each element and yield it when the set did not yet
    hold an equal one; Except starts the set from the second sequence;
    Intersect starts it from the second sequence and yields an element when it
    can remove an equal one. `seen` below is that set, as a sequence. */
module SetAlgebra {
  import opened Comparers
  import opened Enumerable

  /** No two elements are comparer-equal. */
  ghost predicate NoDuplicates<T>(s: seq<T>, eq: (T, T) -> bool) {
    forall i, j :: 0 <= i < j < |s| ==> !eq(s[i], s[j])
  }

  /** The first-occurrence filter: keeps an element when nothing in `seen`
      and nothing kept before is comparer-equal to it. */
  function DistinctFrom<T(==)>(s: seq<T>, seen: seq<T>, eq: (T, T) -> bool): (r: seq<T>)
    ensures IsSubsequence(r, s)
    ensures forall i :: 0 <= i < |r| ==> !ContainsBy(seen, r[i], eq)
    ensures NoDuplicates(r, eq)
  {
    if s == [] then []
    else if ContainsBy(seen, s[0], eq) then DistinctFrom(s[1..], seen, eq)
    else
      var rest := DistinctFrom(s[1..], seen + [s[0]], eq);
      forall i | 0 <= i < |rest|
        ensures !ContainsBy(seen, rest[i], eq) && !eq(s[0], rest[i])
      {
        ContainsByConcat(seen, [s[0]], rest[i], eq);
      }
      assert ([s[0]] + rest)[1..] == rest;
      [s[0]] + rest
  }

  /** Distinct(comparer). */
  function Distinct<T(==)>(s: seq<T>, eq: (T, T) -> bool): seq<T> {
    DistinctFrom(s, [], eq)
  }

  /** Except(second, comparer): the seen-set starts as `b`. */
  function Except<T(==)>(a: seq<T>, b: seq<T>, eq: (T, T) -> bool): seq<T> {
    DistinctFrom(a, b, eq)
  }

  /** Intersect(second, comparer): the elements of `a` that have an equal in `b`,
      each class once, in the order of `a`. */
  function Intersect<T(==)>(a: seq<T>, b: seq<T>, eq: (T, T) -> bool): seq<T> {
    Distinct(Where(a, InSequence(b, eq)), eq)
  }

  /** Union(second, comparer): `a` then `b`, each class once. */
  function Union<T(==)>(a: seq<T>, b: seq<T>, eq: (T, T) -> bool): seq<T> {
    Distinct(a + b, eq)
  }

  /** Concat(second): plain append, duplicates kept. */
  function Concat<T>(a: seq<T>, b: seq<T>): (r: seq<T>)
    ensures |r| == |a| + |b|
    ensures r[..|a|] == a && r[|a|..] == b
  {
    a + b
  }

  function InSequence<T>(b: seq<T>, eq: (T, T) -> bool): T -> bool {
    (x: T) => ContainsBy(b, x, eq)
  }

  /** Every source element is either equal to something in `seen` or is
      represented in the result. */
  lemma {:induction false} DistinctFromCovers<T(!new)>(s: seq<T>, seen: seq<T>, eq: (T, T) -> bool, x: T)
    requires Equivalence(eq)
    requires x in s
    ensures ContainsBy(seen, x, eq) || ContainsBy(DistinctFrom(s, seen, eq), x, eq)
  {
    var r := DistinctFrom(s, seen, eq);
    if x != s[0] {
      assert x in s[1..];
      if ContainsBy(seen, s[0], eq) {
        DistinctFromCovers(s[1..], seen, eq, x);
      } else {
        var rest := DistinctFrom(s[1..], seen + [s[0]], eq);
        assert r == [s[0]] + rest;
        DistinctFromCovers(s[1..], seen + [s[0]], eq, x);
        ContainsByConcat(seen, [s[0]], x, eq);
        ContainsByConcat([s[0]], rest, x, eq);
      }
    } else if !ContainsBy(seen, x, eq) {
      assert r[0] == x && eq(x, x);
    }
  }

  /** The elements kept are members of the source. */
  lemma {:induction false} DistinctFromMembers<T>(s: seq<T>, seen: seq<T>, eq: (T, T) -> bool, x: T)
    requires x in DistinctFrom(s, seen, eq)
    ensures x in s
  {
    if x != s[0] {
      if ContainsBy(seen, s[0], eq) {
        DistinctFromMembers(s[1..], seen, eq, x);
      } else {
        DistinctFromMembers(s[1..], seen + [s[0]], eq, x);
      }
    }
  }

  /** Extending the source by one element extends the result by that element
      exactly when nothing seen or kept so far is equal to it. */
  lemma {:induction false} DistinctFromSnoc<T>(s: seq<T>, seen: seq<T>, eq: (T, T) -> bool, x: T)
    ensures DistinctFrom(s + [x], seen, eq)
         == DistinctFrom(s, seen, eq) + (if ContainsBy(seen + DistinctFrom(s, seen, eq), x, eq) then [] else [x])
  {
    if s == [] {
      assert s + [x] == [x] && seen + [] == seen;
      assert [x][1..] == [];
    } else {
      assert (s + [x])[0] == s[0] && (s + [x])[1..] == s[1..] + [x];
      if ContainsBy(seen, s[0], eq) {
        DistinctFromSnoc(s[1..], seen, eq, x);
      } else {
        DistinctFromSnoc(s[1..], seen + [s[0]], eq, x);
        var rest := DistinctFrom(s[1..], seen + [s[0]], eq);
        assert seen + [s[0]] + rest == seen + ([s[0]] + rest);
      }
    }
  }

  /** Filtering a sorted sequence keeps it sorted. */
  lemma {:induction false} DistinctFromSorted<T>(s: seq<T>, seen: seq<T>, eq: (T, T) -> bool, le: (T, T) -> bool)
    requires Sorted(s, le)
    ensures Sorted(DistinctFrom(s, seen, eq), le)
  {
    if s != [] {
      if ContainsBy(seen, s[0], eq) {
        DistinctFromSorted(s[1..], seen, eq, le);
      } else {
        var rest := DistinctFrom(s[1..], seen + [s[0]], eq);
        DistinctFromSorted(s[1..], seen + [s[0]], eq, le);
        forall j | 0 <= j < |rest| ensures le(s[0], rest[j]) {
          DistinctFromMembers(s[1..], seen + [s[0]], eq, rest[j]);
          var k :| 0 <= k < |s[1..]| && s[1..][k] == rest[j];
          assert s[k + 1] == rest[j];
        }
      }
    }
  }

  /** Distinct: no comparer-duplicates, every element of the source is
      represented, nothing new appears, and source order is kept. */
  lemma DistinctSpec<T(!new)>(s: seq<T>, eq: (T, T) -> bool)
    requires Equivalence(eq)
    ensures NoDuplicates(Distinct(s, eq), eq)
    ensures IsSubsequence(Distinct(s, eq), s)
    ensures forall x :: x in Distinct(s, eq) ==> x in s
    ensures forall x :: x in s ==> ContainsBy(Distinct(s, eq), x, eq)
  {
    forall x | x in Distinct(s, eq) ensures x in s {
      DistinctFromMembers(s, [], eq, x);
    }
    forall x | x in s ensures ContainsBy(Distinct(s, eq), x, eq) {
      DistinctFromCovers(s, [], eq, x);
    }
  }

  /** A sequence without duplicates, none of whose elements is in `seen`,
      passes through the filter unchanged. */
  lemma {:induction false} DistinctFromOfDistinct<T(!new)>(s: seq<T>, seen: seq<T>, eq: (T, T) -> bool)
    requires Equivalence(eq)
    requires NoDuplicates(s, eq)
    requires forall i :: 0 <= i < |s| ==> !ContainsBy(seen, s[i], eq)
    ensures DistinctFrom(s, seen, eq) == s
  {
    if s != [] {
      forall i | 0 <= i < |s[1..]|
        ensures !ContainsBy(seen + [s[0]], s[1..][i], eq)
      {
        assert s[1..][i] == s[i + 1];
        ContainsByConcat(seen, [s[0]], s[i + 1], eq);
      }
      DistinctFromOfDistinct(s[1..], seen + [s[0]], eq);
    }
  }

  /** Distinct is idempotent. */
  lemma DistinctIdempotent<T(!new)>(s: seq<T>, eq: (T, T) -> bool)
    requires Equivalence(eq)
    ensures Distinct(Distinct(s, eq), eq) == Distinct(s, eq)
  {
    DistinctFromOfDistinct(Distinct(s, eq), [], eq);
  }

  /** Except keeps exactly the elements of `a` with no equal in `b`: each
      kept element comes from `a` and has no equal in `b`, each such element
      of `a` is represented, and no two kept elements are equal. */
  lemma ExceptSpec<T(!new)>(a: seq<T>, b: seq<T>, eq: (T, T) -> bool)
    requires Equivalence(eq)
    ensures NoDuplicates(Except(a, b, eq), eq)
    ensures IsSubsequence(Except(a, b, eq), a)
    ensures forall x :: x in Except(a, b, eq) ==> x in a && !ContainsBy(b, x, eq)
    ensures forall x :: x in a && !ContainsBy(b, x, eq) ==> ContainsBy(Except(a, b, eq), x, eq)
  {
    forall x | x in Except(a, b, eq) ensures x in a && !ContainsBy(b, x, eq) {
      DistinctFromMembers(a, b, eq, x);
    }
    forall x | x in a && !ContainsBy(b, x, eq) ensures ContainsBy(Except(a, b, eq), x, eq) {
      DistinctFromCovers(a, b, eq, x);
    }
  }

  /** Intersect keeps exactly the elements of `a` that have an equal in `b`,
      in the order of `a`. */
  lemma IntersectSpec<T(!new)>(a: seq<T>, b: seq<T>, eq: (T, T) -> bool)
    requires Equivalence(eq)
    ensures IsSubsequence(Intersect(a, b, eq), a)
    ensures NoDuplicates(Intersect(a, b, eq), eq)
    ensures forall x :: x in Intersect(a, b, eq) ==> x in a && ContainsBy(b, x, eq)
    ensures forall x :: x in a && ContainsBy(b, x, eq) ==> ContainsBy(Intersect(a, b, eq), x, eq)
  {
    var w := Where(a, InSequence(b, eq));
    IsSubsequenceTransitive(Intersect(a, b, eq), w, a);
    forall x | x in Intersect(a, b, eq) ensures x in a && ContainsBy(b, x, eq) {
      DistinctFromMembers(w, [], eq, x);
      WhereMembers(a, InSequence(b, eq), x);
    }
    forall x | x in a && ContainsBy(b, x, eq) ensures ContainsBy(Intersect(a, b, eq), x, eq) {
      WhereMembers(a, InSequence(b, eq), x);
      DistinctFromCovers(w, [], eq, x);
    }
  }

  /** Except and Intersect split `a`: every element of `a` is represented in
      exactly one of the two results. */
  lemma ExceptIntersectPartition<T(!new)>(a: seq<T>, b: seq<T>, eq: (T, T) -> bool, x: T)
    requires Equivalence(eq)
    requires x in a
    ensures ContainsBy(Except(a, b, eq), x, eq) != ContainsBy(Intersect(a, b, eq), x, eq)
  {
    ExceptSpec(a, b, eq);
    IntersectSpec(a, b, eq);
    var e := Except(a, b, eq);
    var n := Intersect(a, b, eq);
    if ContainsBy(b, x, eq) {
      forall i | 0 <= i < |e| ensures !eq(e[i], x) {
        assert e[i] in e;
        ContainsByRespects(b, e[i], x, eq);
      }
    } else {
      forall i | 0 <= i < |n| ensures !eq(n[i], x) {
        assert n[i] in n;
        ContainsByRespects(b, n[i], x, eq);
      }
    }
  }

  /** Comparer-equal values have an equal in the same sequences. */
  lemma ContainsByRespects<T(!new)>(b: seq<T>, x: T, y: T, eq: (T, T) -> bool)
    requires Equivalence(eq)
    ensures eq(x, y) ==> ContainsBy(b, x, eq) == ContainsBy(b, y, eq)
  {
    if eq(x, y) && ContainsBy(b, x, eq) {
      var j :| 0 <= j < |b| && eq(b[j], x);
      assert eq(b[j], y);
    }
    if eq(x, y) && ContainsBy(b, y, eq) {
      var j :| 0 <= j < |b| && eq(b[j], y);
      assert eq(b[j], x);
    }
  }

  /** Union has no comparer-duplicates, every element of either input is
      represented, and every element comes from one of the inputs. */
  lemma UnionSpec<T(!new)>(a: seq<T>, b: seq<T>, eq: (T, T) -> bool)
    requires Equivalence(eq)
    ensures NoDuplicates(Union(a, b, eq), eq)
    ensures forall x :: x in a || x in b ==> ContainsBy(Union(a, b, eq), x, eq)
    ensures forall x :: x in Union(a, b, eq) ==> x in a || x in b
  {
    DistinctSpec(a + b, eq);
  }

  /** The integer example: {1, 2, 3, 4} except {3, 4, 5} is [1, 2]. */
  lemma ExceptIntegersExample()
    ensures Except([1, 2, 3, 4], [3, 4, 5], Equal) == [1, 2]
  {
    var b := [3, 4, 5];
    assert !ContainsBy(b, 1, Equal) && !ContainsBy(b + [1], 2, Equal);
    assert ContainsBy(b + [1, 2], 3, Equal) && ContainsBy(b + [1, 2], 4, Equal);
    assert [1, 2, 3, 4][1..] == [2, 3, 4] && [2, 3, 4][1..] == [3, 4] && [3, 4][1..] == [4];
    assert b + [1] + [2] == b + [1, 2];
    assert DistinctFrom([3, 4], b + [1, 2], Equal) == [];
  }
}
