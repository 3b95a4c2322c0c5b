/** The element-wise operators of LINQ to Objects over finite, already
    materialised sequences: filter, project, partition, quantifiers,
    selectors and aggregates. Every demo enumerates its pipeline once (or
    materialises it with ToList), so eager sequences have the same observable
    result as the deferred originals. */
module Enumerable {
  import opened Comparers

  datatype Option<T> = None | Some(value: T)

  /** The failures of the selector operators (InvalidOperationException in .NET). */
  datatype Error = NotFound | MultipleMatches

  datatype Result<T> = Ok(value: T) | Err(error: Error)

  /** `r` is `s` with some elements dropped, the rest kept in order. */
  ghost predicate IsSubsequence<T>(r: seq<T>, s: seq<T>)
    decreases |s|
  {
    r == [] || (s != [] && ((r[0] == s[0] && IsSubsequence(r[1..], s[1..])) || IsSubsequence(r, s[1..])))
  }

  /** Every sequence is a subsequence of itself. */
  lemma {:induction false} IsSubsequenceReflexive<T>(s: seq<T>)
    ensures IsSubsequence(s, s)
  {
    if s != [] {
      IsSubsequenceReflexive(s[1..]);
    }
  }

  /** A subsequence of a subsequence of `c` is a subsequence of `c`. */
  lemma {:induction false} IsSubsequenceTransitive<T>(a: seq<T>, b: seq<T>, c: seq<T>)
    requires IsSubsequence(a, b) && IsSubsequence(b, c)
    ensures IsSubsequence(a, c)
    decreases |c|
  {
    if a != [] {
      if IsSubsequence(b, c[1..]) {
        IsSubsequenceTransitive(a, b, c[1..]);
      } else if a[0] == b[0] && IsSubsequence(a[1..], b[1..]) {
        IsSubsequenceTransitive(a[1..], b[1..], c[1..]);
      } else {
        IsSubsequenceTransitive(a, b[1..], c[1..]);
      }
    }
  }

  /** Count(predicate): the number of elements satisfying `p`; 0 on empty input. */
  function CountWhere<T>(s: seq<T>, p: T -> bool): (n: nat)
    ensures n <= |s|
    ensures n == 0 <==> forall i :: 0 <= i < |s| ==> !p(s[i])
    ensures n == |s| <==> forall i :: 0 <= i < |s| ==> p(s[i])
  {
    if s == [] then 0
    else
      var rest := CountWhere(s[1..], p);
      assert forall i :: 1 <= i < |s| ==> s[i] == s[1..][i - 1];
      (if p(s[0]) then 1 else 0) + rest
  }

  /** Where: exactly the elements satisfying `p`, in source order. The three
      contracts together determine the result: a subsequence, all of whose
      elements pass, that is as long as the number of passing elements.
      WhereMembers restates them element by element. */
  function Where<T>(s: seq<T>, p: T -> bool): (r: seq<T>)
    ensures IsSubsequence(r, s)
    ensures forall i :: 0 <= i < |r| ==> p(r[i])
    ensures |r| == CountWhere(s, p)
  {
    if s == [] then []
    else
      var rest := Where(s[1..], p);
      if p(s[0]) then
        assert ([s[0]] + rest)[1..] == rest;
        [s[0]] + rest
      else rest
  }

  /** An element is in the filtered sequence exactly when it is in the
      source and passes the predicate. */
  lemma {:induction false} WhereMembers<T>(s: seq<T>, p: T -> bool, x: T)
    ensures x in Where(s, p) <==> x in s && p(x)
  {
    if s != [] {
      WhereMembers(s[1..], p, x);
      assert s == [s[0]] + s[1..];
    }
  }

  /** Select: `f` applied to each element, in order. */
  function Select<T, U>(s: seq<T>, f: T -> U): (r: seq<U>)
    ensures |r| == |s|
    ensures forall i :: 0 <= i < |s| ==> r[i] == f(s[i])
  {
    if s == [] then [] else [f(s[0])] + Select(s[1..], f)
  }

  /** Any(predicate): short-circuits on the first element that passes. */
  function Any<T>(s: seq<T>, p: T -> bool): (b: bool)
    ensures b <==> exists i :: 0 <= i < |s| && p(s[i])
  {
    if s == [] then false
    else if p(s[0]) then true
    else
      var rest := Any(s[1..], p);
      assert forall i :: 1 <= i < |s| ==> s[i] == s[1..][i - 1];
      rest
  }

  /** Contains(value, comparer): some element is comparer-equal to `x`. */
  function ContainsBy<T>(s: seq<T>, x: T, eq: (T, T) -> bool): (b: bool)
    ensures b <==> exists i :: 0 <= i < |s| && eq(s[i], x)
  {
    if s == [] then false
    else if eq(s[0], x) then true
    else
      var rest := ContainsBy(s[1..], x, eq);
      assert forall i :: 1 <= i < |s| ==> s[i] == s[1..][i - 1];
      rest
  }

  /** SequenceEqual(other, comparer): equal lengths and comparer-equal
      elements position by position, stopping at the first mismatch. */
  function SequenceEqual<T>(a: seq<T>, b: seq<T>, eq: (T, T) -> bool): (r: bool)
    ensures r <==> |a| == |b| && forall i :: 0 <= i < |a| ==> eq(a[i], b[i])
  {
    if a == [] || b == [] then |a| == |b|
    else if !eq(a[0], b[0]) then false
    else
      var rest := SequenceEqual(a[1..], b[1..], eq);
      assert forall i :: 1 <= i < |a| ==> a[i] == a[1..][i - 1];
      assert forall i :: 1 <= i < |b| ==> b[i] == b[1..][i - 1];
      rest
  }

  lemma SequenceEqualReflexive<T(!new)>(s: seq<T>, eq: (T, T) -> bool)
    requires Equivalence(eq)
    ensures SequenceEqual(s, s, eq)
  {
  }

  /** Take(n): the first n elements, or all of them when there are fewer. */
  function Take<T>(s: seq<T>, n: nat): (r: seq<T>)
    ensures |r| == if n < |s| then n else |s|
    ensures r == s[..|r|]
  {
    if n < |s| then s[..n] else s
  }

  /** Skip(n): what remains after the first n elements; empty when there are fewer. */
  function Skip<T>(s: seq<T>, n: nat): (r: seq<T>)
    ensures |r| == if n < |s| then |s| - n else 0
    ensures r == s[|s| - |r|..]
  {
    if n < |s| then s[n..] else []
  }

  lemma TakeThenSkip<T>(s: seq<T>, n: nat)
    ensures Take(s, n) + Skip(s, n) == s
  {
  }

  /** TakeWhile(p): the longest prefix all of whose elements pass; it stops
      for good at the first element that fails. */
  function TakeWhile<T>(s: seq<T>, p: T -> bool): (r: seq<T>)
    ensures |r| <= |s| && r == s[..|r|]
    ensures forall i :: 0 <= i < |r| ==> p(s[i])
    ensures |r| < |s| ==> !p(s[|r|])
  {
    if s == [] || !p(s[0]) then []
    else [s[0]] + TakeWhile(s[1..], p)
  }

  /** SkipWhile(p): drops elements while they pass, then yields everything
      from the first failing element on, unconditionally. */
  function SkipWhile<T>(s: seq<T>, p: T -> bool): (r: seq<T>)
    ensures |r| <= |s| && r == s[|s| - |r|..]
    ensures forall i :: 0 <= i < |s| - |r| ==> p(s[i])
    ensures r != [] ==> !p(r[0])
  {
    if s == [] || !p(s[0]) then s
    else SkipWhile(s[1..], p)
  }

  /** TakeWhile and SkipWhile with the same predicate split the source. */
  lemma {:induction false} TakeWhileThenSkipWhile<T>(s: seq<T>, p: T -> bool)
    ensures TakeWhile(s, p) + SkipWhile(s, p) == s
  {
    if s != [] && p(s[0]) {
      TakeWhileThenSkipWhile(s[1..], p);
      assert s == [s[0]] + s[1..];
    }
  }

  /** Sum(selector): the total of `f` over the elements; 0 on empty input. */
  function Sum<T>(s: seq<T>, f: T -> real): real {
    if s == [] then 0.0 else f(s[0]) + Sum(s[1..], f)
  }

  lemma {:induction false} SumConcat<T>(a: seq<T>, b: seq<T>, f: T -> real)
    ensures Sum(a + b, f) == Sum(a, f) + Sum(b, f)
  {
    if a != [] {
      calc {
        Sum(a + b, f);
        f(a[0]) + Sum((a + b)[1..], f);
        { assert (a + b)[1..] == a[1..] + b; }
        f(a[0]) + Sum(a[1..] + b, f);
        { SumConcat(a[1..], b, f); }
        f(a[0]) + Sum(a[1..], f) + Sum(b, f);
      }
    } else {
      assert a + b == b;
    }
  }

  /** The total of `f` over the elements that pass `p`, element by element:
      the reference for Sum over a filtered sequence. */
  function SumIf<T>(s: seq<T>, p: T -> bool, f: T -> real): real {
    if s == [] then 0.0 else (if p(s[0]) then f(s[0]) else 0.0) + SumIf(s[1..], p, f)
  }

  /** Filtering then summing adds up exactly the passing elements. */
  lemma {:induction false} SumWhere<T>(s: seq<T>, p: T -> bool, f: T -> real)
    ensures Sum(Where(s, p), f) == SumIf(s, p, f)
  {
    if s != [] {
      SumWhere(s[1..], p, f);
      if p(s[0]) {
        var w := Where(s, p);
        assert w[0] == s[0] && w[1..] == Where(s[1..], p);
      }
    }
  }

  /** Aggregate(seed, func): a left-to-right fold. */
  function Aggregate<A, T>(s: seq<T>, seed: A, f: (A, T) -> A): A {
    if s == [] then seed else Aggregate(s[1..], f(seed, s[0]), f)
  }

  /** A fold whose step adds `g` of each element computes the seed plus Sum(g). */
  lemma {:induction false} AggregateIsSum<T>(s: seq<T>, seed: real, f: (real, T) -> real, g: T -> real)
    requires forall acc, x :: f(acc, x) == acc + g(x)
    ensures Aggregate(s, seed, f) == seed + Sum(s, g)
  {
    if s != [] {
      AggregateIsSum(s[1..], f(seed, s[0]), f, g);
    }
  }

  /** FirstOrDefault(p): the first passing element, or no value. */
  function FirstOrDefault<T>(s: seq<T>, p: T -> bool): (r: Option<T>)
    ensures r.None? <==> forall i :: 0 <= i < |s| ==> !p(s[i])
  {
    if s == [] then None
    else if p(s[0]) then Some(s[0])
    else
      var rest := FirstOrDefault(s[1..], p);
      assert forall i :: 1 <= i < |s| ==> s[i] == s[1..][i - 1];
      rest
  }

  /** When the first passing element sits at index i, FirstOrDefault returns it. */
  lemma {:induction false} FirstOrDefaultIsFirstMatch<T>(s: seq<T>, p: T -> bool, i: nat)
    requires i < |s| && p(s[i])
    requires forall j :: 0 <= j < i ==> !p(s[j])
    ensures FirstOrDefault(s, p) == Some(s[i])
  {
    if i > 0 {
      FirstOrDefaultIsFirstMatch(s[1..], p, i - 1);
    }
  }

  /** A value FirstOrDefault returns is a passing element with no passing
      element before it. */
  lemma {:induction false} FirstOrDefaultFound<T>(s: seq<T>, p: T -> bool)
    requires FirstOrDefault(s, p).Some?
    ensures exists i :: 0 <= i < |s| && s[i] == FirstOrDefault(s, p).value && p(s[i])
                        && forall j :: 0 <= j < i ==> !p(s[j])
  {
    if !p(s[0]) {
      FirstOrDefaultFound(s[1..], p);
      var i :| 0 <= i < |s[1..]| && s[1..][i] == FirstOrDefault(s, p).value && p(s[1..][i])
               && forall j :: 0 <= j < i ==> !p(s[1..][j]);
      assert s[i + 1] == s[1..][i];
      assert forall j :: 1 <= j < i + 1 ==> s[j] == s[1..][j - 1];
    }
  }

  /** First(p): like FirstOrDefault, but no match is the NotFound failure. */
  function First<T>(s: seq<T>, p: T -> bool): (r: Result<T>)
    ensures r.Err? ==> r.error == NotFound
    ensures r.Err? <==> forall i :: 0 <= i < |s| ==> !p(s[i])
    ensures r.Ok? ==> FirstOrDefault(s, p) == Some(r.value)
  {
    match FirstOrDefault(s, p)
    case Some(x) => Ok(x)
    case None => Err(NotFound)
  }

  /** LastOrDefault(p): searches from the end; the last passing element, or no value. */
  function LastOrDefault<T>(s: seq<T>, p: T -> bool): (r: Option<T>)
    ensures r.None? <==> forall i :: 0 <= i < |s| ==> !p(s[i])
  {
    if s == [] then None
    else if p(s[|s| - 1]) then Some(s[|s| - 1])
    else
      var rest := LastOrDefault(s[..|s| - 1], p);
      assert forall i :: 0 <= i < |s| - 1 ==> s[i] == s[..|s| - 1][i];
      rest
  }

  /** When the last passing element sits at index i, LastOrDefault returns it. */
  lemma {:induction false} LastOrDefaultIsLastMatch<T>(s: seq<T>, p: T -> bool, i: nat)
    requires i < |s| && p(s[i])
    requires forall j :: i < j < |s| ==> !p(s[j])
    ensures LastOrDefault(s, p) == Some(s[i])
  {
    if i < |s| - 1 {
      LastOrDefaultIsLastMatch(s[..|s| - 1], p, i);
    }
  }

  /** A value LastOrDefault returns is a passing element with no passing
      element after it. */
  lemma {:induction false} LastOrDefaultFound<T>(s: seq<T>, p: T -> bool)
    requires LastOrDefault(s, p).Some?
    ensures exists i :: 0 <= i < |s| && s[i] == LastOrDefault(s, p).value && p(s[i])
                        && forall j :: i < j < |s| ==> !p(s[j])
  {
    if !p(s[|s| - 1]) {
      var init := s[..|s| - 1];
      LastOrDefaultFound(init, p);
      var i :| 0 <= i < |init| && init[i] == LastOrDefault(s, p).value && p(init[i])
               && forall j :: i < j < |init| ==> !p(init[j]);
      assert forall j :: i < j < |s| - 1 ==> s[j] == init[j];
    }
  }

  /** Last(p): like LastOrDefault, but no match is the NotFound failure. */
  function Last<T>(s: seq<T>, p: T -> bool): (r: Result<T>)
    ensures r.Err? ==> r.error == NotFound
    ensures r.Err? <==> forall i :: 0 <= i < |s| ==> !p(s[i])
    ensures r.Ok? ==> LastOrDefault(s, p) == Some(r.value)
  {
    match LastOrDefault(s, p)
    case Some(x) => Ok(x)
    case None => Err(NotFound)
  }

  /** SingleOrDefault(p): no value for no match, the element for exactly one,
      and the MultipleMatches failure for more than one. */
  function SingleOrDefault<T(==)>(s: seq<T>, p: T -> bool): (r: Result<Option<T>>)
    ensures r == Ok(None) <==> CountWhere(s, p) == 0
    ensures r.Err? <==> CountWhere(s, p) > 1
    ensures r.Err? ==> r.error == MultipleMatches
    ensures r.Ok? && r.value.Some? ==> CountWhere(s, p) == 1 && r.value == Some(Where(s, p)[0])
  {
    if s == [] then Ok(None)
    else if p(s[0]) then
      (if Any(s[1..], p) then Err(MultipleMatches) else Ok(Some(s[0])))
    else SingleOrDefault(s[1..], p)
  }

  /** DefaultIfEmpty(): the elements as present values, or one absent value
      when there are none. */
  function DefaultIfEmpty<T>(s: seq<T>): (r: seq<Option<T>>)
    ensures |r| == if s == [] then 1 else |s|
    ensures s == [] ==> r == [None]
    ensures s != [] ==> forall i :: 0 <= i < |s| ==> r[i] == Some(s[i])
  {
    if s == [] then [None] else [Some(s[0])] + (if s[1..] == [] then [] else DefaultIfEmpty(s[1..]))
  }

  lemma {:induction false} WhereIdempotent<T>(s: seq<T>, p: T -> bool)
    ensures Where(Where(s, p), p) == Where(s, p)
  {
    if s != [] {
      var rest := Where(s[1..], p);
      WhereIdempotent(s[1..], p);
      if p(s[0]) {
        var w := [s[0]] + rest;
        assert Where(s, p) == w;
        assert w[0] == s[0] && w[1..] == rest;
        assert Where(w, p) == [s[0]] + Where(rest, p);
      } else {
        assert Where(s, p) == rest;
      }
    }
  }

  lemma {:induction false} WhereConcat<T>(a: seq<T>, b: seq<T>, p: T -> bool)
    ensures Where(a + b, p) == Where(a, p) + Where(b, p)
  {
    if a == [] {
      assert a + b == b;
    } else {
      var ab := a + b;
      assert ab[0] == a[0] && ab[1..] == a[1..] + b;
      WhereConcat(a[1..], b, p);
    }
  }

  /** Two filters in a row are one filter on both conditions. */
  lemma {:induction false} WhereWhere<T>(s: seq<T>, p: T -> bool, q: T -> bool)
    ensures Where(Where(s, p), q) == Where(s, Both(p, q))
  {
    if s != [] {
      WhereWhere(s[1..], p, q);
      if p(s[0]) {
        var w := Where(s, p);
        assert w[0] == s[0] && w[1..] == Where(s[1..], p);
      }
    }
  }

  function Both<T>(p: T -> bool, q: T -> bool): T -> bool {
    (x: T) => p(x) && q(x)
  }

  /** Where over a source extended at the end, the shape the grouping proofs use. */
  lemma WhereSnoc<T>(s: seq<T>, x: T, p: T -> bool)
    ensures Where(s + [x], p) == Where(s, p) + (if p(x) then [x] else [])
  {
    WhereConcat(s, [x], p);
  }

  lemma {:induction false} SelectConcat<T, U>(a: seq<T>, b: seq<T>, f: T -> U)
    ensures Select(a + b, f) == Select(a, f) + Select(b, f)
  {
  }

  lemma {:induction false} ContainsByConcat<T>(a: seq<T>, b: seq<T>, x: T, eq: (T, T) -> bool)
    ensures ContainsBy(a + b, x, eq) <==> ContainsBy(a, x, eq) || ContainsBy(b, x, eq)
  {
    if ContainsBy(a, x, eq) {
      var i :| 0 <= i < |a| && eq(a[i], x);
      assert (a + b)[i] == a[i];
    }
    if ContainsBy(b, x, eq) {
      var i :| 0 <= i < |b| && eq(b[i], x);
      assert (a + b)[|a| + i] == b[i];
    }
    if ContainsBy(a + b, x, eq) {
      var i :| 0 <= i < |a + b| && eq((a + b)[i], x);
      if i < |a| {
        assert a[i] == (a + b)[i];
      } else {
        assert b[i - |a|] == (a + b)[i];
      }
    }
  }

  /** `x in s` is Contains under plain equality. */
  lemma ContainsByEqual<T>(s: seq<T>, x: T)
    ensures ContainsBy(s, x, Equal) <==> x in s
  {
  }
}
