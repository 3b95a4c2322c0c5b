/** Join, GroupJoin and the left outer join built from GroupJoin (or
    SelectMany) and DefaultIfEmpty. Keys are compared with plain equality, as
    the default key comparer of ints and anonymous key objects does. A join
    yields (outer, inner) pairs; the demos' result selectors project them
    afterwards. */
module Relational {
  import opened Enumerable

  /** The elements whose key is `k`. */
  function KeyIs<B, K(==)>(key: B -> K, k: K): B -> bool {
    (b: B) => key(b) == k
  }

  /** A filter on the inner half of a joined pair. */
  function OnInner<A, B>(q: B -> bool): ((A, B)) -> bool {
    (p: (A, B)) => q(p.1)
  }

  /** `a` paired with every element of `cs`, in order. */
  function PairWith<A, C>(a: A, cs: seq<C>): (r: seq<(A, C)>)
    ensures |r| == |cs|
    ensures forall i :: 0 <= i < |cs| ==> r[i] == (a, cs[i])
  {
    if cs == [] then [] else [(a, cs[0])] + PairWith(a, cs[1..])
  }

  /** The pairs that one outer element forms, in inner order. */
  function Matches<A, B, K(==)>(o: A, inner: seq<B>, ok: A -> K, ik: B -> K): (r: seq<(A, B)>)
    ensures |r| == CountWhere(inner, KeyIs(ik, ok(o)))
    ensures forall i :: 0 <= i < |r| ==> r[i].0 == o && ik(r[i].1) == ok(o)
  {
    if inner == [] then []
    else (if ik(inner[0]) == ok(o) then [(o, inner[0])] else []) + Matches(o, inner[1..], ok, ik)
  }

  /** Join(inner, outerKey, innerKey): a nested-loop equi-join. For each outer
      element in order, its pairs with the inner elements of equal key, in
      inner order. */
  function Join<A, B, K(==)>(outer: seq<A>, inner: seq<B>, ok: A -> K, ik: B -> K): (r: seq<(A, B)>)
    ensures |r| == PairCount(outer, inner, ok, ik)
    ensures forall i :: 0 <= i < |r| ==> ok(r[i].0) == ik(r[i].1)
  {
    if outer == [] then [] else Matches(outer[0], inner, ok, ik) + Join(outer[1..], inner, ok, ik)
  }

  /** The number of matching (outer, inner) pairs: for each outer element,
      the number of inner elements carrying its key. */
  function PairCount<A, B, K(==)>(outer: seq<A>, inner: seq<B>, ok: A -> K, ik: B -> K): nat {
    if outer == [] then 0
    else CountWhere(inner, KeyIs(ik, ok(outer[0]))) + PairCount(outer[1..], inner, ok, ik)
  }

  lemma {:induction false} MatchesMembers<A, B, K>(o: A, inner: seq<B>, ok: A -> K, ik: B -> K, a: A, b: B)
    ensures (a, b) in Matches(o, inner, ok, ik) <==> a == o && b in inner && ok(a) == ik(b)
  {
    if inner != [] {
      MatchesMembers(o, inner[1..], ok, ik, a, b);
      assert inner == [inner[0]] + inner[1..];
    }
  }

  /** A pair is joined exactly when both halves come from their sources and
      their keys are equal. */
  lemma {:induction false} JoinMembers<A, B, K>(outer: seq<A>, inner: seq<B>, ok: A -> K, ik: B -> K, a: A, b: B)
    ensures (a, b) in Join(outer, inner, ok, ik) <==> a in outer && b in inner && ok(a) == ik(b)
  {
    if outer != [] {
      MatchesMembers(outer[0], inner, ok, ik, a, b);
      JoinMembers(outer[1..], inner, ok, ik, a, b);
      assert outer == [outer[0]] + outer[1..];
    }
  }

  lemma {:induction false} MatchesFilterInner<A, B, K>(o: A, inner: seq<B>, ok: A -> K, ik: B -> K, q: B -> bool)
    ensures Matches(o, Where(inner, q), ok, ik) == Where(Matches(o, inner, ok, ik), OnInner(q))
  {
    if inner != [] {
      MatchesFilterInner(o, inner[1..], ok, ik, q);
      var head: seq<(A, B)> := if ik(inner[0]) == ok(o) then [(o, inner[0])] else [];
      WhereConcat(head, Matches(o, inner[1..], ok, ik), OnInner(q));
      if q(inner[0]) {
        var w := Where(inner, q);
        assert w == [inner[0]] + Where(inner[1..], q);
        assert w[0] == inner[0] && w[1..] == Where(inner[1..], q);
      }
    }
  }

  /** Filtering the joined pairs on their inner half is joining with the
      filtered inner sequence. */
  lemma {:induction false} JoinFilterInner<A, B, K>(outer: seq<A>, inner: seq<B>, ok: A -> K, ik: B -> K, q: B -> bool)
    ensures Join(outer, Where(inner, q), ok, ik) == Where(Join(outer, inner, ok, ik), OnInner(q))
  {
    if outer != [] {
      MatchesFilterInner(outer[0], inner, ok, ik, q);
      JoinFilterInner(outer[1..], inner, ok, ik, q);
      WhereConcat(Matches(outer[0], inner, ok, ik), Join(outer[1..], inner, ok, ik), OnInner(q));
    }
  }

  /** The outer key extended with a constant second component. */
  function WithConstant<A, K, Q>(ok: A -> K, c: Q): A -> (K, Q) {
    (a: A) => (ok(a), c)
  }

  /** The inner key extended with a second field. */
  function WithField<B, K, Q>(ik: B -> K, q: B -> Q): B -> (K, Q) {
    (b: B) => (ik(b), q(b))
  }

  lemma {:induction false} MatchesCompositeKey<A, B, K, Q>(o: A, inner: seq<B>, ok: A -> K, ik: B -> K, q: B -> Q, c: Q)
    ensures Matches(o, inner, WithConstant(ok, c), WithField(ik, q)) == Matches(o, Where(inner, KeyIs(q, c)), ok, ik)
  {
    if inner != [] {
      MatchesCompositeKey(o, inner[1..], ok, ik, q, c);
      if q(inner[0]) == c {
        var w := Where(inner, KeyIs(q, c));
        assert w == [inner[0]] + Where(inner[1..], KeyIs(q, c));
        assert w[0] == inner[0] && w[1..] == Where(inner[1..], KeyIs(q, c));
      }
    }
  }

  /** Joining on the composite key (key, constant) = (key, field) is joining
      on the key alone with the inner elements whose field equals the
      constant. */
  lemma {:induction false} CompositeKeyJoin<A, B, K, Q>(outer: seq<A>, inner: seq<B>, ok: A -> K, ik: B -> K, q: B -> Q, c: Q)
    ensures Join(outer, inner, WithConstant(ok, c), WithField(ik, q)) == Join(outer, Where(inner, KeyIs(q, c)), ok, ik)
  {
    if outer != [] {
      MatchesCompositeKey(outer[0], inner, ok, ik, q, c);
      CompositeKeyJoin(outer[1..], inner, ok, ik, q, c);
    }
  }

  /** GroupJoin(inner, outerKey, innerKey): every outer element, in order,
      with the inner elements of equal key (possibly none). */
  function GroupJoin<A, B, K(==)>(outer: seq<A>, inner: seq<B>, ok: A -> K, ik: B -> K): (r: seq<(A, seq<B>)>)
    ensures |r| == |outer|
    ensures forall i :: 0 <= i < |r| ==> r[i].0 == outer[i]
  {
    if outer == [] then []
    else [(outer[0], Where(inner, KeyIs(ik, ok(outer[0]))))] + GroupJoin(outer[1..], inner, ok, ik)
  }

  /** Each GroupJoin entry holds the inner elements with the outer element's
      key, in inner order, and is empty exactly when there are none. */
  lemma {:induction false} GroupJoinEntry<A, B, K>(outer: seq<A>, inner: seq<B>, ok: A -> K, ik: B -> K, i: nat)
    requires i < |outer|
    ensures GroupJoin(outer, inner, ok, ik)[i].1 == Where(inner, KeyIs(ik, ok(outer[i])))
    ensures GroupJoin(outer, inner, ok, ik)[i].1 == [] <==> forall j :: 0 <= j < |inner| ==> ik(inner[j]) != ok(outer[i])
  {
    if i > 0 {
      GroupJoinEntry(outer[1..], inner, ok, ik, i - 1);
    }
  }

  /** An inner element is in an entry's group exactly when its key is the
      outer element's. */
  lemma GroupJoinEntryMembers<A, B, K>(outer: seq<A>, inner: seq<B>, ok: A -> K, ik: B -> K, i: nat, b: B)
    requires i < |outer|
    ensures b in GroupJoin(outer, inner, ok, ik)[i].1 <==> b in inner && ik(b) == ok(outer[i])
  {
    GroupJoinEntry(outer, inner, ok, ik, i);
    WhereMembers(inner, KeyIs(ik, ok(outer[i])), b);
  }

  lemma {:induction false} MatchesArePairedGroup<A, B, K>(o: A, inner: seq<B>, ok: A -> K, ik: B -> K)
    ensures Matches(o, inner, ok, ik) == PairWith(o, Where(inner, KeyIs(ik, ok(o))))
  {
    if inner != [] {
      MatchesArePairedGroup(o, inner[1..], ok, ik);
      if ik(inner[0]) == ok(o) {
        var w := Where(inner, KeyIs(ik, ok(o)));
        assert w == [inner[0]] + Where(inner[1..], KeyIs(ik, ok(o)));
        assert w[0] == inner[0] && w[1..] == Where(inner[1..], KeyIs(ik, ok(o)));
      }
    }
  }

  /** Every outer element paired with each element of its group, in order. */
  function Ungroup<A, B>(gs: seq<(A, seq<B>)>): seq<(A, B)> {
    if gs == [] then [] else PairWith(gs[0].0, gs[0].1) + Ungroup(gs[1..])
  }

  /** GroupJoin and Join agree: expanding the groups gives the join. */
  lemma {:induction false} GroupJoinUngroupsToJoin<A, B, K>(outer: seq<A>, inner: seq<B>, ok: A -> K, ik: B -> K)
    ensures Ungroup(GroupJoin(outer, inner, ok, ik)) == Join(outer, inner, ok, ik)
  {
    if outer != [] {
      MatchesArePairedGroup(outer[0], inner, ok, ik);
      GroupJoinUngroupsToJoin(outer[1..], inner, ok, ik);
      var g := GroupJoin(outer, inner, ok, ik);
      assert g[1..] == GroupJoin(outer[1..], inner, ok, ik);
    }
  }

  /** `from o in outer join i in inner on … into g from x in g.DefaultIfEmpty()`:
      the rows of each GroupJoin entry, or one row without an inner element
      for an entry with an empty group. */
  function LeftOuterJoin<A, B, K(==)>(outer: seq<A>, inner: seq<B>, ok: A -> K, ik: B -> K): seq<(A, Option<B>)> {
    PadGroups(GroupJoin(outer, inner, ok, ik))
  }

  function PadGroups<A, B>(gs: seq<(A, seq<B>)>): seq<(A, Option<B>)> {
    if gs == [] then [] else PairWith(gs[0].0, DefaultIfEmpty(gs[0].1)) + PadGroups(gs[1..])
  }

  /** `outer.SelectMany(o => inner.Where(i => key(o) == key(i)).DefaultIfEmpty(), …)`:
      the method-syntax left outer join. */
  function LeftJoinBySelectMany<A, B, K(==)>(outer: seq<A>, inner: seq<B>, ok: A -> K, ik: B -> K): seq<(A, Option<B>)> {
    if outer == [] then []
    else
      PairWith(outer[0], DefaultIfEmpty(Where(inner, KeyIs(ik, ok(outer[0])))))
      + LeftJoinBySelectMany(outer[1..], inner, ok, ik)
  }

  /** The query-syntax and method-syntax left outer joins give the same rows. */
  lemma {:induction false} LeftOuterJoinForms<A, B, K>(outer: seq<A>, inner: seq<B>, ok: A -> K, ik: B -> K)
    ensures LeftOuterJoin(outer, inner, ok, ik) == LeftJoinBySelectMany(outer, inner, ok, ik)
  {
    if outer != [] {
      LeftOuterJoinForms(outer[1..], inner, ok, ik);
      var g := GroupJoin(outer, inner, ok, ik);
      assert g[1..] == GroupJoin(outer[1..], inner, ok, ik);
    }
  }

  /** An outer element no inner element matches. */
  function Unmatched<A, B, K(==)>(inner: seq<B>, ok: A -> K, ik: B -> K): A -> bool {
    (a: A) => CountWhere(inner, KeyIs(ik, ok(a))) == 0
  }

  /** A left outer join has one row per matching pair plus one row per
      unmatched outer element. */
  lemma {:induction false} LeftOuterJoinCount<A, B, K>(outer: seq<A>, inner: seq<B>, ok: A -> K, ik: B -> K)
    ensures |LeftJoinBySelectMany(outer, inner, ok, ik)|
         == PairCount(outer, inner, ok, ik) + CountWhere(outer, Unmatched(inner, ok, ik))
    ensures |LeftOuterJoin(outer, inner, ok, ik)|
         == PairCount(outer, inner, ok, ik) + CountWhere(outer, Unmatched(inner, ok, ik))
  {
    LeftOuterJoinForms(outer, inner, ok, ik);
    if outer != [] {
      LeftOuterJoinCount(outer[1..], inner, ok, ik);
    }
  }

  lemma {:induction false} PairWithMembers<A, C>(a: A, cs: seq<C>, x: A, c: C)
    ensures (x, c) in PairWith(a, cs) <==> x == a && c in cs
  {
    if (x, c) in PairWith(a, cs) {
      var i :| 0 <= i < |cs| && PairWith(a, cs)[i] == (x, c);
      assert cs[i] == c;
    }
    if x == a && c in cs {
      var i :| 0 <= i < |cs| && cs[i] == c;
      assert PairWith(a, cs)[i] == (x, c);
    }
  }

  lemma DefaultIfEmptyMembers<B>(bs: seq<B>, b: B)
    ensures Some(b) in DefaultIfEmpty(bs) <==> b in bs
    ensures None in DefaultIfEmpty(bs) <==> bs == []
  {
    if Some(b) in DefaultIfEmpty(bs) {
      var i :| 0 <= i < |DefaultIfEmpty(bs)| && DefaultIfEmpty(bs)[i] == Some(b);
      assert bs[i] == b;
    }
    if b in bs {
      var i :| 0 <= i < |bs| && bs[i] == b;
      assert DefaultIfEmpty(bs)[i] == Some(b);
    }
  }

  /** A row with an inner element is exactly a joined pair. */
  lemma {:induction false} LeftOuterJoinMatched<A, B, K>(outer: seq<A>, inner: seq<B>, ok: A -> K, ik: B -> K, a: A, b: B)
    ensures (a, Some(b)) in LeftJoinBySelectMany(outer, inner, ok, ik) <==> (a, b) in Join(outer, inner, ok, ik)
  {
    if outer != [] {
      var o := outer[0];
      var w := Where(inner, KeyIs(ik, ok(o)));
      assert LeftJoinBySelectMany(outer, inner, ok, ik)
          == PairWith(o, DefaultIfEmpty(w)) + LeftJoinBySelectMany(outer[1..], inner, ok, ik);
      assert Join(outer, inner, ok, ik) == Matches(o, inner, ok, ik) + Join(outer[1..], inner, ok, ik);
      LeftOuterJoinMatched(outer[1..], inner, ok, ik, a, b);
      MatchesMembers(o, inner, ok, ik, a, b);
      PairWithMembers(o, DefaultIfEmpty(w), a, Some(b));
      DefaultIfEmptyMembers(w, b);
      WhereMembers(inner, KeyIs(ik, ok(o)), b);
    }
  }

  /** A row without an inner element is exactly an outer element that
      nothing matches. */
  lemma {:induction false} LeftOuterJoinUnmatched<A, B, K>(outer: seq<A>, inner: seq<B>, ok: A -> K, ik: B -> K, a: A)
    ensures (a, None) in LeftJoinBySelectMany(outer, inner, ok, ik) <==> a in outer && Unmatched(inner, ok, ik)(a)
  {
    if outer != [] {
      var o := outer[0];
      var w := Where(inner, KeyIs(ik, ok(o)));
      assert LeftJoinBySelectMany(outer, inner, ok, ik)
          == PairWith(o, DefaultIfEmpty(w)) + LeftJoinBySelectMany(outer[1..], inner, ok, ik);
      LeftOuterJoinUnmatched(outer[1..], inner, ok, ik, a);
      PairWithMembers(o, DefaultIfEmpty(w), a, None);
      if w != [] {
        DefaultIfEmptyMembers(w, w[0]);
      }
      assert outer == [o] + outer[1..];
    }
  }
}
