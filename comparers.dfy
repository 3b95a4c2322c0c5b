/** Pluggable equality and ordering.

    An equality comparer (an IEqualityComparer such as ProductComparer) is a
    function `eq: (T, T) -> bool`; it is only meaningful when it is an
    equivalence. An ordering (the key comparison behind orderby) is a function
    `le: (T, T) -> bool` read as "a sorts no later than b"; it must be a total
    preorder, so distinct values may tie. */
module Comparers {

  ghost predicate Equivalence<T(!new)>(eq: (T, T) -> bool) {
    && (forall x :: eq(x, x))
    && (forall x, y :: eq(x, y) ==> eq(y, x))
    && (forall x, y, z :: eq(x, y) && eq(y, z) ==> eq(x, z))
  }

  ghost predicate TotalPreorder<T(!new)>(le: (T, T) -> bool) {
    && (forall x, y :: le(x, y) || le(y, x))
    && (forall x, y, z :: le(x, y) && le(y, z) ==> le(x, z))
  }

  /** Every element sorts no later than every element after it. */
  ghost predicate Sorted<T>(s: seq<T>, le: (T, T) -> bool) {
    forall i, j :: 0 <= i < j < |s| ==> le(s[i], s[j])
  }

  /** Plain equality, the default comparer of value types and strings. */
  function Equal<T(==)>(a: T, b: T): bool {
    a == b
  }

  /** Compare elements by an extracted key (`orderby x.Key`). */
  function ByKey<T, K>(key: T -> K, le: (K, K) -> bool): (T, T) -> bool {
    (a: T, b: T) => le(key(a), key(b))
  }

  /** The reversed ordering (`descending`). */
  function Descending<T>(le: (T, T) -> bool): (T, T) -> bool {
    (a: T, b: T) => le(b, a)
  }

  /** Lexicographic composition (`OrderBy(primary).ThenBy(secondary)`):
      a strictly earlier primary decides, a primary tie defers to secondary. */
  function ThenBy<T>(primary: (T, T) -> bool, secondary: (T, T) -> bool): (T, T) -> bool {
    (a: T, b: T) => primary(a, b) && (!primary(b, a) || secondary(a, b))
  }

  lemma EqualIsEquivalence<T(!new)>()
    ensures Equivalence<T>(Equal)
  {
  }

  lemma ByKeyIsTotalPreorder<T(!new), K(!new)>(key: T -> K, le: (K, K) -> bool)
    requires TotalPreorder(le)
    ensures TotalPreorder(ByKey(key, le))
  {
  }

  lemma DescendingIsTotalPreorder<T(!new)>(le: (T, T) -> bool)
    requires TotalPreorder(le)
    ensures TotalPreorder(Descending(le))
  {
  }

  lemma ThenByIsTotalPreorder<T(!new)>(primary: (T, T) -> bool, secondary: (T, T) -> bool)
    requires TotalPreorder(primary) && TotalPreorder(secondary)
    ensures TotalPreorder(ThenBy(primary, secondary))
  {
    var c := ThenBy(primary, secondary);
    forall x, y, z | c(x, y) && c(y, z)
      ensures c(x, z)
    {
      if primary(z, x) {
        assert primary(y, x) && primary(z, y);
        assert secondary(x, y) && secondary(y, z);
      }
    }
  }
}
