/** OrderBy / OrderByDescending / ThenBy: an eager, stable sort under a
    caller-supplied ordering. The ordering compares whole elements; key
    selectors, descending order and secondary keys are built from it with
    Comparers.ByKey, Comparers.Descending and Comparers.ThenBy. */
module Ordering {
  import opened Comparers
  import opened Enumerable

  /** Places `x` in front of the first element it sorts no later than. */
  function Insert<T>(x: T, s: seq<T>, le: (T, T) -> bool): (r: seq<T>)
    ensures |r| == |s| + 1
    ensures multiset(r) == multiset(s) + multiset{x}
  {
    if s == [] || le(x, s[0]) then [x] + s
    else
      assert s == [s[0]] + s[1..];
      [s[0]] + Insert(x, s[1..], le)
  }

  /** The stable sort: each element goes in front of every later element
      with which it ties, so ties keep their source order. */
  function SortBy<T>(s: seq<T>, le: (T, T) -> bool): (r: seq<T>)
    ensures |r| == |s|
    ensures multiset(r) == multiset(s)
  {
    if s == [] then []
    else
      assert s == [s[0]] + s[1..];
      Insert(s[0], SortBy(s[1..], le), le)
  }

  /** `orderby key` with the key ordering `le`. */
  function OrderBy<T, K>(s: seq<T>, key: T -> K, le: (K, K) -> bool): seq<T> {
    SortBy(s, ByKey(key, le))
  }

  /** The elements that tie with `pivot`: one class of equal sort keys. */
  function TiesWith<T>(le: (T, T) -> bool, pivot: T): T -> bool {
    (x: T) => le(x, pivot) && le(pivot, x)
  }

  lemma {:induction false} InsertKeepsSorted<T(!new)>(x: T, s: seq<T>, le: (T, T) -> bool)
    requires TotalPreorder(le) && Sorted(s, le)
    ensures Sorted(Insert(x, s, le), le)
  {
    if s != [] && !le(x, s[0]) {
      InsertKeepsSorted(x, s[1..], le);
      var rest := Insert(x, s[1..], le);
      assert multiset(rest) == multiset(s[1..]) + multiset{x};
      forall j | 0 <= j < |rest|
        ensures le(s[0], rest[j])
      {
        assert rest[j] in multiset(rest);
        if rest[j] != x {
          assert rest[j] in multiset(s[1..]);
          var k :| 0 <= k < |s[1..]| && s[1..][k] == rest[j];
          assert s[k + 1] == rest[j];
        }
      }
    }
  }

  /** The result of SortBy is sorted. */
  lemma {:induction false} SortByIsSorted<T(!new)>(s: seq<T>, le: (T, T) -> bool)
    requires TotalPreorder(le)
    ensures Sorted(SortBy(s, le), le)
  {
    if s != [] {
      SortByIsSorted(s[1..], le);
      InsertKeepsSorted(s[0], SortBy(s[1..], le), le);
    }
  }

  /** Inserting `x` puts it in front of every element that ties with it. */
  lemma {:induction false} InsertTies<T(!new)>(x: T, s: seq<T>, le: (T, T) -> bool, pivot: T)
    requires TotalPreorder(le)
    ensures Where(Insert(x, s, le), TiesWith(le, pivot))
         == (if TiesWith(le, pivot)(x) then [x] else []) + Where(s, TiesWith(le, pivot))
  {
    var tie := TiesWith(le, pivot);
    if s == [] || le(x, s[0]) {
      WhereConcat([x], s, tie);
    } else {
      var head, tail := s[0], s[1..];
      var inserted := Insert(x, tail, le);
      assert Insert(x, s, le) == [head] + inserted;
      assert s == [head] + tail;
      InsertTies(x, tail, le, pivot);
      WhereConcat([head], inserted, tie);
      WhereConcat([head], tail, tie);
      if tie(x) {
        // x ties with the pivot but sorts after head, so head cannot tie.
        assert !tie(head);
      }
    }
  }

  /** Stability: within every class of tied elements, the sorted sequence
      lists the elements in their source order. */
  lemma {:induction false} SortByIsStable<T(!new)>(s: seq<T>, le: (T, T) -> bool, pivot: T)
    requires TotalPreorder(le)
    ensures Where(SortBy(s, le), TiesWith(le, pivot)) == Where(s, TiesWith(le, pivot))
  {
    if s != [] {
      SortByIsStable(s[1..], le, pivot);
      InsertTies(s[0], SortBy(s[1..], le), le, pivot);
      WhereConcat([s[0]], s[1..], TiesWith(le, pivot));
      assert s == [s[0]] + s[1..];
    }
  }

  /** An already sorted input comes back unchanged. */
  lemma {:induction false} SortBySortedInput<T(!new)>(s: seq<T>, le: (T, T) -> bool)
    requires Sorted(s, le)
    ensures SortBy(s, le) == s
  {
    if s != [] {
      SortBySortedInput(s[1..], le);
      assert s == [s[0]] + s[1..];
      if s[1..] != [] {
        assert le(s[0], s[1..][0]);
      }
    }
  }
}
