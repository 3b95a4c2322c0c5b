/** GroupBy(key): the elements collected into groups, one per distinct key.
    As with LINQ's Lookup, groups appear in the order their keys are first
    seen and each group lists its members in source order. */
module Grouping {
  import opened Comparers
  import opened Enumerable
  import opened SetAlgebra
  import opened Relational

  /** An IGrouping: a key and the elements that carry it. */
  datatype Group<K, T> = Group(key: K, members: seq<T>)

  function GroupKey<K, T>(g: Group<K, T>): K {
    g.key
  }

  /** Adds `x`, whose key is `k`, to the group with that key, or opens a new
      group at the end when no group has it yet. */
  function AddToGroups<K(==), T>(gs: seq<Group<K, T>>, k: K, x: T): (r: seq<Group<K, T>>)
    ensures |r| == |gs| || |r| == |gs| + 1
  {
    if gs == [] then [Group(k, [x])]
    else if gs[0].key == k then [Group(k, gs[0].members + [x])] + gs[1..]
    else [gs[0]] + AddToGroups(gs[1..], k, x)
  }

  /** GroupBy(key), collecting the elements one by one in source order. */
  function GroupBy<K(==), T>(s: seq<T>, key: T -> K): seq<Group<K, T>> {
    if s == [] then []
    else AddToGroups(GroupBy(s[..|s| - 1], key), key(s[|s| - 1]), s[|s| - 1])
  }

  /** The distinct keys of `s`, in the order they are first seen. */
  function KeysOf<K(==), T>(s: seq<T>, key: T -> K): seq<K> {
    Distinct(Select(s, key), Equal)
  }

  /** For every key in `ks`, the group of the elements of `s` with that key. */
  function GroupsFor<K(==), T>(ks: seq<K>, s: seq<T>, key: T -> K): (r: seq<Group<K, T>>)
    ensures |r| == |ks|
    ensures forall i :: 0 <= i < |ks| ==> r[i] == Group(ks[i], Where(s, KeyIs(key, ks[i])))
  {
    if ks == [] then [] else [Group(ks[0], Where(s, KeyIs(key, ks[0])))] + GroupsFor(ks[1..], s, key)
  }

  /** Every member of every group, group after group. */
  function AllMembers<K, T>(gs: seq<Group<K, T>>): seq<T> {
    if gs == [] then [] else gs[0].members + AllMembers(gs[1..])
  }

  lemma KeysOfDistinct<K, T>(s: seq<T>, key: T -> K)
    ensures forall i, j :: 0 <= i < j < |KeysOf(s, key)| ==> KeysOf(s, key)[i] != KeysOf(s, key)[j]
  {
  }

  /** Every element's key is among the keys. */
  lemma KeysOfCovers<K(!new), T>(s: seq<T>, key: T -> K, j: nat)
    requires j < |s|
    ensures key(s[j]) in KeysOf(s, key)
  {
    EqualIsEquivalence<K>();
    assert Select(s, key)[j] == key(s[j]);
    DistinctFromCovers(Select(s, key), [], Equal, key(s[j]));
    ContainsByEqual(KeysOf(s, key), key(s[j]));
  }

  /** Every key is the key of some element. */
  lemma KeysOfMembers<K, T>(s: seq<T>, key: T -> K, k: K)
    requires k in KeysOf(s, key)
    ensures exists j :: 0 <= j < |s| && key(s[j]) == k
  {
    DistinctFromMembers(Select(s, key), [], Equal, k);
    var j :| 0 <= j < |s| && Select(s, key)[j] == k;
  }

  /** A group whose key the new element does not carry is unchanged by it. */
  lemma GroupsForOtherKeys<K, T>(ks: seq<K>, s: seq<T>, key: T -> K, x: T)
    requires key(x) !in ks
    ensures GroupsFor(ks, s + [x], key) == GroupsFor(ks, s, key)
  {
    forall i | 0 <= i < |ks| ensures Where(s + [x], KeyIs(key, ks[i])) == Where(s, KeyIs(key, ks[i])) {
      WhereSnoc(s, x, KeyIs(key, ks[i]));
    }
  }

  lemma {:induction false} AddToGroupsNewKey<K, T>(gs: seq<Group<K, T>>, k: K, x: T)
    requires forall i :: 0 <= i < |gs| ==> gs[i].key != k
    ensures AddToGroups(gs, k, x) == gs + [Group(k, [x])]
  {
    if gs != [] {
      AddToGroupsNewKey(gs[1..], k, x);
      assert gs == [gs[0]] + gs[1..];
    }
  }

  lemma {:induction false} AddToGroupsKnownKey<K, T>(ks: seq<K>, s: seq<T>, key: T -> K, x: T)
    requires forall i, j :: 0 <= i < j < |ks| ==> ks[i] != ks[j]
    requires key(x) in ks
    ensures AddToGroups(GroupsFor(ks, s, key), key(x), x) == GroupsFor(ks, s + [x], key)
  {
    var gs := GroupsFor(ks, s, key);
    var head := Group(ks[0], Where(s + [x], KeyIs(key, ks[0])));
    assert gs[1..] == GroupsFor(ks[1..], s, key);
    assert GroupsFor(ks, s + [x], key) == [head] + GroupsFor(ks[1..], s + [x], key);
    WhereSnoc(s, x, KeyIs(key, ks[0]));
    if ks[0] == key(x) {
      assert key(x) !in ks[1..];
      GroupsForOtherKeys(ks[1..], s, key, x);
    } else {
      assert key(x) in ks[1..];
      AddToGroupsKnownKey(ks[1..], s, key, x);
      assert gs[0] == head;
    }
  }

  /** The keys of a source extended by one element: the old keys, then the
      new element's key if it was not among them. */
  lemma KeysOfSnoc<K, T>(p: seq<T>, x: T, key: T -> K)
    ensures KeysOf(p + [x], key) == KeysOf(p, key) + (if key(x) in KeysOf(p, key) then [] else [key(x)])
  {
    var ks := KeysOf(p, key);
    SelectConcat(p, [x], key);
    assert Select(p + [x], key) == Select(p, key) + [key(x)];
    DistinctFromSnoc(Select(p, key), [], Equal, key(x));
    assert [] + ks == ks;
    ContainsByEqual(ks, key(x));
  }

  /** An element with a key not seen before opens a group holding just it. */
  lemma GroupsForNewKey<K(!new), T>(p: seq<T>, x: T, key: T -> K)
    requires key(x) !in KeysOf(p, key)
    ensures GroupsFor(KeysOf(p, key), p, key) + [Group(key(x), [x])]
         == GroupsFor(KeysOf(p, key) + [key(x)], p + [x], key)
  {
    var ks := KeysOf(p, key);
    GroupsForOtherKeys(ks, p, key, x);
    forall j | 0 <= j < |p| ensures !KeyIs(key, key(x))(p[j]) {
      KeysOfCovers(p, key, j);
    }
    assert CountWhere(p, KeyIs(key, key(x))) == 0;
    WhereSnoc(p, x, KeyIs(key, key(x)));
    assert Where(p + [x], KeyIs(key, key(x))) == [x];
    var g := GroupsFor(ks + [key(x)], p + [x], key);
    var h := GroupsFor(ks, p + [x], key) + [Group(key(x), [x])];
    assert |g| == |h|;
    forall i | 0 <= i < |g| ensures g[i] == h[i] {
      if i < |ks| {
        assert (ks + [key(x)])[i] == ks[i];
      }
    }
  }

  /** GroupBy agrees with its reference definition: one group per distinct
      key, in first-seen order, holding exactly the elements with that key in
      source order. */
  lemma {:induction false} GroupByIsGroupsForKeys<K(!new), T>(s: seq<T>, key: T -> K)
    ensures GroupBy(s, key) == GroupsFor(KeysOf(s, key), s, key)
  {
    if s != [] {
      var p, x := s[..|s| - 1], s[|s| - 1];
      assert s == p + [x];
      GroupByIsGroupsForKeys(p, key);
      KeysOfSnoc(p, x, key);
      var ks := KeysOf(p, key);
      if key(x) in ks {
        KeysOfDistinct(p, key);
        AddToGroupsKnownKey(ks, p, key, x);
      } else {
        AddToGroupsNewKey(GroupsFor(ks, p, key), key(x), x);
        GroupsForNewKey(p, x, key);
      }
    }
  }

  /** GroupBy's groups: one per distinct key, in first-seen order, keys
      pairwise different, and a group for the key of every element. */
  lemma GroupByKeys<K(!new), T>(s: seq<T>, key: T -> K)
    ensures |GroupBy(s, key)| == |KeysOf(s, key)|
    ensures forall i :: 0 <= i < |GroupBy(s, key)| ==> GroupBy(s, key)[i].key == KeysOf(s, key)[i]
    ensures forall i, j :: 0 <= i < j < |GroupBy(s, key)| ==> GroupBy(s, key)[i].key != GroupBy(s, key)[j].key
    ensures forall j :: 0 <= j < |s| ==> exists i :: 0 <= i < |GroupBy(s, key)| && GroupBy(s, key)[i].key == key(s[j])
  {
    GroupByIsGroupsForKeys(s, key);
    var g := GroupBy(s, key);
    var ks := KeysOf(s, key);
    KeysOfDistinct(s, key);
    forall j | 0 <= j < |s| ensures exists i :: 0 <= i < |g| && g[i].key == key(s[j]) {
      KeysOfCovers(s, key, j);
      var i :| 0 <= i < |ks| && ks[i] == key(s[j]);
      assert g[i].key == key(s[j]);
    }
  }

  /** GroupBy's members: each group holds exactly the elements with its key,
      in source order, so every member carries the group's key and the
      group's count is the number of such elements, which is never zero. */
  lemma GroupByMembers<K(!new), T>(s: seq<T>, key: T -> K, i: nat)
    requires i < |GroupBy(s, key)|
    ensures GroupBy(s, key)[i].members == Where(s, KeyIs(key, GroupBy(s, key)[i].key))
    ensures forall j :: 0 <= j < |GroupBy(s, key)[i].members| ==> key(GroupBy(s, key)[i].members[j]) == GroupBy(s, key)[i].key
    ensures |GroupBy(s, key)[i].members| == CountWhere(s, KeyIs(key, GroupBy(s, key)[i].key)) > 0
  {
    GroupByIsGroupsForKeys(s, key);
    var ks := KeysOf(s, key);
    assert GroupBy(s, key)[i] == Group(ks[i], Where(s, KeyIs(key, ks[i])));
    assert ks[i] in ks;
    KeysOfMembers(s, key, ks[i]);
  }

  lemma {:induction false} AllMembersConcat<K, T>(a: seq<Group<K, T>>, b: seq<Group<K, T>>)
    ensures AllMembers(a + b) == AllMembers(a) + AllMembers(b)
  {
    if a == [] {
      assert a + b == b;
    } else {
      var ab := a + b;
      assert ab[0] == a[0] && ab[1..] == a[1..] + b;
      AllMembersConcat(a[1..], b);
    }
  }

  lemma {:induction false} AddToGroupsAddsMember<K, T>(gs: seq<Group<K, T>>, k: K, x: T)
    ensures multiset(AllMembers(AddToGroups(gs, k, x))) == multiset(AllMembers(gs)) + multiset{x}
  {
    if gs != [] {
      if gs[0].key == k {
        AllMembersConcat([Group(k, gs[0].members + [x])], gs[1..]);
        AllMembersConcat([gs[0]], gs[1..]);
        assert gs == [gs[0]] + gs[1..];
      } else {
        AddToGroupsAddsMember(gs[1..], k, x);
        AllMembersConcat([gs[0]], AddToGroups(gs[1..], k, x));
        AllMembersConcat([gs[0]], gs[1..]);
        assert gs == [gs[0]] + gs[1..];
      }
    }
  }

  /** The groups partition the source: together they hold every element
      exactly as often as the source does. */
  lemma {:induction false} GroupByPartitions<K, T>(s: seq<T>, key: T -> K)
    ensures multiset(AllMembers(GroupBy(s, key))) == multiset(s)
  {
    if s != [] {
      var p, x := s[..|s| - 1], s[|s| - 1];
      assert s == p + [x];
      GroupByPartitions(p, key);
      AddToGroupsAddsMember(GroupBy(p, key), key(x), x);
    }
  }

  /** Grouping a sequence sorted by key yields the keys in sorted order. */
  lemma GroupBySortedInput<K(!new), T>(s: seq<T>, key: T -> K, le: (K, K) -> bool)
    requires Sorted(s, ByKey(key, le))
    ensures forall i, j :: 0 <= i < j < |GroupBy(s, key)| ==> le(GroupBy(s, key)[i].key, GroupBy(s, key)[j].key)
  {
    GroupByIsGroupsForKeys(s, key);
    var ks := Select(s, key);
    assert Sorted(ks, le) by {
      forall i, j | 0 <= i < j < |ks| ensures le(ks[i], ks[j]) {
        assert ByKey(key, le)(s[i], s[j]);
      }
    }
    DistinctFromSorted(ks, [], Equal, le);
  }
}
