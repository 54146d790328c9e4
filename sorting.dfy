/**
 * Generic orderings used to model Rust's ordered collections
 * (`BTreeSet`/`BTreeMap` iterate in key order) and its `sort_by`.
 */
module Sorting {
  import Strings

  /** `lt` is a strict total order on all of `T`. */
  ghost predicate StrictTotalOrder<T(!new)>(lt: (T, T) -> bool)
  {
    (forall a :: !lt(a, a))
    && (forall a, b, c :: lt(a, b) && lt(b, c) ==> lt(a, c))
    && (forall a, b :: a != b ==> lt(a, b) || lt(b, a))
  }

  /** `le` is a total preorder: every pair is comparable, and it is transitive. */
  ghost predicate TotalPreorder<T(!new)>(le: (T, T) -> bool)
  {
    (forall a, b :: le(a, b) || le(b, a))
    && (forall a, b, c :: le(a, b) && le(b, c) ==> le(a, c))
  }

  predicate SortedBy<T>(s: seq<T>, le: (T, T) -> bool)
  {
    forall i, j :: 0 <= i < j < |s| ==> le(s[i], s[j])
  }

  predicate StrictlySortedBy<T>(s: seq<T>, lt: (T, T) -> bool)
  {
    forall i, j :: 0 <= i < j < |s| ==> lt(s[i], s[j])
  }

  lemma {:induction false} MinimumExists<T(!new)>(s: set<T>, lt: (T, T) -> bool)
    requires s != {} && StrictTotalOrder(lt)
    ensures exists m :: m in s && forall x :: x in s && x != m ==> lt(m, x)
    decreases |s|
  {
    var y :| y in s;
    if s - {y} == {} {
      assert s == {y};
    } else {
      MinimumExists(s - {y}, lt);
      var m :| m in s - {y} && forall x :: x in s - {y} && x != m ==> lt(m, x);
      MinimumAdd(s, y, m, lt);
    }
  }

  /** If `m` is least in `s` without `y`, then `m` or `y` is least in `s`. */
  lemma MinimumAdd<T(!new)>(s: set<T>, y: T, m: T, lt: (T, T) -> bool)
    requires StrictTotalOrder(lt) && y in s && m in s && m != y
    requires forall x :: x in s - {y} && x != m ==> lt(m, x)
    ensures exists n :: n in s && forall x :: x in s && x != n ==> lt(n, x)
  {
    if lt(y, m) {
      forall x | x in s && x != y ensures lt(y, x) {
        if x != m { assert x in s - {y}; TransitiveAt(lt, y, m, x); }
      }
    } else {
      forall x | x in s && x != m ensures lt(m, x) {
        if x != y { assert x in s - {y}; }
      }
    }
  }

  lemma TransitiveAt<T(!new)>(lt: (T, T) -> bool, a: T, b: T, c: T)
    requires StrictTotalOrder(lt) && lt(a, b) && lt(b, c)
    ensures lt(a, c)
  {
  }

  /** The least element of a non-empty finite set. */
  function Minimum<T(==,!new)>(s: set<T>, lt: (T, T) -> bool): (m: T)
    requires s != {} && StrictTotalOrder(lt)
    ensures m in s && forall x :: x in s && x != m ==> lt(m, x)
  {
    MinimumExists(s, lt);
    var m :| m in s && forall x :: x in s && x != m ==> lt(m, x);
    m
  }

  /** The elements of a finite set in ascending order: how a `BTreeSet` iterates. */
  function SortedElements<T(==,!new)>(s: set<T>, lt: (T, T) -> bool): (r: seq<T>)
    requires StrictTotalOrder(lt)
    ensures |r| == |s|
    ensures forall x :: x in r <==> x in s
    ensures StrictlySortedBy(r, lt)
    decreases |s|
  {
    if s == {} then []
    else
      var m := Minimum(s, lt);
      var rest := SortedElements(s - {m}, lt);
      assert forall i :: 0 <= i < |rest| ==> rest[i] in s - {m};
      [m] + rest
  }

  /** Inserts `x` after every element not above it. */
  function Insert<T>(x: T, s: seq<T>, le: (T, T) -> bool): (r: seq<T>)
    ensures multiset(r) == multiset(s) + multiset{x}
    ensures |r| == |s| + 1
  {
    if s == [] then [x]
    else if le(s[0], x) then
      assert s == [s[0]] + s[1..];
      [s[0]] + Insert(x, s[1..], le)
    else [x] + s
  }

  /** An insertion sort, the model of `slice::sort_by`. */
  function SortBy<T>(s: seq<T>, le: (T, T) -> bool): (r: seq<T>)
    ensures multiset(r) == multiset(s)
    ensures |r| == |s|
  {
    if s == [] then []
    else
      assert s == s[..|s| - 1] + [s[|s| - 1]];
      Insert(s[|s| - 1], SortBy(s[..|s| - 1], le), le)
  }

  lemma {:induction false} InsertSorted<T(!new)>(x: T, s: seq<T>, le: (T, T) -> bool)
    requires TotalPreorder(le) && SortedBy(s, le)
    ensures SortedBy(Insert(x, s, le), le)
  {
    if s != [] && le(s[0], x) {
      InsertSorted(x, s[1..], le);
      var r := Insert(x, s[1..], le);
      forall k | 0 <= k < |r| ensures le(s[0], r[k]) {
        assert r[k] in multiset(r);
        assert r[k] in multiset(s[1..]) || r[k] == x;
        if r[k] != x {
          var i :| 0 <= i < |s[1..]| && s[1..][i] == r[k];
          assert s[i + 1] == r[k];
        }
      }
    }
  }

  lemma {:induction false} SortBySorted<T(!new)>(s: seq<T>, le: (T, T) -> bool)
    requires TotalPreorder(le)
    ensures SortedBy(SortBy(s, le), le)
  {
    if s != [] {
      SortBySorted(s[..|s| - 1], le);
      InsertSorted(s[|s| - 1], SortBy(s[..|s| - 1], le), le);
    }
  }

  /** Sorting a singleton-free seq that is already sorted leaves it unchanged. */
  lemma {:induction false} SortBySortedIsIdentity<T(!new)>(s: seq<T>, le: (T, T) -> bool)
    requires TotalPreorder(le) && SortedBy(s, le)
    ensures SortBy(s, le) == s
  {
    if s != [] {
      var p := s[..|s| - 1];
      assert SortedBy(p, le);
      SortBySortedIsIdentity(p, le);
      InsertAtEnd(s[|s| - 1], p, le);
      assert p + [s[|s| - 1]] == s;
    }
  }

  lemma {:induction false} InsertAtEnd<T>(x: T, s: seq<T>, le: (T, T) -> bool)
    requires forall i :: 0 <= i < |s| ==> le(s[i], x)
    ensures Insert(x, s, le) == s + [x]
  {
    if s != [] {
      InsertAtEnd(x, s[1..], le);
      assert s == [s[0]] + s[1..];
    }
  }

  /** `StrLess` is the strict total order `str::cmp` gives. */
  lemma StrLessIsStrictTotalOrder()
    ensures StrictTotalOrder(Strings.StrLess)
  {
    forall a: string ensures !Strings.StrLess(a, a) { Strings.CompareEqual(a, a); }
    forall a: string, b: string, c: string | Strings.StrLess(a, b) && Strings.StrLess(b, c) ensures Strings.StrLess(a, c) {
      Strings.CompareTransitive(a, b, c);
    }
    forall a: string, b: string | a != b ensures Strings.StrLess(a, b) || Strings.StrLess(b, a) {
      Strings.CompareEqual(a, b);
      Strings.CompareReverse(a, b);
    }
  }

  /** A set of strings in ascending order. */
  function SortedStrings(keys: set<string>): (r: seq<string>)
    ensures |r| == |keys|
    ensures forall k :: k in r <==> k in keys
    ensures forall i, j :: 0 <= i < j < |r| ==> Strings.StrLess(r[i], r[j])
  {
    StrLessIsStrictTotalOrder();
    var r := SortedElements(keys, Strings.StrLess);
    assert StrictlySortedBy(r, Strings.StrLess);
    forall i, j | 0 <= i < j < |r| ensures Strings.StrLess(r[i], r[j]) {
      assert Strings.StrLess(r[i], r[j]);
    }
    r
  }

  /** Each key with its value, in the order given. */
  function Pairs<K, V>(keys: seq<K>, m: map<K, V>): (r: seq<(K, V)>)
    requires forall i :: 0 <= i < |keys| ==> keys[i] in m
    ensures |r| == |keys|
    ensures forall i :: 0 <= i < |r| ==> r[i] == (keys[i], m[keys[i]])
  {
    if keys == [] then [] else [(keys[0], m[keys[0]])] + Pairs(keys[1..], m)
  }

  /** Pairs listed key by key cover every key. */
  lemma KeysCovered<K, V>(keys: seq<K>, r: seq<(K, V)>)
    requires |r| == |keys| && forall i :: 0 <= i < |r| ==> r[i].0 == keys[i]
    ensures forall k :: k in keys ==> exists i :: 0 <= i < |r| && r[i].0 == k
  {
    forall k | k in keys ensures exists i :: 0 <= i < |r| && r[i].0 == k {
      var i :| 0 <= i < |keys| && keys[i] == k;
      assert r[i].0 == k;
    }
  }
}

/** Iteration over a `BTreeMap` keyed by strings. */
module BTreeMaps {
  import opened Sorting
  import opened Strings

  /** `r` lists each key of `m` once, with its value, in ascending key order. */
  ghost predicate AscendingEntries<V>(m: map<string, V>, r: seq<(string, V)>)
  {
    && |r| == |m|
    && (forall i :: 0 <= i < |r| ==> r[i].0 in m && m[r[i].0] == r[i].1)
    && (forall k :: k in m ==> exists i :: 0 <= i < |r| && r[i].0 == k)
    && (forall i, j :: 0 <= i < j < |r| ==> StrLess(r[i].0, r[j].0))
  }

  /** The entries of a map in ascending key order, each key once. */
  function Entries<V>(m: map<string, V>): (r: seq<(string, V)>)
    ensures AscendingEntries(m, r)
  {
    var keys := SortedStrings(m.Keys);
    var r := Pairs(keys, m);
    EntriesFacts(m, keys, r);
    r
  }

  /** What the pairs of the sorted keys are. */
  lemma EntriesFacts<V>(m: map<string, V>, keys: seq<string>, r: seq<(string, V)>)
    requires keys == SortedStrings(m.Keys) && r == Pairs(keys, m)
    ensures AscendingEntries(m, r)
  {
    Ascending(keys, r);
    KeysCovered(keys, r);
  }

  /** Pairs listed key by key are as ascending as the keys. */
  lemma Ascending<V>(keys: seq<string>, r: seq<(string, V)>)
    requires |r| == |keys| && forall i :: 0 <= i < |r| ==> r[i].0 == keys[i]
    requires forall i, j :: 0 <= i < j < |keys| ==> StrLess(keys[i], keys[j])
    ensures forall i, j :: 0 <= i < j < |r| ==> StrLess(r[i].0, r[j].0)
  {
  }
}
