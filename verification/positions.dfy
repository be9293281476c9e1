/**
 * A card slot of a spread layout and the order in which slots are connected:
 * a copy of the list stably sorted by `parseInt(positionIndex)`.
 */
module Positions {
  import opened Common
  import Text

  /** One slot: an optional persisted row id, a label, locale text and board coordinates. */
  datatype Position = Position(
    id: Option<int>,
    positionIndex: string,
    name: string,
    description: string,
    x: int,
    y: int)

  /** The sort key: the label read by parseInt; None stands for NaN. */
  function Key(p: Position): Option<int> {
    Text.ParseInt(p.positionIndex)
  }

  /**
   * The order on keys: numeric on parsed labels. An unparsable label (NaN) is
   * placed after every number and level with other unparsable labels.
   */
  predicate KeyLe(a: Option<int>, b: Option<int>) {
    b.None? || (a.Some? && a.value <= b.value)
  }

  predicate SortedBy<T>(s: seq<T>, key: T -> Option<int>) {
    forall i, j :: 0 <= i < j < |s| ==> KeyLe(key(s[i]), key(s[j]))
  }

  /** The elements of `s` whose key is `k`, in the order of `s`. */
  function WithKey<T>(s: seq<T>, key: T -> Option<int>, k: Option<int>): (r: seq<T>)
    ensures |r| <= |s|
  {
    if s == [] then []
    else (if key(s[0]) == k then [s[0]] else []) + WithKey(s[1..], key, k)
  }

  /** Puts `p` in front of the first element of `t` whose key is not below its own. */
  function Insert<T(==)>(p: T, t: seq<T>, key: T -> Option<int>): (r: seq<T>)
    ensures multiset(r) == multiset(t) + multiset{p}
    ensures |r| == |t| + 1
  {
    if t == [] || KeyLe(key(p), key(t[0])) then [p] + t
    else
      assert t == [t[0]] + t[1..];
      [t[0]] + Insert(p, t[1..], key)
  }

  lemma {:induction false} InsertSorted<T>(p: T, t: seq<T>, key: T -> Option<int>)
    requires SortedBy(t, key)
    ensures SortedBy(Insert(p, t, key), key)
  {
    if t == [] || KeyLe(key(p), key(t[0])) {
      ConsSorted(p, t, key);
    } else {
      var rest := Insert(p, t[1..], key);
      InsertSorted(p, t[1..], key);
      forall j | 0 <= j < |rest| ensures KeyLe(key(t[0]), key(rest[j])) {
        HeadBelowInsert(p, t, key, rest[j]);
      }
      ConsSorted(t[0], rest, key);
    }
  }

  /** What is inserted after the head of a sorted list is not below that head. */
  lemma HeadBelowInsert<T>(p: T, t: seq<T>, key: T -> Option<int>, x: T)
    requires SortedBy(t, key) && t != [] && !KeyLe(key(p), key(t[0]))
    requires x in multiset(Insert(p, t[1..], key))
    ensures KeyLe(key(t[0]), key(x))
  {
    assert x == p || x in multiset(t[1..]);
    if x != p {
      var j :| 0 <= j < |t[1..]| && t[1..][j] == x;
      assert t[j + 1] == x;
    }
  }

  /** A sorted list stays sorted under a head that is not above any of its elements. */
  lemma ConsSorted<T>(x: T, rest: seq<T>, key: T -> Option<int>)
    requires SortedBy(rest, key)
    requires forall j :: 0 <= j < |rest| ==> KeyLe(key(x), key(rest[j]))
    ensures SortedBy([x] + rest, key)
  {
    var s := [x] + rest;
    forall i, j | 0 <= i < j < |s| ensures KeyLe(key(s[i]), key(s[j])) {
      assert s[j] == rest[j - 1];
      if i > 0 {
        assert s[i] == rest[i - 1];
      }
    }
  }

  lemma {:induction false} InsertWithKey<T>(p: T, t: seq<T>, key: T -> Option<int>, k: Option<int>)
    ensures WithKey(Insert(p, t, key), key, k) == (if key(p) == k then [p] else []) + WithKey(t, key, k)
  {
    var r := Insert(p, t, key);
    if t == [] || KeyLe(key(p), key(t[0])) {
      assert r[1..] == t;
    } else {
      InsertWithKey(p, t[1..], key, k);
      assert r[1..] == Insert(p, t[1..], key);
    }
  }

  /** Stable insertion sort by `key`: a permutation of the input of the same length. */
  function SortBy<T(==)>(s: seq<T>, key: T -> Option<int>): (r: seq<T>)
    ensures multiset(r) == multiset(s)
    ensures |r| == |s|
  {
    if s == [] then []
    else
      assert s == [s[0]] + s[1..];
      Insert(s[0], SortBy(s[1..], key), key)
  }

  /** The sorted copy is ascending by key. */
  lemma {:induction false} SortByIsSorted<T>(s: seq<T>, key: T -> Option<int>)
    ensures SortedBy(SortBy(s, key), key)
  {
    if s != [] {
      SortByIsSorted(s[1..], key);
      InsertSorted(s[0], SortBy(s[1..], key), key);
    }
  }

  /** The sort is stable: the elements sharing a key appear in their input order. */
  lemma {:induction false} SortByIsStable<T>(s: seq<T>, key: T -> Option<int>, k: Option<int>)
    ensures WithKey(SortBy(s, key), key, k) == WithKey(s, key, k)
  {
    if s != [] {
      SortByIsStable(s[1..], key, k);
      InsertWithKey(s[0], SortBy(s[1..], key), key, k);
    }
  }

  /**
   * `[...positions].sort((a, b) => parseInt(a.positionIndex) - parseInt(b.positionIndex))`:
   * a permutation of the input, ascending by parsed label, with slots that share
   * a label value kept in their input order.
   */
  function Sort(positions: seq<Position>): (r: seq<Position>)
    ensures multiset(r) == multiset(positions) && |r| == |positions|
    ensures SortedBy(r, Key)
  {
    SortByIsSorted(positions, Key);
    SortBy(positions, Key)
  }

  /** Slots whose labels parse to the same value (or both fail to parse) keep their input order. */
  lemma SortIsStable(positions: seq<Position>, k: Option<int>)
    ensures WithKey(Sort(positions), Key, k) == WithKey(positions, Key, k)
  {
    SortByIsStable(positions, Key, k);
  }

  /** When every label parses, the sorted slots carry ascending numbers. */
  lemma SortAscendingNumbers(s: seq<Position>, i: nat, j: nat)
    requires forall p :: p in s ==> Key(p).Some?
    requires i < j < |s|
    ensures Key(Sort(s)[i]).Some? && Key(Sort(s)[j]).Some?
    ensures Key(Sort(s)[i]).value <= Key(Sort(s)[j]).value
  {
    var r := Sort(s);
    assert r[i] in multiset(s) && r[j] in multiset(s);
  }

  /** A connector from one slot to the next. */
  datatype Segment = Segment(from: Position, to: Position)

  /** One segment between each adjacent pair of `s`, in order. */
  function Chain(s: seq<Position>): (r: seq<Segment>)
    ensures |r| == if s == [] then 0 else |s| - 1
    ensures forall i :: 0 <= i < |r| ==> r[i] == Segment(s[i], s[i + 1])
    ensures forall i :: 0 <= i < |r| - 1 ==> r[i].to == r[i + 1].from
  {
    if |s| < 2 then [] else [Segment(s[0], s[1])] + Chain(s[1..])
  }

  /** The connectors of a layout: the chain through its slots in sorted order. */
  function Connectors(positions: seq<Position>): (r: seq<Segment>)
    ensures |r| == if positions == [] then 0 else |positions| - 1
    ensures forall i :: 0 <= i < |r| - 1 ==> r[i].to == r[i + 1].from
    ensures forall i :: 0 <= i < |r| ==> KeyLe(Key(r[i].from), Key(r[i].to))
    ensures forall i :: 0 <= i < |r| ==> r[i] == Segment(Sort(positions)[i], Sort(positions)[i + 1])
  {
    var sorted := Sort(positions);
    var r := Chain(sorted);
    ChainAscending(sorted, r);
    r
  }

  lemma ChainAscending(sorted: seq<Position>, r: seq<Segment>)
    requires SortedBy(sorted, Key) && r == Chain(sorted)
    ensures forall i :: 0 <= i < |r| ==> KeyLe(Key(r[i].from), Key(r[i].to))
  {
    forall i | 0 <= i < |r| ensures KeyLe(Key(r[i].from), Key(r[i].to)) {
      var a, b := sorted[i], sorted[i + 1];
      assert r[i] == Segment(a, b);
      assert KeyLe(Key(a), Key(b));
    }
  }
}
