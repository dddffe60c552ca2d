/**
 * The rows of one table as a sequence, and the queries the data-access layer
 * runs over it: `Where(..).ToList()` is Filter, `FirstOrDefault(..)` is
 * FirstWhere and `Any(..)` is Any. A table's primary key is given by a key
 * function, and the store keeps the keys of a table pairwise distinct.
 */
module Rows {
  import opened Wrappers

  /** The rows satisfying `p`, in table order. */
  function Filter<T(==,!new)>(s: seq<T>, p: T -> bool): (r: seq<T>)
    ensures |r| <= |s|
    ensures forall x :: x in r <==> x in s && p(x)
  {
    if s == [] then []
    else if p(s[0]) then [s[0]] + Filter(s[1..], p)
    else Filter(s[1..], p)
  }

  /** The first row satisfying `p`, or None when there is none. */
  function FirstWhere<T(==,!new)>(s: seq<T>, p: T -> bool): (r: Option<T>)
    ensures r.Some? ==> r.value in s && p(r.value)
    ensures r.None? <==> forall x :: x in s ==> !p(x)
  {
    if s == [] then None
    else if p(s[0]) then Some(s[0])
    else FirstWhere(s[1..], p)
  }

  /** Whether some row satisfies `p`. */
  function Any<T(==,!new)>(s: seq<T>, p: T -> bool): (r: bool)
    ensures r <==> exists x :: x in s && p(x)
  {
    s != [] && (p(s[0]) || Any(s[1..], p))
  }

  /** The primary keys present in a table. */
  function Keys<T(==,!new)>(s: seq<T>, key: T -> int): set<int>
  {
    set x | x in s :: key(x)
  }

  /** The primary-key constraint: no two rows share a key. */
  ghost predicate KeysUnique<T(!new)>(s: seq<T>, key: T -> int)
  {
    forall j, k :: 0 <= j < |s| && 0 <= k < |s| && j != k ==> key(s[j]) != key(s[k])
  }

  /** The table without the row whose key is `k`. */
  function RemoveKey<T(==,!new)>(s: seq<T>, key: T -> int, k: int): (r: seq<T>)
    ensures k !in Keys(r, key)
    ensures forall x :: x in r <==> x in s && key(x) != k
  {
    Filter(s, (x: T) => key(x) != k)
  }

  /** The rows whose key is `k` (at most one when the keys are unique). */
  function WithKey<T(==,!new)>(s: seq<T>, key: T -> int, k: int): (r: seq<T>)
    ensures forall x :: x in r <==> x in s && key(x) == k
  {
    Filter(s, (x: T) => key(x) == k)
  }

  /** The row whose key is `k`, if any. */
  function FindKey<T(==,!new)>(s: seq<T>, key: T -> int, k: int): (r: Option<T>)
    ensures r.Some? ==> r.value in s && key(r.value) == k
    ensures r.None? <==> k !in Keys(s, key)
  {
    FirstWhere(s, (x: T) => key(x) == k)
  }

  /** Whether some row has key `k`. */
  function HasKey<T(==,!new)>(s: seq<T>, key: T -> int, k: int): (r: bool)
    ensures r <==> k in Keys(s, key)
  {
    Any(s, (x: T) => key(x) == k)
  }

  /** The table with `f` applied to each row whose key is `k`; the other rows are untouched. */
  function UpdateKey<T(!new)>(s: seq<T>, key: T -> int, k: int, f: T -> T): (r: seq<T>)
    ensures |r| == |s|
    ensures forall j :: 0 <= j < |s| ==> r[j] == (if key(s[j]) == k then f(s[j]) else s[j])
  {
    if s == [] then []
    else [if key(s[0]) == k then f(s[0]) else s[0]] + UpdateKey(s[1..], key, k, f)
  }

  /** A key larger than every key in the table; it witnesses that a fresh key exists. */
  ghost function KeyAbove<T(!new)>(s: seq<T>, key: T -> int): (b: int)
    ensures forall x :: x in s ==> key(x) < b
    ensures b !in Keys(s, key)
  {
    if s == [] then 0
    else
      var rest := KeyAbove(s[1..], key);
      if rest > key(s[0]) then rest else key(s[0]) + 1
  }

  /** Splitting a table by a predicate and its negation loses no row and duplicates none. */
  lemma {:induction false} FilterPartition<T(!new)>(s: seq<T>, p: T -> bool, q: T -> bool)
    requires forall x :: q(x) == !p(x)
    ensures |Filter(s, p)| + |Filter(s, q)| == |s|
  {
    if s != [] {
      FilterPartition(s[1..], p, q);
    }
  }

  /** Filtering with a predicate every row satisfies returns the table itself. */
  lemma {:induction false} FilterKeepsAll<T(!new)>(s: seq<T>, p: T -> bool)
    requires forall x :: x in s ==> p(x)
    ensures Filter(s, p) == s
  {
    if s != [] {
      FilterKeepsAll(s[1..], p);
    }
  }

  /** Filtering keeps the rows in their relative order, so their keys stay distinct. */
  lemma {:induction false} FilterKeepsKeysUnique<T(!new)>(s: seq<T>, p: T -> bool, key: T -> int)
    requires KeysUnique(s, key)
    ensures KeysUnique(Filter(s, p), key)
  {
    if s != [] {
      var tail := s[1..];
      assert KeysUnique(tail, key) by {
        forall j, k | 0 <= j < |tail| && 0 <= k < |tail| && j != k
          ensures key(tail[j]) != key(tail[k])
        {
          assert tail[j] == s[j + 1] && tail[k] == s[k + 1];
        }
      }
      FilterKeepsKeysUnique(tail, p, key);
      var rest := Filter(tail, p);
      if p(s[0]) {
        forall x | x in rest ensures key(x) != key(s[0]) {
          var i :| 0 <= i < |tail| && tail[i] == x;
          assert s[i + 1] == x;
        }
        ConsKeepsKeysUnique(s[0], rest, key);
      }
    }
  }

  /** A row whose key is new may be put in front of a table without breaking the key constraint. */
  lemma ConsKeepsKeysUnique<T(!new)>(x: T, s: seq<T>, key: T -> int)
    requires KeysUnique(s, key)
    requires forall y :: y in s ==> key(y) != key(x)
    ensures KeysUnique([x] + s, key)
  {
  }

  /** Appending a row whose key is fresh keeps the key constraint. */
  lemma AppendKeepsKeysUnique<T(!new)>(s: seq<T>, x: T, key: T -> int)
    requires KeysUnique(s, key)
    requires key(x) !in Keys(s, key)
    ensures KeysUnique(s + [x], key)
    ensures Keys(s + [x], key) == Keys(s, key) + {key(x)}
  {
  }

  /** Removing a key keeps the other keys distinct. */
  lemma RemoveKeyKeepsKeysUnique<T(!new)>(s: seq<T>, key: T -> int, k: int)
    requires KeysUnique(s, key)
    ensures KeysUnique(RemoveKey(s, key, k), key)
  {
    FilterKeepsKeysUnique(s, (x: T) => key(x) != k, key);
  }

  /** Updating an absent key leaves the table as it was. */
  lemma UpdateAbsentKey<T(!new)>(s: seq<T>, key: T -> int, k: int, f: T -> T)
    requires k !in Keys(s, key)
    ensures UpdateKey(s, key, k, f) == s
  {
  }

  /** Under the key constraint, a present key matches exactly one row. */
  lemma {:induction false} WithPresentKeyIsOneRow<T(!new)>(s: seq<T>, key: T -> int, k: int)
    requires KeysUnique(s, key)
    requires k in Keys(s, key)
    ensures |WithKey(s, key, k)| == 1
  {
    var tail := s[1..];
    assert KeysUnique(tail, key) by {
      forall j, i | 0 <= j < |tail| && 0 <= i < |tail| && j != i
        ensures key(tail[j]) != key(tail[i])
      {
        assert tail[j] == s[j + 1] && tail[i] == s[i + 1];
      }
    }
    if key(s[0]) == k {
      forall x | x in tail ensures key(x) != k {
        var i :| 0 <= i < |tail| && tail[i] == x;
        assert s[i + 1] == x;
      }
      FilterKeepsAll(tail, (x: T) => key(x) != k);
      FilterPartition(tail, (x: T) => key(x) != k, (x: T) => key(x) == k);
    } else {
      var x :| x in s && key(x) == k;
      assert x in tail;
      WithPresentKeyIsOneRow(tail, key, k);
    }
  }

  /** Under the key constraint, removing a present key removes exactly one row. */
  lemma RemovePresentKeyCount<T(!new)>(s: seq<T>, key: T -> int, k: int)
    requires KeysUnique(s, key)
    requires k in Keys(s, key)
    ensures |RemoveKey(s, key, k)| == |s| - 1
  {
    WithPresentKeyIsOneRow(s, key, k);
    FilterPartition(s, (x: T) => key(x) != k, (x: T) => key(x) == k);
  }

  /** Removing an absent key leaves the table as it was. */
  lemma RemoveAbsentKey<T(!new)>(s: seq<T>, key: T -> int, k: int)
    requires k !in Keys(s, key)
    ensures RemoveKey(s, key, k) == s
  {
    forall x | x in s ensures key(x) != k {
      assert key(x) in Keys(s, key);
    }
    FilterKeepsAll(s, (x: T) => key(x) != k);
  }

  /** Under the key constraint, looking up the key of the row at position `i` finds that row. */
  lemma FindKeyAt<T(!new)>(s: seq<T>, key: T -> int, i: nat)
    requires KeysUnique(s, key)
    requires i < |s|
    ensures FindKey(s, key, key(s[i])) == Some(s[i])
  {
  }

  /** Updating the rows with key `k` by a key-preserving `f` leaves the set of keys as it was. */
  lemma UpdateKeyKeepsKeys<T(!new)>(s: seq<T>, key: T -> int, k: int, f: T -> T)
    requires forall x :: key(f(x)) == key(x)
    ensures Keys(UpdateKey(s, key, k, f), key) == Keys(s, key)
    ensures KeysUnique(s, key) ==> KeysUnique(UpdateKey(s, key, k, f), key)
  {
  }

  /** After an update of key `k`, looking `k` up finds the updated row, or nothing when `k` was absent. */
  lemma FindKeyAfterUpdate<T(!new)>(s: seq<T>, key: T -> int, k: int, f: T -> T)
    requires KeysUnique(s, key)
    requires forall x :: key(f(x)) == key(x)
    ensures FindKey(UpdateKey(s, key, k, f), key, k) ==
              match FindKey(s, key, k)
              case Some(x) => Some(f(x))
              case None => None
  {
  }

  /** Any and FirstWhere agree: some row satisfies `p` exactly when a first one is found. */
  lemma AnyIffFirstWhere<T(!new)>(s: seq<T>, p: T -> bool)
    ensures Any(s, p) <==> FirstWhere(s, p).Some?
  {
  }
}
