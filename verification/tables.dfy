/**
 * Generic operations on a table held as a sequence of rows in storage order.
 * A key projection (`key: T -> K`) picks the column a query compares.
 */
module Tables {
  import opened Wrappers

  /** The set of values a column takes over the table. */
  function Keys<T, K>(s: seq<T>, key: T -> K): set<K>
  {
    set i | 0 <= i < |s| :: key(s[i])
  }

  /** No two rows share a value in the column: a UNIQUE or PRIMARY KEY constraint. */
  predicate Distinct<T, K(==)>(s: seq<T>, key: T -> K)
  {
    forall i, j :: 0 <= i < j < |s| ==> key(s[i]) != key(s[j])
  }

  /** `after` is `before` with exactly one row added at the end. */
  predicate AppendedOne<T(==)>(before: seq<T>, after: seq<T>)
  {
    |after| == |before| + 1 && after[..|before|] == before
  }

  /**
   * The position of the first row satisfying `p`: what a filtered query
   * followed by `.first()` returns, in storage order.
   */
  function FirstIndex<T>(s: seq<T>, p: T -> bool): (r: Option<nat>)
    ensures r.Some? ==> r.value < |s| && p(s[r.value])
    ensures r.Some? ==> forall j :: 0 <= j < r.value ==> !p(s[j])
    ensures r.None? <==> forall j :: 0 <= j < |s| ==> !p(s[j])
    decreases |s|
  {
    if |s| == 0 then None
    else if p(s[0]) then Some(0)
    else
      match FirstIndex(s[1..], p)
      case None => None
      case Some(k) => Some(k + 1)
  }

  /** The table without the row at position `i`; the other rows keep their order. */
  function RemoveAt<T>(s: seq<T>, i: nat): (r: seq<T>)
    requires i < |s|
    ensures |r| == |s| - 1
    ensures forall j :: 0 <= j < i ==> r[j] == s[j]
    ensures forall j :: i <= j < |r| ==> r[j] == s[j + 1]
    ensures multiset(r) + multiset{s[i]} == multiset(s)
  {
    assert s == s[..i] + [s[i]] + s[i + 1..];
    s[..i] + s[i + 1..]
  }

  /** The largest value of an integer column over a non-empty table. */
  function MaxKey<T>(s: seq<T>, key: T -> int): (m: int)
    requires |s| > 0
    ensures forall j :: 0 <= j < |s| ==> key(s[j]) <= m
    ensures exists j :: 0 <= j < |s| && key(s[j]) == m
    decreases |s|
  {
    if |s| == 1 then key(s[0])
    else
      var m' := MaxKey(s[1..], key);
      assert forall j :: 1 <= j < |s| ==> key(s[j]) == key(s[1..][j - 1]);
      if key(s[0]) >= m' then key(s[0]) else m'
  }

  /**
   * The id the database gives the next inserted row: one more than the
   * largest id in the table, or 1 for an empty table.
   */
  function NextId<T>(s: seq<T>, key: T -> int): (r: int)
    ensures r !in Keys(s, key)
    ensures forall j :: 0 <= j < |s| ==> key(s[j]) < r
    ensures |s| == 0 ==> r == 1
    ensures |s| > 0 ==> r - 1 in Keys(s, key)
  {
    if |s| == 0 then 1 else MaxKey(s, key) + 1
  }

  lemma {:induction false} KeysAppend<T, K>(s: seq<T>, x: T, key: T -> K)
    ensures Keys(s + [x], key) == Keys(s, key) + {key(x)}
  {
    var t := s + [x];
    forall k | k in Keys(t, key) ensures k in Keys(s, key) + {key(x)} {
      var i :| 0 <= i < |t| && key(t[i]) == k;
      if i < |s| { assert t[i] == s[i]; }
    }
    forall k | k in Keys(s, key) + {key(x)} ensures k in Keys(t, key) {
      if k == key(x) {
        assert t[|s|] == x;
      } else {
        var i :| 0 <= i < |s| && key(s[i]) == k;
        assert t[i] == s[i];
      }
    }
  }

  lemma {:induction false} DistinctAppend<T, K>(s: seq<T>, x: T, key: T -> K)
    ensures Distinct(s + [x], key) <==> Distinct(s, key) && key(x) !in Keys(s, key)
  {
    var t := s + [x];
    if Distinct(t, key) {
      forall i, j | 0 <= i < j < |s| ensures key(s[i]) != key(s[j]) {
        assert t[i] == s[i] && t[j] == s[j];
      }
      forall k | k in Keys(s, key) ensures k != key(x) {
        var i :| 0 <= i < |s| && key(s[i]) == k;
        assert t[i] == s[i] && t[|s|] == x;
      }
    }
    forall i, j | Distinct(s, key) && key(x) !in Keys(s, key) && 0 <= i < j < |t| ensures key(t[i]) != key(t[j]) {
      assert t[i] == s[i];
      if j < |s| {
        assert t[j] == s[j];
      } else {
        assert t[j] == x;
      }
    }
  }

  lemma {:induction false} KeysRemoveAt<T, K>(s: seq<T>, i: nat, key: T -> K)
    requires i < |s|
    ensures Keys(RemoveAt(s, i), key) <= Keys(s, key)
    ensures Distinct(s, key) ==> Keys(RemoveAt(s, i), key) == Keys(s, key) - {key(s[i])}
  {
    var r := RemoveAt(s, i);
    forall k | k in Keys(r, key) ensures k in Keys(s, key) {
      var j :| 0 <= j < |r| && key(r[j]) == k;
      if j < i { assert r[j] == s[j]; } else { assert r[j] == s[j + 1]; }
    }
    if Distinct(s, key) {
      forall k | k in Keys(r, key) ensures k != key(s[i]) {
        var j :| 0 <= j < |r| && key(r[j]) == k;
        if j < i { assert r[j] == s[j]; } else { assert r[j] == s[j + 1]; }
      }
      forall k | k in Keys(s, key) && k != key(s[i]) ensures k in Keys(r, key) {
        var j :| 0 <= j < |s| && key(s[j]) == k;
        if j < i { assert r[j] == s[j]; } else { assert j > i; assert r[j - 1] == s[j]; }
      }
    }
  }

  lemma DistinctRemoveAt<T, K>(s: seq<T>, i: nat, key: T -> K)
    requires i < |s|
    requires Distinct(s, key)
    ensures Distinct(RemoveAt(s, i), key)
  {
  }

  /** Every row of `RemoveAt(s, i)` is a row of `s`. */
  lemma RemoveAtRows<T>(s: seq<T>, i: nat)
    requires i < |s|
    ensures forall x :: x in RemoveAt(s, i) ==> x in s
  {
  }

  /** Removing the row just appended gives back the table as it was. */
  lemma RemoveLast<T>(s: seq<T>, x: T)
    ensures RemoveAt(s + [x], |s|) == s
  {
  }
}
