/** The three query shapes the site uses on its tables: the first row that
    matches (`scalar`, `first_or_404`), the rows that match (`where`) and the
    rows in key order (`order_by`). */
module Seqs {
  import opened Base

  /** Index of the first element satisfying `p`, if any. */
  function FindFirst<T>(s: seq<T>, p: T -> bool): (r: Option<nat>)
    ensures r.Some? ==> r.value < |s| && p(s[r.value])
    ensures r.Some? ==> forall j | 0 <= j < r.value :: !p(s[j])
    ensures r.None? <==> forall j | 0 <= j < |s| :: !p(s[j])
  {
    if s == [] then None
    else if p(s[0]) then Some(0)
    else match FindFirst(s[1..], p)
      case None => None
      case Some(k) => Some(k + 1)
  }

  /** The elements of `s` satisfying `p`, each as often as it occurs in `s`. */
  function Filter<T(==,!new)>(s: seq<T>, p: T -> bool): (r: seq<T>)
    ensures forall x :: multiset(r)[x] == if p(x) then multiset(s)[x] else 0
    ensures forall x :: x in r <==> x in s && p(x)
  {
    if s == [] then []
    else
      var rest := Filter(s[1..], p);
      assert s == [s[0]] + s[1..];
      if p(s[0]) then [s[0]] + rest else rest
  }

  /** `s` is in non-decreasing order of `key`. */
  predicate Ascending<T>(s: seq<T>, key: T -> int)
  {
    forall i, j | 0 <= i < j < |s| :: key(s[i]) <= key(s[j])
  }

  function Insert<T(==)>(x: T, s: seq<T>, key: T -> int): (r: seq<T>)
    requires Ascending(s, key)
    ensures |r| == |s| + 1 && (r[0] == x || (s != [] && r[0] == s[0]))
    ensures Ascending(r, key)
    ensures multiset(r) == multiset(s) + multiset{x}
  {
    if s == [] then [x]
    else if key(x) <= key(s[0]) then AscendingCons(x, s, key); [x] + s
    else
      var rest := Insert(x, s[1..], key);
      assert s == [s[0]] + s[1..];
      AscendingCons(s[0], rest, key);
      [s[0]] + rest
  }

  /** Putting an element no larger than the head in front of an ascending
      sequence keeps it ascending. */
  lemma AscendingCons<T>(h: T, t: seq<T>, key: T -> int)
    requires Ascending(t, key) && (t != [] ==> key(h) <= key(t[0]))
    ensures Ascending([h] + t, key)
  {
    var r := [h] + t;
    forall i, j | 0 <= i < j < |r| ensures key(r[i]) <= key(r[j]) {
      if i == 0 {
        assert r[j] == t[j - 1];
      } else {
        assert r[i] == t[i - 1] && r[j] == t[j - 1];
      }
    }
  }

  /** A permutation of `s` in non-decreasing order of `key`: the model of
      `ORDER BY key`. Rows with equal keys come out in some fixed order; the
      database promises none. */
  function SortBy<T(==)>(s: seq<T>, key: T -> int): (r: seq<T>)
    ensures Ascending(r, key)
    ensures multiset(r) == multiset(s)
  {
    if s == [] then []
    else
      assert s == [s[0]] + s[1..];
      Insert(s[0], SortBy(s[1..], key), key)
  }

  /** An element occurring at two positions is counted at least twice. */
  lemma MultisetTwoIndices<T>(s: seq<T>, i: nat, j: nat)
    requires i < j < |s| && s[i] == s[j]
    ensures multiset(s)[s[i]] >= 2
  {
    assert s == s[..j] + s[j..];
    assert s[i] == s[..j][i];
    assert s[j] == s[j..][0];
  }

  /** In a sequence without repeated elements every element is counted at most once. */
  lemma {:induction false} MultisetAtMostOnce<T>(s: seq<T>, x: T)
    requires forall i, j | 0 <= i < j < |s| :: s[i] != s[j]
    ensures multiset(s)[x] <= 1
  {
    if s != [] {
      assert s == [s[0]] + s[1..];
      MultisetAtMostOnce(s[1..], x);
      if s[0] == x {
        forall k | 1 <= k < |s| ensures s[k] != x {
          assert s[0] != s[k];
        }
        assert x !in s[1..];
      }
    }
  }
}
