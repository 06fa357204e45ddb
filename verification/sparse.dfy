/**
 * The sparse boolean array that holds a selection: a list of
 * (position, flag) entries kept in strictly ascending position order.
 * A position with no entry reads as false.  `Put` is the only update;
 * the `append(key, value)` call of the restore loop and both forms of
 * `toggleSelection` are expressed with it.
 */
module Sparse {

  datatype Entry = Entry(key: int, value: bool)

  /** Positions strictly ascending, hence each position stored at most once. */
  predicate Sorted(s: seq<Entry>)
  {
    forall i, j :: 0 <= i < j < |s| ==> s[i].key < s[j].key
  }

  /** The positions that have an entry, whatever its flag. */
  function Keys(s: seq<Entry>): (ks: set<int>)
    ensures forall i :: 0 <= i < |s| ==> s[i].key in ks
  {
    set i | 0 <= i < |s| :: s[i].key
  }

  /** The flag stored at position `k`; false when `k` has no entry. */
  function Get(s: seq<Entry>, k: int): (r: bool)
    ensures r ==> k in Keys(s)
  {
    if s == [] then false
    else if s[0].key == k then s[0].value
    else
      var r := Get(s[1..], k);
      assert r ==> exists i :: 0 <= i < |s[1..]| && s[1..][i].key == k;
      r
  }

  /** Number of positions whose flag is true. */
  function Count(s: seq<Entry>): (n: nat)
    ensures n <= |s|
  {
    if s == [] then 0 else (if s[0].value then 1 else 0) + Count(s[1..])
  }

  /** Some entry carries the flag true. */
  predicate AnyTrue(s: seq<Entry>)
  {
    exists i :: 0 <= i < |s| && s[i].value
  }

  /** Putting an entry before a sorted array whose first position is larger keeps it sorted. */
  lemma SortedCons(e: Entry, s: seq<Entry>)
    requires Sorted(s)
    requires s != [] ==> e.key < s[0].key
    ensures Sorted([e] + s)
  {
    var r := [e] + s;
    forall i, j | 0 <= i < j < |r| ensures r[i].key < r[j].key {
      if i == 0 && j > 1 {
        assert s[0].key < s[j - 1].key;
      }
    }
  }

  /**
   * Stores `v` at position `k`, replacing the entry already there or
   * inserting a new one in order.  Every other position keeps its flag.
   */
  function Put(s: seq<Entry>, k: int, v: bool): (r: seq<Entry>)
    requires Sorted(s)
    ensures Sorted(r)
    ensures r != [] && r[0].key == if s == [] || k < s[0].key then k else s[0].key
    ensures Get(r, k) == v
    ensures forall j :: j != k ==> Get(r, j) == Get(s, j)
  {
    if s == [] then [Entry(k, v)]
    else if k < s[0].key then
      SortedCons(Entry(k, v), s);
      assert ([Entry(k, v)] + s)[1..] == s;
      [Entry(k, v)] + s
    else if k == s[0].key then
      SortedCons(Entry(k, v), s[1..]);
      assert ([Entry(k, v)] + s[1..])[1..] == s[1..];
      [Entry(k, v)] + s[1..]
    else
      var rest := Put(s[1..], k, v);
      SortedCons(s[0], rest);
      assert ([s[0]] + rest)[1..] == rest;
      [s[0]] + rest
  }

  /**
   * Replays `es` entry by entry into `sel` with `Put`, in list order:
   * what a loop of `append(keyAt(i), valueAt(i))` calls leaves behind.
   */
  function CopyAll(sel: seq<Entry>, es: seq<Entry>): (r: seq<Entry>)
    requires Sorted(sel)
    ensures Sorted(r)
    decreases |es|
  {
    if es == [] then sel
    else
      var n := |es| - 1;
      Put(CopyAll(sel, es[..n]), es[n].key, es[n].value)
  }

  /** A lookup in a concatenation finds the first part's entry when it has one. */
  lemma {:induction false} GetConcat(a: seq<Entry>, b: seq<Entry>, p: int)
    ensures Get(a + b, p) == if p in Keys(a) then Get(a, p) else Get(b, p)
  {
    if a == [] {
      assert a + b == b;
    } else {
      assert (a + b)[1..] == a[1..] + b;
      GetConcat(a[1..], b, p);
      if a[0].key != p {
        if p in Keys(a) {
          var i :| 0 <= i < |a| && a[i].key == p;
          assert a[1..][i - 1].key == p;
        } else {
          forall i | 0 <= i < |a[1..]| ensures a[1..][i].key != p {
            assert a[1..][i] == a[i + 1];
          }
        }
      }
    }
  }

  /** In a sorted array, looking up the position of an entry yields that entry's flag. */
  lemma {:induction false} GetAt(s: seq<Entry>, i: int)
    requires Sorted(s)
    requires 0 <= i < |s|
    ensures Get(s, s[i].key) == s[i].value
  {
    if i > 0 {
      assert s[1..][i - 1] == s[i];
      GetAt(s[1..], i - 1);
    }
  }

  /**
   * After the replay, a position carries the replayed flag when the
   * replayed array has an entry for it, and keeps its earlier flag otherwise.
   */
  lemma {:induction false} CopyAllGet(sel: seq<Entry>, es: seq<Entry>, p: int)
    requires Sorted(sel) && Sorted(es)
    ensures Get(CopyAll(sel, es), p) == if p in Keys(es) then Get(es, p) else Get(sel, p)
    decreases |es|
  {
    if es != [] {
      var n := |es| - 1;
      var init := es[..n];
      assert es == init + [es[n]];
      CopyAllGet(sel, init, p);
      GetConcat(init, [es[n]], p);
      assert Keys(es) == Keys(init) + {es[n].key} by {
        forall x | x in Keys(es) ensures x in Keys(init) + {es[n].key} {
          var i :| 0 <= i < |es| && es[i].key == x;
          if i < n { assert init[i].key == x; }
        }
      }
      forall i | 0 <= i < |init| ensures init[i].key != es[n].key {
        assert init[i] == es[i];
      }
    }
  }

  /**
   * The count is positive exactly when some position reads as selected.
   * The "only if" half needs the positions to be distinct.
   */
  lemma {:induction false} CountPositive(s: seq<Entry>)
    requires Sorted(s)
    ensures Count(s) > 0 <==> exists k :: Get(s, k)
  {
    if s != [] {
      CountPositive(s[1..]);
      if s[0].value {
        assert Get(s, s[0].key);
      }
      if Count(s) > 0 && !s[0].value {
        var k :| Get(s[1..], k);
        assert k in Keys(s[1..]);
        var i :| 0 <= i < |s[1..]| && s[1..][i].key == k;
        assert s[i + 1].key == k;
        assert Get(s, k);
      }
      if exists k :: Get(s, k) {
        var k :| Get(s, k);
        if s[0].key != k {
          assert Get(s[1..], k);
        }
      }
    }
  }

  /** In a sorted array, every position found past the first entry lies above it. */
  lemma RestAbove(s: seq<Entry>, k: int)
    requires Sorted(s) && s != []
    requires Get(s[1..], k)
    ensures s[0].key < k
  {
    var i :| 0 <= i < |s[1..]| && s[1..][i].key == k;
    assert s[i + 1].key == k;
  }

  /** Some flag is true exactly when the count is positive. */
  lemma {:induction false} CountAnyTrue(s: seq<Entry>)
    ensures AnyTrue(s) <==> Count(s) > 0
  {
    if s != [] {
      CountAnyTrue(s[1..]);
      if AnyTrue(s[1..]) {
        var i :| 0 <= i < |s[1..]| && s[1..][i].value;
        assert s[i + 1].value;
      }
      if AnyTrue(s) && !s[0].value {
        var i :| 0 <= i < |s| && s[i].value;
        assert s[1..][i - 1].value;
      }
    }
  }

  /** Extending a prefix by one entry adds that entry's flag to the disjunction. */
  lemma AnyTrueExtend(s: seq<Entry>, i: int)
    requires 0 <= i < |s|
    ensures AnyTrue(s[..i + 1]) <==> AnyTrue(s[..i]) || s[i].value
  {
    assert s[..i + 1][i] == s[i];
    if AnyTrue(s[..i]) {
      var j :| 0 <= j < i && s[..i][j].value;
      assert s[..i + 1][j].value;
    }
    if AnyTrue(s[..i + 1]) && !s[i].value {
      var j :| 0 <= j < i + 1 && s[..i + 1][j].value;
      assert s[..i][j].value;
    }
  }
}
