/**
 * `tabs.sort(byIndex)`: the host's tabs ordered by `index`, ascending, by a
 * stable sort. `Sort` is the reference result (a stable insertion sort as a
 * function); `SortByIndex` sorts an array in place and is proved to produce it.
 */
module Ordering {
  import opened Tabs

  /** Ascending by `index` under the comparator. */
  predicate Sorted(s: seq<Tab>) {
    forall i, j :: 0 <= i < j < |s| ==> ByIndex(s[i], s[j]) <= 0
  }

  /** The tabs of `s` whose index is `k`, in their order in `s`. */
  function WithIndex(s: seq<Tab>, k: int): (r: seq<Tab>)
    ensures |r| <= |s|
  {
    if s == [] then []
    else
      var rest := WithIndex(s[..|s| - 1], k);
      if s[|s| - 1].index == k then rest + [s[|s| - 1]] else rest
  }

  /** A group holds only tabs of the sequence that carry that index. */
  lemma {:induction false} WithIndexMembers(s: seq<Tab>, k: int)
    ensures forall x :: x in WithIndex(s, k) ==> x in s && x.index == k
  {
    if s != [] {
      WithIndexMembers(s[..|s| - 1], k);
      assert forall x :: x in s[..|s| - 1] ==> x in s;
    }
  }

  lemma WithIndexSnoc(t: seq<Tab>, x: Tab, k: int)
    ensures WithIndex(t + [x], k) == WithIndex(t, k) + (if x.index == k then [x] else [])
  {
    assert (t + [x])[..|t|] == t;
  }

  /** Inserts `x` into `t` after every tab that does not compare greater than it. */
  function Insert(t: seq<Tab>, x: Tab): (r: seq<Tab>)
    ensures |r| == |t| + 1
    ensures forall y :: y in r <==> y in t || y == x
  {
    if t == [] || ByIndex(t[|t| - 1], x) <= 0 then t + [x]
    else
      var r := Insert(t[..|t| - 1], x) + [t[|t| - 1]];
      assert t == t[..|t| - 1] + [t[|t| - 1]];
      r
  }

  /** The stable sort of `s` by `ByIndex`. */
  function Sort(s: seq<Tab>): (r: seq<Tab>)
    ensures |r| == |s|
  {
    if s == [] then [] else Insert(Sort(s[..|s| - 1]), s[|s| - 1])
  }

  lemma {:induction false} InsertSorted(t: seq<Tab>, x: Tab)
    requires Sorted(t)
    ensures Sorted(Insert(t, x))
    decreases |t|
  {
    if t == [] || ByIndex(t[|t| - 1], x) <= 0 {
    } else {
      var t', last := t[..|t| - 1], t[|t| - 1];
      InsertSorted(t', x);
      var r := Insert(t', x);
      assert forall y :: y in r ==> y.index <= last.index by {
        forall y | y in r ensures y.index <= last.index {
          if y in t' {
            var i :| 0 <= i < |t'| && t'[i] == y;
            assert t[i] == y;
          }
        }
      }
      assert Insert(t, x) == r + [last];
      forall i, j | 0 <= i < j < |r + [last]|
        ensures ByIndex((r + [last])[i], (r + [last])[j]) <= 0
      {
        if j == |r| {
          assert (r + [last])[i] == r[i] && r[i] in r;
        }
      }
    }
  }

  /** The result of `Sort` is ordered ascending by index. */
  lemma {:induction false} SortSorted(s: seq<Tab>)
    ensures Sorted(Sort(s))
  {
    if s != [] {
      SortSorted(s[..|s| - 1]);
      InsertSorted(Sort(s[..|s| - 1]), s[|s| - 1]);
    }
  }

  lemma {:induction false} InsertPermutation(t: seq<Tab>, x: Tab)
    ensures multiset(Insert(t, x)) == multiset(t) + multiset{x}
    decreases |t|
  {
    if t == [] || ByIndex(t[|t| - 1], x) <= 0 {
    } else {
      InsertPermutation(t[..|t| - 1], x);
      assert t == t[..|t| - 1] + [t[|t| - 1]];
    }
  }

  /** `Sort` only rearranges: the result holds the same tabs, as often as the input. */
  lemma {:induction false} SortPermutation(s: seq<Tab>)
    ensures multiset(Sort(s)) == multiset(s)
  {
    if s != [] {
      SortPermutation(s[..|s| - 1]);
      InsertPermutation(Sort(s[..|s| - 1]), s[|s| - 1]);
      assert s == s[..|s| - 1] + [s[|s| - 1]];
    }
  }

  lemma {:induction false} InsertKeepsIndexOrder(t: seq<Tab>, x: Tab, k: int)
    ensures WithIndex(Insert(t, x), k) == WithIndex(t + [x], k)
    decreases |t|
  {
    if t == [] || ByIndex(t[|t| - 1], x) <= 0 {
    } else {
      var t', last := t[..|t| - 1], t[|t| - 1];
      InsertKeepsIndexOrder(t', x, k);
      assert t == t' + [last];
      WithIndexSnoc(Insert(t', x), last, k);
      WithIndexSnoc(t', x, k);
      WithIndexSnoc(t', last, k);
      WithIndexSnoc(t, x, k);
    }
  }

  /** Stability: for every index value, tabs sharing it keep their input order. */
  lemma {:induction false} SortStable(s: seq<Tab>, k: int)
    ensures WithIndex(Sort(s), k) == WithIndex(s, k)
  {
    if s != [] {
      var s', x := s[..|s| - 1], s[|s| - 1];
      assert s == s' + [x];
      assert Sort(s) == Insert(Sort(s'), x);
      SortStable(s', k);
      InsertKeepsIndexOrder(Sort(s'), x, k);
      WithIndexSnoc(Sort(s'), x, k);
      WithIndexSnoc(s', x, k);
    }
  }

  lemma SortedPrefix(s: seq<Tab>)
    requires Sorted(s) && s != []
    ensures Sorted(s[..|s| - 1])
    ensures forall x :: x in s ==> x.index <= s[|s| - 1].index
  {
    forall x | x in s ensures x.index <= s[|s| - 1].index {
      var i :| 0 <= i < |s| && s[i] == x;
      if i < |s| - 1 {
        assert ByIndex(s[i], s[|s| - 1]) <= 0;
      }
    }
  }

  /** Every index group of `u` equals the same group of `v`. */
  ghost predicate SameGroups(u: seq<Tab>, v: seq<Tab>) {
    forall k :: WithIndex(u, k) == WithIndex(v, k)
  }

  /**
   * If the group of `x`'s index is the same in both arrangements, some tab of the
   * sorted `v + [y]` has that index, so `y`'s index is at least as large.
   */
  lemma LastIndexBound(u: seq<Tab>, x: Tab, v: seq<Tab>, y: Tab)
    requires Sorted(v + [y])
    requires WithIndex(u + [x], x.index) == WithIndex(v + [y], x.index)
    ensures x.index <= y.index
  {
    WithIndexSnoc(u, x, x.index);
    assert x in WithIndex(v + [y], x.index);
    WithIndexMembers(v + [y], x.index);
    SortedPrefix(v + [y]);
  }

  /** ... and are then the same tab: each is the last of that shared group. */
  lemma SameGroupsSameLast(u: seq<Tab>, x: Tab, v: seq<Tab>, y: Tab)
    requires x.index == y.index
    requires WithIndex(u + [x], x.index) == WithIndex(v + [y], x.index)
    ensures x == y
  {
    WithIndexSnoc(u, x, x.index);
    WithIndexSnoc(v, y, y.index);
    var gu, gv := WithIndex(u, x.index), WithIndex(v, x.index);
    assert (gu + [x])[|gu|] == x;
    assert (gv + [y])[|gv|] == y;
  }

  /** Dropping the same last tab from both keeps the groups equal. */
  lemma SameGroupsDropLast(u: seq<Tab>, v: seq<Tab>, x: Tab)
    requires SameGroups(u + [x], v + [x])
    ensures SameGroups(u, v)
  {
    forall k ensures WithIndex(u, k) == WithIndex(v, k) {
      assert WithIndex(u + [x], k) == WithIndex(v + [x], k);
      WithIndexSnoc(u, x, k);
      WithIndexSnoc(v, x, k);
      var a, b := WithIndex(u, k), WithIndex(v, k);
      if x.index == k {
        assert a == (a + [x])[..|a|];
        assert b == (b + [x])[..|b|];
      }
    }
  }

  /** A non-empty sequence has a non-empty group for the index of its last tab. */
  lemma GroupOfLastNonEmpty(s: seq<Tab>)
    requires s != []
    ensures WithIndex(s, s[|s| - 1].index) != []
  {
  }

  /**
   * A sorted arrangement that keeps every index group in the same order is
   * unique, so any stable sort by `ByIndex` yields exactly `Sort`.
   */
  lemma {:induction false} SortedWithSameGroupsEqual(u: seq<Tab>, v: seq<Tab>)
    requires Sorted(u) && Sorted(v)
    requires SameGroups(u, v)
    ensures u == v
    decreases |u| + |v|
  {
    if u == [] && v == [] {
    } else if u == [] {
      GroupOfLastNonEmpty(v);
      assert false;
    } else if v == [] {
      GroupOfLastNonEmpty(u);
      assert false;
    } else {
      var u', x := u[..|u| - 1], u[|u| - 1];
      var v', y := v[..|v| - 1], v[|v| - 1];
      assert u == u' + [x] && v == v' + [y];
      assert WithIndex(u, x.index) == WithIndex(v, x.index);
      assert WithIndex(u, y.index) == WithIndex(v, y.index);
      LastIndexBound(u', x, v', y);
      LastIndexBound(v', y, u', x);
      SameGroupsSameLast(u', x, v', y);
      SameGroupsDropLast(u', v', x);
      SortedPrefix(u);
      SortedPrefix(v);
      SortedWithSameGroupsEqual(u', v');
    }
  }

  /** Any sorted sequence that keeps the input's order within each index is `Sort` of the input. */
  lemma StableSortIsSort(s: seq<Tab>, v: seq<Tab>)
    requires Sorted(v)
    requires forall k :: WithIndex(v, k) == WithIndex(s, k)
    ensures v == Sort(s)
  {
    SortSorted(s);
    forall k ensures WithIndex(v, k) == WithIndex(Sort(s), k) {
      SortStable(s, k);
    }
    SortedWithSameGroupsEqual(v, Sort(s));
  }

  /**
   * Where the insertion point `j` stops (no greater tab just before it, only
   * greater tabs from it on), `Insert` puts `x` exactly there.
   */
  lemma {:induction false} InsertSplit(d: seq<Tab>, j: nat, x: Tab)
    requires j <= |d|
    requires j == 0 || ByIndex(d[j - 1], x) <= 0
    requires forall m :: j <= m < |d| ==> ByIndex(d[m], x) > 0
    ensures Insert(d, x) == d[..j] + [x] + d[j..]
    decreases |d|
  {
    if j == |d| {
      assert d[..j] == d && d[j..] == [];
    } else {
      var d', last := d[..|d| - 1], d[|d| - 1];
      assert ByIndex(last, x) > 0;
      assert Insert(d, x) == Insert(d', x) + [last];
      InsertSplit(d', j, x);
      assert d'[..j] == d[..j];
      assert d[j..] == d'[j..] + [last];
    }
  }

  /** The array contents, element by element, after the shifting loop. */
  lemma AssembleInsert(b: seq<Tab>, d: seq<Tab>, j: nat, x: Tab)
    requires j <= |d| < |b|
    requires forall m :: 0 <= m < j ==> b[m] == d[m]
    requires b[j] == x
    requires forall m :: j < m <= |d| ==> b[m] == d[m - 1]
    ensures b[..|d| + 1] == d[..j] + [x] + d[j..]
  {
  }

  /** Two sequences that agree from position `k` on have the same suffix there. */
  lemma SameFrom(b: seq<Tab>, c: seq<Tab>, k: nat)
    requires |b| == |c| && k <= |b|
    requires forall m :: k <= m < |b| ==> b[m] == c[m]
    ensures b[k..] == c[k..]
  {
  }

  /**
   * One step of the insertion sort: `a[..i]` is sorted already and `a[i]` moves
   * left past every tab that compares greater than it.
   */
  method InsertAt(a: array<Tab>, i: nat)
    requires i < a.Length
    modifies a
    ensures a[..i + 1] == Insert(old(a[..i]), old(a[i]))
    ensures a[i + 1..] == old(a[i + 1..])
  {
    ghost var done := a[..i];
    var x := a[i];
    var j := i;
    while j > 0 && ByIndex(a[j - 1], x) > 0
      invariant 0 <= j <= i
      invariant forall m :: 0 <= m < j ==> a[m] == done[m]
      invariant forall m :: j < m <= i ==> a[m] == done[m - 1]
      invariant forall m :: j <= m < i ==> ByIndex(done[m], x) > 0
      invariant forall m :: i < m < a.Length ==> a[m] == old(a[m])
    {
      a[j] := a[j - 1];
      j := j - 1;
    }
    a[j] := x;
    InsertSplit(done, j, x);
    AssembleInsert(a[..], done, j, x);
    SameFrom(a[..], old(a[..]), i + 1);
  }

  /** Sorting one more tab of the input inserts it into the sorted prefix. */
  lemma SortExtend(input: seq<Tab>, i: nat)
    requires i < |input|
    ensures Sort(input[..i + 1]) == Insert(Sort(input[..i]), input[i])
  {
    assert input[..i + 1][..i] == input[..i];
  }

  /** `tabs.sort(byIndex)`: a stable in-place insertion sort of the queried tabs. */
  method SortByIndex(a: array<Tab>)
    modifies a
    ensures a[..] == Sort(old(a[..]))
  {
    ghost var input := a[..];
    var i := 0;
    while i < a.Length
      invariant 0 <= i <= a.Length
      invariant a[..i] == Sort(input[..i])
      invariant a[i..] == input[i..]
    {
      ghost var pre := a[..];
      assert pre[..i] == Sort(input[..i]);
      assert pre[i] == input[i] && pre[i + 1..] == input[i + 1..] by {
        assert pre[i..] == input[i..];
      }
      InsertAt(a, i);
      SortExtend(input, i);
      i := i + 1;
    }
    assert input[..a.Length] == input;
  }
}
