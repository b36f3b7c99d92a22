/**
 * The live-tab snapshot of `reload`: the queried tabs sorted by index and then
 * normalised one by one (`tabs.sort(byIndex).map(normaliseTab)`).
 */
module Snapshot {
  import opened Wrappers
  import opened Tabs
  import opened Ordering

  /** `map(normaliseTab)`: one normalised tab per input tab, in the same order. */
  function NormaliseAll(s: seq<Tab>): (r: seq<NormalisedTab>)
    ensures |r| == |s|
    ensures forall i :: 0 <= i < |s| ==> r[i] == Normalise(s[i])
  {
    if s == [] then [] else [Normalise(s[0])] + NormaliseAll(s[1..])
  }

  /**
   * `tabs.sort(byIndex).map(normaliseTab)`: the sequence pushed to the live-tabs
   * channel. It has one entry per queried tab, ascending by index, and entry `i`
   * is the normalisation of the `i`-th tab of the stable sort.
   */
  function LiveSnapshot(queried: seq<Tab>): (r: seq<NormalisedTab>)
    ensures |r| == |queried|
    ensures forall i :: 0 <= i < |queried| ==> r[i] == Normalise(Sort(queried)[i])
    ensures forall i, j :: 0 <= i < j < |queried| ==> r[i].index <= r[j].index
  {
    SortSorted(queried);
    NormaliseAll(Sort(queried))
  }

  /** The stable sort holds exactly the tabs of its input. */
  lemma SortMembers(s: seq<Tab>)
    ensures forall u :: u in Sort(s) <==> u in s
  {
    SortPermutation(s);
    assert forall u :: u in Sort(s) <==> u in multiset(Sort(s));
    assert forall u :: u in s <==> u in multiset(s);
  }

  /** Every entry of the snapshot is a normalised queried tab, and every queried tab appears. */
  lemma LiveSnapshotElements(queried: seq<Tab>, t: Tab)
    ensures t in queried ==> Normalise(t) in LiveSnapshot(queried)
    ensures forall n :: n in LiveSnapshot(queried) ==> exists u :: u in queried && n == Normalise(u)
  {
    var sorted, snap := Sort(queried), LiveSnapshot(queried);
    SortMembers(queried);
    if t in queried {
      var i :| 0 <= i < |sorted| && sorted[i] == t;
      assert snap[i] == Normalise(t);
    }
    forall n | n in snap ensures exists u :: u in queried && n == Normalise(u) {
      var i :| 0 <= i < |snap| && snap[i] == n;
      assert sorted[i] in queried;
    }
  }

  /**
   * The scenario of two tabs reported as [tab 1 at index 1, tab 2 at index 0],
   * tab 2 without a favicon and muted: tab 2 comes first, with an empty favicon
   * and the flattened mute flag set.
   */
  lemma TwoTabScenario(t1: Tab, t2: Tab)
    requires t1.id == 1 && t1.index == 1
    requires t2.id == 2 && t2.index == 0 && t2.favIconUrl == None && t2.mutedInfo.muted
    ensures LiveSnapshot([t1, t2]) == [Normalise(t2), Normalise(t1)]
    ensures LiveSnapshot([t1, t2])[0].id == 2 && LiveSnapshot([t1, t2])[0].favIconUrl == ""
    ensures LiveSnapshot([t1, t2])[0].muted
  {
    assert [t1, t2][..1] == [t1];
    assert [t1][..0] == [];
    assert Sort([t1]) == [t1];
    assert Insert([t1][..0], t2) == [t2];
    assert Sort([t1, t2]) == [t2, t1];
  }

  /** `tabs.sort(byIndex).map(normaliseTab)` on the array the host query delivered. */
  method BuildLiveSnapshot(tabs: array<Tab>) returns (snapshot: seq<NormalisedTab>)
    modifies tabs
    ensures tabs[..] == Sort(old(tabs[..]))
    ensures snapshot == LiveSnapshot(old(tabs[..]))
  {
    SortByIndex(tabs);
    snapshot := NormaliseAll(tabs[..]);
  }
}
