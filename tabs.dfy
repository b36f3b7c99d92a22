/**
 * The host's tab records, the three-way comparator `byIndex` and the
 * normalisation `normaliseTab` of extension/app.js.
 */
module Tabs {
  import opened Wrappers

  /** The nested mute state a host tab carries (`tab.mutedInfo`). */
  datatype MutedInfo = MutedInfo(muted: bool, reason: Option<string>)

  /**
   * A raw tab record as the host reports it. `favIconUrl` is `None` when the
   * host leaves it undefined or null; `Some("")` is the empty string.
   */
  datatype Tab = Tab(
    id: int,
    index: int,
    windowId: int,
    url: string,
    title: string,
    active: bool,
    pinned: bool,
    favIconUrl: Option<string>,
    mutedInfo: MutedInfo)

  /**
   * A normalised tab: every field of the raw record, a favicon that is always a
   * string, and the mute flag lifted to the top level.
   */
  datatype NormalisedTab = NormalisedTab(
    id: int,
    index: int,
    windowId: int,
    url: string,
    title: string,
    active: bool,
    pinned: bool,
    favIconUrl: string,
    mutedInfo: MutedInfo,
    muted: bool)

  /** The three-way comparator on `index` used to sort the queried tabs. */
  function ByIndex(a: Tab, b: Tab): (r: int)
    ensures r == -1 <==> a.index < b.index
    ensures r == 1 <==> a.index > b.index
    ensures r == 0 <==> a.index == b.index
  {
    if a.index < b.index then -1
    else if a.index > b.index then 1
    else 0
  }

  /** Swapping the arguments negates the comparison. */
  lemma ByIndexAntisymmetric(a: Tab, b: Tab)
    ensures ByIndex(a, b) == -ByIndex(b, a)
  {
  }

  /** `ByIndex(a, b) <= 0` is a total preorder: transitive and total. */
  lemma ByIndexPreorder(a: Tab, b: Tab, c: Tab)
    ensures ByIndex(a, b) <= 0 && ByIndex(b, c) <= 0 ==> ByIndex(a, c) <= 0
    ensures ByIndex(a, b) <= 0 || ByIndex(b, a) <= 0
  {
  }

  /** JavaScript truthiness of an optional string: present and non-empty. */
  predicate Truthy(u: Option<string>) {
    u.Some? && u.value != ""
  }

  /** `tab.favIconUrl || ''` */
  function FavIconOrEmpty(u: Option<string>): (s: string)
    ensures u.Some? ==> s == u.value
    ensures u.None? ==> s == ""
    ensures s == "" <==> !Truthy(u)
  {
    if Truthy(u) then u.value else ""
  }

  /**
   * `normaliseTab`: a new record that keeps every field, turns a missing
   * favicon into the empty string and adds the flattened mute flag.
   */
  function Normalise(t: Tab): (n: NormalisedTab)
    ensures n.favIconUrl == (if t.favIconUrl.Some? then t.favIconUrl.value else "")
    ensures n.muted == t.mutedInfo.muted
    ensures n.id == t.id && n.index == t.index && n.windowId == t.windowId
    ensures n.url == t.url && n.title == t.title && n.active == t.active
    ensures n.pinned == t.pinned && n.mutedInfo == t.mutedInfo
  {
    NormalisedTab(
      t.id, t.index, t.windowId, t.url, t.title, t.active, t.pinned,
      FavIconOrEmpty(t.favIconUrl), t.mutedInfo, t.mutedInfo.muted)
  }

  /** A normalised tab read back as a raw host record (its favicon is then present). */
  function AsRaw(n: NormalisedTab): (t: Tab)
    ensures t.favIconUrl == Some(n.favIconUrl)
    ensures t.id == n.id && t.index == n.index && t.mutedInfo == n.mutedInfo
  {
    Tab(n.id, n.index, n.windowId, n.url, n.title, n.active, n.pinned,
        Some(n.favIconUrl), n.mutedInfo)
  }

  /** Normalising an already normalised tab changes nothing. */
  lemma NormaliseIdempotent(t: Tab)
    ensures Normalise(AsRaw(Normalise(t))) == Normalise(t)
  {
  }

  /** Normalisation forgets only the difference between a missing and an empty favicon. */
  lemma NormaliseRecoversRaw(t: Tab)
    ensures AsRaw(Normalise(t)) == t <==> t.favIconUrl.Some?
  {
    if AsRaw(Normalise(t)) == t {
      assert t.favIconUrl == AsRaw(Normalise(t)).favIconUrl;
    }
  }
}
