/**
 * The reconciliation pass `reload` and the host lifecycle events that trigger it.
 */
module Reconcile {
  import opened Tabs
  import opened Ordering
  import opened Snapshot
  import opened SavedTabs
  import opened Commands

  /** The host's tab events; only three of them are subscribed. */
  datatype HostEvent =
    | OnCreated | OnUpdated | OnMoved | OnSelectionChanged | OnActiveChanged
    | OnActivated | OnHighlightChanged | OnHighlighted | OnDetached | OnAttached
    | OnRemoved | OnReplaced | OnZoomChange

  /** The `events` list: the lifecycle events that trigger a reload. */
  const Subscribed: seq<HostEvent> := [OnCreated, OnUpdated, OnRemoved]

  /** The subscribed events are exactly created, updated and removed, each listed once. */
  lemma SubscribedEvents()
    ensures forall e :: e in Subscribed <==> e == OnCreated || e == OnUpdated || e == OnRemoved
    ensures forall i, j :: 0 <= i < j < |Subscribed| ==> Subscribed[i] != Subscribed[j]
  {
  }

  /**
   * `events.forEach(...)`: one listener per subscribed event, each running
   * `reload`. The listener table holds exactly the created, updated and removed events.
   */
  method RegisterListeners() returns (listeners: map<HostEvent, Reaction>)
    ensures forall e :: e in listeners <==> e == OnCreated || e == OnUpdated || e == OnRemoved
    ensures forall e :: e in listeners ==> listeners[e] == Reaction.Reload
  {
    listeners := map[];
    var i := 0;
    while i < |Subscribed|
      invariant 0 <= i <= |Subscribed|
      invariant forall e :: e in listeners <==> e in Subscribed[..i]
      invariant forall e :: e in listeners ==> listeners[e] == Reaction.Reload
    {
      listeners := listeners[Subscribed[i] := Reaction.Reload];
      i := i + 1;
    }
    assert Subscribed[..|Subscribed|] == Subscribed;
  }

  /** The two independent pushes of a reload: live tabs and saved tabs. */
  datatype Pushes<T> = Pushes(live: seq<NormalisedTab>, saved: seq<T>)

  /**
   * `reload`: sort the queried tabs in place, normalise them, read the saved
   * tabs with the defensive default, and push both. The store is only read.
   */
  method Reload<T>(queried: array<Tab>, store: SavedTabStore<T>) returns (pushes: Pushes<T>)
    modifies queried
    ensures queried[..] == Sort(old(queried[..]))
    ensures pushes.live == LiveSnapshot(old(queried[..]))
    ensures pushes.saved == LoadSaved(store.slot)
  {
    var live := BuildLiveSnapshot(queried);
    var saved := store.Load();
    pushes := Pushes(live, saved);
  }
}
