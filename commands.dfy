/**
 * The command handlers subscribed to the display layer's ports: which host
 * request each command issues and what follows when its callback runs.
 */
module Commands {
  import opened Wrappers
  import opened Tabs

  /** The six commands the display layer sends; a saved tab is opaque. */
  datatype Command<T> =
    | OpenTab(id: int)
    | CloseTab(id: int)
    | BulkCloseTab(ids: seq<int>)
    | TogglePin(id: int)
    | ToggleMute(id: int)
    | SaveTab(tab: T)

  /** The properties object passed to `chrome.tabs.update`. */
  datatype UpdateProperties = SetActive(active: bool) | SetPinned(pinned: bool) | SetMuted(muted: bool)

  /** A mutation request to the host: `chrome.tabs.update` or `chrome.tabs.remove`. */
  datatype HostRequest = Update(tabId: int, props: UpdateProperties) | Remove(tabIds: seq<int>)

  /** What runs once a command's callback fires. */
  datatype Reaction = Reload | PushSaved | NoReaction

  /**
   * The flag an update request asks the host to set, applied to a tab record.
   * This is the meaning of the request, not a model of the host.
   */
  function Apply(t: Tab, props: UpdateProperties): Tab
  {
    match props
    case SetActive(b) => t.(active := b)
    case SetPinned(b) => t.(pinned := b)
    case SetMuted(b) => t.(mutedInfo := t.mutedInfo.(muted := b))
  }

  /**
   * The host request `cmd` issues. `current` is the tab `chrome.tabs.get`
   * delivered to a toggle's callback; `None` stands for a stale id, where
   * reading the missing tab throws inside the callback and nothing is sent.
   */
  function RequestFor<T>(cmd: Command<T>, current: Option<Tab>): (r: Option<HostRequest>)
    ensures r.None? <==> cmd.SaveTab? || ((cmd.TogglePin? || cmd.ToggleMute?) && current.None?)
    ensures r.Some? && r.value.Update? ==> (cmd.OpenTab? || cmd.TogglePin? || cmd.ToggleMute?) && r.value.tabId == cmd.id
    ensures r.Some? && r.value.Remove? ==>
      (cmd.CloseTab? && r.value.tabIds == [cmd.id]) || (cmd.BulkCloseTab? && r.value.tabIds == cmd.ids)
    ensures cmd.OpenTab? ==> r.Some? && r.value.Update? && forall t :: Apply(t, r.value.props) == t.(active := true)
    ensures cmd.TogglePin? && current.Some? ==>
      r.value.Update? && r.value.props.SetPinned? && Apply(current.value, r.value.props).pinned != current.value.pinned
    ensures cmd.ToggleMute? && current.Some? ==>
      r.value.Update? && r.value.props.SetMuted? &&
      Apply(current.value, r.value.props).mutedInfo.muted != current.value.mutedInfo.muted
  {
    match cmd
    case OpenTab(id) => Some(Update(id, SetActive(true)))
    case CloseTab(id) => Some(Remove([id]))
    case BulkCloseTab(ids) => Some(Remove(ids))
    case TogglePin(id) =>
      if current.Some? then Some(Update(id, SetPinned(!current.value.pinned))) else None
    case ToggleMute(id) =>
      if current.Some? then Some(Update(id, SetMuted(!current.value.mutedInfo.muted))) else None
    case SaveTab(_) => None
  }

  /**
   * What follows a command. `completed` says whether the callback of the
   * command's last asynchronous call (the host mutation, or the storage write
   * for `saveTab`) ran.
   */
  function ReactionTo<T>(cmd: Command<T>, current: Option<Tab>, completed: bool): (r: Reaction)
    ensures r == Reload <==> completed && RequestFor(cmd, current).Some?
    ensures r == PushSaved <==> completed && cmd.SaveTab?
    ensures r == NoReaction <==> !completed || (RequestFor(cmd, current).None? && !cmd.SaveTab?)
  {
    if !completed then NoReaction
    else if cmd.SaveTab? then PushSaved
    else if RequestFor(cmd, current).Some? then Reload
    else NoReaction
  }

  /** Pinning toggled twice on an otherwise unchanged tab restores it. */
  lemma TogglePinTwice(t: Tab)
    ensures var once := Apply(t, RequestFor(Command<()>.TogglePin(t.id), Some(t)).value.props);
            once.pinned == !t.pinned &&
            Apply(once, RequestFor(Command<()>.TogglePin(t.id), Some(once)).value.props) == t
  {
  }

  /** Muting toggled twice on an otherwise unchanged tab restores it. */
  lemma ToggleMuteTwice(t: Tab)
    ensures var once := Apply(t, RequestFor(Command<()>.ToggleMute(t.id), Some(t)).value.props);
            once.mutedInfo.muted == !t.mutedInfo.muted &&
            Apply(once, RequestFor(Command<()>.ToggleMute(t.id), Some(once)).value.props) == t
  {
  }

  /** A toggle against a stale id sends nothing and triggers nothing, whatever else happens. */
  lemma StaleToggleDropped(id: int, completed: bool)
    ensures RequestFor(Command<()>.TogglePin(id), None).None? && ReactionTo(Command<()>.TogglePin(id), None, completed) == NoReaction
    ensures RequestFor(Command<()>.ToggleMute(id), None).None? && ReactionTo(Command<()>.ToggleMute(id), None, completed) == NoReaction
  {
  }

  /** Closing several tabs is one host call for all of them, followed by one reload. */
  lemma BulkCloseScenario(current: Option<Tab>)
    ensures RequestFor(Command<()>.BulkCloseTab([3, 4]), current) == Some(Remove([3, 4]))
    ensures ReactionTo(Command<()>.BulkCloseTab([3, 4]), current, true) == Reload
  {
  }

  /** Saving a tab never mutates the host and updates only the saved-tabs channel. */
  lemma SaveTabNoHostRequest<T>(tab: T, current: Option<Tab>)
    ensures RequestFor(SaveTab(tab), current).None?
    ensures ReactionTo(SaveTab(tab), current, true) == PushSaved
  {
  }
}
