# Tab reconciliation of elm-tabs-drawer, modelled in Dafny

The browser extension keeps an Elm view of the browser's tabs up to date and
stores a list of "saved tabs". Its logic is in `extension/app.js`, and this
project models it:

- **Ordering** (`Tabs.ByIndex`, `Ordering`). The three-way comparator `byIndex`
  is used to sort the queried tabs in place (`tabs.sort(byIndex)`). JavaScript's
  `Array.prototype.sort` is stable. The model has two parts. `Ordering.Sort` is
  a stable insertion sort written as a function. `Ordering.SortByIndex` is an
  in-place insertion sort on an `array<Tab>`, proved to yield `Sort` of the
  array's old contents. The model proves that `Sort` gives a result that is:
  - ascending by index;
  - a permutation of its input;
  - stable: within each index value, tabs keep their input order.

  It also proves that only one arrangement has all three properties. So any
  stable sort with `byIndex` gives exactly `Sort`, whatever algorithm the host
  engine uses.
- **Normalisation** (`Tabs.Normalise`). `normaliseTab` copies every field. It
  turns a falsy `favIconUrl` into `''` and adds a top-level `muted` taken from
  `mutedInfo.muted`. `Option<string>` models JavaScript's undefined/null:
  `None` is undefined or null, and `Some("")` is the empty string. Datatypes are
  values, so the input record is never modified.
- **Snapshot** (`Snapshot`). The live-tab snapshot is `sort(byIndex)` followed
  by `map(normaliseTab)`.
- **Saved tabs** (`SavedTabs`). `Persisted<T>` models the storage slot: absent,
  an array, or any other value. Loading falls back to `[]` when the value is not
  an array. `saveTab` pushes the tab onto the loaded collection and writes it
  back. The store is a class whose `slot` field holds what is persisted. A saved
  tab is opaque, so its type is a type parameter.
- **Commands** (`Commands`). Each display-layer command has a host request:
  - `openTab` sends `active = true`;
  - `closeTab` and `bulkCloseTab` each send one remove call;
  - `togglePin` sends `pinned = !tab.pinned`;
  - `toggleMute` sends `muted = !tab.mutedInfo.muted`;
  - `saveTab` sends nothing to the host.

  Each command also has a reaction: a reload, a push of the saved tabs, or
  nothing.
- **Reconciliation** (`Reconcile`). The `events` list and its `forEach`
  registration loop, and the `reload` pass.

Host answers are inputs to the model, and host requests are outputs:
- the array `chrome.tabs.query` delivers;
- the tab `chrome.tabs.get` delivers (`None` for a stale id);
- the storage slot's value;
- whether a callback ran.

## Model

| member | source | states |
|---|---|---|
| `Tabs.ByIndex` | extension/app.js:21-25 | The result is -1 exactly when `a.index < b.index`, 1 exactly when `a.index > b.index`, and 0 exactly when the indices are equal |
| `Tabs.ByIndexAntisymmetric` | extension/app.js:21-25 | Swapping the arguments negates the comparison |
| `Tabs.ByIndexPreorder` | extension/app.js:21-25 | "Compares at most 0" is transitive and total, so the comparator is a consistent ordering for the sort |
| `Tabs.FavIconOrEmpty` | extension/app.js:30 | The falsy fallback of the favicon gives the original string whenever one is present (an empty one included) and `''` when it is undefined or null; the result is empty exactly when the original is falsy |
| `Tabs.Normalise` | extension/app.js:27-33 | The favicon is always a string (the original if present, else `''`), `muted` equals `mutedInfo.muted`, and `id`, `index`, `windowId`, `url`, `title`, `active`, `pinned` and `mutedInfo` are copied unchanged |
| `Tabs.NormaliseIdempotent` | extension/app.js:27-33 | Normalising an already normalised tab (read back as a raw record) gives the same normalised tab |
| `Tabs.NormaliseRecoversRaw` | extension/app.js:27-33 | The raw record can be read back from its normalisation exactly when its favicon was present: normalisation loses only the difference between a missing and an empty favicon |
| `Ordering.Sort` | extension/app.js:37 | The sorted sequence has the same length as the input |
| `Ordering.SortSorted` | extension/app.js:37 | The sorted sequence is ascending under `byIndex` |
| `Ordering.SortPermutation` | extension/app.js:37 | The sorted sequence holds the same tabs as the input, each as often |
| `Ordering.SortStable` | extension/app.js:37 | For every index value, the tabs with that index appear in the same relative order as in the host's query result |
| `Ordering.SortedWithSameGroupsEqual` | extension/app.js:37 | Two sorted sequences with the same per-index groups, each in the same order, are equal |
| `Ordering.StableSortIsSort` | extension/app.js:37 | Every sorted, order-preserving arrangement of the queried tabs equals `Sort` of them, so `Sort` is what a stable `sort(byIndex)` returns |
| `Ordering.InsertAt` | extension/app.js:37 | One in-place insertion step: the prefix becomes the old sorted prefix with the next tab inserted stably, and the rest of the array is unchanged |
| `Ordering.SortByIndex` | extension/app.js:37 | Sorting the array in place leaves `Sort` of its old contents in it |
| `Snapshot.NormaliseAll` | extension/app.js:37 | `map(normaliseTab)` gives one entry per tab, in the same order, and entry `i` is the normalisation of tab `i` |
| `Snapshot.LiveSnapshot` | extension/app.js:37 | `tabs.sort(byIndex).map(normaliseTab)` has as many entries as the query result, is ascending by index, and entry `i` normalises entry `i` of the stable sort |
| `Snapshot.LiveSnapshotElements` | extension/app.js:37 | Every queried tab appears normalised in the snapshot, and every snapshot entry is the normalisation of a queried tab |
| `Snapshot.TwoTabScenario` | extension/app.js:21-37 | For tabs reported as [tab 1 at index 1, tab 2 at index 0 with no favicon and muted], tab 2 comes first, with favicon `''` and `muted` set |
| `Snapshot.BuildLiveSnapshot` | extension/app.js:36-37 | The queried array is left sorted in place, and the returned snapshot is the normalised stable sort of its old contents |
| `SavedTabs.LoadSaved` | extension/app.js:39-42 | A stored array is returned unchanged; an absent value or any non-array value gives `[]` |
| `SavedTabs.Appended` | extension/app.js:93-100 | The value `saveTab` writes back is always an array |
| `SavedTabs.LoadAfterSave` | extension/app.js:93-98 | After a save, loading gives a collection one longer, with every earlier tab unchanged and in order, and the saved tab last |
| `SavedTabs.LoadAfterSaves` | extension/app.js:92-100 | Saving several tabs in turn appends them in insertion order: no re-sorting, no deduplication, no shape check |
| `SavedTabs.FirstSaveScenario` | extension/app.js:93-98 | With the slot absent, loading gives `[]`; after one save, loading gives exactly that tab |
| `SavedTabs.SavedTabStore.Load` | extension/app.js:93-96 | Reading the slot gives its array, or `[]` when the slot holds no array |
| `SavedTabs.SavedTabStore.SaveTab` | extension/app.js:92-103 | The slot becomes an array holding the old collection (or `[]`) followed by the tab, and the collection pushed to the saved-tabs channel is exactly what was written |
| `Commands.RequestFor` | extension/app.js:58-90 | `saveTab` issues no host request, and a toggle whose `chrome.tabs.get` found no tab issues none either; every other command issues exactly one. Open and toggle requests target the command's id. `closeTab` removes its id and `bulkCloseTab` removes its ids. `openTab` asks for `active = true`. The toggles ask for the negation of the pinned or mute flag just read |
| `Commands.ReactionTo` | extension/app.js:58-104 | A reload follows exactly when a host request was issued and its callback ran. The saved tabs are pushed exactly when a `saveTab` write completed. Otherwise nothing happens |
| `Commands.TogglePinTwice` | extension/app.js:76-82 | One `togglePin` flips `pinned`, and a second one on the unchanged tab restores the original record |
| `Commands.ToggleMuteTwice` | extension/app.js:84-90 | One `toggleMute` flips `mutedInfo.muted`, and a second one on the unchanged tab restores the original record |
| `Commands.StaleToggleDropped` | extension/app.js:76-90 | A toggle for an id the host no longer knows sends no request and causes no reload or push |
| `Commands.BulkCloseScenario` | extension/app.js:70-74 | `bulkCloseTab([3, 4])` is one remove call for both ids, followed by one reload |
| `Commands.SaveTabNoHostRequest` | extension/app.js:92-104 | `saveTab` never mutates the host; once its write completes it updates only the saved-tabs channel |
| `Reconcile.SubscribedEvents` | extension/app.js:2-16 | The `events` list holds exactly `onCreated`, `onUpdated` and `onRemoved`, each once; the commented-out events are not subscribed |
| `Reconcile.RegisterListeners` | extension/app.js:52-56 | The registration loop over `events` installs a reload listener for exactly `onCreated`, `onUpdated` and `onRemoved`, and for no other host event |
| `Reconcile.Reload` | extension/app.js:35-48 | `reload` leaves the queried array sorted. It pushes the normalised stable sort of the query result as live tabs, and the defaulted stored collection as saved tabs. The store is not changed |

## Left out

- The `chrome.tabs.*` and `chrome.storage.local.*` calls are foreign browser APIs. Their answers are parameters of the model: the queried array, the tab `get` delivered, the slot's value, and whether a callback ran. Their effects are not modelled.
- `Apply` (in `Commands`) gives the meaning of an update request: the one flag it names. It does not model what the browser does. For example, the browser also records a mute reason.
- The asynchronous callback chains, and how concurrent `reload` and command chains interleave, are not modelled. Each chain is modelled as one step.
- The Elm ports (`send`, `subscribe`) and `addListener` are transport. `RegisterListeners` records each registration as a map entry from the event to `Reload`.
- The `reload()` call at start-up (line 50) is just another `Reload` pass.
- Commands.RequestFor: models `closeTab`'s `chrome.tabs.remove(id)` as a removal of the one-element list `[id]`, because the host treats a single id and a one-element list alike.
- Tab records have more fields than `Tab` lists (`audible`, `status`, `incognito`, …). The spread copies all of them unchanged, just like the fields that are modelled.
- Tabs.Normalise: the model assumes the host always supplies `mutedInfo`, because `Tab` makes it a mandatory field. In the code, `tab.mutedInfo.muted` throws a TypeError when a record lacks it. The throw would happen in `normaliseTab` (line 31), inside the query callback of `reload`, so neither channel would be pushed. It would also happen in `toggleMute`'s `get` callback (line 86), so no request would be sent. The model does not capture that error path.
- A saved tab's internal shape is not modelled. The code never inspects it, so it is a type parameter.
- The model follows the code in two cases:
  - After a failed `update` or `remove`, a reload runs whenever the host invokes the callback. The model takes that as the `completed` input, not as "never".
  - A toggle with a stale id sends nothing, because reading the missing tab throws inside the `get` callback.
