/**
 * The persisted "savedTabs" slot: the defensive default on load and the
 * append of `saveTab`. A saved tab is opaque, hence the type parameter.
 */
module SavedTabs {

  /**
   * What the storage slot can hold: nothing, an array of saved tabs, or any
   * other value (null, an object, a string, a number).
   */
  datatype Persisted<T> = Absent | Array(items: seq<T>) | Other

  /** `Array.isArray(savedTabs) ? savedTabs : []` */
  function LoadSaved<T>(v: Persisted<T>): (r: seq<T>)
    ensures v.Array? ==> r == v.items
    ensures !v.Array? ==> r == []
  {
    match v
    case Array(items) => items
    case _ => []
  }

  /** The value `saveTab` writes back: the loaded collection with `tab` pushed on the end. */
  function Appended<T>(v: Persisted<T>, tab: T): (w: Persisted<T>)
    ensures w.Array?
  {
    Array(LoadSaved(v) + [tab])
  }

  /**
   * After a save, loading gives the earlier collection (or the empty one if the
   * slot was malformed) with `tab` at the end: one longer, nothing before it changed.
   */
  lemma LoadAfterSave<T>(v: Persisted<T>, tab: T)
    ensures |LoadSaved(Appended(v, tab))| == |LoadSaved(v)| + 1
    ensures LoadSaved(Appended(v, tab))[..|LoadSaved(v)|] == LoadSaved(v)
    ensures LoadSaved(Appended(v, tab))[|LoadSaved(v)|] == tab
  {
    var r := LoadSaved(v) + [tab];
    assert r[..|LoadSaved(v)|] == LoadSaved(v);
  }

  /** The slot after saving each of `tabs` in turn. */
  function SaveAll<T>(v: Persisted<T>, tabs: seq<T>): (w: Persisted<T>)
    ensures tabs != [] ==> w.Array?
    decreases |tabs|
  {
    if tabs == [] then v else SaveAll(Appended(v, tabs[0]), tabs[1..])
  }

  /**
   * Saving is append-only in insertion order: no re-sorting, no deduplication,
   * no check of a saved tab's shape.
   */
  lemma {:induction false} LoadAfterSaves<T>(v: Persisted<T>, tabs: seq<T>)
    ensures LoadSaved(SaveAll(v, tabs)) == LoadSaved(v) + tabs
    decreases |tabs|
  {
    if tabs == [] {
      assert LoadSaved(v) + tabs == LoadSaved(v);
    } else {
      LoadAfterSaves(Appended(v, tabs[0]), tabs[1..]);
      assert LoadSaved(v) + tabs == LoadSaved(v) + [tabs[0]] + tabs[1..];
    }
  }

  /**
   * First run: the slot is empty, loading yields [], and after one save loading
   * yields exactly that tab.
   */
  lemma FirstSaveScenario<T>(tab: T)
    ensures LoadSaved<T>(Absent) == []
    ensures LoadSaved(Appended(Absent, tab)) == [tab]
  {
  }

  /** The storage slot under the "savedTabs" key. */
  class SavedTabStore<T> {
    var slot: Persisted<T>

    constructor (initial: Persisted<T>)
      ensures slot == initial
    {
      slot := initial;
    }

    /** `chrome.storage.local.get(['savedTabs'])` followed by the array check. */
    method Load() returns (tabs: seq<T>)
      ensures tabs == LoadSaved(slot)
      ensures slot.Array? || tabs == []
    {
      tabs := LoadSaved(slot);
    }

    /**
     * `saveTab`: read the slot (defaulting to []), push `tab`, write the whole
     * collection back, and push it to the saved-tabs channel once the write completes.
     */
    method SaveTab(tab: T) returns (pushed: seq<T>)
      modifies this
      ensures pushed == old(LoadSaved(slot)) + [tab]
      ensures slot == Array(pushed)
    {
      var savedTabs := Load();
      savedTabs := savedTabs + [tab];
      slot := Array(savedTabs);
      pushed := savedTabs;
    }
  }
}
