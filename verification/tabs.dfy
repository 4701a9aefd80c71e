/**
 * The tab records the engine keeps (`ProcrastabsManager.tabs`), the host's own
 * tab records, the persisted snapshot of a tab, and lookups over a tab list.
 */
module Tabs {
  import opened Wrappers

  /** A wall-clock instant in milliseconds since the epoch, as `Date.now()` returns it.
      Instants are positive, so a present activation stamp is always truthy. */
  type Instant = n: int | n > 0 witness 1

  /** The host's sentinel window id meaning "no window has focus" (WINDOW_ID_NONE). */
  const WindowIdNone: int := -1

  /** A tab as the host reports it; `props` are its other host fields (status, favicon, ...). */
  datatype HostTab = HostTab(id: int, windowId: int, index: int, url: string, title: string,
                             props: map<string, string>)

  /** A tracked tab: the host's record plus the engine's bookkeeping. `activeAt` is
      present while the tab is the focused one; `timeActive` accumulates milliseconds. */
  datatype Tab = Tab(id: int, windowId: int, index: int, url: string, title: string,
                     createdAt: Instant, activeAt: Option<Instant>, timeActive: int,
                     props: map<string, string>)

  /** The persisted form of a tab: exactly the eight fields the snapshot keeps. */
  datatype StoredTab = StoredTab(id: int, windowId: int, index: int, title: string, url: string,
                                 createdAt: Instant, activeAt: Option<Instant>, timeActive: int)

  /** The partial fields of a tab-updated event; `props` are the other host fields it changes. */
  datatype TabUpdate = TabUpdate(url: Option<string>, title: Option<string>, props: map<string, string>)

  function Project(t: Tab): StoredTab {
    StoredTab(t.id, t.windowId, t.index, t.title, t.url, t.createdAt, t.activeAt, t.timeActive)
  }

  /** A stored record brought back to life: it carries no host-only fields. */
  function Restore(s: StoredTab): Tab {
    Tab(s.id, s.windowId, s.index, s.url, s.title, s.createdAt, s.activeAt, s.timeActive, map[])
  }

  /** The snapshot written to storage: every tab with its host-only fields dropped. */
  function Snapshot(tabs: seq<Tab>): (r: seq<StoredTab>)
    ensures |r| == |tabs|
    ensures forall i :: 0 <= i < |tabs| ==>
      && r[i].id == tabs[i].id && r[i].windowId == tabs[i].windowId && r[i].index == tabs[i].index
      && r[i].title == tabs[i].title && r[i].url == tabs[i].url && r[i].createdAt == tabs[i].createdAt
      && r[i].activeAt == tabs[i].activeAt && r[i].timeActive == tabs[i].timeActive
  {
    seq(|tabs|, i requires 0 <= i < |tabs| => Project(tabs[i]))
  }

  function RestoreAll(stored: seq<StoredTab>): (r: seq<Tab>)
    ensures |r| == |stored|
    ensures forall i :: 0 <= i < |r| ==> r[i].props == map[]
  {
    seq(|stored|, i requires 0 <= i < |stored| => Restore(stored[i]))
  }

  /** Restoring a snapshot and taking it again loses nothing. */
  lemma SnapshotRestore(stored: seq<StoredTab>)
    ensures Snapshot(RestoreAll(stored)) == stored
  {
  }

  /** Two tab lists that differ only in host-only fields have the same snapshot. */
  lemma SnapshotIgnoresProps(a: seq<Tab>, b: seq<Tab>)
    requires |a| == |b|
    requires forall i :: 0 <= i < |a| ==> a[i].(props := map[]) == b[i].(props := map[])
    ensures Snapshot(a) == Snapshot(b)
  {
    assert forall i :: 0 <= i < |a| ==> Project(a[i]) == Project(a[i].(props := map[]));
  }

  function Ids(tabs: seq<Tab>): (r: seq<int>)
    ensures |r| == |tabs|
    ensures forall i :: 0 <= i < |tabs| ==> r[i] == tabs[i].id
  {
    seq(|tabs|, i requires 0 <= i < |tabs| => tabs[i].id)
  }

  /** The host's tab ids are unique among open tabs. */
  predicate UniqueIds(tabs: seq<Tab>) {
    forall i, j :: 0 <= i < |tabs| && 0 <= j < |tabs| && tabs[i].id == tabs[j].id ==> i == j
  }

  /** `Array.prototype.findIndex` by id: the first position holding `id`, or -1. */
  function FindIndex(tabs: seq<Tab>, id: int): (p: int)
    ensures -1 <= p < |tabs|
    ensures 0 <= p ==> tabs[p].id == id && forall j :: 0 <= j < p ==> tabs[j].id != id
    ensures p == -1 <==> forall j :: 0 <= j < |tabs| ==> tabs[j].id != id
    decreases |tabs|
  {
    if tabs == [] then -1
    else if tabs[0].id == id then 0
    else
      var p := FindIndex(tabs[1..], id);
      if p == -1 then -1 else p + 1
  }

  /** `Array.prototype.find` by id over the stored snapshot, when there is one. */
  function FindStored(stored: Option<seq<StoredTab>>, id: int): (r: Option<StoredTab>)
    ensures r.Some? ==>
      && stored.Some? && r.value.id == id
      && (exists j :: 0 <= j < |stored.value| && stored.value[j] == r.value
            && forall k :: 0 <= k < j ==> stored.value[k].id != id)
    ensures r.None? <==> stored.None? || forall j :: 0 <= j < |stored.value| ==> stored.value[j].id != id
  {
    match stored
    case None => None
    case Some(s) => FindFirst(s, id)
  }

  function FindFirst(s: seq<StoredTab>, id: int): (r: Option<StoredTab>)
    ensures r.Some? ==> exists j :: 0 <= j < |s| && s[j] == r.value && r.value.id == id
                                   && forall k :: 0 <= k < j ==> s[k].id != id
    ensures r.None? <==> forall j :: 0 <= j < |s| ==> s[j].id != id
    decreases |s|
  {
    if s == [] then None
    else if s[0].id == id then Some(s[0])
    else
      var r := FindFirst(s[1..], id);
      if r.Some? then
        ghost var j :| 0 <= j < |s[1..]| && s[1..][j] == r.value && r.value.id == id
                       && forall k :: 0 <= k < j ==> s[1..][k].id != id;
        assert s[j + 1] == r.value;
        r
      else r
  }
}
