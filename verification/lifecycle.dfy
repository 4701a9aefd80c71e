/**
 * What pairs of listener steps do together: a rejected tab and its removal, a move and
 * the move back, the index repair of a removal, the persistence round trip through a
 * restart, and the activation bookkeeping across a url change.
 */
module Lifecycle {
  import opened Wrappers
  import opened Tabs
  import opened Activity
  import opened Settings
  import opened Engine

  /** The tabs of window `w` sit at distinct positions. */
  predicate DistinctPositions(tabs: seq<Tab>, w: int) {
    forall i, j ::
      (0 <= i < |tabs| && 0 <= j < |tabs| && tabs[i].windowId == w && tabs[j].windowId == w
       && tabs[i].index == tabs[j].index) ==> i == j
  }

  // ---------------------------------------------------------------- rejection

  /** A tab over the ceiling is appended and closed at once; when the host reports its
      removal the list is what it was before, the one-shot bypass is spent, and that
      removal neither writes to storage nor repaints the badge. */
  lemma RejectedTabRemovalRestores(s: State, h: HostTab, now: Instant)
    requires Rejects(s)
    requires forall i :: 0 <= i < |s.tabs| ==> s.tabs[i].id != h.id
    requires forall i :: 0 <= i < |s.tabs| && s.tabs[i].windowId == h.windowId ==> s.tabs[i].index <= |s.tabs|
    ensures var created := OnCreated(s, h, now);
      && created.effects == [CloseTabs([h.id])]
      && var removed := OnRemoved(created.state, h.id, false, h.windowId);
      && removed.state.tabs == s.tabs && removed.state.config == s.config && !removed.state.bypassSync
      && !Emits(removed.effects, Sync) && !Emits(removed.effects, Badge)
  {
    var created := OnCreated(s, h, now);
    var tabs := created.state.tabs;
    var p := FindIndex(tabs, h.id);
    assert tabs[|s.tabs|].id == h.id;
    assert forall j :: 0 <= j < |s.tabs| ==> tabs[j] == s.tabs[j];
    assert p == |s.tabs|;
    var r := RemoveTab(tabs, h.id, h.windowId);
    assert forall i :: 0 <= i < |r| ==> r[i] == Shift(s.tabs[i], h.windowId, p);
  }

  // ---------------------------------------------------------------- move

  /** Moving a tab and moving it straight back restores every tab. */
  lemma MoveRoundTrip(s: State, k: int, w: int, to: int)
    requires 0 <= k < |s.tabs| && s.tabs[k].windowId == w
    requires UniqueIds(s.tabs) && DistinctPositions(s.tabs, w)
    ensures var id, from := s.tabs[k].id, s.tabs[k].index;
      OnMoved(OnMoved(s, id, w, from, to).state, id, w, to, from).state == s
  {
    var id, from := s.tabs[k].id, s.tabs[k].index;
    var once := OnMoved(s, id, w, from, to).state;
    var back := OnMoved(once, id, w, to, from).state;
    assert forall i :: 0 <= i < |s.tabs| && s.tabs[i].windowId == w && s.tabs[i].index == from ==> i == k;
    assert forall i :: 0 <= i < |s.tabs| ==> back.tabs[i] == s.tabs[i];
  }

  /** A move inside a window keeps the window's positions distinct. */
  lemma MoveKeepsDistinctPositions(s: State, k: int, w: int, to: int)
    requires 0 <= k < |s.tabs| && s.tabs[k].windowId == w
    requires UniqueIds(s.tabs) && DistinctPositions(s.tabs, w)
    ensures DistinctPositions(OnMoved(s, s.tabs[k].id, w, s.tabs[k].index, to).state.tabs, w)
  {
    var id, from := s.tabs[k].id, s.tabs[k].index;
    var r := OnMoved(s, id, w, from, to).state.tabs;
    forall i, j | 0 <= i < |r| && 0 <= j < |r| && r[i].windowId == w && r[j].windowId == w
                  && r[i].index == r[j].index
      ensures i == j
    {
      assert s.tabs[i].id == id <==> i == k;
      assert s.tabs[j].id == id <==> j == k;
      assert s.tabs[i].index == s.tabs[j].index;
    }
  }

  // ---------------------------------------------------------------- removal

  /** In a single window whose tabs sit at their list positions, removing a tracked tab
      closes the gap: the other tabs keep their order and sit at their new positions. */
  lemma SingleWindowRemovalKeepsDense(tabs: seq<Tab>, id: int, w: int)
    requires forall i :: 0 <= i < |tabs| ==> tabs[i].windowId == w && tabs[i].index == i
    requires exists i :: 0 <= i < |tabs| && tabs[i].id == id
    ensures var r, p := RemoveTab(tabs, id, w), FindIndex(tabs, id);
      && |r| == |tabs| - 1
      && (forall i :: 0 <= i < |r| ==> r[i].windowId == w && r[i].index == i)
      && (forall i :: 0 <= i < |r| ==> r[i].id == tabs[if i < p then i else i + 1].id)
  {
  }

  /** With two windows the repair compares window indices with a position in the whole
      list: removing the first tab of the second window leaves its other tab at index 1. */
  lemma RemovalComparesListPosition()
    ensures var a := Tab(1, 1, 0, "a", "", 1, None, 0, map[]);
      var b := Tab(2, 2, 0, "b", "", 1, None, 0, map[]);
      var c := Tab(3, 2, 1, "c", "", 1, None, 0, map[]);
      RemoveTab([a, b, c], 2, 2) == [a, c]
  {
    var a := Tab(1, 1, 0, "a", "", 1, None, 0, map[]);
    var b := Tab(2, 2, 0, "b", "", 1, None, 0, map[]);
    var c := Tab(3, 2, 1, "c", "", 1, None, 0, map[]);
    assert FindIndex([a, b, c], 2) == 1;
  }

  /** Removing an id the engine does not track drops the last tab instead, and moves
      every tab of the window down by one. */
  lemma MissingRemovalDropsLastTab(tabs: seq<Tab>, id: int, w: int)
    requires tabs != [] && forall i :: 0 <= i < |tabs| ==> tabs[i].id != id
    ensures var r := RemoveTab(tabs, id, w);
      && Ids(r) == Ids(tabs[..|tabs| - 1])
      && forall i :: 0 <= i < |r| && tabs[i].windowId == w && tabs[i].index >= 0 ==>
           r[i].index == tabs[i].index - 1
  {
    assert FindIndex(tabs, id) == -1;
  }

  // ---------------------------------------------------------------- restart

  /** Persistence round trip: restarting with the snapshot of the tabs in storage and the
      same tabs open brings every record back, stamping only the focused one. */
  lemma InitRestoresSnapshot(defaults: Config, tabs: seq<Tab>, host: seq<HostTab>, active: Option<HostTab>,
                             stored: StoredConfig, now: Instant)
    requires UniqueIds(tabs)
    requires |host| == |tabs| && forall i :: 0 <= i < |tabs| ==> host[i].id == tabs[i].id
    requires forall i :: 0 <= i < |tabs| ==> tabs[i].activeAt.None? && tabs[i].props == map[]
    requires stored.tabs == Some(Snapshot(tabs))
    ensures var r := Init(defaults, host, active, stored, now).state.tabs;
      && |r| == |tabs|
      && forall i :: 0 <= i < |tabs| ==>
           r[i] == tabs[i].(activeAt := if IsActiveTab(active, tabs[i].id, tabs[i].windowId) then Some(now) else None)
  {
    var snap := Snapshot(tabs);
    var r := Init(defaults, host, active, stored, now).state.tabs;
    forall i | 0 <= i < |tabs|
      ensures r[i] == tabs[i].(activeAt := if IsActiveTab(active, tabs[i].id, tabs[i].windowId) then Some(now) else None)
    {
      assert snap[i].id == host[i].id;
      var found := FindStored(stored.tabs, host[i].id);
      var j :| 0 <= j < |snap| && snap[j] == found.value;
      assert tabs[j].id == tabs[i].id;
    }
  }

  // ---------------------------------------------------------------- activity

  /** A url change stamps the changed tab even when it is in the background, so after an
      activation and a url change of another tab two tabs carry a stamp. */
  lemma UrlChangeStampsBackgroundTab(s: State, a: int, b: int, u: TabUpdate, now: Instant, later: Instant)
    requires 0 <= a < |s.tabs| && 0 <= b < |s.tabs| && s.tabs[a].id != s.tabs[b].id
    requires UrlChanges(s.tabs[b], u)
    ensures var focused := OnActivated(s, s.tabs[a].id, now).state;
      var r := OnUpdated(focused, s.tabs[b].id, u, later).state.tabs;
      && r[a].activeAt.Some? && r[b].activeAt == Some(later)
      && forall i :: 0 <= i < |r| && r[i].activeAt.Some? ==> r[i].id == s.tabs[a].id || r[i].id == s.tabs[b].id
  {
  }
}
