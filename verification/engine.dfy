/**
 * The tab-tracking engine (`ProcrastabsManager`): its state and one pure step
 * function per listener. Each step takes the state, the event's data, the host's
 * answers the listener awaits, and the current instant, and returns the next state
 * together with the requests the listener issues (close tabs, start or stop the
 * countdown, write to storage, paint the badge), in issue order.
 */
module Engine {
  import opened Wrappers
  import opened Decimal
  import opened Seqs
  import opened Tabs
  import opened Activity
  import opened Duplicates
  import opened Settings

  /** The engine's mutable fields: the tracked tabs, the one-shot sync bypass and the config. */
  datatype State = State(tabs: seq<Tab>, bypassSync: bool, config: Config)

  /** A request the engine issues to its host. */
  datatype Effect =
    | CloseTabs(ids: seq<int>)
    | StartCountdown(seconds: int)
    | StopCountdown
    | SyncTabs(tabs: seq<StoredTab>)
    | SyncAll(tabs: seq<StoredTab>, maxTabs: int, maxTabsEnabled: bool, countdown: int,
              countdownEnabled: bool, closeDuplicates: bool)
    | SetBadgeText(text: string)
    | SetBadgeColor(color: string)

  datatype Step = Step(state: State, effects: seq<Effect>)

  /** All tab ids the effects ask the host to close, in order. */
  function ClosedIds(effects: seq<Effect>): seq<int>
    decreases |effects|
  {
    if effects == [] then []
    else (if effects[0].CloseTabs? then effects[0].ids else []) + ClosedIds(effects[1..])
  }

  /** The kinds of request, for stating which ones a step issues. */
  datatype Kind = Close | Start | Stop | Sync | Badge

  predicate IsKind(e: Effect, k: Kind) {
    match k
    case Close => e.CloseTabs?
    case Start => e.StartCountdown?
    case Stop => e.StopCountdown?
    case Sync => e.SyncTabs? || e.SyncAll?
    case Badge => e.SetBadgeText? || e.SetBadgeColor?
  }

  /** Some request of kind `k` is among `effects`. */
  predicate Emits(effects: seq<Effect>, k: Kind) {
    exists i :: 0 <= i < |effects| && IsKind(effects[i], k)
  }

  /** `effects` finishes with the requests `tail`. */
  predicate EndsWith(effects: seq<Effect>, tail: seq<Effect>) {
    |tail| <= |effects| && effects[|effects| - |tail|..] == tail
  }

  lemma EndsWithAppend(a: seq<Effect>, b: seq<Effect>)
    ensures EndsWith(a + b, b)
  {
    assert (a + b)[|a + b| - |b|..] == b;
  }

  lemma EmitsAppend(a: seq<Effect>, b: seq<Effect>, k: Kind)
    ensures Emits(a + b, k) <==> Emits(a, k) || Emits(b, k)
  {
    if Emits(a + b, k) {
      var i :| 0 <= i < |a + b| && IsKind((a + b)[i], k);
      if i >= |a| {
        assert b[i - |a|] == (a + b)[i];
      }
    }
    if Emits(a, k) {
      var i :| 0 <= i < |a| && IsKind(a[i], k);
      assert (a + b)[i] == a[i];
    }
    if Emits(b, k) {
      var i :| 0 <= i < |b| && IsKind(b[i], k);
      assert (a + b)[|a| + i] == b[i];
    }
  }

  lemma {:induction false} ClosedIdsWithoutClose(effects: seq<Effect>)
    requires !Emits(effects, Close)
    ensures ClosedIds(effects) == []
    decreases |effects|
  {
    if effects != [] {
      assert !IsKind(effects[0], Close);
      assert !Emits(effects[1..], Close) by {
        forall i | 0 <= i < |effects[1..]| ensures !IsKind(effects[1..][i], Close) {
          assert effects[1..][i] == effects[i + 1];
        }
      }
      ClosedIdsWithoutClose(effects[1..]);
    }
  }

  /** `updateBadge()`: the count text and the base colour. */
  function UpdateBadge(s: State): seq<Effect> {
    [SetBadgeText(BadgeText(|s.tabs|, s.config)), SetBadgeColor(s.config.badgeBaseColor)]
  }

  /** The badge `updateBadge` paints reads back as the number of tracked tabs, on the
      base colour. */
  lemma UpdateBadgeShowsCount(s: State)
    ensures |UpdateBadge(s)| == 2 && UpdateBadge(s)[0].SetBadgeText?
    ensures ReadBadge(UpdateBadge(s)[0].text, s.config) == Some(|s.tabs|)
    ensures UpdateBadge(s)[1] == SetBadgeColor(s.config.badgeBaseColor)
  {
    ReadBadgeText(|s.tabs|, s.config);
  }

  /** `syncTabsWithClient()`: the snapshot of the tabs written to storage. */
  function SyncTabsOf(s: State): Effect {
    SyncTabs(Snapshot(s.tabs))
  }

  /** `startCountdown()`: a new interval whose length is fixed from the config now. */
  function StartFor(c: Config): Effect {
    StartCountdown(c.countdown * 60)
  }

  /** `syncTabsWithClient(); updateBadge()`, the tail of most listeners. */
  function Publish(s: State): (effects: seq<Effect>)
    ensures effects == [SyncTabs(Snapshot(s.tabs)), SetBadgeText(BadgeText(|s.tabs|, s.config)),
                        SetBadgeColor(s.config.badgeBaseColor)]
    ensures Emits(effects, Sync) && Emits(effects, Badge)
    ensures !Emits(effects, Close) && !Emits(effects, Start) && !Emits(effects, Stop)
    ensures ClosedIds(effects) == []
  {
    var e := [SyncTabsOf(s)] + UpdateBadge(s);
    assert IsKind(e[0], Sync) && IsKind(e[1], Badge);
    ClosedIdsWithoutClose(e);
    e
  }

  // ---------------------------------------------------------------- creation

  /** The record a created tab starts with. */
  function FreshTab(h: HostTab, now: Instant): Tab {
    Tab(h.id, h.windowId, h.index, h.url, h.title, now, None, 0, h.props)
  }

  /** The new tab takes the list over the ceiling. */
  predicate Rejects(s: State) {
    s.config.maxTabsEnabled && |s.tabs| + 1 > s.config.maxTabs
  }

  /** The older tabs the new tab duplicates, looked for when duplicate closing is on. */
  function DuplicatesOnCreate(s: State, h: HostTab, now: Instant): seq<Tab> {
    if s.config.closeDuplicates then DuplicatesOf(s.tabs + [FreshTab(h, now)], FreshTab(h, now)) else []
  }

  /** The tab-created listener. */
  function OnCreated(s: State, h: HostTab, now: Instant): (r: Step)
    ensures |r.state.tabs| == |s.tabs| + 1 && r.state.tabs[..|s.tabs|] == s.tabs
    ensures var t := r.state.tabs[|s.tabs|];
      && t.id == h.id && t.windowId == h.windowId && t.index == h.index && t.url == h.url
      && t.title == h.title && t.createdAt == now && t.activeAt == None && t.timeActive == 0
    ensures r.state.config == s.config
    ensures Rejects(s) ==> r.effects == [CloseTabs([h.id])] && r.state.bypassSync
    ensures !Rejects(s) ==> r.state.bypassSync == s.bypassSync
    ensures !Rejects(s) ==>
      r.effects == (if DuplicatesOnCreate(s, h, now) != [] then [CloseTabs(Ids(DuplicatesOnCreate(s, h, now)))]
                    else if s.config.countdownEnabled && !HasTabsLeft(|s.tabs| + 1, s.config)
                    then [StartCountdown(s.config.countdown * 60)]
                    else [])
                   + Publish(r.state)
    ensures !Rejects(s) ==>
      ClosedIds(r.effects) == Ids(DuplicatesOnCreate(s, h, now)) && !Emits(r.effects, Stop)
    ensures !Rejects(s) && DuplicatesOnCreate(s, h, now) != [] ==> !Emits(r.effects, Start)
    ensures Emits(r.effects, Start) <==>
      !Rejects(s) && DuplicatesOnCreate(s, h, now) == []
      && s.config.countdownEnabled && !HasTabsLeft(|s.tabs| + 1, s.config)
    ensures Emits(r.effects, Start) ==> r.effects[0] == StartCountdown(s.config.countdown * 60)
    ensures !Rejects(s) ==> EndsWith(r.effects, Publish(r.state))
  {
    if Rejects(s) then
      var e := [CloseTabs([h.id])];
      assert !IsKind(e[0], Start);
      Step(s.(tabs := s.tabs + [FreshTab(h, now)], bypassSync := true), e)
    else KeptCreated(s, h, now)
  }

  /** The tab-created listener below the ceiling: close the older duplicates, or else start
      the countdown when the new tab takes the last slot; then publish. */
  function KeptCreated(s: State, h: HostTab, now: Instant): (r: Step)
    requires !Rejects(s)
    ensures r.state == s.(tabs := s.tabs + [FreshTab(h, now)])
    ensures r.effects == (if DuplicatesOnCreate(s, h, now) != [] then [CloseTabs(Ids(DuplicatesOnCreate(s, h, now)))]
                          else if s.config.countdownEnabled && !HasTabsLeft(|s.tabs| + 1, s.config)
                          then [StartCountdown(s.config.countdown * 60)]
                          else [])
                         + Publish(r.state)
    ensures ClosedIds(r.effects) == Ids(DuplicatesOnCreate(s, h, now)) && !Emits(r.effects, Stop)
    ensures DuplicatesOnCreate(s, h, now) != [] ==> !Emits(r.effects, Start)
    ensures Emits(r.effects, Start) <==>
      DuplicatesOnCreate(s, h, now) == [] && s.config.countdownEnabled && !HasTabsLeft(|s.tabs| + 1, s.config)
    ensures Emits(r.effects, Start) ==> r.effects[0] == StartCountdown(s.config.countdown * 60)
    ensures EndsWith(r.effects, Publish(r.state))
  {
    var t := FreshTab(h, now);
    var s' := s.(tabs := s.tabs + [t]);
    var dups := DuplicatesOnCreate(s, h, now);
    if dups != [] then
      CreatedEffects(s', [CloseTabs(Ids(dups))], Ids(dups))
    else if s.config.countdownEnabled && !HasTabsLeft(|s'.tabs|, s.config) then
      assert IsKind(StartFor(s.config), Start);
      CreatedEffects(s', [StartFor(s.config)], [])
    else
      assert Ids(dups) == [];
      CreatedEffects(s', [], [])
  }

  /** A created tab that is kept: `head` (a close or a start request, or nothing), then
      the publish tail. */
  function CreatedEffects(s: State, head: seq<Effect>, closed: seq<int>): (r: Step)
    requires |head| <= 1 && ClosedIds(head) == closed
    requires head != [] && head[0].CloseTabs? ==> closed == head[0].ids
    requires !Emits(head, Stop)
    ensures r.state == s
    ensures r.effects == head + Publish(s)
    ensures ClosedIds(r.effects) == closed
    ensures Emits(r.effects, Start) <==> Emits(head, Start)
    ensures !Emits(r.effects, Stop)
    ensures head != [] ==> |r.effects| > 0 && r.effects[0] == head[0]
    ensures EndsWith(r.effects, Publish(s))
  {
    var e := head + Publish(s);
    ClosedIdsAppend(head, Publish(s));
    EmitsAppend(head, Publish(s), Start);
    EmitsAppend(head, Publish(s), Stop);
    EndsWithAppend(head, Publish(s));
    Step(s, e)
  }

  /** Every tab a kept new tab closes is an older tracked tab it duplicates. */
  lemma CreatedClosesOnlyOlderDuplicates(s: State, h: HostTab, now: Instant)
    requires !Rejects(s)
    ensures var closed := ClosedIds(OnCreated(s, h, now).effects);
      forall k :: 0 <= k < |closed| ==>
        exists i :: 0 <= i < |s.tabs| && s.tabs[i].id == closed[k] && DuplicatesTab(s.tabs[i], FreshTab(h, now))
  {
    var dups := DuplicatesOnCreate(s, h, now);
    if s.config.closeDuplicates {
      DuplicatesAreOlder(s.tabs, FreshTab(h, now), dups);
    }
  }

  /** The duplicates of a new tab are all older tabs. */
  lemma DuplicatesAreOlder(tabs: seq<Tab>, t: Tab, dups: seq<Tab>)
    requires dups == DuplicatesOf(tabs + [t], t)
    ensures forall k :: 0 <= k < |dups| ==>
      exists i :: 0 <= i < |tabs| && tabs[i].id == dups[k].id && DuplicatesTab(tabs[i], t)
  {
    forall k | 0 <= k < |dups|
      ensures exists i :: 0 <= i < |tabs| && tabs[i].id == dups[k].id && DuplicatesTab(tabs[i], t)
    {
      assert dups[k] in tabs + [t];
      assert dups[k] != t;
      var i :| 0 <= i < |tabs| && tabs[i] == dups[k];
    }
  }

  // ---------------------------------------------------------------- update

  /** A url update that starts a fresh lifecycle: both urls present and different. */
  predicate UrlChanges(t: Tab, u: TabUpdate) {
    u.url.Some? && u.url.value != "" && t.url != "" && u.url.value != t.url
  }

  function ApplyUpdate(t: Tab, u: TabUpdate, now: Instant): Tab {
    var base := if UrlChanges(t, u) then t.(createdAt := now, activeAt := Some(now), timeActive := 0) else t;
    base.(url := u.url.GetOr(base.url), title := u.title.GetOr(base.title), props := base.props + u.props)
  }

  /** The tab-updated listener. */
  function OnUpdated(s: State, id: int, u: TabUpdate, now: Instant): (r: Step)
    ensures r.state.config == s.config && r.state.bypassSync == s.bypassSync
    ensures |r.state.tabs| == |s.tabs| && Ids(r.state.tabs) == Ids(s.tabs)
    ensures forall i :: 0 <= i < |s.tabs| && s.tabs[i].id != id ==> r.state.tabs[i] == s.tabs[i]
    ensures forall i :: 0 <= i < |s.tabs| && s.tabs[i].id == id ==>
      var t, t' := s.tabs[i], r.state.tabs[i];
      && t'.windowId == t.windowId && t'.index == t.index
      && t'.url == u.url.GetOr(t.url) && t'.title == u.title.GetOr(t.title)
      && (UrlChanges(t, u) ==> t'.createdAt == now && t'.activeAt == Some(now) && t'.timeActive == 0)
      && (!UrlChanges(t, u) ==>
            t'.createdAt == t.createdAt && t'.activeAt == t.activeAt && t'.timeActive == t.timeActive)
    ensures r.effects == [SyncTabsOf(r.state)]
  {
    var tabs := seq(|s.tabs|, i requires 0 <= i < |s.tabs| =>
      if s.tabs[i].id == id then ApplyUpdate(s.tabs[i], u, now) else s.tabs[i]);
    var s' := s.(tabs := tabs);
    Step(s', [SyncTabsOf(s')])
  }

  // ---------------------------------------------------------------- removal

  /** The index repair of a single removal: later tabs of the window move down by one.
      `pos` is the removed tab's position in the whole list, not its index in its window. */
  function Shift(t: Tab, windowId: int, pos: int): Tab {
    if t.windowId == windowId && t.index > pos then t.(index := t.index - 1) else t
  }

  /** `tabs.splice(p, 1)` for `p` in [-1, |tabs|): -1 counts from the end, so a missing
      tab (`findIndex` gives -1) drops the last element. */
  function SpliceOne(tabs: seq<Tab>, p: int): (r: seq<Tab>)
    requires -1 <= p < |tabs|
    ensures tabs == [] ==> r == []
    ensures tabs != [] ==> |r| == |tabs| - 1
    ensures tabs != [] ==>
      var q := if p < 0 then |tabs| - 1 else p;
      forall i :: 0 <= i < |r| ==> r[i] == tabs[if i < q then i else i + 1]
  {
    if tabs == [] then []
    else
      var q := if p < 0 then |tabs| - 1 else p;
      tabs[..q] + tabs[q + 1..]
  }

  /** Removal of one tab when its window stays open. */
  function RemoveTab(tabs: seq<Tab>, id: int, windowId: int): (r: seq<Tab>)
    ensures tabs == [] ==> r == []
    ensures tabs != [] ==> |r| == |tabs| - 1
    ensures tabs != [] ==>
      var p := FindIndex(tabs, id);
      var q := if p < 0 then |tabs| - 1 else p;
      forall i :: 0 <= i < |r| ==> r[i] == Shift(tabs[if i < q then i else i + 1], windowId, p)
  {
    var p := FindIndex(tabs, id);
    var rest := SpliceOne(tabs, p);
    seq(|rest|, i requires 0 <= i < |rest| => Shift(rest[i], windowId, p))
  }

  /** Removal when the whole window closes: its tabs (and the removed id) are dropped. */
  function CloseWindow(tabs: seq<Tab>, id: int, windowId: int): (r: seq<Tab>)
    ensures Subsequence(r, tabs)
    ensures forall i :: 0 <= i < |r| ==> r[i].windowId != windowId && r[i].id != id
    ensures forall i :: 0 <= i < |tabs| && tabs[i].windowId != windowId && tabs[i].id != id ==> tabs[i] in r
  {
    Filter(tabs, (t: Tab) => t.windowId != windowId && t.id != id)
  }

  /** The tab-removed listener. */
  function OnRemoved(s: State, id: int, isWindowClosing: bool, windowId: int): (r: Step)
    ensures r.state.config == s.config && !r.state.bypassSync
    ensures isWindowClosing ==> r.state.tabs == CloseWindow(s.tabs, id, windowId)
    ensures !isWindowClosing ==> r.state.tabs == RemoveTab(s.tabs, id, windowId)
    ensures ClosedIds(r.effects) == [] && !Emits(r.effects, Start)
    ensures Emits(r.effects, Stop) <==> s.config.countdownEnabled && HasTabsLeft(|r.state.tabs|, s.config)
    ensures Emits(r.effects, Sync) <==> !s.bypassSync
    ensures Emits(r.effects, Badge) <==> !s.bypassSync
    ensures !s.bypassSync ==> EndsWith(r.effects, Publish(r.state))
    ensures r.effects == (if Emits(r.effects, Stop) then [StopCountdown] else [])
                         + (if s.bypassSync then [] else Publish(r.state))
  {
    var tabs := if isWindowClosing then CloseWindow(s.tabs, id, windowId) else RemoveTab(s.tabs, id, windowId);
    var s' := s.(tabs := tabs, bypassSync := false);
    Step(s', RemovalEffects(s', s.config.countdownEnabled && HasTabsLeft(|tabs|, s.config), !s.bypassSync))
  }

  /** The requests of a removal: a stop when `stop`, then a publish of `s` when `publish`. */
  function RemovalEffects(s: State, stop: bool, publish: bool): (e: seq<Effect>)
    ensures ClosedIds(e) == [] && !Emits(e, Start)
    ensures Emits(e, Stop) <==> stop
    ensures Emits(e, Sync) <==> publish
    ensures Emits(e, Badge) <==> publish
    ensures publish ==> EndsWith(e, Publish(s))
    ensures e == (if stop then [StopCountdown] else []) + (if publish then Publish(s) else [])
  {
    var head: seq<Effect> := if stop then [StopCountdown] else [];
    var tail: seq<Effect> := if publish then Publish(s) else [];
    assert Emits(head, Stop) <==> stop by {
      if stop { assert IsKind(head[0], Stop); }
    }
    assert !Emits(head, Close) && !Emits(head, Start) && !Emits(head, Sync) && !Emits(head, Badge);
    EmitsAppend(head, tail, Start);
    EmitsAppend(head, tail, Stop);
    EmitsAppend(head, tail, Sync);
    EmitsAppend(head, tail, Badge);
    EmitsAppend(head, tail, Close);
    ClosedIdsWithoutClose(head + tail);
    EndsWithAppend(head, tail);
    head + tail
  }

  // ---------------------------------------------------------------- move

  function MoveTab(t: Tab, id: int, windowId: int, fromIndex: int, toIndex: int): Tab {
    if t.id == id then t.(index := toIndex)
    else if t.windowId == windowId && t.index == toIndex then t.(index := fromIndex)
    else t
  }

  /** The tab-moved listener. */
  function OnMoved(s: State, id: int, windowId: int, fromIndex: int, toIndex: int): (r: Step)
    ensures r.state.config == s.config && r.state.bypassSync == s.bypassSync
    ensures |r.state.tabs| == |s.tabs|
    ensures forall i :: 0 <= i < |s.tabs| ==> r.state.tabs[i] == s.tabs[i].(index := r.state.tabs[i].index)
    ensures forall i :: 0 <= i < |s.tabs| && s.tabs[i].id == id ==> r.state.tabs[i].index == toIndex
    ensures forall i :: 0 <= i < |s.tabs| && s.tabs[i].id != id ==>
      r.state.tabs[i].index ==
        if s.tabs[i].windowId == windowId && s.tabs[i].index == toIndex then fromIndex else s.tabs[i].index
    ensures r.effects == [SyncTabsOf(r.state)]
  {
    var tabs := seq(|s.tabs|, i requires 0 <= i < |s.tabs| => MoveTab(s.tabs[i], id, windowId, fromIndex, toIndex));
    var s' := s.(tabs := tabs);
    Step(s', [SyncTabsOf(s')])
  }

  // ---------------------------------------------------------------- activation and focus

  /** The tab-activated listener. */
  function OnActivated(s: State, id: int, now: Instant): (r: Step)
    ensures r.state.config == s.config && r.state.bypassSync == s.bypassSync
    ensures |r.state.tabs| == |s.tabs| && Ids(r.state.tabs) == Ids(s.tabs)
    ensures forall i :: 0 <= i < |s.tabs| ==> (r.state.tabs[i].activeAt.Some? <==> s.tabs[i].id == id)
    ensures r.state.tabs == Activate(s.tabs, id, now)
    ensures r.effects == [SyncTabsOf(r.state)]
  {
    var s' := s.(tabs := Activate(s.tabs, id, now));
    Step(s', [SyncTabsOf(s')])
  }

  /** The window-focus listener. `active` is the host's answer to the active-tab query the
      listener awaits when a window gains focus. */
  function OnFocusChanged(s: State, windowId: int, active: Option<HostTab>, now: Instant): (r: Step)
    ensures r.state.config == s.config && r.state.bypassSync == s.bypassSync
    ensures |r.state.tabs| == |s.tabs| && Ids(r.state.tabs) == Ids(s.tabs)
    ensures windowId == WindowIdNone ==>
      && r.state.tabs == Deactivate(s.tabs, now)
      && (forall i :: 0 <= i < |s.tabs| ==> r.state.tabs[i].activeAt.None?)
      && (forall i :: 0 <= i < |s.tabs| ==>
            r.state.tabs[i].timeActive == s.tabs[i].timeActive + Pending(s.tabs[i], now))
      && r.effects == [StopCountdown] + UpdateBadge(r.state) + [SyncTabsOf(r.state)]
    ensures windowId != WindowIdNone && active.Some? ==>
      && r.state.tabs == Activate(s.tabs, active.value.id, now)
      && forall i :: 0 <= i < |s.tabs| ==> (r.state.tabs[i].activeAt.Some? <==> s.tabs[i].id == active.value.id)
    ensures windowId != WindowIdNone && active.None? ==> r.state.tabs == s.tabs
    ensures windowId != WindowIdNone ==>
      && !Emits(r.effects, Stop) && ClosedIds(r.effects) == []
      && (Emits(r.effects, Start) <==> s.config.countdownEnabled && !HasTabsLeft(|s.tabs|, s.config))
      && r.effects == (if Emits(r.effects, Start)
                       then [StartCountdown(s.config.countdown * 60)] + UpdateBadge(r.state) else [])
                      + [SyncTabsOf(r.state)]
  {
    if windowId == WindowIdNone then FocusLost(s, now) else FocusGained(s, active, now)
  }

  /** Focus loss: flush every stamp, stop the countdown, repaint, sync. */
  function FocusLost(s: State, now: Instant): Step {
    var s' := s.(tabs := Deactivate(s.tabs, now));
    Step(s', [StopCountdown] + UpdateBadge(s') + [SyncTabsOf(s')])
  }

  /** A window gains focus: stamp the active tab, start the countdown when no slot is left,
      sync. */
  function FocusGained(s: State, active: Option<HostTab>, now: Instant): (r: Step)
    ensures r.state == if active.Some? then s.(tabs := Activate(s.tabs, active.value.id, now)) else s
    ensures !Emits(r.effects, Stop)
    ensures Emits(r.effects, Start) <==> s.config.countdownEnabled && !HasTabsLeft(|s.tabs|, s.config)
    ensures ClosedIds(r.effects) == []
    ensures r.effects == (if Emits(r.effects, Start)
                          then [StartCountdown(s.config.countdown * 60)] + UpdateBadge(r.state) else [])
                         + [SyncTabsOf(r.state)]
  {
    var s' := if active.Some? then s.(tabs := Activate(s.tabs, active.value.id, now)) else s;
    Step(s', GainedEffects(s', s.config.countdownEnabled && !HasTabsLeft(|s'.tabs|, s.config)))
  }

  /** The requests after a window gains focus: a start and a repaint when `start`, then a sync. */
  function GainedEffects(s: State, start: bool): (e: seq<Effect>)
    ensures !Emits(e, Stop)
    ensures Emits(e, Start) <==> start
    ensures ClosedIds(e) == []
    ensures e == (if start then [StartCountdown(s.config.countdown * 60)] + UpdateBadge(s) else [])
                 + [SyncTabsOf(s)]
  {
    var head: seq<Effect> := if start then [StartFor(s.config)] + UpdateBadge(s) else [];
    var tail := [SyncTabsOf(s)];
    assert Emits(head, Start) <==> start by {
      if start { assert IsKind(head[0], Start); }
    }
    assert !Emits(head, Stop) && !Emits(tail, Start) && !Emits(tail, Stop);
    assert !Emits(head, Close) && !Emits(tail, Close);
    EmitsAppend(head, tail, Start);
    EmitsAppend(head, tail, Stop);
    EmitsAppend(head, tail, Close);
    ClosedIdsWithoutClose(head + tail);
    head + tail
  }

  // ---------------------------------------------------------------- storage changes

  /** One changed storage key with its new value. */
  datatype Change =
    | MaxTabsChanged(maxTabs: int)
    | MaxTabsEnabledChanged(maxTabsEnabled: bool)
    | CountdownChanged(countdown: int)
    | CountdownEnabledChanged(countdownEnabled: bool)
    | CloseDuplicatesChanged(closeDuplicates: bool)
    | BadgeBaseColorChanged(badgeBaseColor: string)
    | BadgeCountdownColorChanged(badgeCountdownColor: string)
    | BadgeCountdownEnabledChanged(badgeCountdownEnabled: bool)
    | OtherKeyChanged(key: string)

  /** `this.config[key] = newValue`: the changed key's field takes the new value. A key the
      config does not hold leaves it as it is. */
  function WriteKey(c: Config, ch: Change): Config {
    match ch
    case MaxTabsChanged(n) => c.(maxTabs := n)
    case MaxTabsEnabledChanged(b) => c.(maxTabsEnabled := b)
    case CountdownChanged(m) => c.(countdown := m)
    case CountdownEnabledChanged(b) => c.(countdownEnabled := b)
    case CloseDuplicatesChanged(b) => c.(closeDuplicates := b)
    case BadgeBaseColorChanged(color) => c.(badgeBaseColor := color)
    case BadgeCountdownColorChanged(color) => c.(badgeCountdownColor := color)
    case BadgeCountdownEnabledChanged(b) => c.(badgeCountdownEnabled := b)
    case OtherKeyChanged(_) => c
  }

  /** The config after the keys are written in order. */
  function WriteKeys(c: Config, changes: seq<Change>): Config
    decreases |changes|
  {
    if changes == [] then c else WriteKeys(WriteKey(c, changes[0]), changes[1..])
  }

  /** `closeDuplicateTabs()`: one close request for every repeat, none when there is none. */
  function CloseDuplicateTabs(tabs: seq<Tab>): (effects: seq<Effect>)
    ensures effects == if UrlsDistinct(tabs) then [] else [CloseTabs(Ids(SplitDuplicates(tabs).1))]
    ensures effects == [] <==> UrlsDistinct(tabs)
    ensures ClosedIds(effects) == Ids(SplitDuplicates(tabs).1)
    ensures !Emits(effects, Start) && !Emits(effects, Stop)
  {
    var dups := SplitDuplicates(tabs).1;
    if dups != [] then SingleClose(Ids(dups)) else []
  }

  /** One close request for `ids`. */
  function SingleClose(ids: seq<int>): (e: seq<Effect>)
    ensures e == [CloseTabs(ids)] && ClosedIds(e) == ids
    ensures !Emits(e, Start) && !Emits(e, Stop)
  {
    var e := [CloseTabs(ids)];
    assert e[1..] == [];
    e
  }

  /** Reaction to a new `maxTabs`: start another interval or stop the current one, then
      repaint the badge. */
  function OnMaxTabsChanged(s: State, n: int): (r: Step)
    ensures r.state == s.(config := s.config.(maxTabs := n))
    ensures r.effects == (if s.config.countdownEnabled && !HasTabsLeft(|s.tabs|, r.state.config)
                          then [StartCountdown(s.config.countdown * 60)] else [StopCountdown])
                         + UpdateBadge(r.state)
    ensures Emits(r.effects, Start) <==> s.config.countdownEnabled && !HasTabsLeft(|s.tabs|, r.state.config)
    ensures Emits(r.effects, Stop) <==> !Emits(r.effects, Start)
    ensures ClosedIds(r.effects) == []
    ensures EndsWith(r.effects, UpdateBadge(r.state))
  {
    var s' := s.(config := s.config.(maxTabs := n));
    var e: seq<Effect> := if s.config.countdownEnabled && !HasTabsLeft(|s.tabs|, s'.config)
      then [StartFor(s'.config)] else [StopCountdown];
    var badge := UpdateBadge(s');
    assert IsKind(e[0], Start) || IsKind(e[0], Stop);
    assert !Emits(badge, Start) && !Emits(badge, Stop) && !Emits(badge, Close);
    EmitsAppend(e, badge, Start);
    EmitsAppend(e, badge, Stop);
    EmitsAppend(e, badge, Close);
    ClosedIdsWithoutClose(e + badge);
    EndsWithAppend(e, badge);
    Step(s', e + badge)
  }

  /** Reaction to a new `maxTabsEnabled`: only the badge is repainted. */
  function OnMaxTabsEnabledChanged(s: State, b: bool): (r: Step)
    ensures r.state == s.(config := s.config.(maxTabsEnabled := b))
    ensures r.effects == UpdateBadge(r.state)
    ensures ClosedIds(r.effects) == []
  {
    var s' := s.(config := s.config.(maxTabsEnabled := b));
    ClosedIdsWithoutClose(UpdateBadge(s'));
    Step(s', UpdateBadge(s'))
  }

  /** Reaction to a new `countdown`: at capacity with the countdown on, restart it under the
      new length and show the new length in minutes; otherwise nothing. */
  function OnCountdownChanged(s: State, m: int): (r: Step)
    ensures r.state == s.(config := s.config.(countdown := m))
    ensures r.effects != [] <==> s.config.countdownEnabled && !HasTabsLeft(|s.tabs|, s.config)
    ensures r.effects != [] ==>
      r.effects == [StopCountdown, StartCountdown(m * 60), SetBadgeColor(s.config.badgeCountdownColor),
                    SetBadgeText(IntToString(m) + "m")]
    ensures ClosedIds(r.effects) == []
  {
    var s' := s.(config := s.config.(countdown := m));
    if s.config.countdownEnabled && !HasTabsLeft(|s.tabs|, s'.config) then
      var e := [StopCountdown, StartFor(s'.config), SetBadgeColor(s'.config.badgeCountdownColor),
                SetBadgeText(IntToString(m) + "m")];
      assert forall i :: 0 <= i < |e| ==> !IsKind(e[i], Close);
      ClosedIdsWithoutClose(e);
      Step(s', e)
    else Step(s', [])
  }

  /** Reaction to a new `countdownEnabled`: switching on at capacity starts the countdown,
      switching off stops it. */
  function OnCountdownEnabledChanged(s: State, b: bool): (r: Step)
    ensures r.state == s.(config := s.config.(countdownEnabled := b))
    ensures Emits(r.effects, Start) <==> b && !HasTabsLeft(|s.tabs|, s.config)
    ensures Emits(r.effects, Stop) <==> !b
    ensures Emits(r.effects, Start) ==> r.effects[0] == StartCountdown(s.config.countdown * 60)
    ensures r.effects == [] <==> b && HasTabsLeft(|s.tabs|, s.config)
    ensures r.effects != [] ==> |r.effects| == 3 && r.effects[1..] == UpdateBadge(r.state)
    ensures ClosedIds(r.effects) == []
  {
    var s' := s.(config := s.config.(countdownEnabled := b));
    var head: seq<Effect> :=
      if b && !HasTabsLeft(|s.tabs|, s'.config) then [StartFor(s'.config)]
      else if !b then [StopCountdown]
      else [];
    var e := if head == [] then [] else head + UpdateBadge(s');
    assert head != [] ==> IsKind(head[0], Start) || IsKind(head[0], Stop);
    assert head != [] ==> e[1..] == UpdateBadge(s');
    assert !Emits(UpdateBadge(s'), Start) && !Emits(UpdateBadge(s'), Stop) && !Emits(UpdateBadge(s'), Close);
    EmitsAppend(head, UpdateBadge(s'), Start);
    EmitsAppend(head, UpdateBadge(s'), Stop);
    EmitsAppend(head, UpdateBadge(s'), Close);
    ClosedIdsWithoutClose(e);
    Step(s', e)
  }

  /** Reaction to a new `closeDuplicates`: switching on sweeps the tabs once. */
  function OnCloseDuplicatesChanged(s: State, b: bool): (r: Step)
    ensures r.state == s.(config := s.config.(closeDuplicates := b))
    ensures b ==> r.effects == CloseDuplicateTabs(s.tabs)
    ensures !b ==> r.effects == []
  {
    Step(s.(config := s.config.(closeDuplicates := b)), if b then CloseDuplicateTabs(s.tabs) else [])
  }

  /** The storage-change listener's reaction to one key: the key is written into the
      config, then the key's own reaction runs on the written config. */
  function React(s: State, ch: Change): Step {
    match ch
    case MaxTabsChanged(n) => OnMaxTabsChanged(s, n)
    case MaxTabsEnabledChanged(b) => OnMaxTabsEnabledChanged(s, b)
    case CountdownChanged(m) => OnCountdownChanged(s, m)
    case CountdownEnabledChanged(b) => OnCountdownEnabledChanged(s, b)
    case CloseDuplicatesChanged(b) => OnCloseDuplicatesChanged(s, b)
    case _ => Step(s.(config := WriteKey(s.config, ch)), [])
  }

  /** One key's reaction, with what it does to the config and which requests it issues. */
  function ApplyChange(s: State, ch: Change): (r: Step)
    ensures r.state == s.(config := WriteKey(s.config, ch))
    ensures ch.MaxTabsChanged? ==> r.effects == OnMaxTabsChanged(s, ch.maxTabs).effects
    ensures ch.MaxTabsEnabledChanged? ==> r.effects == OnMaxTabsEnabledChanged(s, ch.maxTabsEnabled).effects
    ensures ch.CountdownChanged? ==> r.effects == OnCountdownChanged(s, ch.countdown).effects
    ensures ch.CountdownEnabledChanged? ==>
      r.effects == OnCountdownEnabledChanged(s, ch.countdownEnabled).effects
    ensures ch.CloseDuplicatesChanged? ==> r.effects == OnCloseDuplicatesChanged(s, ch.closeDuplicates).effects
    ensures (|| ch.BadgeBaseColorChanged? || ch.BadgeCountdownColorChanged?
             || ch.BadgeCountdownEnabledChanged? || ch.OtherKeyChanged?) ==> r.effects == []
    ensures !ch.CloseDuplicatesChanged? ==> ClosedIds(r.effects) == []
  {
    React(s, ch)
  }

  lemma ClosedIdsAppend(a: seq<Effect>, b: seq<Effect>)
    ensures ClosedIds(a + b) == ClosedIds(a) + ClosedIds(b)
    decreases |a|
  {
    if a == [] {
      assert a + b == b;
    } else {
      assert (a + b)[1..] == a[1..] + b;
      ClosedIdsAppend(a[1..], b);
    }
  }

  /** The keys in order, each reacting to the config as written by the ones before it. */
  function Storage(s: State, changes: seq<Change>): Step
    decreases |changes|
  {
    if changes == [] then Step(s, [])
    else
      var first := React(s, changes[0]);
      var rest := Storage(first.state, changes[1..]);
      Step(rest.state, first.effects + rest.effects)
  }

  /** What the keys do together: every key is written, the tabs and the bypass stay, and
      only switching duplicate closing on can close tabs. */
  lemma {:induction false} StorageFacts(s: State, changes: seq<Change>)
    ensures Storage(s, changes).state == s.(config := WriteKeys(s.config, changes))
    ensures (forall k :: 0 <= k < |changes| ==> changes[k] != CloseDuplicatesChanged(true)) ==>
      ClosedIds(Storage(s, changes).effects) == []
    decreases |changes|
  {
    if changes != [] {
      var first := ApplyChange(s, changes[0]);
      var rest := Storage(first.state, changes[1..]);
      StorageFacts(first.state, changes[1..]);
      ClosedIdsAppend(first.effects, rest.effects);
      if forall k :: 0 <= k < |changes| ==> changes[k] != CloseDuplicatesChanged(true) {
        assert changes[0] != CloseDuplicatesChanged(true);
        assert forall k :: 0 <= k < |changes[1..]| ==> changes[1..][k] == changes[k + 1];
      }
    }
  }

  /** The storage-change listener: the changed keys in order, each applied to the config
      as updated by the ones before it. */
  function OnStorageChanged(s: State, changes: seq<Change>): (r: Step)
    ensures r.state == s.(config := WriteKeys(s.config, changes))
    ensures changes == [] ==> r.effects == []
    ensures changes != [] ==>
      var first := ApplyChange(s, changes[0]);
      r.effects == first.effects + OnStorageChanged(first.state, changes[1..]).effects
    ensures (forall k :: 0 <= k < |changes| ==> changes[k] != CloseDuplicatesChanged(true)) ==>
      ClosedIds(r.effects) == []
    decreases |changes|
  {
    StorageFacts(s, changes);
    Storage(s, changes)
  }

  /** The last value written to `maxTabs` in a batch is the one the config keeps. */
  lemma LastMaxTabsWriteWins(s: State, changes: seq<Change>, n: int)
    ensures OnStorageChanged(s, changes + [MaxTabsChanged(n)]).state.config.maxTabs == n
  {
    StorageFacts(s, changes + [MaxTabsChanged(n)]);
    WriteKeysLast(s.config, changes, MaxTabsChanged(n));
  }

  /** Writing a batch and then one more key is writing that key last. */
  lemma {:induction false} WriteKeysLast(c: Config, changes: seq<Change>, ch: Change)
    ensures WriteKeys(c, changes + [ch]) == WriteKey(WriteKeys(c, changes), ch)
    decreases |changes|
  {
    if changes == [] {
      assert changes + [ch] == [ch];
      assert [ch][1..] == [];
    } else {
      assert (changes + [ch])[0] == changes[0] && (changes + [ch])[1..] == changes[1..] + [ch];
      WriteKeysLast(WriteKey(c, changes[0]), changes[1..], ch);
    }
  }

  // ---------------------------------------------------------------- startup

  /** The keys read from storage at startup; `None` where a key is unset. */
  datatype StoredConfig = StoredConfig(
    tabs: Option<seq<StoredTab>>,
    maxTabs: Option<int>,
    maxTabsEnabled: Option<bool>,
    countdown: Option<int>,
    countdownEnabled: Option<bool>,
    closeDuplicates: Option<bool>)

  /** `!config.maxTabs`: unset or zero. */
  predicate MaxTabsUnset(st: StoredConfig) {
    st.maxTabs.None? || st.maxTabs.value == 0
  }

  /** The startup correction of the stored keys: an unset ceiling becomes the tab count;
      starting over the ceiling with the countdown on turns both features off. */
  function AdjustStored(st: StoredConfig, count: nat): (r: StoredConfig)
    ensures r.tabs == st.tabs && r.countdown == st.countdown && r.closeDuplicates == st.closeDuplicates
    ensures MaxTabsUnset(st) ==> r.maxTabs == Some(count)
    ensures !MaxTabsUnset(st) ==> r.maxTabs == st.maxTabs
    ensures !MaxTabsUnset(st) && st.countdownEnabled == Some(true) && count > st.maxTabs.value ==>
      r.maxTabsEnabled == Some(false) && r.countdownEnabled == Some(false)
    ensures MaxTabsUnset(st) || st.countdownEnabled != Some(true) || count <= st.maxTabs.value ==>
      r.maxTabsEnabled == st.maxTabsEnabled && r.countdownEnabled == st.countdownEnabled
  {
    if MaxTabsUnset(st) then st.(maxTabs := Some(count))
    else if st.countdownEnabled == Some(true) && count > st.maxTabs.value then
      st.(maxTabsEnabled := Some(false), countdownEnabled := Some(false))
    else st
  }

  /** `{ ...this.config, ...config }`: stored keys override the defaults. */
  function MergeConfig(d: Config, st: StoredConfig): (c: Config)
    ensures c.maxTabs == if st.maxTabs.Some? then st.maxTabs.value else d.maxTabs
    ensures c.maxTabsEnabled == if st.maxTabsEnabled.Some? then st.maxTabsEnabled.value else d.maxTabsEnabled
    ensures c.countdown == if st.countdown.Some? then st.countdown.value else d.countdown
    ensures c.countdownEnabled ==
      if st.countdownEnabled.Some? then st.countdownEnabled.value else d.countdownEnabled
    ensures c.closeDuplicates ==
      if st.closeDuplicates.Some? then st.closeDuplicates.value else d.closeDuplicates
    ensures c.badgeBaseColor == d.badgeBaseColor && c.badgeCountdownColor == d.badgeCountdownColor
    ensures c.badgeCountdownEnabled == d.badgeCountdownEnabled
  {
    d.(maxTabs := st.maxTabs.GetOr(d.maxTabs),
       maxTabsEnabled := st.maxTabsEnabled.GetOr(d.maxTabsEnabled),
       countdown := st.countdown.GetOr(d.countdown),
       countdownEnabled := st.countdownEnabled.GetOr(d.countdownEnabled),
       closeDuplicates := st.closeDuplicates.GetOr(d.closeDuplicates))
  }

  /** The startup correction is idempotent. */
  lemma AdjustStoredIdempotent(st: StoredConfig, count: nat)
    ensures AdjustStored(AdjustStored(st, count), count) == AdjustStored(st, count)
  {
  }

  /** After the correction, a stored countdown that is on never faces more tabs than a set
      ceiling. */
  lemma AdjustedCountdownFitsCeiling(st: StoredConfig, count: nat)
    ensures var r := AdjustStored(st, count);
      r.countdownEnabled == Some(true) && !MaxTabsUnset(r) ==> count <= r.maxTabs.value
  {
  }

  /** The keys `init` writes, read back at the next start, override the defaults with
      exactly the written values. */
  lemma MergeReadsBackWrite(d: Config, c: Config, tabs: seq<StoredTab>)
    ensures MergeConfig(d, StoredConfig(Some(tabs), Some(c.maxTabs), Some(c.maxTabsEnabled), Some(c.countdown),
                                        Some(c.countdownEnabled), Some(c.closeDuplicates)))
         == c.(badgeBaseColor := d.badgeBaseColor, badgeCountdownColor := d.badgeCountdownColor,
               badgeCountdownEnabled := d.badgeCountdownEnabled)
  {
  }

  predicate IsActiveTab(active: Option<HostTab>, id: int, windowId: int) {
    active.Some? && active.value.id == id && active.value.windowId == windowId
  }

  /** One host tab at startup: its stored record when there is one, with any left-over
      activation flushed, else a fresh record; stamped when it is the active tab. */
  function StartupTab(h: HostTab, stored: Option<StoredTab>, active: Option<HostTab>, now: Instant): (t: Tab)
    requires stored.Some? ==> stored.value.id == h.id
    ensures t.id == h.id
    ensures t.activeAt == if IsActiveTab(active, t.id, t.windowId) then Some(now) else None
    ensures stored.None? ==>
      && t.windowId == h.windowId && t.index == h.index && t.url == h.url && t.title == h.title
      && t.createdAt == now && t.timeActive == 0 && t.props == h.props
    ensures stored.Some? ==>
      var st := stored.value;
      && t.windowId == st.windowId && t.index == st.index && t.url == st.url && t.title == st.title
      && t.createdAt == st.createdAt && t.props == map[]
      && t.timeActive == st.timeActive + (if st.activeAt.Some? then now - st.activeAt.value else 0)
  {
    match stored
    case Some(st) =>
      var flushed := Flush(Restore(st), now);
      if IsActiveTab(active, st.id, st.windowId) then flushed.(activeAt := Some(now)) else flushed
    case None =>
      Tab(h.id, h.windowId, h.index, h.url, h.title, now,
          if IsActiveTab(active, h.id, h.windowId) then Some(now) else None, 0, h.props)
  }

  /** `init()`: merge the host's tabs with the stored snapshot and the stored keys with the
      defaults, publish everything, paint the badge, and start the countdown when the
      stored countdown is on and the tab count sits exactly at the ceiling. */
  function Init(defaults: Config, host: seq<HostTab>, active: Option<HostTab>, stored: StoredConfig,
                now: Instant): (r: Step)
    ensures var tabs := r.state.tabs;
      && |tabs| == |host|
      && (forall i :: 0 <= i < |host| ==> tabs[i].id == host[i].id)
      && (forall i :: 0 <= i < |host| ==>
            tabs[i].activeAt == if IsActiveTab(active, tabs[i].id, tabs[i].windowId) then Some(now) else None)
      && (forall i :: 0 <= i < |host| && FindStored(stored.tabs, host[i].id).None? ==>
            && tabs[i].windowId == host[i].windowId && tabs[i].index == host[i].index
            && tabs[i].url == host[i].url && tabs[i].title == host[i].title
            && tabs[i].createdAt == now && tabs[i].timeActive == 0 && tabs[i].props == host[i].props)
      && (forall i :: 0 <= i < |host| && FindStored(stored.tabs, host[i].id).Some? ==>
            var st := FindStored(stored.tabs, host[i].id).value;
            && tabs[i].windowId == st.windowId && tabs[i].index == st.index
            && tabs[i].url == st.url && tabs[i].title == st.title && tabs[i].createdAt == st.createdAt
            && tabs[i].timeActive == st.timeActive + (if st.activeAt.Some? then now - st.activeAt.value else 0)
            && tabs[i].props == map[])
    ensures !r.state.bypassSync
    ensures r.state.config == MergeConfig(defaults, AdjustStored(stored, |host|))
    ensures MaxTabsUnset(stored) ==> r.state.config.maxTabs == |host|
    ensures !MaxTabsUnset(stored) && stored.countdownEnabled == Some(true) && |host| > stored.maxTabs.value ==>
      !r.state.config.maxTabsEnabled && !r.state.config.countdownEnabled
    ensures r.state.config.badgeBaseColor == defaults.badgeBaseColor
    ensures r.state.config.badgeCountdownColor == defaults.badgeCountdownColor
    ensures r.state.config.badgeCountdownEnabled == defaults.badgeCountdownEnabled
    ensures Emits(r.effects, Start) <==>
      stored.countdownEnabled == Some(true) && (MaxTabsUnset(stored) || |host| == stored.maxTabs.value)
    ensures Emits(r.effects, Start) ==> |r.state.tabs| == r.state.config.maxTabs
    ensures |r.effects| > 0
    ensures r.effects == [r.effects[0]] + UpdateBadge(r.state) + UpdateBadge(r.state)
                         + (if Emits(r.effects, Start)
                            then [StartCountdown(r.state.config.countdown * 60)] + UpdateBadge(r.state) else [])
    ensures r.effects[0] == SyncAll(Snapshot(r.state.tabs), r.state.config.maxTabs, r.state.config.maxTabsEnabled,
                                    r.state.config.countdown, r.state.config.countdownEnabled,
                                    r.state.config.closeDuplicates)
  {
    var adjusted := AdjustStored(stored, |host|);
    var config := MergeConfig(defaults, adjusted);
    var tabs := seq(|host|, i requires 0 <= i < |host| =>
      StartupTab(host[i], FindStored(stored.tabs, host[i].id), active, now));
    var s := State(tabs, false, config);
    var publish := [SyncAll(Snapshot(tabs), config.maxTabs, config.maxTabsEnabled, config.countdown,
                            config.countdownEnabled, config.closeDuplicates)] + UpdateBadge(s);
    var startNow := adjusted.countdownEnabled == Some(true) && |tabs| == config.maxTabs;
    assert startNow <==>
      stored.countdownEnabled == Some(true) && (MaxTabsUnset(stored) || |host| == stored.maxTabs.value);
    var start: seq<Effect> := if startNow then [StartFor(config)] + UpdateBadge(s) else [];
    var before := publish + UpdateBadge(s);
    assert !Emits(before, Start);
    assert Emits(start, Start) <==> startNow by {
      if startNow { assert IsKind(start[0], Start); }
    }
    EmitsAppend(before, start, Start);
    Step(s, before + start)
  }
}
