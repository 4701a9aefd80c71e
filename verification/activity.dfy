/**
 * Activity bookkeeping: which tab carries an activation stamp and how much
 * active time each tab has accumulated (`updateActivityOnTabChange` and the
 * focus-loss branch of the window-focus listener).
 */
module Activity {
  import opened Wrappers
  import opened Tabs

  /** Milliseconds a tab has been active since its stamp and not yet added to `timeActive`. */
  function Pending(t: Tab, now: Instant): int {
    match t.activeAt
    case None => 0
    case Some(a) => now - a
  }

  /** The same tab apart from its activity bookkeeping. */
  predicate SameIdentity(a: Tab, b: Tab) {
    a.(activeAt := None, timeActive := 0) == b.(activeAt := None, timeActive := 0)
  }

  /** Deactivating one tab: its elapsed active time is added and its stamp cleared. */
  function Flush(t: Tab, now: Instant): (r: Tab)
    ensures SameIdentity(r, t)
    ensures r.activeAt == None
    ensures r.timeActive == t.timeActive + Pending(t, now)
  {
    match t.activeAt
    case None => t
    case Some(a) => t.(timeActive := t.timeActive + (now - a), activeAt := None)
  }

  /** One tab's step of `updateActivityOnTabChange(id)`. */
  function ActivateTab(t: Tab, id: int, now: Instant): Tab {
    if t.id == id && t.activeAt.None? then t.(activeAt := Some(now))
    else if t.id != id && t.activeAt.Some? then Flush(t, now)
    else t
  }

  /** `updateActivityOnTabChange(id)`: the tabs with id `id` become (or stay) stamped,
      every other stamped tab is flushed. */
  function Activate(tabs: seq<Tab>, id: int, now: Instant): (r: seq<Tab>)
    ensures |r| == |tabs|
    ensures forall i :: 0 <= i < |r| ==> SameIdentity(r[i], tabs[i])
    ensures forall i :: 0 <= i < |r| ==> (r[i].activeAt.Some? <==> r[i].id == id)
    ensures forall i :: 0 <= i < |r| && tabs[i].id == id ==>
      && r[i].activeAt == (if tabs[i].activeAt.Some? then tabs[i].activeAt else Some(now))
      && r[i].timeActive == tabs[i].timeActive
    ensures forall i :: 0 <= i < |r| && tabs[i].id != id ==>
      r[i].timeActive == tabs[i].timeActive + Pending(tabs[i], now)
  {
    seq(|tabs|, i requires 0 <= i < |tabs| => ActivateTab(tabs[i], id, now))
  }

  /** Focus loss (window id -1): every stamped tab is flushed. */
  function Deactivate(tabs: seq<Tab>, now: Instant): (r: seq<Tab>)
    ensures |r| == |tabs|
    ensures forall i :: 0 <= i < |r| ==> SameIdentity(r[i], tabs[i])
    ensures forall i :: 0 <= i < |r| ==> r[i].activeAt.None?
    ensures forall i :: 0 <= i < |r| ==> r[i].timeActive == tabs[i].timeActive + Pending(tabs[i], now)
  {
    seq(|tabs|, i requires 0 <= i < |tabs| => Flush(tabs[i], now))
  }

  /** Number of tabs carrying an activation stamp. */
  function ActiveCount(tabs: seq<Tab>): nat
    decreases |tabs|
  {
    if tabs == [] then 0 else (if tabs[0].activeAt.Some? then 1 else 0) + ActiveCount(tabs[1..])
  }

  /** Number of tabs with id `id`. */
  function CountId(tabs: seq<Tab>, id: int): nat
    decreases |tabs|
  {
    if tabs == [] then 0 else (if tabs[0].id == id then 1 else 0) + CountId(tabs[1..], id)
  }

  /** Sum of the accumulated active time of all tabs. */
  function TotalTime(tabs: seq<Tab>): int
    decreases |tabs|
  {
    if tabs == [] then 0 else tabs[0].timeActive + TotalTime(tabs[1..])
  }

  /** Sum of the pending active time of the tabs whose id is not `id`. */
  function PendingExcept(tabs: seq<Tab>, id: int, now: Instant): int
    decreases |tabs|
  {
    if tabs == [] then 0
    else (if tabs[0].id != id then Pending(tabs[0], now) else 0) + PendingExcept(tabs[1..], id, now)
  }

  /** Sum of the pending active time of all tabs. */
  function PendingAll(tabs: seq<Tab>, now: Instant): int
    decreases |tabs|
  {
    if tabs == [] then 0 else Pending(tabs[0], now) + PendingAll(tabs[1..], now)
  }

  /** No activation stamp lies after `now`. */
  predicate StampsNotAfter(tabs: seq<Tab>, now: Instant) {
    forall i :: 0 <= i < |tabs| && tabs[i].activeAt.Some? ==> tabs[i].activeAt.value <= now
  }

  /** Activation leaves exactly as many stamped tabs as there are tabs with that id. */
  lemma {:induction false} ActivateCount(tabs: seq<Tab>, id: int, now: Instant)
    ensures ActiveCount(Activate(tabs, id, now)) == CountId(tabs, id)
    decreases |tabs|
  {
    if tabs != [] {
      var r := Activate(tabs, id, now);
      assert r[1..] == Activate(tabs[1..], id, now);
      ActivateCount(tabs[1..], id, now);
    }
  }

  /** With unique ids, an id occurs at most once, and exactly once when present. */
  lemma {:induction false} CountIdUnique(tabs: seq<Tab>, id: int)
    requires UniqueIds(tabs)
    ensures CountId(tabs, id) == (if id in Ids(tabs) then 1 else 0)
    decreases |tabs|
  {
    if tabs != [] {
      var rest := tabs[1..];
      assert UniqueIds(rest) by {
        forall i, j | 0 <= i < |rest| && 0 <= j < |rest| && rest[i].id == rest[j].id
          ensures i == j
        {
          assert tabs[i + 1].id == tabs[j + 1].id;
        }
      }
      CountIdUnique(rest, id);
      if tabs[0].id == id {
        assert id !in Ids(rest) by {
          forall k | 0 <= k < |rest| ensures rest[k].id != id {
            assert tabs[k + 1].id == rest[k].id;
          }
        }
      }
      assert id in Ids(tabs) <==> tabs[0].id == id || id in Ids(rest) by {
        assert Ids(tabs) == [tabs[0].id] + Ids(rest);
      }
    }
  }

  /** After activating a tab of a list with unique ids, exactly one tab is stamped when
      the id is present and none otherwise. */
  lemma SingleActiveAfterActivate(tabs: seq<Tab>, id: int, now: Instant)
    requires UniqueIds(tabs)
    ensures ActiveCount(Activate(tabs, id, now)) == (if id in Ids(tabs) then 1 else 0)
  {
    ActivateCount(tabs, id, now);
    CountIdUnique(tabs, id);
  }

  /** After focus loss no tab is stamped. */
  lemma {:induction false} NoneActiveAfterDeactivate(tabs: seq<Tab>, now: Instant)
    ensures ActiveCount(Deactivate(tabs, now)) == 0
    decreases |tabs|
  {
    if tabs != [] {
      var r := Deactivate(tabs, now);
      assert r[1..] == Deactivate(tabs[1..], now);
      NoneActiveAfterDeactivate(tabs[1..], now);
    }
  }

  /** Activation adds to the total exactly the pending time of the tabs it deactivates. */
  lemma {:induction false} ActivateTotalTime(tabs: seq<Tab>, id: int, now: Instant)
    ensures TotalTime(Activate(tabs, id, now)) == TotalTime(tabs) + PendingExcept(tabs, id, now)
    decreases |tabs|
  {
    if tabs != [] {
      var r := Activate(tabs, id, now);
      assert r[1..] == Activate(tabs[1..], id, now);
      ActivateTotalTime(tabs[1..], id, now);
    }
  }

  /** Focus loss adds to the total exactly the pending time of every stamped tab. */
  lemma {:induction false} DeactivateTotalTime(tabs: seq<Tab>, now: Instant)
    ensures TotalTime(Deactivate(tabs, now)) == TotalTime(tabs) + PendingAll(tabs, now)
    decreases |tabs|
  {
    if tabs != [] {
      var r := Deactivate(tabs, now);
      assert r[1..] == Deactivate(tabs[1..], now);
      DeactivateTotalTime(tabs[1..], now);
    }
  }

  lemma {:induction false} PendingNonNegative(tabs: seq<Tab>, id: int, now: Instant)
    requires StampsNotAfter(tabs, now)
    ensures PendingExcept(tabs, id, now) >= 0 && PendingAll(tabs, now) >= 0
    decreases |tabs|
  {
    if tabs != [] {
      assert StampsNotAfter(tabs[1..], now) by {
        forall i | 0 <= i < |tabs[1..]| && tabs[1..][i].activeAt.Some?
          ensures tabs[1..][i].activeAt.value <= now
        {
          assert tabs[1..][i] == tabs[i + 1];
        }
      }
      PendingNonNegative(tabs[1..], id, now);
    }
  }

  /** While the clock does not run backwards, accumulated active time never decreases. */
  lemma ActiveTimeNeverDecreases(tabs: seq<Tab>, id: int, now: Instant)
    requires StampsNotAfter(tabs, now)
    ensures TotalTime(Activate(tabs, id, now)) >= TotalTime(tabs)
    ensures TotalTime(Deactivate(tabs, now)) >= TotalTime(tabs)
  {
    ActivateTotalTime(tabs, id, now);
    DeactivateTotalTime(tabs, now);
    PendingNonNegative(tabs, id, now);
  }
}
