/**
 * The interval bookkeeping behind `startCountdown`/`stopCountdown`: every start creates a
 * new interval and remembers only its handle in `countdownInterval`; a stop clears the
 * remembered handle. `Apply` is that behaviour; `ApplyGuarded` is the single-timer
 * behaviour in which a start while an interval is running does nothing.
 */
module Scheduler {
  import opened Wrappers
  import opened Seqs
  import opened Tabs
  import opened Settings
  import opened Engine
  import opened Countdown

  /** A running interval and its host handle. */
  datatype Interval = Interval(handle: nat, timer: Timer)

  /** The live intervals, the handle held in `countdownInterval`, and the next free handle. */
  datatype Timers = Timers(live: seq<Interval>, current: Option<nat>, next: nat)

  const NoTimers: Timers := Timers([], None, 0)

  /** Every live handle was issued before `next`. */
  predicate HandlesIssued(ts: Timers) {
    forall i :: 0 <= i < |ts.live| ==> ts.live[i].handle < ts.next
  }

  /** The live intervals other than the one with handle `h`, in order. */
  function Without(live: seq<Interval>, h: nat): (r: seq<Interval>)
    ensures forall x :: x in r <==> x in live && x.handle != h
    decreases |live|
  {
    if live == [] then []
    else
      var init, last := live[..|live| - 1], live[|live| - 1];
      assert live == init + [last];
      Without(init, h) + (if last.handle != h then [last] else [])
  }

  /** Clearing a handle that no live interval has changes nothing. */
  lemma {:induction false} WithoutAbsent(live: seq<Interval>, h: nat)
    requires forall i :: 0 <= i < |live| ==> live[i].handle != h
    ensures Without(live, h) == live
    decreases |live|
  {
    if live != [] {
      WithoutAbsent(live[..|live| - 1], h);
      assert live[..|live| - 1] + [live[|live| - 1]] == live;
    }
  }

  /** Clearing the handle every live interval has leaves none. */
  lemma {:induction false} WithoutAll(live: seq<Interval>, h: nat)
    requires forall i :: 0 <= i < |live| ==> live[i].handle == h
    ensures Without(live, h) == []
    decreases |live|
  {
    if live != [] {
      WithoutAll(live[..|live| - 1], h);
    }
  }

  /** `clearInterval(this.countdownInterval)`: clears the remembered interval only. */
  function Clear(ts: Timers): (r: Timers)
    ensures r.current == ts.current && r.next == ts.next
    ensures forall x :: x in r.live <==> x in ts.live && (ts.current.None? || x.handle != ts.current.value)
  {
    match ts.current
    case None => ts
    case Some(h) => ts.(live := Without(ts.live, h))
  }

  /** A new interval, remembered as the current one. */
  function Launch(ts: Timers, t: Timer): (r: Timers)
    ensures r.live == ts.live + [Interval(ts.next, t)]
    ensures r.current == Some(ts.next) && r.next == ts.next + 1
    ensures HandlesIssued(ts) ==>
      && HandlesIssued(r)
      && forall i :: 0 <= i < |ts.live| ==> ts.live[i].handle != r.current.value
  {
    Timers(ts.live + [Interval(ts.next, t)], Some(ts.next), ts.next + 1)
  }

  /** The host's reaction to one request, as the engine's code has it: a start adds an
      interval of the requested length under a fresh handle without looking at the running
      ones, a stop clears only the remembered handle, and other requests leave the timers. */
  function Apply(ts: Timers, e: Effect): (r: Timers)
    ensures e.StartCountdown? ==>
      && r.live == ts.live + [Interval(ts.next, Timer(e.seconds, 0))]
      && r.current == Some(ts.next) && r.next == ts.next + 1
    ensures e.StopCountdown? ==>
      && r.current == ts.current && r.next == ts.next
      && forall x :: x in r.live <==> x in ts.live && (ts.current.None? || x.handle != ts.current.value)
    ensures !e.StartCountdown? && !e.StopCountdown? ==> r == ts
    ensures HandlesIssued(ts) ==> HandlesIssued(r)
  {
    match e
    case StartCountdown(_) => Launch(ts, Started(e))
    case StopCountdown => Clear(ts)
    case _ => ts
  }

  function ApplyAll(ts: Timers, effects: seq<Effect>): Timers
    decreases |effects|
  {
    if effects == [] then ts else ApplyAll(Apply(ts, effects[0]), effects[1..])
  }

  /** A stop right after a start clears only the new interval: every interval that was
      running before keeps running. */
  lemma StopAfterStartKeepsOlderIntervals(ts: Timers, seconds: int)
    requires HandlesIssued(ts)
    ensures ApplyAll(ts, [StartCountdown(seconds), StopCountdown]).live == ts.live
  {
    var effects := [StartCountdown(seconds), StopCountdown];
    var launched := Launch(ts, Timer(seconds, 0));
    assert effects[1..] == [StopCountdown];
    assert ApplyAll(ts, effects) == ApplyAll(launched, [StopCountdown]);
    assert [StopCountdown][1..] == [];
    assert ApplyAll(launched, [StopCountdown]) == Clear(launched);
    assert launched.live[..|launched.live| - 1] == ts.live;
    WithoutAbsent(ts.live, ts.next);
  }

  /** Two starts and one stop leave one interval running. */
  lemma DoubleStartLeaksAnInterval(first: int, second: int)
    ensures |ApplyAll(NoTimers, [StartCountdown(first), StartCountdown(second), StopCountdown]).live| == 1
  {
    var once := Launch(NoTimers, Timer(first, 0));
    assert ApplyAll(NoTimers, [StartCountdown(first), StartCountdown(second), StopCountdown])
        == ApplyAll(once, [StartCountdown(second), StopCountdown]);
    StopAfterStartKeepsOlderIntervals(once, second);
  }

  /** Requests that neither start nor stop an interval. */
  predicate Quiet(effects: seq<Effect>) {
    forall i :: 0 <= i < |effects| ==> !effects[i].StartCountdown? && !effects[i].StopCountdown?
  }

  /** Requests that neither start nor stop leave the timers as they are. */
  lemma {:induction false} ApplyAllQuiet(ts: Timers, effects: seq<Effect>)
    requires Quiet(effects)
    ensures ApplyAll(ts, effects) == ts
    decreases |effects|
  {
    if effects != [] {
      assert Quiet(effects[1..]) by {
        forall i | 0 <= i < |effects[1..]| ensures !effects[1..][i].StartCountdown? && !effects[1..][i].StopCountdown? {
          assert effects[1..][i] == effects[i + 1];
        }
      }
      ApplyAllQuiet(ts, effects[1..]);
    }
  }

  lemma {:induction false} ApplyAllAppend(ts: Timers, a: seq<Effect>, b: seq<Effect>)
    ensures ApplyAll(ts, a + b) == ApplyAll(ApplyAll(ts, a), b)
    decreases |a|
  {
    if a == [] {
      assert a + b == b;
    } else {
      assert (a + b)[0] == a[0] && (a + b)[1..] == a[1..] + b;
      ApplyAllAppend(Apply(ts, a[0]), a[1..], b);
    }
  }

  /** A start or stop followed by quiet requests acts as the start or stop alone. */
  lemma ApplyAllLeading(ts: Timers, e: Effect, rest: seq<Effect>)
    requires Quiet(rest)
    ensures ApplyAll(ts, [e] + rest) == Apply(ts, e)
  {
    assert ([e] + rest)[0] == e && ([e] + rest)[1..] == rest;
    ApplyAllQuiet(Apply(ts, e), rest);
  }

  /** At capacity with the countdown on, a window gaining focus starts exactly one
      interval of the configured length. */
  lemma FocusGainLaunches(ts: Timers, s: State, windowId: int, active: Option<HostTab>, now: Instant)
    requires windowId != WindowIdNone
    requires s.config.countdownEnabled && !HasTabsLeft(|s.tabs|, s.config)
    ensures var f := OnFocusChanged(s, windowId, active, now);
      && f.state.config == s.config && |f.state.tabs| == |s.tabs|
      && ApplyAll(ts, f.effects) == Launch(ts, Timer(s.config.countdown * 60, 0))
  {
    var f := OnFocusChanged(s, windowId, active, now);
    var rest := UpdateBadge(f.state) + [SyncTabsOf(f.state)];
    assert f.effects == [StartCountdown(s.config.countdown * 60)] + rest;
    ApplyAllLeading(ts, StartCountdown(s.config.countdown * 60), rest);
  }

  /** With the countdown on, a removal from a full list clears the remembered interval. */
  lemma FullRemovalClears(ts: Timers, s: State, id: int, windowId: int)
    requires s.config.countdownEnabled && s.tabs != [] && |s.tabs| == s.config.maxTabs
    ensures ApplyAll(ts, OnRemoved(s, id, false, windowId).effects) == Clear(ts)
  {
    var removed := OnRemoved(s, id, false, windowId);
    assert HasTabsLeft(|removed.state.tabs|, s.config);
    var tail: seq<Effect> := if s.bypassSync then [] else Publish(removed.state);
    assert removed.effects == [StopCountdown] + tail;
    ApplyAllLeading(ts, StopCountdown, tail);
  }

  /** Two starts from no timers and one stop leave the first interval, with the second
      one's handle remembered. */
  lemma TwoLaunchesThenClear(timer: Timer)
    ensures Clear(Launch(Launch(NoTimers, timer), timer)) == Timers([Interval(0, timer)], Some(1), 2)
  {
    var t2 := Launch(Launch(NoTimers, timer), timer);
    assert t2.live == [Interval(0, timer)] + [Interval(1, timer)];
    assert Without(t2.live, 1) == Without([Interval(0, timer)], 1);
  }

  /** The leak through the engine's own listeners: at capacity with the countdown on, two
      window-focus changes each start an interval, and the removal that frees a slot stops
      only the second. The first interval keeps running, and the remembered handle is no
      longer its own, so no later stop can clear it. */
  lemma FocusTwiceThenRemovalLeaks(s: State, w1: int, a1: Option<HostTab>, now1: Instant,
                                   w2: int, a2: Option<HostTab>, now2: Instant, id: int, w: int)
    requires s.config.countdownEnabled && s.tabs != [] && |s.tabs| == s.config.maxTabs
    requires w1 != WindowIdNone && w2 != WindowIdNone
    ensures var f1 := OnFocusChanged(s, w1, a1, now1);
      var f2 := OnFocusChanged(f1.state, w2, a2, now2);
      var removed := OnRemoved(f2.state, id, false, w);
      var ts := ApplyAll(NoTimers, f1.effects + f2.effects + removed.effects);
      && ts.live == [Interval(0, Timer(s.config.countdown * 60, 0))]
      && ts.current == Some(1)
  {
    var timer := Timer(s.config.countdown * 60, 0);
    var f1 := OnFocusChanged(s, w1, a1, now1);
    var f2 := OnFocusChanged(f1.state, w2, a2, now2);
    var removed := OnRemoved(f2.state, id, false, w);
    var t1 := Launch(NoTimers, timer);
    var t2 := Launch(t1, timer);
    FocusGainLaunches(NoTimers, s, w1, a1, now1);
    assert f1.state.config == s.config && |f1.state.tabs| == |s.tabs|;
    FocusGainLaunches(t1, f1.state, w2, a2, now2);
    assert f2.state.config == s.config && |f2.state.tabs| == |s.tabs|;
    FullRemovalClears(t2, f2.state, id, w);
    var after1 := ApplyAll(NoTimers, f1.effects);
    assert after1 == t1;
    ApplyAllAppend(NoTimers, f1.effects, f2.effects);
    var after2 := ApplyAll(NoTimers, f1.effects + f2.effects);
    assert after2 == t2;
    ApplyAllAppend(NoTimers, f1.effects + f2.effects, removed.effects);
    var after3 := ApplyAll(NoTimers, f1.effects + f2.effects + removed.effects);
    assert after3 == Clear(t2);
    TwoLaunchesThenClear(timer);
  }

  /** An interval is running under the remembered handle. */
  predicate Running(ts: Timers) {
    ts.current.Some? && exists i :: 0 <= i < |ts.live| && ts.live[i].handle == ts.current.value
  }

  /** The single-timer reaction: a start while running is ignored. */
  function ApplyGuarded(ts: Timers, e: Effect): Timers {
    match e
    case StartCountdown(_) => if Running(ts) then ts else Launch(ts, Started(e))
    case StopCountdown => Clear(ts)
    case _ => ts
  }

  function ApplyAllGuarded(ts: Timers, effects: seq<Effect>): Timers
    decreases |effects|
  {
    if effects == [] then ts else ApplyAllGuarded(ApplyGuarded(ts, effects[0]), effects[1..])
  }

  /** At most one interval runs, and it is the remembered one. */
  predicate SingleTimer(ts: Timers) {
    && HandlesIssued(ts)
    && |ts.live| <= 1
    && forall i :: 0 <= i < |ts.live| ==> ts.current == Some(ts.live[i].handle)
  }

  /** The guarded reaction keeps a single timer, and a stop leaves none running. */
  lemma GuardedKeepsSingleTimer(ts: Timers, e: Effect)
    requires SingleTimer(ts)
    ensures SingleTimer(ApplyGuarded(ts, e))
    ensures e.StopCountdown? ==> ApplyGuarded(ts, e).live == []
  {
    assert forall x :: x in ts.live ==> ts.current == Some(x.handle);
    assert ts.live != [] ==> Running(ts) by {
      if ts.live != [] {
        assert ts.live[0].handle == ts.current.value;
      }
    }
    if e.StopCountdown? && ts.current.Some? {
      WithoutAll(ts.live, ts.current.value);
    }
  }

  /** Over any run of requests the guarded reaction keeps a single timer, and after a final
      stop nothing is left running. */
  lemma {:induction false} GuardedRunKeepsSingleTimer(ts: Timers, effects: seq<Effect>)
    requires SingleTimer(ts)
    ensures SingleTimer(ApplyAllGuarded(ts, effects))
    ensures effects != [] && effects[|effects| - 1].StopCountdown? ==> ApplyAllGuarded(ts, effects).live == []
    decreases |effects|
  {
    if effects != [] {
      GuardedKeepsSingleTimer(ts, effects[0]);
      GuardedRunKeepsSingleTimer(ApplyGuarded(ts, effects[0]), effects[1..]);
      if |effects| == 1 {
        assert effects[1..] == [];
      } else {
        assert effects[1..][|effects[1..]| - 1] == effects[|effects| - 1];
      }
    }
  }
}
