/**
 * The countdown interval: what one tick of the `setInterval` callback started by
 * `startCountdown` does, and what a run of ticks does.
 */
module Countdown {
  import opened Wrappers
  import opened Decimal
  import opened Tabs
  import opened Settings
  import opened Engine

  /** The state one interval's callback closes over: its length in seconds, fixed when it
      was started, and the seconds past so far. */
  datatype Timer = Timer(total: int, secondsPast: nat)

  /** The interval a start request creates: as long as the request says, nothing past. */
  function Started(e: Effect): (t: Timer)
    requires e.StartCountdown?
    ensures t.total == e.seconds && t.secondsPast == 0
  {
    Timer(e.seconds, 0)
  }

  datatype TickResult = TickResult(timer: Timer, effects: seq<Effect>)

  /** `Math.ceil(config.countdown - secondsPast / 60)` for an integral `countdown`: the least
      whole number of minutes covering what is left of the live length. It reads the live
      config, not the length the interval was started with. */
  function MinutesRemaining(c: Config, t: Timer): (m: int)
    ensures (m - 1) * 60 < c.countdown * 60 - t.secondsPast <= m * 60
  {
    c.countdown - t.secondsPast / 60
  }

  /** The countdown badge text: seconds under one minute, else whole minutes and "m". */
  function CountdownText(c: Config, t: Timer): string {
    var remaining := t.total - t.secondsPast;
    if remaining < 60 then IntToString(remaining) else IntToString(MinutesRemaining(c, t)) + "m"
  }

  /** The countdown text reads back as the remaining seconds under one minute, and otherwise
      as the minutes remaining followed by "m". */
  lemma CountdownTextReadsBack(c: Config, t: Timer)
    ensures var text, remaining := CountdownText(c, t), t.total - t.secondsPast;
      && (remaining < 60 ==> ParseInt(text) == Some(remaining))
      && (remaining >= 60 ==>
            |text| >= 2 && text[|text| - 1] == 'm' && ParseInt(text[..|text| - 1]) == Some(MinutesRemaining(c, t)))
  {
    var remaining := t.total - t.secondsPast;
    if remaining < 60 {
      ParseIntToString(remaining);
    } else {
      var m := IntToString(MinutesRemaining(c, t));
      ParseIntToString(MinutesRemaining(c, t));
      assert (m + "m")[..|m + "m"| - 1] == m;
    }
  }

  /** The requests of one tick of the interval. `active` is the host's answer to the
      active-tab query the callback awaits at expiry. */
  function TickEffects(s: State, t: Timer, active: Option<HostTab>): seq<Effect> {
    if t.secondsPast == t.total then
      if !HasTabsLeft(|s.tabs|, s.config) then
        if active.Some? then [CloseTabs([active.value.id])] else [StopCountdown] + UpdateBadge(s)
      else []
    else if s.config.badgeCountdownEnabled then
      [SetBadgeColor(s.config.badgeCountdownColor), SetBadgeText(CountdownText(s.config, t))]
    else []
  }

  /** One tick of the interval. At expiry, when no slot is free, the active tab is closed, or
      the countdown stopped when there is no active tab; before and after expiry the badge
      shows the remaining time when that option is on. */
  function OnTick(s: State, t: Timer, active: Option<HostTab>): (r: TickResult)
    ensures r.timer == t.(secondsPast := t.secondsPast + 1)
    ensures Emits(r.effects, Close) ==>
      && t.secondsPast == t.total && !HasTabsLeft(|s.tabs|, s.config) && active.Some?
      && r.effects == [CloseTabs([active.value.id])]
    ensures t.secondsPast == t.total && !HasTabsLeft(|s.tabs|, s.config) ==>
      r.effects == if active.Some? then [CloseTabs([active.value.id])] else [StopCountdown] + UpdateBadge(s)
    ensures t.secondsPast == t.total && HasTabsLeft(|s.tabs|, s.config) ==> r.effects == []
    ensures t.secondsPast != t.total ==>
      r.effects == if s.config.badgeCountdownEnabled
        then [SetBadgeColor(s.config.badgeCountdownColor), SetBadgeText(CountdownText(s.config, t))]
        else []
  {
    var effects := TickEffects(s, t, active);
    assert Emits(effects, Close) ==> effects[0].CloseTabs? by {
      if Emits(effects, Close) {
        var i :| 0 <= i < |effects| && IsKind(effects[i], Close);
      }
    }
    TickResult(t.(secondsPast := t.secondsPast + 1), effects)
  }

  /** While the countdown length is unchanged, the minutes shown are the remaining seconds
      divided by 60 and rounded up. */
  lemma MinutesAreRoundedUp(c: Config, t: Timer)
    requires c.countdown * 60 == t.total
    ensures var m, remaining := MinutesRemaining(c, t), t.total - t.secondsPast;
      (m - 1) * 60 < remaining <= m * 60
  {
    var q, rem := t.secondsPast / 60, t.secondsPast % 60;
    assert t.secondsPast == 60 * q + rem && 0 <= rem < 60;
    assert t.total - t.secondsPast == 60 * (c.countdown - q) - rem;
  }

  /** What a tick sees: the engine's state then and the host's active tab then. */
  datatype Moment = Moment(state: State, active: Option<HostTab>)

  /** The effects of successive ticks of one interval, one entry per tick. */
  function Run(t: Timer, moments: seq<Moment>): (r: seq<seq<Effect>>)
    ensures |r| == |moments|
    decreases |moments|
  {
    if moments == [] then []
    else
      [TickEffects(moments[0].state, t, moments[0].active)]
        + Run(t.(secondsPast := t.secondsPast + 1), moments[1..])
  }

  /** Tick `k` of a run sees `k` more seconds past than the start. */
  lemma {:induction false} RunAt(t: Timer, moments: seq<Moment>, k: nat)
    requires k < |moments|
    ensures Run(t, moments)[k] ==
      TickEffects(moments[k].state, t.(secondsPast := t.secondsPast + k), moments[k].active)
    decreases k
  {
    var here := t.(secondsPast := t.secondsPast + k);
    if k > 0 {
      var next := t.(secondsPast := t.secondsPast + 1);
      RunAt(next, moments[1..], k - 1);
      RunTail(t, moments, k);
      assert moments[1..][k - 1] == moments[k];
      assert next.(secondsPast := next.secondsPast + (k - 1)) == here;
    } else {
      assert here == t;
    }
  }

  /** Past the first tick, a run continues as the run of the rest one second later. */
  lemma RunTail(t: Timer, moments: seq<Moment>, k: nat)
    requires 0 < k < |moments|
    ensures Run(t, moments)[k] == Run(t.(secondsPast := t.secondsPast + 1), moments[1..])[k - 1]
  {
  }

  /** A tick closes a tab only at expiry, when no slot is free and there is an active tab. */
  lemma CloseOnlyAtExpiry(t: Timer, moments: seq<Moment>, k: nat)
    requires k < |moments| && Emits(Run(t, moments)[k], Close)
    ensures t.secondsPast + k == t.total
    ensures !HasTabsLeft(|moments[k].state.tabs|, moments[k].state.config) && moments[k].active.Some?
    ensures Run(t, moments)[k] == [CloseTabs([moments[k].active.value.id])]
  {
    RunAt(t, moments, k);
    var tick := OnTick(moments[k].state, t.(secondsPast := t.secondsPast + k), moments[k].active);
    assert tick.effects == Run(t, moments)[k];
  }

  /** An interval asks for a closure on at most one tick. */
  lemma AtMostOneClosure(t: Timer, moments: seq<Moment>, j: nat, k: nat)
    requires j < |moments| && k < |moments|
    requires Emits(Run(t, moments)[j], Close) && Emits(Run(t, moments)[k], Close)
    ensures j == k
  {
    CloseOnlyAtExpiry(t, moments, j);
    CloseOnlyAtExpiry(t, moments, k);
  }

  /** A freshly started interval closes the active tab on the tick with `total` seconds past
      (its `total + 1`-th callback) when no slot is free then. */
  lemma ClosesAtExpiry(seconds: nat, moments: seq<Moment>)
    requires seconds < |moments|
    requires !HasTabsLeft(|moments[seconds].state.tabs|, moments[seconds].state.config)
    requires moments[seconds].active.Some?
    ensures Run(Timer(seconds, 0), moments)[seconds] == [CloseTabs([moments[seconds].active.value.id])]
  {
    RunAt(Timer(seconds, 0), moments, seconds);
  }
}
