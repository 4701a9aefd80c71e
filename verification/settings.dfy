/**
 * The live configuration, the capacity predicate `hasTabsLeft` and the badge
 * text `updateBadge` derives from the tab count.
 */
module Settings {
  import opened Wrappers
  import opened Decimal

  /** `ProcrastabsManager.config`. `maxTabs` and `countdown` (minutes) are integers here. */
  datatype Config = Config(
    badgeBaseColor: string,
    badgeCountdownColor: string,
    badgeCountdownEnabled: bool,
    maxTabs: int,
    maxTabsEnabled: bool,
    countdown: int,
    countdownEnabled: bool,
    closeDuplicates: bool)

  /** `hasTabsLeft()`: fewer tabs than the ceiling. It does not look at `maxTabsEnabled`. */
  predicate HasTabsLeft(count: nat, c: Config) {
    count < c.maxTabs
  }

  /** Whether a slot is left does not depend on whether the ceiling is switched on. */
  lemma HasTabsLeftIgnoresCeilingFlag(count: nat, c: Config, enabled: bool)
    ensures HasTabsLeft(count, c) <==> HasTabsLeft(count, c.(maxTabsEnabled := enabled))
  {
  }

  /** With the ceiling on, no slot is left exactly when the badge shows "0" or a text
      starting with "--"; while slots are left it shows "-" and a positive number. */
  lemma NoSlotLeftBadge(count: nat, c: Config)
    requires c.maxTabsEnabled
    ensures var text := BadgeText(count, c);
      !HasTabsLeft(count, c) <==> text == "0" || (|text| >= 2 && text[1] == '-')
  {
    var text := BadgeText(count, c);
    if HasTabsLeft(count, c) {
      assert text == "-" + IntToString(c.maxTabs - count);
      assert text[1] == IntToString(c.maxTabs - count)[0];
    }
  }

  /** The badge text `updateBadge` shows for `count` tracked tabs. When the ceiling is on it
      prints "0" at capacity and otherwise "-" followed by the slack, so a negative slack
      prints as "--k". */
  function BadgeText(count: nat, c: Config): (text: string)
    ensures c.maxTabsEnabled ==> (text == "0" <==> count == c.maxTabs)
    ensures c.maxTabsEnabled && count != c.maxTabs ==> |text| >= 2 && text[0] == '-'
  {
    var remaining := c.maxTabs - count;
    if c.maxTabsEnabled then
      (if remaining == 0 then "0" else "-" + IntToString(remaining))
    else IntToString(count)
  }

  /** Below or above capacity the text after the "-" reads back as the slack; with the
      ceiling off the text reads back as the tab count. */
  lemma BadgeTextReadsBack(count: nat, c: Config)
    ensures c.maxTabsEnabled && count != c.maxTabs ==>
      ParseInt(BadgeText(count, c)[1..]) == Some(c.maxTabs - count)
    ensures !c.maxTabsEnabled ==> ParseInt(BadgeText(count, c)) == Some(count)
  {
    if c.maxTabsEnabled && count != c.maxTabs {
      ParseIntToString(c.maxTabs - count);
      assert BadgeText(count, c)[1..] == IntToString(c.maxTabs - count);
    } else if !c.maxTabsEnabled {
      ParseIntToString(count);
    }
  }

  /** Reads the tab count back from a badge text under configuration `c`. */
  function ReadBadge(text: string, c: Config): Option<int> {
    if c.maxTabsEnabled then
      if text == "0" then Some(c.maxTabs)
      else if |text| >= 1 && text[0] == '-' then
        match ParseInt(text[1..])
        case Some(slack) => Some(c.maxTabs - slack)
        case None => None
      else None
    else ParseInt(text)
  }

  /** The badge determines the tab count: reading it back gives the count it was drawn for. */
  lemma ReadBadgeText(count: nat, c: Config)
    ensures ReadBadge(BadgeText(count, c), c) == Some(count)
  {
    BadgeTextReadsBack(count, c);
  }

  /** Different tab counts never share a badge text. */
  lemma BadgeTextInjective(n: nat, m: nat, c: Config)
    requires BadgeText(n, c) == BadgeText(m, c)
    ensures n == m
  {
    ReadBadgeText(n, c);
    ReadBadgeText(m, c);
  }

  /** Over the ceiling the badge starts with two minus signs. */
  lemma OverLimitBadgeHasDoubleMinus(count: nat, c: Config)
    requires c.maxTabsEnabled && count > c.maxTabs
    ensures |BadgeText(count, c)| >= 3 && BadgeText(count, c)[..2] == "--"
  {
  }

  /** Five tabs under a ceiling of five show "0", three show "-2"; seven tabs with the
      ceiling off show "7". */
  lemma BadgeExamples(c: Config)
    ensures BadgeText(5, c.(maxTabsEnabled := true, maxTabs := 5)) == "0"
    ensures BadgeText(3, c.(maxTabsEnabled := true, maxTabs := 5)) == "-2"
    ensures BadgeText(7, c.(maxTabsEnabled := false)) == "7"
  {
  }
}
