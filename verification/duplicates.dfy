/**
 * Duplicate detection: the tabs duplicating one given tab (`getDuplicateTabsOf`)
 * and the whole-list sweep into first occurrences and later repeats
 * (`closeDuplicateTabs`).
 */
module Duplicates {
  import opened Tabs
  import opened Seqs

  /** The url a blank new tab reports. */
  const NewTabUrl: string := "chrome://newtab/"

  /** `other` duplicates `t`: a different id and the same url, where an empty url of
      `t` also matches the new-tab page. */
  predicate DuplicatesTab(other: Tab, t: Tab) {
    other.id != t.id && (other.url == t.url || (t.url == "" && other.url == NewTabUrl))
  }

  /** `getDuplicateTabsOf(t)` over the list `tabs`. */
  function DuplicatesOf(tabs: seq<Tab>, t: Tab): (r: seq<Tab>)
    ensures Subsequence(r, tabs)
    ensures forall i :: 0 <= i < |r| ==> r[i].id != t.id
    ensures forall i :: 0 <= i < |r| ==>
      r[i].url == t.url || (t.url == "" && r[i].url == NewTabUrl)
    ensures forall i :: 0 <= i < |tabs| && tabs[i].id != t.id && tabs[i].url == t.url ==> tabs[i] in r
    ensures t.url == "" ==>
      forall i :: 0 <= i < |tabs| && tabs[i].id != t.id && tabs[i].url == NewTabUrl ==> tabs[i] in r
  {
    Filter(tabs, other => DuplicatesTab(other, t))
  }

  /** Does some tab of `unique` have url `url` (`uniqueTabs.find(...)` being truthy)? */
  predicate HasUrl(unique: seq<Tab>, url: string) {
    exists k :: 0 <= k < |unique| && unique[k].url == url
  }

  /** No two tabs of `tabs` share a url. */
  predicate UrlsDistinct(tabs: seq<Tab>) {
    forall i, j :: 0 <= i < j < |tabs| ==> tabs[i].url != tabs[j].url
  }

  /** Position `i` holds the first tab of its url. */
  ghost predicate FirstOfUrl(tabs: seq<Tab>, i: int)
    requires 0 <= i < |tabs|
  {
    forall j :: 0 <= j < i ==> tabs[j].url != tabs[i].url
  }

  /** `x` occurs at some position of `tabs[..k]` after a tab with the same url. */
  ghost predicate RepeatBefore(tabs: seq<Tab>, k: int, x: Tab)
    requires 0 <= k <= |tabs|
  {
    exists i, j :: 0 <= j < i < k && tabs[i] == x && tabs[j].url == x.url
  }

  /** `unique` and `dups` together hold exactly the tabs of `tabs[..k]`. */
  ghost predicate Partitioned(tabs: seq<Tab>, k: int, unique: seq<Tab>, dups: seq<Tab>)
    requires 0 <= k <= |tabs|
  {
    && multiset(unique) + multiset(dups) == multiset(tabs[..k])
    && (forall x :: x in unique ==> x in tabs[..k])
  }

  /** Every url of `tabs[..k]` is represented in `unique` by its first tab. */
  ghost predicate FirstsKept(tabs: seq<Tab>, k: int, unique: seq<Tab>)
    requires 0 <= k <= |tabs|
  {
    && UrlsDistinct(unique)
    && (forall i :: 0 <= i < k ==> HasUrl(unique, tabs[i].url))
    && (forall i :: 0 <= i < k && FirstOfUrl(tabs, i) ==> tabs[i] in unique)
  }

  /** Every tab of `dups` repeats an earlier url, and there is none exactly when the
      urls of `tabs[..k]` are distinct. */
  ghost predicate RepeatsOnly(tabs: seq<Tab>, k: int, dups: seq<Tab>)
    requires 0 <= k <= |tabs|
  {
    && (forall x :: x in dups ==> RepeatBefore(tabs, k, x))
    && (dups == [] <==> UrlsDistinct(tabs[..k]))
  }

  /** What the sweep guarantees once it has looked at `tabs[..k]`. */
  ghost predicate SplitInvariant(tabs: seq<Tab>, k: int, unique: seq<Tab>, dups: seq<Tab>)
    requires 0 <= k <= |tabs|
  {
    Partitioned(tabs, k, unique, dups) && FirstsKept(tabs, k, unique) && RepeatsOnly(tabs, k, dups)
  }

  /** The `forEach` of `closeDuplicateTabs`, resumed at position `k`. */
  function SplitFrom(tabs: seq<Tab>, k: nat, unique: seq<Tab>, dups: seq<Tab>): (r: (seq<Tab>, seq<Tab>))
    requires k <= |tabs|
    requires SplitInvariant(tabs, k, unique, dups)
    ensures SplitInvariant(tabs, |tabs|, r.0, r.1)
    decreases |tabs| - k
  {
    if k == |tabs| then (unique, dups)
    else if HasUrl(unique, tabs[k].url) then
      StepRepeat(tabs, k, unique, dups);
      SplitFrom(tabs, k + 1, unique, dups + [tabs[k]])
    else
      StepFirst(tabs, k, unique, dups);
      SplitFrom(tabs, k + 1, unique + [tabs[k]], dups)
  }

  lemma PartitionedStep(tabs: seq<Tab>, k: nat, unique: seq<Tab>, dups: seq<Tab>, toUnique: bool)
    requires k < |tabs|
    requires Partitioned(tabs, k, unique, dups)
    ensures toUnique ==> Partitioned(tabs, k + 1, unique + [tabs[k]], dups)
    ensures !toUnique ==> Partitioned(tabs, k + 1, unique, dups + [tabs[k]])
  {
    assert tabs[..k + 1] == tabs[..k] + [tabs[k]];
  }

  /** A tab whose url is already represented is a repeat of an earlier tab. */
  lemma RepeatFound(tabs: seq<Tab>, k: nat, unique: seq<Tab>)
    requires k < |tabs|
    requires forall x :: x in unique ==> x in tabs[..k]
    requires HasUrl(unique, tabs[k].url)
    ensures exists j :: 0 <= j < k && tabs[j].url == tabs[k].url
  {
    var u :| 0 <= u < |unique| && unique[u].url == tabs[k].url;
    assert unique[u] in tabs[..k];
    var j :| 0 <= j < k && tabs[..k][j] == unique[u];
    assert tabs[j].url == tabs[k].url;
  }

  lemma StepRepeat(tabs: seq<Tab>, k: nat, unique: seq<Tab>, dups: seq<Tab>)
    requires k < |tabs|
    requires SplitInvariant(tabs, k, unique, dups)
    requires HasUrl(unique, tabs[k].url)
    ensures SplitInvariant(tabs, k + 1, unique, dups + [tabs[k]])
  {
    PartitionedStep(tabs, k, unique, dups, false);
    RepeatFound(tabs, k, unique);
    var j :| 0 <= j < k && tabs[j].url == tabs[k].url;
    RepeatsStep(tabs, k, dups, j);
    assert !FirstOfUrl(tabs, k) by {
      assert tabs[j].url == tabs[k].url;
    }
  }

  lemma RepeatsStep(tabs: seq<Tab>, k: nat, dups: seq<Tab>, j: nat)
    requires k < |tabs|
    requires RepeatsOnly(tabs, k, dups)
    requires j < k && tabs[j].url == tabs[k].url
    ensures RepeatsOnly(tabs, k + 1, dups + [tabs[k]])
  {
    var x := tabs[k];
    assert RepeatBefore(tabs, k + 1, x);
    forall y | y in dups + [x] ensures RepeatBefore(tabs, k + 1, y) {
      if y in dups {
        assert RepeatBefore(tabs, k, y);
      }
    }
    assert !UrlsDistinct(tabs[..k + 1]) by {
      assert tabs[..k + 1][j].url == tabs[..k + 1][k].url;
    }
  }

  lemma StepFirst(tabs: seq<Tab>, k: nat, unique: seq<Tab>, dups: seq<Tab>)
    requires k < |tabs|
    requires SplitInvariant(tabs, k, unique, dups)
    requires !HasUrl(unique, tabs[k].url)
    ensures SplitInvariant(tabs, k + 1, unique + [tabs[k]], dups)
  {
    PartitionedStep(tabs, k, unique, dups, true);
    FirstsStep(tabs, k, unique);
    forall y | y in dups ensures RepeatBefore(tabs, k + 1, y) {
      assert RepeatBefore(tabs, k, y);
    }
    if dups == [] {
      var pre := tabs[..k + 1];
      assert UrlsDistinct(pre) by {
        forall i, j | 0 <= i < j < k + 1 ensures pre[i].url != pre[j].url {
          if j == k {
            assert HasUrl(unique, tabs[i].url);
          } else {
            assert tabs[..k][i] == pre[i] && tabs[..k][j] == pre[j];
          }
        }
      }
    } else {
      assert !UrlsDistinct(tabs[..k + 1]) by {
        var i0, j0 :| 0 <= i0 < j0 < k && tabs[..k][i0].url == tabs[..k][j0].url;
        assert tabs[..k + 1][i0] == tabs[..k][i0] && tabs[..k + 1][j0] == tabs[..k][j0];
      }
    }
  }

  lemma FirstsStep(tabs: seq<Tab>, k: nat, unique: seq<Tab>)
    requires k < |tabs|
    requires FirstsKept(tabs, k, unique)
    requires !HasUrl(unique, tabs[k].url)
    ensures FirstsKept(tabs, k + 1, unique + [tabs[k]])
  {
    var x := tabs[k];
    var u' := unique + [x];
    forall i | 0 <= i < k + 1 ensures HasUrl(u', tabs[i].url) {
      if i < k {
        var m :| 0 <= m < |unique| && unique[m].url == tabs[i].url;
        assert u'[m] == unique[m];
      } else {
        assert u'[|unique|] == x;
      }
    }
  }

  /** `closeDuplicateTabs`: the tabs split into the first tab of each url and the repeats. */
  function SplitDuplicates(tabs: seq<Tab>): (r: (seq<Tab>, seq<Tab>))
    ensures multiset(r.0) + multiset(r.1) == multiset(tabs)
    ensures UrlsDistinct(r.0)
    ensures forall i :: 0 <= i < |tabs| ==> HasUrl(r.0, tabs[i].url)
    ensures forall i :: 0 <= i < |tabs| && FirstOfUrl(tabs, i) ==> tabs[i] in r.0
    ensures forall x :: x in r.1 ==> exists i, j :: 0 <= j < i < |tabs| && tabs[i] == x && tabs[j].url == x.url
    ensures r.1 == [] <==> UrlsDistinct(tabs)
  {
    assert tabs[..0] == [];
    var r := SplitFrom(tabs, 0, [], []);
    assert tabs[..|tabs|] == tabs;
    forall x | x in r.1 ensures exists i, j :: 0 <= j < i < |tabs| && tabs[i] == x && tabs[j].url == x.url {
      assert RepeatBefore(tabs, |tabs|, x);
    }
    r
  }

  /** With unique ids, the first tab of each url is never among the repeats. */
  lemma FirstTabNeverClosed(tabs: seq<Tab>, i: int)
    requires UniqueIds(tabs)
    requires 0 <= i < |tabs| && FirstOfUrl(tabs, i)
    ensures tabs[i].id !in Ids(SplitDuplicates(tabs).1)
  {
    var dups := SplitDuplicates(tabs).1;
    forall k | 0 <= k < |dups| ensures dups[k].id != tabs[i].id {
      assert dups[k] in dups;
      var i', j :| 0 <= j < i' < |tabs| && tabs[i'] == dups[k] && tabs[j].url == dups[k].url;
      assert !FirstOfUrl(tabs, i') by {
        assert tabs[j].url == tabs[i'].url;
      }
    }
  }

  /** With urls [u1, u2, u1] the sweep closes exactly the third tab. */
  lemma SweepKeepsFirstOccurrence(a: Tab, b: Tab, c: Tab)
    requires a.url == c.url && a.url != b.url
    ensures SplitDuplicates([a, b, c]).1 == [c]
  {
    var tabs := [a, b, c];
    var r := SplitDuplicates(tabs);
    assert FirstOfUrl(tabs, 0) && FirstOfUrl(tabs, 1);
    assert tabs[0] in r.0 && tabs[1] in r.0;
    assert !UrlsDistinct(tabs) by { assert tabs[0].url == tabs[2].url; }
    forall x | x in r.1 ensures x == c {
      var i, j :| 0 <= j < i < |tabs| && tabs[i] == x && tabs[j].url == x.url;
      assert i != 1 by { assert tabs[j].url != tabs[1].url; }
    }
    OnlyThirdRepeats(r.0, r.1, a, b, c);
  }

  lemma OnlyThirdRepeats(u: seq<Tab>, d: seq<Tab>, a: Tab, b: Tab, c: Tab)
    requires multiset(u) + multiset(d) == multiset([a, b, c])
    requires a in u && b in u && a != b
    requires d != [] && forall x :: x in d ==> x == c
    ensures d == [c]
  {
    var mu := multiset(u);
    assert multiset{a, b} <= mu;
    assert |mu| >= 2;
    assert |mu + multiset(d)| == 3;
    assert |d| == 1;
    assert d[0] in d;
  }
}
