/** `ThemeManager.switchToNextTheme`: advance `workbench.colorTheme` to the
    theme after the current one in the registry list, wrapping at the end,
    and stamp the persisted state with the time of the switch. */
module Rotation {
  import opened Wrappers
  import opened Environment

  /** `Array.prototype.indexOf`: the first position holding `x`, or -1. */
  function IndexOf(xs: seq<string>, x: string): (r: int)
    ensures -1 <= r < |xs|
    ensures r == -1 <==> x !in xs
    ensures 0 <= r ==> xs[r] == x && forall j :: 0 <= j < r ==> xs[j] != x
  {
    if |xs| == 0 then -1
    else if xs[0] == x then 0
    else
      var k := IndexOf(xs[1..], x);
      if k == -1 then -1
      else k + 1
  }

  /** JavaScript truthiness of the current theme: both an undefined setting
      and the empty string are falsy. */
  function Truthy(current: Option<string>): (b: bool)
    ensures current.None? ==> !b
    ensures current == Some("") ==> !b
    ensures current.Some? && current.value != "" ==> b
  {
    current.Some? && current.value != ""
  }

  /** The position of the current theme in the list, or -1 when the current
      theme is falsy or not listed. */
  function CurrentIndex(themes: seq<string>, current: Option<string>): (r: int)
    ensures -1 <= r < |themes|
    ensures r == -1 <==> !Truthy(current) || current.value !in themes
    ensures 0 <= r ==> themes[r] == current.value && forall j :: 0 <= j < r ==> themes[j] != current.value
  {
    if Truthy(current) then IndexOf(themes, current.value) else -1
  }

  /** The position before `i` on a ring of `n` positions. */
  function Prev(i: nat, n: nat): (p: nat)
    requires i < n
    ensures p < n
  {
    if i == 0 then n - 1 else i - 1
  }

  /** The position of the theme to switch to. It starts over at 0 when the
      current theme is falsy or unlisted; otherwise it is the position right
      after (ring-wise) the first occurrence of the current theme. */
  function NextIndex(themes: seq<string>, current: Option<string>): (r: nat)
    requires |themes| > 0
    ensures r < |themes|
    ensures !Truthy(current) || current.value !in themes ==> r == 0
    ensures Truthy(current) && current.value in themes ==>
      && themes[Prev(r, |themes|)] == current.value
      && forall j :: 0 <= j < Prev(r, |themes|) ==> themes[j] != current.value
    ensures |themes| == 1 ==> r == 0
  {
    var i := CurrentIndex(themes, current);
    if i == -1 then 0
    else
      ModBelowTwice(i + 1, |themes|);
      (i + 1) % |themes|
  }

  /** The value of `workbench.colorTheme` after one switch. */
  function Select(themes: seq<string>, current: Option<string>): (r: Option<string>)
    ensures |themes| == 0 ==> r == current
    ensures |themes| > 0 ==> r.Some? && r.value in themes
    ensures |themes| > 0 && (!Truthy(current) || current.value !in themes) ==> r == Some(themes[0])
    ensures |themes| > 0 && Truthy(current) && current.value in themes ==>
      r == Some(themes[Succ(IndexOf(themes, current.value), |themes|)])
  {
    if |themes| == 0 then current else Some(themes[NextIndex(themes, current)])
  }

  /** One call of `switchToNextTheme` at time `now`: with no themes nothing is
      written; otherwise exactly the color theme and the timestamp change. */
  function SwitchToNextTheme(wb: Workbench, g: GlobalState, now: int): (r: (Workbench, GlobalState))
    ensures r.0.themes == wb.themes
    ensures r.1.paused == g.paused
    ensures |wb.themes| == 0 ==> r == (wb, g)
    ensures |wb.themes| > 0 ==>
      && r.0.colorTheme == Some(wb.themes[NextIndex(wb.themes, wb.colorTheme)])
      && r.1.lastSwitchTimestamp == Some(now)
      && LastSwitch(r.1) == now
  {
    if |wb.themes| == 0 then (wb, g)
    else
      var next := NextIndex(wb.themes, wb.colorTheme);
      (wb.(colorTheme := Some(wb.themes[next])), g.(lastSwitchTimestamp := Some(now)))
  }

  /** The color theme after `k` successive switches over a fixed list. */
  function Rotations(themes: seq<string>, current: Option<string>, k: nat): (r: Option<string>)
    ensures |themes| == 0 ==> r == current
    ensures |themes| > 0 && k > 0 ==> r.Some? && r.value in themes
  {
    if k == 0 then current else Select(themes, Rotations(themes, current, k - 1))
  }

  /** No theme label occurs twice. */
  predicate Distinct(themes: seq<string>) {
    forall a, b :: 0 <= a < b < |themes| ==> themes[a] != themes[b]
  }

  /** No theme label is the (falsy) empty string. */
  predicate NamedThemes(themes: seq<string>) {
    forall a :: 0 <= a < |themes| ==> themes[a] != ""
  }

  /** Remainders of a number below twice the modulus. */
  lemma ModBelowTwice(a: nat, n: nat)
    requires 0 < n && a < 2 * n
    ensures a < n ==> a % n == a
    ensures n <= a ==> a % n == a - n
  {
    if n <= a {
      assert a == 1 * n + (a - n);
    }
  }

  /** The position after `i` on a ring of `n` positions. */
  function Succ(i: nat, n: nat): (s: nat)
    requires i < n
    ensures s < n
  {
    if i + 1 < n then i + 1 else 0
  }

  /** The position `k` steps after `i` on a ring of `n` positions, `k <= n`. */
  function Advance(i: nat, k: nat, n: nat): (p: nat)
    requires i < n && k <= n
    ensures p < n
  {
    if i + k < n then i + k else i + k - n
  }

  /** With distinct, non-empty labels a listed theme is found at its own
      position, so the switch moves to the next position on the ring. */
  lemma SwitchFromListed(themes: seq<string>, i: nat)
    requires Distinct(themes) && NamedThemes(themes) && i < |themes|
    ensures Select(themes, Some(themes[i])) == Some(themes[Succ(i, |themes|)])
  {
    ModBelowTwice(i + 1, |themes|);
  }

  /** From a listed theme, `k <= n` switches land `k` positions further on. */
  lemma {:induction false} RotationsFromListed(themes: seq<string>, i: nat, k: nat)
    requires Distinct(themes) && NamedThemes(themes) && i < |themes| && k <= |themes|
    ensures Rotations(themes, Some(themes[i]), k) == Some(themes[Advance(i, k, |themes|)])
  {
    if k > 0 {
      var n := |themes|;
      var p := Advance(i, k - 1, n);
      var q := Advance(i, k, n);
      assert q == Succ(p, n);
      RotationsFromListed(themes, i, k - 1);
      SwitchFromListed(themes, p);
    }
  }

  /** Distinct step counts below `n` land on distinct positions. */
  lemma AdvanceInjective(i: nat, k1: nat, k2: nat, n: nat)
    requires i < n && k1 < k2 < n
    ensures Advance(i, k1, n) != Advance(i, k2, n)
  {
  }

  /** Distinct positions of a list of distinct labels hold distinct labels. */
  lemma DistinctAt(themes: seq<string>, a: nat, b: nat)
    requires Distinct(themes) && a < |themes| && b < |themes| && a != b
    ensures themes[a] != themes[b]
  {
    if b < a {
      assert themes[b] != themes[a];
    }
  }

  /** The full cycle, first half: with distinct, non-empty labels, `n`
      switches from any listed theme come back to it. */
  lemma CycleReturns(themes: seq<string>, i: nat)
    requires Distinct(themes) && NamedThemes(themes) && i < |themes|
    ensures Rotations(themes, Some(themes[i]), |themes|) == Some(themes[i])
  {
    RotationsFromListed(themes, i, |themes|);
  }

  /** Two different step counts below `n` from a listed theme select
      different themes. */
  lemma RotationsApart(themes: seq<string>, i: nat, k1: nat, k2: nat)
    requires Distinct(themes) && NamedThemes(themes) && i < |themes| && k1 < k2 < |themes|
    ensures Rotations(themes, Some(themes[i]), k1) != Rotations(themes, Some(themes[i]), k2)
  {
    var n := |themes|;
    var p1, p2 := Advance(i, k1, n), Advance(i, k2, n);
    AdvanceInjective(i, k1, k2, n);
    DistinctAt(themes, p1, p2);
    RotationsFromListed(themes, i, k1);
    RotationsFromListed(themes, i, k2);
  }

  /** Theme `t` is selected at some point of the first `n` switches (counting
      the starting selection as switch 0). */
  ghost predicate VisitedWithinCycle(themes: seq<string>, start: Option<string>, t: string) {
    exists k: nat :: k < |themes| && Rotations(themes, start, k) == Some(t)
  }

  /** Theme `j` is reached from theme `i` after fewer than `n` switches. */
  lemma RotationsReach(themes: seq<string>, i: nat, j: nat)
    requires Distinct(themes) && NamedThemes(themes) && i < |themes| && j < |themes|
    ensures VisitedWithinCycle(themes, Some(themes[i]), themes[j])
  {
    var n := |themes|;
    var k := if i <= j then j - i else j + n - i;
    assert Advance(i, k, n) == j;
    RotationsFromListed(themes, i, k);
    assert Rotations(themes, Some(themes[i]), k) == Some(themes[j]);
  }

  /** The full cycle, second half: the first `n` switches from a listed theme
      reach every theme, each exactly once. */
  lemma CycleVisitsEachOnce(themes: seq<string>, i: nat)
    requires Distinct(themes) && NamedThemes(themes) && i < |themes|
    ensures forall t :: t in themes ==> VisitedWithinCycle(themes, Some(themes[i]), t)
    ensures forall k1, k2 :: 0 <= k1 < k2 < |themes| ==>
      Rotations(themes, Some(themes[i]), k1) != Rotations(themes, Some(themes[i]), k2)
  {
    forall t | t in themes
      ensures VisitedWithinCycle(themes, Some(themes[i]), t)
    {
      var j :| 0 <= j < |themes| && themes[j] == t;
      RotationsReach(themes, i, j);
    }
    var n := |themes|;
    forall k1, k2 | 0 <= k1 < k2 < n {
      RotationsApart(themes, i, k1, k2);
    }
  }

  /** From a falsy or unlisted theme the first switch restarts at position 0,
      after which the list is walked in order: switch `k` selects theme `k - 1`. */
  lemma {:induction false} RotationsFromUnlisted(themes: seq<string>, current: Option<string>, k: nat)
    requires Distinct(themes) && NamedThemes(themes) && 1 <= k <= |themes|
    requires !Truthy(current) || current.value !in themes
    ensures Rotations(themes, current, k) == Some(themes[k - 1])
  {
    if k > 1 {
      RotationsFromUnlisted(themes, current, k - 1);
      SwitchFromListed(themes, k - 2);
    }
  }

  /** Two different step counts in `1..n` from a falsy or unlisted theme
      select different themes. */
  lemma UnlistedRotationsApart(themes: seq<string>, current: Option<string>, k1: nat, k2: nat)
    requires Distinct(themes) && NamedThemes(themes) && 1 <= k1 < k2 <= |themes|
    requires !Truthy(current) || current.value !in themes
    ensures Rotations(themes, current, k1) != Rotations(themes, current, k2)
  {
    DistinctAt(themes, k1 - 1, k2 - 1);
    RotationsFromUnlisted(themes, current, k1);
    RotationsFromUnlisted(themes, current, k2);
  }

  /** From a falsy or unlisted theme the first `n` switches visit every theme
      exactly once, in list order. */
  lemma CycleFromUnlisted(themes: seq<string>, current: Option<string>)
    requires Distinct(themes) && NamedThemes(themes)
    requires !Truthy(current) || current.value !in themes
    ensures forall k :: 1 <= k <= |themes| ==> Rotations(themes, current, k) == Some(themes[k - 1])
    ensures forall k1, k2 :: 1 <= k1 < k2 <= |themes| ==>
      Rotations(themes, current, k1) != Rotations(themes, current, k2)
  {
    forall k | 1 <= k <= |themes| {
      RotationsFromUnlisted(themes, current, k);
    }
    forall k1, k2 | 1 <= k1 < k2 <= |themes| {
      UnlistedRotationsApart(themes, current, k1, k2);
    }
  }

  /** Duplicate labels break the cycle: `indexOf` always finds the first "A",
      so the switch from "A" lands on the second "A" and "B" is never reached. */
  lemma {:induction false} DuplicateLabelsStall(k: nat)
    ensures Rotations(["A", "A", "B"], Some("A"), k) == Some("A")
    ensures Rotations(["A", "A", "B"], Some("A"), k) != Some("B")
  {
    if k > 0 {
      DuplicateLabelsStall(k - 1);
      assert IndexOf(["A", "A", "B"], "A") == 0;
    }
  }

  /** Worked cases: from "B" the switch selects "C"; from an unlisted "Z" it
      restarts at "A"; from the last theme it wraps to the first. */
  lemma SwitchExamples()
    ensures Select(["A", "B", "C"], Some("B")) == Some("C")
    ensures Select(["A", "B", "C"], Some("Z")) == Some("A")
    ensures Select(["A", "B", "C"], Some("C")) == Some("A")
    ensures Select(["A", "B", "C"], None) == Some("A")
  {
    assert IndexOf(["A", "B", "C"], "B") == 1;
    assert IndexOf(["A", "B", "C"], "C") == 2;
  }
}
