/** The host values the theme manager reads and writes, passed in as plain
    data: the extension's persisted global state, the `themeSwitcher`
    configuration section, and the workbench (installed themes and the
    `workbench.colorTheme` setting). */
module Environment {
  import opened Wrappers

  /** The extension's `globalState` memento, restricted to the two keys the
      manager uses. `None` is a key that was never written. */
  datatype GlobalState = GlobalState(lastSwitchTimestamp: Option<int>, paused: Option<bool>)

  /** A memento nothing has been written to yet. */
  const EmptyState: GlobalState := GlobalState(None, None)

  /** `Math.max` on integers. */
  function Max(a: int, b: int): (r: int)
    ensures r >= a && r >= b
    ensures r == a || r == b
  {
    if a >= b then a else b
  }

  /** Read of `lastSwitchTimestamp`, defaulting to 0 (never switched). */
  function LastSwitch(g: GlobalState): (t: int)
    ensures g.lastSwitchTimestamp.None? ==> t == 0
    ensures g.lastSwitchTimestamp.Some? ==> t == g.lastSwitchTimestamp.value
  {
    g.lastSwitchTimestamp.GetOr(0)
  }

  /** Read of `paused`, defaulting to false. */
  function Paused(g: GlobalState): (b: bool)
    ensures g.paused.None? ==> !b
    ensures b <==> g.paused == Some(true)
  {
    g.paused.GetOr(false)
  }

  /** The `themeSwitcher` configuration section. `None` is an unset key, read
      with its default; integer settings are assumed to be whole numbers. */
  datatype Config = Config(
    enabled: Option<bool>,
    switchIntervalHours: Option<int>,
    pollIntervalMinutes: Option<int>)

  /** `enabled`, default true. */
  function Enabled(c: Config): (b: bool)
    ensures c.enabled.None? ==> b
    ensures !b <==> c.enabled == Some(false)
  {
    c.enabled.GetOr(true)
  }

  /** `switchIntervalHours`, default 1, clamped to at least one hour. */
  function SwitchIntervalHours(c: Config): (h: int)
    ensures h >= 1
    ensures c.switchIntervalHours.None? ==> h == 1
    ensures c.switchIntervalHours.Some? && c.switchIntervalHours.value <= 1 ==> h == 1
    ensures c.switchIntervalHours.Some? && c.switchIntervalHours.value >= 1 ==> h == c.switchIntervalHours.value
  {
    Max(1, c.switchIntervalHours.GetOr(1))
  }

  /** `pollIntervalMinutes`, default 20, not yet clamped. */
  function PollIntervalMinutes(c: Config): (minutes: int)
    ensures c.pollIntervalMinutes.None? ==> minutes == 20
    ensures c.pollIntervalMinutes.Some? ==> minutes == c.pollIntervalMinutes.value
  {
    c.pollIntervalMinutes.GetOr(20)
  }

  /** The workbench as the manager sees it: the labels of every theme the
      installed extensions contribute, in registry order, and the current
      value of `workbench.colorTheme` (`None` when unset). */
  datatype Workbench = Workbench(themes: seq<string>, colorTheme: Option<string>)
}
