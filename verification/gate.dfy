/** `ThemeManager.checkAndSwitch`: the gate run at start-up and on every poll
    tick, which switches theme once the configured number of hours has
    passed since the last switch, unless switching is disabled or paused. */
module Gate {
  import opened Wrappers
  import opened Environment
  import opened Rotation

  /** Milliseconds in an hour, the divisor of the elapsed-hours computation. */
  const MsPerHour: int := 1000 * 60 * 60

  /** Hours since the last switch, computed as the source does: a division
      of the elapsed milliseconds, here in exact rational arithmetic. */
  function HoursPassed(now: int, last: int): (hours: real)
    ensures hours * MsPerHour as real == (now - last) as real
    ensures hours >= 0.0 <==> now >= last
  {
    (now - last) as real / MsPerHour as real
  }

  /** The configured interval, in milliseconds. */
  function ThresholdMs(cfg: Config): (ms: int)
    ensures ms >= MsPerHour
    ensures ms % MsPerHour == 0
    ensures cfg.switchIntervalHours.Some? && cfg.switchIntervalHours.value >= 1 ==>
      ms == cfg.switchIntervalHours.value * MsPerHour
    ensures cfg.switchIntervalHours.None? || cfg.switchIntervalHours.value <= 1 ==> ms == MsPerHour
  {
    SwitchIntervalHours(cfg) * MsPerHour
  }

  /** Comparing hours by division is the same as comparing whole
      milliseconds against the interval scaled up to milliseconds. */
  lemma HoursComparisonIsExact(now: int, last: int, hours: int)
    ensures HoursPassed(now, last) >= hours as real <==> now - last >= hours * MsPerHour
  {
  }

  /** The gate as an integer predicate: switching is enabled, not paused, and
      at least the configured interval has passed since the last switch. */
  function Due(cfg: Config, g: GlobalState, now: int): (due: bool)
    ensures cfg.enabled == Some(false) ==> !due
    ensures g.paused == Some(true) ==> !due
    ensures due ==> now - LastSwitch(g) >= MsPerHour
    ensures Enabled(cfg) && !Paused(g) && g.lastSwitchTimestamp.None? && cfg.switchIntervalHours.None? ==>
      (due <==> now >= MsPerHour)
  {
    && Enabled(cfg)
    && !Paused(g)
    && now - LastSwitch(g) >= ThresholdMs(cfg)
  }

  /** The outcome of one check: whether `switchToNextTheme` was invoked, and
      the workbench and persisted state afterwards. */
  datatype Check = Check(invoked: bool, workbench: Workbench, state: GlobalState)

  /** One gate check at time `now`. The switch it triggers is taken to
      complete within the check and to stamp the same `now`. */
  function CheckAndSwitch(wb: Workbench, g: GlobalState, cfg: Config, now: int): (r: Check)
    ensures r.invoked <==> Due(cfg, g, now)
    ensures r.invoked ==> (r.workbench, r.state) == SwitchToNextTheme(wb, g, now)
    ensures !r.invoked ==> r.workbench == wb && r.state == g
  {
    var hours := SwitchIntervalHours(cfg);
    var last := LastSwitch(g);
    var hoursPassed := HoursPassed(now, last);
    HoursComparisonIsExact(now, last, hours);
    if !Enabled(cfg) then Check(false, wb, g)
    else if Paused(g) then Check(false, wb, g)
    else if hoursPassed >= hours as real then
      var (wb', g') := SwitchToNextTheme(wb, g, now);
      Check(true, wb', g')
    else Check(false, wb, g)
  }

  /** With switching disabled no check ever switches, whatever the time. */
  lemma DisabledNeverSwitches(wb: Workbench, g: GlobalState, cfg: Config, now: int)
    requires !Enabled(cfg)
    ensures CheckAndSwitch(wb, g, cfg, now) == Check(false, wb, g)
  {
  }

  /** While paused no check ever switches, whatever the time. */
  lemma PausedNeverSwitches(wb: Workbench, g: GlobalState, cfg: Config, now: int)
    requires Paused(g)
    ensures CheckAndSwitch(wb, g, cfg, now) == Check(false, wb, g)
  {
  }

  /** A check made before the interval has passed does not switch. */
  lemma EarlyCheckDoesNotSwitch(wb: Workbench, g: GlobalState, cfg: Config, now: int)
    requires now - LastSwitch(g) < SwitchIntervalHours(cfg) * MsPerHour
    ensures CheckAndSwitch(wb, g, cfg, now) == Check(false, wb, g)
  {
  }

  /** Never having switched reads as a switch at time 0, so the first check
      made at least one interval after the epoch switches, when enabled and
      not paused. */
  lemma FirstCheckSwitches(wb: Workbench, g: GlobalState, cfg: Config, now: int)
    requires g.lastSwitchTimestamp.None?
    requires Enabled(cfg) && !Paused(g)
    requires now >= SwitchIntervalHours(cfg) * MsPerHour
    ensures CheckAndSwitch(wb, g, cfg, now).invoked
  {
  }

  /** A configured interval of zero (or less) behaves exactly like one hour,
      which is also the default. */
  lemma ZeroIntervalActsAsOneHour(wb: Workbench, g: GlobalState, cfg: Config, now: int)
    requires cfg.switchIntervalHours.Some? && cfg.switchIntervalHours.value <= 0
    ensures CheckAndSwitch(wb, g, cfg, now) == CheckAndSwitch(wb, g, cfg.(switchIntervalHours := Some(1)), now)
    ensures CheckAndSwitch(wb, g, cfg, now) == CheckAndSwitch(wb, g, cfg.(switchIntervalHours := None), now)
  {
  }

  /** After a check that switched a non-empty list, no further check switches
      until a whole interval has passed again. */
  lemma NoSecondSwitchWithinInterval(wb: Workbench, g: GlobalState, cfg: Config, now: int, later: int)
    requires |wb.themes| > 0
    requires CheckAndSwitch(wb, g, cfg, now).invoked
    requires later < now + ThresholdMs(cfg)
    ensures
      var c := CheckAndSwitch(wb, g, cfg, now);
      CheckAndSwitch(c.workbench, c.state, cfg, later) == Check(false, c.workbench, c.state)
  {
  }
}
