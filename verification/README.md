# Theme switcher: a Dafny model of `ThemeManager`

The theme switcher is a VS Code extension that rotates the workbench color
theme on a timer. Its logic lives in one class, `ThemeManager`
(`src/themeManager.ts`). This project models that class over plain values:
the installed themes and the current `workbench.colorTheme`, the
`themeSwitcher` configuration section, the extension's persisted global state
(`lastSwitchTimestamp`, `paused`), the clock value `now` and the host's timers.

- `wrappers.dfy` (`Wrappers`): `Option`, with the `get(key, default)` read.
- `environment.dfy` (`Environment`): the persisted state, the configuration
  with its defaults (`enabled` true, `switchIntervalHours` 1 clamped to at
  least 1, `pollIntervalMinutes` 20), and the workbench.
- `rotation.dfy` (`Rotation`): `switchToNextTheme`. It uses `indexOf` and
  JavaScript truthiness, so an undefined or empty current theme counts as not
  found and restarts at position 0. It computes the next index with
  wrap-around, writes the new theme and stamps `lastSwitchTimestamp`. The
  lemmas cover the full cycle of switches.
- `gate.dfy` (`Gate`): `checkAndSwitch`. The elapsed-hours division is
  computed as in the source and proved equal to an integer comparison in
  milliseconds.
- `scheduler.dfy` (`Scheduler`): `start`, `stop`, `pause`, `resume`,
  `isPaused`, and timer firings. The manager is an immutable record. It holds
  the `intervalHandle` field, the map of live host timers (id to period), a
  generation counter for fresh timer ids, the poll interval and the persisted
  state. A run over any sequence of calls keeps at most one timer live.

Constants, as the source sets them:
- the switch interval is in hours, with default 1, clamped to at least 1
  (src/themeManager.ts:71);
- the poll interval is in minutes, with default 20, clamped to at least 1
  (src/themeManager.ts:103-104);
- a manager that has never been started holds a 10-minute poll interval
  (src/themeManager.ts:7);
- the host runs a `setInterval` delay outside 1 to 2 147 483 647 ms as 1 ms,
  so the armed timer's period is that clamped value.

The cycle lemmas need pairwise-distinct theme labels and no empty label.
`DuplicateLabelsStall` shows that with duplicates the rotation can get stuck.
With an empty label, the empty string is falsy, so a current theme of `""`
always restarts at position 0.

## Model

| member | source | states |
|---|---|---|
| Environment.LastSwitch | src/themeManager.ts:73 | the stored `lastSwitchTimestamp`, or 0 when it was never written |
| Environment.Paused | src/themeManager.ts:83 | true exactly when `paused` was written as true; false when never written |
| Environment.Enabled | src/themeManager.ts:82 | true unless `enabled` is configured as false; true when unset |
| Environment.SwitchIntervalHours | src/themeManager.ts:71 | the interval is the configured hours, default 1, never below 1 |
| Environment.PollIntervalMinutes | src/themeManager.ts:103 | the configured poll minutes, 20 when unset |
| Rotation.Truthy | src/themeManager.ts:48 | an undefined current theme and the empty string are falsy; every other name is truthy |
| Rotation.IndexOf | src/themeManager.ts:48 | -1 exactly when the label is absent; otherwise the position of its first occurrence |
| Rotation.CurrentIndex | src/themeManager.ts:48 | -1 exactly when the current theme is undefined, empty or unlisted; otherwise the first position holding it |
| Rotation.NextIndex | src/themeManager.ts:48-49 | the next index is in `[0, n)`; it is 0 for a falsy or unlisted current theme; otherwise the position before it (ring-wise) is the first occurrence of the current theme; it is 0 for a one-theme list |
| Rotation.Select | src/themeManager.ts:41-55 | with no themes the selection is unchanged; with a falsy or unlisted current theme it is `themes[0]`; otherwise it is the theme one ring position after the first occurrence of the current theme |
| Rotation.Rotations | src/themeManager.ts:41-55 | repeated switches over an empty list leave the selection alone; over a non-empty list, one or more switches always select a listed theme |
| Rotation.SwitchToNextTheme | src/themeManager.ts:38-66 | with no themes nothing is written; otherwise the color theme becomes `themes[nextIndex]` and `lastSwitchTimestamp` becomes `now`; the theme list and the paused flag are untouched |
| Rotation.SwitchFromListed | src/themeManager.ts:48-49 | with distinct non-empty labels, switching from the theme at `i` selects the theme at the next ring position |
| Rotation.RotationsFromListed | src/themeManager.ts:48-55 | `k <= n` switches from the theme at `i` select the theme `k` ring positions further on |
| Rotation.CycleReturns | src/themeManager.ts:48-55 | `n` switches from any listed theme return to it |
| Rotation.RotationsReach | src/themeManager.ts:48-55 | every theme is selected within the first `n` switches from a listed theme |
| Rotation.RotationsApart | src/themeManager.ts:48-55 | two different switch counts below `n` from a listed theme select different themes |
| Rotation.CycleVisitsEachOnce | src/themeManager.ts:48-55 | the first `n` switches from a listed theme visit every theme, each exactly once |
| Rotation.RotationsFromUnlisted | src/themeManager.ts:48-49 | from a falsy or unlisted theme, switch `k` (1 to `n`) selects `themes[k-1]` |
| Rotation.UnlistedRotationsApart | src/themeManager.ts:48-49 | from a falsy or unlisted theme, switches `1..n` select pairwise different themes |
| Rotation.CycleFromUnlisted | src/themeManager.ts:48-49 | from a falsy or unlisted theme, the first `n` switches walk the list in order, each theme once |
| Rotation.DuplicateLabelsStall | src/themeManager.ts:48 | with labels `A, A, B` and current `A`, every switch selects `A` again and `B` is never reached |
| Rotation.SwitchExamples | src/themeManager.ts:48-49 | from `B` in `A, B, C` the switch selects `C`; from unlisted `Z` or undefined it selects `A`; from `C` it wraps to `A` |
| Gate.HoursPassed | src/themeManager.ts:76 | the elapsed hours times 3 600 000 are the elapsed milliseconds; they are negative exactly when the clock is behind the stored timestamp |
| Gate.ThresholdMs | src/themeManager.ts:71-76 | the interval in milliseconds is the configured hours times 3 600 000 when they are at least 1, and one hour when unset or lower |
| Gate.Due | src/themeManager.ts:82-95 | never due when disabled or paused; due only after at least an hour; with defaults and no stored timestamp, due from one hour after the epoch |
| Gate.HoursComparisonIsExact | src/themeManager.ts:76-95 | comparing elapsed hours by division equals comparing elapsed milliseconds with hours times 3 600 000 |
| Gate.CheckAndSwitch | src/themeManager.ts:68-98 | the switch is invoked exactly when enabled, not paused and at least the clamped interval has passed since the last switch; invoking it has the effect of `switchToNextTheme`; otherwise nothing changes |
| Gate.DisabledNeverSwitches | src/themeManager.ts:82-88 | with `enabled` false no check switches, at any time |
| Gate.PausedNeverSwitches | src/themeManager.ts:83-93 | with `paused` true no check switches, at any time |
| Gate.EarlyCheckDoesNotSwitch | src/themeManager.ts:95-97 | a check before the interval has passed changes nothing |
| Gate.FirstCheckSwitches | src/themeManager.ts:73-96 | a missing timestamp reads as 0, so the first enabled, unpaused check at least one interval after the epoch switches |
| Gate.ZeroIntervalActsAsOneHour | src/themeManager.ts:71 | a configured interval of 0 or less behaves exactly as 1 hour and as the unset default |
| Gate.NoSecondSwitchWithinInterval | src/themeManager.ts:59-97 | after a check switched a non-empty list, no check switches again until a whole interval has passed |
| Scheduler.New | src/themeManager.ts:5-11 | a new manager has no handle, no live timer and a 10-minute poll interval |
| Scheduler.PollIntervalMs | src/themeManager.ts:101-104 | the poll delay is the configured minutes times 60 000 when at least 1, one minute when lower, 20 minutes by default |
| Scheduler.TimerPeriod | src/themeManager.ts:113 | the host's period for a `setInterval` delay: the delay itself from 1 to 2 147 483 647 ms, otherwise 1 ms |
| Scheduler.Start | src/themeManager.ts:100-116 | one gate check runs; the old handle's timer is cleared and a fresh timer is armed and held, running at the host's period for the clamped delay; from a valid manager exactly that one timer is live |
| Scheduler.OversizedPollIntervalFiresEveryMillisecond | src/themeManager.ts:103-113 | a poll interval of 35 792 minutes or more makes the armed timer run every millisecond |
| Scheduler.Stop | src/themeManager.ts:118-123 | afterwards there is no handle and the handle's timer is cleared; with no handle it is a no-op; from a valid manager no timer is live |
| Scheduler.IsPaused | src/themeManager.ts:135-137 | true exactly when `paused` was last written as true; false when never written |
| Scheduler.Pause | src/themeManager.ts:125-128 | afterwards `isPaused` is true; timers, handle and timestamp are untouched |
| Scheduler.Resume | src/themeManager.ts:130-133 | afterwards `isPaused` is false; timers, handle and timestamp are untouched |
| Scheduler.Fire | src/themeManager.ts:113 | a live timer's firing runs the gate check; a cleared timer's firing changes nothing; timers are untouched |
| Scheduler.Apply | src/themeManager.ts:100-137 | every call keeps the one-timer invariant and the theme list |
| Scheduler.Run | src/themeManager.ts:100-137 | a sequence of calls never changes the theme list |
| Scheduler.RunKeepsOneTimer | src/themeManager.ts:100-123 | over any sequence of calls at most one timer is live, and one is live exactly when the handle is set |
| Scheduler.StartTwiceArmsOneTimer | src/themeManager.ts:109-113 | two `start` calls in a row leave exactly the second call's timer live |
| Scheduler.StopHaltsTicks | src/themeManager.ts:118-123 | after `stop` no timer firing changes anything |
| Scheduler.StopBeforeStart | src/themeManager.ts:118-122 | `stop` on a never-started manager changes nothing |
| Scheduler.PauseThenResume | src/themeManager.ts:125-137 | `pause` sets the flag, `resume` clears it, and a pause followed by a resume is the same as a resume alone |
| Scheduler.PausedTicksDoNothing | src/themeManager.ts:90-113 | while paused, timer firings change neither the theme nor the persisted state |

## Left out

- `getAllThemes` and `getCurrentTheme` (src/themeManager.ts:13-36): they read the extension registry and the configuration, so their results are the `Workbench` value passed in.
- `setInterval`, `clearInterval`, `Date.now()` and the passage of time: timers are ids in a map, and `now` is a parameter of each call.
- Gate.CheckAndSwitch: the switch it triggers stamps the same `now` as the gate. In the source, `Date.now()` at line 59 is read after an awaited configuration write, so it can be slightly later.
- Asynchrony: `switchToNextTheme` is fired without `await`, and the memento updates are not awaited. This means ticks can overlap. The model treats every call as completing synchronously, in order.
- The color theme is one value: `switchToNextTheme` writes it to the global configuration target (src/themeManager.ts:53-56) and `getCurrentTheme` reads the effective value (src/themeManager.ts:31-33). The model assumes no workspace or folder setting overrides the global one, so a written theme is read back. With such an override every switch reads the same current theme and the rotation stalls.
- Write failures: a rejected configuration or memento write is not modelled. Every write succeeds.
- Floating point: line 76 divides in IEEE doubles. The model divides exactly in `real` and assumes whole-number configuration values. Rounding near the threshold and fractional settings are not modelled.
- Type confusion in the memento: a key holding a value of the wrong type is not modelled. Each key has its own typed slot.
- `console.log` output and `showInformationMessage` notifications.
- src/extension.ts, which registers the commands and wires up activation. The manual switch command appears only as the `SwitchNow` event.
