/** The poller of `ThemeManager`: `start` and `stop` arm and disarm the
    recurring timer that runs the gate check, `pause` and `resume` write the
    persisted pause flag that `isPaused` reads back. */
module Scheduler {
  import opened Wrappers
  import opened Environment
  import opened Rotation
  import opened Gate

  /** Milliseconds in a minute, the unit of the poll interval. */
  const MsPerMinute: int := 60 * 1000

  /** The poll interval a fresh manager holds before `start`: ten minutes. */
  const InitialPollIntervalMs: int := 10 * MsPerMinute

  /** The manager and the host timers it owns. `timers` maps the id of every
      recurring timer live in the host to its period; `handle` is the
      `intervalHandle` field; `nextId` is the id the host's next
      `setInterval` returns; `state` is the persisted global state. */
  datatype Manager = Manager(
    handle: Option<nat>,
    timers: map<nat, int>,
    nextId: nat,
    pollIntervalMs: int,
    state: GlobalState)

  /** The largest delay the host's `setInterval` honours: a signed 32-bit
      millisecond count. */
  const MaxTimerDelayMs: int := 0x7FFF_FFFF

  /** The period the host actually uses for a requested `setInterval` delay:
      a delay below 1 ms or above `MaxTimerDelayMs` is replaced by 1 ms. */
  function TimerPeriod(delayMs: int): (p: int)
    ensures 1 <= p <= MaxTimerDelayMs
    ensures 1 <= delayMs <= MaxTimerDelayMs ==> p == delayMs
    ensures delayMs < 1 || delayMs > MaxTimerDelayMs ==> p == 1
  {
    if delayMs < 1 || delayMs > MaxTimerDelayMs then 1 else delayMs
  }

  /** The poller's invariant: with no handle no timer is live; with a handle
      exactly that timer is live, at the host's period for the current poll
      interval. */
  predicate Valid(m: Manager) {
    && (m.handle.None? ==> m.timers == map[])
    && (m.handle.Some? ==>
          m.handle.value < m.nextId && m.timers == map[m.handle.value := TimerPeriod(m.pollIntervalMs)])
  }

  /** A freshly constructed manager over the extension's persisted state. */
  function New(state: GlobalState): (m: Manager)
    ensures Valid(m)
    ensures m.handle.None? && m.timers == map[]
    ensures m.pollIntervalMs == InitialPollIntervalMs
  {
    Manager(None, map[], 0, InitialPollIntervalMs, state)
  }

  /** The poll period `start` arms: `pollIntervalMinutes`, default 20,
      clamped to at least one minute, in milliseconds. */
  function PollIntervalMs(cfg: Config): (ms: int)
    ensures ms >= MsPerMinute && ms % MsPerMinute == 0
    ensures cfg.pollIntervalMinutes.None? ==> ms == 20 * MsPerMinute
    ensures cfg.pollIntervalMinutes.Some? && cfg.pollIntervalMinutes.value <= 1 ==> ms == MsPerMinute
    ensures cfg.pollIntervalMinutes.Some? && cfg.pollIntervalMinutes.value >= 1 ==>
      ms == cfg.pollIntervalMinutes.value * MsPerMinute
  {
    Max(1, PollIntervalMinutes(cfg)) * MsPerMinute
  }

  /** `start` at time `now`: one immediate gate check, then the timer the
      handle names (if any) is cleared and a new one armed with the configured
      delay, so that exactly one timer is live afterwards. The host runs the
      new timer at `TimerPeriod` of that delay. */
  function Start(m: Manager, wb: Workbench, cfg: Config, now: int): (r: (Manager, Workbench))
    ensures r.0.handle == Some(m.nextId) && r.0.nextId == m.nextId + 1
    ensures r.0.pollIntervalMs == PollIntervalMs(cfg)
    ensures m.nextId in r.0.timers && r.0.timers[m.nextId] == TimerPeriod(PollIntervalMs(cfg))
    ensures PollIntervalMs(cfg) <= MaxTimerDelayMs ==> r.0.timers[m.nextId] == PollIntervalMs(cfg)
    ensures m.handle.Some? && m.handle.value != m.nextId ==> m.handle.value !in r.0.timers
    ensures Valid(m) ==> Valid(r.0) && r.0.timers == map[m.nextId := TimerPeriod(PollIntervalMs(cfg))]
    ensures
      var c := CheckAndSwitch(wb, m.state, cfg, now);
      r.0.state == c.state && r.1 == c.workbench
  {
    var pollMs := PollIntervalMs(cfg);
    var c := CheckAndSwitch(wb, m.state, cfg, now);
    var live := if m.handle.Some? then m.timers - {m.handle.value} else m.timers;
    var id := m.nextId;
    (Manager(Some(id), live[id := TimerPeriod(pollMs)], id + 1, pollMs, c.state), c.workbench)
  }

  /** `stop`: clears the timer the handle names and forgets the handle; with
      no handle it does nothing. */
  function Stop(m: Manager): (r: Manager)
    ensures r.handle.None?
    ensures r.state == m.state && r.pollIntervalMs == m.pollIntervalMs && r.nextId == m.nextId
    ensures m.handle.None? ==> r == m
    ensures m.handle.Some? ==> m.handle.value !in r.timers
    ensures Valid(m) ==> Valid(r) && r.timers == map[]
  {
    if m.handle.Some? then m.(handle := None, timers := m.timers - {m.handle.value}) else m
  }

  /** `isPaused`: the persisted flag, false when never written. */
  function IsPaused(m: Manager): (b: bool)
    ensures m.state.paused.None? ==> !b
    ensures b <==> m.state.paused == Some(true)
  {
    Paused(m.state)
  }

  /** `pause`: persists `paused = true`, leaving timers and the timestamp alone. */
  function Pause(m: Manager): (r: Manager)
    ensures IsPaused(r)
    ensures r == m.(state := r.state)
    ensures r.state.lastSwitchTimestamp == m.state.lastSwitchTimestamp
  {
    m.(state := m.state.(paused := Some(true)))
  }

  /** `resume`: persists `paused = false`, leaving timers and the timestamp alone. */
  function Resume(m: Manager): (r: Manager)
    ensures !IsPaused(r)
    ensures r == m.(state := r.state)
    ensures r.state.lastSwitchTimestamp == m.state.lastSwitchTimestamp
  {
    m.(state := m.state.(paused := Some(false)))
  }

  /** One firing of host timer `id` at time `now`: a live timer runs the gate
      check, a cleared one never fires. Timers are left as they are. */
  function Fire(m: Manager, id: nat, wb: Workbench, cfg: Config, now: int): (r: (Manager, Workbench))
    ensures r.0 == m.(state := r.0.state)
    ensures id !in m.timers ==> r == (m, wb)
    ensures id in m.timers ==>
      var c := CheckAndSwitch(wb, m.state, cfg, now);
      r.0.state == c.state && r.1 == c.workbench
  {
    if id in m.timers then
      var c := CheckAndSwitch(wb, m.state, cfg, now);
      (m.(state := c.state), c.workbench)
    else (m, wb)
  }

  /** The calls a manager receives over its lifetime. `SwitchNow` is a direct
      call of `switchToNextTheme`. */
  datatype Event =
    | StartCall(cfg: Config, now: int)
    | StopCall
    | PauseCall
    | ResumeCall
    | TimerFires(id: nat, cfg: Config, now: int)
    | SwitchNow(now: int)

  /** The effect of one event. */
  function Apply(m: Manager, wb: Workbench, e: Event): (r: (Manager, Workbench))
    ensures r.1.themes == wb.themes
    ensures Valid(m) ==> Valid(r.0)
  {
    match e
    case StartCall(cfg, now) => Start(m, wb, cfg, now)
    case StopCall => (Stop(m), wb)
    case PauseCall => (Pause(m), wb)
    case ResumeCall => (Resume(m), wb)
    case TimerFires(id, cfg, now) => Fire(m, id, wb, cfg, now)
    case SwitchNow(now) =>
      var (wb', g') := SwitchToNextTheme(wb, m.state, now);
      (m.(state := g'), wb')
  }

  /** The effect of a sequence of events, in order. */
  function Run(m: Manager, wb: Workbench, es: seq<Event>): (r: (Manager, Workbench))
    ensures r.1.themes == wb.themes
    decreases |es|
  {
    if |es| == 0 then (m, wb)
    else
      var (m', wb') := Apply(m, wb, es[0]);
      Run(m', wb', es[1..])
  }

  /** Whatever calls a manager receives, at most one timer is ever live, and
      one is live exactly when the handle is set. */
  lemma {:induction false} RunKeepsOneTimer(m: Manager, wb: Workbench, es: seq<Event>)
    requires Valid(m)
    ensures Valid(Run(m, wb, es).0)
    ensures |Run(m, wb, es).0.timers| <= 1
    ensures |Run(m, wb, es).0.timers| == 1 <==> Run(m, wb, es).0.handle.Some?
    decreases |es|
  {
    if |es| > 0 {
      var (m', wb') := Apply(m, wb, es[0]);
      RunKeepsOneTimer(m', wb', es[1..]);
    }
  }

  /** Calling `start` twice in a row leaves exactly one timer live: the one
      armed by the second call. */
  lemma StartTwiceArmsOneTimer(m: Manager, wb: Workbench, cfg1: Config, now1: int, cfg2: Config, now2: int)
    requires Valid(m)
    ensures
      var (m1, wb1) := Start(m, wb, cfg1, now1);
      var (m2, _) := Start(m1, wb1, cfg2, now2);
      m2.timers == map[m.nextId + 1 := TimerPeriod(PollIntervalMs(cfg2))] && m.nextId !in m2.timers
  {
  }

  /** After `stop` no timer fires: every firing leaves manager and workbench
      unchanged, whatever the time. */
  lemma StopHaltsTicks(m: Manager, id: nat, wb: Workbench, cfg: Config, now: int)
    requires Valid(m)
    ensures Fire(Stop(m), id, wb, cfg, now) == (Stop(m), wb)
  {
  }

  /** `stop` on a manager that was never started is harmless. */
  lemma StopBeforeStart(g: GlobalState)
    ensures Stop(New(g)) == New(g)
  {
  }

  /** `pause` then `resume` clears the flag again and changes nothing else
      that was there before a pause. */
  lemma PauseThenResume(m: Manager)
    ensures IsPaused(Pause(m))
    ensures !IsPaused(Resume(Pause(m)))
    ensures Resume(Pause(m)) == Resume(m)
  {
  }

  /** While paused, the live timer's firings leave the theme and the
      persisted state untouched. */
  lemma PausedTicksDoNothing(m: Manager, id: nat, wb: Workbench, cfg: Config, now: int)
    ensures Fire(Pause(m), id, wb, cfg, now) == (Pause(m), wb)
  {
  }

  /** A poll interval longer than the host's largest delay (35 792 minutes or
      more) makes the armed timer fire every millisecond. */
  lemma OversizedPollIntervalFiresEveryMillisecond(m: Manager, wb: Workbench, cfg: Config, now: int)
    requires cfg.pollIntervalMinutes.Some? && cfg.pollIntervalMinutes.value >= 35792
    ensures Start(m, wb, cfg, now).0.timers[m.nextId] == 1
  {
  }
}
