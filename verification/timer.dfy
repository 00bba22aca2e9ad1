/** The reminder timer of `EyeRestApp` (main.py:109-161, 231-268): one iteration of
    `main_loop` as a pure step, the two configuration setters and the start-up state.
    Clock readings and the idle duration are exact real numbers of seconds. */
module Timer {
  import opened Wrappers
  import opened Settings
  import TimeFormat

  const DefaultTooltip: string := "Напоминание об отдыхе"
  /** Written before the clock while the user is active. */
  const RemainingLabel: string := "\nДо отдыха: "
  /** Written while the user is away. */
  const AsleepLabel: string := "\nЗаснул..."

  const IdleTooltip: string := DefaultTooltip + AsleepLabel

  /** The app's mutable fields: the two settings, the start of the current active stretch
      (`last_activity_time`), the loop flag and the tray icon's title, `None` while the
      icon has not been created yet. */
  datatype App = App(config: Config, lastActivity: real, running: bool, iconTitle: Option<string>)

  /** What one loop iteration produced: the new state, whether a reminder fired and the
      tooltip it computed. */
  datatype TickResult = TickResult(app: App, fired: bool, tooltip: string)

  /** The user counts as active while the idle duration is below the threshold. */
  predicate Active(app: App, idle: real) {
    idle < app.config.idleThreshold as real
  }

  /** Seconds since the current active stretch began. */
  function Elapsed(app: App, now: real): real {
    now - app.lastActivity
  }

  function ActiveTooltip(remaining: real): string {
    DefaultTooltip + RemainingLabel + TimeFormat.FormatTime(remaining)
  }

  /** The remaining time a tooltip displays, read back; `None` for the idle tooltip and
      anything else that does not end in a clock after the label. */
  function ShownRemaining(tooltip: string): Option<int> {
    var prefix := DefaultTooltip + RemainingLabel;
    if |prefix| <= |tooltip| && tooltip[..|prefix|] == prefix
    then TimeFormat.ParseClock(tooltip[|prefix|..])
    else None
  }

  /** Writes the tooltip to an existing icon only when it differs from the title there. The
      comparison only skips a redundant write, so an existing icon always ends up showing
      the tooltip and a missing icon stays missing. */
  function UpdateTitle(icon: Option<string>, tooltip: string): (r: Option<string>)
    ensures r.Some? <==> icon.Some?
    ensures r.Some? ==> r.value == tooltip
  {
    if icon.Some? && icon.value != tooltip then Some(tooltip) else icon
  }

  /** One iteration of `main_loop`. `idle` is the idle duration the platform reported, `now`
      the clock read at line 238 (or 251 when idle) and `after` the clock read at line 248,
      once the reminder has been sent. */
  function Tick(app: App, idle: real, now: real, after: real): (r: TickResult)
    ensures r.app.config == app.config && r.app.running == app.running
    ensures r.app.iconTitle == (if app.iconTitle.Some? then Some(r.tooltip) else None)
    ensures r.fired <==> Active(app, idle) && Elapsed(app, now) >= app.config.workInterval as real
    ensures !Active(app, idle) ==> r.app.lastActivity == now
    ensures r.fired ==> r.app.lastActivity == after
    ensures Active(app, idle) && !r.fired ==> r.app.lastActivity == app.lastActivity
  {
    if Active(app, idle) then
      var elapsed := Elapsed(app, now);
      var tooltip := ActiveTooltip(app.config.workInterval as real - elapsed);
      var fire := elapsed >= app.config.workInterval as real;
      var last := if fire then after else app.lastActivity;
      TickResult(app.(lastActivity := last, iconTitle := UpdateTitle(app.iconTitle, tooltip)), fire, tooltip)
    else
      TickResult(app.(lastActivity := now, iconTitle := UpdateTitle(app.iconTitle, IdleTooltip)), false, IdleTooltip)
  }

  /** How one loop iteration of the code as written ends: either it completes, or the
      reminder call raises. In that case the exception leaves `main_loop` and ends the
      worker thread, with the state as it was before the reminder. */
  datatype LoopStep = Completed(result: TickResult) | Crashed(app: App)

  /** One loop iteration as written, where the reminder call is not guarded. `notifyRaises`
      says whether the notification library raised. `Tick` is the same iteration with that
      failure contained, as the welcome notification and the sound already are. */
  function TickAsWritten(app: App, idle: real, now: real, after: real, notifyRaises: bool): (s: LoopStep)
    ensures s.Crashed? <==> notifyRaises && Tick(app, idle, now, after).fired
    ensures s.Crashed? ==> s.app == app
    ensures s.Completed? ==> s.result == Tick(app, idle, now, after)
  {
    if Active(app, idle) && Elapsed(app, now) >= app.config.workInterval as real && notifyRaises
    then Crashed(app)
    else Completed(Tick(app, idle, now, after))
  }

  /** When the reminder call raises, the loop ends, although its flag still says it is
      running. The active stretch is not restarted and the title is not written, so no later
      reminder comes. The contained iteration restarts the stretch and goes on. */
  lemma UnguardedReminderEndsLoop(app: App, idle: real, now: real, after: real)
    requires app.running && Active(app, idle)
    requires Elapsed(app, now) >= app.config.workInterval as real
    requires app.lastActivity != after
    ensures var s := TickAsWritten(app, idle, now, after, true);
      s.Crashed? && s.app.running && s.app.lastActivity == app.lastActivity
    ensures var t := Tick(app, idle, now, after);
      t.fired && t.app.running && t.app.lastActivity == after != app.lastActivity
  {
  }

  /** The tooltip tells the two branches apart: it is the idle text exactly when the user
      was away. */
  lemma TickTooltipRevealsIdle(app: App, idle: real, now: real, after: real)
    ensures Tick(app, idle, now, after).tooltip == IdleTooltip <==> !Active(app, idle)
  {
    if Active(app, idle) {
      var t := Tick(app, idle, now, after).tooltip;
      var k := |DefaultTooltip| + 1;
      assert t[k] == RemainingLabel[1];
      assert IdleTooltip[k] == AsleepLabel[1];
    }
  }

  /** An active tooltip reads back as the truncated remaining time it was built from. */
  lemma ActiveTooltipReadsBack(remaining: real)
    ensures ShownRemaining(ActiveTooltip(remaining)) == Some(TimeFormat.Truncate(remaining))
  {
    var prefix := DefaultTooltip + RemainingLabel;
    var clock := TimeFormat.FormatTime(remaining);
    var t := prefix + clock;
    assert ActiveTooltip(remaining) == t;
    assert t[..|prefix|] == prefix;
    assert t[|prefix|..] == clock;
  }

  /** While active, the tooltip shows the remaining time truncated to whole seconds. It is
      computed before the reminder decision, so a firing tick shows zero or a negative
      clock, and any other active tick shows zero or more. */
  lemma TickTooltipShowsRemaining(app: App, idle: real, now: real, after: real)
    requires Active(app, idle)
    ensures var r := Tick(app, idle, now, after);
      var remaining := app.config.workInterval as real - Elapsed(app, now);
      && ShownRemaining(r.tooltip) == Some(TimeFormat.Truncate(remaining))
      && (r.fired ==> ShownRemaining(r.tooltip).value <= 0)
      && (!r.fired ==> ShownRemaining(r.tooltip).value >= 0)
  {
    var remaining := app.config.workInterval as real - Elapsed(app, now);
    var r := Tick(app, idle, now, after);
    assert r.tooltip == ActiveTooltip(remaining);
    ActiveTooltipReadsBack(remaining);
  }

  /** The idle tooltip carries no clock. */
  lemma IdleTooltipShowsNoClock()
    ensures ShownRemaining(IdleTooltip) == None
  {
    assert |IdleTooltip| < |DefaultTooltip + RemainingLabel|;
  }

  /** An idle tick throws away all active time gathered so far: whatever the earlier
      stretch, the next tick measures from the idle tick's time. */
  lemma IdleTickDiscardsElapsed(app: App, other: App, idle: real, now: real, after: real, later: real)
    requires !Active(app, idle)
    requires other.config == app.config
    requires !Active(other, idle)
    ensures Elapsed(Tick(app, idle, now, after).app, later) == Elapsed(Tick(other, idle, now, after).app, later) == later - now
  {
  }

  /** `set_work_interval`: the new interval in seconds and a restarted active stretch; the
      returned map is what `save_settings` writes. */
  function SetWorkInterval(app: App, minutes: int, now: real): (r: (App, SettingsFile))
    ensures r.0.config.workInterval == minutes * 60
    ensures r.0.config.idleThreshold == app.config.idleThreshold
    ensures r.0.lastActivity == now
    ensures r.0.running == app.running && r.0.iconTitle == app.iconTitle
    ensures r.1 == Save(r.0.config)
    ensures forall before: Config :: Load(before, Some(r.1)) == r.0.config
  {
    var next := app.(config := app.config.(workInterval := minutes * 60), lastActivity := now);
    SaveLoadRoundTrip(next.config, app.config);
    (next, Save(next.config))
  }

  /** `set_idle_threshold`: only the threshold changes. Unlike `set_work_interval` it does
      not restart the active stretch. */
  function SetIdleThreshold(app: App, minutes: int): (r: (App, SettingsFile))
    ensures r.0.config.idleThreshold == minutes * 60
    ensures r.0.config.workInterval == app.config.workInterval
    ensures r.0.lastActivity == app.lastActivity
    ensures r.0.running == app.running && r.0.iconTitle == app.iconTitle
    ensures r.1 == Save(r.0.config)
    ensures forall before: Config :: Load(before, Some(r.1)) == r.0.config
  {
    var next := app.(config := app.config.(idleThreshold := minutes * 60));
    SaveLoadRoundTrip(next.config, app.config);
    (next, Save(next.config))
  }

  /** After a new work interval is chosen, no reminder fires until the whole new interval
      has passed, however long the user had already been active. */
  lemma SetWorkIntervalRestarts(app: App, minutes: int, at: real, idle: real, now: real, after: real)
    requires now - at < (minutes * 60) as real
    ensures !Tick(SetWorkInterval(app, minutes, at).0, idle, now, after).fired
  {
  }

  /** Changing the idle threshold keeps the active time gathered so far: a following tick
      that counts as active under both thresholds makes the same decision and shows the
      same tooltip as it would have without the change. */
  lemma SetIdleThresholdKeepsProgress(app: App, minutes: int, idle: real, now: real, after: real)
    requires Active(app, idle) && idle < (minutes * 60) as real
    ensures var changed := Tick(SetIdleThreshold(app, minutes).0, idle, now, after);
      var original := Tick(app, idle, now, after);
      changed.fired == original.fired && changed.tooltip == original.tooltip
      && changed.app.lastActivity == original.app.lastActivity
  {
  }

  /** The constructor: defaults, overridden by the settings file, then the clock reading
      at start-up; the tray icon is attached later. */
  function NewApp(file: Option<SettingsFile>, now: real): (a: App)
    ensures a.running && a.lastActivity == now && a.iconTitle == None
    ensures file.None? ==> a.config == Defaults
    ensures file.Some? ==> a.config.workInterval == (if WorkKey in file.value then file.value[WorkKey] else 1200)
    ensures file.Some? ==> a.config.idleThreshold == (if IdleKey in file.value then file.value[IdleKey] else 300)
  {
    App(Load(Defaults, file), now, true, None)
  }

  /** `setup_tray` hands the app its icon, whose title starts as the default tooltip. */
  function AttachIcon(app: App): (a: App)
    ensures a.iconTitle == Some(DefaultTooltip)
    ensures a.config == app.config && a.lastActivity == app.lastActivity && a.running == app.running
  {
    app.(iconTitle := Some(DefaultTooltip))
  }

  /** `stop` clears the loop flag; nothing else about the timer changes. */
  function Stop(app: App): (a: App)
    ensures !a.running
    ensures a.config == app.config && a.lastActivity == app.lastActivity && a.iconTitle == app.iconTitle
  {
    app.(running := false)
  }
}
