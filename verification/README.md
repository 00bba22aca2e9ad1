# EyeRestReminder reminder timer, in Dafny

EyeRestReminder is a Windows tray utility that reminds its user to rest their eyes after a
stretch of active (non-idle) time. Its decision logic lives in `EyeRestApp` in `main.py`: a
polling loop reads how long the user has been idle and compares that with the idle
threshold. It then either restarts the active stretch or measures it against the work
interval, fires a reminder once the interval is reached, and writes a `MM:SS` countdown into
the tray icon's tooltip. Two settings (work interval and idle threshold, both in seconds)
come from a JSON file and are changed from radio items in the tray menu.

This project models that logic as pure functions over an immutable state and proves what
the code promises about it:

- `wrappers.dfy`: `Option`.
- `time_format.dfy` (module `TimeFormat`): `_format_time`. This covers truncation toward
  zero, floor `divmod` by 60 and Python's `02d` padding, which writes negative numbers as
  `-1`. It also holds a parser that reads the clock back.
- `settings.dfy` (module `Settings`): the settings file as a `map<string, int>`, with
  `load_settings`, `save_settings` and the constructor defaults.
- `timer.dfy` (module `Timer`): the app state `App`, one loop iteration `Tick`, the two
  setters, the constructor, icon attachment and `stop`.
- `trace.dfy` (module `Trace`): a run as a sequence of loop iterations and menu actions,
  with the spacing property of reminders.
- `tray_menu.dfy` (module `TrayMenu`): the radio items' check marks.

Clock readings and idle durations are exact real numbers of seconds. Float rounding is not
modelled, but the `int(...)` truncation in `_format_time` is. A tick takes two clock readings,
as the code does: `now` (line 238, or 251 when idle) and `after` (line 248, taken after the
notification has been sent).

Unlike `set_work_interval`, `set_idle_threshold` (main.py:158-161) does not touch
`last_activity_time`. So `Timer.SetIdleThreshold` keeps `lastActivity`, and
`Timer.SetIdleThresholdKeepsProgress` proves that the active time gathered so far survives
the change.

## Model

| member | source | states |
|---|---|---|
| TimeFormat.Truncate | main.py:228 | `int(x)` lands on the integer at most one unit from `x` toward zero, with the sign of `x` |
| TimeFormat.Pad2 | main.py:229 | the `02d` field has at least two characters; a non-negative number reads back as itself, exactly two characters below 100, with no leading zero from 10 up; a negative one is a minus sign followed by its magnitude's digits with no leading zero, so -1 gives `-1` |
| TimeFormat.FormatClock | main.py:228-229 | a clock has at least five characters with the colon third from the end, and exactly five (`MM:SS`) for 0 to 5999 seconds |
| TimeFormat.FormatTime | main.py:226-229 | the clock, read back, gives the truncated number of seconds |
| TimeFormat.ParseClockOfFormatClock | main.py:228-229 | every integer, negative ones included, is read back from its clock, so the floor `divmod` loses nothing |
| TimeFormat.FormatClockInjective | main.py:226-229 | two different second counts never show the same clock |
| TimeFormat.FormatClockFields | main.py:228-229 | for `s >= 0` the clock's minute field has two or more digits, its second field exactly two, `M*60 + S = s` and `S < 60` |
| TimeFormat.FormatClockSign | main.py:228-229 | the clock starts with `-` exactly when the count is negative |
| TimeFormat.FormatClockNegativeExample | main.py:228-229 | three seconds below zero shows as `-1:57`: minute -1 unpadded, second 57 |
| TimeFormat.FormatTimeNearZero | main.py:226-229 | anything strictly between -1 and 1 second shows as `00:00` |
| Settings.Lookup | main.py:125-130 | `dict.get`: the stored value when the key is present, the default otherwise |
| Settings.Load | main.py:119-135 | a missing or unreadable file keeps both settings; in a readable file each present key overrides its setting and each absent key keeps the current value |
| Settings.Save | main.py:137-150 | the file holds exactly the two keys, with the current values |
| Settings.SaveLoadRoundTrip | main.py:125-147 | loading a saved file gives back the saved settings, whatever was loaded over |
| Settings.LoadIdempotent | main.py:119-130 | loading the same file a second time changes nothing |
| Settings.LoadWithoutKeys | main.py:125-130 | a file with neither key leaves the settings as they were |
| Settings.StartupDefaults | main.py:112-114 | on start-up a missing key yields 1200 s of work or 300 s of idleness |
| Settings.SaveLoadExample | main.py:142-147 | saving 900 and 120 and loading yields 900 and 120 |
| Timer.UpdateTitle | main.py:256-257 | the de-duplicating write leaves an existing icon showing the tooltip and a missing icon missing |
| Timer.Tick | main.py:233-257 | a tick keeps both settings and the loop flag. It fires exactly when the user is active and the elapsed time reaches the work interval. An idle tick restarts the stretch at the tick's time. A firing tick restarts it at the clock read after the reminder. A quiet active tick keeps it. The icon, when there is one, shows the tick's tooltip |
| Timer.TickAsWritten | main.py:209-248 | with the unguarded reminder call, an iteration crashes exactly when it fires and the call raises, leaving the state as it was; otherwise it is `Tick` |
| Timer.UnguardedReminderEndsLoop | main.py:209-248 | a raising reminder call ends the loop with its flag still up and the stretch not restarted, where the contained iteration restarts the stretch |
| Timer.TickTooltipRevealsIdle | main.py:242-252 | the tooltip is the idle text exactly when the user was idle |
| Timer.ActiveTooltipReadsBack | main.py:243-244 | the countdown read back from an active tooltip is the truncated remaining time |
| Timer.TickTooltipShowsRemaining | main.py:241-248 | an active tooltip shows the remaining time truncated to whole seconds: zero or less on a firing tick, zero or more otherwise |
| Timer.IdleTooltipShowsNoClock | main.py:252 | the idle tooltip carries no countdown |
| Timer.IdleTickDiscardsElapsed | main.py:249-252 | after an idle tick, elapsed time is measured from that tick whatever the earlier stretch was |
| Timer.SetWorkInterval | main.py:152-156 | the interval becomes `minutes*60`, the stretch restarts at the change time, the threshold is kept; the saved file is the full two-key file of the new settings and loads back to them over any settings, the start-up defaults included |
| Timer.SetIdleThreshold | main.py:158-161 | the threshold becomes `minutes*60`; interval and stretch start are kept; the saved file is the full two-key file of the new settings and loads back to them over any settings, the start-up defaults included |
| Timer.SetWorkIntervalRestarts | main.py:152-156 | after a new interval is chosen, no reminder fires until the whole new interval has passed |
| Timer.SetIdleThresholdKeepsProgress | main.py:158-161 | a tick that is active under both thresholds decides, resets and displays the same with or without the threshold change |
| Timer.NewApp | main.py:110-116 | a new app is running, has no icon, starts its stretch at the start-up time, and takes each setting from the file or else from the default (1200 s, 300 s) |
| Timer.AttachIcon | main.py:339-340 | the attached icon starts with the default tooltip; the timer is unchanged |
| Timer.Stop | main.py:262-264 | stopping lowers the loop flag and changes nothing else |
| Trace.Run | main.py:231-260 | a run fires at most one reminder per loop iteration, never restarts a stopped loop, and does nothing once stopped |
| Trace.RunKeepsActivityOrder | main.py:236-252 | with a clock that never runs backwards, the start of the active stretch never moves backwards |
| Trace.FiresAreSpaced | main.py:236-248 | with a clock that never runs backwards, each reminder comes at least its work interval after the start of the run or the previous reminder |
| Trace.NoFireAfterExit | main.py:262-264 | after "exit" no reminder fires |
| Trace.DefaultScheduleExample | main.py:236-252 | with defaults: nothing at 1199 s, a reminder at 1200 s, and after 310 s idle the count starts from zero |
| TrayMenu.CheckMarks | main.py:309-327 | item `i` of a submenu is checked exactly when the stored value equals `options[i]*60`, and a submenu of distinct options shows at most one check mark |
| TrayMenu.AtMostOneChecked | main.py:313-323 | in a submenu of distinct options, two checked items are the same item |
| TrayMenu.OptionsDistinct | main.py:281-282 | both option lists hold distinct values |
| TrayMenu.ChoosingWorkChecksIt | main.py:309-317 | choosing a work item checks it and no other |
| TrayMenu.ChoosingIdleChecksIt | main.py:319-327 | choosing an idle item checks it and no other |
| TrayMenu.DefaultsChecked | main.py:281-282 | with the defaults, "20 minutes" and "5 minutes" are checked |
| TrayMenu.OffMenuValueChecksNothing | main.py:313-323 | a stored value that is not a whole number of minutes checks no item |

## Left out

- `get_idle_duration` (main.py:39-45) calls the Win32 `GetLastInputInfo`/`GetTickCount` functions. The idle duration is a parameter of `Timer.Tick`, and the 32-bit tick-count wrap-around is not modelled.
- `time.time()` becomes the `now`/`after` parameters. Timestamps are exact reals, so float rounding is not modelled. A clock that never runs backwards is a hypothesis of the trace lemmas, not something the model guarantees.
- Notifications and sound (main.py:163-224), including `plyer`, `playsound`, `random.choice` and `time.sleep`, are calls into other libraries. Only the "fired" flag of a tick is kept. The welcome notification's minute count is left out too.
- Autostart registry handling (main.py:48-105) and `resource_path` (main.py:272-275) are registry and filesystem plumbing.
- File and JSON I/O, `os.makedirs` and the caught exceptions are not modelled. A missing or unreadable file, or one that is not valid JSON, is the `None` case of `Settings.Load`. A failed save is not modelled.
- Settings.Load: values are modelled as integers. Three cases are not modelled: a file that is not valid UTF-8, a JSON file whose top level is not an object, and values that are not integers. In the first two the constructor raises an error that main.py:132 does not catch (`UnicodeDecodeError`, `AttributeError`). In the third a non-integer is carried into the loop.
- Threading is reduced to an interleaving of whole events in `Trace.Run`. The 5-second sleep, `stop()`'s one-second grace period and `icon.stop()`, and the rest of the pystray menu construction (main.py:278-341) are left out.
- Timer.Tick: assumes the reminder call returns. In the code, an exception from `notification.notify` (main.py:213) is not caught and ends `main_loop`. `Timer.TickAsWritten` models that path (see Findings).

## Findings

| source | as written | input that shows it | evidently intended | confidence | as-written member | corrected member |
|---|---|---|---|---|---|---|
| main.py:209-219 | `send_notification` calls `notification.notify` without a `try`, and `main_loop` does not guard the call at line 247. An exception there ends the worker thread: the stretch is not restarted, the title is not written, and no later reminder fires. | a firing tick (active, elapsed time at least the work interval) on which the notification library raises | contain the failure and carry on, as the welcome notification (main.py:167-180) and the sound (main.py:184-207) already do | medium, not executed | Timer.TickAsWritten, Timer.UnguardedReminderEndsLoop | Timer.Tick |
