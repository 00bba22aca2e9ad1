/** A run of the app as one sequence of events: loop iterations of `main_loop` interleaved
    with the menu actions that reach the timer from the tray thread (main.py:152-161,
    233-268, 288-307). Each event is applied whole. */
module Trace {
  import opened Wrappers
  import opened Timer

  datatype Event =
    | Poll(idle: real, now: real, after: real)  // one `main_loop` iteration
    | ChooseWork(minutes: int, at: real)        // a "work interval" menu item
    | ChooseIdle(minutes: int)                  // an "idle threshold" menu item
    | ShowIcon                                  // `setup_tray` attaching the icon
    | Exit                                      // the "exit" menu item

  /** A reminder: the time of the tick that sent it and the work interval then in force. */
  datatype Fire = Fire(at: real, interval: int)

  function CountPolls(events: seq<Event>): nat {
    if events == [] then 0 else (if events[0].Poll? then 1 else 0) + CountPolls(events[1..])
  }

  /** Applies the events in order. Once the loop flag is down the loop has exited and the
      tray has been taken down, so nothing further happens. */
  function Run(app: App, events: seq<Event>): (r: (App, seq<Fire>))
    ensures |r.1| <= CountPolls(events)
    ensures r.0.running ==> app.running
    ensures !app.running ==> r == (app, [])
    decreases |events|
  {
    if events == [] || !app.running then (app, [])
    else
      var rest := events[1..];
      match events[0]
      case Poll(idle, now, after) =>
        var t := Tick(app, idle, now, after);
        var r := Run(t.app, rest);
        (r.0, if t.fired then [Fire(now, app.config.workInterval)] + r.1 else r.1)
      case ChooseWork(minutes, at) => Run(SetWorkInterval(app, minutes, at).0, rest)
      case ChooseIdle(minutes) => Run(SetIdleThreshold(app, minutes).0, rest)
      case ShowIcon => Run(AttachIcon(app), rest)
      case Exit => Run(Stop(app), rest)
  }

  /** The clock never runs backwards: every reading is at least `clock` and at least the
      readings before it, and within one tick the second reading follows the first. */
  ghost predicate MonotoneFrom(clock: real, events: seq<Event>)
    decreases |events|
  {
    if events == [] then true
    else
      var rest := events[1..];
      match events[0]
      case Poll(_, now, after) => clock <= now <= after && MonotoneFrom(after, rest)
      case ChooseWork(_, at) => clock <= at && MonotoneFrom(at, rest)
      case ChooseIdle(_) => MonotoneFrom(clock, rest)
      case ShowIcon => MonotoneFrom(clock, rest)
      case Exit => MonotoneFrom(clock, rest)
  }

  /** Each reminder comes at least its work interval after `start` or the reminder before. */
  ghost predicate Spaced(start: real, fires: seq<Fire>)
    decreases |fires|
  {
    fires == [] || (fires[0].at - start >= fires[0].interval as real && Spaced(fires[0].at, fires[1..]))
  }

  lemma {:induction false} SpacedFromEarlier(start: real, earlier: real, fires: seq<Fire>)
    requires earlier <= start && Spaced(start, fires)
    ensures Spaced(earlier, fires)
  {
  }

  /** The active stretch never starts later than the clock, and never moves backwards. */
  lemma {:induction false} RunKeepsActivityOrder(app: App, clock: real, events: seq<Event>)
    requires app.lastActivity <= clock && MonotoneFrom(clock, events)
    ensures app.lastActivity <= Run(app, events).0.lastActivity
    decreases |events|
  {
    if events != [] && app.running {
      var rest := events[1..];
      match events[0]
      case Poll(idle, now, after) => RunKeepsActivityOrder(Tick(app, idle, now, after).app, after, rest);
      case ChooseWork(minutes, at) => RunKeepsActivityOrder(SetWorkInterval(app, minutes, at).0, at, rest);
      case ChooseIdle(minutes) => RunKeepsActivityOrder(SetIdleThreshold(app, minutes).0, clock, rest);
      case ShowIcon => RunKeepsActivityOrder(AttachIcon(app), clock, rest);
      case Exit => RunKeepsActivityOrder(Stop(app), clock, rest);
    }
  }

  /** With a clock that never runs backwards, a reminder never comes sooner than its work
      interval after the start of the run or after the previous reminder: no reminder fires
      before a full interval of active time, and one crossing fires one reminder. */
  lemma {:induction false} FiresAreSpaced(app: App, clock: real, events: seq<Event>)
    requires app.lastActivity <= clock && MonotoneFrom(clock, events)
    ensures Spaced(app.lastActivity, Run(app, events).1)
    decreases |events|
  {
    if events != [] && app.running {
      var rest := events[1..];
      match events[0]
      case Poll(idle, now, after) =>
        var t := Tick(app, idle, now, after);
        FiresAreSpaced(t.app, after, rest);
        var fires := Run(t.app, rest).1;
        if t.fired {
          SpacedFromEarlier(after, now, fires);
        } else {
          SpacedFromEarlier(t.app.lastActivity, app.lastActivity, fires);
        }
      case ChooseWork(minutes, at) =>
        var next := SetWorkInterval(app, minutes, at).0;
        FiresAreSpaced(next, at, rest);
        SpacedFromEarlier(at, app.lastActivity, Run(next, rest).1);
      case ChooseIdle(minutes) => FiresAreSpaced(SetIdleThreshold(app, minutes).0, clock, rest);
      case ShowIcon => FiresAreSpaced(AttachIcon(app), clock, rest);
      case Exit => FiresAreSpaced(Stop(app), clock, rest);
    }
  }

  /** After "exit" no reminder fires, whatever comes next. */
  lemma NoFireAfterExit(app: App, events: seq<Event>)
    ensures Run(app, [Exit] + events).1 == []
  {
    assert ([Exit] + events)[1..] == events;
  }

  /** The worked example, started at any time `t0`: with the default settings and the user
      active from `t0`, no reminder at 1199 s, one at 1200 s; 310 s of idleness then
      restarts the count, so an active tick 1199 s after the idle one fires nothing. */
  lemma DefaultScheduleExample(t0: real)
    ensures var app := NewApp(None, t0);
      Run(app, [Poll(0.0, t0 + 1199.0, t0 + 1199.0), Poll(0.0, t0 + 1200.0, t0 + 1200.0),
                Poll(310.0, t0 + 1510.0, t0 + 1510.0), Poll(0.0, t0 + 2709.0, t0 + 2709.0)]).1
      == [Fire(t0 + 1200.0, 1200)]
  {
    var app := NewApp(None, t0);
    var e := [Poll(0.0, t0 + 1199.0, t0 + 1199.0), Poll(0.0, t0 + 1200.0, t0 + 1200.0),
              Poll(310.0, t0 + 1510.0, t0 + 1510.0), Poll(0.0, t0 + 2709.0, t0 + 2709.0)];
    var t1 := Tick(app, 0.0, t0 + 1199.0, t0 + 1199.0);
    var t2 := Tick(t1.app, 0.0, t0 + 1200.0, t0 + 1200.0);
    var t3 := Tick(t2.app, 310.0, t0 + 1510.0, t0 + 1510.0);
    var t4 := Tick(t3.app, 0.0, t0 + 2709.0, t0 + 2709.0);
    assert !t1.fired && t1.app.lastActivity == t0;
    assert t2.fired && t2.app.lastActivity == t0 + 1200.0;
    assert !t3.fired && t3.app.lastActivity == t0 + 1510.0;
    assert !t4.fired;
    assert Run(t3.app, e[3..]).1 == [] by {
      assert e[3..][1..] == [];
    }
    assert Run(t2.app, e[2..]).1 == [] by {
      assert e[2..][1..] == e[3..];
    }
    assert Run(t1.app, e[1..]).1 == [Fire(t0 + 1200.0, 1200)] by {
      assert e[1..][1..] == e[2..];
    }
  }
}
