/**
 The scheduler: window, curve and day/night evaluation of `evaluator.py`, and the change-only dispatch of `loop.py`.

 Times are minutes since midnight. The schema of the configuration lets a clock text run up to 29:59, so configured
 minutes run up to 1799; the current time stays below 1440.
 */
module Scheduler {
  import opened Wrappers

  const MINUTES_A_DAY: nat := 1440

  type Minute = m: nat | m < 1800
  type TimeOfDay = t: nat | t < 1440

  datatype Mode = Manual | Windows | Curve

  datatype Work = Charge | Discharge | Idle

  datatype Window = Window(start: Minute, end: Minute, action: Work, power: real)

  datatype DayNight = DayNight(dayStart: Minute, nightStart: Minute)

  type PowerCurve = s: seq<real> | |s| == 96 witness seq(96, _ => 0.0)

  datatype Config = Config(mode: Mode, windows: seq<Window>, curve: PowerCurve, dayNight: Option<DayNight>)

  datatype WindowResult = WindowResult(index: Option<nat>, action: Work, power: real)

  datatype Source = ManualSource | DaySource | NightSource

  datatype Command = Priority(source: Source) | Setpoint(power: real)

  // ----- Windows -----

  /** `_in_window` */
  predicate InWindow(now: TimeOfDay, start: Minute, end: Minute) {
    if start < end then start <= now < end else now >= start || now < end
  }

  /** The half-open interval from `start` to `end` on the clock face; one that ends where it starts is the whole day. */
  predicate OnClockFace(now: TimeOfDay, start: Minute, end: Minute) {
    var length := (end - start) % MINUTES_A_DAY;
    (now - start) % MINUTES_A_DAY < if length == 0 then MINUTES_A_DAY else length
  }

  /**
   `_in_window` is the interval on the clock face, at every time of day, exactly when both ends are on the clock, the
   end possibly as 24:00; past that only a start of 24:00 or a window of the whole day still works.
   */
  lemma WindowIffOnClock(start: Minute, end: Minute)
    ensures (forall now: TimeOfDay :: InWindow(now, start, end) <==> OnClockFace(now, start, end)) <==>
      || (start < 1440 && end <= 1440)
      || (start == 1440 && 0 < end <= 1440)
      || start == end
  {
    if (start < 1440 && end <= 1440) || (start == 1440 && 0 < end <= 1440) || start == end {
      forall now: TimeOfDay ensures InWindow(now, start, end) <==> OnClockFace(now, start, end) {
        WindowOnClock(now, start, end);
      }
    } else {
      var now: TimeOfDay := Misread(start, end);
      assert InWindow(now, start, end) != OnClockFace(now, start, end);
    }
  }

  lemma WindowOnClock(now: TimeOfDay, start: Minute, end: Minute)
    requires (start < 1440 && end <= 1440) || (start == 1440 && 0 < end <= 1440) || start == end
    ensures InWindow(now, start, end) <==> OnClockFace(now, start, end)
  {
  }

  /** A time of day at which a window off the clock is misread. */
  lemma Misread(start: Minute, end: Minute) returns (now: TimeOfDay)
    requires !((start < 1440 && end <= 1440) || (start == 1440 && 0 < end <= 1440) || start == end)
    ensures InWindow(now, start, end) != OnClockFace(now, start, end)
  {
    if start < 1440 {
      now := if end - start < 1440 then 0 else if end - start == 1440 then start - 1 else 1439;
    } else if start < end {
      now := start - 1440;
    } else if end > 1440 {
      now := end - 1440;
    } else if start == 1440 {
      now := 0;
    } else {
      now := if end > start - 1440 then 0 else start - 1440;
    }
  }

  function SignedPower(w: Window): real {
    match w.action
    case Charge => if w.power < 0.0 then w.power else -w.power
    case Discharge => if w.power < 0.0 then -w.power else w.power
    case Idle => 0.0
  }

  function MatchFrom(windows: seq<Window>, now: TimeOfDay, i: nat): WindowResult
    requires i <= |windows|
    decreases |windows| - i
  {
    if i == |windows| then WindowResult(None, Idle, 0.0)
    else if InWindow(now, windows[i].start, windows[i].end)
    then WindowResult(Some(i), windows[i].action, SignedPower(windows[i]))
    else MatchFrom(windows, now, i + 1)
  }

  /** The first window that holds decides, and idle when none does. */
  lemma {:induction false} FirstMatchWins(windows: seq<Window>, now: TimeOfDay, i: nat)
    requires i <= |windows|
    ensures
      var r := MatchFrom(windows, now, i);
      && (r.index == None <==> forall k :: i <= k < |windows| ==> !InWindow(now, windows[k].start, windows[k].end))
      && (r.index.Some? ==>
            var k := r.index.value;
            && i <= k < |windows| && InWindow(now, windows[k].start, windows[k].end)
            && r.action == windows[k].action && r.power == SignedPower(windows[k])
            && forall j :: i <= j < k ==> !InWindow(now, windows[j].start, windows[j].end))
      && (r.action == Charge ==> r.power <= 0.0) && (r.action == Discharge ==> r.power >= 0.0)
      && (r.action == Idle ==> r.power == 0.0)
      && (r.index.Some? && r.action != Idle ==>
            r.power == windows[r.index.value].power || r.power == -windows[r.index.value].power)
    decreases |windows| - i
  {
    if i < |windows| && !InWindow(now, windows[i].start, windows[i].end) {
      FirstMatchWins(windows, now, i + 1);
    }
  }

  /** `evaluate_time_of_day` */
  method EvaluateTimeOfDay(windows: seq<Window>, now: TimeOfDay) returns (r: WindowResult)
    ensures r == MatchFrom(windows, now, 0)
  {
    for i := 0 to |windows|
      invariant MatchFrom(windows, now, 0) == MatchFrom(windows, now, i)
    {
      if InWindow(now, windows[i].start, windows[i].end) {
        return WindowResult(Some(i), windows[i].action, SignedPower(windows[i]));
      }
    }
    return WindowResult(None, Idle, 0.0);
  }

  // ----- Curve, day and night -----

  /** `evaluate_curve`, from the hour and the minute. */
  function CurveIndex(now: TimeOfDay): nat {
    now / 60 * 4 + now % 60 / 15
  }

  /** The index is the quarter of an hour, and always on the curve. */
  lemma CurveIndexIsQuarterHour(now: TimeOfDay)
    ensures CurveIndex(now) < 96 && 15 * CurveIndex(now) <= now < 15 * (CurveIndex(now) + 1)
  {
  }

  function CurvePower(c: Config, now: TimeOfDay): real {
    CurveIndexIsQuarterHour(now);
    c.curve[CurveIndex(now)]
  }

  /** In curve mode the power is that of the quarter of an hour. */
  lemma CurvePowerIsOfQuarterHour(c: Config, now: TimeOfDay)
    ensures CurvePower(c, now) == c.curve[now / 15]
  {
    CurveIndexIsQuarterHour(now);
    assert CurveIndex(now) == now / 15;
  }

  /** `evaluate_day_night` */
  function Phase(now: TimeOfDay, d: DayNight): Source {
    if d.dayStart <= now < d.nightStart then DaySource else NightSource
  }

  /**
   Unlike a window, the day does not wrap: for every pair of times the schema admits, it is read off the clock face
   exactly when it starts before the night does and the night starts on the clock.
   */
  lemma DayWrapsNever(d: DayNight)
    ensures (forall now: TimeOfDay :: Phase(now, d) == DaySource <==> OnClockFace(now, d.dayStart, d.nightStart)) <==>
      d.dayStart < d.nightStart <= 1440
  {
    if d.dayStart < d.nightStart <= 1440 {
      forall now: TimeOfDay ensures Phase(now, d) == DaySource <==> OnClockFace(now, d.dayStart, d.nightStart) {
        WindowOnClock(now, d.dayStart, d.nightStart);
      }
    } else {
      var now := MisreadDay(d);
      assert (Phase(now, d) == DaySource) != OnClockFace(now, d.dayStart, d.nightStart);
    }
  }

  /** A time of day at which such a day is misread. */
  lemma MisreadDay(d: DayNight) returns (now: TimeOfDay)
    requires !(d.dayStart < d.nightStart <= 1440)
    ensures (Phase(now, d) == DaySource) != OnClockFace(now, d.dayStart, d.nightStart)
  {
    if d.dayStart < d.nightStart {
      now := Misread(d.dayStart, d.nightStart);
    } else {
      now := d.dayStart % MINUTES_A_DAY;
    }
  }

  // ----- The loop -----

  datatype State = State(config: Config, lastWindow: Option<WindowResult>, lastCurve: Option<nat>,
                         lastDayNight: Option<Source>, owns: bool, sent: seq<Command>)

  /** Everything forgotten, as at start and after a reload. */
  function Fresh(c: Config, sent: seq<Command>): State {
    State(c, None, None, None, false, sent)
  }

  function Send(s: State, command: Command): State {
    s.(sent := s.sent + [command])
  }

  /** The manual source is claimed once. */
  function Claim(s: State): State {
    if s.owns then s else Send(s, Priority(ManualSource)).(owns := true)
  }

  /** `_evaluate_time_of_day_tick` */
  function WindowTick(s: State, now: TimeOfDay): State {
    var r := MatchFrom(s.config.windows, now, 0);
    if s.lastWindow == Some(r) then s
    else Send(Claim(s.(lastWindow := Some(r))), Setpoint(r.power))
  }

  /** `_evaluate_curve_tick` */
  function CurveTick(s: State, now: TimeOfDay): State {
    if s.lastCurve == Some(CurveIndex(now)) then s
    else Send(Claim(s.(lastCurve := Some(CurveIndex(now)))), Setpoint(CurvePower(s.config, now)))
  }

  /** `_evaluate_day_night_tick` */
  function DayNightTick(s: State, now: TimeOfDay): State {
    if s.config.dayNight == None then s
    else
      var phase := Phase(now, s.config.dayNight.value);
      if s.lastDayNight == Some(phase) then s
      else (if s.owns then s else Send(s, Priority(phase))).(lastDayNight := Some(phase))
  }

  /** The branch that gives the source back to day and night. */
  predicate Restores(s: State) {
    s.config.mode == Manual && s.owns
  }

  function Restored(s: State, now: TimeOfDay): State
    requires s.config.dayNight.Some?
  {
    var phase := Phase(now, s.config.dayNight.value);
    Send(s, Priority(phase)).(lastDayNight := Some(phase), owns := false)
  }

  /** Without day and night times that branch raises. */
  predicate Raises(s: State) {
    Restores(s) && s.config.dayNight == None
  }

  /** `_evaluate_tick` */
  function Tick(s: State, now: TimeOfDay): State {
    if Raises(s) then s
    else
      var r := if Restores(s) then Restored(s, now) else s;
      var t :=
        match r.config.mode
        case Manual => r
        case Windows => WindowTick(r, now)
        case Curve => CurveTick(r, now);
      DayNightTick(t, now)
  }

  datatype Action = At(now: TimeOfDay) | Reload(config: Config)

  function Step(s: State, a: Action): State {
    match a
    case At(now) => Tick(s, now)
    case Reload(c) => Fresh(c, s.sent)
  }

  function Run(c: Config, actions: seq<Action>): State {
    if actions == [] then Fresh(c, []) else Step(Run(c, actions[..|actions| - 1]), actions[|actions| - 1])
  }

  /** Within an epoch: nothing but ticks. */
  function Ticks(s: State, times: seq<TimeOfDay>): State {
    if times == [] then s else Tick(Ticks(s, times[..|times| - 1]), times[|times| - 1])
  }

  /** In no run is the source still claimed when the mode is manual: the branch that restores it is never taken. */
  lemma {:induction false} NeverRestores(c: Config, actions: seq<Action>)
    ensures !Restores(Run(c, actions))
    decreases |actions|
  {
    if actions != [] {
      NeverRestores(c, actions[..|actions| - 1]);
    }
  }

  // ----- Change-only dispatch, epoch by epoch -----

  /** Consecutive repeats removed. */
  function Changes<T(==)>(s: seq<T>): seq<T> {
    if s == [] then []
    else
      var init, last := s[..|s| - 1], s[|s| - 1];
      if init != [] && init[|init| - 1] == last then Changes(init) else Changes(init) + [last]
  }

  function Results(c: Config, times: seq<TimeOfDay>): (r: seq<WindowResult>)
    ensures |r| == |times| && forall i :: 0 <= i < |r| ==> r[i] == MatchFrom(c.windows, times[i], 0)
  {
    seq(|times|, i requires 0 <= i < |times| => MatchFrom(c.windows, times[i], 0))
  }

  function Indices(times: seq<TimeOfDay>): (r: seq<nat>)
    ensures |r| == |times| && forall i :: 0 <= i < |r| ==> r[i] == CurveIndex(times[i])
  {
    seq(|times|, i requires 0 <= i < |times| => CurveIndex(times[i]))
  }

  function Phases(d: DayNight, times: seq<TimeOfDay>): (r: seq<Source>)
    ensures |r| == |times| && forall i :: 0 <= i < |r| ==> r[i] == Phase(times[i], d)
  {
    seq(|times|, i requires 0 <= i < |times| => Phase(times[i], d))
  }

  function WindowSetpoints(results: seq<WindowResult>): seq<Command> {
    if results == [] then [] else WindowSetpoints(results[..|results| - 1]) + [Setpoint(results[|results| - 1].power)]
  }

  function CurveSetpoints(c: Config, indices: seq<nat>): seq<Command> {
    if indices == [] then []
    else
      var i := indices[|indices| - 1];
      CurveSetpoints(c, indices[..|indices| - 1]) + [Setpoint(if i < 96 then c.curve[i] else 0.0)]
  }

  function Priorities(phases: seq<Source>): seq<Command> {
    if phases == [] then [] else Priorities(phases[..|phases| - 1]) + [Priority(phases[|phases| - 1])]
  }

  /** What an epoch puts on the wire. */
  function Dispatched(c: Config, times: seq<TimeOfDay>): seq<Command> {
    match c.mode
    case Manual => if c.dayNight == None then [] else Priorities(Changes(Phases(c.dayNight.value, times)))
    case Windows => if times == [] then [] else [Priority(ManualSource)] + WindowSetpoints(Changes(Results(c, times)))
    case Curve => if times == [] then [] else [Priority(ManualSource)] + CurveSetpoints(c, Changes(Indices(times)))
  }

  /** What the loop remembers of an epoch. */
  function Remembered(c: Config, sent: seq<Command>, times: seq<TimeOfDay>): State {
    if times == [] then Fresh(c, sent)
    else
      var now := times[|times| - 1];
      State(c,
            if c.mode == Windows then Some(MatchFrom(c.windows, now, 0)) else None,
            if c.mode == Curve then Some(CurveIndex(now)) else None,
            if c.dayNight == None then None else Some(Phase(now, c.dayNight.value)),
            c.mode != Manual,
            sent + Dispatched(c, times))
  }

  lemma ChangesNext<T>(s: seq<T>, x: T)
    ensures Changes(s + [x]) == if s != [] && s[|s| - 1] == x then Changes(s) else Changes(s) + [x]
  {
    var all := s + [x];
    assert all[..|all| - 1] == s && all[|all| - 1] == x;
  }

  lemma WindowSetpointsNext(s: seq<WindowResult>, x: WindowResult)
    ensures WindowSetpoints(s + [x]) == WindowSetpoints(s) + [Setpoint(x.power)]
  {
    var all := s + [x];
    assert all[..|all| - 1] == s && all[|all| - 1] == x;
  }

  lemma CurveSetpointsNext(c: Config, s: seq<nat>, x: nat)
    requires x < 96
    ensures CurveSetpoints(c, s + [x]) == CurveSetpoints(c, s) + [Setpoint(c.curve[x])]
  {
    var all := s + [x];
    assert all[..|all| - 1] == s && all[|all| - 1] == x;
  }

  lemma PrioritiesNext(s: seq<Source>, x: Source)
    ensures Priorities(s + [x]) == Priorities(s) + [Priority(x)]
  {
    var all := s + [x];
    assert all[..|all| - 1] == s && all[|all| - 1] == x;
  }

  /** What one more tick adds to the epoch. */
  function Added(c: Config, times: seq<TimeOfDay>, now: TimeOfDay): seq<Command> {
    var first := times == [];
    match c.mode
    case Manual =>
      if c.dayNight == None || (!first && Phase(times[|times| - 1], c.dayNight.value) == Phase(now, c.dayNight.value))
      then [] else [Priority(Phase(now, c.dayNight.value))]
    case Windows =>
      var r := MatchFrom(c.windows, now, 0);
      if first then [Priority(ManualSource), Setpoint(r.power)]
      else if MatchFrom(c.windows, times[|times| - 1], 0) == r then [] else [Setpoint(r.power)]
    case Curve =>
      if first then [Priority(ManualSource), Setpoint(CurvePower(c, now))]
      else if CurveIndex(times[|times| - 1]) == CurveIndex(now) then [] else [Setpoint(CurvePower(c, now))]
  }

  lemma PrioritiesDispatched(c: Config, times: seq<TimeOfDay>, now: TimeOfDay)
    requires c.mode == Manual && c.dayNight.Some?
    ensures Dispatched(c, times + [now]) == Dispatched(c, times) + Added(c, times, now)
  {
    var d := c.dayNight.value;
    var phases := Phases(d, times);
    assert Phases(d, times + [now]) == phases + [Phase(now, d)];
    assert Dispatched(c, times) == Priorities(Changes(phases));
    assert times != [] ==> phases[|phases| - 1] == Phase(times[|times| - 1], d);
    ChangesNext(phases, Phase(now, d));
    PrioritiesNext(Changes(phases), Phase(now, d));
  }

  lemma WindowsNext(results: seq<WindowResult>, r: WindowResult)
    ensures WindowSetpoints(Changes(results + [r])) == WindowSetpoints(Changes(results)) +
      if results != [] && results[|results| - 1] == r then [] else [Setpoint(r.power)]
  {
    ChangesNext(results, r);
    WindowSetpointsNext(Changes(results), r);
  }

  lemma CurveNext(c: Config, indices: seq<nat>, i: nat)
    requires i < 96
    ensures CurveSetpoints(c, Changes(indices + [i])) == CurveSetpoints(c, Changes(indices)) +
      if indices != [] && indices[|indices| - 1] == i then [] else [Setpoint(c.curve[i])]
  {
    ChangesNext(indices, i);
    CurveSetpointsNext(c, Changes(indices), i);
  }

  /** Setpoints grow behind the claim that opens the epoch. */
  lemma Behind(claim: Command, setpoints: seq<Command>, more: seq<Command>)
    ensures [claim] + (setpoints + more) == [claim] + setpoints + more
    ensures setpoints == [] && |more| == 1 ==> [claim] + (setpoints + more) == [claim, more[0]]
  {
  }

  lemma WindowsDispatched(c: Config, times: seq<TimeOfDay>, now: TimeOfDay)
    requires c.mode == Windows
    ensures Dispatched(c, times + [now]) == Dispatched(c, times) + Added(c, times, now)
  {
    var r := MatchFrom(c.windows, now, 0);
    var results := Results(c, times);
    assert Results(c, times + [now]) == results + [r];
    WindowsNext(results, r);
    var more := if results != [] && results[|results| - 1] == r then [] else [Setpoint(r.power)];
    Behind(Priority(ManualSource), WindowSetpoints(Changes(results)), more);
  }

  lemma IndicesNext(times: seq<TimeOfDay>, now: TimeOfDay)
    ensures Indices(times + [now]) == Indices(times) + [CurveIndex(now)]
    ensures times != [] ==> Indices(times)[|times| - 1] == CurveIndex(times[|times| - 1])
  {
  }

  /** The setpoints that one more tick adds in curve mode. */
  function CurveMore(c: Config, times: seq<TimeOfDay>, now: TimeOfDay): seq<Command> {
    if times != [] && CurveIndex(times[|times| - 1]) == CurveIndex(now) then [] else [Setpoint(CurvePower(c, now))]
  }

  lemma CurveSetpointsOf(c: Config, times: seq<TimeOfDay>, now: TimeOfDay)
    ensures CurveSetpoints(c, Changes(Indices(times + [now]))) ==
      CurveSetpoints(c, Changes(Indices(times))) + CurveMore(c, times, now)
    ensures times == [] ==> CurveSetpoints(c, Changes(Indices(times))) == []
  {
    CurveIndexIsQuarterHour(now);
    IndicesNext(times, now);
    CurveNext(c, Indices(times), CurveIndex(now));
  }

  lemma CurveDispatched(c: Config, times: seq<TimeOfDay>, now: TimeOfDay)
    requires c.mode == Curve
    ensures Dispatched(c, times + [now]) == Dispatched(c, times) + Added(c, times, now)
  {
    CurveSetpointsOf(c, times, now);
    Behind(Priority(ManualSource), CurveSetpoints(c, Changes(Indices(times))), CurveMore(c, times, now));
  }

  lemma DispatchedNext(c: Config, times: seq<TimeOfDay>, now: TimeOfDay)
    ensures Dispatched(c, times + [now]) == Dispatched(c, times) + Added(c, times, now)
  {
    match c.mode
    case Manual =>
      if c.dayNight.Some? {
        PrioritiesDispatched(c, times, now);
      }
    case Windows => WindowsDispatched(c, times, now);
    case Curve => CurveDispatched(c, times, now);
  }

  /** A tick sends what it adds to the epoch. */
  lemma TickAdds(c: Config, sent: seq<Command>, times: seq<TimeOfDay>, now: TimeOfDay)
    ensures Tick(Remembered(c, sent, times), now).sent == Remembered(c, sent, times).sent + Added(c, times, now)
  {
  }

  /** And what it remembers of the epoch is the last tick. */
  lemma TickForgets(c: Config, sent: seq<Command>, times: seq<TimeOfDay>, now: TimeOfDay)
    ensures Tick(Remembered(c, sent, times), now).(sent := []) == Remembered(c, sent, times + [now]).(sent := [])
  {
    var all := times + [now];
    assert all != [] && all[|all| - 1] == now;
  }

  lemma SentNext(c: Config, sent: seq<Command>, times: seq<TimeOfDay>, now: TimeOfDay)
    ensures Remembered(c, sent, times + [now]).sent == Remembered(c, sent, times).sent + Added(c, times, now)
  {
    DispatchedNext(c, times, now);
    if times == [] {
      assert Dispatched(c, times) == [];
    }
    assert sent + Dispatched(c, times) + Added(c, times, now) == sent + (Dispatched(c, times) + Added(c, times, now));
  }

  lemma TickRemembers(c: Config, sent: seq<Command>, times: seq<TimeOfDay>, now: TimeOfDay)
    ensures Tick(Remembered(c, sent, times), now) == Remembered(c, sent, times + [now])
  {
    TickForgets(c, sent, times, now);
    TickAdds(c, sent, times, now);
    SentNext(c, sent, times, now);
    SameButSent(Tick(Remembered(c, sent, times), now), Remembered(c, sent, times + [now]));
  }

  lemma SameButSent(s: State, t: State)
    requires s.(sent := []) == t.(sent := []) && s.sent == t.sent
    ensures s == t
  {
  }

  lemma TicksNext(s: State, times: seq<TimeOfDay>, now: TimeOfDay)
    ensures Ticks(s, times + [now]) == Tick(Ticks(s, times), now)
  {
    var all := times + [now];
    assert all[..|all| - 1] == times && all[|all| - 1] == now;
  }

  lemma {:induction false} EpochRemembered(c: Config, sent: seq<Command>, times: seq<TimeOfDay>)
    ensures Ticks(Fresh(c, sent), times) == Remembered(c, sent, times)
    decreases |times|
  {
    if times != [] {
      var before, now := times[..|times| - 1], times[|times| - 1];
      assert before + [now] == times;
      EpochRemembered(c, sent, before);
      TicksNext(Fresh(c, sent), before, now);
      TickRemembers(c, sent, before, now);
    }
  }

  /**
   In every epoch, from whatever state it was entered, what is sent is the per-tick evaluation with consecutive repeats
   removed: day and night in manual mode; one claim of the manual source and then the setpoints in the other modes.
   */
  lemma EpochSendsChanges(c: Config, sent: seq<Command>, times: seq<TimeOfDay>)
    ensures Ticks(Fresh(c, sent), times).sent == sent + Dispatched(c, times)
  {
    EpochRemembered(c, sent, times);
    if times == [] {
      assert Dispatched(c, times) == [];
      assert sent + [] == sent;
    }
  }

  function Ats(times: seq<TimeOfDay>): (r: seq<Action>)
    ensures |r| == |times| && forall i :: 0 <= i < |r| ==> r[i] == At(times[i])
  {
    seq(|times|, i requires 0 <= i < |times| => At(times[i]))
  }

  lemma RunNext(c: Config, actions: seq<Action>, a: Action)
    ensures Run(c, actions + [a]) == Step(Run(c, actions), a)
  {
    var all := actions + [a];
    assert all[..|all| - 1] == actions && all[|all| - 1] == a;
  }

  lemma AtsNext(times: seq<TimeOfDay>, now: TimeOfDay)
    ensures Ats(times + [now]) == Ats(times) + [At(now)]
  {
  }

  lemma RunOfOneMore(c: Config, actions: seq<Action>, before: seq<TimeOfDay>, now: TimeOfDay)
    ensures Run(c, actions + Ats(before + [now])) == Tick(Run(c, actions + Ats(before)), now)
  {
    AtsNext(before, now);
    assert actions + (Ats(before) + [At(now)]) == actions + Ats(before) + [At(now)];
    RunNext(c, actions + Ats(before), At(now));
  }

  lemma {:induction false} RunOfTicks(c: Config, actions: seq<Action>, times: seq<TimeOfDay>)
    ensures Run(c, actions + Ats(times)) == Ticks(Run(c, actions), times)
    decreases |times|
  {
    if times == [] {
      assert actions + Ats(times) == actions;
    } else {
      var before, now := times[..|times| - 1], times[|times| - 1];
      assert before + [now] == times;
      RunOfTicks(c, actions, before);
      RunOfOneMore(c, actions, before, now);
      TicksNext(Run(c, actions), before, now);
    }
  }

  /** So a whole run sends its epochs one after another: each reload starts afresh after what was sent before. */
  lemma RunSendsEpochs(c: Config, actions: seq<Action>, next: Config, times: seq<TimeOfDay>)
    ensures Run(c, actions + [Reload(next)] + Ats(times)).sent == Run(c, actions).sent + Dispatched(next, times)
  {
    RunNext(c, actions, Reload(next));
    RunOfTicks(c, actions + [Reload(next)], times);
    EpochSendsChanges(next, Run(c, actions).sent, times);
  }

  /** The first epoch starts from the configuration given at construction. */
  lemma FirstEpochSends(c: Config, times: seq<TimeOfDay>)
    ensures Run(c, Ats(times)).sent == Dispatched(c, times)
  {
    assert [] + Ats(times) == Ats(times);
    RunOfTicks(c, [], times);
    EpochSendsChanges(c, [], times);
  }

  // ----- Change-only dispatch refines every-tick dispatch -----

  /** What the receiver acts on. */
  datatype Heard = Heard(source: Option<Source>, power: Option<real>)

  function Hear(h: Heard, command: Command): Heard {
    match command
    case Priority(source) => h.(source := Some(source))
    case Setpoint(power) => h.(power := Some(power))
  }

  function HearAll(commands: seq<Command>): Heard {
    if commands == [] then Heard(None, None)
    else Hear(HearAll(commands[..|commands| - 1]), commands[|commands| - 1])
  }

  lemma HearNext(commands: seq<Command>, command: Command)
    ensures HearAll(commands + [command]) == Hear(HearAll(commands), command)
  {
    var all := commands + [command];
    assert all[..|all| - 1] == commands && all[|all| - 1] == command;
  }

  /** The plain scheduler: on every tick it says everything the mode has to say. */
  function Spoken(h: Heard, c: Config, now: TimeOfDay): Heard {
    match c.mode
    case Manual => if c.dayNight == None then h else h.(source := Some(Phase(now, c.dayNight.value)))
    case Windows => Heard(Some(ManualSource), Some(MatchFrom(c.windows, now, 0).power))
    case Curve => Heard(Some(ManualSource), Some(CurvePower(c, now)))
  }

  function PlainRun(c: Config, actions: seq<Action>): (Config, Heard) {
    if actions == [] then (c, Heard(None, None))
    else
      var (current, h) := PlainRun(c, actions[..|actions| - 1]);
      match actions[|actions| - 1]
      case At(now) => (current, Spoken(h, current, now))
      case Reload(next) => (next, h)
  }

  /** What the loop remembers is what the receiver has been told. */
  ghost predicate InStep(s: State, h: Heard) {
    && !Restores(s)
    && HearAll(s.sent) == h
    && (s.config.mode == Windows && s.lastWindow.Some? ==>
          s.owns && h == Heard(Some(ManualSource), Some(s.lastWindow.value.power)))
    && (s.config.mode == Curve && s.lastCurve.Some? ==>
          s.owns && s.lastCurve.value < 96 && h == Heard(Some(ManualSource), Some(s.config.curve[s.lastCurve.value])))
    && (s.config.mode == Manual && s.lastDayNight.Some? ==> h.source == s.lastDayNight)
    && (s.owns ==> s.lastWindow.Some? || s.lastCurve.Some?)
    && (s.lastWindow.Some? ==> s.config.mode == Windows)
    && (s.lastCurve.Some? ==> s.config.mode == Curve)
  }

  lemma ClaimHeard(s: State, power: real)
    ensures
      var h := HearAll(Send(Claim(s), Setpoint(power)).sent);
      h.power == Some(power) && h.source == if s.owns then HearAll(s.sent).source else Some(ManualSource)
  {
    HearNext(s.sent, Priority(ManualSource));
    HearNext(Claim(s).sent, Setpoint(power));
  }

  lemma WindowTickInStep(s: State, h: Heard, now: TimeOfDay)
    requires InStep(s, h) && s.config.mode == Windows
    ensures InStep(Tick(s, now), Spoken(h, s.config, now))
  {
    var r := MatchFrom(s.config.windows, now, 0);
    if s.lastWindow != Some(r) {
      ClaimHeard(s.(lastWindow := Some(r)), r.power);
    }
  }

  lemma CurveTickInStep(s: State, h: Heard, now: TimeOfDay)
    requires InStep(s, h) && s.config.mode == Curve
    ensures InStep(Tick(s, now), Spoken(h, s.config, now))
  {
    CurveIndexIsQuarterHour(now);
    if s.lastCurve != Some(CurveIndex(now)) {
      ClaimHeard(s.(lastCurve := Some(CurveIndex(now))), CurvePower(s.config, now));
    }
  }

  lemma ManualTickInStep(s: State, h: Heard, now: TimeOfDay)
    requires InStep(s, h) && s.config.mode == Manual
    ensures InStep(Tick(s, now), Spoken(h, s.config, now))
  {
    if s.config.dayNight.Some? {
      HearNext(s.sent, Priority(Phase(now, s.config.dayNight.value)));
    }
  }

  /**
   Over every run of ticks and reloads, the receiver of change-only dispatch is told the same as one told everything
   on every tick.
   */
  lemma {:induction false} ChangeOnlyRefinesEveryTick(c: Config, actions: seq<Action>)
    ensures Run(c, actions).config == PlainRun(c, actions).0
    ensures InStep(Run(c, actions), PlainRun(c, actions).1)
    decreases |actions|
  {
    if actions != [] {
      var before := actions[..|actions| - 1];
      ChangeOnlyRefinesEveryTick(c, before);
      var s, h := Run(c, before), PlainRun(c, before).1;
      match actions[|actions| - 1]
      case Reload(next) =>
      case At(now) =>
        match s.config.mode
        case Manual => ManualTickInStep(s, h, now);
        case Windows => WindowTickInStep(s, h, now);
        case Curve => CurveTickInStep(s, h, now);
    }
  }

  /** In manual mode with day and night times, the priority last sent is the one for the current time after every tick. */
  lemma ManualPriorityIsCurrent(c: Config, actions: seq<Action>, now: TimeOfDay)
    requires Run(c, actions).config.mode == Manual && Run(c, actions).config.dayNight.Some?
    ensures
      var d := Run(c, actions).config.dayNight.value;
      HearAll(Step(Run(c, actions), At(now)).sent).source ==
        Some(if d.dayStart <= now < d.nightStart then DaySource else NightSource)
  {
    ChangeOnlyRefinesEveryTick(c, actions);
    ManualTickInStep(Run(c, actions), PlainRun(c, actions).1, now);
  }

  // ----- The program -----

  class SchedulerLoop {
    var config: Config
    var lastWindow: Option<WindowResult>
    var lastCurve: Option<nat>
    var lastDayNight: Option<Source>
    var owns: bool
    var sent: seq<Command>

    ghost function View(): State
      reads this
    {
      State(config, lastWindow, lastCurve, lastDayNight, owns, sent)
    }

    constructor (config: Config)
      ensures View() == Fresh(config, [])
    {
      this.config := config;
      lastWindow, lastCurve, lastDayNight, owns, sent := None, None, None, false, [];
    }

    method SendCommand(command: Command)
      modifies `sent
      ensures sent == old(sent) + [command]
    {
      sent := sent + [command];
    }

    method EvaluateTimeOfDayTick(now: TimeOfDay)
      modifies this
      ensures View() == WindowTick(old(View()), now)
    {
      var r := EvaluateTimeOfDay(config.windows, now);
      if lastWindow == Some(r) {
        return;
      }
      lastWindow := Some(r);
      if !owns {
        SendCommand(Priority(ManualSource));
        owns := true;
      }
      SendCommand(Setpoint(r.power));
    }

    method EvaluateCurveTick(now: TimeOfDay)
      modifies this
      ensures View() == CurveTick(old(View()), now)
    {
      CurveIndexIsQuarterHour(now);
      var index := CurveIndex(now);
      var power := config.curve[index];
      if lastCurve == Some(index) {
        return;
      }
      lastCurve := Some(index);
      if !owns {
        SendCommand(Priority(ManualSource));
        owns := true;
      }
      SendCommand(Setpoint(power));
    }

    method EvaluateDayNightTick(now: TimeOfDay)
      modifies this
      ensures View() == DayNightTick(old(View()), now)
    {
      if config.dayNight == None {
        return;
      }
      var phase := Phase(now, config.dayNight.value);
      if lastDayNight != Some(phase) {
        if !owns {
          SendCommand(Priority(phase));
        }
        lastDayNight := Some(phase);
      }
    }

    /** `_evaluate_tick` */
    method EvaluateTick(now: TimeOfDay) returns (raised: bool)
      modifies this
      ensures raised <==> Raises(old(View()))
      ensures View() == Tick(old(View()), now)
    {
      if config.mode == Manual && owns {
        if config.dayNight == None {
          return true;
        }
        var phase := Phase(now, config.dayNight.value);
        SendCommand(Priority(phase));
        lastDayNight := Some(phase);
        owns := false;
      }
      match config.mode {
        case Manual =>
        case Windows => EvaluateTimeOfDayTick(now);
        case Curve => EvaluateCurveTick(now);
      }
      EvaluateDayNightTick(now);
      return false;
    }

    method OnConfigReloaded(next: Config)
      modifies this
      ensures View() == Step(old(View()), Reload(next)) && !Restores(View())
    {
      config := next;
      lastWindow := None;
      lastCurve := None;
      lastDayNight := None;
      owns := false;
    }
  }
}
