/**
 The alarm evaluator of `evaluator.py`: the IEC 62682 lifecycle with an activation delay and hysteresis,
 operator acknowledgement, and the carry-over of a configuration reload in `loop.py`.
 */
module Alarm {
  import opened Wrappers

  datatype AlarmState = NORMAL | ACTIVE_UNACKED | ACTIVE_ACKED | CLEARED_UNACKED | RTN

  datatype Rule = Rule(
    alarmId: string,
    signal: string,
    high: Option<real>,
    low: Option<real>,
    hysteresisPct: real,
    delayMs: int,
    enabled: bool)

  datatype EventKind = Activated | Cleared | ReturnedToNormal

  datatype Event = Event(kind: EventKind, alarmId: string, value: real)

  /** One `AlarmInstance`; `exceededSince` is the delay timer. Timestamps are 0 when not set. */
  datatype Instance = Instance(
    rule: Rule,
    state: AlarmState,
    exceededSince: Option<int>,
    currentValue: real,
    activatedAt: int,
    acknowledgedAt: int,
    clearedAt: int,
    rtnAt: int)

  // ----- Thresholds -----

  function Abs(x: real): real {
    if x < 0.0 then -x else x
  }

  /** `high_clear`, computed once in `__post_init__` */
  function HighClear(r: Rule): Option<real> {
    match r.high
    case None => None
    case Some(t) => Some(t - Abs(t) * r.hysteresisPct / 100.0)
  }

  function LowClear(r: Rule): Option<real> {
    match r.low
    case None => None
    case Some(t) => Some(t + Abs(t) * r.hysteresisPct / 100.0)
  }

  /** `_check_exceeds` */
  predicate Exceeds(r: Rule, v: real) {
    (r.high.Some? && v > r.high.value) || (r.low.Some? && v < r.low.value)
  }

  /** `_check_cleared` */
  predicate HasCleared(r: Rule, v: real) {
    && (r.high.Some? ==> v < HighClear(r).value)
    && (r.low.Some? ==> v > LowClear(r).value)
  }

  predicate InDeadBand(r: Rule, v: real) {
    !Exceeds(r, v) && !HasCleared(r, v)
  }

  // ----- One tick -----

  function Built(r: Rule): Instance {
    Instance(r, NORMAL, None, 0.0, 0, 0, 0, 0)
  }

  function EventOf(x: Instance, kind: EventKind): seq<Event> {
    [Event(kind, x.rule.alarmId, x.currentValue)]
  }

  /** `_evaluate_one` */
  function Evaluated(x: Instance, v: Option<real>, now: int): (Instance, seq<Event>) {
    if v.None? then (x.(exceededSince := None), [])
    else
      var y := x.(currentValue := v.value);
      if y.state == RTN then
        InNormal(y.(state := NORMAL, activatedAt := 0, acknowledgedAt := 0, clearedAt := 0, rtnAt := 0,
                    exceededSince := None), v.value, now)
      else if y.state == NORMAL then InNormal(y, v.value, now)
      else InAlarm(y, v.value, now)
  }

  /** `_handle_normal` */
  function InNormal(x: Instance, v: real, now: int): (Instance, seq<Event>) {
    if !Exceeds(x.rule, v) then (x.(exceededSince := None), [])
    else
      var since := if x.exceededSince.Some? then x.exceededSince.value else now;
      if now - since < x.rule.delayMs then (x.(exceededSince := Some(since)), [])
      else (x.(state := ACTIVE_UNACKED, activatedAt := now, exceededSince := None), EventOf(x, Activated))
  }

  /** `_handle_active_unacked`, `_handle_active_acked` and `_handle_cleared_unacked` */
  function InAlarm(x: Instance, v: real, now: int): (Instance, seq<Event>) {
    match x.state
    case ACTIVE_UNACKED =>
      if HasCleared(x.rule, v) then (x.(state := CLEARED_UNACKED, clearedAt := now), EventOf(x, Cleared)) else (x, [])
    case ACTIVE_ACKED =>
      if HasCleared(x.rule, v) then (x.(state := RTN, clearedAt := now, rtnAt := now), EventOf(x, ReturnedToNormal)) else (x, [])
    case CLEARED_UNACKED =>
      if Exceeds(x.rule, v) then (x.(state := ACTIVE_UNACKED, activatedAt := now), EventOf(x, Activated)) else (x, [])
    case _ => (x, [])
  }

  /** `acknowledge`; in any other state it is refused and changes nothing. */
  function Acknowledged(x: Instance, now: int): Instance {
    match x.state
    case ACTIVE_UNACKED => x.(state := ACTIVE_ACKED, acknowledgedAt := now)
    case CLEARED_UNACKED => x.(state := RTN, acknowledgedAt := now, rtnAt := now)
    case _ => x
  }

  /** The reload of a rule whose alarm id is still present: only a lifecycle out of NORMAL is carried over. */
  function Carried(x: Instance, r: Rule): Instance {
    var y := Built(r);
    if x.state == NORMAL then y
    else y.(state := x.state, activatedAt := x.activatedAt, acknowledgedAt := x.acknowledgedAt,
            exceededSince := x.exceededSince)
  }

  // ----- Runs of one alarm -----

  datatype Action =
    | Tick(value: Option<real>, now: int)
    | Acknowledge(at: int)
    | Reload(rule: Rule)

  function Step(x: Instance, a: Action): (Instance, seq<Event>) {
    match a
    case Tick(v, now) => if x.rule.enabled then Evaluated(x, v, now) else (x, [])
    case Acknowledge(at) => (Acknowledged(x, at), [])
    case Reload(r) => (Carried(x, r), [])
  }

  function Run(x: Instance, actions: seq<Action>): (Instance, seq<Event>) {
    if actions == [] then (x, [])
    else
      var n := |actions| - 1;
      var (y, events) := Run(x, actions[..n]);
      var (z, more) := Step(y, actions[n]);
      (z, events + more)
  }

  predicate IsActive(s: AlarmState) {
    s == ACTIVE_UNACKED || s == ACTIVE_ACKED
  }

  /** Activations and terminations take turns, an activation first. */
  ghost predicate Alternates(events: seq<Event>) {
    forall i | 0 <= i < |events| :: events[i].kind == Activated <==> i % 2 == 0
  }

  function Count(events: seq<Event>, activations: bool): nat {
    if events == [] then 0 else
    var n := |events| - 1;
    Count(events[..n], activations) + (if (events[n].kind == Activated) == activations then 1 else 0)
  }

  lemma {:induction false} AlternatingCounts(events: seq<Event>)
    requires Alternates(events)
    ensures Count(events, true) == (|events| + 1) / 2
    ensures Count(events, false) == |events| / 2
  {
    if events != [] {
      AlternatingCounts(events[..|events| - 1]);
    }
  }

  /** A step reports an activation exactly when it makes the alarm active, and a termination exactly when it ends it. */
  lemma StepReportsChange(x: Instance, a: Action)
    requires x.state != NORMAL ==> x.exceededSince == None
    ensures var (y, events) := Step(x, a);
      && (y.state != NORMAL ==> y.exceededSince == None)
      && |events| == (if IsActive(x.state) == IsActive(y.state) then 0 else 1)
      && (events != [] ==> (events[0].kind == Activated <==> IsActive(y.state)))
  {
  }

  lemma {:induction false} RunAlternates(r: Rule, actions: seq<Action>)
    ensures var (x, events) := Run(Built(r), actions);
      && Alternates(events)
      && (|events| % 2 == 1 <==> IsActive(x.state))
      && (x.state != NORMAL ==> x.exceededSince == None)
  {
    if actions != [] {
      var n := |actions| - 1;
      RunAlternates(r, actions[..n]);
      StepReportsChange(Run(Built(r), actions[..n]).0, actions[n]);
    }
  }

  /**
   Over any interleaving of ticks, acknowledgements and reloads that keep the alarm, activations and terminations
   strictly alternate, and one more activation than terminations has been reported exactly while the alarm is active.
   */
  lemma EventConservation(r: Rule, actions: seq<Action>)
    ensures var (x, events) := Run(Built(r), actions);
      && Alternates(events)
      && Count(events, true) - Count(events, false) == (if IsActive(x.state) then 1 else 0)
  {
    RunAlternates(r, actions);
    AlternatingCounts(Run(Built(r), actions).1);
  }

  /** The delay timer runs only in NORMAL. */
  lemma TimerOnlyInNormal(r: Rule, actions: seq<Action>)
    ensures var x := Run(Built(r), actions).0;
      x.exceededSince.Some? ==> x.state == NORMAL
  {
    RunAlternates(r, actions);
  }

  // ----- The activation delay -----

  predicate Beyond(r: Rule, t: Action) {
    t.Tick? && t.value.Some? && Exceeds(r, t.value.value)
  }

  ghost predicate Ticks(ticks: seq<Action>) {
    && (forall i | 0 <= i < |ticks| :: ticks[i].Tick?)
    && forall i, j | 0 <= i <= j < |ticks| && ticks[i].Tick? && ticks[j].Tick? :: ticks[i].now <= ticks[j].now
  }

  /** At the last of these ticks the signal has been beyond a threshold at every tick for at least the delay. */
  ghost predicate Qualifies(r: Rule, ticks: seq<Action>)
    requires Ticks(ticks)
  {
    exists j :: 0 <= j < |ticks| && Sustained(r, ticks, j) && ticks[|ticks| - 1].now - ticks[j].now >= r.delayMs
  }

  ghost predicate Sustained(r: Rule, ticks: seq<Action>, j: int)
    requires 0 <= j
  {
    forall k | j <= k < |ticks| :: Beyond(r, ticks[k])
  }

  /** A stay in NORMAL, counted from a fresh start or from the RTN state that falls through to it. */
  predicate Quiet(x: Instance) {
    (x.state == NORMAL || x.state == RTN) && x.exceededSince == None && x.rule.enabled
  }

  /** No tick so far has qualified. */
  ghost predicate Unqualified(r: Rule, ticks: seq<Action>)
    requires Ticks(ticks)
  {
    ticks == [] || (Unqualified(r, ticks[..|ticks| - 1]) && !Qualifies(r, ticks))
  }

  /** When the excursion that reaches the last tick began. */
  ghost function ExcursionStart(r: Rule, ticks: seq<Action>): Option<int> {
    if ticks == [] then None else
    var n := |ticks| - 1;
    if !Beyond(r, ticks[n]) then None
    else match ExcursionStart(r, ticks[..n])
      case Some(t) => Some(t)
      case None => Some(ticks[n].now)
  }

  lemma {:induction false} ExcursionIsLongest(r: Rule, ticks: seq<Action>) returns (j: nat)
    requires Ticks(ticks)
    ensures j <= |ticks| && Sustained(r, ticks, j)
    ensures j > 0 ==> !Beyond(r, ticks[j - 1])
    ensures ExcursionStart(r, ticks) == if j < |ticks| then Some(ticks[j].now) else None
  {
    if ticks == [] {
      j := 0;
    } else {
      var n := |ticks| - 1;
      if Beyond(r, ticks[n]) {
        j := ExcursionIsLongest(r, ticks[..n]);
      } else {
        j := n + 1;
      }
    }
  }

  lemma LongestStartsFirst(r: Rule, ticks: seq<Action>, i: nat, j: nat)
    requires i < |ticks| && Sustained(r, ticks, i)
    requires j <= |ticks| && (j > 0 ==> !Beyond(r, ticks[j - 1]))
    ensures j <= i
  {
  }

  /** With a clock that does not go back, waiting since the start of the excursion is waiting longest. */
  lemma QualifiesByStart(r: Rule, ticks: seq<Action>)
    requires Ticks(ticks) && ticks != []
    ensures var t := ExcursionStart(r, ticks);
      Qualifies(r, ticks) <==> t.Some? && ticks[|ticks| - 1].now - t.value >= r.delayMs
  {
    var j := ExcursionIsLongest(r, ticks);
    forall i | 0 <= i < |ticks| && Sustained(r, ticks, i) ensures j <= i {
      LongestStartsFirst(r, ticks, i, j);
    }
  }

  /** One tick of a quiet alarm, in terms of when the current excursion began. */
  lemma QuietTick(x: Instance, t: Action, start: Option<int>)
    requires (x.state == NORMAL || x.state == RTN) && x.rule.enabled && t.Tick?
    requires x.exceededSince == start && (x.state == RTN ==> start == None)
    ensures var start' := if !Beyond(x.rule, t) then None else if start.Some? then start else Some(t.now);
      var (y, events) := Step(x, t);
      && y.rule == x.rule
      && (events != [] <==> start'.Some? && t.now - start'.value >= x.rule.delayMs)
      && (if events == []
          then (y.state == NORMAL || y.state == RTN) && y.exceededSince == start' && (y.state == RTN ==> start' == None)
          else y.state == ACTIVE_UNACKED && |events| == 1 && events[0].kind == Activated)
  {
  }

  /** Before any tick qualifies nothing is reported and the timer holds the start of the excursion. */
  lemma {:induction false} QuietUntilQualified(x: Instance, ticks: seq<Action>)
    requires Quiet(x) && Ticks(ticks)
    ensures var (y, events) := Run(x, ticks);
      && y.rule == x.rule
      && (events == [] <==> Unqualified(x.rule, ticks))
      && (events == [] ==>
            && (y.state == NORMAL || y.state == RTN)
            && y.exceededSince == ExcursionStart(x.rule, ticks)
            && (y.state == RTN ==> y.exceededSince == None))
  {
    if ticks != [] {
      var n := |ticks| - 1;
      QuietUntilQualified(x, ticks[..n]);
      QualifiesByStart(x.rule, ticks);
      var (y, events) := Run(x, ticks[..n]);
      if events == [] {
        QuietTick(y, ticks[n], ExcursionStart(x.rule, ticks[..n]));
      }
      StepKeepsRule(y, ticks[n]);
    }
  }

  lemma StepKeepsRule(x: Instance, a: Action)
    requires !a.Reload?
    ensures Step(x, a).0.rule == x.rule
  {
  }

  /**
   Out of NORMAL (or RTN falling through to it) the alarm is activated by tick `n` if and only if `n` is the first tick
   at which the signal has been available and beyond a threshold at every tick since one at least `delayMs` earlier.
   */
  lemma DelayExactness(x: Instance, ticks: seq<Action>, n: nat)
    requires Quiet(x) && Ticks(ticks) && n < |ticks|
    ensures var (before, none) := Run(x, ticks[..n]);
      var (after, events) := Run(x, ticks[..n + 1]);
      && (none == [] && events != [] <==>
            Unqualified(x.rule, ticks[..n]) && Qualifies(x.rule, ticks[..n + 1]))
      && (none == [] && events != [] ==>
            after.state == ACTIVE_UNACKED && |events| == 1 && events[0].kind == Activated)
  {
    var upTo := ticks[..n + 1];
    assert upTo[..n] == ticks[..n];
    QuietUntilQualified(x, ticks[..n]);
    QuietUntilQualified(x, upTo);
    var (y, none) := Run(x, ticks[..n]);
    if none == [] {
      QuietTick(y, ticks[n], ExcursionStart(x.rule, ticks[..n]));
    }
  }

  // ----- Hysteresis -----

  /** A value never both raises and clears an alarm. */
  lemma NeverBoth(r: Rule, v: real)
    requires r.hysteresisPct >= 0.0
    ensures !(Exceeds(r, v) && HasCleared(r, v))
  {
    if r.high.Some? {
      BandIsNonNegative(r.high.value, r.hysteresisPct);
    }
    if r.low.Some? {
      BandIsNonNegative(r.low.value, r.hysteresisPct);
    }
  }

  lemma BandIsNonNegative(t: real, pct: real)
    requires pct >= 0.0
    ensures Abs(t) * pct / 100.0 >= 0.0
  {
  }

  ghost predicate StaysInDeadBand(r: Rule, actions: seq<Action>) {
    forall i | 0 <= i < |actions| ::
      !actions[i].Reload? && (actions[i].Tick? && actions[i].value.Some? ==> InDeadBand(r, actions[i].value.value))
  }

  /** While the signal stays in the dead band no event is reported, from any state. */
  lemma {:induction false} DeadBandIsSilent(x: Instance, actions: seq<Action>)
    requires StaysInDeadBand(x.rule, actions)
    ensures Run(x, actions).1 == [] && Run(x, actions).0.rule == x.rule
  {
    if actions != [] {
      DeadBandIsSilent(x, actions[..|actions| - 1]);
    }
  }

  /** With both thresholds set and their bands overlapping, no value clears the alarm; otherwise some value does. */
  predicate Overlapping(r: Rule) {
    r.high.Some? && r.low.Some? && LowClear(r).value >= HighClear(r).value
  }

  lemma ClearableIffBandsApart(r: Rule)
    ensures (exists v :: HasCleared(r, v)) <==> !Overlapping(r)
  {
    if !Overlapping(r) {
      var v := match (r.high, r.low)
        case (None, None) => 0.0
        case (Some(_), None) => HighClear(r).value - 1.0
        case (None, Some(_)) => LowClear(r).value + 1.0
        case (Some(_), Some(_)) => (LowClear(r).value + HighClear(r).value) / 2.0;
      assert HasCleared(r, v);
    }
  }

  /** Once active, an alarm whose bands overlap is never reported cleared. */
  lemma {:induction false} OverlappingNeverClears(x: Instance, actions: seq<Action>)
    requires Overlapping(x.rule) && IsActive(x.state)
    requires forall i | 0 <= i < |actions| :: !actions[i].Reload?
    ensures var (y, events) := Run(x, actions);
      y.rule == x.rule && IsActive(y.state) && events == []
  {
    if actions != [] {
      OverlappingNeverClears(x, actions[..|actions| - 1]);
    }
  }

  // ----- What a tick does, in the numbers of the rule -----

  function Magnitude(t: real): (m: real)
    ensures m >= 0.0 && (m == t || m == -t)
  {
    if t < 0.0 then -t else t
  }

  /** Past a threshold that is set. */
  predicate PastThreshold(r: Rule, v: real) {
    (r.high.Some? && v > r.high.value) || (r.low.Some? && v < r.low.value)
  }

  /** Back inside each threshold that is set by more than its hysteresis percentage. */
  predicate BackByHysteresis(r: Rule, v: real) {
    && (r.high.Some? ==> 100.0 * (r.high.value - v) > Magnitude(r.high.value) * r.hysteresisPct)
    && (r.low.Some? ==> 100.0 * (v - r.low.value) > Magnitude(r.low.value) * r.hysteresisPct)
  }

  /** The width of a band, product and quotient apart. */
  lemma BandOf(t: real, pct: real, v: real, product: real)
    requires product == Abs(t) * pct
    ensures product == Magnitude(t) * pct
    ensures v < t - product / 100.0 <==> 100.0 * (t - v) > product
    ensures v > t + product / 100.0 <==> 100.0 * (v - t) > product
  {
    assert Abs(t) == Magnitude(t);
  }

  lemma HighBand(r: Rule, v: real)
    requires r.high.Some?
    ensures v < HighClear(r).value <==> 100.0 * (r.high.value - v) > Magnitude(r.high.value) * r.hysteresisPct
  {
    BandOf(r.high.value, r.hysteresisPct, v, Abs(r.high.value) * r.hysteresisPct);
  }

  lemma LowBand(r: Rule, v: real)
    requires r.low.Some?
    ensures v > LowClear(r).value <==> 100.0 * (v - r.low.value) > Magnitude(r.low.value) * r.hysteresisPct
  {
    BandOf(r.low.value, r.hysteresisPct, v, Abs(r.low.value) * r.hysteresisPct);
  }

  lemma ClearedByHysteresis(r: Rule, v: real)
    ensures HasCleared(r, v) <==> BackByHysteresis(r, v)
  {
    if r.high.Some? {
      HighBand(r, v);
    }
    if r.low.Some? {
      LowBand(r, v);
    }
  }

  /**
   An active alarm is reported ended at exactly the ticks that read the signal back by more than the hysteresis: as
   cleared, still to be acknowledged, or as returned to normal if it had been.
   */
  lemma ActiveTick(x: Instance, v: real, now: int)
    requires IsActive(x.state) && x.rule.enabled
    ensures var (y, events) := Step(x, Tick(Some(v), now));
      && (events != [] <==> BackByHysteresis(x.rule, v))
      && (events == [] ==> y == x.(currentValue := v))
      && (events != [] && x.state == ACTIVE_UNACKED ==>
            events == [Event(Cleared, x.rule.alarmId, v)] &&
            y == x.(currentValue := v, state := CLEARED_UNACKED, clearedAt := now))
      && (events != [] && x.state == ACTIVE_ACKED ==>
            events == [Event(ReturnedToNormal, x.rule.alarmId, v)] &&
            y == x.(currentValue := v, state := RTN, clearedAt := now, rtnAt := now))
  {
    ClearedByHysteresis(x.rule, v);
  }

  /** A cleared alarm nobody has acknowledged is raised again, without delay, by exactly the ticks past a threshold. */
  lemma ClearedTick(x: Instance, v: real, now: int)
    requires x.state == CLEARED_UNACKED && x.rule.enabled
    ensures var (y, events) := Step(x, Tick(Some(v), now));
      && (events != [] <==> PastThreshold(x.rule, v))
      && (events == [] ==> y == x.(currentValue := v))
      && (events != [] ==>
            events == [Event(Activated, x.rule.alarmId, v)] &&
            y == x.(currentValue := v, state := ACTIVE_UNACKED, activatedAt := now))
  {
  }

  /** What `DelayExactness` calls beyond is past a threshold, and nothing else. */
  lemma BeyondIsPastThreshold(r: Rule, t: Action)
    ensures Beyond(r, t) <==> t.Tick? && t.value.Some? && PastThreshold(r, t.value.value)
  {
  }

  /** RTN lasts until the next tick that reads the signal, which wipes the times of the episode. */
  lemma RtnLastsOneTick(x: Instance, v: real, now: int)
    requires x.state == RTN && x.rule.enabled
    ensures var (y, events) := Step(x, Tick(Some(v), now));
      && (events == [] ==> y.state == NORMAL && y.activatedAt == 0)
      && (events != [] ==> y.state == ACTIVE_UNACKED && y.activatedAt == now && PastThreshold(x.rule, v))
      && y.acknowledgedAt == 0 && y.clearedAt == 0 && y.rtnAt == 0 && y.currentValue == v
  {
  }

  /** A signal that cannot be read stops the timer and nothing else; a disabled alarm is not evaluated at all. */
  lemma UnreadTick(x: Instance, v: Option<real>, now: int)
    ensures !x.rule.enabled ==> Step(x, Tick(v, now)) == (x, [])
    ensures x.rule.enabled ==> Step(x, Tick(None, now)) == (x.(exceededSince := None), [])
  {
  }

  /** A reload carries a lifecycle that is out of NORMAL, with the times of its activation and acknowledgement. */
  lemma ReloadCarries(x: Instance, r: Rule)
    ensures var (y, events) := Step(x, Reload(r));
      && events == [] && y.rule == r && y.state == x.state
      && (x.state == NORMAL ==> y == Instance(r, NORMAL, None, 0.0, 0, 0, 0, 0))
      && (x.state != NORMAL ==> y.activatedAt == x.activatedAt && y.acknowledgedAt == x.acknowledgedAt)
  {
  }

  // ----- The lifecycle -----

  /** Told from the outside: whether the alarm stands, and whether it has been acknowledged since it was raised. */
  datatype Standing = Standing(active: bool, acknowledged: bool)

  function StandingAfter(r: Rule, actions: seq<Action>): Standing {
    if actions == [] then Standing(false, true)
    else
      var n := |actions| - 1;
      var before := StandingAfter(r, actions[..n]);
      var events := Step(Run(Built(r), actions[..n]).0, actions[n]).1;
      if actions[n].Acknowledge? then before.(acknowledged := true)
      else if events == [] then before
      else if events[0].kind == Activated then Standing(true, false)
      else before.(active := false)
  }

  predicate StateTells(s: AlarmState, standing: Standing) {
    && (s == ACTIVE_UNACKED <==> standing == Standing(true, false))
    && (s == ACTIVE_ACKED <==> standing == Standing(true, true))
    && (s == CLEARED_UNACKED <==> standing == Standing(false, false))
    && (s == NORMAL || s == RTN <==> standing == Standing(false, true))
  }

  lemma StandingStep(x: Instance, a: Action, standing: Standing)
    requires StateTells(x.state, standing)
    ensures var (y, events) := Step(x, a);
      StateTells(y.state,
        if a.Acknowledge? then standing.(acknowledged := true)
        else if events == [] then standing
        else if events[0].kind == Activated then Standing(true, false)
        else standing.(active := false))
    ensures var (y, events) := Step(x, a);
      events != [] && events[0].kind != Activated ==>
        (events[0].kind == Cleared <==> !standing.acknowledged) &&
        (events[0].kind == ReturnedToNormal <==> standing.acknowledged)
  {
  }

  /**
   In every run the state tells exactly whether the alarm stands and whether it has been acknowledged since it was last
   raised, and an alarm's end is reported as a return to normal exactly when it had been acknowledged.
   */
  lemma {:induction false} Lifecycle(r: Rule, actions: seq<Action>, next: Action)
    ensures var x := Run(Built(r), actions).0;
      var events := Step(x, next).1;
      && StateTells(x.state, StandingAfter(r, actions))
      && (events != [] && events[0].kind != Activated ==>
            (events[0].kind == ReturnedToNormal <==> StandingAfter(r, actions).acknowledged))
    decreases |actions|
  {
    if actions != [] {
      var n := |actions| - 1;
      Lifecycle(r, actions[..n], actions[n]);
      StandingStep(Run(Built(r), actions[..n]).0, actions[n], StandingAfter(r, actions[..n]));
    }
    StandingStep(Run(Built(r), actions).0, next, StandingAfter(r, actions));
  }

  /** When an acknowledgement is accepted, and what it records. */
  lemma AcknowledgeRecords(x: Instance, at: int)
    ensures var y := Step(x, Acknowledge(at)).0;
      && (x.state == ACTIVE_UNACKED ==> y == x.(state := ACTIVE_ACKED, acknowledgedAt := at))
      && (x.state == CLEARED_UNACKED ==> y == x.(state := RTN, acknowledgedAt := at, rtnAt := at))
      && (x.state != ACTIVE_UNACKED && x.state != CLEARED_UNACKED ==> y == x)
  {
  }

  // ----- The objects -----

  /** `AlarmInstance`; the methods are the per-instance ones of `AlarmEvaluator`. */
  class AlarmInstance {
    const rule: Rule
    const highClear: Option<real>
    const lowClear: Option<real>
    var state: AlarmState
    var exceededSince: Option<int>
    var currentValue: real
    var activatedAt: int
    var acknowledgedAt: int
    var clearedAt: int
    var rtnAt: int

    ghost function View(): Instance
      reads this
    {
      Instance(rule, state, exceededSince, currentValue, activatedAt, acknowledgedAt, clearedAt, rtnAt)
    }

    /** The pre-computed clear thresholds. */
    ghost predicate Valid() {
      highClear == HighClear(rule) && lowClear == LowClear(rule)
    }

    constructor (r: Rule)
      ensures Valid() && View() == Built(r)
    {
      rule := r;
      highClear := HighClear(r);
      lowClear := LowClear(r);
      state, exceededSince, currentValue := NORMAL, None, 0.0;
      activatedAt, acknowledgedAt, clearedAt, rtnAt := 0, 0, 0, 0;
    }

    method CheckExceeds(v: real) returns (b: bool)
      ensures b == Exceeds(rule, v)
    {
      if rule.high.Some? && v > rule.high.value {
        return true;
      }
      if rule.low.Some? && v < rule.low.value {
        return true;
      }
      return false;
    }

    method CheckCleared(v: real) returns (b: bool)
      requires Valid()
      ensures b == HasCleared(rule, v)
    {
      if rule.high.Some? && highClear.Some? {
        if v >= highClear.value {
          return false;
        }
      }
      if rule.low.Some? && lowClear.Some? {
        if v <= lowClear.value {
          return false;
        }
      }
      return true;
    }

    method EvaluateOne(v: Option<real>, now: int) returns (events: seq<Event>)
      requires Valid()
      modifies this
      ensures Valid() && (View(), events) == Evaluated(old(View()), v, now)
    {
      if v.None? {
        exceededSince := None;
        return [];
      }
      currentValue := v.value;
      if state == RTN {
        state := NORMAL;
        activatedAt, acknowledgedAt, clearedAt, rtnAt := 0, 0, 0, 0;
        exceededSince := None;
      }
      if state == NORMAL {
        events := HandleNormal(v.value, now);
      } else {
        events := HandleAlarm(v.value, now);
      }
    }

    /** The turn of this instance in `evaluate_tick`. */
    method EvaluateIfEnabled(values: map<string, real>, now: int) returns (events: seq<Event>)
      requires Valid()
      modifies this
      ensures (View(), events) == Step(old(View()), Tick(ValueOf(rule, values), now))
    {
      events := [];
      if rule.enabled {
        events := EvaluateOne(ValueOf(rule, values), now);
      }
    }

    method HandleNormal(v: real, now: int) returns (events: seq<Event>)
      modifies this
      ensures (View(), events) == InNormal(old(View()), v, now)
    {
      var exceeds := CheckExceeds(v);
      if !exceeds {
        exceededSince := None;
        return [];
      }
      if exceededSince.None? {
        exceededSince := Some(now);
      }
      var elapsed := now - exceededSince.value;
      if elapsed < rule.delayMs {
        return [];
      }
      state := ACTIVE_UNACKED;
      activatedAt := now;
      exceededSince := None;
      events := [Event(Activated, rule.alarmId, currentValue)];
    }

    method HandleAlarm(v: real, now: int) returns (events: seq<Event>)
      requires Valid()
      modifies this
      ensures (View(), events) == InAlarm(old(View()), v, now)
    {
      events := [];
      if state == CLEARED_UNACKED {
        var exceeds := CheckExceeds(v);
        if exceeds {
          state := ACTIVE_UNACKED;
          activatedAt := now;
          events := [Event(Activated, rule.alarmId, currentValue)];
        }
        return;
      }
      var cleared := CheckCleared(v);
      if cleared && state == ACTIVE_UNACKED {
        state := CLEARED_UNACKED;
        clearedAt := now;
        events := [Event(Cleared, rule.alarmId, currentValue)];
      } else if cleared && state == ACTIVE_ACKED {
        state := RTN;
        clearedAt := now;
        rtnAt := now;
        events := [Event(ReturnedToNormal, rule.alarmId, currentValue)];
      }
    }

    method Acknowledge(at: int) returns (ok: bool)
      modifies this
      ensures View() == Acknowledged(old(View()), at)
      ensures ok <==> old(state) == ACTIVE_UNACKED || old(state) == CLEARED_UNACKED
    {
      ok := false;
      if state == ACTIVE_UNACKED {
        state := ACTIVE_ACKED;
        acknowledgedAt := at;
        ok := true;
      } else if state == CLEARED_UNACKED {
        state := RTN;
        acknowledgedAt := at;
        rtnAt := at;
        ok := true;
      }
    }

    /** What `_poll_config_reload` copies from the instance being replaced. */
    method CarryOver(replaced: AlarmInstance)
      requires View() == Built(rule)
      modifies this
      ensures View() == Carried(old(replaced.View()), rule)
    {
      if replaced.state != NORMAL {
        state := replaced.state;
        activatedAt := replaced.activatedAt;
        acknowledgedAt := replaced.acknowledgedAt;
        exceededSince := replaced.exceededSince;
      }
    }
  }

  /** What one tick does to all alarms, in their order. */
  function TickAll(xs: seq<Instance>, values: map<string, real>, now: int): (seq<Instance>, seq<Event>) {
    if xs == [] then ([], []) else
    var n := |xs| - 1;
    var (ys, events) := TickAll(xs[..n], values, now);
    var (y, more) := Step(xs[n], Tick(ValueOf(xs[n].rule, values), now));
    (ys + [y], events + more)
  }

  lemma TickAllStep(xs: seq<Instance>, values: map<string, real>, now: int, i: nat)
    requires i < |xs|
    ensures var (ys, events) := TickAll(xs[..i], values, now);
      var (y, more) := Step(xs[i], Tick(ValueOf(xs[i].rule, values), now));
      TickAll(xs[..i + 1], values, now) == (ys + [y], events + more)
  {
    assert xs[..i + 1][..i] == xs[..i];
  }

  function ValueOf(r: Rule, values: map<string, real>): Option<real> {
    if r.signal in values then Some(values[r.signal]) else None
  }

  /** Every alarm takes its own signal's value, if there is one, and adds its events after those of the alarms before it. */
  lemma {:induction false} EveryAlarmTicks(xs: seq<Instance>, values: map<string, real>, now: int, i: nat)
    requires i < |xs|
    ensures
      var signal := xs[i].rule.signal;
      var (y, more) := Step(xs[i], Tick(if signal in values then Some(values[signal]) else None, now));
      && |TickAll(xs, values, now).0| == |xs|
      && TickAll(xs, values, now).0[i] == y
      && TickAll(xs[..i + 1], values, now).1 == TickAll(xs[..i], values, now).1 + more
    decreases |xs|
  {
    var n := |xs| - 1;
    TickAllStep(xs, values, now, i);
    if i < n {
      EveryAlarmTicks(xs[..n], values, now, i);
      assert xs[..n][i] == xs[i];
    } else {
      TickAllLength(xs[..n], values, now);
    }
  }

  lemma {:induction false} TickAllLength(xs: seq<Instance>, values: map<string, real>, now: int)
    ensures |TickAll(xs, values, now).0| == |xs|
    decreases |xs|
  {
    if xs != [] {
      TickAllLength(xs[..|xs| - 1], values, now);
    }
  }

  /** `AlarmEvaluator`: the instances in configuration order, each a different object. */
  class AlarmEvaluator {
    var instances: seq<AlarmInstance>

    ghost predicate Valid()
      reads this
    {
      && (forall i | 0 <= i < |instances| :: instances[i].Valid())
      && forall i, j | 0 <= i < j < |instances| :: instances[i] != instances[j]
    }

    ghost function Views(upTo: nat): (views: seq<Instance>)
      requires upTo <= |instances|
      reads this, instances
      ensures |views| == upTo
    {
      seq(upTo, i requires 0 <= i < |instances| reads this, instances => instances[i].View())
    }

    constructor (instances: seq<AlarmInstance>)
      requires forall i | 0 <= i < |instances| :: instances[i].Valid()
      requires forall i, j | 0 <= i < j < |instances| :: instances[i] != instances[j]
      ensures Valid() && this.instances == instances
    {
      this.instances := instances;
    }

    /** `evaluate_tick` */
    method EvaluateTick(values: map<string, real>, now: int) returns (events: seq<Event>)
      requires Valid()
      modifies instances
      ensures Valid() && instances == old(instances)
      ensures (Views(|instances|), events) == TickAll(old(Views(|instances|)), values, now)
    {
      ghost var before := Views(|instances|);
      ghost var after: seq<Instance> := [];
      events := [];
      var i := 0;
      while i < |instances|
        invariant 0 <= i <= |instances| && instances == old(instances) && |after| == i
        invariant forall k | 0 <= k < |instances| :: instances[k].View() == if k < i then after[k] else before[k]
        invariant (after, events) == TickAll(before[..i], values, now)
      {
        TickAllStep(before, values, now, i);
        var more := instances[i].EvaluateIfEnabled(values, now);
        after := after + [instances[i].View()];
        events := events + more;
        i := i + 1;
      }
      assert before[..|instances|] == before && Views(|instances|) == after;
    }
  }
}
