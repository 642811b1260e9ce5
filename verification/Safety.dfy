/**
 The safety scan loop: `evaluate_inputs`, `evaluate_response_matrix` and `safety_reset` of `response_matrix.c`,
 the raw check of `safety_reset.c`, and the loop of `main.c` that composes them.

 Output properties are about the computed `do_out`; whether the pins follow is outside the model.
 */
module Safety {
  import opened Wrappers

  const NUM_DI: nat := 8

  type Byte = n: nat | n < 256

  type Inputs = s: seq<Byte> | |s| == 8 witness [0, 0, 0, 0, 0, 0, 0, 0]
  type Polarity = s: seq<bool> | |s| == 8 witness [false, false, false, false, false, false, false, false]

  const DI_ACDB_FEEDBACK: nat := 0
  const DI_FLOOD_SENSOR: nat := 1
  const DI_DOOR_SWITCH: nat := 2
  const DI_SMOKE_DETECTOR: nat := 3
  const DI_HEAT_DETECTOR: nat := 4
  const DI_ESTOP_NO: nat := 6
  const DI_ESTOP_NC: nat := 7

  const DO_ACDB_TRIP: bv8 := 0x01
  const DO_EXTINGUISHER: bv8 := 0x02
  const DO_WARNING_LAMP: bv8 := 0x04
  const DO_RUNNING_LAMP: bv8 := 0x08
  const DO_FAULT_LAMP: bv8 := 0x10
  const DO_PCS_STOP: bv8 := 0x20
  const DO_SIREN: bv8 := 0x40
  const PROTECTIVE_OUTPUTS: bv8 := 0x63

  /** Trip, fault lamp, PCS stop and siren. */
  const TRIP_RESPONSE: bv8 := 0x71

  /** The compiled-in configuration: the door switch and the E-Stop NC contact are active low. */
  const RESIDENTIAL: Polarity := [false, false, true, false, false, false, false, true]

  datatype SafetyState = SafetyState(
    estopActive: bool, fireActive: bool, floodActive: bool,
    acdbLoss: bool, doorOpen: bool, gpioFailure: bool,
    estopDiscrepancy: bool, fireSingleSensor: bool,
    estopLatched: bool, fireLatched: bool, floodLatched: bool)

  // ----- Inputs -----

  /** `apply_active_low` */
  predicate Logical(di: Inputs, pol: Polarity, pin: nat)
    requires pin < NUM_DI
  {
    if pol[pin] then di[pin] == 0 else di[pin] != 0
  }

  predicate EstopPressed(di: Inputs, pol: Polarity) {
    Logical(di, pol, DI_ESTOP_NO) && Logical(di, pol, DI_ESTOP_NC)
  }

  predicate EstopReleased(di: Inputs, pol: Polarity) {
    !Logical(di, pol, DI_ESTOP_NO) && !Logical(di, pol, DI_ESTOP_NC)
  }

  predicate FireConfirmed(di: Inputs, pol: Polarity) {
    Logical(di, pol, DI_SMOKE_DETECTOR) && Logical(di, pol, DI_HEAT_DETECTOR)
  }

  predicate FireClear(di: Inputs, pol: Polarity) {
    !Logical(di, pol, DI_SMOKE_DETECTOR) && !Logical(di, pol, DI_HEAT_DETECTOR)
  }

  predicate Flooded(di: Inputs, pol: Polarity) {
    Logical(di, pol, DI_FLOOD_SENSOR)
  }

  /** Every latch and warning, from the levels of the inputs behind it. */
  function ByLevels(s: SafetyState, ch1: bool, ch2: bool, smoke: bool, heat: bool, flood: bool, feedback: bool, door: bool)
    : SafetyState
  {
    s.(estopActive := (ch1 && ch2) || (s.estopLatched && s.estopActive),
       estopLatched := (ch1 && ch2) || s.estopLatched,
       estopDiscrepancy := ch1 != ch2,
       fireActive := (smoke && heat) || (s.fireLatched && s.fireActive),
       fireLatched := (smoke && heat) || s.fireLatched,
       fireSingleSensor := smoke != heat,
       floodActive := flood || (s.floodLatched && s.floodActive),
       floodLatched := flood || s.floodLatched,
       acdbLoss := !feedback,
       doorOpen := door)
  }

  /** `evaluate_inputs` */
  function Evaluated(s: SafetyState, di: Inputs, pol: Polarity): SafetyState {
    ByLevels(s, Logical(di, pol, DI_ESTOP_NO), Logical(di, pol, DI_ESTOP_NC),
             Logical(di, pol, DI_SMOKE_DETECTOR), Logical(di, pol, DI_HEAT_DETECTOR),
             Logical(di, pol, DI_FLOOD_SENSOR), Logical(di, pol, DI_ACDB_FEEDBACK), Logical(di, pol, DI_DOOR_SWITCH))
  }

  // ----- Outputs -----

  function When(b: bool, outputs: bv8): bv8 {
    if b then outputs else 0
  }

  /** `evaluate_response_matrix` */
  function Matrix(s: SafetyState): bv8 {
    var outputs :=
      When(s.estopActive, DO_ACDB_TRIP | DO_FAULT_LAMP | DO_PCS_STOP | DO_SIREN) |
      When(s.fireActive, DO_ACDB_TRIP | DO_EXTINGUISHER | DO_FAULT_LAMP | DO_PCS_STOP | DO_SIREN) |
      When(s.floodActive, DO_ACDB_TRIP | DO_FAULT_LAMP | DO_PCS_STOP | DO_SIREN) |
      When(s.acdbLoss, DO_FAULT_LAMP | DO_PCS_STOP | DO_SIREN) |
      When(s.doorOpen || s.fireSingleSensor || s.estopDiscrepancy, DO_WARNING_LAMP) |
      When(s.gpioFailure, DO_ACDB_TRIP | DO_EXTINGUISHER | DO_FAULT_LAMP | DO_PCS_STOP | DO_SIREN);
    outputs | When(outputs & PROTECTIVE_OUTPUTS == 0, DO_RUNNING_LAMP)
  }

  predicate Asserts(outputs: bv8, mask: bv8) {
    outputs & mask == mask
  }

  // ----- Reset -----

  /** Each latch goes if its own inputs allow it. */
  function Released(s: SafetyState, estop: bool, fire: bool, flood: bool): SafetyState {
    s.(estopLatched := s.estopLatched && !estop, estopActive := s.estopActive && !(s.estopLatched && estop),
       fireLatched := s.fireLatched && !fire, fireActive := s.fireActive && !(s.fireLatched && fire),
       floodLatched := s.floodLatched && !flood, floodActive := s.floodActive && !(s.floodLatched && flood))
  }

  /** `safety_reset`, by logical polarity */
  function Reset(s: SafetyState, di: Inputs, pol: Polarity): SafetyState {
    Released(s, EstopReleased(di, pol), FireClear(di, pol), !Flooded(di, pol))
  }

  predicate AnyLatched(s: SafetyState) {
    s.estopLatched || s.fireLatched || s.floodLatched
  }

  /** `check_inputs_clear`, by raw value: only the inputs of what is latched are looked at. */
  predicate InputsClear(di: Inputs, s: SafetyState) {
    && (s.estopLatched ==> di[DI_ESTOP_NO] == 0 && di[DI_ESTOP_NC] == 1)
    && (s.fireLatched ==> di[DI_SMOKE_DETECTOR] == 0 && di[DI_HEAT_DETECTOR] == 0)
    && (s.floodLatched ==> di[DI_FLOOD_SENSOR] == 0)
  }

  // ----- The scan loop -----

  /** One turn of the loop: what `read_di` yields (`None` when it fails), and whether a reset command has arrived. */
  datatype Scan = Scan(read: Option<Inputs>, resetRequested: bool)

  /** `diRaw` keeps the last successful reading. */
  datatype Loop = Loop(state: SafetyState, diRaw: Inputs, doOut: bv8)

  function Startup(gpioOk: bool): Loop {
    Loop(SafetyState(false, false, false, false, false, !gpioOk, false, false, false, false, false),
         [0, 0, 0, 0, 0, 0, 0, 0], 0)
  }

  /** Steps 1 and 2: read and evaluate, unless GPIO has failed. */
  function Sensed(x: Loop, scan: Scan, pol: Polarity): Loop {
    if x.state.gpioFailure then x
    else match scan.read
      case None => x.(state := x.state.(gpioFailure := true))
      case Some(di) => x.(state := Evaluated(x.state, di, pol), diRaw := di)
  }

  /** The raw check lets the reset through. */
  predicate Accepts(x: Loop, scan: Scan, pol: Polarity) {
    scan.resetRequested && InputsClear(Sensed(x, scan, pol).diRaw, Sensed(x, scan, pol).state)
  }

  /** The state after a turn: what was sensed, less what an accepted reset releases. */
  function Turned(x: Loop, scan: Scan, pol: Polarity): SafetyState {
    var y := Sensed(x, scan, pol);
    if Accepts(x, scan, pol) then Reset(y.state, y.diRaw, pol) else y.state
  }

  function Scanned(x: Loop, scan: Scan, pol: Polarity): Loop {
    Loop(Turned(x, scan, pol), Sensed(x, scan, pol).diRaw, Matrix(Turned(x, scan, pol)))
  }

  function Run(gpioOk: bool, scans: seq<Scan>): Loop {
    if scans == [] then Startup(gpioOk)
    else Scanned(Run(gpioOk, scans[..|scans| - 1]), scans[|scans| - 1], RESIDENTIAL)
  }

  // ----- The two polarity conventions -----

  /** A reset that the raw check accepts clears every latch. */
  ghost predicate AllOrNothing(pol: Polarity) {
    forall di: Inputs, s: SafetyState :: InputsClear(di, s) ==> !AnyLatched(Reset(s, di, pol))
  }

  /**
   The raw check and the logical reset agree on every accepted reset exactly when the pins they share have the
   polarity the raw check has built in.
   */
  lemma AllOrNothingIff(pol: Polarity)
    ensures AllOrNothing(pol) <==>
      !pol[DI_ESTOP_NO] && pol[DI_ESTOP_NC] && !pol[DI_SMOKE_DETECTOR] && !pol[DI_HEAT_DETECTOR] && !pol[DI_FLOOD_SENSOR]
  {
    if AllOrNothing(pol) {
      var di: Inputs := [0, 0, 0, 0, 0, 0, 0, 1];
      var s := Startup(true).state.(estopLatched := true, fireLatched := true, floodLatched := true);
      assert InputsClear(di, s);
      var r := Reset(s, di, pol);
      assert !AnyLatched(r);
    }
  }

  /** With the compiled-in polarity an accepted reset clears everything, latches and responses alike. */
  lemma AcceptedResetClearsAll(s: SafetyState, di: Inputs)
    requires InputsClear(di, s)
    ensures !AnyLatched(Reset(s, di, RESIDENTIAL))
  {
    AllOrNothingIff(RESIDENTIAL);
  }

  /**
   With the compiled-in polarity the raw check is as strict as the logical one, and stricter only when a latched
   E-Stop has the NC contact read as a value other than 0 and 1.
   */
  lemma RawCheckAgainstLogical(s: SafetyState, di: Inputs)
    ensures !AnyLatched(Reset(s, di, RESIDENTIAL)) && !InputsClear(di, s) <==>
      && s.estopLatched && di[DI_ESTOP_NO] == 0 && di[DI_ESTOP_NC] > 1
      && (s.fireLatched ==> FireClear(di, RESIDENTIAL)) && (s.floodLatched ==> !Flooded(di, RESIDENTIAL))
  {
  }

  /** What each flag means on the raw inputs of the compiled-in configuration. */
  lemma RawMeaning(s: SafetyState, di: Inputs)
    ensures var t := Evaluated(s, di, RESIDENTIAL);
      && t.estopLatched == (s.estopLatched || (di[6] != 0 && di[7] == 0))
      && t.fireLatched == (s.fireLatched || (di[3] != 0 && di[4] != 0))
      && t.floodLatched == (s.floodLatched || di[1] != 0)
      && t.estopActive == ((di[6] != 0 && di[7] == 0) || (s.estopLatched && s.estopActive))
      && t.fireActive == ((di[3] != 0 && di[4] != 0) || (s.fireLatched && s.fireActive))
      && t.floodActive == (di[1] != 0 || (s.floodLatched && s.floodActive))
      && t.estopDiscrepancy == ((di[6] != 0) != (di[7] == 0))
      && t.fireSingleSensor == ((di[3] != 0) != (di[4] != 0))
      && t.acdbLoss == (di[0] == 0)
      && t.doorOpen == (di[2] == 0)
      && t.gpioFailure == s.gpioFailure
  {
  }

  /** What a reset releases, on the raw inputs: each latch by its own inputs and no other's. */
  lemma RawReset(s: SafetyState, di: Inputs)
    ensures var t := Reset(s, di, RESIDENTIAL);
      && t.estopLatched == (s.estopLatched && !(di[6] == 0 && di[7] != 0))
      && t.fireLatched == (s.fireLatched && !(di[3] == 0 && di[4] == 0))
      && t.floodLatched == (s.floodLatched && di[1] != 0)
      && (s.estopLatched == t.estopLatched ==> t.estopActive == s.estopActive)
      && (s.fireLatched == t.fireLatched ==> t.fireActive == s.fireActive)
      && (s.floodLatched == t.floodLatched ==> t.floodActive == s.floodActive)
      && t.acdbLoss == s.acdbLoss && t.doorOpen == s.doorOpen && t.gpioFailure == s.gpioFailure
      && t.estopDiscrepancy == s.estopDiscrepancy && t.fireSingleSensor == s.fireSingleSensor
  {
  }

  // ----- Every reachable state -----

  /** Fault lamp, protective outputs and running lamp. */
  lemma Lamps(s: SafetyState)
    ensures (Matrix(s) & DO_FAULT_LAMP != 0) <==> (Matrix(s) & PROTECTIVE_OUTPUTS != 0)
    ensures (Matrix(s) & PROTECTIVE_OUTPUTS != 0) <==> (Matrix(s) & DO_RUNNING_LAMP == 0)
  {
  }

  /** Each bit of the mask, by number, and what it is asserted for. */
  lemma MatrixByCause(s: SafetyState)
    ensures
      var tripped := s.estopActive || s.fireActive || s.floodActive;
      var m := Matrix(s);
      && (tripped ==> Asserts(m, 0x71))
      && (m & 0x01 != 0 <==> tripped || s.gpioFailure)
      && (m & 0x02 != 0 <==> s.fireActive || s.gpioFailure)
      && (m & 0x04 != 0 <==> s.doorOpen || s.fireSingleSensor || s.estopDiscrepancy)
      && (m & 0x08 != 0 <==> !(tripped || s.acdbLoss || s.gpioFailure))
      && (m & 0x10 != 0 <==> tripped || s.acdbLoss || s.gpioFailure)
      && (m & 0x20 != 0 <==> tripped || s.acdbLoss || s.gpioFailure)
      && (m & 0x40 != 0 <==> tripped || s.acdbLoss || s.gpioFailure)
      && m & 0x80 == 0
  {
  }

  // ----- Three latches, one rule -----

  datatype Cause = Estop | Fire | Flood

  predicate Confirms(cause: Cause, di: Inputs) {
    match cause
    case Estop => EstopPressed(di, RESIDENTIAL)
    case Fire => FireConfirmed(di, RESIDENTIAL)
    case Flood => Flooded(di, RESIDENTIAL)
  }

  /** The inputs behind the cause read normal. */
  predicate Normal(cause: Cause, di: Inputs) {
    match cause
    case Estop => EstopReleased(di, RESIDENTIAL)
    case Fire => FireClear(di, RESIDENTIAL)
    case Flood => !Flooded(di, RESIDENTIAL)
  }

  predicate Latched(cause: Cause, s: SafetyState) {
    match cause
    case Estop => s.estopLatched
    case Fire => s.fireLatched
    case Flood => s.floodLatched
  }

  predicate Active(cause: Cause, s: SafetyState) {
    match cause
    case Estop => s.estopActive
    case Fire => s.fireActive
    case Flood => s.floodActive
  }

  /** This turn of the loop reads the inputs and finds the cause confirmed. */
  predicate SeesConfirmed(cause: Cause, x: Loop, scan: Scan) {
    !x.state.gpioFailure && scan.read.Some? && Confirms(cause, scan.read.value)
  }

  /** What every turn of the loop keeps. */
  ghost predicate ActiveIsLatched(s: SafetyState) {
    forall cause: Cause :: Active(cause, s) <==> Latched(cause, s)
  }

  lemma EvaluatedLatch(cause: Cause, s: SafetyState, di: Inputs)
    ensures Latched(cause, Evaluated(s, di, RESIDENTIAL)) <==> Latched(cause, s) || Confirms(cause, di)
    ensures (Active(cause, s) <==> Latched(cause, s)) ==>
      (Active(cause, Evaluated(s, di, RESIDENTIAL)) <==> Latched(cause, Evaluated(s, di, RESIDENTIAL)))
  {
    match cause
    case Estop =>
    case Fire =>
    case Flood =>
  }

  lemma ResetLatch(cause: Cause, s: SafetyState, di: Inputs)
    requires InputsClear(di, s)
    ensures !Latched(cause, Reset(s, di, RESIDENTIAL))
    ensures (Active(cause, s) <==> Latched(cause, s)) ==> !Active(cause, Reset(s, di, RESIDENTIAL))
    ensures Latched(cause, s) ==> Normal(cause, di) && !Confirms(cause, di)
  {
    match cause
    case Estop =>
    case Fire =>
    case Flood =>
  }

  /** Sensing evaluates what was read, and leaves the latches alone otherwise. */
  lemma SensedEvaluates(x: Loop, scan: Scan, pol: Polarity)
    ensures !x.state.gpioFailure && scan.read.Some? ==>
      Sensed(x, scan, pol) == x.(state := Evaluated(x.state, scan.read.value, pol), diRaw := scan.read.value)
    ensures !(!x.state.gpioFailure && scan.read.Some?) ==>
      Sensed(x, scan, pol) == x.(state := Sensed(x, scan, pol).state) &&
      Sensed(x, scan, pol).state == x.state.(gpioFailure := true)
  {
  }

  lemma FailureLeavesLatches(cause: Cause, s: SafetyState)
    ensures Latched(cause, s.(gpioFailure := true)) == Latched(cause, s)
    ensures Active(cause, s.(gpioFailure := true)) == Active(cause, s)
  {
  }

  lemma SensedLatch(cause: Cause, x: Loop, scan: Scan)
    ensures Latched(cause, Sensed(x, scan, RESIDENTIAL).state) <==>
      Latched(cause, x.state) || SeesConfirmed(cause, x, scan)
    ensures (Active(cause, x.state) <==> Latched(cause, x.state)) ==>
      (Active(cause, Sensed(x, scan, RESIDENTIAL).state) <==> Latched(cause, Sensed(x, scan, RESIDENTIAL).state))
    ensures SeesConfirmed(cause, x, scan) ==> Sensed(x, scan, RESIDENTIAL).diRaw == scan.read.value
  {
    SensedEvaluates(x, scan, RESIDENTIAL);
    if !x.state.gpioFailure && scan.read.Some? {
      EvaluatedLatch(cause, x.state, scan.read.value);
    } else {
      FailureLeavesLatches(cause, x.state);
    }
  }

  /** One turn: a latch is set by confirmation, and released by nothing but an accepted reset. */
  lemma LatchStep(cause: Cause, x: Loop, scan: Scan)
    ensures
      var y := Scanned(x, scan, RESIDENTIAL);
      Latched(cause, y.state) <==>
        (Latched(cause, x.state) || SeesConfirmed(cause, x, scan)) && !Accepts(x, scan, RESIDENTIAL)
    ensures SeesConfirmed(cause, x, scan) ==> !Accepts(x, scan, RESIDENTIAL)
  {
    SensedLatch(cause, x, scan);
    if Accepts(x, scan, RESIDENTIAL) {
      ResetLatch(cause, Sensed(x, scan, RESIDENTIAL).state, Sensed(x, scan, RESIDENTIAL).diRaw);
    }
  }

  /** A reset is accepted only if the inputs behind every latch it releases were last read normal. */
  lemma AcceptedOnlyIfNormal(cause: Cause, x: Loop, scan: Scan)
    requires Accepts(x, scan, RESIDENTIAL) && Latched(cause, x.state)
    ensures !Latched(cause, Scanned(x, scan, RESIDENTIAL).state)
    ensures Normal(cause, Scanned(x, scan, RESIDENTIAL).diRaw)
    ensures !x.state.gpioFailure && scan.read.Some? ==> Normal(cause, scan.read.value)
  {
    SensedLatch(cause, x, scan);
    ResetLatch(cause, Sensed(x, scan, RESIDENTIAL).state, Sensed(x, scan, RESIDENTIAL).diRaw);
  }

  lemma ActiveStep(x: Loop, scan: Scan)
    requires ActiveIsLatched(x.state)
    ensures ActiveIsLatched(Scanned(x, scan, RESIDENTIAL).state)
  {
    var z := Sensed(x, scan, RESIDENTIAL);
    var y := Scanned(x, scan, RESIDENTIAL).state;
    forall cause: Cause ensures Active(cause, y) <==> Latched(cause, y) {
      assert Active(cause, x.state) <==> Latched(cause, x.state);
      SensedLatch(cause, x, scan);
      if Accepts(x, scan, RESIDENTIAL) {
        ResetLatch(cause, z.state, z.diRaw);
      }
    }
  }

  lemma {:induction false} RunKeepsActiveLatched(gpioOk: bool, scans: seq<Scan>)
    ensures ActiveIsLatched(Run(gpioOk, scans).state)
    decreases |scans|
  {
    if scans != [] {
      RunKeepsActiveLatched(gpioOk, scans[..|scans| - 1]);
      ActiveStep(Run(gpioOk, scans[..|scans| - 1]), scans[|scans| - 1]);
    }
  }

  // ----- Whole runs -----

  /** Everything before scan `n` (that scan included, when `n` is one past it) was read without failure. */
  predicate AllRead(gpioOk: bool, scans: seq<Scan>, n: nat)
    requires n <= |scans|
  {
    gpioOk && forall k :: 0 <= k < n ==> scans[k].read.Some?
  }

  lemma PrefixStep(gpioOk: bool, scans: seq<Scan>, n: nat)
    requires n < |scans|
    ensures Run(gpioOk, scans[..n + 1]) == Scanned(Run(gpioOk, scans[..n]), scans[n], RESIDENTIAL)
  {
    assert scans[..n + 1][..n] == scans[..n];
  }

  /** Neither evaluation nor a reset touches the failure flag. */
  lemma FailureKept(s: SafetyState, di: Inputs, pol: Polarity)
    ensures Evaluated(s, di, pol).gpioFailure == s.gpioFailure
    ensures Reset(s, di, pol).gpioFailure == s.gpioFailure
  {
  }

  lemma FailureStep(x: Loop, scan: Scan, pol: Polarity)
    ensures Turned(x, scan, pol).gpioFailure <==> x.state.gpioFailure || scan.read.None?
  {
    var y := Sensed(x, scan, pol);
    if scan.read.Some? {
      FailureKept(x.state, scan.read.value, pol);
    }
    assert y.state.gpioFailure <==> x.state.gpioFailure || scan.read.None?;
    FailureKept(y.state, y.diRaw, pol);
  }

  predicate FailedAfter(gpioOk: bool, scans: seq<Scan>, n: nat)
    requires n <= |scans|
  {
    Run(gpioOk, scans[..n]).state.gpioFailure
  }

  lemma FailedNext(gpioOk: bool, scans: seq<Scan>, m: nat)
    requires m < |scans|
    ensures FailedAfter(gpioOk, scans, m + 1) <==> FailedAfter(gpioOk, scans, m) || scans[m].read.None?
  {
    PrefixStep(gpioOk, scans, m);
    FailureStep(Run(gpioOk, scans[..m]), scans[m], RESIDENTIAL);
  }

  lemma {:induction false} FailedIffNotAllRead(gpioOk: bool, scans: seq<Scan>, n: nat)
    requires n <= |scans|
    ensures FailedAfter(gpioOk, scans, n) <==> !AllRead(gpioOk, scans, n)
  {
    if n == 0 {
      assert scans[..0] == [];
    } else {
      FailedIffNotAllRead(gpioOk, scans, n - 1);
      FailedNext(gpioOk, scans, n - 1);
    }
  }

  /** GPIO failure is entered by the first failure to initialise or read, and never left. */
  lemma GpioFailureIsForever(gpioOk: bool, scans: seq<Scan>, n: nat)
    requires n <= |scans|
    ensures Run(gpioOk, scans[..n]).state.gpioFailure <==> !AllRead(gpioOk, scans, n)
  {
    FailedIffNotAllRead(gpioOk, scans, n);
  }

  /** Scan `i` confirms the cause. */
  predicate ConfirmedAt(cause: Cause, gpioOk: bool, scans: seq<Scan>, i: nat)
    requires i < |scans|
  {
    AllRead(gpioOk, scans, i + 1) && Confirms(cause, scans[i].read.value)
  }

  /** Scan `j` accepts a reset. */
  predicate ResetAt(gpioOk: bool, scans: seq<Scan>, j: nat)
    requires j < |scans|
  {
    Accepts(Run(gpioOk, scans[..j]), scans[j], RESIDENTIAL)
  }

  /** Scan `i` confirms the cause, and no scan from there to `n` accepts a reset. */
  ghost predicate Holds(cause: Cause, gpioOk: bool, scans: seq<Scan>, i: nat, n: nat)
    requires i < n <= |scans|
  {
    ConfirmedAt(cause, gpioOk, scans, i) && forall j: nat :: i < j < n ==> !ResetAt(gpioOk, scans, j)
  }

  ghost predicate SomeHolds(cause: Cause, gpioOk: bool, scans: seq<Scan>, n: nat)
    requires n <= |scans|
  {
    exists i: nat :: i < n && Holds(cause, gpioOk, scans, i, n)
  }

  lemma ConfirmedIsSeen(cause: Cause, gpioOk: bool, scans: seq<Scan>, i: nat)
    requires i < |scans|
    ensures ConfirmedAt(cause, gpioOk, scans, i) <==> SeesConfirmed(cause, Run(gpioOk, scans[..i]), scans[i])
  {
    GpioFailureIsForever(gpioOk, scans, i);
  }

  lemma SomeHoldsStep(cause: Cause, gpioOk: bool, scans: seq<Scan>, m: nat)
    requires m < |scans|
    requires ConfirmedAt(cause, gpioOk, scans, m) ==> !ResetAt(gpioOk, scans, m)
    ensures SomeHolds(cause, gpioOk, scans, m + 1) <==>
      (SomeHolds(cause, gpioOk, scans, m) || ConfirmedAt(cause, gpioOk, scans, m)) && !ResetAt(gpioOk, scans, m)
  {
    if SomeHolds(cause, gpioOk, scans, m + 1) {
      var i: nat :| i < m + 1 && Holds(cause, gpioOk, scans, i, m + 1);
      if i < m {
        assert Holds(cause, gpioOk, scans, i, m);
      }
    }
    if !ResetAt(gpioOk, scans, m) {
      if ConfirmedAt(cause, gpioOk, scans, m) {
        assert Holds(cause, gpioOk, scans, m, m + 1);
      } else if SomeHolds(cause, gpioOk, scans, m) {
        var i: nat :| i < m && Holds(cause, gpioOk, scans, i, m);
        assert Holds(cause, gpioOk, scans, i, m + 1);
      }
    }
  }

  /**
   In every run, a cause is latched at the end exactly when some scan confirmed it and no later scan accepted a reset.
   */
  lemma {:induction false} LatchedIffConfirmedSinceReset(cause: Cause, gpioOk: bool, scans: seq<Scan>, n: nat)
    requires n <= |scans|
    ensures Latched(cause, Run(gpioOk, scans[..n]).state) <==> SomeHolds(cause, gpioOk, scans, n)
  {
    if n > 0 {
      var m := n - 1;
      LatchedIffConfirmedSinceReset(cause, gpioOk, scans, m);
      PrefixStep(gpioOk, scans, m);
      ConfirmedIsSeen(cause, gpioOk, scans, m);
      LatchStep(cause, Run(gpioOk, scans[..m]), scans[m]);
      SomeHoldsStep(cause, gpioOk, scans, m);
    }
  }

  /**
   Safety over whole runs: from the scan that confirms a cause, trip, fault lamp, PCS stop and siren are in `do_out`
   on every later scan until a reset is accepted.
   */
  lemma TripHoldsUntilReset(cause: Cause, gpioOk: bool, scans: seq<Scan>, i: nat, n: nat)
    requires i < n <= |scans|
    requires Holds(cause, gpioOk, scans, i, n)
    ensures Asserts(Run(gpioOk, scans[..n]).doOut, TRIP_RESPONSE)
    ensures Run(gpioOk, scans[..n]).doOut & DO_RUNNING_LAMP == 0
  {
    LatchedIffConfirmedSinceReset(cause, gpioOk, scans, n);
    OutputsOfState(gpioOk, scans, n);
    var s := Run(gpioOk, scans[..n]).state;
    assert Active(cause, s) <==> Latched(cause, s);
    MatrixByCause(s);
    Lamps(s);
    TripExcludesRunning(Matrix(s));
  }

  lemma TripExcludesRunning(outputs: bv8)
    ensures Asserts(outputs, TRIP_RESPONSE) ==> outputs & PROTECTIVE_OUTPUTS != 0
  {
  }

  /** After every scan, `do_out` is the matrix of the current state, whose active flags are its latches. */
  lemma OutputsOfState(gpioOk: bool, scans: seq<Scan>, n: nat)
    requires 0 < n <= |scans|
    ensures Run(gpioOk, scans[..n]).doOut == Matrix(Run(gpioOk, scans[..n]).state)
    ensures ActiveIsLatched(Run(gpioOk, scans[..n]).state)
  {
    PrefixStep(gpioOk, scans, n - 1);
    RunKeepsActiveLatched(gpioOk, scans[..n]);
  }

  /**
   The extinguisher is commanded exactly when GPIO has failed, or some scan saw smoke and heat together and no reset
   has been accepted since.
   */
  lemma ExtinguisherOnlyForFire(gpioOk: bool, scans: seq<Scan>, n: nat)
    requires 0 < n <= |scans|
    ensures Run(gpioOk, scans[..n]).doOut & DO_EXTINGUISHER != 0 <==>
      || !AllRead(gpioOk, scans, n)
      || SomeHolds(Fire, gpioOk, scans, n)
  {
    LatchedIffConfirmedSinceReset(Fire, gpioOk, scans, n);
    GpioFailureIsForever(gpioOk, scans, n);
    OutputsOfState(gpioOk, scans, n);
    var s := Run(gpioOk, scans[..n]).state;
    assert Active(Fire, s) <==> Latched(Fire, s);
    MatrixByCause(s);
  }

  /** In every reachable state the fault lamp, a protective output and a dark running lamp come together. */
  lemma LampsInEveryRun(gpioOk: bool, scans: seq<Scan>, n: nat)
    requires 0 < n <= |scans|
    ensures
      var out := Run(gpioOk, scans[..n]).doOut;
      && (out & DO_FAULT_LAMP != 0 <==> out & PROTECTIVE_OUTPUTS != 0)
      && (out & PROTECTIVE_OUTPUTS != 0 <==> out & DO_RUNNING_LAMP == 0)
  {
    OutputsOfState(gpioOk, scans, n);
    Lamps(Run(gpioOk, scans[..n]).state);
  }

  // ----- The program -----

  /** `safety_state_t` with the buffers of `main`. */
  class SafetyManager {
    var estopActive: bool
    var fireActive: bool
    var floodActive: bool
    var acdbLoss: bool
    var doorOpen: bool
    var gpioFailure: bool
    var estopDiscrepancy: bool
    var fireSingleSensor: bool
    var estopLatched: bool
    var fireLatched: bool
    var floodLatched: bool
    const activeLow: Polarity
    const diRaw: array<Byte>
    const doOut: array<bv8>
    var doMask: bv8

    ghost predicate Valid() {
      diRaw.Length == NUM_DI && doOut.Length == NUM_DI && diRaw as object != doOut
    }

    ghost function State(): SafetyState
      reads this
    {
      SafetyState(estopActive, fireActive, floodActive, acdbLoss, doorOpen, gpioFailure,
                  estopDiscrepancy, fireSingleSensor, estopLatched, fireLatched, floodLatched)
    }

    ghost function View(): Loop
      requires Valid()
      reads this, diRaw
    {
      Loop(State(), diRaw[..], doMask)
    }

    constructor (gpioOk: bool)
      ensures Valid() && fresh(diRaw) && fresh(doOut)
      ensures activeLow == RESIDENTIAL && View() == Startup(gpioOk)
    {
      estopActive, fireActive, floodActive, acdbLoss, doorOpen := false, false, false, false, false;
      estopDiscrepancy, fireSingleSensor := false, false;
      estopLatched, fireLatched, floodLatched := false, false, false;
      gpioFailure := !gpioOk;
      activeLow := RESIDENTIAL;
      diRaw := new Byte[NUM_DI](_ => 0);
      doOut := new bv8[NUM_DI](_ => 0);
      doMask := 0;
    }

    /** The loop that opens both `evaluate_inputs` and `safety_reset`. */
    method LogicalInputs() returns (logical: array<bool>)
      requires Valid()
      ensures fresh(logical) && logical.Length == NUM_DI
      ensures forall i: nat :: i < NUM_DI ==> logical[i] == Logical(diRaw[..], activeLow, i)
    {
      logical := new bool[NUM_DI];
      for i := 0 to NUM_DI
        invariant forall k: nat :: k < i ==> logical[k] == Logical(diRaw[..], activeLow, k)
      {
        logical[i] := diRaw[i] != 0;
        if activeLow[i] {
          logical[i] := !logical[i];
        }
      }
    }

    /** Dual-channel E-Stop: both channels confirm, one alone is a wiring fault. */
    method EvaluateEstop(ch1: bool, ch2: bool)
      modifies `estopActive, `estopLatched, `estopDiscrepancy
      ensures estopActive == ((ch1 && ch2) || (old(estopLatched) && old(estopActive)))
      ensures estopLatched == ((ch1 && ch2) || old(estopLatched))
      ensures estopDiscrepancy == (ch1 != ch2)
    {
      if ch1 && ch2 {
        estopActive := true;
        estopLatched := true;
        estopDiscrepancy := false;
      } else if ch1 != ch2 {
        estopDiscrepancy := true;
        if !estopLatched {
          estopActive := false;
        }
      } else {
        estopDiscrepancy := false;
        if !estopLatched {
          estopActive := false;
        }
      }
    }

    /** Dual-confirm fire: one sensor alone only warns. */
    method EvaluateFire(smoke: bool, heat: bool)
      modifies `fireActive, `fireLatched, `fireSingleSensor
      ensures fireActive == ((smoke && heat) || (old(fireLatched) && old(fireActive)))
      ensures fireLatched == ((smoke && heat) || old(fireLatched))
      ensures fireSingleSensor == (smoke != heat)
    {
      if smoke && heat {
        fireActive := true;
        fireLatched := true;
        fireSingleSensor := false;
      } else if smoke || heat {
        fireSingleSensor := true;
        if !fireLatched {
          fireActive := false;
        }
      } else {
        fireSingleSensor := false;
        if !fireLatched {
          fireActive := false;
        }
      }
    }

    /** The rest of `evaluate_inputs`: flood latches, feedback loss and the door do not. */
    method EvaluateOthers(flood: bool, feedback: bool, door: bool)
      modifies `floodActive, `floodLatched, `acdbLoss, `doorOpen
      ensures floodActive == (flood || (old(floodLatched) && old(floodActive)))
      ensures floodLatched == (flood || old(floodLatched))
      ensures acdbLoss == !feedback && doorOpen == door
    {
      if flood {
        floodActive := true;
        floodLatched := true;
      } else if !floodLatched {
        floodActive := false;
      }
      acdbLoss := !feedback;
      doorOpen := door;
    }

    method EvaluateLevels(ch1: bool, ch2: bool, smoke: bool, heat: bool, flood: bool, feedback: bool, door: bool)
      modifies this
      ensures State() == ByLevels(old(State()), ch1, ch2, smoke, heat, flood, feedback, door) && doMask == old(doMask)
    {
      EvaluateEstop(ch1, ch2);
      EvaluateFire(smoke, heat);
      EvaluateOthers(flood, feedback, door);
    }

    method EvaluateInputs()
      requires Valid()
      modifies this
      ensures State() == Evaluated(old(State()), diRaw[..], activeLow) && doMask == old(doMask)
    {
      var logical := LogicalInputs();
      EvaluateLevels(logical[DI_ESTOP_NO], logical[DI_ESTOP_NC], logical[DI_SMOKE_DETECTOR], logical[DI_HEAT_DETECTOR],
                     logical[DI_FLOOD_SENSOR], logical[DI_ACDB_FEEDBACK], logical[DI_DOOR_SWITCH]);
    }

    method EvaluateResponseMatrix() returns (outputs: bv8)
      ensures outputs == Matrix(State())
    {
      outputs := 0;
      if estopActive {
        outputs := outputs | DO_ACDB_TRIP | DO_FAULT_LAMP | DO_PCS_STOP | DO_SIREN;
      }
      if fireActive {
        outputs := outputs | DO_ACDB_TRIP | DO_EXTINGUISHER | DO_FAULT_LAMP | DO_PCS_STOP | DO_SIREN;
      }
      if floodActive {
        outputs := outputs | DO_ACDB_TRIP | DO_FAULT_LAMP | DO_PCS_STOP | DO_SIREN;
      }
      if acdbLoss {
        outputs := outputs | DO_FAULT_LAMP | DO_PCS_STOP | DO_SIREN;
      }
      if doorOpen {
        outputs := outputs | DO_WARNING_LAMP;
      }
      if fireSingleSensor {
        outputs := outputs | DO_WARNING_LAMP;
      }
      if estopDiscrepancy {
        outputs := outputs | DO_WARNING_LAMP;
      }
      if gpioFailure {
        outputs := outputs | DO_ACDB_TRIP | DO_EXTINGUISHER | DO_FAULT_LAMP | DO_PCS_STOP | DO_SIREN;
      }
      if outputs & PROTECTIVE_OUTPUTS == 0 {
        outputs := outputs | DO_RUNNING_LAMP;
      }
    }

    /** `check_inputs_clear` */
    method CheckInputsClear(estop: bool, fire: bool, flood: bool) returns (clear: bool)
      requires Valid() && estop == estopLatched && fire == fireLatched && flood == floodLatched
      ensures clear <==> InputsClear(diRaw[..], State())
    {
      if estop && (diRaw[DI_ESTOP_NO] != 0 || diRaw[DI_ESTOP_NC] != 1) {
        return false;
      }
      if fire && (diRaw[DI_SMOKE_DETECTOR] != 0 || diRaw[DI_HEAT_DETECTOR] != 0) {
        return false;
      }
      if flood && diRaw[DI_FLOOD_SENSOR] != 0 {
        return false;
      }
      return true;
    }

    /** `safety_reset`; the result is whether nothing latched was refused. */
    method SafetyReset() returns (all: bool)
      requires Valid()
      modifies this
      ensures State() == Reset(old(State()), diRaw[..], activeLow) && doMask == old(doMask)
      ensures all <==> !AnyLatched(State())
    {
      var logical := LogicalInputs();
      var estop := !logical[DI_ESTOP_NO] && !logical[DI_ESTOP_NC];
      var fire := !logical[DI_SMOKE_DETECTOR] && !logical[DI_HEAT_DETECTOR];
      var flood := !logical[DI_FLOOD_SENSOR];
      all := ReleaseLatches(estop, fire, flood);
    }

    method ReleaseLatches(estop: bool, fire: bool, flood: bool) returns (all: bool)
      modifies this
      ensures doMask == old(doMask)
      ensures State() == Released(old(State()), estop, fire, flood)
      ensures all <==> !estopLatched && !fireLatched && !floodLatched
    {
      ReleaseEstop(estop);
      ReleaseFire(fire);
      ReleaseFlood(flood);
      all := !estopLatched && !fireLatched && !floodLatched;
    }

    method ReleaseEstop(normal: bool)
      modifies `estopActive, `estopLatched
      ensures estopLatched == (old(estopLatched) && !normal)
      ensures estopActive == (old(estopActive) && !(old(estopLatched) && normal))
    {
      if estopLatched && normal {
        estopLatched := false;
        estopActive := false;
      }
    }

    method ReleaseFire(normal: bool)
      modifies `fireActive, `fireLatched
      ensures fireLatched == (old(fireLatched) && !normal)
      ensures fireActive == (old(fireActive) && !(old(fireLatched) && normal))
    {
      if fireLatched && normal {
        fireLatched := false;
        fireActive := false;
      }
    }

    method ReleaseFlood(normal: bool)
      modifies `floodActive, `floodLatched
      ensures floodLatched == (old(floodLatched) && !normal)
      ensures floodActive == (old(floodActive) && !(old(floodLatched) && normal))
    {
      if floodLatched && normal {
        floodLatched := false;
        floodActive := false;
      }
    }

    /** Step 1: the buffer is filled only by a read that succeeds. */
    method ReadInputs(read: Option<Inputs>)
      requires Valid()
      modifies this`gpioFailure, diRaw
      ensures read == None ==> gpioFailure && diRaw[..] == old(diRaw[..])
      ensures read.Some? ==> gpioFailure == old(gpioFailure) && diRaw[..] == read.value
    {
      match read
      case None =>
        gpioFailure := true;
      case Some(di) =>
        for i := 0 to NUM_DI
          invariant diRaw[..i] == di[..i] && gpioFailure == old(gpioFailure)
        {
          diRaw[i] := di[i];
        }
    }

    /** Step 5: one element for each output pin. */
    method SpreadOutputs()
      requires Valid()
      modifies doOut
      ensures forall i: nat :: i < NUM_DI ==> doOut[i] == (doMask >> i) & 1
    {
      for i := 0 to NUM_DI
        invariant forall k: nat :: k < i ==> doOut[k] == (doMask >> k) & 1
      {
        doOut[i] := (doMask >> i) & 1;
      }
    }

    /** Steps 1 and 2 */
    method Sense(read: Option<Inputs>, ghost scan: Scan)
      requires Valid() && scan.read == read
      modifies this, diRaw
      ensures View() == Sensed(old(View()), scan, activeLow)
    {
      if !gpioFailure {
        ReadInputs(read);
      }
      if !gpioFailure {
        EvaluateInputs();
      }
    }

    /** Step 3 */
    method PollReset(requested: bool)
      requires Valid()
      modifies this
      ensures doMask == old(doMask)
      ensures State() ==
        if requested && InputsClear(diRaw[..], old(State())) then Reset(old(State()), diRaw[..], activeLow)
        else old(State())
    {
      if requested {
        var accepted := CheckInputsClear(estopLatched, fireLatched, floodLatched);
        if accepted {
          var all := SafetyReset();
        }
      }
    }

    /** One turn of the scan loop of `main`. */
    method ScanOnce(scan: Scan)
      requires Valid()
      modifies this, diRaw, doOut
      ensures View() == Scanned(old(View()), scan, activeLow)
      ensures forall i: nat :: i < NUM_DI ==> doOut[i] == (doMask >> i) & 1
    {
      Sense(scan.read, scan);
      PollReset(scan.resetRequested);
      doMask := EvaluateResponseMatrix();
      SpreadOutputs();
    }
  }
}
