/**
 The A/B update of `ota_manager`: the pipeline and rollback of `state_machine.py`, the tasks that `loop.py`
 spawns for commands, and the persistent boot flag of `partition.py`.

 Tasks of one event loop interleave only at `await`; a step runs one task from one `await` to the next.
 Downloads, verification, flashing and the reboot command just succeed or raise.
 */
module Ota {
  import opened Wrappers

  datatype OtaState = IDLE | DOWNLOADING | VERIFYING | APPLYING | REBOOTING | ROLLED_BACK

  type Slot = string

  datatype BootFlag = BootFlag(active: Slot, previous: Slot, bootCount: nat, pendingHealthCheck: bool)

  datatype Versions = Versions(current: string, previous: string)

  const UNKNOWN: Versions := Versions("unknown", "unknown")

  /**
   `state` and `version` are in memory; `flag` and `file` are on disk. A missing or unreadable boot flag,
   for which `read_boot_flag` raises, is `None`; so is a missing version file.
   */
  datatype Machine = Machine(state: OtaState, version: Versions, flag: Option<BootFlag>, file: Option<Versions>)

  /** A spawned coroutine and the `await` it is at. */
  datatype Task =
    | QueuedUpdate(notified: Option<string>)          // `None` stands for a notification without the required keys
    | Downloading(version: string, prior: string)
    | Flashing(version: string, prior: string)
    | RebootingAfterUpdate
    | QueuedRollback
    | RebootingAfterRollback(startup: bool)
    | HealthCheck
    | Finished

  /** How the foreign calls of one step turn out. */
  datatype Outcome = Outcome(
    awaited: bool,    // the awaited download, flash or reboot succeeds
    verified: bool,   // extraction and every verification succeed
    image: bool,      // the package holds a firmware image
    flagWritten: bool,
    fileSaved: bool,
    healthy: bool)

  // ----- The steps of one task -----

  /** `get_standby_partition` as `start_update` computes it inline. */
  function Standby(active: Slot): Slot {
    if active == "a" then "b" else "a"
  }

  function Failed(m: Machine): (Machine, Task) {
    (m.(state := IDLE), Finished)
  }

  function Guarded(m: Machine, notified: Option<string>): (Machine, Task) {
    if m.state != IDLE then (m, Finished)
    else match notified
      case None => (m, Finished)
      case Some(v) => (m.(state := DOWNLOADING), Downloading(v, m.version.current))
  }

  function AfterDownload(m: Machine, version: string, prior: string, o: Outcome): (Machine, Task) {
    if !o.awaited then Failed(m)
    else if !o.verified then Failed(m.(state := VERIFYING))
    else if o.image then (m.(state := APPLYING), Flashing(version, prior))
    else Swapped(m.(state := APPLYING), version, prior, o)
  }

  function AfterFlash(m: Machine, version: string, prior: string, o: Outcome): (Machine, Task) {
    if !o.awaited then Failed(m) else Swapped(m, version, prior, o)
  }

  /** From reading the boot flag to the reboot command, without an `await`. */
  function Swapped(m: Machine, version: string, prior: string, o: Outcome): (Machine, Task) {
    match m.flag
    case None => Failed(m)
    case Some(f) =>
      if !o.flagWritten then Failed(m) else
      var m1 := m.(flag := Some(BootFlag(Standby(f.active), f.active, 0, true)),
                   state := REBOOTING,
                   version := Versions(version, prior));
      if !o.fileSaved then Failed(m1)
      else (m1.(file := Some(Versions(version, prior))), RebootingAfterUpdate)
  }

  function AfterReboot(m: Machine, o: Outcome): (Machine, Task) {
    if o.awaited then (m, Finished) else Failed(m)
  }

  /** `_do_rollback` up to the reboot command. */
  function RolledBack(m: Machine, o: Outcome, startup: bool): (Machine, Task) {
    var next := RebootingAfterRollback(startup);
    match m.flag
    case None => (m.(state := ROLLED_BACK), next)
    case Some(f) =>
      if !o.flagWritten then (m.(state := ROLLED_BACK), next) else
      var v := Versions(m.version.previous, m.version.current);
      var m1 := m.(flag := Some(BootFlag(f.previous, f.active, 0, false)), version := v, state := ROLLED_BACK);
      (if o.fileSaved then m1.(file := Some(v)) else m1, next)
  }

  /** `check_post_boot_health` */
  function Checked(m: Machine, o: Outcome): (Machine, Task) {
    if !o.healthy then RolledBack(m, o, true)
    else if m.flag.Some? && o.flagWritten
    then (m.(flag := Some(m.flag.value.(pendingHealthCheck := false)), state := IDLE), Finished)
    else (m.(state := IDLE), Finished)
  }

  function Resumed(m: Machine, t: Task, o: Outcome): (Machine, Task) {
    match t
    case QueuedUpdate(notified) => Guarded(m, notified)
    case Downloading(version, prior) => AfterDownload(m, version, prior, o)
    case Flashing(version, prior) => AfterFlash(m, version, prior, o)
    case RebootingAfterUpdate => AfterReboot(m, o)
    case QueuedRollback => RolledBack(m, o, false)
    case RebootingAfterRollback(_) => (m, Finished)
    case HealthCheck => Checked(m, o)
    case Finished => (m, Finished)
  }

  // ----- The process -----

  /** `serving` is false until the startup health check, if any, has run its course. */
  datatype System = System(m: Machine, tasks: seq<Task>, serving: bool)

  datatype Action =
    | QueueUpdate(notified: Option<string>)
    | QueueRollback
    | Resume(i: nat, o: Outcome)
    | Restart

  /** A fresh process over what is on disk. */
  function Started(flag: Option<BootFlag>, file: Option<Versions>): System {
    var pending := flag.Some? && flag.value.pendingHealthCheck;
    System(Machine(IDLE, if file.Some? then file.value else UNKNOWN, flag, file),
           if pending then [HealthCheck] else [], !pending)
  }

  function Step(s: System, a: Action): System {
    match a
    case QueueUpdate(n) => if s.serving then s.(tasks := s.tasks + [QueuedUpdate(n)]) else s
    case QueueRollback => if s.serving then s.(tasks := s.tasks + [QueuedRollback]) else s
    case Resume(i, o) =>
      if i >= |s.tasks| then s else
      var (m, t) := Resumed(s.m, s.tasks[i], o);
      System(m, s.tasks[i := t], s.serving || (t.Finished? && !s.tasks[i].Finished?))
    case Restart => Started(s.m.flag, s.m.file)
  }

  function Run(s: System, actions: seq<Action>): System
    decreases |actions|
  {
    if actions == [] then s else Run(Step(s, actions[0]), actions[1..])
  }

  // ----- Safety over all interleavings -----

  /** Past the IDLE guard and not yet done. */
  predicate Active(t: Task) {
    t.Downloading? || t.Flashing? || t.RebootingAfterUpdate?
  }

  predicate Startup(t: Task) {
    t.HealthCheck? || t == RebootingAfterRollback(true)
  }

  ghost predicate OnePipeline(s: System) {
    && (forall i | 0 <= i < |s.tasks| && Active(s.tasks[i]) :: s.m.state != IDLE)
    && (forall i, j | 0 <= i < j < |s.tasks| :: !(Active(s.tasks[i]) && Active(s.tasks[j])))
  }

  ghost predicate StartupAlone(s: System) {
    if s.serving then forall i | 0 <= i < |s.tasks| :: !Startup(s.tasks[i])
    else |s.tasks| == 1 && Startup(s.tasks[0])
  }

  ghost predicate SlotsDiffer(flag: Option<BootFlag>) {
    flag.Some? ==> flag.value.active != flag.value.previous
  }

  ghost predicate Inv(s: System) {
    OnePipeline(s) && StartupAlone(s) && SlotsDiffer(s.m.flag)
  }

  /** What resuming one task does to the guard: only an active pipeline or the startup check goes back to IDLE. */
  lemma ResumedGuards(m: Machine, t: Task, o: Outcome)
    requires SlotsDiffer(m.flag)
    requires Active(t) ==> m.state != IDLE
    ensures var (m', t') := Resumed(m, t, o);
      && SlotsDiffer(m'.flag)
      && (Active(t') ==> m'.state != IDLE && (Active(t) || m.state == IDLE))
      && (m'.state == IDLE && m.state != IDLE ==> Active(t) || Startup(t))
      && (Startup(t') ==> Startup(t))
  {
  }

  lemma StepKeepsInv(s: System, a: Action)
    requires Inv(s)
    ensures Inv(Step(s, a))
  {
    if a.Resume? && a.i < |s.tasks| {
      ResumedGuards(s.m, s.tasks[a.i], a.o);
      ResumeKeepsInv(s, a.i, a.o);
    }
  }

  lemma ResumeKeepsInv(s: System, i: nat, o: Outcome)
    requires Inv(s) && i < |s.tasks|
    ensures Inv(Step(s, Resume(i, o)))
  {
    var t := Step(s, Resume(i, o));
    ResumedGuards(s.m, s.tasks[i], o);
    forall j | 0 <= j < |t.tasks| && Active(t.tasks[j]) ensures t.m.state != IDLE {
      if j != i {
        assert t.tasks[j] == s.tasks[j];
      }
    }
  }

  lemma {:induction false} RunKeepsInv(s: System, actions: seq<Action>)
    requires Inv(s)
    ensures Inv(Run(s, actions))
    decreases |actions|
  {
    if actions != [] {
      StepKeepsInv(s, actions[0]);
      RunKeepsInv(Step(s, actions[0]), actions[1..]);
    }
  }

  /**
   Over every interleaving of queued updates, rollbacks and restarts, at most one pipeline is past its guard,
   and the boot flag names two different slots if it did at first.
   */
  lemma InterleavingSafety(flag: Option<BootFlag>, file: Option<Versions>, actions: seq<Action>)
    requires SlotsDiffer(flag)
    ensures var s := Run(Started(flag, file), actions);
      && (forall i, j | 0 <= i < j < |s.tasks| :: !(Active(s.tasks[i]) && Active(s.tasks[j])))
      && (s.m.flag.Some? ==> s.m.flag.value.active != s.m.flag.value.previous)
  {
    RunKeepsInv(Started(flag, file), actions);
  }

  // ----- One update run alone -----

  /** The first task resumed with these outcomes, nothing else running. */
  function Alone(m: Machine, t: Task, os: seq<Outcome>): (Machine, Task)
    decreases |os|
  {
    if os == [] then (m, t)
    else var (m', t') := Resumed(m, t, os[0]); Alone(m', t', os[1..])
  }

  lemma {:induction false} AloneIsRun(m: Machine, t: Task, os: seq<Outcome>)
    ensures var s := Run(System(m, [t], true), Resumes(os));
      s == System(Alone(m, t, os).0, [Alone(m, t, os).1], true)
    decreases |os|
  {
    if os != [] {
      var (m', t') := Resumed(m, t, os[0]);
      assert Resumes(os)[1..] == Resumes(os[1..]);
      assert [t][0 := t'] == [t'];
      AloneIsRun(m', t', os[1..]);
    }
  }

  predicate IsCommand(a: Action) {
    a.QueueUpdate? || a.QueueRollback?
  }

  function Ordered(a: Action): Task
    requires IsCommand(a)
  {
    if a.QueueUpdate? then QueuedUpdate(a.notified) else QueuedRollback
  }

  /** A command taken by an idle service runs from the beginning; none is taken before the startup check is over. */
  lemma CommandIsRun(s: System, a: Action, os: seq<Outcome>)
    requires IsCommand(a) && s.tasks == []
    ensures s.serving ==>
      var (m, t) := Alone(s.m, Ordered(a), os);
      Run(s, [a] + Resumes(os)) == System(m, [t], true)
    ensures !s.serving ==> Run(s, [a]) == s
  {
    var actions := [a] + Resumes(os);
    assert actions[1..] == Resumes(os);
    if s.serving {
      assert Step(s, a).tasks == [Ordered(a)];
      AloneIsRun(s.m, Ordered(a), os);
    }
  }

  function Resumes(os: seq<Outcome>): seq<Action> {
    seq(|os|, i requires 0 <= i < |os| => Resume(0, os[i]))
  }

  /** The step in which the boot flag is written: after the download, or after the flash if there is an image. */
  function SwapStep(download: Outcome, flash: Outcome): Outcome {
    if download.image then flash else download
  }

  /** Every stage before the boot flag, and the writing of the flag, succeeds. */
  predicate ReachesFlag(m: Machine, notified: Option<string>, download: Outcome, flash: Outcome) {
    && notified.Some? && m.flag.Some?
    && download.awaited && download.verified
    && (download.image ==> flash.awaited)
    && SwapStep(download, flash).flagWritten
  }

  function UpdateAlone(m: Machine, notified: Option<string>, download: Outcome, flash: Outcome, reboot: Outcome): (Machine, Task) {
    Alone(m, QueuedUpdate(notified), [download, download] + (if download.image then [flash, reboot] else [reboot]))
  }

  lemma {:induction false} AloneSnoc(m: Machine, t: Task, os: seq<Outcome>, o: Outcome)
    ensures var r := Alone(m, t, os);
      Alone(m, t, os + [o]) == Resumed(r.0, r.1, o)
    decreases |os|
  {
    if os == [] {
      assert (os + [o])[0] == o && (os + [o])[1..] == [];
    } else {
      var r := Resumed(m, t, os[0]);
      assert (os + [o])[1..] == os[1..] + [o];
      AloneSnoc(r.0, r.1, os[1..], o);
    }
  }

  lemma AloneFour(m: Machine, t: Task, a: Outcome, b: Outcome, c: Outcome, d: Outcome)
    ensures var r1 := Resumed(m, t, a);
      var r2 := Resumed(r1.0, r1.1, b);
      var r3 := Resumed(r2.0, r2.1, c);
      && Alone(m, t, [a, b, c]) == r3
      && Alone(m, t, [a, b, c, d]) == Resumed(r3.0, r3.1, d)
  {
    AloneSnoc(m, t, [], a);
    AloneSnoc(m, t, [a], b);
    AloneSnoc(m, t, [a, b], c);
    AloneSnoc(m, t, [a, b, c], d);
    assert [] + [a] == [a] && [a] + [b] == [a, b] && [a, b] + [c] == [a, b, c] && [a, b, c] + [d] == [a, b, c, d];
  }

  /**
   An update started from IDLE leaves the boot flag, the version file and the versions in memory as they were,
   and the state IDLE, if and only if it fails before the boot flag is on disk. Past that point the flag stays
   swapped whatever happens, even when a later exception puts the state back to IDLE.
   */
  lemma UpdateIsAllOrNothingUpToTheFlag(m: Machine, notified: Option<string>, download: Outcome, flash: Outcome, reboot: Outcome)
    requires m.state == IDLE && SlotsDiffer(m.flag)
    ensures var (m', t') := UpdateAlone(m, notified, download, flash, reboot);
      && t' == Finished
      && (m' == m <==> !ReachesFlag(m, notified, download, flash))
      && (ReachesFlag(m, notified, download, flash) ==>
            && m'.flag == Some(BootFlag(Standby(m.flag.value.active), m.flag.value.active, 0, true))
            && m'.version == Versions(notified.value, m.version.current)
            && m'.file == (if SwapStep(download, flash).fileSaved then Some(m'.version) else m.file)
            && m'.state == (if SwapStep(download, flash).fileSaved && reboot.awaited then REBOOTING else IDLE))
  {
    AloneFour(m, QueuedUpdate(notified), download, download, flash, reboot);
    AloneFour(m, QueuedUpdate(notified), download, download, reboot, reboot);
    assert [download, download] + [flash, reboot] == [download, download, flash, reboot];
    assert [download, download] + [reboot] == [download, download, reboot];
  }

  // ----- Update, reboot, failed health check -----

  /** A completed update, the reboot into the new slot, and a health check that times out and rolls back. */
  function UpdateRebootRollback(m: Machine, v: string, download: Outcome, flash: Outcome, reboot: Outcome, check: Outcome): Machine {
    var updated := UpdateAlone(m, Some(v), download, flash, reboot).0;
    var s := Started(updated.flag, updated.file);
    Step(s, Resume(0, check)).m
  }

  /**
   Rolling back undoes the update: the original current version and the original pair of slots are back, the pair
   exactly when the previous slot was the one `start_update` takes for the standby.
   */
  lemma RollbackUndoesUpdate(m: Machine, v: string, download: Outcome, flash: Outcome, reboot: Outcome, check: Outcome)
    requires m.state == IDLE && SlotsDiffer(m.flag)
    requires ReachesFlag(m, Some(v), download, flash) && SwapStep(download, flash).fileSaved
    requires !check.healthy && check.flagWritten && check.fileSaved
    ensures var m' := UpdateRebootRollback(m, v, download, flash, reboot, check);
      && m'.version == Versions(m.version.current, v) && m'.file == Some(m'.version)
      && m'.state == ROLLED_BACK
      && m'.flag.Some? && !m'.flag.value.pendingHealthCheck
      && m'.flag.value.active == m.flag.value.active
      && (m'.flag.value.previous == m.flag.value.previous <==> m.flag.value.previous == Standby(m.flag.value.active))
  {
    UpdateIsAllOrNothingUpToTheFlag(m, Some(v), download, flash, reboot);
  }

  /** A healthy boot keeps the new slot and version, and only clears the pending mark. */
  lemma HealthyBootConfirmsUpdate(m: Machine, v: string, download: Outcome, flash: Outcome, reboot: Outcome, check: Outcome)
    requires m.state == IDLE && SlotsDiffer(m.flag)
    requires ReachesFlag(m, Some(v), download, flash) && SwapStep(download, flash).fileSaved
    requires check.healthy && check.flagWritten
    ensures var m' := UpdateRebootRollback(m, v, download, flash, reboot, check);
      && m'.version == Versions(v, m.version.current) && m'.file == Some(m'.version) && m'.state == IDLE
      && m'.flag == Some(BootFlag(Standby(m.flag.value.active), m.flag.value.active, 0, false))
  {
    UpdateIsAllOrNothingUpToTheFlag(m, Some(v), download, flash, reboot);
  }

  /** An update is taken up exactly when the machine is idle and the notification complete; otherwise nothing changes. */
  lemma TakenUpIffIdle(m: Machine, notified: Option<string>, o: Outcome)
    ensures var (m', t') := Resumed(m, QueuedUpdate(notified), o);
      && (t' != Finished <==> m.state == IDLE && notified.Some?)
      && (t' == Finished ==> m' == m)
      && (t' != Finished ==> m' == m.(state := DOWNLOADING) && t' == Downloading(notified.value, m.version.current))
  {
  }

  // ----- Rollbacks, ordered or not -----

  /**
   What a rollback leaves, whether an operator or the startup check asked for it and whatever fails: without a readable
   flag or its write nothing but the state changes; with it the slots and the versions in memory trade places, and the
   version file follows if it can be saved.
   */
  lemma RollbackLeaves(m: Machine, t: Task, o: Outcome)
    requires t.QueuedRollback? || (t.HealthCheck? && !o.healthy)
    ensures var (m', t') := Resumed(m, t, o);
      && m'.state == ROLLED_BACK && t' == RebootingAfterRollback(t.HealthCheck?)
      && (m.flag.None? || !o.flagWritten ==> m' == m.(state := ROLLED_BACK))
      && (m.flag.Some? && o.flagWritten ==>
            && m'.flag == Some(BootFlag(m.flag.value.previous, m.flag.value.active, 0, false))
            && m'.version.current == m.version.previous && m'.version.previous == m.version.current
            && m'.file == (if o.fileSaved then Some(m'.version) else m.file))
  {
  }

  /** What the startup check leaves when the services come up: at most the pending mark is cleared. */
  lemma HealthyCheckLeaves(m: Machine, o: Outcome)
    requires o.healthy
    ensures var (m', t') := Resumed(m, HealthCheck, o);
      && m'.state == IDLE && t' == Finished && m'.version == m.version && m'.file == m.file
      && (m.flag.None? || !o.flagWritten ==> m'.flag == m.flag)
      && (m.flag.Some? && o.flagWritten ==>
            m'.flag == Some(BootFlag(m.flag.value.active, m.flag.value.previous, m.flag.value.bootCount, false)))
  {
  }

  /** A restart reads the flag and the version file back; without a file both versions are unknown. */
  lemma RestartLeaves(s: System)
    ensures var t := Step(s, Restart);
      && t.m.flag == s.m.flag && t.m.file == s.m.file && t.m.state == IDLE
      && t.m.version == (if s.m.file.Some? then s.m.file.value else Versions("unknown", "unknown"))
      && (if s.m.flag.Some? && s.m.flag.value.pendingHealthCheck
          then t.tasks == [HealthCheck] && !t.serving
          else t.tasks == [] && t.serving)
  {
  }

  /** One rollback undoes another. */
  lemma RollbackTwice(s: System, i: nat, j: nat, o: Outcome, p: Outcome)
    requires i < |s.tasks| && j < |s.tasks| && i != j
    requires s.tasks[i].QueuedRollback? && s.tasks[j].QueuedRollback?
    requires s.m.flag.Some? && o.flagWritten && p.flagWritten && p.fileSaved
    ensures var m := Step(Step(s, Resume(i, o)), Resume(j, p)).m;
      && m.flag == Some(BootFlag(s.m.flag.value.active, s.m.flag.value.previous, 0, false))
      && m.version == s.m.version && m.file == Some(s.m.version)
  {
    RollbackLeaves(s.m, QueuedRollback, o);
    var t := Step(s, Resume(i, o));
    assert t.tasks[j].QueuedRollback?;
    RollbackLeaves(t.m, QueuedRollback, p);
  }

  /** A completed update, a healthy boot, and then an operator's rollback: the machine as the rollback leaves it. */
  function UpdateConfirmRollback(
      m: Machine, v: string, download: Outcome, flash: Outcome, reboot: Outcome, check: Outcome, rollback: Outcome): Machine
  {
    var updated := UpdateAlone(m, Some(v), download, flash, reboot).0;
    var booted := Step(Started(updated.flag, updated.file), Resume(0, check));
    var queued := Step(booted, QueueRollback);
    Step(queued, Resume(|booted.tasks|, rollback)).m
  }

  /**
   An operator can still undo a confirmed update: the original slot is active and the original version current again, in
   memory and on disk.
   */
  lemma ManualRollbackUndoesUpdate(
      m: Machine, v: string, download: Outcome, flash: Outcome, reboot: Outcome, check: Outcome, rollback: Outcome)
    requires m.state == IDLE && SlotsDiffer(m.flag)
    requires ReachesFlag(m, Some(v), download, flash) && SwapStep(download, flash).fileSaved
    requires check.healthy && check.flagWritten && rollback.flagWritten && rollback.fileSaved
    ensures var m' := UpdateConfirmRollback(m, v, download, flash, reboot, check, rollback);
      && m'.version == Versions(m.version.current, v) && m'.file == Some(m'.version)
      && m'.state == ROLLED_BACK
      && m'.flag == Some(BootFlag(m.flag.value.active, Standby(m.flag.value.active), 0, false))
  {
    UpdateIsAllOrNothingUpToTheFlag(m, Some(v), download, flash, reboot);
    var updated := UpdateAlone(m, Some(v), download, flash, reboot).0;
    var booted := Step(Started(updated.flag, updated.file), Resume(0, check));
    HealthyBootConfirmsUpdate(m, v, download, flash, reboot, check);
    assert booted.serving;
    var queued := Step(booted, QueueRollback);
    assert queued.tasks[|booted.tasks|] == QueuedRollback && queued.m == booted.m;
    RollbackLeaves(queued.m, QueuedRollback, rollback);
  }

  // ----- Rollbacks in the middle of an update -----

  /** Past the guard and not yet at the boot flag, which is read only after the download and the flash. */
  predicate BeforeFlag(t: Task) {
    t.Downloading? || t.Flashing?
  }

  /** The two slots, naming each other. */
  ghost predicate Paired(flag: Option<BootFlag>) {
    flag.Some? && flag.value.active in ["a", "b"] && flag.value.previous == Standby(flag.value.active)
  }

  /** No restart, and task `i` gets no further than from its download to its flash. */
  predicate KeepsBeforeFlag(s: System, i: nat, a: Action)
    requires i < |s.tasks|
  {
    && !a.Restart?
    && (a.Resume? && a.i == i ==> s.tasks[i].Downloading? && a.o.awaited && a.o.verified && a.o.image)
  }

  ghost predicate KeepsBeforeFlagThroughout(s: System, i: nat, actions: seq<Action>)
    requires i < |s.tasks|
    decreases |actions|
  {
    actions == [] ||
    (KeepsBeforeFlag(s, i, actions[0]) && i < |Step(s, actions[0]).tasks| &&
     KeepsBeforeFlagThroughout(Step(s, actions[0]), i, actions[1..]))
  }

  /** A manual rollback whose boot flag reaches the disk. */
  predicate RollsBack(s: System, a: Action) {
    a.Resume? && a.i < |s.tasks| && s.tasks[a.i].QueuedRollback? && a.o.flagWritten
  }

  function Rollbacks(s: System, actions: seq<Action>): nat
    decreases |actions|
  {
    if actions == [] then 0
    else (if RollsBack(s, actions[0]) then 1 else 0) + Rollbacks(Step(s, actions[0]), actions[1..])
  }

  /** The version an update will install and the one it replaces. */
  function InstalledBy(t: Task): (string, string)
    requires BeforeFlag(t)
  {
    match t
    case Downloading(version, prior) => (version, prior)
    case Flashing(version, prior) => (version, prior)
  }

  /** While an update is before its flag, nothing but rollbacks swaps the slots. */
  lemma OnlyRollbacksSwap(s: System, i: nat, a: Action)
    requires Inv(s) && i < |s.tasks| && BeforeFlag(s.tasks[i]) && Paired(s.m.flag)
    requires KeepsBeforeFlag(s, i, a)
    ensures var t := Step(s, a);
      && i < |t.tasks| && BeforeFlag(t.tasks[i]) && InstalledBy(t.tasks[i]) == InstalledBy(s.tasks[i])
      && Paired(t.m.flag)
      && (t.m.flag.value.active == if RollsBack(s, a) then Standby(s.m.flag.value.active) else s.m.flag.value.active)
  {
    assert Active(s.tasks[i]) && s.m.state != IDLE;
    if a.Resume? && a.i < |s.tasks| && a.i != i {
      assert !Active(s.tasks[a.i]) && !Startup(s.tasks[a.i]);
    }
  }

  lemma {:induction false} SlotsAfterRollbacks(s: System, i: nat, actions: seq<Action>)
    requires Inv(s) && i < |s.tasks| && BeforeFlag(s.tasks[i]) && Paired(s.m.flag)
    requires KeepsBeforeFlagThroughout(s, i, actions)
    ensures var t := Run(s, actions);
      && i < |t.tasks| && BeforeFlag(t.tasks[i]) && InstalledBy(t.tasks[i]) == InstalledBy(s.tasks[i])
      && Paired(t.m.flag)
      && (t.m.flag.value.active == s.m.flag.value.active <==> Rollbacks(s, actions) % 2 == 0)
    decreases |actions|
  {
    if actions != [] {
      var u := Step(s, actions[0]);
      OnlyRollbacksSwap(s, i, actions[0]);
      StepKeepsInv(s, actions[0]);
      SlotsAfterRollbacks(u, i, actions[1..]);
    }
  }

  /** The step that writes the boot flag: after the flash, or after the download when there is no image. */
  predicate WritesFlag(t: Task, o: Outcome) {
    && BeforeFlag(t) && o.awaited && o.flagWritten
    && (t.Downloading? ==> o.verified && !o.image)
  }

  /**
   Which slot an interleaved update activates: from any moment after its guard, whatever runs in between, its flag write
   activates the other slot than the one active at that moment if and only if an even number of manual rollbacks wrote
   the flag meanwhile. Versions in memory and on disk name the new version either way, so after an odd number they name
   it while the slot that was active at that moment is the one to be booted.
   */
  lemma ActivatesOtherSlotIff(s: System, i: nat, actions: seq<Action>, o: Outcome)
    requires Inv(s) && i < |s.tasks| && BeforeFlag(s.tasks[i]) && Paired(s.m.flag)
    requires KeepsBeforeFlagThroughout(s, i, actions)
    requires i < |Run(s, actions).tasks| && WritesFlag(Run(s, actions).tasks[i], o)
    ensures var active := s.m.flag.value.active;
      var (version, prior) := InstalledBy(s.tasks[i]);
      var m := Step(Run(s, actions), Resume(i, o)).m;
      && m.flag.Some? && m.flag.value.pendingHealthCheck && Paired(m.flag)
      && (m.flag.value.active == Standby(active) <==> Rollbacks(s, actions) % 2 == 0)
      && (m.flag.value.active == active <==> Rollbacks(s, actions) % 2 == 1)
      && m.version == Versions(version, prior)
      && (o.fileSaved ==> m.file == Some(Versions(version, prior)))
  {
    SlotsAfterRollbacks(s, i, actions);
  }

  /** The shortest wrong turn: one rollback during the flash. */
  lemma RollbackDuringFlash(m: Machine, v: string, download: Outcome, rollback: Outcome, flash: Outcome)
    requires m.state == IDLE && m.flag.Some?
    requires m.flag.value.active in ["a", "b"] && m.flag.value.previous == Standby(m.flag.value.active)
    requires download.awaited && download.verified && download.image
    requires rollback.flagWritten && flash.awaited && flash.flagWritten
    ensures var s0 := System(m, [QueuedUpdate(Some(v)), QueuedRollback], true);
      var s1 := Step(Step(s0, Resume(0, download)), Resume(0, download));
      var s2 := Step(Step(s1, Resume(1, rollback)), Resume(0, flash));
      && s1.tasks[0].Flashing?
      && s2.m.flag.Some? && s2.m.flag.value.active == m.flag.value.active
  {
    var s0 := System(m, [QueuedUpdate(Some(v)), QueuedRollback], true);
    var s1 := Step(Step(s0, Resume(0, download)), Resume(0, download));
    var a := [Resume(1, rollback)];
    assert a[1..] == [];
    assert Rollbacks(s1, a) == 1 && Run(s1, a) == Step(s1, a[0]);
    ActivatesOtherSlotIff(s1, 0, a, flash);
  }

  // ----- The object -----

  /** `OtaStateMachine` with the files it keeps. One method for each stretch of a coroutine between two `await`s. */
  class OtaStateMachine {
    var state: OtaState
    var version: Versions
    var flag: Option<BootFlag>
    var file: Option<Versions>

    ghost function View(): Machine
      reads this
    {
      Machine(state, version, flag, file)
    }

    constructor (flag: Option<BootFlag>, file: Option<Versions>)
      ensures View() == Started(flag, file).m
    {
      state := IDLE;
      version := if file.Some? then file.value else UNKNOWN;
      this.flag := flag;
      this.file := file;
    }

    method Fail() returns (t: Task)
      modifies this
      ensures (View(), t) == Failed(old(View()))
    {
      state := IDLE;
      t := Finished;
    }

    method StartUpdate(notified: Option<string>) returns (t: Task)
      modifies this
      ensures (View(), t) == Guarded(old(View()), notified)
    {
      if state != IDLE || notified.None? {
        return Finished;
      }
      var prior := version.current;
      state := DOWNLOADING;
      t := Downloading(notified.value, prior);
    }

    method OnDownloaded(v: string, prior: string, o: Outcome) returns (t: Task)
      modifies this
      ensures (View(), t) == AfterDownload(old(View()), v, prior, o)
    {
      if !o.awaited {
        t := Fail();
        return;
      }
      state := VERIFYING;
      if !o.verified {
        t := Fail();
        return;
      }
      state := APPLYING;
      if o.image {
        t := Flashing(v, prior);
      } else {
        t := SwapAndReboot(v, prior, o);
      }
    }

    method OnFlashed(v: string, prior: string, o: Outcome) returns (t: Task)
      modifies this
      ensures (View(), t) == AfterFlash(old(View()), v, prior, o)
    {
      if !o.awaited {
        t := Fail();
      } else {
        t := SwapAndReboot(v, prior, o);
      }
    }

    method SwapAndReboot(v: string, prior: string, o: Outcome) returns (t: Task)
      modifies this
      ensures (View(), t) == Swapped(old(View()), v, prior, o)
    {
      if flag.None? || !o.flagWritten {
        t := Fail();
        return;
      }
      var current := flag.value;
      var standby := if current.active == "a" then "b" else "a";
      flag := Some(BootFlag(standby, current.active, 0, true));
      state := REBOOTING;
      version := Versions(v, prior);
      if !o.fileSaved {
        t := Fail();
        return;
      }
      file := Some(version);
      t := RebootingAfterUpdate;
    }

    method DoRollback(o: Outcome, startup: bool) returns (t: Task)
      modifies this
      ensures (View(), t) == RolledBack(old(View()), o, startup)
    {
      if flag.Some? && o.flagWritten {
        flag := Some(BootFlag(flag.value.previous, flag.value.active, 0, false));
        version := Versions(version.previous, version.current);
        if o.fileSaved {
          file := Some(version);
        }
      }
      state := ROLLED_BACK;
      t := RebootingAfterRollback(startup);
    }

    method CheckPostBootHealth(o: Outcome) returns (t: Task)
      modifies this
      ensures (View(), t) == Checked(old(View()), o)
    {
      if o.healthy {
        if flag.Some? && o.flagWritten {
          flag := Some(BootFlag(flag.value.active, flag.value.previous, flag.value.bootCount, false));
        }
        state := IDLE;
        t := Finished;
      } else {
        t := DoRollback(o, true);
      }
    }

    /** The event loop resumes one task. */
    method Resume(task: Task, o: Outcome) returns (t: Task)
      modifies this
      ensures (View(), t) == Resumed(old(View()), task, o)
    {
      match task
      case QueuedUpdate(notified) => t := StartUpdate(notified);
      case Downloading(v, prior) => t := OnDownloaded(v, prior, o);
      case Flashing(v, prior) => t := OnFlashed(v, prior, o);
      case RebootingAfterUpdate =>
        if o.awaited {
          t := Finished;
        } else {
          t := Fail();
        }
      case QueuedRollback => t := DoRollback(o, false);
      case RebootingAfterRollback(_) => t := Finished;
      case HealthCheck => t := CheckPostBootHealth(o);
      case Finished => t := Finished;
    }
  }
}
