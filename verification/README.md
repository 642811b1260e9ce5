# EMS verification

A Dafny model of the energy-management system's core logic, with proofs. The system is a set of processes around a
shared-memory database: managers written in C and Python exchange sections guarded by a seqlock, buffer telemetry for
the cloud, update the firmware in two slots, raise alarms, scan safety inputs, diff configurations, poll Modbus devices
and dispatch schedules.

One module for each component, and two shared ones:

| file | component |
|---|---|
| Seqlock.dfy | the shared-memory sections: one writer and any readers as interleaved atomic steps, and the retry loop |
| PcsCommand.dfy | the PCS command channel carried in such a section, composed with the seqlock |
| BufferPaths.dfy | the paths of the hourly buffer files and the calendar behind them |
| Retention.dfy | listing and retention of buffer files by age and size, on paths and on the hours they stand for |
| Replay.dfy | the offline buffer, its files, directory entries and open handle, and the replay task |
| Ota.dfy | the A/B update: tasks interleaved at `await`, boot flag and version file surviving restarts |
| Alarm.dfy | the alarm lifecycle of IEC 62682, clause 5, with delay, hysteresis, acknowledgement and reload |
| Safety.dfy | the safety scan loop: latches, response matrix and the twice-checked reset |
| ConfigDiff.dfy | the recursive configuration diff and the look-up of dotted paths |
| Registers.dfy | read ranges of a Modbus register map and the alignment of what is read |
| RateLimiter.dfy | the sliding-window rate limiter of the command dispatcher |
| Scheduler.dfy | windows, curve, day and night, and change-only dispatch |
| Health.dfy | device health, back-off and polling |
| Text.dfy | the order of strings that `sorted` uses |
| Wrappers.dfy | optional values |

Most components are a state machine: a `Step` function for what the program does without being interrupted, a `Run`
that folds it over any sequence of actions, theorems about every run, and a class whose methods update their fields as
the program does and are proved to be that step. `dafny verify dfyconfig.toml` checks everything.

Where the code and what is said about it differ, the model follows the code, and the difference is a theorem:

- A seqlock copy can be torn, exactly when a positive multiple of 2^31 writes completes during the read
  (`GuaranteedIff`).
- Replay unlinks a file that has grown since it was read (`LossExactly`, `WriteDuringReplayIsLost`), and retention can
  unlink the file the next record is written to (`AcceptedOutsideIff`).
- An exception after the boot flag is written leaves the flag swapped under state IDLE
  (`UpdateIsAllOrNothingUpToTheFlag`). With an odd number of manual rollbacks between guard and flag write the update
  activates the slot that was active at the start, under the new version's name (`ActivatesOtherSlotIff`).
- The branch of the scheduler that restores day/night after a change to manual mode is dead (`NeverRestores`), the day
  does not wrap at midnight as windows do (`DayWrapsNever`), and the schema admits clock texts past 24:00 for which
  windows are misread (`WindowIffOnClock`).
- The comment above `check_inputs_clear` gives the E-Stop polarity the other way round; the raw check agrees with the
  logical reset for the compiled-in polarity (`AllOrNothingIff`).
- Values and registers are paired by position although the ranges are sorted and the map is not
  (`AlignedIffAscending`).
- Dotted paths are ambiguous for keys that contain a dot, and below the empty key (`DottedKeysCollide`,
  `EmptyKeyCollides`, `LeadingDotMisread`).

Hypotheses of the theorems: one writer for each section; clocks that do not go back where a statement says so; 4-digit
years in buffer paths; percentages, powers and rate-limiter times are reals, milliseconds and registers are integers.

## Model

| member | source | states |
|---|---|---|
| `Seqlock.AcceptedReadsAreCommitted` | EMS-master/src/common/c/include/seqlock.h:50-102 | in every interleaving of one writer with any readers, the writes completed during an accepted copy are a multiple of 2^31, and if they are fewer the copy is exactly one committed version, current from `read_begin` to the re-check |
| `Seqlock.AcceptedReadsNeverGoBack` | EMS-master/src/common/c/include/seqlock.h:76-102 | successive accepted reads of one reader never go back in version |
| `Seqlock.GuaranteedIff` | EMS-master/src/common/c/include/seqlock.h:50-102 | over all runs, every accepted read spanning n completed writes is a committed version iff n is not a positive multiple of 2^31 |
| `Seqlock.TornReadAfterWrap` | EMS-master/src/common/c/include/seqlock.h:98-102 | for every positive multiple of 2^31 writes there is a run whose accepted copy is no committed version |
| `Seqlock.StepKeepsInv` | EMS-master/src/common/c/include/seqlock.h:50-102 | every atomic step of writer or reader keeps the invariant: counter = increments mod 2^32, even and equal to the last commit when idle, partial copies agree with their version until the next `write_begin` |
| `Seqlock.NoWrap` | EMS-master/src/common/c/include/seqlock.h:98-102 | equal 32-bit counters less than 2^31 completed writes apart are the same counter |
| `Seqlock.SameCounter` | EMS-master/src/common/c/include/seqlock.h:98-102 | equal 32-bit counters are a multiple of 2^31 completed writes apart, with no write in progress |
| `Seqlock.AcceptedIffCounterIsBack` | EMS-master/src/common/c/include/seqlock.h:98-102 | a complete copy is accepted iff the counter has moved by a multiple of 2^32 increments since it was sampled; either way the attempt is over |
| `Seqlock.QuietReadIsAccepted` | EMS-master/src/common/c/include/seqlock.h:76-102 | a reader that finds no write in progress and is not interrupted reads the last committed version at once |
| `Seqlock.SharedSection.WriteBegin` | EMS-master/src/common/c/include/seqlock.h:50-55 | the writer's step as an in-place update; the counter becomes odd |
| `Seqlock.SharedSection.WriteEnd` | EMS-master/src/common/c/include/seqlock.h:61-66 | the counter becomes even and the words stored are committed as one version |
| `Seqlock.SharedSection.WriteSection` | EMS-master/src/comm_manager/python/src/ems_comm_manager/pcs_device.py:192-224 | a whole write, field by field between the two increments, commits exactly the given values |
| `Seqlock.SharedSection.ReadRetry` | EMS-master/src/common/c/include/seqlock.h:98-102 | retry exactly when the number of increments differs modulo 2^32 |
| `Seqlock.SharedSection.ReadSection` | EMS-master/src/comm_manager/python/src/ems_comm_manager/pcs_device.py:39-71 | the bounded retry loop with the writer running between any two loads: without a writer it returns what is there; an accepted copy is one version committed during the call; it gives up only after 100 attempts each of which found a write in progress or saw the counter move. Of the copy returned then nothing is claimed |
| `Seqlock.SharedSection.Attempt` | EMS-master/src/comm_manager/python/src/ems_comm_manager/pcs_device.py:54-68 | one pass of the loop: refused only if disturbed, accepted whenever no write was in progress and none began |
| `Seqlock.SharedSection.CopyAndRecheck` | EMS-master/src/comm_manager/python/src/ems_comm_manager/pcs_device.py:59-68 | accepted iff the second load of the counter equals the first |
| `Seqlock.SharedSection.CopyWords` | EMS-master/src/comm_manager/python/src/ems_comm_manager/pcs_device.py:54-68 | the word-by-word copy equals the section it started on if the counter has not moved |
| `PcsCommand.PcsDevice.ProcessCommand` | EMS-master/src/comm_manager/python/src/ems_comm_manager/pcs_device.py:156-190 | acts exactly when the number differs modulo 2^32, on the command in the same copy, and remembers that number: 1 writes 1 to 0x0291, 2 writes 0 to it, 3 writes 1 to 0x5064, any other command writes nothing |
| `PcsCommand.PcsDevice.ProcessAll` | EMS-master/src/comm_manager/python/src/ems_comm_manager/pcs_device.py:156-190 | over any series of copies the register writes are those of the handled entries, in order |
| `PcsCommand.DeviceFollowsLastCommand` | EMS-master/src/comm_manager/python/src/ems_comm_manager/pcs_device.py:176-190 | over any handled commands the inverter's on/off register holds 1 iff the last ON or OFF was ON, 0 iff it was OFF, is untouched iff there was neither, and no other register but the fault reset is ever written |
| `PcsCommand.VersionShowsLatest` | EMS-master/src/control_manager/python/src/ems_control_manager/loop.py:628-640 | under the writer's contract every version of the section shows the latest publication and its number modulo 2^32 |
| `PcsCommand.PollActsIff` | EMS-master/src/comm_manager/python/src/ems_comm_manager/pcs_device.py:169-176 | a poll acts iff the publications since the last acted one are not a multiple of 2^32 |
| `PcsCommand.HandledAreNewNumbers` | EMS-master/src/comm_manager/python/src/ems_comm_manager/pcs_device.py:156-190 | for polls less than 2^32 publications apart the handled commands are exactly the new publications, each with its own command |
| `PcsCommand.PolledNumbersAreNew` | EMS-master/src/comm_manager/python/src/ems_comm_manager/pcs_device.py:156-190 | a publication that is current at some poll is acted on: none is missed when polled between publications |
| `PcsCommand.CommandsAtMostOnceInOrder` | EMS-master/src/comm_manager/python/src/ems_comm_manager/pcs_device.py:39-71 | composed with the seqlock, over every interleaving: each publication is acted on at most once, in publication order, with the command published under its number, and each one found by a read is acted on |
| `PcsCommand.SetpointRoundTrip` | EMS-master/tools/simulators/modbus_sim/state_machine.py:100-120 | the decoded setpoint is the commanded one exactly for -32768..32767 tenths; outside that the register aliases or clamps |
| `PcsCommand.SetpointIsTwosComplement` | EMS-master/src/comm_manager/python/src/ems_comm_manager/pcs_device.py:143-148 | the encoded setpoint is the power in tenths of a kilowatt modulo 2^16 between -65536 and 65535 and clamped outside |
| `BufferPaths.PathRoundTrip` | EMS-master/src/cloud_manager/src/ems_cloud_manager/buffer.py:282-327 | parsing a built path gives back the stamp, for every calendar-valid hour of a 4-digit year |
| `BufferPaths.UpToFirst` | EMS-master/src/cloud_manager/src/ems_cloud_manager/buffer.py:321 | the piece of a name before the next separator |
| `BufferPaths.PathOrderIsTimeOrder` | EMS-master/src/cloud_manager/src/ems_cloud_manager/buffer.py:259-271 | the text order used to sort files is the order of the hours they stand for |
| `BufferPaths.EarlierHasSmallerNumber` | EMS-master/src/cloud_manager/src/ems_cloud_manager/buffer.py:299-327 | calendar order is the order of hours since the epoch, leap years included |
| `BufferPaths.NextHourCountsOne` | EMS-master/src/cloud_manager/src/ems_cloud_manager/buffer.py:299-327 | across the ends of days, months and years the next hour of the calendar has the next number |
| `BufferPaths.PathLooksLike` | EMS-master/src/cloud_manager/src/ems_cloud_manager/buffer.py:282-297 | the digits and the pieces of a path, as literals |
| `BufferPaths.PosixLooksLike` | EMS-master/src/cloud_manager/src/ems_cloud_manager/buffer.py:259-271 | how the pieces are joined to the text that is sorted |
| `Retention.EnforceRetention` | EMS-master/src/cloud_manager/src/ems_cloud_manager/buffer.py:209-232 | both deletion loops on any sorted list of paths: the files not too old by the age read back from the path (a path that is no date has none), less the oldest until the total is within `max_mb` |
| `Retention.PathRetentionIsKept` | EMS-master/src/cloud_manager/src/ems_cloud_manager/buffer.py:209-232 | on the paths the program builds, the two loops leave a suffix of the list whose hours are the longest suffix within both limits |
| `Retention.KeptIsLongestSuffix` | EMS-master/src/cloud_manager/src/ems_cloud_manager/buffer.py:209-232 | the kept hours are a suffix that fits both limits, and no longer suffix does |
| `Retention.NothingDropped` | EMS-master/src/cloud_manager/src/ems_cloud_manager/buffer.py:78-88 | with a limit of zero bytes retention leaves total size zero, so the branch of `write` that drops a record is never taken |
| `Retention.KeptWithinLimits` | EMS-master/src/cloud_manager/src/ems_cloud_manager/buffer.py:209-232 | in numbers: every kept file is at most `max_hours` old, their sizes add up to at most `max_mb`, and any longer suffix holds a file too old or too many bytes |
| `Retention.YoungWithinLimit` | EMS-master/src/cloud_manager/src/ems_cloud_manager/buffer.py:220-227 | the age loop spares exactly the files whose path is no date or one within `max_hours` |
| `Retention.TotalIsSum` | EMS-master/src/cloud_manager/src/ems_cloud_manager/buffer.py:248-257 | the total is the sum of the sizes, a file that is gone counting nothing |
| `Retention.ListFiles` | EMS-master/src/cloud_manager/src/ems_cloud_manager/buffer.py:259-271 | the listing is the directory, each path once, in text order |
| `Retention.ListedHours` | EMS-master/src/cloud_manager/src/ems_cloud_manager/buffer.py:259-271 | for the program's paths the sorted listing is the ascending listing of the hours they stand for |
| `Text.FirstExists` | EMS-master/src/cloud_manager/src/ems_cloud_manager/buffer.py:268-271 | text order has a least element in every non-empty set of strings |
| `Replay.EveryRecordAccountedFor` | EMS-master/src/cloud_manager/src/ems_cloud_manager/buffered_loop.py:235-279 | in every run each accepted record still stands where it was written and has been published, or its file is in the directory, or was unlinked by retention, or was unlinked by replay too early |
| `Replay.LossExactly` | EMS-master/src/cloud_manager/src/ems_cloud_manager/buffered_loop.py:274-275 | a step makes replay lose a record iff replay unlinks a file that is not the one read or has grown since, or a write goes through a handle to a file replay has unlinked |
| `Replay.AcceptedOutsideIff` | EMS-master/src/cloud_manager/src/ems_cloud_manager/buffer.py:66-110 | an accepted record is outside the buffer from the start iff the open handle is on the current hour and its file is no longer linked after this write's retention |
| `Replay.WrittenOutsideIsNeverPublished` | EMS-master/src/cloud_manager/src/ems_cloud_manager/buffer.py:209-232 | such a record is never published, however the run goes on |
| `Replay.NothingLostUninterrupted` | EMS-master/src/cloud_manager/src/ems_cloud_manager/buffered_loop.py:235-279 | without a write between a cycle's flush and an unlink of that cycle no record is lost |
| `Replay.WriteDuringReplayIsLost` | EMS-master/src/cloud_manager/src/ems_cloud_manager/buffered_loop.py:274-276 | a run of eight steps in which a record written during replay is lost |
| `Replay.FirstPublicationsInWriteOrder` | EMS-master/src/cloud_manager/src/ems_cloud_manager/buffered_loop.py:245-279 | with a clock that does not go back and no such write, first publications follow write order |
| `Replay.StepKeepsInv` | EMS-master/src/cloud_manager/src/ems_cloud_manager/buffered_loop.py:76-97 | every message, connection change and replay step keeps directory, files, handle and task consistent |
| `Replay.EveryPublicationWasDelivered` | EMS-master/src/cloud_manager/src/ems_cloud_manager/buffered_loop.py:250-279 | in every run the history of publications is the history of deliveries: the records whose publish call returned while connected, in that order |
| `Replay.PublishesWhatIsDelivered` | EMS-master/src/cloud_manager/src/ems_cloud_manager/buffered_loop.py:250-279 | from any state a step publishes the record at the position it stands at if connected and the publisher takes it, and nothing otherwise; a publish that raises or finds no connection ends the cycle and leaves the file |
| `Replay.UnlinksOnlyPublished` | EMS-master/src/cloud_manager/src/ems_cloud_manager/buffered_loop.py:274-279 | replay unlinks a file only after every record it read from it has been published |
| `Replay.ReplayEmptiesTheBuffer` | EMS-master/src/cloud_manager/src/ems_cloud_manager/buffered_loop.py:235-279 | while the connection holds, the publisher takes every record and no message comes, finitely many replay steps publish every record in the directory, unlink every file and wait for the next cycle |
| `Replay.RecordGoesToItsHour` | EMS-master/src/cloud_manager/src/ems_cloud_manager/buffer.py:90-110 | a buffered record ends up as the last of the file of its hour, on disk if synced; if the handle was on another hour, in the file linked under that hour |
| `Replay.WriteLeavesLinked` | EMS-master/src/cloud_manager/src/ems_cloud_manager/buffer.py:66-110 | a write leaves linked exactly the hours retention keeps, each with its file, and the current hour if its file had to be opened; the others are on record as expired |
| `Replay.NextFileIsFirst` | EMS-master/src/cloud_manager/src/ems_cloud_manager/buffer.py:112-147 | the cycle goes on to the first listed file that is not the open one and still exists, with the records on disk now, or waits if there is none |
| `Replay.MessageWrites` | EMS-master/src/cloud_manager/src/ems_cloud_manager/buffer.py:66-110 | an accepted message is always appended |
| `Replay.BufferedCloudLoop.DoPublish` | EMS-master/src/cloud_manager/src/ems_cloud_manager/buffered_loop.py:76-97 | routing on the connection state: live, or one write to the buffer |
| `Replay.BufferedCloudLoop.Write` | EMS-master/src/cloud_manager/src/ems_cloud_manager/buffer.py:66-110 | retention, rotation and append compose to the specified next state |
| `Replay.BufferedCloudLoop.Retain` | EMS-master/src/cloud_manager/src/ems_cloud_manager/buffer.py:209-232 | retention on the directory; the open handle may outlive its entry |
| `Replay.BufferedCloudLoop.Rotate` | EMS-master/src/cloud_manager/src/ems_cloud_manager/buffer.py:185-207 | the handle follows the hour, reusing the file if the path exists |
| `Replay.BufferedCloudLoop.Flush` | EMS-master/src/cloud_manager/src/ems_cloud_manager/buffer.py:149-166 | the handle is closed and everything written is on disk |
| `Replay.BufferedCloudLoop.ReplayTask` | EMS-master/src/cloud_manager/src/ems_cloud_manager/buffered_loop.py:235-279 | the replay task from one `await` to the next |
| `Replay.BufferedCloudLoop.Drain` | EMS-master/src/cloud_manager/src/ems_cloud_manager/buffer.py:112-147 | on to the next listed file that is not the open one and still exists, if still connected |
| `Ota.InterleavingSafety` | EMS-master/src/ota_manager/src/ems_ota_manager/loop.py:203-218 | over every interleaving of queued updates, rollbacks and restarts at most one pipeline is past its IDLE guard, and the boot flag names two different slots |
| `Ota.UpdateIsAllOrNothingUpToTheFlag` | EMS-master/src/ota_manager/src/ems_ota_manager/state_machine.py:238-324 | run alone, an update leaves everything unchanged iff it fails before the boot flag is written; afterwards the flag stays swapped even when an exception puts the state back to IDLE |
| `Ota.RollbackUndoesUpdate` | EMS-master/src/ota_manager/src/ems_ota_manager/state_machine.py:207-236 | update, reboot and failed health check restore the active slot and the current version; the previous slot too iff it was the one taken for the standby |
| `Ota.ManualRollbackUndoesUpdate` | EMS-master/src/ota_manager/src/ems_ota_manager/state_machine.py:355-361 | update, healthy boot and manual rollback restore the active slot, and the versions in memory and on disk name the old version as current and the new one as previous |
| `Ota.RollbackTwice` | EMS-master/src/ota_manager/src/ems_ota_manager/state_machine.py:207-236 | two rollbacks give back the slots and both versions |
| `Ota.RollbackLeaves` | EMS-master/src/ota_manager/src/ems_ota_manager/state_machine.py:207-236 | what either rollback leaves, manual or after a failed check: a missing or unwritten flag leaves slots, versions and file as they were; a written one swaps the slots and both versions; a file that was not saved still holds the old versions |
| `Ota.RestartLeaves` | EMS-master/src/ota_manager/src/ems_ota_manager/loop.py:257-271 | a restart keeps flag and file, loads the versions from the file, and runs the health check alone iff the flag asks for it |
| `Ota.HealthyBootConfirmsUpdate` | EMS-master/src/ota_manager/src/ems_ota_manager/state_machine.py:326-353 | a healthy boot keeps slot and version and only clears the pending mark |
| `Ota.HealthyCheckLeaves` | EMS-master/src/ota_manager/src/ems_ota_manager/state_machine.py:326-353 | what a healthy check leaves, the failed flag write included |
| `Ota.TakenUpIffIdle` | EMS-master/src/ota_manager/src/ems_ota_manager/state_machine.py:238-268 | an update is taken up iff the state is IDLE and the notification names a version; otherwise nothing changes |
| `Ota.ActivatesOtherSlotIff` | EMS-master/src/ota_manager/src/ems_ota_manager/state_machine.py:277-319 | from any moment between guard and flag write, over all interleavings without a restart, the update activates the other slot than the one active then iff an even number of manual rollbacks wrote the flag meanwhile; versions in memory and on disk name the new version either way |
| `Ota.OnlyRollbacksSwap` | EMS-master/src/ota_manager/src/ems_ota_manager/state_machine.py:207-236 | while an update is before its flag write, nothing but a rollback swaps the slots |
| `Ota.RollbackDuringFlash` | EMS-master/src/ota_manager/src/ems_ota_manager/state_machine.py:301-313 | the shortest wrong turn: one rollback during the flash and the update activates the slot that was active when it began |
| `Ota.AloneIsRun` | EMS-master/src/ota_manager/src/ems_ota_manager/state_machine.py:238-324 | one task resumed alone is a run of the process |
| `Ota.CommandIsRun` | EMS-master/src/ota_manager/src/ems_ota_manager/loop.py:203-218 | a command taken by an idle service runs from its beginning; none is taken before the startup check is over |
| `Ota.StepKeepsInv` | EMS-master/src/ota_manager/src/ems_ota_manager/loop.py:257-271 | every step keeps: one pipeline, the startup check alone before commands are served, two different slots |
| `Ota.OtaStateMachine.StartUpdate` | EMS-master/src/ota_manager/src/ems_ota_manager/state_machine.py:238-268 | the IDLE guard and the stretch to the first `await` |
| `Ota.OtaStateMachine.SwapAndReboot` | EMS-master/src/ota_manager/src/ems_ota_manager/state_machine.py:304-324 | from reading the boot flag to the reboot command, with every point of failure |
| `Ota.OtaStateMachine.DoRollback` | EMS-master/src/ota_manager/src/ems_ota_manager/state_machine.py:207-236 | slots and versions swapped back, each write allowed to fail |
| `Ota.OtaStateMachine.CheckPostBootHealth` | EMS-master/src/ota_manager/src/ems_ota_manager/state_machine.py:326-353 | confirm or roll back |
| `Ota.OtaStateMachine.Resume` | EMS-master/src/ota_manager/src/ems_ota_manager/state_machine.py:207-361 | each stretch between two `await`s is the specified step |
| `Alarm.EventConservation` | EMS-master/src/alarm_manager/src/ems_alarm_manager/evaluator.py:336-456 | over any interleaving of ticks, acknowledgements and reloads that keep the id, activations and terminations strictly alternate and their difference is 1 exactly while the alarm is active |
| `Alarm.TimerOnlyInNormal` | EMS-master/src/alarm_manager/src/ems_alarm_manager/evaluator.py:384-409 | the delay timer is set only in NORMAL |
| `Alarm.DelayExactness` | EMS-master/src/alarm_manager/src/ems_alarm_manager/evaluator.py:352-409 | out of NORMAL or RTN the activation comes at precisely the first tick at which the signal has been available and beyond a threshold at every tick since one at least `delay_ms` earlier |
| `Alarm.QuietUntilQualified` | EMS-master/src/alarm_manager/src/ems_alarm_manager/evaluator.py:384-409 | until then nothing is reported and the timer holds the start of the excursion |
| `Alarm.NeverBoth` | EMS-master/src/alarm_manager/src/ems_alarm_manager/evaluator.py:167-189 | for non-negative hysteresis no value both exceeds and clears |
| `Alarm.DeadBandIsSilent` | EMS-master/src/alarm_manager/src/ems_alarm_manager/evaluator.py:411-456 | ticks in the dead band and acknowledgements report nothing, from any state |
| `Alarm.ClearableIffBandsApart` | EMS-master/src/alarm_manager/src/ems_alarm_manager/evaluator.py:176-189 | some value clears the alarm iff `low_clear` < `high_clear` or a threshold is missing |
| `Alarm.OverlappingNeverClears` | EMS-master/src/alarm_manager/src/ems_alarm_manager/evaluator.py:97-106 | a two-sided alarm with overlapping bands stays active for ever |
| `Alarm.ActiveTick` | EMS-master/src/alarm_manager/src/ems_alarm_manager/evaluator.py:411-440 | an active alarm reports its end at exactly the ticks at which the signal is back by more than the hysteresis of each threshold it has, that is when 100 times the distance exceeds the threshold's magnitude times the percentage; as cleared if unacknowledged, as returned to normal if acknowledged, and the whole instance afterwards |
| `Alarm.ClearedTick` | EMS-master/src/alarm_manager/src/ems_alarm_manager/evaluator.py:442-456 | a cleared alarm is raised again at exactly the ticks past a threshold, without a delay |
| `Alarm.ClearedByHysteresis` | EMS-master/src/alarm_manager/src/ems_alarm_manager/evaluator.py:97-106 | the bands computed at construction are that inequality |
| `Alarm.RtnLastsOneTick` | EMS-master/src/alarm_manager/src/ems_alarm_manager/evaluator.py:352-382 | an instance back to normal is NORMAL, or active again, after one tick, its times forgotten |
| `Alarm.UnreadTick` | EMS-master/src/alarm_manager/src/ems_alarm_manager/evaluator.py:215-236 | a disabled rule and an unavailable signal report nothing; the latter resets the timer |
| `Alarm.Lifecycle` | EMS-master/src/alarm_manager/src/ems_alarm_manager/evaluator.py:336-456 | in every run the state tells exactly whether the alarm stands and whether it has been acknowledged since it was last raised; its end is a return to normal iff it had been |
| `Alarm.StepReportsChange` | EMS-master/src/alarm_manager/src/ems_alarm_manager/evaluator.py:336-456 | a step reports an activation exactly when it makes the alarm active and a termination exactly when it ends it |
| `Alarm.AlarmInstance.EvaluateOne` | EMS-master/src/alarm_manager/src/ems_alarm_manager/evaluator.py:336-382 | the dispatch on the state, the timer reset for an unavailable signal, the fall-through of RTN |
| `Alarm.AlarmInstance.HandleNormal` | EMS-master/src/alarm_manager/src/ems_alarm_manager/evaluator.py:384-409 | timer start, delay and activation |
| `Alarm.AlarmInstance.Acknowledge` | EMS-master/src/alarm_manager/src/ems_alarm_manager/evaluator.py:238-287 | accepted in two states only, refused otherwise without a change |
| `Alarm.AcknowledgeRecords` | EMS-master/src/alarm_manager/src/ems_alarm_manager/evaluator.py:258-287 | which state an acknowledgement leads to and which times it records |
| `Alarm.AlarmInstance.CarryOver` | EMS-master/src/alarm_manager/src/ems_alarm_manager/loop.py:364-374 | a reload carries over only a lifecycle out of NORMAL |
| `Alarm.ReloadCarries` | EMS-master/src/alarm_manager/src/ems_alarm_manager/loop.py:364-374 | a reload takes the new rule, reports nothing, keeps the state, and rebuilds an instance that is NORMAL |
| `Alarm.EveryAlarmTicks` | EMS-master/src/alarm_manager/src/ems_alarm_manager/evaluator.py:215-236 | at every tick each alarm takes the value of its own signal, if there is one, and its events follow those of the alarms before it |
| `Alarm.AlarmEvaluator.EvaluateTick` | EMS-master/src/alarm_manager/src/ems_alarm_manager/evaluator.py:215-236 | one pass over all instances is one step of each enabled one, events in order |
| `Safety.LatchedIffConfirmedSinceReset` | EMS-master/src/safety_manager/src/main.c:567-636 | in every run E-Stop, fire and flood are each latched iff some scan confirmed them and no later scan accepted a reset |
| `Safety.TripHoldsUntilReset` | EMS-master/src/safety_manager/src/main.c:567-645 | from the confirming scan on, trip, fault lamp, PCS stop and siren are in `do_out` and the running lamp is not, until an accepted reset |
| `Safety.ExtinguisherOnlyForFire` | EMS-master/src/safety_manager/src/response_matrix.c:178-219 | the extinguisher is in `do_out` iff GPIO has failed or some scan since the last accepted reset saw smoke and heat together |
| `Safety.GpioFailureIsForever` | EMS-master/src/safety_manager/src/main.c:570-583 | `gpio_failure` holds iff initialisation or some earlier read failed: it is never left |
| `Safety.AllOrNothingIff` | EMS-master/src/safety_manager/src/safety_reset.c:104-157 | the raw check accepting implies that the logical reset clears every latch, for all inputs and states, iff the five shared pins have the polarity the raw check has built in |
| `Safety.AcceptedResetClearsAll` | EMS-master/src/safety_manager/src/response_matrix.c:234-293 | so with the compiled-in polarity every accepted reset clears everything |
| `Safety.RawCheckAgainstLogical` | EMS-master/src/safety_manager/src/safety_reset.c:109-132 | the raw check refuses what the logical one would clear only when the NC contact of a latched E-Stop reads neither 0 nor 1 |
| `Safety.AcceptedOnlyIfNormal` | EMS-master/src/safety_manager/src/safety_reset.c:104-157 | a reset that releases a latch was given last-read inputs that are normal |
| `Safety.LatchStep` | EMS-master/src/safety_manager/src/main.c:567-636 | one scan: the new latch iff (latched or confirmed) and no reset accepted; a confirming scan never accepts one |
| `Safety.RunKeepsActiveLatched` | EMS-master/src/safety_manager/src/response_matrix.c:60-150 | in every reachable state each active flag equals its latch |
| `Safety.LampsInEveryRun` | EMS-master/src/safety_manager/src/response_matrix.c:226-229 | in every run fault lamp iff protective output iff running lamp off |
| `Safety.MatrixByCause` | EMS-master/src/safety_manager/src/response_matrix.c:167-232 | every bit of the response by its causes, in literals: trip, extinguisher, warning lamp, running lamp, siren, PCS stop and fault lamp, both ways, and no other bit |
| `Safety.RawMeaning` | EMS-master/src/safety_manager/src/response_matrix.c:49-165 | with the compiled-in polarity, from raw pin levels: which pins set which latch and flag |
| `Safety.RawReset` | EMS-master/src/safety_manager/src/response_matrix.c:234-293 | with the compiled-in polarity, from raw pin levels: which pins release which latch; everything else stays |
| `Safety.SafetyManager.LogicalInputs` | EMS-master/src/safety_manager/src/response_matrix.c:53-58 | the loop that fills `di_logical` |
| `Safety.SafetyManager.EvaluateInputs` | EMS-master/src/safety_manager/src/response_matrix.c:49-165 | the state after evaluation, field by field in place |
| `Safety.SafetyManager.EvaluateResponseMatrix` | EMS-master/src/safety_manager/src/response_matrix.c:167-232 | the accumulated mask is the union of the responses to the causes that hold |
| `Safety.SafetyManager.CheckInputsClear` | EMS-master/src/safety_manager/src/safety_reset.c:104-157 | accepts iff the inputs of everything latched are raw-normal |
| `Safety.SafetyManager.SafetyReset` | EMS-master/src/safety_manager/src/response_matrix.c:234-293 | each latch cleared iff its own inputs are logically normal; success iff none is left |
| `Safety.SafetyManager.ScanOnce` | EMS-master/src/safety_manager/src/main.c:567-650 | one turn of the loop is one step of the model, and each output element is its bit of the mask |
| `ConfigDiff.ComputeDiff` | EMS-master/src/config_manager/src/ems_config_manager/manager.py:103-140 | for any keys: the diff by keys in order, later entries of a section replacing earlier ones under the same path |
| `ConfigDiff.DiffedDescribes` | EMS-master/src/config_manager/src/ems_config_manager/manager.py:103-140 | on every level, for keys without dots where the empty key leads to no differing dicts, the three sections hold exactly the reported entries, each under its dotted path |
| `ConfigDiff.DescribedIffRooted` | EMS-master/src/config_manager/src/ems_config_manager/manager.py:126 | for keys without dots they do so iff the empty key leads to no dicts that differ |
| `ConfigDiff.DiffAtKey` | EMS-master/src/config_manager/src/ems_config_manager/manager.py:125-138 | the branch taken at one key, the recursion included, for any keys |
| `ConfigDiff.GetValue` | EMS-master/src/config_manager/src/ems_config_manager/manager.py:322-355 | the walk along the split path, `KeyError` included |
| `ConfigDiff.ReportByLookup` | EMS-master/src/config_manager/src/ems_config_manager/manager.py:103-140 | what an entry means by look-ups alone: dicts on both sides down to the parent, then present on one side only or different and not both dicts |
| `ConfigDiff.EmptyDiffIffEqual` | EMS-master/src/config_manager/src/ems_config_manager/manager.py:103-140 | the diff is empty iff the configurations are equal |
| `ConfigDiff.PathsPrefixFree` | EMS-master/src/config_manager/src/ems_config_manager/manager.py:132-136 | no reported path lies below another |
| `ConfigDiff.SectionsDisjoint` | EMS-master/src/config_manager/src/ems_config_manager/manager.py:119-121 | no path is in two sections |
| `ConfigDiff.PatchGivesNew` | EMS-master/src/config_manager/src/ems_config_manager/manager.py:103-140 | carried out on the old configuration in any order, the entries give the new one |
| `ConfigDiff.WriteSettles` | EMS-master/src/config_manager/src/ems_config_manager/manager.py:128-138 | carrying out one entry settles it and changes no other |
| `ConfigDiff.ReportedValuesResolve` | EMS-master/src/config_manager/src/ems_config_manager/manager.py:322-355 | `get_value` finds every reported value at its path, on the side it is reported for and on no other |
| `ConfigDiff.SplitDotted` | EMS-master/src/config_manager/src/ems_config_manager/manager.py:336 | splitting a dotted path gives back its keys, for keys without dots |
| `ConfigDiff.SplitDottedIff` | EMS-master/src/config_manager/src/ems_config_manager/manager.py:336 | splitting a dotted path gives back its keys iff no key has a dot in it |
| `ConfigDiff.ExtendedIsDotted` | EMS-master/src/config_manager/src/ems_config_manager/manager.py:126 | the path built at each level is the dotted path of all the keys iff the keys above are not the empty key alone |
| `ConfigDiff.DottedKeysCollide` | EMS-master/src/config_manager/src/ems_config_manager/manager.py:126-138 | every key with a dot after its first character can meet a nested path: both are reported, no sections hold both, the program keeps the dotted key's entry, and `get_value` finds the other |
| `ConfigDiff.EmptyKeyCollides` | EMS-master/src/config_manager/src/ems_config_manager/manager.py:126-138 | below the empty key every non-empty key meets the same key beside it |
| `ConfigDiff.LeadingDotMisread` | EMS-master/src/config_manager/src/ems_config_manager/manager.py:126-138 | a key that starts with a dot is kept apart in the diff but `get_value` reads its path as the one below the empty key |
| `Text.SortedStep` | EMS-master/src/config_manager/src/ems_config_manager/manager.py:123-125 | the keys in order: the least first, then the rest |
| `Registers.BuildReadRanges` | EMS-master/src/comm_manager/python/src/ems_comm_manager/register_map.py:99-129 | for any addresses the concatenated ranges are the sorted address list, and no two neighbours could have been one |
| `Registers.GroupRuns` | EMS-master/src/comm_manager/python/src/ems_comm_manager/register_map.py:117-129 | the grouping loop |
| `Registers.GapsAreReal` | EMS-master/src/comm_manager/python/src/ems_comm_manager/register_map.py:120-126 | for distinct addresses there is a gap between any two ranges |
| `Registers.GappedIsFewest` | EMS-master/src/comm_manager/python/src/ems_comm_manager/register_map.py:99-129 | no other reads of the same addresses, in any order and with any overlap, are fewer |
| `Registers.DistinctMapRanges` | EMS-master/src/comm_manager/python/src/ems_comm_manager/register_map.py:99-129 | both, for every map with distinct addresses |
| `Registers.PollDevice` | EMS-master/src/comm_manager/python/src/ems_comm_manager/modbus_device.py:101-137 | the first exception decides between raising and skipping and is published once; without one the answers are joined in order |
| `Registers.AlignedIffAscending` | EMS-master/src/comm_manager/python/src/ems_comm_manager/modbus_device.py:101-137 | the value at each position is the register of the map at that position, for every device, iff the map is in ascending order |
| `RateLimiter.NoWindowOverfull` | EMS-master/src/cloud_manager/src/ems_cloud_manager/dispatcher.py:65-78 | in every run on a clock that does not go back, every closed window of the given length holds at most `max_commands` acceptances |
| `RateLimiter.CountIsCardinality` | EMS-master/src/cloud_manager/src/ems_cloud_manager/dispatcher.py:71-76 | the count in a window is the number of entries whose time lies in it |
| `RateLimiter.PrunedRefinesHistory` | EMS-master/src/cloud_manager/src/ems_cloud_manager/dispatcher.py:71-78 | the pruned list answers every call as the full history would: refused iff `max_commands` acceptances lie in the closed window ending at the call; it holds what has not expired and the call if it was accepted |
| `RateLimiter.RateLimiter.Allow` | EMS-master/src/cloud_manager/src/ems_cloud_manager/dispatcher.py:65-78 | the answer by the full history, and the history extended by the call iff it was accepted |
| `RateLimiter.Prune` | EMS-master/src/cloud_manager/src/ems_cloud_manager/dispatcher.py:74 | the comprehension keeps exactly the times not older than the cutoff |
| `Scheduler.EpochSendsChanges` | EMS-master/src/scheduler/src/ems_scheduler/loop.py:181-288 | in every epoch what is sent is the per-tick evaluation with consecutive repeats removed, behind one claim of the manual source in window and curve mode |
| `Scheduler.RunSendsEpochs` | EMS-master/src/scheduler/src/ems_scheduler/loop.py:387-400 | a reload starts the next epoch afresh after everything sent before |
| `Scheduler.FirstEpochSends` | EMS-master/src/scheduler/src/ems_scheduler/loop.py:85-94 | the first epoch starts from the configuration given at construction |
| `Scheduler.ChangeOnlyRefinesEveryTick` | EMS-master/src/scheduler/src/ems_scheduler/loop.py:181-288 | over every run of ticks and reloads the receiver of change-only dispatch is told the same priority and setpoint as one told everything on every tick |
| `Scheduler.ManualPriorityIsCurrent` | EMS-master/src/scheduler/src/ems_scheduler/loop.py:219-238 | in manual mode with day and night times, after every tick the last priority sent is day iff the time is at or past the start of the day and before that of the night |
| `Scheduler.NeverRestores` | EMS-master/src/scheduler/src/ems_scheduler/loop.py:199-206 | the branch that restores day/night after a mode change is never taken: a reload has already cleared its condition |
| `Scheduler.WindowIffOnClock` | EMS-master/src/scheduler/src/ems_scheduler/evaluator.py:58-65 | `_in_window` is the half-open interval on the clock face at every time of day iff both ends are on the clock (the end possibly 24:00), the start is 24:00 with a later end, or the window is the whole day |
| `Scheduler.FirstMatchWins` | EMS-master/src/scheduler/src/ems_scheduler/evaluator.py:92-112 | the first window that holds decides, idle when none does; the power has the magnitude given and the sign of the action, zero for idle |
| `Scheduler.EvaluateTimeOfDay` | EMS-master/src/scheduler/src/ems_scheduler/evaluator.py:68-112 | the first-match loop |
| `Scheduler.CurveIndexIsQuarterHour` | EMS-master/src/scheduler/src/ems_scheduler/evaluator.py:133 | the index is the quarter of an hour and always on the curve |
| `Scheduler.CurvePowerIsOfQuarterHour` | EMS-master/src/scheduler/src/ems_scheduler/evaluator.py:133-134 | in curve mode the power is the entry for the quarter of an hour |
| `Scheduler.DayWrapsNever` | EMS-master/src/scheduler/src/ems_scheduler/evaluator.py:159-164 | for every pair of times the schema admits, the day is the interval on the clock face iff it starts before the night does and the night starts at 24:00 at the latest |
| `Scheduler.SchedulerLoop.EvaluateTick` | EMS-master/src/scheduler/src/ems_scheduler/loop.py:181-217 | the dispatch order of one tick, the restoring branch included |
| `Scheduler.SchedulerLoop.EvaluateTimeOfDayTick` | EMS-master/src/scheduler/src/ems_scheduler/loop.py:240-265 | send on a changed window result only |
| `Scheduler.SchedulerLoop.EvaluateCurveTick` | EMS-master/src/scheduler/src/ems_scheduler/loop.py:267-288 | send on a changed index only |
| `Scheduler.SchedulerLoop.EvaluateDayNightTick` | EMS-master/src/scheduler/src/ems_scheduler/loop.py:219-238 | remember every transition, send it unless the source is claimed |
| `Scheduler.SchedulerLoop.OnConfigReloaded` | EMS-master/src/scheduler/src/ems_scheduler/loop.py:387-400 | everything remembered is forgotten |
| `Health.RunExplained` | EMS-master/src/comm_manager/python/src/ems_comm_manager/health.py:41-86 | in every run a device is online iff it has answered and fewer failures than the threshold have followed, and after k failures offline the back-off is min(2^k, 30) |
| `Health.TurnRecords` | EMS-master/src/comm_manager/python/src/ems_comm_manager/orchestrator.py:205-227 | what a turn records: a decoded answer a success, a failed poll a failure, an answer that cannot be written a success and a failure, a skipped exception nothing |
| `Health.RecoveryTellsOfflineTime` | EMS-master/src/comm_manager/python/src/ems_comm_manager/health.py:53-62 | in every run a recovery reports the time since the last fault, or since start |
| `Health.EventsAlternate` | EMS-master/src/comm_manager/python/src/ems_comm_manager/health.py:53-84 | recoveries and faults alternate, a recovery first, and every fault carries exactly the threshold |
| `Health.FaultExactly` | EMS-master/src/comm_manager/python/src/ems_comm_manager/health.py:64-86 | a failure raises a fault iff it is the threshold-th in a row since a success |
| `Health.PollsAreSpaced` | EMS-master/src/comm_manager/python/src/ems_comm_manager/orchestrator.py:199-229 | recorded polls are apart by at least the interval or back-off in force after the earlier one |
| `Health.GapInForce` | EMS-master/src/comm_manager/python/src/ems_comm_manager/health.py:88-100 | in every run the gap is the poll interval while online and min(2^k, 30) seconds after k failures offline |
| `Health.PolledExactly` | EMS-master/src/comm_manager/python/src/ems_comm_manager/health.py:88-100 | a device is polled iff it never was or that gap has gone by |
| `Health.SilentDevice` | EMS-master/src/comm_manager/python/src/ems_comm_manager/health.py:70-75 | a device that never answers raises no event and is polled ever more rarely |
| `Health.DeviceHealth.RecordSuccess` | EMS-master/src/comm_manager/python/src/ems_comm_manager/health.py:41-62 | the transition and its event |
| `Health.DeviceHealth.RecordFailure` | EMS-master/src/comm_manager/python/src/ems_comm_manager/health.py:64-86 | the transition, the doubling and the event |
| `Health.DeviceHealth.CheckDue` | EMS-master/src/comm_manager/python/src/ems_comm_manager/health.py:88-100 | due iff the gap in force has gone by |
| `Health.DeviceHealth.Cycle` | EMS-master/src/comm_manager/python/src/ems_comm_manager/modbus_device.py:139-182 | one device's part of a polling cycle is one step of the model |

## Left out

- Weak memory: every load and store is one sequentially consistent step; C11 fences and acquire/release are not modelled.
- The copy returned after 100 failed attempts of a Python reader: nothing is claimed of it.
- Sections with two writers (the rack sections): the single-writer rule of seqlock.h:15 is a hypothesis.
- Fields wider than one word: a section is a sequence of words, loaded and stored one at a time.
- Crashes while records sit in the write buffer, half-written JSON lines, and unlinks that fail.
- Replay.BufferedCloudLoop.Write: file sizes are an input for each write, any sizes at all, rather than computed from the records.
- BufferPaths.PathRoundTrip: digits only; the signs, spaces and underscores that the library's `int()` also takes are not modelled.
- Replay.BufferedCloudLoop.ReplayTask: the connection flag, which the MQTT client's own thread writes, changes only between two stretches of the task, never between two checks within one.
- Delivery after a publish has been handed to the MQTT client.
- Ota.OtaStateMachine.Resume: download, signature and checksum verification, extraction, flashing and the reboot command just succeed or raise; which device the flash writes to is not modelled.
- The U-Boot partition backend, which the service does not wire.
- Alarm.EventConservation: a reload that drops the id of an active alarm loses its termination event; such reloads are outside the statement.
- The lookup of an unknown id by `acknowledge`, and the summaries of active alarms and of the configuration.
- Whether output pins follow `do_out`: `write_do` is skipped after a GPIO failure and its errors are ignored.
- Safety.SafetyManager.ScanOnce: the frames of a reset message are one boolean; event publishing, the watchdog and the database copy are left out.
- ConfigDiff.ComputeDiff: values that are not dicts are tokens compared for equality, so a value unequal to itself (a NaN) is not modelled.
- Loading, validating and reloading configuration files.
- Registers.PollDevice: a read of more registers than one request may carry is not split, as in the program.
- Scaling of raw values and the encoder of the simulator: flat arithmetic.
- Command replies: the scheduler and the PCS channel ignore failures, so a sent command is recorded whether or not it was accepted.
- Telemetry payloads, logging, and the timestamps `last_success_ms` and `last_update_ms`.
- ZeroMQ, MessagePack, MQTT, Modbus and CAN transport, CAN decoding tables, the staleness thread, diagnostics, HMI, TUI and schema loaders.
