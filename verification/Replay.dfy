/**
 The offline buffer and its replay: `BufferManager` of `buffer.py` and the routing and replay task of
 `buffered_loop.py`.

 A directory entry and the file it names are separate, because a file that has been unlinked can still
 be written through the open handle. A step is what runs between two `await`s; the connection may
 change between any two steps.
 */
module Replay {
  import opened Retention
  import opened Wrappers

  /** `_current_file` with `_current_hour_key`; `synced` records of the file have left the write buffer. */
  datatype Handle = Handle(hourKey: Hour, inode: nat, synced: nat)

  /** Where a record was written. */
  datatype Place = Place(inode: nat, pos: nat)

  /**
   The replay task. `Draining` is inside the inner loop: `snapshot` is what was read of the file at `hour`,
   `todo` are the hours listed after it. `inode` and `start` (the number of records accepted when the file
   was read) are histories.
   */
  datatype Task =
    | Waiting
    | Draining(hour: Hour, inode: nat, snapshot: seq<nat>, pos: nat, todo: seq<Hour>, start: nat)

  /**
   Records are numbered in the order `write` accepts them; `places[n]` is where record `n` went.
   `places`, `published`, `expired`, `drained`, `clock` and `wroteInCycle` are histories.
   */
  datatype State = State(
    inodes: seq<seq<nat>>,    // contents of every file ever created
    dir: map<Hour, nat>,      // the directory: which file each path names
    handle: Option<Handle>,
    connected: bool,
    task: Task,
    places: seq<Place>,
    published: seq<nat>,      // records replay has published, in order
    expired: set<nat>,        // files retention unlinked
    drained: set<nat>,        // files replay unlinked
    clock: int,               // time of the latest write
    wroteInCycle: bool)       // a write since the current cycle's flush

  datatype Action =
    | Connect
    | Disconnect
    | Message(now: int, sizes: map<Hour, nat>, sync: bool)  // one telemetry or event message
    | Replay(now: int, ok: bool)                           // the replay task runs to its next await

  const Init: State := State([], map[], None, false, Waiting, [], [], {}, {}, 0, false)

  function HourOf(now: int): Hour {
    now / SECONDS_PER_HOUR
  }

  /** How much of a file a reader finds on disk. */
  function OnDisk(s: State, i: nat): nat
    requires i < |s.inodes|
  {
    if s.handle.Some? && s.handle.value.inode == i && s.handle.value.synced <= |s.inodes[i]|
    then s.handle.value.synced else |s.inodes[i]|
  }

  // ----- BufferManager -----

  /** `_rotate`, when the hour has changed or no file is open. */
  function Rotated(s: State, hour: Hour): State {
    if s.handle.Some? && s.handle.value.hourKey == hour then s
    else if hour in s.dir then
      var i := s.dir[hour];
      s.(handle := Some(Handle(hour, i, if i < |s.inodes| then |s.inodes[i]| else 0)))
    else
      s.(handle := Some(Handle(hour, |s.inodes|, 0)),
         dir := s.dir[hour := |s.inodes|],
         inodes := s.inodes + [[]])
  }

  /** Append the next record through the open handle. */
  function Appended(s: State, sync: bool, now: int): State {
    if s.handle.None? || s.handle.value.inode >= |s.inodes| then s else
    var i := s.handle.value.inode;
    var contents := s.inodes[i] + [|s.places|];
    s.(inodes := s.inodes[i := contents],
       places := s.places + [Place(i, |s.inodes[i]|)],
       handle := if sync then Some(s.handle.value.(synced := |contents|)) else s.handle,
       clock := now,
       wroteInCycle := true)
  }

  function Dropped(dir: map<Hour, nat>, kept: seq<Hour>): set<Hour> {
    set h | h in dir && h !in kept
  }

  function InodesOf(dir: map<Hour, nat>, hours: set<Hour>): set<nat> {
    set h | h in hours && h in dir :: dir[h]
  }

  /** What `_enforce_retention` leaves of the directory, see `Retention.EnforceRetention`. */
  function Retained(s: State, sizes: map<Hour, nat>, now: int, limits: Limits): State {
    KeepOnly(s, Kept(Listing(s.dir.Keys), sizes, now, limits))
  }

  function KeepOnly(s: State, kept: seq<Hour>): State {
    var gone := Dropped(s.dir, kept);
    s.(dir := s.dir - gone, expired := s.expired + InodesOf(s.dir, gone))
  }

  /** `write` */
  ghost function Written(s: State, sizes: map<Hour, nat>, now: int, sync: bool, limits: Limits): State {
    var r := Retained(s, sizes, now, limits);
    if limits.maxBytes == 0 && Total(Kept(Listing(s.dir.Keys), sizes, now, limits), sizes) > 0 then r
    else Appended(Rotated(r, HourOf(now)), sync, now)
  }

  /** `flush` */
  function Flushed(s: State): State {
    s.(handle := None, wroteInCycle := false)
  }

  // ----- The replay task -----

  /** The generator's next file, and the check of the connection that follows it. */
  function NextFile(s: State, todo: seq<Hour>, now: int): State
    decreases |todo|
  {
    if todo == [] then s.(task := Waiting)
    else if (s.handle.Some? && todo[0] == HourOf(now)) || todo[0] !in s.dir then NextFile(s, todo[1..], now)
    else
      var i := s.dir[todo[0]];
      if !s.connected || i >= |s.inodes| then s.(task := Waiting)
      else s.(task := Draining(todo[0], i, s.inodes[i][..OnDisk(s, i)], 0, todo[1..], |s.places|))
  }

  ghost function Begun(s: State, now: int): State {
    if !s.connected then s else NextFile(Flushed(s), Listing(s.dir.Keys), now)
  }

  /** One record of the snapshot: published, or the cycle ends. */
  function Published(s: State, ok: bool): State
    requires s.task.Draining? && s.task.pos < |s.task.snapshot|
  {
    if !s.connected || !ok then s.(task := Waiting) else
    s.(published := s.published + [s.task.snapshot[s.task.pos]],
       task := s.task.(pos := s.task.pos + 1))
  }

  function Unlinked(s: State, hour: Hour): State {
    s.(dir := s.dir - {hour}, drained := s.drained + (if hour in s.dir then {s.dir[hour]} else {}))
  }

  /** All of the snapshot is out: `unlink`, then the next file. */
  function Finished(s: State, now: int): State
    requires s.task.Draining?
  {
    NextFile(Unlinked(s, s.task.hour), s.task.todo, now)
  }

  predicate AtUnlink(s: State, a: Action) {
    a.Replay? && s.task.Draining? && s.task.pos >= |s.task.snapshot|
  }

  ghost function Step(s: State, a: Action, limits: Limits): State {
    match a
    case Connect => s.(connected := true)
    case Disconnect => s.(connected := false)
    case Message(now, sizes, sync) => if s.connected then s else Written(s, sizes, now, sync, limits)
    case Replay(now, ok) =>
      if s.task.Waiting? then Begun(s, now)
      else if AtUnlink(s, a) then Finished(s, now)
      else Published(s, ok)
  }

  ghost function Run(s: State, actions: seq<Action>, limits: Limits): State
    decreases |actions|
  {
    if actions == [] then s else Run(Step(s, actions[0], limits), actions[1..], limits)
  }

  // ----- What every step keeps -----

  ghost predicate Linked(dir: map<Hour, nat>, i: nat) {
    exists h :: h in dir && dir[h] == i
  }

  ghost predicate DirInv(s: State) {
    && (forall h | h in s.dir :: s.dir[h] < |s.inodes| && s.dir[h] !in s.drained)
    && (forall h, g | h in s.dir && g in s.dir && s.dir[h] == s.dir[g] :: h == g)
    && (forall i | 0 <= i < |s.inodes| :: Linked(s.dir, i) || i in s.expired || i in s.drained)
    && (forall i | i in s.drained :: i < |s.inodes|)
  }

  /** Every record is in exactly one place, and the files hold nothing else. */
  ghost predicate PlaceInv(s: State) {
    && (forall n | 0 <= n < |s.places| ::
          && s.places[n].inode < |s.inodes| && s.places[n].pos < |s.inodes[s.places[n].inode]|
          && s.inodes[s.places[n].inode][s.places[n].pos] == n)
    && (forall i, k | 0 <= i < |s.inodes| && 0 <= k < |s.inodes[i]| ::
          s.inodes[i][k] < |s.places| && s.places[s.inodes[i][k]] == Place(i, k))
  }

  /** A file is created by the write that puts the first record in it. */
  ghost predicate NoEmptyFile(s: State) {
    forall i | 0 <= i < |s.inodes| :: s.inodes[i] != []
  }

  ghost predicate HandleInv(s: State) {
    && (s.handle.Some? ==>
          s.handle.value.inode < |s.inodes| && s.handle.value.synced <= |s.inodes[s.handle.value.inode]|)
    && (forall n | n in s.published ::
          n < |s.places| && s.places[n].inode < |s.inodes| && s.places[n].pos < OnDisk(s, s.places[n].inode))
  }

  ghost predicate TaskInv(s: State) {
    var t := s.task;
    t.Draining? ==>
      && t.inode < |s.inodes|
      && t.pos <= |t.snapshot| <= OnDisk(s, t.inode)
      && t.snapshot == s.inodes[t.inode][..|t.snapshot|]
      && (forall k | 0 <= k < t.pos :: t.snapshot[k] in s.published)
      && (forall k | |t.snapshot| <= k < |s.inodes[t.inode]| :: s.inodes[t.inode][k] !in s.published)
      && t.start <= |s.places|
      && (forall n | n in s.published :: n < t.start)
      && (forall k | 0 <= k < |t.snapshot| :: t.snapshot[k] < t.start)
      && (t.hour in s.dir && s.dir[t.hour] != t.inode ==>
            && s.dir[t.hour] < |s.inodes|
            && forall k | 0 <= k < |s.inodes[s.dir[t.hour]]| :: t.start <= s.inodes[s.dir[t.hour]][k])
  }

  ghost predicate FileInv(s: State) {
    DirInv(s) && PlaceInv(s) && HandleInv(s)
  }

  ghost predicate Inv(s: State) {
    FileInv(s) && NoEmptyFile(s) && TaskInv(s)
  }

  // ----- Each step keeps the invariant -----

  lemma RetainedKeepsInv(s: State, sizes: map<Hour, nat>, now: int, limits: Limits)
    requires Inv(s)
    ensures Inv(Retained(s, sizes, now, limits))
  {
    RetainedKeepsDir(s, sizes, now, limits);
  }

  lemma RetainedKeepsDir(s: State, sizes: map<Hour, nat>, now: int, limits: Limits)
    requires DirInv(s)
    ensures DirInv(Retained(s, sizes, now, limits))
  {
    var r := Retained(s, sizes, now, limits);
    forall i | Linked(s.dir, i) ensures Linked(r.dir, i) || i in r.expired {
      var h :| h in s.dir && s.dir[h] == i;
      assert h in r.dir ==> r.dir[h] == i;
    }
  }

  lemma RotatedKeepsDir(s: State, hour: Hour)
    requires DirInv(s)
    ensures DirInv(Rotated(s, hour))
  {
    var r := Rotated(s, hour);
    if r.inodes != s.inodes {
      assert r.dir[hour] == |s.inodes|;
      forall i | Linked(s.dir, i) ensures Linked(r.dir, i) {
        var h :| h in s.dir && s.dir[h] == i;
        assert r.dir[h] == i;
      }
    }
  }

  lemma RotatedKeepsHandle(s: State, hour: Hour)
    requires DirInv(s) && HandleInv(s) && PlaceInv(s)
    ensures HandleInv(Rotated(s, hour)) && PlaceInv(Rotated(s, hour)) && Rotated(s, hour).handle.Some?
  {
    assert hour in s.dir ==> s.dir[hour] < |s.inodes|;
  }

  /** Rotation touches nothing but the handle, or adds one empty file under a new path. */
  lemma RotatedShape(s: State, hour: Hour)
    ensures var r := Rotated(s, hour);
      || (r == s.(handle := r.handle))
      || (hour !in s.dir &&
            r == s.(handle := r.handle, dir := s.dir[hour := |s.inodes|], inodes := s.inodes + [[]]))
  {
  }

  /** Opening a file to append takes nothing off the disk. */
  lemma RotatedOnDisk(s: State, hour: Hour, i: nat)
    requires FileInv(s) && i < |s.inodes|
    ensures i < |Rotated(s, hour).inodes| && OnDisk(s, i) <= OnDisk(Rotated(s, hour), i)
  {
  }

  lemma RotatedKeepsTaskInv(s: State, hour: Hour)
    requires FileInv(s) && TaskInv(s)
    ensures TaskInv(Rotated(s, hour))
  {
    RotatedShape(s, hour);
    if s.task.Draining? {
      RotatedOnDisk(s, hour, s.task.inode);
    }
  }

  lemma AppendedKeepsDirAndHandle(s: State, sync: bool, now: int)
    requires FileInv(s)
    ensures DirInv(Appended(s, sync, now)) && HandleInv(Appended(s, sync, now))
  {
  }

  lemma AppendedKeepsPlaces(s: State, sync: bool, now: int)
    requires PlaceInv(s)
    ensures PlaceInv(Appended(s, sync, now))
  {
    var t := Appended(s, sync, now);
    forall n | 0 <= n < |t.places|
      ensures t.places[n].inode < |t.inodes| && t.places[n].pos < |t.inodes[t.places[n].inode]|
        && t.inodes[t.places[n].inode][t.places[n].pos] == n
    {
      assert n < |s.places| ==> t.places[n] == s.places[n];
    }
    forall i, k | 0 <= i < |t.inodes| && 0 <= k < |t.inodes[i]|
      ensures t.inodes[i][k] < |t.places| && t.places[t.inodes[i][k]] == Place(i, k)
    {
      assert k < |s.inodes[i]| ==> t.inodes[i][k] == s.inodes[i][k];
    }
  }

  lemma AppendedKeepsTaskInv(s: State, sync: bool, now: int)
    requires FileInv(s) && TaskInv(s)
    ensures TaskInv(Appended(s, sync, now))
  {
    if s.task.Draining? && s.handle.Some? {
      assert |s.places| !in s.published;
    }
  }

  lemma WrittenKeepsInv(s: State, sizes: map<Hour, nat>, now: int, sync: bool, limits: Limits)
    requires Inv(s)
    ensures Inv(Written(s, sizes, now, sync, limits))
  {
    RetainedKeepsInv(s, sizes, now, limits);
    WriteKeepsInv(Retained(s, sizes, now, limits), HourOf(now), sync, now);
  }

  lemma WriteKeepsInv(s: State, hour: Hour, sync: bool, now: int)
    requires Inv(s)
    ensures Inv(Appended(Rotated(s, hour), sync, now))
  {
    RotatedKeepsDir(s, hour);
    RotatedKeepsHandle(s, hour);
    RotatedKeepsTaskInv(s, hour);
    AppendedKeepsDirAndHandle(Rotated(s, hour), sync, now);
    AppendedKeepsPlaces(Rotated(s, hour), sync, now);
    AppendedKeepsTaskInv(Rotated(s, hour), sync, now);
    WriteLeavesNoEmptyFile(s, hour, sync, now);
  }

  lemma WriteLeavesNoEmptyFile(s: State, hour: Hour, sync: bool, now: int)
    requires FileInv(s) && NoEmptyFile(s)
    ensures NoEmptyFile(Appended(Rotated(s, hour), sync, now))
  {
    assert hour in s.dir ==> s.dir[hour] < |s.inodes|;
  }

  lemma {:induction false} NextFileKeepsInv(s: State, todo: seq<Hour>, now: int)
    requires FileInv(s) && NoEmptyFile(s)
    ensures Inv(NextFile(s, todo, now))
    decreases |todo|
  {
    if todo != [] {
      var h := todo[0];
      if h in s.dir {
        OpeningKeepsInv(s, h, s.dir[h], todo[1..]);
      }
      NextFileKeepsInv(s, todo[1..], now);
    }
  }

  lemma OpeningKeepsInv(s: State, h: Hour, i: nat, todo: seq<Hour>)
    requires FileInv(s) && h in s.dir && i == s.dir[h]
    ensures i < |s.inodes|
    ensures TaskInv(s.(task := Draining(h, i, s.inodes[i][..OnDisk(s, i)], 0, todo, |s.places|)))
  {
    forall k | OnDisk(s, i) <= k < |s.inodes[i]| ensures s.inodes[i][k] !in s.published {
      assert s.places[s.inodes[i][k]] == Place(i, k);
    }
  }

  lemma BegunKeepsInv(s: State, now: int)
    requires Inv(s)
    ensures Inv(Begun(s, now))
  {
    NextFileKeepsInv(Flushed(s), Listing(s.dir.Keys), now);
  }

  lemma PublishedKeepsInv(s: State, ok: bool)
    requires Inv(s) && s.task.Draining? && s.task.pos < |s.task.snapshot|
    ensures Inv(Published(s, ok))
  {
    var t := s.task;
    var n := t.snapshot[t.pos];
    assert s.inodes[t.inode][t.pos] == n && s.places[n] == Place(t.inode, t.pos);
    assert HandleInv(Published(s, ok));
    PublishedKeepsTaskInv(s, ok);
  }

  lemma PublishedKeepsTaskInv(s: State, ok: bool)
    requires Inv(s) && s.task.Draining? && s.task.pos < |s.task.snapshot|
    ensures TaskInv(Published(s, ok))
  {
    var t := s.task;
    var n := t.snapshot[t.pos];
    forall k | |t.snapshot| <= k < |s.inodes[t.inode]| ensures s.inodes[t.inode][k] != n {
      assert s.places[s.inodes[t.inode][k]] == Place(t.inode, k);
      assert s.places[s.inodes[t.inode][t.pos]] == Place(t.inode, t.pos);
    }
  }

  lemma FinishedKeepsInv(s: State, now: int)
    requires Inv(s) && s.task.Draining?
    ensures Inv(Finished(s, now))
  {
    UnlinkedKeepsFileInv(s);
    NextFileKeepsInv(Unlinked(s, s.task.hour), s.task.todo, now);
  }

  lemma UnlinkedKeepsFileInv(s: State)
    requires FileInv(s) && s.task.Draining?
    ensures FileInv(Unlinked(s, s.task.hour))
  {
    var u := Unlinked(s, s.task.hour);
    forall i | Linked(s.dir, i) ensures Linked(u.dir, i) || i in u.drained {
      var h :| h in s.dir && s.dir[h] == i;
      assert h != s.task.hour ==> h in u.dir && u.dir[h] == i;
    }
  }

  lemma StepKeepsInv(s: State, a: Action, limits: Limits)
    requires Inv(s)
    ensures Inv(Step(s, a, limits))
  {
    match a
    case Connect =>
    case Disconnect =>
    case Message(now, sizes, sync) => WrittenKeepsInv(s, sizes, now, sync, limits);
    case Replay(now, ok) =>
      if s.task.Waiting? {
        BegunKeepsInv(s, now);
      } else if AtUnlink(s, a) {
        FinishedKeepsInv(s, now);
      } else {
        PublishedKeepsInv(s, ok);
      }
  }

  lemma {:induction false} RunKeepsInv(s: State, actions: seq<Action>, limits: Limits)
    requires Inv(s)
    ensures Inv(Run(s, actions, limits))
    decreases |actions|
  {
    if actions != [] {
      StepKeepsInv(s, actions[0], limits);
      RunKeepsInv(Step(s, actions[0], limits), actions[1..], limits);
    }
  }

  // ----- No record disappears unaccounted for -----

  /** In a file that replay unlinked without having published the record. */
  ghost predicate Lost(s: State, n: nat) {
    n < |s.places| && s.places[n].inode in s.drained && n !in s.published
  }

  /**
   In every run each accepted record still stands where it was written, and has been published, or that file is
   in the directory, or retention unlinked it, or replay unlinked it too early.
   */
  lemma EveryRecordAccountedFor(actions: seq<Action>, limits: Limits, n: nat)
    requires n < |Run(Init, actions, limits).places|
    ensures var s := Run(Init, actions, limits);
      var p := s.places[n];
      && p.inode < |s.inodes| && p.pos < |s.inodes[p.inode]| && s.inodes[p.inode][p.pos] == n
      && (n in s.published || Linked(s.dir, p.inode) || p.inode in s.expired || Lost(s, n))
  {
    RunKeepsInv(Init, actions, limits);
    AccountedFor(Run(Init, actions, limits), n);
  }

  lemma AccountedFor(s: State, n: nat)
    requires DirInv(s) && PlaceInv(s) && n < |s.places|
    ensures var p := s.places[n];
      && p.inode < |s.inodes| && p.pos < |s.inodes[p.inode]| && s.inodes[p.inode][p.pos] == n
      && (n in s.published || Linked(s.dir, p.inode) || p.inode in s.expired || Lost(s, n))
  {
  }

  /**
   When a step loses a record: the file about to be unlinked is not the file that was read, or has grown since;
   or the open handle still names a file that replay unlinked within the same hour.
   */
  ghost predicate Loses(s: State, a: Action) {
    || (AtUnlink(s, a) && s.task.hour in s.dir && s.task.inode < |s.inodes| &&
          (s.dir[s.task.hour] != s.task.inode || |s.inodes[s.task.inode]| > |s.task.snapshot|))
    || (a.Message? && !s.connected && s.handle.Some? &&
          s.handle.value.hourKey == HourOf(a.now) && s.handle.value.inode in s.drained)
  }

  ghost predicate LosesSome(s: State, t: State) {
    exists n :: Lost(t, n) && !Lost(s, n)
  }

  lemma {:induction false} NextFileFrame(s: State, todo: seq<Hour>, now: int)
    ensures NextFile(s, todo, now) == s.(task := NextFile(s, todo, now).task)
    decreases |todo|
  {
    if todo != [] {
      NextFileFrame(s, todo[1..], now);
    }
  }

  /** From any reachable state a step loses a record if and only if `Loses` says so beforehand. */
  lemma LossExactly(s: State, a: Action, limits: Limits)
    requires Inv(s)
    ensures LosesSome(s, Step(s, a, limits)) <==> Loses(s, a)
  {
    match a
    case Connect =>
    case Disconnect =>
    case Message(now, sizes, sync) =>
      if !s.connected {
        WriteLossExactly(s, a, limits);
      }
    case Replay(now, ok) =>
      if s.task.Waiting? {
        NextFileFrame(Flushed(s), Listing(s.dir.Keys), now);
      } else if AtUnlink(s, a) {
        UnlinkLossExactly(s, a, now);
      }
  }

  lemma UnlinkLossExactly(s: State, a: Action, now: int)
    requires Inv(s) && AtUnlink(s, a)
    ensures LosesSome(s, Finished(s, now)) <==> Loses(s, a)
  {
    var t := s.task;
    var u := Unlinked(s, t.hour);
    NextFileFrame(u, t.todo, now);
    if t.hour in s.dir {
      var i := s.dir[t.hour];
      if Loses(s, a) {
        var k := if i != t.inode then 0 else |t.snapshot|;
        var n := s.inodes[i][k];
        assert s.places[n] == Place(i, k);
        assert n !in s.published;
        assert Lost(Finished(s, now), n) && !Lost(s, n);
      } else {
        forall n: nat | n < |s.places| && s.places[n].inode == i ensures n in s.published {
          assert t.snapshot[s.places[n].pos] == n;
        }
      }
    }
  }

  /** What a write does to the records and the handle. */
  ghost predicate WriteEffect(s: State, t: State, hour: Hour) {
    && t.published == s.published && t.drained == s.drained && t.task == s.task && t.wroteInCycle
    && |t.places| == |s.places| + 1 && s.places <= t.places
    && t.handle.Some? && t.places[|s.places|].inode == t.handle.value.inode
    && (if s.handle.Some? && s.handle.value.hourKey == hour
        then t.handle.value.inode == s.handle.value.inode
        else t.handle.value.inode !in s.drained)
  }

  lemma WriteHasEffect(s: State, hour: Hour, sync: bool, now: int)
    requires DirInv(s)
    requires s.handle.Some? ==> s.handle.value.inode < |s.inodes|
    ensures WriteEffect(s, Appended(Rotated(s, hour), sync, now), hour)
  {
    assert hour in s.dir ==> s.dir[hour] !in s.drained && s.dir[hour] < |s.inodes|;
    assert |s.inodes| !in s.drained;
  }

  /** `write` never drops a record: a size limit of zero leaves nothing behind. */
  lemma MessageWrites(s: State, a: Action, limits: Limits)
    requires a.Message? && !s.connected
    ensures Step(s, a, limits) == Appended(Rotated(Retained(s, a.sizes, a.now, limits), HourOf(a.now)), a.sync, a.now)
  {
    if limits.maxBytes == 0 {
      NothingDropped(Listing(s.dir.Keys), a.sizes, a.now, limits);
    }
  }

  lemma MessageHasEffect(s: State, a: Action, limits: Limits)
    requires Inv(s) && a.Message? && !s.connected
    ensures WriteEffect(s, Step(s, a, limits), HourOf(a.now))
  {
    MessageWrites(s, a, limits);
    RetainedKeepsDir(s, a.sizes, a.now, limits);
    WriteHasEffect(Retained(s, a.sizes, a.now, limits), HourOf(a.now), a.sync, a.now);
  }

  /** A write changes the fate of no record but its own. */
  lemma WriteLosesNoOther(s: State, t: State, hour: Hour, m: nat)
    requires WriteEffect(s, t, hour) && m != |s.places|
    ensures Lost(t, m) <==> Lost(s, m)
  {
    assert m < |s.places| ==> t.places[m] == s.places[m];
  }

  lemma WriteLossExactly(s: State, a: Action, limits: Limits)
    requires Inv(s) && a.Message? && !s.connected
    ensures LosesSome(s, Step(s, a, limits)) <==> Loses(s, a)
  {
    var t := Step(s, a, limits);
    MessageHasEffect(s, a, limits);
    var n := |s.places|;
    assert n !in s.published;
    assert Lost(t, n) <==> Loses(s, a);
    forall m: nat | m != n ensures Lost(t, m) <==> Lost(s, m) {
      WriteLosesNoOther(s, t, HourOf(a.now), m);
    }
  }

  // ----- What counts as published -----

  /** The record this step hands to a connected publisher that does not raise. */
  function Delivered(s: State, a: Action): seq<nat> {
    if a.Replay? && a.ok && s.connected && s.task.Draining? && s.task.pos < |s.task.snapshot|
    then [s.task.snapshot[s.task.pos]]
    else []
  }

  ghost function Deliveries(s: State, actions: seq<Action>, limits: Limits): seq<nat>
    decreases |actions|
  {
    if actions == [] then [] else Delivered(s, actions[0]) + Deliveries(Step(s, actions[0], limits), actions[1..], limits)
  }

  lemma KeepOnlyHistory(s: State, kept: seq<Hour>)
    ensures KeepOnly(s, kept).published == s.published && KeepOnly(s, kept).drained == s.drained
  {
  }

  lemma AppendHistory(r: State, hour: Hour, sync: bool, now: int)
    ensures Appended(Rotated(r, hour), sync, now).published == r.published
    ensures Appended(Rotated(r, hour), sync, now).drained == r.drained
  {
  }

  /** A write publishes nothing, and replay's unlinks are none of its business. */
  lemma WriteHistory(s: State, sizes: map<Hour, nat>, now: int, sync: bool, limits: Limits)
    ensures Written(s, sizes, now, sync, limits).published == s.published
    ensures Written(s, sizes, now, sync, limits).drained == s.drained
  {
    KeepOnlyHistory(s, Kept(Listing(s.dir.Keys), sizes, now, limits));
    AppendHistory(Retained(s, sizes, now, limits), HourOf(now), sync, now);
  }

  /** The steps that deliver nothing publish nothing. */
  lemma OthersPublishNothing(s: State, a: Action, limits: Limits)
    requires !(a.Replay? && s.task.Draining? && s.task.pos < |s.task.snapshot|)
    ensures Step(s, a, limits).published == s.published
  {
    match a
    case Connect =>
    case Disconnect =>
    case Message(now, sizes, sync) => WriteHistory(s, sizes, now, sync, limits);
    case Replay(now, ok) =>
      if s.task.Waiting? {
        NextFileFrame(Flushed(s), Listing(s.dir.Keys), now);
      } else {
        NextFileFrame(Unlinked(s, s.task.hour), s.task.todo, now);
      }
  }

  /**
   A step publishes exactly what it delivers. A publish that raises, or finds the connection gone, ends the cycle and
   leaves the file where it is.
   */
  lemma PublishesWhatIsDelivered(s: State, a: Action, limits: Limits)
    ensures Step(s, a, limits).published == s.published + Delivered(s, a)
    ensures a.Replay? && s.task.Draining? && s.task.pos < |s.task.snapshot| ==>
      if a.ok && s.connected then Step(s, a, limits).task == s.task.(pos := s.task.pos + 1)
      else Step(s, a, limits) == s.(task := Waiting)
  {
    if !(a.Replay? && s.task.Draining? && s.task.pos < |s.task.snapshot|) {
      OthersPublishNothing(s, a, limits);
      assert s.published + [] == s.published;
    }
  }

  lemma {:induction false} PublishedIsDelivered(s: State, actions: seq<Action>, limits: Limits)
    ensures Run(s, actions, limits).published == s.published + Deliveries(s, actions, limits)
    decreases |actions|
  {
    if actions != [] {
      var t := Step(s, actions[0], limits);
      PublishesWhatIsDelivered(s, actions[0], limits);
      PublishedIsDelivered(t, actions[1..], limits);
      Regroup(s.published, Delivered(s, actions[0]), Deliveries(t, actions[1..], limits));
    }
  }

  lemma Regroup(a: seq<nat>, b: seq<nat>, c: seq<nat>)
    ensures a + b + c == a + (b + c)
  {
  }

  /** The history of publications is the history of deliveries: nothing is counted that no publisher took. */
  lemma EveryPublicationWasDelivered(actions: seq<Action>, limits: Limits)
    ensures Run(Init, actions, limits).published == Deliveries(Init, actions, limits)
  {
    PublishedIsDelivered(Init, actions, limits);
    assert [] + Deliveries(Init, actions, limits) == Deliveries(Init, actions, limits);
  }

  /** Replay unlinks a file only when all it read of the file has been published. */
  lemma UnlinksOnlyPublished(s: State, a: Action, limits: Limits)
    requires Inv(s) && Step(s, a, limits).drained != s.drained
    ensures AtUnlink(s, a) && forall k | 0 <= k < |s.task.snapshot| :: s.task.snapshot[k] in s.published
  {
    match a
    case Connect =>
    case Disconnect =>
    case Message(now, sizes, sync) => WriteHistory(s, sizes, now, sync, limits);
    case Replay(now, ok) =>
      if s.task.Waiting? {
        NextFileFrame(Flushed(s), Listing(s.dir.Keys), now);
      }
  }

  // ----- Records that never reach the buffer -----

  /** The open handle is on the current hour, and its file is no longer in the directory once this write has retained. */
  ghost predicate WritesOutside(s: State, a: Action, limits: Limits)
    requires a.Message?
  {
    && s.handle.Some? && s.handle.value.hourKey == HourOf(a.now)
    && !Linked(Retained(s, a.sizes, a.now, limits).dir, s.handle.value.inode)
  }

  lemma RotatedLinks(s: State, hour: Hour)
    requires DirInv(s)
    requires s.handle.Some? ==> s.handle.value.inode < |s.inodes|
    ensures var r := Rotated(s, hour);
      && r.handle.Some? && r.handle.value.inode < |r.inodes|
      && (Linked(r.dir, r.handle.value.inode) <==>
            !(s.handle.Some? && s.handle.value.hourKey == hour && !Linked(s.dir, s.handle.value.inode)))
  {
    var r := Rotated(s, hour);
    if !(s.handle.Some? && s.handle.value.hourKey == hour) {
      assert hour in r.dir && r.dir[hour] == r.handle.value.inode;
    }
  }

  /** From any reachable state an accepted record is outside the buffer from the start if and only if `WritesOutside`. */
  lemma AcceptedOutsideIff(s: State, a: Action, limits: Limits)
    requires Inv(s) && a.Message? && !s.connected
    ensures var t := Step(s, a, limits);
      && |t.places| == |s.places| + 1
      && (!Linked(t.dir, t.places[|s.places|].inode) <==> WritesOutside(s, a, limits))
  {
    MessageWrites(s, a, limits);
    RetainedKeepsDir(s, a.sizes, a.now, limits);
    RotatedLinks(Retained(s, a.sizes, a.now, limits), HourOf(a.now));
  }

  /** Neither published, nor in the directory, nor in what replay has read. */
  ghost predicate Gone(s: State, n: nat) {
    n < |s.places| && n !in s.published && !Linked(s.dir, s.places[n].inode) && !InSnapshot(s, n)
  }

  lemma WriteKeepsGone(s: State, a: Action, limits: Limits, n: nat)
    requires Inv(s) && Gone(s, n) && a.Message? && !s.connected
    ensures Gone(Step(s, a, limits), n)
  {
    MessageHasEffect(s, a, limits);
    if Linked(Step(s, a, limits).dir, s.places[n].inode) {
      WriteLinksNothingOld(s, a, limits, s.places[n].inode);
    }
    GoneFrame(s, Step(s, a, limits), n);
  }

  lemma GoneFrame(s: State, t: State, n: nat)
    requires Gone(s, n) && s.places <= t.places && t.published == s.published && t.task == s.task
    requires !Linked(t.dir, s.places[n].inode)
    ensures Gone(t, n)
  {
    assert t.places[n] == s.places[n];
  }

  lemma {:induction false} NextFileKeepsGone(s: State, todo: seq<Hour>, now: int, n: nat)
    requires n < |s.places| && n !in s.published && !Linked(s.dir, s.places[n].inode)
    ensures Gone(NextFile(s, todo, now), n)
    decreases |todo|
  {
    if todo != [] {
      NextFileKeepsGone(s, todo[1..], now, n);
    }
  }

  lemma PublishKeepsGone(s: State, ok: bool, n: nat)
    requires Inv(s) && Gone(s, n) && s.task.Draining? && s.task.pos < |s.task.snapshot|
    ensures Gone(Published(s, ok), n)
  {
    var t := s.task;
    assert s.places[t.snapshot[t.pos]] == Place(t.inode, t.pos);
  }

  lemma StepKeepsGone(s: State, a: Action, limits: Limits, n: nat)
    requires Inv(s) && Gone(s, n)
    ensures Gone(Step(s, a, limits), n)
  {
    match a
    case Connect =>
    case Disconnect =>
    case Message(now, sizes, sync) =>
      if !s.connected {
        WriteKeepsGone(s, a, limits, n);
      }
    case Replay(now, ok) =>
      if s.task.Waiting? {
        if s.connected {
          NextFileKeepsGone(Flushed(s), Listing(s.dir.Keys), now, n);
        }
      } else if AtUnlink(s, a) {
        UnlinkedStaysUnlinked(s, n);
        NextFileKeepsGone(Unlinked(s, s.task.hour), s.task.todo, now, n);
      } else {
        PublishKeepsGone(s, ok, n);
      }
  }

  lemma UnlinkedStaysUnlinked(s: State, n: nat)
    requires Gone(s, n) && s.task.Draining?
    ensures !Linked(Unlinked(s, s.task.hour).dir, s.places[n].inode)
  {
    var u := Unlinked(s, s.task.hour);
    assert forall h | h in u.dir :: h in s.dir && u.dir[h] == s.dir[h];
  }

  lemma {:induction false} RunKeepsGone(s: State, actions: seq<Action>, limits: Limits, n: nat)
    requires Inv(s) && Gone(s, n)
    ensures Gone(Run(s, actions, limits), n)
    decreases |actions|
  {
    if actions != [] {
      StepKeepsInv(s, actions[0], limits);
      StepKeepsGone(s, actions[0], limits, n);
      RunKeepsGone(Step(s, actions[0], limits), actions[1..], limits, n);
    }
  }

  /** A record accepted outside the buffer is never published, however the run goes on. */
  lemma WrittenOutsideIsNeverPublished(s: State, a: Action, limits: Limits, actions: seq<Action>)
    requires Inv(s) && a.Message? && !s.connected && WritesOutside(s, a, limits)
    ensures |s.places| !in Run(Step(s, a, limits), actions, limits).published
  {
    var t := Step(s, a, limits);
    AcceptedOutsideIff(s, a, limits);
    MessageHasEffect(s, a, limits);
    StepKeepsInv(s, a, limits);
    NewRecordNotRead(s, a, limits);
    RunKeepsGone(t, actions, limits, |s.places|);
  }

  lemma NewRecordNotRead(s: State, a: Action, limits: Limits)
    requires Inv(s) && a.Message? && !s.connected
    ensures |s.places| !in Step(s, a, limits).published && !InSnapshot(Step(s, a, limits), |s.places|)
  {
    var t := Step(s, a, limits);
    var n := |s.places|;
    MessageHasEffect(s, a, limits);
    StepKeepsInv(s, a, limits);
  }

  // ----- Where a record goes -----

  /** The newest record is the last in the file behind the handle of the hour; a synced file is all on the disk. */
  ghost predicate WentTo(t: State, n: nat, hour: Hour, sync: bool) {
    && |t.places| == n + 1
    && t.handle.Some? && t.handle.value.hourKey == hour && t.handle.value.inode == t.places[n].inode
    && t.places[n].inode < |t.inodes| && t.inodes[t.places[n].inode] != []
    && t.places[n].pos == |t.inodes[t.places[n].inode]| - 1
    && t.inodes[t.places[n].inode][t.places[n].pos] == n
    && (sync ==> OnDisk(t, t.places[n].inode) == |t.inodes[t.places[n].inode]|)
  }

  /**
   A record accepted at a time goes to the end of the file of that time's hour, by the open handle if it is on that hour,
   and otherwise to the file the directory has for the hour.
   */
  lemma RecordGoesToItsHour(s: State, a: Action, limits: Limits)
    requires Inv(s) && a.Message? && !s.connected
    ensures WentTo(Step(s, a, limits), |s.places|, a.now / 3600, a.sync)
    ensures !(s.handle.Some? && s.handle.value.hourKey == a.now / 3600) ==>
      var t := Step(s, a, limits);
      a.now / 3600 in t.dir && t.dir[a.now / 3600] == t.places[|s.places|].inode
  {
    MessageWrites(s, a, limits);
    RetainedKeepsInv(s, a.sizes, a.now, limits);
    var r := Rotated(Retained(s, a.sizes, a.now, limits), HourOf(a.now));
    RotatedInHour(Retained(s, a.sizes, a.now, limits), HourOf(a.now));
    AppendedAtTheEnd(r, a.sync, a.now);
  }

  /**
   A write leaves linked exactly the hours retention keeps, each with its file, and the current hour if the file for it
   had to be opened; whatever else was linked is on record as expired.
   */
  lemma WriteLeavesLinked(s: State, a: Action, limits: Limits, h: Hour)
    requires a.Message? && !s.connected
    ensures
      var t := Step(s, a, limits);
      var kept := Kept(Listing(s.dir.Keys), a.sizes, a.now, limits);
      var opens := !(s.handle.Some? && s.handle.value.hourKey == a.now / 3600);
      && (h in t.dir <==> h in kept || (opens && h == a.now / 3600))
      && (h in kept ==> h in s.dir && t.dir[h] == s.dir[h])
      && (h in s.dir && h !in kept ==> s.dir[h] in t.expired)
  {
    MessageWrites(s, a, limits);
    RetentionLeavesLinked(s, Listing(s.dir.Keys), a.sizes, a.now, limits, h);
    AppendLinks(Retained(s, a.sizes, a.now, limits), a.now / 3600, a.sync, a.now, h);
  }

  lemma RetentionLeavesLinked(s: State, files: seq<Hour>, sizes: map<Hour, nat>, now: int, limits: Limits, h: Hour)
    requires files == Listing(s.dir.Keys)
    ensures
      var r := Retained(s, sizes, now, limits);
      var kept := Kept(files, sizes, now, limits);
      && r.handle == s.handle
      && (h in r.dir <==> h in kept)
      && (h in kept ==> h in s.dir && r.dir[h] == s.dir[h])
      && (h in s.dir && h !in kept ==> s.dir[h] in r.expired)
  {
    var k := KeptIsLongestSuffix(files, sizes, now, limits);
    if h in files[k..] {
      assert h in files;
    }
  }

  lemma AppendLinks(r: State, hour: Hour, sync: bool, now: int, h: Hour)
    ensures
      var t := Appended(Rotated(r, hour), sync, now);
      && t.expired == r.expired
      && (h in t.dir <==> h in r.dir || (h == hour && !(r.handle.Some? && r.handle.value.hourKey == hour)))
      && (h in r.dir ==> t.dir[h] == r.dir[h])
  {
  }

  lemma AppendedAtTheEnd(r: State, sync: bool, now: int)
    requires r.handle.Some? && r.handle.value.inode < |r.inodes|
    ensures WentTo(Appended(r, sync, now), |r.places|, r.handle.value.hourKey, sync)
    ensures Appended(r, sync, now).dir == r.dir
    ensures Appended(r, sync, now).places[|r.places|].inode == r.handle.value.inode
  {
  }

  lemma RotatedInHour(s: State, hour: Hour)
    requires FileInv(s)
    ensures var r := Rotated(s, hour);
      && r.handle.Some? && r.handle.value.hourKey == hour && r.handle.value.inode < |r.inodes| && r.places == s.places
      && (!(s.handle.Some? && s.handle.value.hourKey == hour) ==>
            hour in r.dir && r.dir[hour] == r.handle.value.inode)
  {
  }

  // ----- Which file is drained next -----

  /** In the directory, and not the open file of the current hour. */
  predicate Drainable(s: State, h: Hour, now: int) {
    h in s.dir && !(s.handle.Some? && h == now / 3600)
  }

  /** The generator yields the first listed file that can be drained, with all of it that is on the disk. */
  lemma {:induction false} NextFileIsFirst(s: State, todo: seq<Hour>, now: int) returns (i: nat)
    requires DirInv(s)
    ensures i <= |todo| && forall j | 0 <= j < i :: !Drainable(s, todo[j], now)
    ensures i < |todo| ==> Drainable(s, todo[i], now) && s.dir[todo[i]] < |s.inodes|
    ensures var t := NextFile(s, todo, now).task;
      if i == |todo| || !s.connected then t == Waiting
      else
        var f := s.dir[todo[i]];
        t == Draining(todo[i], f, s.inodes[f][..OnDisk(s, f)], 0, todo[i + 1..], |s.places|)
    decreases |todo|
  {
    i := 0;
    if todo != [] {
      var h := todo[0];
      if !Drainable(s, h, now) {
        i := NextFileIsFirst(s, todo[1..], now);
        assert forall j | 0 < j < i + 1 :: todo[j] == todo[1..][j - 1];
        assert todo[1..][i..] == todo[i + 1..];
        i := i + 1;
      } else {
        assert s.dir[h] < |s.inodes|;
      }
    }
  }

  // ----- Left alone, replay empties the buffer -----

  function Replays(now: int, n: nat): seq<Action> {
    seq(n, _ => Replay(now, true))
  }

  lemma ReplaysSplit(s: State, now: int, m: nat, n: nat, limits: Limits)
    ensures Run(s, Replays(now, m + n), limits) == Run(Run(s, Replays(now, m), limits), Replays(now, n), limits)
  {
    assert Replays(now, m + n) == Replays(now, m) + Replays(now, n);
    RunConcat(s, Replays(now, m), Replays(now, n), limits);
  }

  lemma OneReplay(s: State, now: int, limits: Limits)
    ensures Run(s, Replays(now, 1), limits) == Step(s, Replay(now, true), limits)
  {
    var one := Replays(now, 1);
    assert one[0] == Replay(now, true) && one[1..] == [];
  }

  lemma {:induction false} PublishRest(s: State, now: int, limits: Limits)
    requires s.connected && s.task.Draining? && s.task.pos <= |s.task.snapshot|
    ensures Run(s, Replays(now, |s.task.snapshot| - s.task.pos), limits) ==
      s.(published := s.published + s.task.snapshot[s.task.pos..], task := s.task.(pos := |s.task.snapshot|))
    decreases |s.task.snapshot| - s.task.pos
  {
    var k, n := s.task.pos, |s.task.snapshot|;
    if k == n {
      assert s.published + [] == s.published;
    } else {
      var t := Step(s, Replay(now, true), limits);
      OneReplay(s, now, limits);
      PublishRest(t, now, limits);
      ReplaysSplit(s, now, 1, n - k - 1, limits);
      assert s.published + [s.task.snapshot[k]] + s.task.snapshot[k + 1..] == s.published + s.task.snapshot[k..];
    }
  }

  /** Draining the whole of a closed file, with every other linked file still to come. */
  ghost predicate Undisturbed(s: State) {
    && s.connected && s.handle.None? && s.task.Draining?
    && s.task.hour in s.dir && s.dir[s.task.hour] == s.task.inode
    && s.task.inode < |s.inodes| && |s.task.snapshot| == |s.inodes[s.task.inode]|
    && forall h | h in s.dir :: h == s.task.hour || h in s.task.todo
  }

  /** With the connection up and no file open, the generator finds a file as long as the directory has one. */
  lemma {:induction false} NextFileFinds(s: State, todo: seq<Hour>, now: int)
    requires DirInv(s) && s.connected && s.handle.None?
    requires forall h | h in s.dir :: h in todo
    ensures var t := NextFile(s, todo, now);
      && t == s.(task := t.task)
      && (if s.dir == map[] then t.task.Waiting? else Undisturbed(t))
    decreases |todo|
  {
    if todo == [] {
      assert forall h :: h !in s.dir;
      assert s.dir == map[];
    } else {
      var h, rest := todo[0], todo[1..];
      assert todo == [h] + rest;
      NextFileStep(s, h, rest, now);
      if h !in s.dir {
        NextFileFinds(s, rest, now);
      } else {
        assert s.dir[h] < |s.inodes| && s.dir != map[];
      }
    }
  }

  /** Everything published, or linked in the directory, in one state has been published in the other. */
  ghost predicate Emptied(s: State, t: State) {
    && t.dir == map[] && t.task.Waiting?
    && forall m: nat | m < |s.places| && (m in s.published || Linked(s.dir, s.places[m].inode)) :: m in t.published
  }

  lemma FilePublished(s: State, m: nat)
    requires Inv(s) && Undisturbed(s) && m < |s.places| && s.places[m].inode == s.task.inode
    ensures m in s.published || m in s.task.snapshot[s.task.pos..]
  {
    var k := s.places[m].pos;
    assert s.task.snapshot[k] == m;
    if k >= s.task.pos {
      assert s.task.snapshot[s.task.pos..][k - s.task.pos] == m;
    }
  }

  /** The file at hand has been drained: gone from the directory, its snapshot published, and the next one found. */
  ghost predicate Advanced(s: State, t: State)
    requires s.task.Draining? && s.task.pos <= |s.task.snapshot|
  {
    && Inv(t) && t.connected && t.handle.None? && t.places == s.places && t.dir == s.dir - {s.task.hour}
    && t.published == s.published + s.task.snapshot[s.task.pos..]
    && (if t.dir == map[] then t.task.Waiting? else Undisturbed(t))
  }

  lemma FinishAdvances(s: State, full: State, now: int, limits: Limits)
    requires Inv(s) && Undisturbed(s) && Inv(full)
    requires full ==
      s.(published := s.published + s.task.snapshot[s.task.pos..], task := s.task.(pos := |s.task.snapshot|))
    ensures Advanced(s, Step(full, Replay(now, true), limits))
  {
    StepKeepsInv(full, Replay(now, true), limits);
    UnlinkedKeepsFileInv(full);
    NextFileFinds(Unlinked(full, full.task.hour), full.task.todo, now);
  }

  /** What is left of the buffer once the file being drained is done. */
  lemma FileDone(s: State, now: int, limits: Limits)
    requires Inv(s) && Undisturbed(s)
    ensures Advanced(s, Run(s, Replays(now, |s.task.snapshot| - s.task.pos + 1), limits))
  {
    var n := |s.task.snapshot| - s.task.pos;
    var full := Run(s, Replays(now, n), limits);
    PublishRest(s, now, limits);
    RunKeepsInv(s, Replays(now, n), limits);
    ReplaysSplit(s, now, n, 1, limits);
    OneReplay(full, now, limits);
    FinishAdvances(s, full, now, limits);
  }

  lemma ThenTheRest(s: State, now: int, limits: Limits, m: nat, n: nat)
    requires Inv(s) && Undisturbed(s) && Advanced(s, Run(s, Replays(now, m), limits))
    requires Emptied(Run(s, Replays(now, m), limits), Run(Run(s, Replays(now, m), limits), Replays(now, n), limits))
    ensures Emptied(s, Run(s, Replays(now, m + n), limits))
  {
    var t := Run(s, Replays(now, m), limits);
    ReplaysSplit(s, now, m, n, limits);
    FileCarries(s, t, Run(t, Replays(now, n), limits));
  }

  lemma {:induction false} DrainsTheRest(s: State, now: int, limits: Limits) returns (n: nat)
    requires Inv(s) && Undisturbed(s)
    ensures Emptied(s, Run(s, Replays(now, n), limits))
    decreases s.dir.Keys
  {
    n := |s.task.snapshot| - s.task.pos + 1;
    var t := Run(s, Replays(now, n), limits);
    FileDone(s, now, limits);
    if t.dir == map[] {
      FileCarries(s, t, t);
    } else {
      NextIsReady(s, t);
      var rest := DrainsTheRest(t, now, limits);
      ThenTheRest(s, now, limits, n, rest);
      n := n + rest;
    }
  }

  lemma NextIsReady(s: State, t: State)
    requires Undisturbed(s) && s.task.pos <= |s.task.snapshot| && Advanced(s, t) && t.dir != map[]
    ensures Inv(t) && Undisturbed(t) && t.dir.Keys < s.dir.Keys
  {
    FewerFiles(s.dir, s.task.hour);
  }

  lemma FewerFiles(dir: map<Hour, nat>, hour: Hour)
    requires hour in dir
    ensures (dir - {hour}).Keys < dir.Keys
  {
    assert (dir - {hour}).Keys == dir.Keys - {hour};
  }

  lemma FileCarries(s: State, t: State, u: State)
    requires Inv(s) && Undisturbed(s) && Advanced(s, t)
    requires Emptied(t, u) || (t == u && t.dir == map[])
    ensures Emptied(s, u)
  {
    forall m: nat | m < |s.places| && (m in s.published || Linked(s.dir, s.places[m].inode)) ensures m in u.published {
      if m !in t.published {
        if s.places[m].inode == s.task.inode {
          FilePublished(s, m);
        }
        var h :| h in s.dir && s.dir[h] == s.places[m].inode;
        assert h in t.dir && t.dir[h] == s.places[m].inode;
      }
    }
  }

  lemma CycleStarts(s: State, now: int, limits: Limits)
    requires Inv(s) && s.connected && s.task.Waiting?
    ensures var t := Step(s, Replay(now, true), limits);
      && Inv(t) && t.dir == s.dir && t.places == s.places && t.published == s.published
      && (if t.dir == map[] then t.task.Waiting? else Undisturbed(t))
  {
    StepKeepsInv(s, Replay(now, true), limits);
    NextFileFinds(Flushed(s), Listing(s.dir.Keys), now);
  }

  /**
   From every reachable state with the connection up, replay left alone publishes everything in the buffer and leaves the
   directory empty, however many files there are.
   */
  lemma ReplayEmptiesTheBuffer(s: State, now: int, limits: Limits) returns (n: nat)
    requires Inv(s) && s.connected && s.task.Waiting?
    ensures Emptied(s, Run(s, Replays(now, n), limits))
  {
    var t := Step(s, Replay(now, true), limits);
    OneReplay(s, now, limits);
    CycleStarts(s, now, limits);
    if t.dir == map[] {
      n := 1;
    } else {
      var rest := DrainsTheRest(t, now, limits);
      ReplaysSplit(s, now, 1, rest, limits);
      n := 1 + rest;
    }
  }

  // ----- Runs in which no write comes between a flush and an unlink of the same cycle -----

  ghost predicate Uninterrupted(s: State, a: Action) {
    AtUnlink(s, a) ==> !s.wroteInCycle
  }

  ghost predicate UninterruptedRun(s: State, actions: seq<Action>, limits: Limits)
    decreases |actions|
  {
    actions == [] || (Uninterrupted(s, actions[0]) && UninterruptedRun(Step(s, actions[0], limits), actions[1..], limits))
  }

  /** Until something is written, the file being drained is closed and exactly as it was read. */
  ghost predicate CleanInv(s: State) {
    var t := s.task;
    && (s.handle.Some? ==> s.handle.value.inode !in s.drained)
    && (t.Draining? && !s.wroteInCycle ==>
          && s.handle.None?
          && t.inode < |s.inodes| && |t.snapshot| == |s.inodes[t.inode]|
          && (t.hour in s.dir ==> s.dir[t.hour] == t.inode))
  }

  lemma {:induction false} NextFileKeepsClean(s: State, todo: seq<Hour>, now: int)
    requires FileInv(s) && s.handle.None?
    ensures CleanInv(NextFile(s, todo, now))
    decreases |todo|
  {
    if todo != [] {
      NextFileKeepsClean(s, todo[1..], now);
    }
  }

  lemma CleanLosesNothing(s: State, a: Action)
    requires TaskInv(s) && CleanInv(s) && Uninterrupted(s, a)
    ensures !Loses(s, a)
  {
  }

  lemma WriteKeepsClean(s: State, a: Action, limits: Limits)
    requires Inv(s) && CleanInv(s) && a.Message? && !s.connected
    ensures CleanInv(Step(s, a, limits))
  {
    MessageHasEffect(s, a, limits);
  }

  lemma StepKeepsClean(s: State, a: Action, limits: Limits)
    requires Inv(s) && CleanInv(s) && Uninterrupted(s, a)
    ensures CleanInv(Step(s, a, limits))
  {
    match a
    case Connect =>
    case Disconnect =>
    case Message(now, sizes, sync) =>
      if !s.connected {
        WriteKeepsClean(s, a, limits);
      }
    case Replay(now, ok) =>
      if s.task.Waiting? {
        NextFileKeepsClean(Flushed(s), Listing(s.dir.Keys), now);
      } else if AtUnlink(s, a) {
        UnlinkedKeepsFileInv(s);
        assert s.handle.None?;
        NextFileKeepsClean(Unlinked(s, s.task.hour), s.task.todo, now);
      }
  }

  lemma {:induction false} CleanRun(s: State, actions: seq<Action>, limits: Limits)
    requires Inv(s) && CleanInv(s) && UninterruptedRun(s, actions, limits)
    requires forall n :: !Lost(s, n)
    ensures forall n :: !Lost(Run(s, actions, limits), n)
    decreases |actions|
  {
    if actions != [] {
      var t := Step(s, actions[0], limits);
      StepKeepsInv(s, actions[0], limits);
      StepKeepsClean(s, actions[0], limits);
      CleanLosesNothing(s, actions[0]);
      LossExactly(s, actions[0], limits);
      forall n ensures !Lost(t, n) {
        if Lost(t, n) {
          assert LosesSome(s, t);
        }
      }
      CleanRun(t, actions[1..], limits);
    }
  }

  /** Without such a write, every accepted record is published, still in the buffer, or in a file retention unlinked. */
  lemma NothingLostUninterrupted(actions: seq<Action>, limits: Limits, n: nat)
    requires UninterruptedRun(Init, actions, limits) && n < |Run(Init, actions, limits).places|
    ensures var s := Run(Init, actions, limits);
      n in s.published || Linked(s.dir, s.places[n].inode) || s.places[n].inode in s.expired
  {
    EveryRecordAccountedFor(actions, limits, n);
    CleanRun(Init, actions, limits);
  }

  // ----- The hypothesis cannot be dropped -----

  lemma {:induction false} NoBytes(files: seq<Hour>)
    ensures Total(files, map[]) == 0
  {
    if files != [] {
      NoBytes(files[1..]);
    }
  }

  /** At the start of the epoch, with nothing measured on disk, retention keeps everything. */
  lemma AllRetained(s: State, limits: Limits)
    requires limits.maxHours >= 0 && limits.maxBytes >= 0 && forall h | h in s.dir :: h == 0
    ensures Retained(s, map[], 0, limits) == s
  {
    var files := Listing(s.dir.Keys);
    NoBytes(files);
    forall i | 0 <= i < |files| ensures !TooOld(files[i], 0, limits) {
      assert files[i] in files;
    }
    assert Kept(files, map[], 0, limits) == files;
    assert s.dir - {} == s.dir;
  }

  lemma OfflineWrite(s: State, limits: Limits)
    requires limits.maxHours >= 0 && limits.maxBytes >= 0 && forall h | h in s.dir :: h == 0
    requires !s.connected
    ensures Step(s, Message(0, map[], false), limits) == Appended(Rotated(s, 0), false, 0)
  {
    MessageWrites(s, Message(0, map[], false), limits);
    AllRetained(s, limits);
  }

  /** One record written and published, its file not yet unlinked, and the connection gone again. */
  const MidReplay: State :=
    State([[0]], map[0 := 0], None, false, Draining(0, 0, [0], 1, [], 1), [Place(0, 0)], [0], {}, {}, 0, false)

  /** After the first write, offline. */
  const OneWritten: State :=
    State([[0]], map[0 := 0], Some(Handle(0, 0, 0)), false, Waiting, [Place(0, 0)], [], {}, {}, 0, true)

  lemma FirstWrite(limits: Limits)
    requires limits.maxHours >= 0 && limits.maxBytes >= 0
    ensures Step(Init, Message(0, map[], false), limits) == OneWritten
  {
    OfflineWrite(Init, limits);
    var none: seq<nat> := [];
    assert none + [0] == [0];
    var s1 := Step(Init, Message(0, map[], false), limits);
    assert s1.inodes[0] == [0];
  }

  lemma ReachMidReplay(limits: Limits)
    requires limits.maxHours >= 0 && limits.maxBytes >= 0
    ensures Run(Init, [Message(0, map[], false), Connect, Replay(0, true), Replay(0, true), Disconnect], limits) == MidReplay
  {
    FirstWrite(limits);
    var s2 := Step(OneWritten, Connect, limits);
    assert Listing(s2.dir.Keys) == [0] by {
      assert s2.dir.Keys == {0} && IsLeast(0, {0}) && {0} - {0} == {};
      ListingStep({0}, 0);
    }
    assert Step(s2, Replay(0, true), limits).task == Draining(0, 0, [0], 0, [], 1);
    RunFive(Init, [Message(0, map[], false), Connect, Replay(0, true), Replay(0, true), Disconnect], limits);
  }

  lemma LoseAfterMidReplay(limits: Limits)
    requires limits.maxHours >= 0 && limits.maxBytes >= 0
    ensures Lost(Run(MidReplay, [Message(0, map[], false), Connect, Replay(0, true)], limits), 1)
  {
    OfflineWrite(MidReplay, limits);
    var s1 := Step(MidReplay, Message(0, map[], false), limits);
    assert s1.places == [Place(0, 0), Place(0, 1)] && s1.dir == map[0 := 0] && s1.published == [0];
    RunThree(MidReplay, [Message(0, map[], false), Connect, Replay(0, true)], limits);
  }

  /**
   A record is written, the connection comes up, replay reads the file and publishes the record; during the pause
   that follows the connection drops, a second record is written, and the connection is back before replay wakes.
   Replay then unlinks the file, and the second record with it.
   */
  lemma WriteDuringReplayIsLost(limits: Limits) returns (actions: seq<Action>)
    requires limits.maxHours >= 0 && limits.maxBytes >= 0
    ensures Lost(Run(Init, actions, limits), 1)
  {
    var before := [Message(0, map[], false), Connect, Replay(0, true), Replay(0, true), Disconnect];
    var after := [Message(0, map[], false), Connect, Replay(0, true)];
    actions := before + after;
    RunConcat(Init, before, after, limits);
    ReachMidReplay(limits);
    LoseAfterMidReplay(limits);
  }

  lemma {:induction false} RunConcat(s: State, a: seq<Action>, b: seq<Action>, limits: Limits)
    ensures Run(s, a + b, limits) == Run(Run(s, a, limits), b, limits)
    decreases |a|
  {
    if a == [] {
      assert a + b == b;
    } else {
      assert (a + b)[1..] == a[1..] + b;
      RunConcat(Step(s, a[0], limits), a[1..], b, limits);
    }
  }

  lemma RunThree(s: State, a: seq<Action>, limits: Limits)
    requires |a| == 3
    ensures Run(s, a, limits) == Step(Step(Step(s, a[0], limits), a[1], limits), a[2], limits)
  {
    var s1 := Step(s, a[0], limits);
    var s2 := Step(s1, a[1], limits);
    assert a[1..][0] == a[1] && a[1..][1..][0] == a[2] && a[1..][1..][1..] == [];
    assert Run(s1, a[1..], limits) == Run(s2, a[1..][1..], limits);
  }

  lemma RunFive(s: State, a: seq<Action>, limits: Limits)
    requires |a| == 5
    ensures Run(s, a, limits) ==
      Step(Step(Step(Step(Step(s, a[0], limits), a[1], limits), a[2], limits), a[3], limits), a[4], limits)
  {
    var s1 := Step(s, a[0], limits);
    var s2 := Step(s1, a[1], limits);
    assert a[1..][0] == a[1];
    assert Run(s, a, limits) == Run(s1, a[1..], limits) == Run(s2, a[1..][1..], limits);
    RunThree(s2, a[1..][1..], limits);
  }

  // ----- First publications come in the order the records were written -----

  ghost predicate FirstsInOrder(published: seq<nat>) {
    forall i, j | 0 <= j < i < |published| && published[i] !in published[..i] :: published[j] < published[i]
  }

  /** The clock does not go back between writes, and no write comes between a flush and an unlink of one cycle. */
  ghost predicate Orderly(s: State, a: Action) {
    Uninterrupted(s, a) && (a.Message? ==> s.clock <= a.now)
  }

  ghost predicate OrderlyRun(s: State, actions: seq<Action>, limits: Limits)
    decreases |actions|
  {
    actions == [] || (Orderly(s, actions[0]) && OrderlyRun(Step(s, actions[0], limits), actions[1..], limits))
  }

  /** Files, and the records in each, are in the order of their hours, none after `top`. */
  ghost predicate TimeInv(s: State, top: Hour) {
    && (forall h | h in s.dir :: h <= top)
    && HandleInTime(s, top)
    && (forall i, k, l | 0 <= i < |s.inodes| && 0 <= k < l < |s.inodes[i]| :: s.inodes[i][k] < s.inodes[i][l])
    && (forall g, h | g in s.dir && h in s.dir && g < h :: AllBefore(s, s.dir[g], s.dir[h]))
  }

  ghost predicate HandleInTime(s: State, top: Hour) {
    s.handle.Some? ==>
      && s.handle.value.hourKey <= top
      && forall h | h in s.dir && s.dir[h] == s.handle.value.inode :: h == s.handle.value.hourKey
  }

  ghost predicate AllBefore(s: State, i: nat, j: nat) {
    i < |s.inodes| && j < |s.inodes| &&
    forall k, l | 0 <= k < |s.inodes[i]| && 0 <= l < |s.inodes[j]| :: s.inodes[i][k] < s.inodes[j][l]
  }

  /** In the directory, or in the snapshot being drained. */
  ghost predicate Pending(s: State, n: nat) {
    && n < |s.places|
    && (Linked(s.dir, s.places[n].inode) || InSnapshot(s, n))
  }

  ghost predicate InSnapshot(s: State, n: nat) {
    && n < |s.places|
    && s.task.Draining? && s.places[n].inode == s.task.inode && s.places[n].pos < |s.task.snapshot|
  }

  /** What is still to be published before `m` is nothing. */
  ghost predicate Before(s: State, m: nat) {
    forall n: nat | Pending(s, n) && n < m :: n in s.published
  }

  ghost predicate FifoInv(s: State) {
    var t := s.task;
    && FirstsInOrder(s.published)
    && (forall m | m in s.published :: Before(s, m))
    && (t.Draining? ==> forall n: nat, k | Pending(s, n) && 0 <= k < |t.snapshot| && n < t.snapshot[k] ::
          n in s.published || InSnapshot(s, n))
    && (t.Draining? && !s.wroteInCycle ==>
          && Ascending(t.todo)
          && (forall h | h in s.dir :: h == t.hour || h in t.todo)
          && (forall h | h in t.todo :: t.hour < h))
  }

  lemma RotatedKeepsTime(s: State, hour: Hour)
    requires DirInv(s) && HandleInv(s) && TimeInv(s, hour)
    ensures TimeInv(Rotated(s, hour), hour)
  {
    var r := Rotated(s, hour);
    forall g, h | g in r.dir && h in r.dir && g < h ensures AllBefore(r, r.dir[g], r.dir[h]) {
      RotatedKeepsOrder(s, hour, g, h);
    }
  }

  lemma RotatedKeepsOrder(s: State, hour: Hour, g: Hour, h: Hour)
    requires DirInv(s) && TimeInv(s, hour)
    requires g in Rotated(s, hour).dir && h in Rotated(s, hour).dir && g < h
    ensures var r := Rotated(s, hour); AllBefore(r, r.dir[g], r.dir[h])
  {
    RotatedShape(s, hour);
    var r := Rotated(s, hour);
    if g in s.dir && h in s.dir {
      assert AllBefore(s, s.dir[g], s.dir[h]);
      MoreFilesKeepOrder(s, r, s.dir[g], s.dir[h]);
    }
  }

  lemma MoreFilesKeepOrder(s: State, r: State, i: nat, j: nat)
    requires AllBefore(s, i, j) && s.inodes <= r.inodes
    ensures AllBefore(r, i, j)
  {
  }

  /** The newest record goes to the end of the newest file. */
  lemma AppendedKeepsAscent(s: State, sync: bool, now: int)
    requires PlaceInv(s)
    requires forall i, k, l | 0 <= i < |s.inodes| && 0 <= k < l < |s.inodes[i]| :: s.inodes[i][k] < s.inodes[i][l]
    ensures var t := Appended(s, sync, now);
      forall i, k, l | 0 <= i < |t.inodes| && 0 <= k < l < |t.inodes[i]| :: t.inodes[i][k] < t.inodes[i][l]
  {
    var t := Appended(s, sync, now);
    forall i, k, l | 0 <= i < |t.inodes| && 0 <= k < l < |t.inodes[i]| ensures t.inodes[i][k] < t.inodes[i][l] {
      assert t.inodes[i][k] == s.inodes[i][k];
      assert l < |s.inodes[i]| ==> t.inodes[i][l] == s.inodes[i][l];
    }
  }

  lemma AppendedKeepsBefore(s: State, sync: bool, now: int, g: nat, h: nat)
    requires PlaceInv(s) && AllBefore(s, g, h) && s.handle.Some? && s.handle.value.inode != g
    ensures AllBefore(Appended(s, sync, now), g, h)
  {
    var t := Appended(s, sync, now);
    forall k, l | 0 <= k < |t.inodes[g]| && 0 <= l < |t.inodes[h]| ensures t.inodes[g][k] < t.inodes[h][l] {
      assert t.inodes[g][k] == s.inodes[g][k];
      assert l < |s.inodes[h]| ==> t.inodes[h][l] == s.inodes[h][l];
    }
  }

  lemma AppendedKeepsTime(s: State, sync: bool, now: int, top: Hour)
    requires DirInv(s) && PlaceInv(s) && TimeInv(s, top)
    requires s.handle.Some? && s.handle.value.hourKey == top && s.handle.value.inode < |s.inodes|
    ensures TimeInv(Appended(s, sync, now), top)
  {
    var t := Appended(s, sync, now);
    AppendedKeepsAscent(s, sync, now);
    forall g, h | g in t.dir && h in t.dir && g < h ensures AllBefore(t, t.dir[g], t.dir[h]) {
      assert s.dir[g] != s.handle.value.inode;
      AppendedKeepsBefore(s, sync, now, s.dir[g], s.dir[h]);
    }
  }

  /** The order of the files does not depend on the task, and survives unlinking, closing and the passing of time. */
  lemma TimeFrame(s: State, t: State, top: Hour, top': Hour)
    requires TimeInv(s, top) && top <= top'
    requires t.inodes == s.inodes && (t.handle == s.handle || t.handle.None?)
    requires forall h | h in t.dir :: h in s.dir && t.dir[h] == s.dir[h]
    ensures TimeInv(t, top')
  {
    forall g, h | g in t.dir && h in t.dir && g < h ensures AllBefore(t, t.dir[g], t.dir[h]) {
      assert AllBefore(s, s.dir[g], s.dir[h]);
    }
  }

  lemma RetainedKeepsTime(s: State, sizes: map<Hour, nat>, now: int, limits: Limits)
    requires TimeInv(s, HourOf(s.clock)) && s.clock <= now
    ensures TimeInv(Retained(s, sizes, now, limits), HourOf(now))
  {
    TimeFrame(s, Retained(s, sizes, now, limits), HourOf(s.clock), HourOf(now));
  }

  lemma WriteKeepsTime(s: State, a: Action, limits: Limits)
    requires Inv(s) && TimeInv(s, HourOf(s.clock)) && a.Message? && !s.connected && s.clock <= a.now
    ensures TimeInv(Step(s, a, limits), HourOf(Step(s, a, limits).clock))
  {
    MessageWrites(s, a, limits);
    RetainedKeepsInv(s, a.sizes, a.now, limits);
    RetainedKeepsTime(s, a.sizes, a.now, limits);
    WriteOpenKeepsTime(Retained(s, a.sizes, a.now, limits), HourOf(a.now), a.sync, a.now);
  }

  lemma WriteOpenKeepsTime(r: State, hour: Hour, sync: bool, now: int)
    requires FileInv(r) && TimeInv(r, hour) && hour == HourOf(now)
    ensures TimeInv(Appended(Rotated(r, hour), sync, now), HourOf(Appended(Rotated(r, hour), sync, now).clock))
  {
    RotatedKeepsTime(r, hour);
    RotatedKeepsDir(r, hour);
    RotatedKeepsHandle(r, hour);
    AppendedKeepsTime(Rotated(r, hour), sync, now, hour);
  }

  lemma WriteLinksNothingOld(s: State, a: Action, limits: Limits, i: nat)
    requires a.Message? && !s.connected
    requires i < |s.inodes| && Linked(Step(s, a, limits).dir, i)
    ensures Linked(s.dir, i)
  {
    MessageWrites(s, a, limits);
    var r := Retained(s, a.sizes, a.now, limits);
    RotatedLinksNothingOld(r, HourOf(a.now), i);
    var h :| h in r.dir && r.dir[h] == i;
    assert s.dir[h] == i;
  }

  lemma RotatedLinksNothingOld(r: State, hour: Hour, i: nat)
    requires i < |r.inodes| && Linked(Rotated(r, hour).dir, i)
    ensures Linked(r.dir, i)
  {
    var t := Rotated(r, hour);
    var h :| h in t.dir && t.dir[h] == i;
    assert h in r.dir && r.dir[h] == i;
  }

  lemma WriteKeepsFifo(s: State, a: Action, limits: Limits)
    requires Inv(s) && FifoInv(s) && a.Message? && !s.connected
    ensures FifoInv(Step(s, a, limits))
  {
    var t := Step(s, a, limits);
    MessageHasEffect(s, a, limits);
    forall n: nat | n < |s.places| && Pending(t, n) ensures Pending(s, n) {
      if Linked(t.dir, t.places[n].inode) {
        WriteLinksNothingOld(s, a, limits, s.places[n].inode);
      }
    }
    NewestKeepsFifo(s, t);
  }

  /** A record newer than all others does not disturb the order. */
  lemma NewestKeepsFifo(s: State, t: State)
    requires FifoInv(s) && HandleInv(s) && TaskInv(s)
    requires t.published == s.published && t.task == s.task && t.wroteInCycle
    requires |t.places| == |s.places| + 1 && s.places <= t.places
    requires forall n: nat | n < |s.places| && Pending(t, n) :: Pending(s, n)
    ensures FifoInv(t)
  {
    forall m | m in t.published ensures Before(t, m) {
      assert Before(s, m);
    }
  }

  lemma FirstsSnoc(published: seq<nat>, m: nat)
    requires FirstsInOrder(published)
    requires m in published || forall y | y in published :: y < m
    ensures FirstsInOrder(published + [m])
  {
    var p := published + [m];
    forall i, j | 0 <= j < i < |p| && p[i] !in p[..i] ensures p[j] < p[i] {
      if i < |published| {
        assert p[..i] == published[..i];
      } else {
        assert p[..i] == published && p[j] in published;
      }
    }
  }

  lemma PublishKeepsFifo(s: State, ok: bool)
    requires Inv(s) && FifoInv(s) && TimeInv(s, HourOf(s.clock))
    requires s.task.Draining? && s.task.pos < |s.task.snapshot|
    ensures FifoInv(Published(s, ok))
  {
    var t := Published(s, ok);
    if t.task.Waiting? {
      FifoFrame(s, t);
    } else {
      var m := s.task.snapshot[s.task.pos];
      assert s.places[m] == Place(s.task.inode, s.task.pos) && Pending(s, m);
      forall y | y in s.published && m !in s.published ensures y < m {
        assert Before(s, y);
      }
      FirstsSnoc(s.published, m);
      EarlierInSnapshotIsPublished(s, s.task.pos);
      PublishKeepsBefore(s, m, t);
    }
  }

  lemma PublishKeepsBefore(s: State, m: nat, t: State)
    requires FifoInv(s) && s.task.Draining? && FirstsInOrder(t.published) && Before(s, m)
    requires t == s.(published := s.published + [m], task := s.task.(pos := s.task.pos + 1))
    ensures FifoInv(t)
  {
    assert forall n: nat :: Pending(t, n) == Pending(s, n) && InSnapshot(t, n) == InSnapshot(s, n);
    forall x | x in t.published ensures Before(t, x) {
      assert Before(s, x);
    }
  }

  lemma EarlierInSnapshotIsPublished(s: State, p: nat)
    requires Inv(s) && FifoInv(s) && TimeInv(s, HourOf(s.clock))
    requires s.task.Draining? && p == s.task.pos < |s.task.snapshot|
    ensures Before(s, s.task.snapshot[p])
  {
    forall n: nat | Pending(s, n) && n < s.task.snapshot[p] ensures n in s.published {
      if InSnapshot(s, n) {
        var q := s.places[n].pos;
        assert s.inodes[s.task.inode][q] == n && s.task.snapshot[q] == n;
        assert s.task.snapshot[p] == s.inodes[s.task.inode][p];
        assert q < p;
      }
    }
  }

  /** The first listed file still in the directory is the oldest, so nothing pending precedes its records. */
  lemma AscendingHead(todo: seq<Hour>)
    requires Ascending(todo) && todo != []
    ensures Ascending(todo[1..]) && (forall g | g in todo[1..] :: todo[0] < g)
    ensures forall g | g in todo :: g == todo[0] || g in todo[1..]
  {
    assert forall g | g in todo[1..] :: exists i :: 0 < i < |todo| && todo[i] == g;
    assert todo == [todo[0]] + todo[1..];
  }

  /** With no file open the generator reads the first listed file that is in the directory, all of it. */
  lemma NextFileStep(s: State, h: Hour, rest: seq<Hour>, now: int)
    requires DirInv(s) && s.handle.None?
    ensures NextFile(s, [h] + rest, now) ==
      if h !in s.dir then NextFile(s, rest, now)
      else if !s.connected then s.(task := Waiting)
      else s.(task := Draining(h, s.dir[h], s.inodes[s.dir[h]], 0, rest, |s.places|))
  {
    var todo := [h] + rest;
    assert todo[0] == h && todo[1..] == rest;
    if h in s.dir {
      var i := s.dir[h];
      assert OnDisk(s, i) == |s.inodes[i]|;
      assert s.inodes[i][..|s.inodes[i]|] == s.inodes[i];
    }
  }

  lemma {:induction false} NextFileKeepsFifo(s: State, todo: seq<Hour>, now: int)
    requires FileInv(s) && TimeInv(s, HourOf(s.clock)) && s.handle.None?
    requires FifoInv(s.(task := Waiting))
    requires Ascending(todo) && forall h | h in s.dir :: h in todo
    ensures FifoInv(NextFile(s, todo, now))
    decreases |todo|
  {
    if todo != [] {
      var h, rest := todo[0], todo[1..];
      AscendingHead(todo);
      assert todo == [h] + rest;
      NextFileStep(s, h, rest, now);
      if h !in s.dir {
        NextFileKeepsFifo(s, rest, now);
      } else if s.connected {
        OpeningKeepsFifo(s, h, rest);
      }
    }
  }

  lemma OpeningKeepsFifo(s: State, h: Hour, rest: seq<Hour>)
    requires FileInv(s) && TimeInv(s, HourOf(s.clock)) && s.handle.None?
    requires FifoInv(s.(task := Waiting)) && h in s.dir && s.dir[h] < |s.inodes|
    requires Ascending(rest) && (forall g | g in rest :: h < g) && forall g | g in s.dir :: g == h || g in rest
    ensures FifoInv(s.(task := Draining(h, s.dir[h], s.inodes[s.dir[h]], 0, rest, |s.places|)))
  {
    var w := s.(task := Waiting);
    var i := s.dir[h];
    var t := s.(task := Draining(h, i, s.inodes[i], 0, rest, |s.places|));
    forall n: nat | Pending(t, n) ensures Linked(s.dir, s.places[n].inode) && Pending(w, n) {
      assert s.dir[h] == i;
    }
    forall m | m in t.published ensures Before(t, m) {
      assert Before(w, m);
    }
    forall n: nat, k | Pending(t, n) && 0 <= k < |s.inodes[i]| && n < s.inodes[i][k] ensures InSnapshot(t, n) {
      var g :| g in s.dir && s.dir[g] == s.places[n].inode;
      SmallerIsNotLater(s, h, g, n, k);
    }
  }

  lemma SmallerIsNotLater(s: State, h: Hour, g: Hour, n: nat, k: nat)
    requires PlaceInv(s) && TimeInv(s, HourOf(s.clock))
    requires h in s.dir && g in s.dir && h <= g && n < |s.places| && s.places[n].inode == s.dir[g]
    requires s.dir[h] < |s.inodes| && k < |s.inodes[s.dir[h]]| && n < s.inodes[s.dir[h]][k]
    ensures g == h
  {
  }

  ghost predicate OrderInv(s: State) {
    Inv(s) && CleanInv(s) && TimeInv(s, HourOf(s.clock)) && FifoInv(s)
  }

  lemma ReplayKeepsOrder(s: State, a: Action, limits: Limits)
    requires OrderInv(s) && a.Replay? && Uninterrupted(s, a)
    ensures TimeInv(Step(s, a, limits), HourOf(Step(s, a, limits).clock)) && FifoInv(Step(s, a, limits))
  {
    if s.task.Waiting? {
      if s.connected {
        BeginKeepsOrder(s, a.now);
      }
    } else if AtUnlink(s, a) {
      FinishKeepsOrder(s, a.now);
    } else {
      PublishKeepsFifo(s, a.ok);
      TimeFrame(s, Published(s, a.ok), HourOf(s.clock), HourOf(s.clock));
    }
  }

  lemma BeginKeepsOrder(s: State, now: int)
    requires OrderInv(s) && s.task.Waiting? && s.connected
    ensures TimeInv(Begun(s, now), HourOf(Begun(s, now).clock)) && FifoInv(Begun(s, now))
  {
    var f := Flushed(s);
    var files := Listing(s.dir.Keys);
    TimeFrame(s, f, HourOf(s.clock), HourOf(s.clock));
    FifoFrame(s, f);
    NextFileKeepsFifo(f, files, now);
    NextFileFrame(f, files, now);
    TimeFrame(f, Begun(s, now), HourOf(s.clock), HourOf(s.clock));
  }

  lemma FinishKeepsOrder(s: State, now: int)
    requires OrderInv(s) && s.task.Draining? && !s.wroteInCycle
    ensures TimeInv(Finished(s, now), HourOf(Finished(s, now).clock)) && FifoInv(Finished(s, now))
  {
    var u := Unlinked(s, s.task.hour);
    UnlinkedKeepsFileInv(s);
    TimeFrame(s, u, HourOf(s.clock), HourOf(s.clock));
    FifoFrame(s, u.(task := Waiting));
    NextFileKeepsFifo(u, s.task.todo, now);
    NextFileFrame(u, s.task.todo, now);
    TimeFrame(u, Finished(s, now), HourOf(s.clock), HourOf(s.clock));
  }

  /** Nothing new becomes pending by closing, unlinking or waiting. */
  lemma FifoFrame(s: State, t: State)
    requires FifoInv(s) && t.task.Waiting?
    requires t.places == s.places && t.published == s.published
    requires forall h | h in t.dir :: h in s.dir && t.dir[h] == s.dir[h]
    ensures FifoInv(t)
  {
    forall n: nat | Pending(t, n) ensures Pending(s, n) {
      var h :| h in t.dir && t.dir[h] == t.places[n].inode;
      assert s.dir[h] == s.places[n].inode;
    }
    forall m | m in t.published ensures Before(t, m) {
      assert Before(s, m);
    }
  }

  lemma StepKeepsOrder(s: State, a: Action, limits: Limits)
    requires OrderInv(s) && Orderly(s, a)
    ensures OrderInv(Step(s, a, limits))
  {
    StepKeepsInv(s, a, limits);
    StepKeepsClean(s, a, limits);
    match a
    case Connect => ConnectionKeepsOrder(s, true);
    case Disconnect => ConnectionKeepsOrder(s, false);
    case Message(now, sizes, sync) =>
      if !s.connected {
        WriteKeepsTime(s, a, limits);
        WriteKeepsFifo(s, a, limits);
      }
    case Replay(now, ok) => ReplayKeepsOrder(s, a, limits);
  }

  lemma ConnectionKeepsOrder(s: State, connected: bool)
    requires TimeInv(s, HourOf(s.clock)) && FifoInv(s)
    ensures TimeInv(s.(connected := connected), HourOf(s.clock)) && FifoInv(s.(connected := connected))
  {
    var t := s.(connected := connected);
    TimeFrame(s, t, HourOf(s.clock), HourOf(s.clock));
    assert forall n: nat :: Pending(t, n) == Pending(s, n) && InSnapshot(t, n) == InSnapshot(s, n);
    forall m | m in t.published ensures Before(t, m) {
      assert Before(s, m);
    }
  }

  lemma {:induction false} OrderlyRunKeepsOrder(s: State, actions: seq<Action>, limits: Limits)
    requires OrderInv(s) && OrderlyRun(s, actions, limits)
    ensures OrderInv(Run(s, actions, limits))
    decreases |actions|
  {
    if actions != [] {
      StepKeepsOrder(s, actions[0], limits);
      OrderlyRunKeepsOrder(Step(s, actions[0], limits), actions[1..], limits);
    }
  }

  /** A record published for the first time was written after every record published before it. */
  lemma FirstPublicationsInWriteOrder(actions: seq<Action>, limits: Limits)
    requires OrderlyRun(Init, actions, limits)
    ensures FirstsInOrder(Run(Init, actions, limits).published)
  {
    OrderlyRunKeepsOrder(Init, actions, limits);
  }

  // ----- The objects -----

  /** `BufferedCloudLoop` together with the `BufferManager` and the file system it works on. */
  class BufferedCloudLoop {
    const limits: Limits
    var inodes: seq<seq<nat>>
    var dir: map<Hour, nat>
    var handle: Option<Handle>
    var connected: bool
    var task: Task
    var places: seq<Place>
    var published: seq<nat>
    var expired: set<nat>
    var drained: set<nat>
    var clock: int
    var wroteInCycle: bool

    ghost function View(): State
      reads this
    {
      State(inodes, dir, handle, connected, task, places, published, expired, drained, clock, wroteInCycle)
    }

    constructor (limits: Limits)
      ensures View() == Init && this.limits == limits
    {
      this.limits := limits;
      inodes, dir, handle, connected, task := [], map[], None, false, Waiting;
      places, published, expired, drained, clock, wroteInCycle := [], [], {}, {}, 0, false;
    }

    /** One telemetry or event message: published at once when connected, otherwise written to the buffer. */
    method DoPublish(now: int, sizes: map<Hour, nat>, sync: bool) returns (live: bool)
      requires Inv(View())
      modifies this
      ensures live == old(connected)
      ensures View() == Step(old(View()), Message(now, sizes, sync), limits) && Inv(View())
    {
      StepKeepsInv(View(), Message(now, sizes, sync), limits);
      live := connected;
      if !connected {
        Write(now, sizes, sync);
      }
    }

    method Write(now: int, sizes: map<Hour, nat>, sync: bool)
      requires Inv(View())
      modifies this
      ensures View() == Written(old(View()), sizes, now, sync, limits)
    {
      RetainedKeepsInv(View(), sizes, now, limits);
      RotatedKeepsHandle(Retained(View(), sizes, now, limits), HourOf(now));
      var kept := Retain(sizes, now);
      if limits.maxBytes == 0 && Total(kept, sizes) > 0 {
        return;
      }
      if handle.None? || handle.value.hourKey != HourOf(now) {
        Rotate(HourOf(now));
      }
      Append(sync, now);
    }

    /** The files that `Retention.EnforceRetention` unlinks are unlinked. */
    method Retain(sizes: map<Hour, nat>, now: int) returns (kept: seq<Hour>)
      modifies this
      ensures kept == Kept(Listing(old(dir.Keys)), sizes, now, limits)
      ensures View() == Retained(old(View()), sizes, now, limits)
    {
      kept := Kept(Listing(dir.Keys), sizes, now, limits);
      Unlink(kept);
    }

    method Unlink(kept: seq<Hour>)
      modifies this
      ensures View() == KeepOnly(old(View()), kept)
    {
      var gone := Dropped(dir, kept);
      expired := expired + InodesOf(dir, gone);
      dir := dir - gone;
    }

    method Append(sync: bool, now: int)
      requires handle.Some? && handle.value.inode < |inodes|
      modifies this
      ensures View() == Appended(old(View()), sync, now)
    {
      var i := handle.value.inode;
      places := places + [Place(i, |inodes[i]|)];
      inodes := inodes[i := inodes[i] + [|places| - 1]];
      if sync {
        handle := Some(handle.value.(synced := |inodes[i]|));
      }
      clock := now;
      wroteInCycle := true;
    }

    method Rotate(hour: Hour)
      requires DirInv(View())
      requires handle.None? || handle.value.hourKey != hour
      modifies this
      ensures View() == Rotated(old(View()), hour)
    {
      if hour !in dir {
        dir := dir[hour := |inodes|];
        inodes := inodes + [[]];
      }
      handle := Some(Handle(hour, dir[hour], |inodes[dir[hour]]|));
    }

    method Flush()
      modifies this
      ensures View() == Flushed(old(View()))
    {
      handle := None;
      wroteInCycle := false;
    }

    /** The replay task from one `await` to the next. `ok` is false when the publisher raises. */
    method ReplayTask(now: int, ok: bool)
      requires Inv(View())
      modifies this
      ensures View() == Step(old(View()), Replay(now, ok), limits) && Inv(View())
    {
      StepKeepsInv(View(), Replay(now, ok), limits);
      if task.Waiting? {
        StartCycle(now);
      } else if task.pos < |task.snapshot| {
        PublishNext(ok);
      } else {
        FinishFile(task.hour, task.todo, now);
      }
    }

    method StartCycle(now: int)
      requires FileInv(View())
      modifies this
      ensures View() == Begun(old(View()), now)
    {
      if connected {
        var files := Listing(dir.Keys);
        Flush();
        Drain(files, now);
      }
    }

    method PublishNext(ok: bool)
      requires task.Draining? && task.pos < |task.snapshot|
      modifies this
      ensures View() == Published(old(View()), ok)
    {
      if connected && ok {
        published := published + [task.snapshot[task.pos]];
        task := task.(pos := task.pos + 1);
      } else {
        task := Waiting;
      }
    }

    method FinishFile(hour: Hour, todo: seq<Hour>, now: int)
      requires FileInv(View()) && task.Draining? && hour == task.hour && todo == task.todo
      modifies this
      ensures View() == Finished(old(View()), now)
    {
      UnlinkedKeepsFileInv(View());
      UnlinkFile(hour);
      Drain(todo, now);
    }

    method UnlinkFile(hour: Hour)
      modifies this
      ensures View() == Unlinked(old(View()), hour)
    {
      if hour in dir {
        drained := drained + {dir[hour]};
      }
      dir := dir - {hour};
    }

    /** `drain`: on to the next listed file that can be read. */
    method Drain(files: seq<Hour>, now: int)
      requires FileInv(View())
      modifies this
      ensures View() == NextFile(old(View()), files, now)
    {
      var todo := files;
      while todo != []
        invariant View() == old(View())
        invariant NextFile(View(), todo, now) == NextFile(View(), files, now)
        decreases |todo|
      {
        var hour := todo[0];
        if (handle.None? || hour != HourOf(now)) && hour in dir {
          if connected {
            var i := dir[hour];
            var onDisk := if handle.Some? && handle.value.inode == i then handle.value.synced else |inodes[i]|;
            task := Draining(hour, i, inodes[i][..onDisk], 0, todo[1..], |places|);
          } else {
            task := Waiting;
          }
          return;
        }
        todo := todo[1..];
      }
      task := Waiting;
    }
  }
}
