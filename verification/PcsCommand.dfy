/**
 The PCS command channel of `pcs_device.py`: control_manager publishes (command, sequence number) pairs
 in the system section, and `process_command` acts when the number it copies has changed.
 */
module PcsCommand {
  import opened Seqlock
  import opened Wrappers

  // Word positions inside the system section
  const COMMAND: nat := 0
  const NUMBER: nat := 1

  // PCS_CMD_*
  const CMD_ON: Word := 1
  const CMD_OFF: Word := 2
  const CMD_FAULT_RESET: Word := 3

  // Register addresses
  const REG_ON_OFF: int := 0x0291
  const REG_FAULT_RESET: int := 0x5064

  datatype RegisterWrite = RegisterWrite(address: int, value: int)

  /** A command and the number it was published under, as found in one copy of the section. */
  datatype Entry = Entry(command: Word, number: Word)

  function EntryIn(system: seq<Word>): Entry
    requires |system| >= 2
  {
    Entry(system[COMMAND], system[NUMBER])
  }

  // ----- The consumer -----

  /** The register write a command asks for; an unknown command asks for none. */
  function WriteFor(command: Word): Option<RegisterWrite> {
    if command == CMD_ON then Some(RegisterWrite(REG_ON_OFF, 1))
    else if command == CMD_OFF then Some(RegisterWrite(REG_ON_OFF, 0))
    else if command == CMD_FAULT_RESET then Some(RegisterWrite(REG_FAULT_RESET, 1))
    else None
  }

  predicate IsNew(last: Word, number: Word) {
    (number - last) % MODULUS != 0
  }

  /** What a series of polls takes from the channel, starting from the last number acted on. */
  function HandledBy(last: Word, polled: seq<Entry>): seq<Entry>
    decreases |polled|
  {
    if polled == [] then []
    else if IsNew(last, polled[0].number)
    then [polled[0]] + HandledBy(polled[0].number, polled[1..])
    else HandledBy(last, polled[1..])
  }

  class PcsDevice {
    var lastCmdSeq: Word
    ghost var handled: seq<Entry>

    constructor ()
      ensures lastCmdSeq == 0 && handled == []
    {
      lastCmdSeq := 0;
      handled := [];
    }

    /** `process_command` on one copy of the system section. */
    method ProcessCommand(system: seq<Word>) returns (write: Option<RegisterWrite>)
      requires |system| >= 2
      modifies this
      ensures handled == old(handled) + HandledBy(old(lastCmdSeq), [EntryIn(system)])
      ensures lastCmdSeq == if handled == old(handled) then old(lastCmdSeq) else system[1]
      ensures write == if handled == old(handled) then None else WriteFor(system[COMMAND])
      ensures write ==
        if (system[1] - old(lastCmdSeq)) % 0x1_0000_0000 == 0 then None
        else if system[0] == 1 then Some(RegisterWrite(0x0291, 1))
        else if system[0] == 2 then Some(RegisterWrite(0x0291, 0))
        else if system[0] == 3 then Some(RegisterWrite(0x5064, 1))
        else None
    {
      var newSeq := system[NUMBER];
      var cmd := system[COMMAND];
      assert [EntryIn(system)][1..] == [];
      if (newSeq - lastCmdSeq) % MODULUS == 0 {
        return None;
      }
      lastCmdSeq := newSeq;
      handled := handled + [Entry(cmd, newSeq)];
      if cmd == CMD_ON {
        write := Some(RegisterWrite(REG_ON_OFF, 1));
      } else if cmd == CMD_OFF {
        write := Some(RegisterWrite(REG_ON_OFF, 0));
      } else if cmd == CMD_FAULT_RESET {
        write := Some(RegisterWrite(REG_FAULT_RESET, 1));
      } else {
        write := None;
      }
    }

    /** A polling loop keeps the log that `HandledBy` describes. */
    method ProcessAll(copies: seq<seq<Word>>) returns (writes: seq<RegisterWrite>)
      requires lastCmdSeq == 0 && handled == []
      requires forall i | 0 <= i < |copies| :: |copies[i]| >= 2
      modifies this
      ensures handled == HandledBy(0, Entries(copies))
      ensures writes == WritesFor(handled)
    {
      writes := [];
      var i := 0;
      while i < |copies|
        invariant 0 <= i <= |copies|
        invariant handled + HandledBy(lastCmdSeq, Entries(copies)[i..]) == HandledBy(0, Entries(copies))
        invariant writes == WritesFor(handled)
      {
        var entry := EntryIn(copies[i]);
        assert Entries(copies)[i..] == [entry] + Entries(copies)[i + 1..];
        assert [entry][1..] == [];
        var write := ProcessCommand(copies[i]);
        if write.Some? {
          writes := writes + [write.value];
        }
        i := i + 1;
      }
    }
  }

  function Entries(copies: seq<seq<Word>>): seq<Entry>
    requires forall i | 0 <= i < |copies| :: |copies[i]| >= 2
  {
    seq(|copies|, i requires 0 <= i < |copies| => EntryIn(copies[i]))
  }

  function WritesFor(handled: seq<Entry>): seq<RegisterWrite> {
    if handled == [] then [] else
    var n := |handled| - 1;
    WritesFor(handled[..n]) +
      match WriteFor(handled[n].command)
      case Some(w) => [w]
      case None => []
  }

  // ----- The device -----

  /** The device's registers, as far as they have been written. */
  function RegistersAfter(writes: seq<RegisterWrite>): map<int, int> {
    if writes == [] then map[]
    else
      var w := writes[|writes| - 1];
      RegistersAfter(writes[..|writes| - 1])[w.address := w.value]
  }

  /** This command has been handled, and no ON or OFF after it. */
  ghost predicate LastSwitch(handled: seq<Entry>, command: Word) {
    exists i :: 0 <= i < |handled| && handled[i].command == command && NoSwitchAfter(handled, i)
  }

  ghost predicate NoSwitchAfter(handled: seq<Entry>, i: int) {
    forall j :: 0 <= j < |handled| && i < j ==> handled[j].command != 1 && handled[j].command != 2
  }

  lemma LastSwitchNext(handled: seq<Entry>, e: Entry, command: Word)
    requires command == 1 || command == 2
    ensures LastSwitch(handled + [e], command) <==>
      if e.command == 1 || e.command == 2 then e.command == command else LastSwitch(handled, command)
  {
    var all := handled + [e];
    var n := |handled|;
    assert all[n] == e && NoSwitchAfter(all, n);
    if LastSwitch(all, command) {
      var i :| 0 <= i < |all| && all[i].command == command && NoSwitchAfter(all, i);
      if i < n {
        assert all[n].command != 1 && all[n].command != 2;
        assert forall j :: 0 <= j < n ==> all[j] == handled[j];
        assert NoSwitchAfter(handled, i);
      }
    }
    if LastSwitch(handled, command) && e.command != 1 && e.command != 2 {
      var i :| 0 <= i < n && handled[i].command == command && NoSwitchAfter(handled, i);
      assert all[i].command == command && NoSwitchAfter(all, i);
    }
  }

  lemma RegistersNext(writes: seq<RegisterWrite>, w: RegisterWrite)
    ensures RegistersAfter(writes + [w]) == RegistersAfter(writes)[w.address := w.value]
  {
    assert (writes + [w])[..|writes|] == writes;
  }

  lemma WritesNext(handled: seq<Entry>, e: Entry)
    ensures WritesFor(handled + [e]) == WritesFor(handled) +
      match WriteFor(e.command) case Some(w) => [w] case None => []
  {
    assert (handled + [e])[..|handled|] == handled;
  }

  lemma RegistersAfterEntry(handled: seq<Entry>, e: Entry)
    ensures RegistersAfter(WritesFor(handled + [e])) ==
      match WriteFor(e.command)
      case Some(w) => RegistersAfter(WritesFor(handled))[w.address := w.value]
      case None => RegistersAfter(WritesFor(handled))
  {
    WritesNext(handled, e);
    match WriteFor(e.command)
    case Some(w) => RegistersNext(WritesFor(handled), w);
    case None => assert WritesFor(handled) + [] == WritesFor(handled);
  }

  /**
   What a run leaves in the device: register 0x0291 holds 1 exactly when the last ON or OFF handled was ON, and 0 exactly
   when it was OFF; register 0x5064 has been set exactly when a fault reset was handled; nothing else is written.
   */
  lemma {:induction false} DeviceFollowsLastCommand(handled: seq<Entry>)
    ensures var m := RegistersAfter(WritesFor(handled));
      && (0x0291 in m && m[0x0291] == 1 <==> LastSwitch(handled, 1))
      && (0x0291 in m && m[0x0291] == 0 <==> LastSwitch(handled, 2))
      && (0x0291 in m <==> LastSwitch(handled, 1) || LastSwitch(handled, 2))
      && (0x5064 in m <==> exists i :: 0 <= i < |handled| && handled[i].command == 3)
      && (0x5064 in m ==> m[0x5064] == 1)
      && m.Keys <= {0x0291, 0x5064}
    decreases |handled|
  {
    if handled != [] {
      var before, e := handled[..|handled| - 1], handled[|handled| - 1];
      assert before + [e] == handled;
      DeviceFollowsLastCommand(before);
      RegistersAfterEntry(before, e);
      LastSwitchNext(before, e, 1);
      LastSwitchNext(before, e, 2);
      ResetNext(before, e);
    }
  }

  lemma ResetNext(handled: seq<Entry>, e: Entry)
    ensures (exists i :: 0 <= i < |handled + [e]| && (handled + [e])[i].command == 3) <==>
      e.command == 3 || exists i :: 0 <= i < |handled| && handled[i].command == 3
  {
    var all := handled + [e];
    assert all[|handled|] == e;
    if i :| 0 <= i < |handled| && handled[i].command == 3 {
      assert all[i] == handled[i];
    }
  }

  // ----- The producer's contract -----

  /**
   control_manager starts from number 0 and either leaves the pair alone or stores a command together
   with the next number. `commits` are the versions of the system section.
   */
  ghost predicate Contract(commits: seq<seq<Word>>) {
    && |commits| > 0
    && (forall v | 0 <= v < |commits| :: |commits[v]| >= 2)
    && commits[0][NUMBER] == 0
    && forall v {:trigger Unchanged(commits, v)} | 0 < v < |commits| :: Unchanged(commits, v) || Publishes(commits, v)
  }

  ghost predicate Unchanged(commits: seq<seq<Word>>, v: nat)
    requires 0 < v < |commits| && |commits[v]| >= 2 && |commits[v - 1]| >= 2
  {
    commits[v][NUMBER] == commits[v - 1][NUMBER] && commits[v][COMMAND] == commits[v - 1][COMMAND]
  }

  ghost predicate Publishes(commits: seq<seq<Word>>, v: nat)
    requires 0 < v < |commits| && |commits[v]| >= 2 && |commits[v - 1]| >= 2
  {
    commits[v][NUMBER] == (commits[v - 1][NUMBER] + 1) % MODULUS
  }

  /** The commands published up to version `v`; publication number `n` is entry `n - 1`. */
  ghost function Log(commits: seq<seq<Word>>, v: nat): seq<Word>
    requires Contract(commits) && v < |commits|
  {
    if v == 0 then []
    else if Unchanged(commits, v) then Log(commits, v - 1)
    else Log(commits, v - 1) + [commits[v][COMMAND]]
  }

  /** A copy of the section taken when `n` commands had been published. */
  ghost predicate Shows(log: seq<Word>, n: nat, e: Entry) {
    && n <= |log|
    && e.number == n % MODULUS
    && (n > 0 ==> e.command == log[n - 1])
  }

  lemma {:induction false} VersionShowsLatest(commits: seq<seq<Word>>, v: nat)
    requires Contract(commits) && v < |commits|
    ensures Shows(Log(commits, v), |Log(commits, v)|, EntryIn(commits[v]))
  {
    if v > 0 {
      VersionShowsLatest(commits, v - 1);
      SuccessorCounts(|Log(commits, v - 1)|);
    }
  }

  lemma {:induction false} LogGrows(commits: seq<seq<Word>>, v: nat, w: nat)
    requires Contract(commits) && v <= w < |commits|
    ensures Log(commits, v) <= Log(commits, w)
    decreases w
  {
    if v < w {
      LogGrows(commits, v, w - 1);
    }
  }

  // ----- Polls -----

  /** Publication counts seen by successive polls: never going back, and less than 2^32 apart. */
  ghost predicate Polls(from: nat, counts: seq<nat>)
    decreases |counts|
  {
    counts == [] || (from <= counts[0] < from + MODULUS && Polls(counts[0], counts[1..]))
  }

  /** The publications that a series of polls finds new. */
  ghost function NewNumbers(from: nat, counts: seq<nat>): seq<nat>
    decreases |counts|
  {
    if counts == [] then []
    else if counts[0] != from then [counts[0]] + NewNumbers(counts[0], counts[1..])
    else NewNumbers(from, counts[1..])
  }

  ghost predicate Increasing(numbers: seq<nat>) {
    forall i, j | 0 <= i < j < |numbers| :: numbers[i] < numbers[j]
  }

  /** The handled commands are the publications with these numbers, one for one. */
  ghost predicate ArePublications(log: seq<Word>, numbers: seq<nat>, handled: seq<Entry>) {
    && |handled| == |numbers|
    && forall i | 0 <= i < |handled| ::
      && 1 <= numbers[i] <= |log|
      && handled[i] == Entry(log[numbers[i] - 1], numbers[i] % MODULUS)
  }

  /** One poll acts if and only if the publications since the last acted one are not a multiple of 2^32. */
  lemma PollActsIff(from: nat, count: nat)
    ensures IsNew(from % MODULUS, count % MODULUS) <==> (count - from) % MODULUS != 0
  {
    var q := count / MODULUS - from / MODULUS;
    var r := count % MODULUS - from % MODULUS;
    assert count - from == q * MODULUS + r;
  }

  lemma NearPollActsIff(from: nat, count: nat)
    requires from <= count < from + MODULUS
    ensures IsNew(from % MODULUS, count % MODULUS) <==> count != from
  {
    PollActsIff(from, count);
  }

  lemma {:induction false} NewNumbersIncrease(from: nat, counts: seq<nat>)
    requires Polls(from, counts)
    ensures Increasing(NewNumbers(from, counts))
    ensures forall i | 0 <= i < |NewNumbers(from, counts)| :: from < NewNumbers(from, counts)[i]
    decreases |counts|
  {
    if counts != [] {
      NewNumbersIncrease(counts[0], counts[1..]);
      var rest := NewNumbers(counts[0], counts[1..]);
      assert NewNumbers(from, counts) == if counts[0] != from then [counts[0]] + rest else rest;
    }
  }

  /** Every publication that some poll finds current is new to some poll: polled between publications, none is missed. */
  lemma {:induction false} PolledNumbersAreNew(from: nat, counts: seq<nat>, k: nat)
    requires Polls(from, counts) && k < |counts|
    ensures from <= counts[k]
    ensures counts[k] != from ==> counts[k] in NewNumbers(from, counts)
    decreases k
  {
    if k > 0 {
      assert counts[1..][k - 1] == counts[k];
      PolledNumbersAreNew(counts[0], counts[1..], k - 1);
    }
  }

  /** `process_command` acts on exactly the new publications, in order, each with its own command. */
  lemma {:induction false} HandledAreNewNumbers(log: seq<Word>, from: nat, counts: seq<nat>, polled: seq<Entry>)
    requires Polls(from, counts) && |polled| == |counts|
    requires forall i | 0 <= i < |polled| :: Shows(log, counts[i], polled[i])
    ensures ArePublications(log, NewNumbers(from, counts), HandledBy(from % MODULUS, polled))
    decreases |counts|
  {
    if counts != [] {
      var n := counts[0];
      assert Shows(log, n, polled[0]);
      NearPollActsIff(from, n);
      HandledAreNewNumbers(log, n, counts[1..], polled[1..]);
      var rest := HandledBy(n % MODULUS, polled[1..]);
      assert HandledBy(from % MODULUS, polled) == if n != from then [polled[0]] + rest else rest;
      if n != from {
        PublicationsCons(log, n, polled[0], NewNumbers(n, counts[1..]), rest);
      }
    }
  }

  lemma PublicationsCons(log: seq<Word>, n: nat, e: Entry, numbers: seq<nat>, handled: seq<Entry>)
    requires Shows(log, n, e) && n > 0 && ArePublications(log, numbers, handled)
    ensures ArePublications(log, [n] + numbers, [e] + handled)
  {
  }

  // ----- Composed with the seqlock -----

  /** The reads of one reader, in the order they were accepted. */
  function ReadsOf(accepted: seq<Read>, r: nat): seq<Read>
    decreases |accepted|
  {
    if accepted == [] then []
    else if accepted[0].reader == r then [accepted[0]] + ReadsOf(accepted[1..], r)
    else ReadsOf(accepted[1..], r)
  }

  function Values(accepted: seq<Read>): (values: seq<seq<Word>>)
    ensures |values| == |accepted|
  {
    seq(|accepted|, i requires 0 <= i < |accepted| => accepted[i].value)
  }

  /** How many commands had been published when each read began. */
  ghost function Counts(commits: seq<seq<Word>>, accepted: seq<Read>): seq<nat>
    requires Contract(commits) && forall e | e in accepted :: e.began < |commits|
  {
    seq(|accepted|, i requires 0 <= i < |accepted| => |Log(commits, accepted[i].began)|)
  }

  lemma {:induction false} ReadsOfInOrder(accepted: seq<Read>, r: nat)
    requires InOrder(accepted)
    ensures forall e | e in ReadsOf(accepted, r) :: e in accepted && e.reader == r
    ensures InOrder(ReadsOf(accepted, r))
    decreases |accepted|
  {
    if accepted != [] {
      assert InOrder(accepted[1..]);
      ReadsOfInOrder(accepted[1..], r);
      forall e | e in ReadsOf(accepted[1..], r) && accepted[0].reader == r ensures accepted[0].ended <= e.began {
        var j :| 0 <= j < |accepted[1..]| && accepted[1..][j] == e;
        assert accepted[j + 1] == e;
      }
    }
  }

  /** No read outlasts 2^31 writes, and no two successive reads are 2^32 publications apart. */
  ghost predicate Prompt(commits: seq<seq<Word>>, accepted: seq<Read>)
    requires Contract(commits)
  {
    && (forall e | e in accepted :: e.began <= e.ended < |commits| && e.ended - e.began < HALF)
    && var counts := Counts(commits, accepted);
    && (counts != [] ==> counts[0] < MODULUS)
    && forall i | 0 < i < |counts| :: counts[i] - counts[i - 1] < MODULUS
  }

  lemma {:induction false} StepwisePolls(from: nat, counts: seq<nat>)
    requires counts != [] ==> from <= counts[0] < from + MODULUS
    requires forall i | 0 < i < |counts| :: counts[i - 1] <= counts[i] < counts[i - 1] + MODULUS
    ensures Polls(from, counts)
    decreases |counts|
  {
    if counts != [] {
      assert forall i | 0 < i < |counts[1..]| :: counts[1..][i] == counts[i + 1] && counts[1..][i - 1] == counts[i];
      StepwisePolls(counts[0], counts[1..]);
    }
  }

  lemma AcceptedReadsArePolls(commits: seq<seq<Word>>, accepted: seq<Read>, r: nat)
    requires Contract(commits) && Prompt(commits, accepted) && InOrder(accepted)
    requires forall i | 0 <= i < |accepted| :: accepted[i].reader == r
    ensures Polls(0, Counts(commits, accepted))
  {
    var counts := Counts(commits, accepted);
    forall i | 0 < i < |counts| ensures counts[i - 1] <= counts[i] {
      var e, f := accepted[i - 1], accepted[i];
      assert e in accepted && f in accepted;
      LogGrows(commits, e.began, f.began);
    }
    StepwisePolls(0, counts);
  }

  lemma AcceptedReadShowsItsCount(commits: seq<seq<Word>>, e: Read)
    requires Contract(commits) && Consistent(commits, e) && e.ended - e.began < HALF
    ensures |e.value| >= 2
    ensures Shows(Log(commits, |commits| - 1), |Log(commits, e.began)|, EntryIn(e.value))
  {
    VersionShowsLatest(commits, e.began);
    LogGrows(commits, e.began, |commits| - 1);
  }

  /**
   The whole channel: over any interleaving of the writer with any readers, the commands one device acts on
   are publications with strictly increasing numbers (so each at most once, in publication order), each with the
   command published under its number; and every publication that was the latest at one of its reads is among them.
   */
  lemma CommandsAtMostOnceInOrder(words: seq<Word>, actions: seq<Action>, r: nat)
    returns (numbers: seq<nat>)
    requires Contract(Run(Init(words), actions).commits)
    requires Prompt(Run(Init(words), actions).commits, ReadsOf(Run(Init(words), actions).accepted, r))
    ensures var s := Run(Init(words), actions);
      var accepted := ReadsOf(s.accepted, r);
      && (forall i | 0 <= i < |accepted| :: |Values(accepted)[i]| >= 2)
      && ArePublications(Log(s.commits, |s.commits| - 1), numbers, HandledBy(0, Entries(Values(accepted))))
      && Increasing(numbers)
      && forall k | 0 <= k < |accepted| && Counts(s.commits, accepted)[k] > 0 :: Counts(s.commits, accepted)[k] in numbers
  {
    var s := Run(Init(words), actions);
    RunKeepsInv(Init(words), actions);
    numbers := ChannelOf(s, r);
  }

  lemma ReadsShowTheirCounts(commits: seq<seq<Word>>, accepted: seq<Read>)
    requires Contract(commits) && Prompt(commits, accepted)
    requires forall e | e in accepted :: Consistent(commits, e)
    ensures forall i | 0 <= i < |accepted| :: |Values(accepted)[i]| >= 2
    ensures forall i | 0 <= i < |accepted| ::
      Shows(Log(commits, |commits| - 1), Counts(commits, accepted)[i], Entries(Values(accepted))[i])
  {
    forall i | 0 <= i < |accepted|
      ensures |Values(accepted)[i]| >= 2
      ensures Shows(Log(commits, |commits| - 1), Counts(commits, accepted)[i], EntryIn(Values(accepted)[i]))
    {
      assert accepted[i] in accepted;
      AcceptedReadShowsItsCount(commits, accepted[i]);
    }
  }

  /** What one reader's accepted reads, in order, make the device act on. */
  lemma ChannelOfReads(commits: seq<seq<Word>>, accepted: seq<Read>, r: nat) returns (numbers: seq<nat>)
    requires Contract(commits) && Prompt(commits, accepted) && InOrder(accepted)
    requires forall e | e in accepted :: Consistent(commits, e) && e.reader == r
    ensures forall i | 0 <= i < |accepted| :: |Values(accepted)[i]| >= 2
    ensures ArePublications(Log(commits, |commits| - 1), numbers, HandledBy(0, Entries(Values(accepted))))
    ensures Increasing(numbers)
    ensures forall k | 0 <= k < |accepted| && Counts(commits, accepted)[k] > 0 :: Counts(commits, accepted)[k] in numbers
  {
    var counts := Counts(commits, accepted);
    numbers := NewNumbers(0, counts);
    AcceptedReadsArePolls(commits, accepted, r);
    NewNumbersIncrease(0, counts);
    ReadsShowTheirCounts(commits, accepted);
    HandledAreNewNumbers(Log(commits, |commits| - 1), 0, counts, Entries(Values(accepted)));
    forall k | 0 <= k < |accepted| && counts[k] > 0 ensures counts[k] in numbers {
      PolledNumbersAreNew(0, counts, k);
    }
  }

  lemma ChannelOf(s: System, r: nat) returns (numbers: seq<nat>)
    requires Inv(s) && Contract(s.commits) && Prompt(s.commits, ReadsOf(s.accepted, r))
    ensures var accepted := ReadsOf(s.accepted, r);
      && (forall i | 0 <= i < |accepted| :: |Values(accepted)[i]| >= 2)
      && ArePublications(Log(s.commits, |s.commits| - 1), numbers, HandledBy(0, Entries(Values(accepted))))
      && Increasing(numbers)
      && forall k | 0 <= k < |accepted| && Counts(s.commits, accepted)[k] > 0 :: Counts(s.commits, accepted)[k] in numbers
  {
    ReadsOfInOrder(s.accepted, r);
    numbers := ChannelOfReads(s.commits, ReadsOf(s.accepted, r), r);
  }

  // ----- The power setpoint register -----

  /** `write_setpoint`: the rounded tenths of a kilowatt as a clamped 16-bit register value. */
  function EncodeSetpoint(tenths: int): nat {
    var raw := if tenths < 0 then tenths + 65536 else tenths;
    if raw < 0 then 0 else if raw > 65535 then 65535 else raw
  }

  /** `set_power_setpoint`: two's complement. */
  function DecodeSetpoint(raw: nat): int {
    if raw > 32767 then raw - 65536 else raw
  }

  /** The device sees the commanded setpoint exactly when it fits in a signed 16-bit register. */
  lemma SetpointRoundTrip(tenths: int)
    ensures DecodeSetpoint(EncodeSetpoint(tenths)) == tenths <==> -32768 <= tenths <= 32767
  {
  }

  /**
   The register is two's complement modulo 2^16: what is written is congruent to the setpoint while that is within 2^16
   of nought, and clamped beyond; what is read is congruent to the register and signed.
   */
  lemma SetpointIsTwosComplement(tenths: int, raw: nat)
    requires raw <= 65535
    ensures EncodeSetpoint(tenths) <= 65535
    ensures -65536 <= tenths <= 65535 ==> (EncodeSetpoint(tenths) - tenths) % 65536 == 0
    ensures tenths < -65536 ==> EncodeSetpoint(tenths) == 0
    ensures tenths > 65535 ==> EncodeSetpoint(tenths) == 65535
    ensures -32768 <= DecodeSetpoint(raw) <= 32767 && (DecodeSetpoint(raw) - raw) % 65536 == 0
  {
  }
}
