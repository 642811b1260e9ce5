/**
 Device health and polling: `DeviceHealth` of `health.py`, driven by the polling loop of `orchestrator.py` through
 `on_success` and `on_failure` of `modbus_device.py`.

 Milliseconds are integers and the back-off, a float that only ever doubles from 1 or is capped at 30, is an integer
 number of seconds.
 */
module Health {

  const BACKOFF_MIN_S: nat := 1
  const BACKOFF_MAX_S: nat := 30

  datatype Event = Recovery(offlineDurationMs: int) | Fault(consecutiveFailures: nat)

  datatype Config = Config(offlineThreshold: int, pollIntervalMs: int)

  datatype State = State(online: bool, failures: nat, backoffS: nat, lastPollMs: int, wentOfflineMs: int)

  const UNKNOWN: State := State(false, 0, BACKOFF_MIN_S, -1, 0)

  /** What one poll comes to. `Garbled` is an answer whose decoding raised after the success had been recorded. */
  datatype Outcome = Decoded | Garbled | Refused | Failed

  function Min(a: nat, b: nat): nat {
    if a < b then a else b
  }

  /** `record_success` */
  function Succeed(h: State, now: nat): (State, seq<Event>) {
    if h.online then (h.(failures := 0), [])
    else (h.(failures := 0, online := true, backoffS := BACKOFF_MIN_S), [Recovery(now - h.wentOfflineMs)])
  }

  /** `record_failure` */
  function Fail(h: State, c: Config, now: nat): (State, seq<Event>) {
    var n := h.failures + 1;
    if !h.online then (h.(failures := n, backoffS := Min(h.backoffS * 2, BACKOFF_MAX_S)), [])
    else if n >= c.offlineThreshold then (h.(failures := n, online := false, wentOfflineMs := now), [Fault(n)])
    else (h.(failures := n), [])
  }

  /** What must have gone by since the last recorded poll. */
  function Gap(h: State, c: Config): int {
    if h.online then c.pollIntervalMs else h.backoffS * 1000
  }

  /** `should_poll` */
  predicate ShouldPoll(h: State, c: Config, now: nat) {
    h.lastPollMs < 0 || now - h.lastPollMs >= Gap(h, c)
  }

  /** The successes and failures one outcome records, in order. */
  function Records(o: Outcome): seq<bool> {
    match o
    case Decoded => [true]
    case Garbled => [true, false]
    case Refused => []
    case Failed => [false]
  }

  function Recorded(h: State, c: Config, now: nat, o: Outcome): (State, seq<Event>) {
    match o
    case Decoded => Succeed(h, now)
    case Garbled =>
      var (g, es) := Succeed(h, now);
      var (g', es') := Fail(g, c, now);
      (g', es + es')
    case Refused => (h, [])
    case Failed => Fail(h, c, now)
  }

  /** A recorded poll: when it was, and the gap in force after it. */
  datatype Poll = Poll(at: nat, gap: int)

  datatype System = System(health: State, events: seq<Event>, records: seq<bool>, polls: seq<Poll>)

  /** One device's turn in the loop: the cycle's clock, and the outcome if it is polled. */
  datatype Turn = Turn(now: nat, outcome: Outcome)

  function Step(x: System, c: Config, t: Turn): System {
    if !ShouldPoll(x.health, c, t.now) then x
    else
      var (h, es) := Recorded(x.health, c, t.now, t.outcome);
      System(h.(lastPollMs := t.now), x.events + es, x.records + Records(t.outcome), x.polls + [Poll(t.now, Gap(h, c))])
  }

  function Run(c: Config, turns: seq<Turn>): System {
    if turns == [] then System(UNKNOWN, [], [], [])
    else Step(Run(c, turns[..|turns| - 1]), c, turns[|turns| - 1])
  }

  // ----- What the records alone say -----

  /** Failures since the last success. */
  function Trailing(records: seq<bool>): nat {
    if records == [] || records[|records| - 1] then 0 else 1 + Trailing(records[..|records| - 1])
  }

  predicate EverSucceeded(records: seq<bool>) {
    exists i :: 0 <= i < |records| && records[i]
  }

  /** A threshold of nought or less acts as one. */
  function Threshold(c: Config): nat {
    if c.offlineThreshold > 1 then c.offlineThreshold else 1
  }

  function Doubled(k: nat): nat {
    if k == 0 then 1 else 2 * Doubled(k - 1)
  }

  /** Failures that found the device already offline, since it last became so. */
  function OfflineFailures(records: seq<bool>, c: Config): int {
    if EverSucceeded(records) then Trailing(records) - Threshold(c) else Trailing(records)
  }

  /** The health is a function of what has been recorded. */
  ghost predicate Explained(h: State, c: Config, records: seq<bool>) {
    && h.failures == Trailing(records)
    && (h.online <==> EverSucceeded(records) && Trailing(records) < Threshold(c))
    && (h.online ==> h.backoffS == BACKOFF_MIN_S)
    && (!h.online ==> OfflineFailures(records, c) >= 0)
    && (!h.online ==> h.backoffS == Min(Doubled(OfflineFailures(records, c)), BACKOFF_MAX_S))
  }

  lemma TrailingNext(records: seq<bool>, ok: bool)
    ensures Trailing(records + [ok]) == if ok then 0 else 1 + Trailing(records)
    ensures EverSucceeded(records + [ok]) <==> ok || EverSucceeded(records)
  {
    var all := records + [ok];
    assert all[..|all| - 1] == records && all[|all| - 1] == ok;
    if EverSucceeded(records) {
      var i :| 0 <= i < |records| && records[i];
      assert all[i];
    }
  }

  lemma MinDoubled(k: nat)
    ensures Min(Min(Doubled(k), BACKOFF_MAX_S) * 2, BACKOFF_MAX_S) == Min(Doubled(k + 1), BACKOFF_MAX_S)
  {
  }

  lemma SucceedExplained(h: State, c: Config, records: seq<bool>, now: nat)
    requires Explained(h, c, records)
    ensures Explained(Succeed(h, now).0, c, records + [true])
  {
    TrailingNext(records, true);
  }

  lemma FailExplained(h: State, c: Config, records: seq<bool>, now: nat)
    requires Explained(h, c, records)
    ensures Explained(Fail(h, c, now).0, c, records + [false])
  {
    TrailingNext(records, false);
    if !h.online {
      MinDoubled(OfflineFailures(records, c));
    }
  }

  lemma RecordedExplained(h: State, c: Config, records: seq<bool>, now: nat, o: Outcome)
    requires Explained(h, c, records)
    ensures Explained(Recorded(h, c, now, o).0, c, records + Records(o))
  {
    match o
    case Decoded => SucceedExplained(h, c, records, now);
    case Garbled =>
      SucceedExplained(h, c, records, now);
      FailExplained(Succeed(h, now).0, c, records + [true], now);
      assert records + [true] + [false] == records + [true, false];
    case Refused => assert records + [] == records;
    case Failed => FailExplained(h, c, records, now);
  }

  /** When a poll is recorded makes no difference to what explains the health. */
  lemma PollTimeUnexplained(h: State, c: Config, records: seq<bool>, at: int)
    requires Explained(h, c, records)
    ensures Explained(h.(lastPollMs := at), c, records)
  {
  }

  lemma StepExplained(x: System, c: Config, t: Turn)
    requires Explained(x.health, c, x.records)
    ensures Explained(Step(x, c, t).health, c, Step(x, c, t).records)
  {
    if ShouldPoll(x.health, c, t.now) {
      RecordedExplained(x.health, c, x.records, t.now, t.outcome);
      PollTimeUnexplained(Recorded(x.health, c, t.now, t.outcome).0, c, x.records + Records(t.outcome), t.now);
    }
  }

  /**
   In every run the device is online exactly while fewer failures than the threshold have followed its last success,
   and after `k` failures found it offline the back-off is `2^k` seconds, at most 30.
   */
  lemma {:induction false} RunExplained(c: Config, turns: seq<Turn>)
    ensures Explained(Run(c, turns).health, c, Run(c, turns).records)
    decreases |turns|
  {
    if turns != [] {
      RunExplained(c, turns[..|turns| - 1]);
      StepExplained(Run(c, turns[..|turns| - 1]), c, turns[|turns| - 1]);
    }
  }

  // ----- Events -----

  /** Recoveries and faults take turns, a recovery first, and each fault comes at the threshold-th failure in a row. */
  ghost predicate Alternate(events: seq<Event>, c: Config) {
    forall i :: 0 <= i < |events| ==>
      (events[i].Recovery? <==> i % 2 == 0) && (events[i].Fault? ==> events[i].consecutiveFailures == Threshold(c))
  }

  ghost predicate EventsMatch(h: State, c: Config, events: seq<Event>) {
    Alternate(events, c) && (h.online <==> |events| % 2 == 1) && (h.online ==> h.failures < Threshold(c))
  }

  lemma SucceedEvents(h: State, c: Config, events: seq<Event>, now: nat)
    requires EventsMatch(h, c, events)
    ensures EventsMatch(Succeed(h, now).0, c, events + Succeed(h, now).1)
  {
  }

  lemma FailEvents(h: State, c: Config, events: seq<Event>, now: nat)
    requires EventsMatch(h, c, events)
    ensures EventsMatch(Fail(h, c, now).0, c, events + Fail(h, c, now).1)
  {
  }

  lemma StepEvents(x: System, c: Config, t: Turn)
    requires EventsMatch(x.health, c, x.events)
    ensures EventsMatch(Step(x, c, t).health, c, Step(x, c, t).events)
  {
    if ShouldPoll(x.health, c, t.now) {
      match t.outcome
      case Decoded => SucceedEvents(x.health, c, x.events, t.now);
      case Garbled =>
        var (g, es) := Succeed(x.health, t.now);
        SucceedEvents(x.health, c, x.events, t.now);
        FailEvents(g, c, x.events + es, t.now);
        assert x.events + es + Fail(g, c, t.now).1 == x.events + (es + Fail(g, c, t.now).1);
      case Refused => assert x.events + [] == x.events;
      case Failed => FailEvents(x.health, c, x.events, t.now);
    }
  }

  lemma {:induction false} EventsAlternate(c: Config, turns: seq<Turn>)
    ensures EventsMatch(Run(c, turns).health, c, Run(c, turns).events)
    decreases |turns|
  {
    if turns != [] {
      EventsAlternate(c, turns[..|turns| - 1]);
      StepEvents(Run(c, turns[..|turns| - 1]), c, turns[|turns| - 1]);
    }
  }

  /** A poll that plainly fails raises a fault exactly when it is the threshold-th failure in a row since a success. */
  lemma FaultExactly(c: Config, turns: seq<Turn>, now: nat)
    ensures
      var x := Run(c, turns);
      Fail(x.health, c, now).1 != [] <==> EverSucceeded(x.records) && Trailing(x.records) + 1 == Threshold(c)
  {
    RunExplained(c, turns);
  }

  // ----- Spacing -----

  /** Neighbouring recorded polls are at least the gap in force after the earlier one apart. */
  ghost predicate Spaced(polls: seq<Poll>) {
    forall i, j :: 0 <= i && j == i + 1 < |polls| ==> polls[j].at - polls[i].at >= polls[i].gap
  }

  ghost predicate PollsMatch(x: System, c: Config) {
    && Spaced(x.polls)
    && (x.polls == [] ==> x.health.lastPollMs < 0)
    && (x.polls != [] ==>
          x.health.lastPollMs == x.polls[|x.polls| - 1].at && Gap(x.health, c) == x.polls[|x.polls| - 1].gap)
  }

  lemma {:induction false} PollsAreSpaced(c: Config, turns: seq<Turn>)
    ensures PollsMatch(Run(c, turns), c)
    decreases |turns|
  {
    if turns != [] {
      PollsAreSpaced(c, turns[..|turns| - 1]);
    }
  }

  /** A turn is taken exactly when the device has never been polled or the gap after its last poll has gone by. */
  lemma PolledExactly(c: Config, turns: seq<Turn>, t: Turn)
    ensures
      var x := Run(c, turns);
      var due := x.polls == [] || t.now - x.polls[|x.polls| - 1].at >= x.polls[|x.polls| - 1].gap;
      |Step(x, c, t).polls| == |x.polls| + (if due then 1 else 0)
  {
    PollsAreSpaced(c, turns);
  }

  /** Until its first answer a device is polled ever more rarely: at least `2^k` seconds, or 30, after failure `k`. */
  lemma SilentDevice(c: Config, turns: seq<Turn>, k: nat)
    requires Run(c, turns).records == seq(k, _ => false)
    ensures
      var x := Run(c, turns);
      && !x.health.online && x.events == [] && Spaced(x.polls)
      && (x.polls != [] ==> x.polls[|x.polls| - 1].gap == 1000 * Min(Doubled(k), BACKOFF_MAX_S))
  {
    var x := Run(c, turns);
    RunExplained(c, turns);
    EventsAlternate(c, turns);
    PollsAreSpaced(c, turns);
    TrailingAll(k);
    if x.events != [] {
      NoRecordNoEvent(c, turns);
    }
  }

  lemma {:induction false} TrailingAll(k: nat)
    ensures Trailing(seq(k, _ => false)) == k && !EverSucceeded(seq(k, _ => false))
  {
    if k > 0 {
      TrailingAll(k - 1);
      assert seq(k, _ => false)[..k - 1] == seq(k - 1, _ => false);
    }
  }

  lemma {:induction false} NoRecordNoEvent(c: Config, turns: seq<Turn>)
    requires !EverSucceeded(Run(c, turns).records)
    ensures Run(c, turns).events == []
    decreases |turns|
  {
    if turns != [] {
      var before, t := turns[..|turns| - 1], turns[|turns| - 1];
      var x, y := Run(c, before), Run(c, turns);
      assert forall i :: 0 <= i < |x.records| ==> y.records[i] == x.records[i];
      NoRecordNoEvent(c, before);
      RunExplained(c, before);
      if ShouldPoll(x.health, c, t.now) && Records(t.outcome) != [] {
        assert y.records[|x.records|] == Records(t.outcome)[0];
      }
    }
  }

  // ----- In the numbers of the program -----

  /** What a taken turn puts on record: a refusal nothing, and an answer that cannot be decoded a success and a failure. */
  lemma TurnRecords(x: System, c: Config, t: Turn)
    requires ShouldPoll(x.health, c, t.now)
    ensures var y := Step(x, c, t);
      && y.records == x.records +
           match t.outcome { case Decoded => [true] case Garbled => [true, false] case Refused => [] case Failed => [false] }
      && y.health.lastPollMs == t.now
      && (t.outcome == Refused ==> y.health == x.health.(lastPollMs := t.now) && y.events == x.events)
  {
    assert x.events + [] == x.events;
  }

  /** While the device is online the gap is the interval; after `k` failures offline it is `2^k` seconds, at most 30. */
  lemma GapInForce(c: Config, turns: seq<Turn>)
    ensures
      var x := Run(c, turns);
      var limit := if c.offlineThreshold > 1 then c.offlineThreshold else 1;
      var online := EverSucceeded(x.records) && Trailing(x.records) < limit;
      var k := if EverSucceeded(x.records) then Trailing(x.records) - limit else Trailing(x.records);
      && x.health.online == online
      && (online ==> Gap(x.health, c) == c.pollIntervalMs)
      && (!online ==> k >= 0 && Gap(x.health, c) == 1000 * (if Doubled(k) < 30 then Doubled(k) else 30))
      && (x.polls != [] ==> x.polls[|x.polls| - 1].gap == Gap(x.health, c))
  {
    RunExplained(c, turns);
    PollsAreSpaced(c, turns);
  }

  /** When the device last went offline; 0 if it never did. */
  function LastFaultAt(c: Config, turns: seq<Turn>): int {
    if turns == [] then 0
    else
      var before, t := turns[..|turns| - 1], turns[|turns| - 1];
      var x := Run(c, before);
      if ShouldPoll(x.health, c, t.now) && FaultIn(Recorded(x.health, c, t.now, t.outcome).1) then t.now
      else LastFaultAt(c, before)
  }

  predicate FaultIn(events: seq<Event>) {
    exists i :: 0 <= i < |events| && events[i].Fault?
  }

  lemma FailRemembers(h: State, c: Config, now: nat)
    ensures var (g, es) := Fail(h, c, now);
      g.wentOfflineMs == if FaultIn(es) then now else h.wentOfflineMs
  {
    var n := h.failures + 1;
    assert Fail(h, c, now).1 == [Fault(n)] ==> Fail(h, c, now).1[0].Fault?;
  }

  lemma RecordedRemembers(h: State, c: Config, now: nat, o: Outcome)
    ensures var (g, es) := Recorded(h, c, now, o);
      g.wentOfflineMs == if FaultIn(es) then now else h.wentOfflineMs
  {
    match o
    case Decoded =>
    case Refused =>
    case Failed => FailRemembers(h, c, now);
    case Garbled =>
      var (g, es) := Succeed(h, now);
      var (g', es') := Fail(g, c, now);
      FailRemembers(g, c, now);
      if i :| 0 <= i < |es'| && es'[i].Fault? {
        assert (es + es')[|es| + i].Fault?;
      }
      if FaultIn(es + es') {
        var i :| 0 <= i < |es + es'| && (es + es')[i].Fault?;
        assert i >= |es| && es'[i - |es|].Fault?;
      }
  }

  /** A recovery reports the time since the fault that took the device offline, or since start. */
  lemma {:induction false} RecoveryTellsOfflineTime(c: Config, turns: seq<Turn>, now: nat)
    ensures Run(c, turns).health.wentOfflineMs == LastFaultAt(c, turns)
    ensures !Run(c, turns).health.online ==>
      Succeed(Run(c, turns).health, now).1 == [Recovery(now - LastFaultAt(c, turns))]
    decreases |turns|
  {
    if turns != [] {
      var before, t := turns[..|turns| - 1], turns[|turns| - 1];
      RecoveryTellsOfflineTime(c, before, now);
      RecordedRemembers(Run(c, before).health, c, t.now, t.outcome);
    }
  }

  // ----- The program -----

  class DeviceHealth {
    const config: Config
    var online: bool
    var failures: nat
    var backoffS: nat
    var lastPollMs: int
    var wentOfflineMs: int

    ghost function View(): State
      reads this
    {
      State(online, failures, backoffS, lastPollMs, wentOfflineMs)
    }

    constructor (config: Config)
      ensures View() == UNKNOWN && this.config == config
    {
      this.config := config;
      online := false;
      failures := 0;
      backoffS := BACKOFF_MIN_S;
      lastPollMs := -1;
      wentOfflineMs := 0;
    }

    /** `record_success` */
    method RecordSuccess(now: nat) returns (events: seq<Event>)
      modifies this
      ensures (View(), events) == Succeed(old(View()), now)
    {
      failures := 0;
      if online {
        return [];
      }
      online := true;
      backoffS := BACKOFF_MIN_S;
      return [Recovery(now - wentOfflineMs)];
    }

    /** `record_failure` */
    method RecordFailure(now: nat) returns (events: seq<Event>)
      modifies this
      ensures (View(), events) == Fail(old(View()), config, now)
    {
      failures := failures + 1;
      if !online {
        backoffS := Min(backoffS * 2, BACKOFF_MAX_S);
        return [];
      }
      if failures >= config.offlineThreshold {
        online := false;
        wentOfflineMs := now;
        return [Fault(failures)];
      }
      return [];
    }

    /** `should_poll` */
    method CheckDue(now: nat) returns (due: bool)
      ensures due <==> ShouldPoll(View(), config, now)
    {
      if lastPollMs < 0 {
        return true;
      }
      if online {
        due := now - lastPollMs >= config.pollIntervalMs;
      } else {
        due := now - lastPollMs >= backoffS * 1000;
      }
    }

    /** This device's part of one cycle of the polling loop. */
    method Cycle(turn: Turn, ghost before: System) returns (events: seq<Event>)
      requires before.health == View()
      modifies this
      ensures View() == Step(before, config, turn).health
      ensures before.events + events == Step(before, config, turn).events
    {
      events := [];
      var due := CheckDue(turn.now);
      if !due {
        return;
      }
      match turn.outcome {
        case Decoded =>
          events := RecordSuccess(turn.now);
        case Garbled =>
          events := RecordSuccess(turn.now);
          var more := RecordFailure(turn.now);
          events := events + more;
        case Refused =>
        case Failed =>
          events := RecordFailure(turn.now);
      }
      lastPollMs := turn.now;
    }
  }
}
