/**
 The seqlock of `seqlock.h` and the bounded-retry reader used by the Python processes.

 Every load and store of shared memory is one atomic step, and steps of the writer and of
 any number of readers interleave freely (sequential consistency; C11 fences are not modelled).
 */
module Seqlock {

  const MODULUS: nat := 0x1_0000_0000
  const HALF: nat := 0x8000_0000

  /** The retry bound of the Python readers. */
  const MAX_RETRIES: nat := 100

  type Word = int

  /** `uint32_t` */
  type Sequence = n: nat | n < MODULUS

  /** `seq + 1` on `uint32_t` */
  function Successor(n: Sequence): Sequence {
    (n + 1) % MODULUS
  }

  lemma Remainder(n: nat, q: nat, r: nat)
    requires n == 0x1_0000_0000 * q + r && r < 0x1_0000_0000
    ensures n % MODULUS == r
    ensures n % 2 == r % 2
  {
    assert n % 0x1_0000_0000 == r;
    assert n == 2 * (0x8000_0000 * q) + r;
  }

  /** The counter follows the number of increments, modulo 2^32, and keeps its parity. */
  lemma SuccessorCounts(n: nat)
    ensures Successor(n % MODULUS) == (n + 1) % MODULUS
    ensures (n % MODULUS) % 2 == n % 2
  {
    var q, r := n / 0x1_0000_0000, n % 0x1_0000_0000;
    Remainder(n, q, r);
    if r + 1 < 0x1_0000_0000 {
      Remainder(n + 1, q, r + 1);
      Remainder(r + 1, 0, r + 1);
    } else {
      Remainder(n + 1, q + 1, 0);
      Remainder(r + 1, 1, 0);
    }
  }

  datatype Shm = Shm(sequence: Sequence, words: seq<Word>)

  /** Where a reader is. `began` records the version that was current at its `read_begin`. */
  datatype Reader =
    | Idle
    | Copying(seq1: Sequence, copy: map<nat, Word>, began: nat)

  /** A copy that passed the re-check, with the versions current at `read_begin` and at the re-check. */
  datatype Read = Read(reader: nat, value: seq<Word>, began: nat, ended: nat)

  /**
   `commits[v]` is the section as version `v` left it: the initial value, then one entry per `write_end`.
   `commits` and `accepted` are histories; no step looks at them to decide what to do.
   */
  datatype System = System(
    shm: Shm,
    writing: bool,
    commits: seq<seq<Word>>,
    readers: map<nat, Reader>,
    accepted: seq<Read>)

  datatype Action =
    | WriteBegin
    | Store(i: nat, v: Word)
    | WriteEnd
    | ReadBegin(reader: nat)
    | Load(reader: nat, i: nat)
    | Recheck(reader: nat)

  function Init(words: seq<Word>): System {
    System(Shm(0, words), false, [words], map[], [])
  }

  function ReaderOf(s: System, r: nat): Reader {
    if r in s.readers then s.readers[r] else Idle
  }

  /** One atomic step. An action that its process could not take leaves the system unchanged. */
  function Step(s: System, a: Action): System {
    match a
    case WriteBegin =>
      if s.writing then s else
      s.(writing := true, shm := s.shm.(sequence := Successor(s.shm.sequence)))
    case Store(i, v) =>
      if !s.writing || i >= |s.shm.words| then s else
      s.(shm := s.shm.(words := s.shm.words[i := v]))
    case WriteEnd =>
      if !s.writing then s else
      s.(writing := false,
         shm := s.shm.(sequence := Successor(s.shm.sequence)),
         commits := s.commits + [s.shm.words])
    case ReadBegin(r) =>
      if ReaderOf(s, r).Copying? || s.shm.sequence % 2 == 1 || |s.commits| == 0 then s else
      s.(readers := s.readers[r := Copying(s.shm.sequence, map[], |s.commits| - 1)])
    case Load(r, i) =>
      var c := ReaderOf(s, r);
      if c.Idle? || i >= |s.shm.words| then s else
      s.(readers := s.readers[r := c.(copy := c.copy[i := s.shm.words[i]])])
    case Recheck(r) =>
      var c := ReaderOf(s, r);
      if c.Idle? || (exists i | 0 <= i < |s.shm.words| :: i !in c.copy) || |s.commits| == 0 then s else
      var t := s.(readers := s.readers[r := Idle]);
      if c.seq1 != s.shm.sequence then t else
      var value := seq(|s.shm.words|, i requires 0 <= i < |s.shm.words| => c.copy[i]);
      t.(accepted := t.accepted + [Read(r, value, c.began, |s.commits| - 1)])
  }

  function Run(s: System, actions: seq<Action>): System
    decreases |actions|
  {
    if actions == [] then s else Run(Step(s, actions[0]), actions[1..])
  }

  /** The number of increments of the sequence counter so far, without wrap-around. */
  ghost function Ticks(s: System): int {
    2 * (|s.commits| - 1) + (if s.writing then 1 else 0)
  }

  ghost predicate WriterInv(s: System) {
    && |s.commits| > 0
    && (forall v | 0 <= v < |s.commits| :: |s.commits[v]| == |s.shm.words|)
    && s.shm.sequence == Ticks(s) % MODULUS
    && (!s.writing ==> s.shm.words == s.commits[|s.commits| - 1])
  }

  /** Until the next `write_begin` a partial copy agrees with the version it began under. */
  ghost predicate ReaderInv(s: System, r: nat)
    requires |s.commits| > 0
  {
    var c := ReaderOf(s, r);
    c.Copying? ==>
      && c.began < |s.commits|
      && c.seq1 == (2 * c.began) % MODULUS
      && (forall e | e in s.accepted && e.reader == r :: e.ended <= c.began)
      && (Ticks(s) == 2 * c.began ==>
            forall i | i in c.copy && i < |s.commits[c.began]| :: c.copy[i] == s.commits[c.began][i])
  }

  /** Only a multiple of 2^31 writes goes unnoticed, and a read during which none completed is the version it began under. */
  ghost predicate Consistent(commits: seq<seq<Word>>, e: Read) {
    && e.began <= e.ended < |commits|
    && (e.ended - e.began) % HALF == 0
    && (e.ended - e.began < HALF ==> e.began == e.ended && e.value == commits[e.began])
  }

  ghost predicate InOrder(accepted: seq<Read>) {
    forall i, j | 0 <= i < j < |accepted| && accepted[i].reader == accepted[j].reader ::
      accepted[i].ended <= accepted[j].began
  }

  ghost predicate Inv(s: System) {
    && WriterInv(s)
    && (forall r: nat :: ReaderInv(s, r))
    && (forall e | e in s.accepted :: Consistent(s.commits, e))
    && InOrder(s.accepted)
  }

  /** Equal counters are a multiple of 2^31 completed writes apart, with no write in progress. */
  lemma SameCounter(began: nat, ticks: nat)
    requires 2 * began <= ticks
    requires (2 * began) % MODULUS == ticks % MODULUS
    ensures ticks % 2 == 0 && (ticks / 2 - began) % HALF == 0
  {
    var p, q := 2 * began / 0x1_0000_0000, ticks / 0x1_0000_0000;
    var r, t := 2 * began % 0x1_0000_0000, ticks % 0x1_0000_0000;
    Remainder(2 * began, p, r);
    Remainder(ticks, q, t);
    assert ticks - 2 * began == 2 * (0x8000_0000 * (q - p));
    assert ticks / 2 - began == 0x8000_0000 * (q - p);
    assert (ticks / 2 - began) % 0x8000_0000 == 0;
  }

  /** Equal counters less than 2^31 completed writes apart are the same counter. */
  lemma NoWrap(began: nat, ticks: nat)
    requires 2 * began <= ticks
    requires (2 * began) % MODULUS == ticks % MODULUS
    requires ticks / 2 - began < HALF
    ensures ticks == 2 * began
  {
    SameCounter(began, ticks);
  }

  /** The counter is odd exactly during a write. */
  lemma CounterParity(s: System)
    requires WriterInv(s)
    ensures s.shm.sequence % 2 == if s.writing then 1 else 0
  {
    SuccessorCounts(Ticks(s));
  }

  lemma WriterStep(s: System, a: Action)
    requires WriterInv(s) && (a.WriteBegin? || a.Store? || a.WriteEnd?)
    ensures WriterInv(Step(s, a))
  {
    SuccessorCounts(Ticks(s));
    assert Ticks(Step(s, a)) == Ticks(s) || Ticks(Step(s, a)) == Ticks(s) + 1;
  }

  lemma StepKeepsInv(s: System, a: Action)
    requires Inv(s)
    ensures Inv(Step(s, a))
  {
    match a
    case ReadBegin(r) => CopyingKeepsInv(s, a, r);
    case Load(r, i) => CopyingKeepsInv(s, a, r);
    case Recheck(r) => RecheckKeepsInv(s, r);
    case _ => WriterStepKeepsInv(s, a);
  }

  /** A reader that samples or loads changes its own place and nothing else. */
  lemma CopyingKeepsReader(s: System, a: Action, r: nat)
    requires WriterInv(s) && ReaderInv(s, r)
    requires forall e | e in s.accepted :: Consistent(s.commits, e)
    requires a == ReadBegin(r) || (a.Load? && a.reader == r)
    ensures var t := Step(s, a);
      && t == s.(readers := t.readers) && ReaderInv(t, r)
      && forall q: nat | q != r :: ReaderOf(t, q) == ReaderOf(s, q)
  {
    CounterParity(s);
  }

  lemma CopyingKeepsInv(s: System, a: Action, r: nat)
    requires Inv(s)
    requires a == ReadBegin(r) || (a.Load? && a.reader == r)
    ensures Inv(Step(s, a))
  {
    var t := Step(s, a);
    assert ReaderInv(s, r);
    CopyingKeepsReader(s, a, r);
    forall q: nat ensures ReaderInv(t, q) { assert ReaderInv(s, q); }
  }

  lemma WriterStepKeepsInv(s: System, a: Action)
    requires Inv(s)
    requires a.WriteBegin? || a.Store? || a.WriteEnd?
    ensures Inv(Step(s, a))
  {
    var t := Step(s, a);
    WriterStep(s, a);
    assert s.commits <= t.commits;
    forall q: nat ensures ReaderInv(t, q) {
      assert ReaderInv(s, q);
      assert ReaderOf(t, q) == ReaderOf(s, q);
    }
  }

  /** A re-check leaves its reader idle and the section alone, and may add one read. */
  lemma RecheckEffect(s: System, r: nat)
    requires WriterInv(s) && ReaderInv(s, r)
    ensures var t := Step(s, Recheck(r));
      && t.shm == s.shm && t.writing == s.writing && t.commits == s.commits
      && (t == s || t.readers == s.readers[r := Idle])
      && (t.accepted == s.accepted ||
            exists e :: t.accepted == s.accepted + [e] && IsNewRead(s, r, e))
  {
    var t := Step(s, Recheck(r));
    if t.accepted != s.accepted {
      NewReadIsConsistent(s, r);
      var e := t.accepted[|s.accepted|];
      assert t.accepted == s.accepted + [e];
    }
  }

  ghost predicate IsNewRead(s: System, r: nat, e: Read) {
    && Consistent(s.commits, e) && e.reader == r
    && ReaderOf(s, r).Copying? && e.began == ReaderOf(s, r).began && e.ended == |s.commits| - 1
  }

  lemma RecheckKeepsInv(s: System, r: nat)
    requires Inv(s)
    ensures Inv(Step(s, Recheck(r)))
  {
    var t := Step(s, Recheck(r));
    assert ReaderInv(s, r);
    RecheckEffect(s, r);
    forall q: nat ensures ReaderInv(t, q) { assert ReaderInv(s, q); }
    if t.accepted != s.accepted {
      var e :| t.accepted == s.accepted + [e] && IsNewRead(s, r, e);
      AppendKeepsOrder(s.accepted, e);
    }
  }

  lemma AppendKeepsOrder(accepted: seq<Read>, e: Read)
    requires InOrder(accepted) && forall d | d in accepted && d.reader == e.reader :: d.ended <= e.began
    ensures InOrder(accepted + [e])
  {
    forall i | 0 <= i < |accepted| && accepted[i].reader == e.reader ensures accepted[i].ended <= e.began {
      assert accepted[i] in accepted;
    }
  }

  lemma NewReadIsConsistent(s: System, r: nat)
    requires WriterInv(s) && ReaderInv(s, r)
    requires Step(s, Recheck(r)).accepted != s.accepted
    ensures var e := Step(s, Recheck(r)).accepted[|s.accepted|];
      Consistent(s.commits, e) && e.reader == r && e.began == ReaderOf(s, r).began && e.ended == |s.commits| - 1
  {
    var c := ReaderOf(s, r);
    var e := Step(s, Recheck(r)).accepted[|s.accepted|];
    SameCounter(c.began, Ticks(s));
    if e.ended - e.began < HALF {
      NoWrap(c.began, Ticks(s));
      assert e.value == s.commits[c.began];
    }
  }

  lemma {:induction false} RunKeepsInv(s: System, actions: seq<Action>)
    requires Inv(s)
    ensures Inv(Run(s, actions))
    decreases |actions|
  {
    if actions != [] {
      StepKeepsInv(s, actions[0]);
      RunKeepsInv(Step(s, actions[0]), actions[1..]);
    }
  }

  /**
   In every interleaving, the writes that complete during an accepted read are a multiple of 2^31, and if they are fewer
   than that, so none, the read is exactly one committed version, still the current one when it is accepted.
   */
  lemma AcceptedReadsAreCommitted(words: seq<Word>, actions: seq<Action>)
    ensures var s := Run(Init(words), actions);
      forall e | e in s.accepted ::
        && e.began <= e.ended < |s.commits|
        && (e.ended - e.began) % HALF == 0
        && (e.ended - e.began < HALF ==> e.began == e.ended && e.value == s.commits[e.began])
  {
    RunKeepsInv(Init(words), actions);
  }

  /** No reader ever goes back to an older version. */
  lemma AcceptedReadsNeverGoBack(words: seq<Word>, actions: seq<Action>, i: nat, j: nat)
    requires i < j < |Run(Init(words), actions).accepted|
    requires Run(Init(words), actions).accepted[i].reader == Run(Init(words), actions).accepted[j].reader
    ensures Run(Init(words), actions).accepted[i].ended <= Run(Init(words), actions).accepted[j].began
  {
    RunKeepsInv(Init(words), actions);
  }

  // ----- When a read is accepted -----

  ghost predicate Complete(s: System, r: nat) {
    ReaderOf(s, r).Copying? && forall i | 0 <= i < |s.shm.words| :: i in ReaderOf(s, r).copy
  }

  /**
   A complete copy is accepted if and only if the counter has moved by a multiple of 2^32 since it was sampled; in
   particular whenever no write has begun meanwhile. Either way the attempt is over.
   */
  lemma AcceptedIffCounterIsBack(s: System, r: nat)
    requires Inv(s) && Complete(s, r)
    ensures Step(s, Recheck(r)).accepted == s.accepted || |Step(s, Recheck(r)).accepted| == |s.accepted| + 1
    ensures Step(s, Recheck(r)).accepted != s.accepted <==>
      Ticks(s) % MODULUS == (2 * ReaderOf(s, r).began) % MODULUS
    ensures ReaderOf(Step(s, Recheck(r)), r).Idle?
  {
    assert ReaderInv(s, r);
  }

  /** Every word loaded, one after another. */
  function LoadAll(r: nat, n: nat): seq<Action> {
    if n == 0 then [] else LoadAll(r, n - 1) + [Load(r, n - 1)]
  }

  lemma RunNext(s: System, actions: seq<Action>, a: Action)
    ensures Run(s, actions + [a]) == Step(Run(s, actions), a)
  {
    RunConcat(s, actions, [a]);
    assert [a][1..] == [];
  }

  /** The reader has loaded the first `n` words as they stand. */
  ghost predicate Loaded(s: System, r: nat, seq1: Sequence, began: nat, n: nat)
    requires n <= |s.shm.words|
  {
    var c := ReaderOf(s, r);
    && c.Copying? && c.seq1 == seq1 && c.began == began
    && forall i | 0 <= i < n :: i in c.copy && c.copy[i] == s.shm.words[i]
  }

  lemma {:induction false} LoadedSoFar(s: System, r: nat, seq1: Sequence, began: nat, n: nat)
    requires n <= |s.shm.words| && Loaded(s, r, seq1, began, 0)
    ensures var t := Run(s, LoadAll(r, n));
      t == s.(readers := t.readers) && Loaded(t, r, seq1, began, n)
  {
    if n > 0 {
      LoadedSoFar(s, r, seq1, began, n - 1);
      RunNext(s, LoadAll(r, n - 1), Load(r, n - 1));
    }
  }

  lemma QuietRecheck(s: System, r: nat)
    requires WriterInv(s) && !s.writing
    requires Loaded(s, r, s.shm.sequence, |s.commits| - 1, |s.shm.words|)
    ensures var t := Step(s, Recheck(r));
      && t.accepted == s.accepted + [Read(r, s.commits[|s.commits| - 1], |s.commits| - 1, |s.commits| - 1)]
      && t.shm == s.shm && t.commits == s.commits
  {
    var e := Step(s, Recheck(r)).accepted[|s.accepted|];
    assert e.value == s.shm.words;
  }

  lemma BeginAndLoad(s: System, r: nat)
    requires WriterInv(s) && !s.writing && ReaderOf(s, r).Idle?
    ensures var t := Run(s, [ReadBegin(r)] + LoadAll(r, |s.shm.words|));
      t == s.(readers := t.readers) && Loaded(t, r, s.shm.sequence, |s.commits| - 1, |s.shm.words|)
  {
    var t := Step(s, ReadBegin(r));
    CounterParity(s);
    assert [ReadBegin(r)][1..] == [];
    assert Run(s, [ReadBegin(r)]) == t;
    RunConcat(s, [ReadBegin(r)], LoadAll(r, |s.shm.words|));
    LoadedSoFar(t, r, s.shm.sequence, |s.commits| - 1, |s.shm.words|);
  }

  /** A reader that starts between writes and is left alone gets the committed section at its first attempt. */
  lemma QuietReadIsAccepted(s: System, r: nat)
    requires Inv(s) && !s.writing && ReaderOf(s, r).Idle?
    ensures var t := Run(s, [ReadBegin(r)] + LoadAll(r, |s.shm.words|) + [Recheck(r)]);
      && t.accepted == s.accepted + [Read(r, s.commits[|s.commits| - 1], |s.commits| - 1, |s.commits| - 1)]
      && t.shm == s.shm && t.commits == s.commits
  {
    var actions := [ReadBegin(r)] + LoadAll(r, |s.shm.words|);
    BeginAndLoad(s, r);
    RunNext(s, actions, Recheck(r));
    QuietRecheck(Run(s, actions), r);
  }

  // ----- Beyond the bound -----

  lemma {:induction false} RunConcat(s: System, a: seq<Action>, b: seq<Action>)
    ensures Run(s, a + b) == Run(Run(s, a), b)
    decreases |a|
  {
    if a == [] {
      assert a + b == b;
    } else {
      assert (a + b)[1..] == a[1..] + b;
      RunConcat(Step(s, a[0]), a[1..], b);
    }
  }

  /** `n` complete writes, each storing 1 into both words of a two-word section. */
  function WriteOnes(n: nat): seq<Action> {
    if n == 0 then [] else WriteOnes(n - 1) + OneWrite()
  }

  function OneWrite(): seq<Action> {
    [WriteBegin, Store(0, 1), Store(1, 1), WriteEnd]
  }

  ghost predicate OnesAfter(s: System, t: System, n: nat) {
    && !t.writing
    && t.readers == s.readers && t.accepted == s.accepted
    && t.shm.sequence == (s.shm.sequence + 2 * n) % MODULUS
    && t.shm.words == (if n == 0 then s.shm.words else [1, 1])
    && |t.commits| == |s.commits| + n && s.commits <= t.commits
    && forall v | |s.commits| <= v < |t.commits| :: t.commits[v] == [1, 1]
  }

  lemma {:induction false} WriteOnesRun(s: System, n: nat)
    requires !s.writing && |s.shm.words| == 2
    ensures OnesAfter(s, Run(s, WriteOnes(n)), n)
  {
    if n > 0 {
      WriteOnesRun(s, n - 1);
      var t := Run(s, WriteOnes(n - 1));
      OneWriteRun(t);
      OnesCompose(s, t, Run(t, OneWrite()), n);
      RunConcat(s, WriteOnes(n - 1), OneWrite());
    }
  }

  lemma OnesCompose(s: System, t: System, u: System, n: nat)
    requires n > 0 && OnesAfter(s, t, n - 1) && OnesAfter(t, u, 1)
    ensures OnesAfter(s, u, n)
  {
    assert ((s.shm.sequence + 2 * (n - 1)) % MODULUS + 2) % MODULUS == (s.shm.sequence + 2 * n) % MODULUS;
  }

  lemma OneWriteRun(s: System)
    requires !s.writing && |s.shm.words| == 2
    ensures OnesAfter(s, Run(s, OneWrite()), 1)
  {
    var s2 := Step(Step(s, WriteBegin), Store(0, 1));
    RunTwo(s, WriteBegin, Store(0, 1));
    RunTwo(s2, Store(1, 1), WriteEnd);
    RunConcat(s, [WriteBegin, Store(0, 1)], [Store(1, 1), WriteEnd]);
    assert OneWrite() == [WriteBegin, Store(0, 1)] + [Store(1, 1), WriteEnd];
    OneWriteSteps(s);
  }

  lemma OneWriteSteps(s: System)
    requires !s.writing && |s.shm.words| == 2
    ensures OnesAfter(s, Step(Step(Step(Step(s, WriteBegin), Store(0, 1)), Store(1, 1)), WriteEnd), 1)
  {
    assert s.shm.words[0 := 1][1 := 1] == [1, 1];
  }

  lemma RunTwo(s: System, a: Action, b: Action)
    ensures Run(s, [a, b]) == Step(Step(s, a), b)
  {
    assert [a, b][1..] == [b] && [b][1..] == [];
    assert Run(Step(s, a), [b]) == Run(Step(Step(s, a), b), []);
  }

  /**
   The 2^31 hypothesis cannot be dropped: when a positive multiple of 2^31 writes completes during one
   read, the re-check can accept a mix of two versions.
   */
  lemma TornReadAfterWrap(n: nat) returns (actions: seq<Action>)
    requires n > 0 && n % HALF == 0
    ensures var s := Run(Init([0, 0]), actions);
      && |s.accepted| == 1
      && s.accepted[0].ended - s.accepted[0].began == n
      && s.accepted[0].value !in s.commits
  {
    actions := [ReadBegin(0), Load(0, 0)] + (WriteOnes(n) + [Load(0, 1), Recheck(0)]);
    var s0 := Init([0, 0]);
    var s1 := Step(Step(s0, ReadBegin(0)), Load(0, 0));
    RunTwo(s0, ReadBegin(0), Load(0, 0));
    RunConcat(s0, [ReadBegin(0), Load(0, 0)], WriteOnes(n) + [Load(0, 1), Recheck(0)]);
    WriteOnesRun(s1, n);
    var s2 := Run(s1, WriteOnes(n));
    RunConcat(s1, WriteOnes(n), [Load(0, 1), Recheck(0)]);
    RunTwo(s2, Load(0, 1), Recheck(0));
    MixIsAccepted(s1, s2, n);
  }

  lemma MixIsAccepted(s1: System, s2: System, n: nat)
    requires n > 0 && n % HALF == 0
    requires s1 == System(Shm(0, [0, 0]), false, [[0, 0]], map[0 := Copying(0, map[0 := 0], 0)], [])
    requires OnesAfter(s1, s2, n)
    ensures var s := Step(Step(s2, Load(0, 1)), Recheck(0));
      s.commits == s2.commits && s.accepted == [Read(0, [0, 1], 0, n)] && [0, 1] !in s.commits
  {
    assert (2 * n) % MODULUS == 0;
    var s3 := Step(s2, Load(0, 1));
    var c := ReaderOf(s3, 0);
    assert c.copy == map[0 := 0, 1 := 1];
    assert forall i | 0 <= i < |s3.shm.words| :: i in c.copy;
    var value := Step(s3, Recheck(0)).accepted[0].value;
    assert value == [0, 1];
    assert forall v | 0 <= v < |s2.commits| :: s2.commits[v][1] != 1 || s2.commits[v][0] == 1;
  }

  /** In every run, every accepted read spanning `n` completed writes is a committed version. */
  ghost predicate Guaranteed(n: nat) {
    forall words: seq<Word>, actions: seq<Action>, e: Read ::
      e in Run(Init(words), actions).accepted && e.ended - e.began == n ==> e.value in Run(Init(words), actions).commits
  }

  /** The seqlock keeps its promise for exactly the spans that are not a positive multiple of 2^31. */
  lemma GuaranteedIff(n: nat)
    ensures Guaranteed(n) <==> !(n > 0 && n % HALF == 0)
  {
    if n > 0 && n % HALF == 0 {
      var actions := TornReadAfterWrap(n);
      var s := Run(Init([0, 0]), actions);
      assert s.accepted[0] in s.accepted;
    } else {
      forall words: seq<Word>, actions: seq<Action>, e: Read |
        e in Run(Init(words), actions).accepted && e.ended - e.began == n
        ensures e.value in Run(Init(words), actions).commits
      {
        AcceptedReadsAreCommitted(words, actions);
      }
    }
  }

  // ----- The section in shared memory -----

  /** One RTDB section: the lock word and the data words, updated in place. */
  class SharedSection {
    var sequence: Sequence
    const words: array<Word>
    var writing: bool
    ghost var commits: seq<seq<Word>>

    /** The section as the interleaving model sees it, leaving out the readers. */
    ghost function View(): System
      reads this, words
    {
      System(Shm(sequence, words[..]), writing, commits, map[], [])
    }

    ghost predicate Valid()
      reads this, words
    {
      WriterInv(View())
    }

    ghost function Increments(): int
      reads this, words
    {
      Ticks(View())
    }

    /** The version a reader sees when no write is in progress. */
    ghost function Version(): int
      reads this
    {
      |commits| - 1
    }

    /** What any number of writer steps leave true. */
    twostate predicate Advanced()
      reads this, words
    {
      && Valid()
      && old(commits) <= commits
      && old(Increments()) <= Increments()
      && (old(!writing) && Increments() == old(Increments()) ==> words[..] == old(words[..]))
    }

    constructor (initial: seq<Word>)
      ensures Valid() && fresh(words) && !writing && commits == [initial]
    {
      sequence := 0;
      words := new Word[|initial|](i requires 0 <= i < |initial| => initial[i]);
      writing := false;
      commits := [initial];
      new;
      assert words[..] == initial;
    }

    method WriteBegin()
      requires Valid() && !writing
      modifies this
      ensures Valid() && View() == Step(old(View()), Action.WriteBegin)
      ensures sequence % 2 == 1
    {
      WriterStep(View(), Action.WriteBegin);
      var seq' := sequence;
      sequence := Successor(seq');
      writing := true;
      CounterParity(View());
    }

    method Store(i: nat, v: Word)
      requires Valid() && writing && i < words.Length
      modifies words
      ensures Valid() && View() == Step(old(View()), Action.Store(i, v))
    {
      words[i] := v;
    }

    method WriteEnd()
      requires Valid() && writing
      modifies this
      ensures Valid() && View() == Step(old(View()), Action.WriteEnd)
      ensures sequence % 2 == 0
    {
      WriterStep(View(), Action.WriteEnd);
      var seq' := sequence;
      sequence := Successor(seq');
      commits := commits + [words[..]];
      writing := false;
      CounterParity(View());
    }

    /** A whole write, field by field as `_write_to_rtdb` does it, commits exactly the given values. */
    method WriteSection(values: seq<Word>)
      requires Valid() && !writing && |values| == words.Length
      modifies this, words
      ensures Valid() && !writing && words[..] == values
      ensures commits == old(commits) + [values]
    {
      WriteBegin();
      var i := 0;
      while i < words.Length
        invariant 0 <= i <= words.Length
        invariant Valid() && writing && commits == old(commits)
        invariant words[..i] == values[..i]
      {
        Store(i, values[i]);
        i := i + 1;
      }
      WriteEnd();
    }

    /** `ems_seqlock_read_retry` */
    method ReadRetry(seq1: Sequence) returns (retry: bool)
      requires Valid()
      ensures retry <==> Increments() % MODULUS != seq1
    {
      retry := sequence != seq1;
    }

    /** The writer runs for as long as it likes, stopping anywhere, even inside a write. */
    method Interfere()
      requires Valid()
      modifies this, words
      ensures Advanced()
    {
      var steps: nat :| true;
      while steps > 0
        invariant Advanced()
      {
        if !writing {
          WriteBegin();
        } else {
          var i: nat, v: Word :| true;
          if i < words.Length {
            Store(i, v);
          } else {
            WriteEnd();
          }
        }
        steps := steps - 1;
      }
    }

    /** Every attempt met the writer: each mark is taken before an attempt, and the last one after the last attempt. */
    static ghost predicate AllDisturbed(marks: seq<int>) {
      forall i, j :: 0 <= i && j == i + 1 < |marks| ==> marks[i] <= marks[j] && Disturbed(marks[i], marks[j])
    }

    /** Between these increments there was a write in progress, or one began. */
    static ghost predicate Disturbed(before: int, after: int) {
      before % 2 == 1 || before < after
    }

    /**
     `_seqlock_read_section`: up to 100 attempts to copy the section word by word while the writer runs.
     The accepting exit returns a committed version. The other exit is taken only after 100 attempts that all met the
     writer, so never when the writer is idle; nothing is claimed of the copy it returns.
     */
    method ReadSection() returns (ok: bool, copy: seq<Word>, ghost marks: seq<int>)
      requires Valid()
      modifies this, words
      ensures Valid() && old(commits) <= commits && old(Increments()) <= Increments() && |copy| == words.Length
      ensures ok && Version() - old(Version()) < HALF ==>
        exists v | old(Version()) <= v <= Version() :: copy == commits[v]
      ensures !old(writing) && Increments() == old(Increments()) ==> ok && copy == old(words[..])
      ensures !ok ==> |marks| == 101 && marks[0] == old(Increments()) && marks[100] == Increments() && AllDisturbed(marks)
    {
      copy := seq(words.Length, _ => 0);
      marks := [Increments()];
      var attempt := 0;
      while attempt < MAX_RETRIES
        invariant 0 <= attempt <= MAX_RETRIES && |marks| == attempt + 1
        invariant Valid() && old(commits) <= commits && |copy| == words.Length
        invariant marks[0] == old(Increments()) && marks[attempt] == Increments() && AllDisturbed(marks)
        invariant old(Increments()) <= Increments()
        invariant attempt > 0 ==> Disturbed(old(Increments()), Increments())
        invariant Advanced()
      {
        ok, copy := Attempt(copy);
        if ok {
          return;
        }
        marks := marks + [Increments()];
        attempt := attempt + 1;
      }
      ok := false;
    }

    /** One turn of the retry loop. */
    method Attempt(buffer: seq<Word>) returns (ok: bool, copy: seq<Word>)
      requires Valid() && |buffer| == words.Length
      modifies this, words
      ensures Advanced() && |copy| == words.Length
      ensures ok && Version() - old(Version()) < HALF ==>
        exists v | old(Version()) <= v <= Version() :: copy == commits[v]
      ensures !ok ==> Disturbed(old(Increments()), Increments())
      ensures !old(writing) && Increments() == old(Increments()) ==> ok && copy == old(words[..])
    {
      Interfere();
      var seq1 := sequence;
      CounterParity(View());
      if seq1 % 2 == 1 {
        return false, buffer;
      }
      ghost var began := Version();
      ok, copy := CopyAndRecheck(buffer, seq1);
      assert ok && Version() - old(Version()) < HALF ==> copy == commits[began];
    }

    /** The copy and the re-check that follows it: accepted exactly when the counter is back at the value sampled. */
    method CopyAndRecheck(buffer: seq<Word>, seq1: Sequence) returns (ok: bool, copy: seq<Word>)
      requires Valid() && !writing && seq1 == sequence && |buffer| == words.Length
      modifies this, words
      ensures Advanced() && |copy| == words.Length
      ensures ok <==> Increments() % MODULUS == seq1
      ensures ok && Version() - old(Version()) < HALF ==> copy == old(words[..])
      ensures Increments() == old(Increments()) ==> ok && copy == old(words[..])
    {
      copy := CopyWords(buffer);
      Interfere();
      var retry := ReadRetry(seq1);
      ok := !retry;
      if ok && Version() - old(Version()) < HALF {
        NoWrap(old(Version()), Increments());
      }
    }

    /** `memmove`, one word at a time, while the writer runs. */
    method CopyWords(buffer: seq<Word>) returns (copy: seq<Word>)
      requires Valid() && !writing && |buffer| == words.Length
      modifies this, words
      ensures Advanced() && |copy| == words.Length
      ensures Increments() == old(Increments()) ==> copy == old(words[..])
    {
      copy := buffer;
      var i := 0;
      while i < words.Length
        invariant 0 <= i <= words.Length
        invariant Advanced() && |copy| == words.Length
        invariant Increments() == old(Increments()) ==> copy[..i] == old(words[..])[..i]
      {
        Interfere();
        copy := copy[i := words[i]];
        i := i + 1;
      }
    }
  }
}
