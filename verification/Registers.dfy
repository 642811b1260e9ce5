/**
 Reading a Modbus register map: `build_read_ranges` of `register_map.py` and `poll` of `modbus_device.py`.

 The ranges come from the sorted addresses, the values are paired with the map by position.
 */
module Registers {

  datatype RegisterDef = RegisterDef(address: int, name: string)

  datatype Range = Range(start: int, count: nat)

  function Addresses(registers: seq<RegisterDef>): (r: seq<int>)
    ensures |r| == |registers|
    ensures forall i :: 0 <= i < |r| ==> r[i] == registers[i].address
  {
    seq(|registers|, i requires 0 <= i < |registers| => registers[i].address)
  }

  // ----- Sorting -----

  ghost predicate Ascending(s: seq<int>) {
    forall i, j :: 0 <= i < j < |s| ==> s[i] <= s[j]
  }

  ghost predicate StrictlyAscending(s: seq<int>) {
    forall i, j :: 0 <= i < j < |s| ==> s[i] < s[j]
  }

  function Insert(s: seq<int>, x: int): seq<int> {
    if s == [] || s[|s| - 1] <= x then s + [x] else Insert(s[..|s| - 1], x) + [s[|s| - 1]]
  }

  /** The library's `sorted` on the addresses. */
  function Sorted(s: seq<int>): seq<int> {
    if s == [] then [] else Insert(Sorted(s[..|s| - 1]), s[|s| - 1])
  }

  lemma AscendingNext(s: seq<int>, x: int)
    requires Ascending(s) && forall i :: 0 <= i < |s| ==> s[i] <= x
    ensures Ascending(s + [x])
  {
  }

  lemma {:induction false} InsertBelow(s: seq<int>, x: int, top: int)
    requires x <= top && forall i :: 0 <= i < |s| ==> s[i] <= top
    ensures forall i :: 0 <= i < |Insert(s, x)| ==> Insert(s, x)[i] <= top
  {
    if s != [] && s[|s| - 1] > x {
      InsertBelow(s[..|s| - 1], x, top);
    }
  }

  lemma {:induction false} InsertAscends(s: seq<int>, x: int)
    requires Ascending(s)
    ensures Ascending(Insert(s, x))
  {
    if s != [] && s[|s| - 1] > x {
      var init, last := s[..|s| - 1], s[|s| - 1];
      InsertAscends(init, x);
      InsertBelow(init, x, last);
      AscendingNext(Insert(init, x), last);
    } else {
      AscendingNext(s, x);
    }
  }

  lemma {:induction false} InsertKeeps(s: seq<int>, x: int)
    ensures multiset(Insert(s, x)) == multiset(s) + multiset{x}
  {
    if s != [] && s[|s| - 1] > x {
      assert s == s[..|s| - 1] + [s[|s| - 1]];
      InsertKeeps(s[..|s| - 1], x);
    }
  }

  /** The sorted list is the ascending rearrangement. */
  lemma {:induction false} SortedSorts(s: seq<int>)
    ensures Ascending(Sorted(s)) && multiset(Sorted(s)) == multiset(s)
  {
    if s != [] {
      assert s == s[..|s| - 1] + [s[|s| - 1]];
      SortedSorts(s[..|s| - 1]);
      InsertAscends(Sorted(s[..|s| - 1]), s[|s| - 1]);
      InsertKeeps(Sorted(s[..|s| - 1]), s[|s| - 1]);
    }
  }

  /** Sorting leaves exactly the ascending lists alone. */
  lemma {:induction false} SortedFixed(s: seq<int>)
    ensures Sorted(s) == s <==> Ascending(s)
  {
    SortedSorts(s);
    if s != [] && Ascending(s) {
      var init := s[..|s| - 1];
      SortedFixed(init);
      assert init + [s[|s| - 1]] == s;
    }
  }

  // ----- Ranges -----

  /** The addresses a range reads. */
  function Covered(r: Range): seq<int> {
    seq(r.count, k => r.start + k)
  }

  /** The addresses a list of ranges reads, in the order of reading. */
  function Flattened(ranges: seq<Range>): seq<int> {
    if ranges == [] then [] else Flattened(ranges[..|ranges| - 1]) + Covered(ranges[|ranges| - 1])
  }

  lemma FlattenedNext(ranges: seq<Range>, r: Range)
    ensures Flattened(ranges + [r]) == Flattened(ranges) + Covered(r)
  {
    assert (ranges + [r])[..|ranges|] == ranges;
  }

  /** Neighbouring ranges could not have been one. */
  ghost predicate Separate(ranges: seq<Range>) {
    && (forall i :: 0 <= i < |ranges| ==> ranges[i].count > 0)
    && (forall i, j :: 0 <= i && j == i + 1 < |ranges| ==> ranges[j].start != ranges[i].start + ranges[i].count)
  }

  /** The ranges so far, with the open one from `start` to `end`, read `addresses`. */
  ghost predicate Reading(ranges: seq<Range>, start: int, end: int, addresses: seq<int>) {
    && start <= end
    && Flattened(ranges) + Covered(Range(start, end - start + 1)) == addresses
    && Separate(ranges)
    && (ranges != [] ==> start != ranges[|ranges| - 1].start + ranges[|ranges| - 1].count)
  }

  lemma Extend(ranges: seq<Range>, start: int, end: int, addresses: seq<int>)
    requires Reading(ranges, start, end, addresses)
    ensures Reading(ranges, start, end + 1, addresses + [end + 1])
  {
    assert Covered(Range(start, end - start + 2)) == Covered(Range(start, end - start + 1)) + [end + 1];
  }

  lemma Close(ranges: seq<Range>, start: int, end: int, addresses: seq<int>)
    requires Reading(ranges, start, end, addresses)
    ensures Flattened(ranges + [Range(start, end - start + 1)]) == addresses
    ensures Separate(ranges + [Range(start, end - start + 1)])
  {
    FlattenedNext(ranges, Range(start, end - start + 1));
  }

  lemma {:induction false} Open(ranges: seq<Range>, x: int, addresses: seq<int>)
    requires Flattened(ranges) == addresses && Separate(ranges)
    requires ranges != [] ==> x != ranges[|ranges| - 1].start + ranges[|ranges| - 1].count
    ensures Reading(ranges, x, x, addresses + [x])
  {
    assert Covered(Range(x, 1)) == [x];
  }

  lemma TakeNext(s: seq<int>, i: nat)
    requires i < |s|
    ensures s[..i] + [s[i]] == s[..i + 1]
  {
  }

  /** One turn of the loop. */
  lemma Advance(ranges: seq<Range>, start: int, end: int, addresses: seq<int>, x: int)
    requires Reading(ranges, start, end, addresses)
    ensures x == end + 1 ==> Reading(ranges, start, x, addresses + [x])
    ensures x != end + 1 ==> Reading(ranges + [Range(start, end - start + 1)], x, x, addresses + [x])
  {
    if x == end + 1 {
      Extend(ranges, start, end, addresses);
    } else {
      Close(ranges, start, end, addresses);
      Open(ranges + [Range(start, end - start + 1)], x, addresses);
    }
  }

  /** The loop of `build_read_ranges`, once the addresses are sorted. */
  method GroupRuns(sorted: seq<int>) returns (ranges: seq<Range>)
    requires sorted != []
    ensures Flattened(ranges) == sorted && Separate(ranges)
  {
    ranges := [];
    var start := sorted[0];
    var end := start;
    ghost var done := sorted[..1];
    Open(ranges, start, []);
    assert done == [] + [start];
    var i := 1;
    while i < |sorted|
      invariant 1 <= i <= |sorted| && done == sorted[..i]
      invariant Reading(ranges, start, end, done)
    {
      var address := sorted[i];
      Advance(ranges, start, end, done, address);
      TakeNext(sorted, i);
      done := done + [address];
      if address == end + 1 {
        end := address;
      } else {
        ranges := ranges + [Range(start, end - start + 1)];
        start := address;
        end := address;
      }
      i := i + 1;
    }
    assert done == sorted;
    Close(ranges, start, end, sorted);
    ranges := ranges + [Range(start, end - start + 1)];
  }

  /** `build_read_ranges`: for any addresses whatever, the reads in order give the sorted address list. */
  method BuildReadRanges(registers: seq<RegisterDef>) returns (ranges: seq<Range>)
    ensures Flattened(ranges) == Sorted(Addresses(registers))
    ensures Separate(ranges)
  {
    if registers == [] {
      return [];
    }
    SortedLength(Addresses(registers));
    ranges := GroupRuns(Sorted(Addresses(registers)));
  }

  lemma SortedLength(s: seq<int>)
    ensures |Sorted(s)| == |s|
  {
    SortedSorts(s);
    assert |multiset(Sorted(s))| == |multiset(s)|;
  }

  // ----- Gaps, and no fewer ranges -----

  predicate Distinct(s: seq<int>) {
    forall i, j :: 0 <= i < j < |s| ==> s[i] != s[j]
  }

  ghost predicate Gapped(ranges: seq<Range>) {
    && (forall i :: 0 <= i < |ranges| ==> ranges[i].count > 0)
    && (forall i, j :: 0 <= i < j < |ranges| ==> ranges[i].start + ranges[i].count < ranges[j].start)
  }

  lemma {:induction false} FlattenedHas(ranges: seq<Range>, i: int, a: int)
    requires 0 <= i < |ranges| && ranges[i].start <= a < ranges[i].start + ranges[i].count
    ensures a in Flattened(ranges)
  {
    var last := |ranges| - 1;
    if i == last {
      assert Covered(ranges[i])[a - ranges[i].start] == a;
    } else {
      FlattenedHas(ranges[..last], i, a);
    }
  }

  lemma {:induction false} FlattenedOnly(ranges: seq<Range>, a: int) returns (i: int)
    requires a in Flattened(ranges)
    ensures 0 <= i < |ranges| && ranges[i].start <= a < ranges[i].start + ranges[i].count
  {
    var last := |ranges| - 1;
    if a in Covered(ranges[last]) {
      i := last;
    } else {
      i := FlattenedOnly(ranges[..last], a);
    }
  }

  lemma NeighboursApart(before: seq<Range>, last: Range)
    requires before != [] && Separate(before + [last])
    requires StrictlyAscending(Flattened(before) + Covered(last))
    ensures before[|before| - 1].start + before[|before| - 1].count < last.start
  {
    var n := |before| - 1;
    var top := before[n].start + before[n].count - 1;
    assert (before + [last])[n] == before[n] && (before + [last])[n + 1] == last;
    FlattenedHas(before, n, top);
    var k :| 0 <= k < |Flattened(before)| && Flattened(before)[k] == top;
    var all := Flattened(before) + Covered(last);
    assert all[k] == top && all[|Flattened(before)|] == last.start;
  }

  lemma GappedNext(before: seq<Range>, last: Range)
    requires Gapped(before) && last.count > 0
    requires before != [] ==> before[|before| - 1].start + before[|before| - 1].count < last.start
    ensures Gapped(before + [last])
  {
  }

  lemma StrictPrefix(s: seq<int>, t: seq<int>)
    requires StrictlyAscending(s + t)
    ensures StrictlyAscending(s)
  {
    forall i, j | 0 <= i < j < |s| ensures s[i] < s[j] {
      assert (s + t)[i] < (s + t)[j];
    }
  }

  /** For distinct addresses, ranges with separate neighbours that read the sorted list leave a gap between any two. */
  lemma {:induction false} GapsAreReal(ranges: seq<Range>)
    requires Separate(ranges) && StrictlyAscending(Flattened(ranges))
    ensures Gapped(ranges)
    decreases |ranges|
  {
    if ranges != [] {
      var before, last := ranges[..|ranges| - 1], ranges[|ranges| - 1];
      assert before + [last] == ranges;
      StrictPrefix(Flattened(before), Covered(last));
      GapsAreReal(before);
      if before != [] {
        NeighboursApart(before, last);
      }
      GappedNext(before, last);
    }
  }

  function Starts(ranges: seq<Range>): set<int> {
    set i | 0 <= i < |ranges| :: ranges[i].start
  }

  function AddressSet(s: seq<int>): set<int> {
    set i | 0 <= i < |s| :: s[i]
  }

  lemma {:induction false} StartsAtMost(ranges: seq<Range>)
    ensures |Starts(ranges)| <= |ranges|
  {
    if ranges == [] {
      assert Starts(ranges) == {};
    } else {
      var before, last := ranges[..|ranges| - 1], ranges[|ranges| - 1];
      StartsAtMost(before);
      assert Starts(ranges) == Starts(before) + {last.start};
    }
  }

  lemma {:induction false} GappedStarts(ranges: seq<Range>)
    requires Gapped(ranges)
    ensures |Starts(ranges)| == |ranges|
  {
    if ranges == [] {
      assert Starts(ranges) == {};
    } else {
      var before, last := ranges[..|ranges| - 1], ranges[|ranges| - 1];
      GappedStarts(before);
      assert Starts(ranges) == Starts(before) + {last.start};
      assert last.start !in Starts(before);
    }
  }

  lemma NothingJustBefore(ranges: seq<Range>, i: int, k: int)
    requires Gapped(ranges) && 0 <= i < |ranges| && 0 <= k < |ranges|
    ensures !(ranges[k].start <= ranges[i].start - 1 < ranges[k].start + ranges[k].count)
  {
  }

  /** Whoever reads the same addresses must start a read where each of these ranges starts. */
  lemma StartsElsewhere(ranges: seq<Range>, others: seq<Range>, i: int)
    requires Gapped(ranges) && 0 <= i < |ranges|
    requires forall a :: a in Flattened(ranges) <==> a in Flattened(others)
    ensures ranges[i].start in Starts(others)
  {
    var a := ranges[i].start;
    FlattenedHas(ranges, i, a);
    var j := FlattenedOnly(others, a);
    if others[j].start != a {
      FlattenedHas(others, j, a - 1);
      var k := FlattenedOnly(ranges, a - 1);
      NothingJustBefore(ranges, i, k);
    }
  }

  /**
   No other way to read the same addresses, in any order and with any overlaps, takes fewer reads than ranges with a
   gap between any two.
   */
  lemma GappedIsFewest(ranges: seq<Range>, others: seq<Range>)
    requires Gapped(ranges)
    requires AddressSet(Flattened(ranges)) == AddressSet(Flattened(others))
    ensures |ranges| <= |others|
  {
    forall a ensures a in Flattened(ranges) <==> a in Flattened(others) {
      InSet(Flattened(ranges), a);
      InSet(Flattened(others), a);
    }
    forall a | a in Starts(ranges) ensures a in Starts(others) {
      var i :| 0 <= i < |ranges| && ranges[i].start == a;
      StartsElsewhere(ranges, others, i);
    }
    SubsetSize(Starts(ranges), Starts(others));
    GappedStarts(ranges);
    StartsAtMost(others);
  }

  lemma InSet(s: seq<int>, a: int)
    ensures a in AddressSet(s) <==> a in s
  {
    if a in s {
      var i :| 0 <= i < |s| && s[i] == a;
      assert s[i] in AddressSet(s);
    }
  }

  lemma SubsetSize(a: set<int>, b: set<int>)
    requires a <= b
    ensures |a| <= |b|
  {
    assert b == a + (b - a);
  }

  /** So for a map with distinct addresses the ranges are ascending, apart, and as few as can be. */
  lemma DistinctMapRanges(registers: seq<RegisterDef>, ranges: seq<Range>, others: seq<Range>)
    requires Distinct(Addresses(registers))
    requires Separate(ranges) && Flattened(ranges) == Sorted(Addresses(registers))
    requires AddressSet(Flattened(others)) == AddressSet(Addresses(registers))
    ensures Gapped(ranges) && |ranges| <= |others|
  {
    var s := Addresses(registers);
    SortedSorts(s);
    DistinctSorted(s);
    GapsAreReal(ranges);
    SameMembers(Sorted(s), s);
    GappedIsFewest(ranges, others);
  }

  lemma SameMembers(s: seq<int>, t: seq<int>)
    requires multiset(s) == multiset(t)
    ensures AddressSet(s) == AddressSet(t)
  {
    forall a ensures a in AddressSet(s) <==> a in AddressSet(t) {
      InSet(s, a);
      InSet(t, a);
      assert a in multiset(s) <==> a in multiset(t);
    }
  }

  lemma InsertHas(s: seq<int>, x: int, a: int)
    ensures a in Insert(s, x) <==> a in s || a == x
  {
    InsertKeeps(s, x);
    assert a in multiset(Insert(s, x)) <==> a in multiset(s) || a == x;
  }

  lemma {:induction false} InsertStrict(s: seq<int>, x: int)
    requires StrictlyAscending(s) && x !in s
    ensures StrictlyAscending(Insert(s, x))
  {
    if s != [] && s[|s| - 1] > x {
      var init, last := s[..|s| - 1], s[|s| - 1];
      InsertStrict(init, x);
      var r := Insert(init, x);
      forall i | 0 <= i < |r| ensures r[i] < last {
        InsertHas(init, x, r[i]);
      }
    } else if s != [] {
      assert s[|s| - 1] in s;
    }
  }

  lemma {:induction false} DistinctSorted(s: seq<int>)
    requires Distinct(s)
    ensures StrictlyAscending(Sorted(s))
  {
    if s != [] {
      var init, last := s[..|s| - 1], s[|s| - 1];
      DistinctSorted(init);
      SortedSorts(init);
      assert last in Sorted(init) <==> last in multiset(init);
      InsertStrict(Sorted(init), last);
    }
  }

  // ----- Polling -----

  /** What the transport gives for one read: the registers, or a Modbus exception code. */
  datatype Reply = Values(registers: seq<nat>) | Exception(code: nat)

  datatype Result = Polled(raw: seq<nat>) | Skipped(code: nat) | Raised(code: nat)

  const DEVICE_FAILURE: nat := 4

  /** The first exception decides, and without one the answers are joined. */
  function Joined(replies: seq<Reply>): seq<nat>
    requires forall i :: 0 <= i < |replies| ==> replies[i].Values?
  {
    if replies == [] then [] else Joined(replies[..|replies| - 1]) + replies[|replies| - 1].registers
  }

  ghost predicate FirstException(replies: seq<Reply>, i: int) {
    0 <= i < |replies| && replies[i].Exception? && forall k :: 0 <= k < i ==> replies[k].Values?
  }

  /** `poll`; `published` is what goes out as `comm_exception`. */
  method PollDevice(ranges: seq<Range>, replies: seq<Reply>) returns (result: Result, published: seq<nat>)
    requires |replies| == |ranges|
    ensures result.Polled? <==> forall i :: 0 <= i < |replies| ==> replies[i].Values?
    ensures result.Polled? ==> result.raw == Joined(replies) && published == []
    ensures !result.Polled? ==> published == [result.code] && exists i :: FirstException(replies, i) && result.code == replies[i].code
    ensures !result.Polled? ==> (result.Raised? <==> result.code >= 4)
  {
    var raw: seq<nat> := [];
    published := [];
    for i := 0 to |ranges|
      invariant forall k :: 0 <= k < i ==> replies[k].Values?
      invariant raw == Joined(replies[..i]) && published == []
    {
      assert replies[..i + 1][..i] == replies[..i];
      match replies[i]
      case Exception(code) =>
        assert FirstException(replies, i);
        published := [code];
        if code >= DEVICE_FAILURE {
          return Raised(code), published;
        }
        return Skipped(code), published;
      case Values(registers) =>
        raw := raw + registers;
    }
    assert replies[..|ranges|] == replies;
    result := Polled(raw);
  }

  /** A device answers a read with its registers. */
  ghost function Answers(device: int -> nat, ranges: seq<Range>): (r: seq<Reply>)
    ensures |r| == |ranges| && forall i :: 0 <= i < |r| ==> r[i] == Values(Valued(device, Covered(ranges[i])))
  {
    seq(|ranges|, i requires 0 <= i < |ranges| => Values(Valued(device, Covered(ranges[i]))))
  }

  ghost function Valued(device: int -> nat, addresses: seq<int>): (r: seq<nat>)
    ensures |r| == |addresses| && forall i :: 0 <= i < |r| ==> r[i] == device(addresses[i])
  {
    seq(|addresses|, i requires 0 <= i < |addresses| => device(addresses[i]))
  }

  lemma {:induction false} JoinedAnswers(device: int -> nat, ranges: seq<Range>)
    ensures Joined(Answers(device, ranges)) == Valued(device, Flattened(ranges))
    decreases |ranges|
  {
    if ranges != [] {
      var before, last := ranges[..|ranges| - 1], ranges[|ranges| - 1];
      JoinedAnswers(device, before);
      assert Answers(device, ranges)[..|before|] == Answers(device, before);
    }
  }

  /** The value at each position of the poll is the register at that position of the map. */
  ghost predicate Aligned(device: int -> nat, registers: seq<RegisterDef>, ranges: seq<Range>) {
    var raw := Joined(Answers(device, ranges));
    |raw| == |registers| && forall i :: 0 <= i < |raw| ==> raw[i] == device(registers[i].address)
  }

  /** For one device, what is read is its registers at the sorted addresses. */
  lemma AlignedForOne(device: int -> nat, registers: seq<RegisterDef>, ranges: seq<Range>, sorted: seq<int>)
    requires Flattened(ranges) == sorted && |sorted| == |registers|
    ensures Aligned(device, registers, ranges) <==>
      forall i :: 0 <= i < |sorted| ==> device(sorted[i]) == device(registers[i].address)
  {
    JoinedAnswers(device, ranges);
  }

  /** A device that answers 1 at one address and 0 elsewhere. */
  ghost function Marker(address: int): int -> nat {
    a => if a == address then 1 else 0
  }

  lemma Misaligned(registers: seq<RegisterDef>, ranges: seq<Range>, sorted: seq<int>, k: nat)
    requires Flattened(ranges) == sorted && |sorted| == |registers|
    requires k < |sorted| && sorted[k] != registers[k].address
    ensures !Aligned(Marker(registers[k].address), registers, ranges)
  {
    var marker := Marker(registers[k].address);
    AlignedForOne(marker, registers, ranges, sorted);
    assert marker(sorted[k]) == 0 && marker(registers[k].address) == 1;
  }

  /**
   Pairing by position is right for every device exactly when the map itself is in ascending order; repeated
   addresses do no harm.
   */
  lemma AlignedIffAscending(registers: seq<RegisterDef>, ranges: seq<Range>)
    requires Flattened(ranges) == Sorted(Addresses(registers))
    ensures (forall device: int -> nat :: Aligned(device, registers, ranges)) <==> Ascending(Addresses(registers))
  {
    var addresses := Addresses(registers);
    var sorted := Sorted(addresses);
    SortedFixed(addresses);
    SortedLength(addresses);
    if sorted == addresses {
      forall device: int -> nat ensures Aligned(device, registers, ranges) {
        AlignedForOne(device, registers, ranges, sorted);
      }
    } else {
      var k :| 0 <= k < |sorted| && sorted[k] != addresses[k];
      Misaligned(registers, ranges, sorted, k);
    }
  }
}
