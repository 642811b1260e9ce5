/**
 Retention of the offline buffer in `buffer.py`: the files in path order, a limit on age and a limit on total size.
 Unlinking is taken to succeed.

 The program works on paths. For the paths it builds itself, sorting and ageing paths is sorting and ageing the hours
 they stand for, and that is how the replay model names the files.
 */
module Retention {
  import opened BufferPaths
  import opened Text
  import opened Wrappers

  /** The hour a file holds, see `BufferPaths.HourNumber`; times are in seconds since the same origin. */
  type Hour = int

  /** `max_hours` and `max_mb`, the latter in bytes. */
  datatype Limits = Limits(maxHours: int, maxBytes: int)

  const SECONDS_PER_HOUR: int := 3600

  ghost predicate Ascending(files: seq<Hour>) {
    forall i, j | 0 <= i < j < |files| :: files[i] < files[j]
  }

  function Size<T>(sizes: map<T, nat>, f: T): nat {
    if f in sizes then sizes[f] else 0
  }

  function Total<T>(files: seq<T>, sizes: map<T, nat>): nat {
    if files == [] then 0 else Size(sizes, files[0]) + Total(files[1..], sizes)
  }

  predicate TooOld(f: Hour, now: int, limits: Limits) {
    now - SECONDS_PER_HOUR * f > SECONDS_PER_HOUR * limits.maxHours
  }

  /** What retention is for: nothing older than the age limit, and no more bytes than the size limit. */
  predicate Fits(files: seq<Hour>, sizes: map<Hour, nat>, now: int, limits: Limits) {
    && (forall i | 0 <= i < |files| :: !TooOld(files[i], now, limits))
    && (files == [] || Total(files, sizes) <= limits.maxBytes)
  }

  /** The longest run of newest files that fits. */
  function Kept(files: seq<Hour>, sizes: map<Hour, nat>, now: int, limits: Limits): seq<Hour> {
    if files == [] || Fits(files, sizes, now, limits) then files else Kept(files[1..], sizes, now, limits)
  }

  lemma {:induction false} KeptIsLongestSuffix(files: seq<Hour>, sizes: map<Hour, nat>, now: int, limits: Limits)
    returns (k: nat)
    ensures k <= |files| && Kept(files, sizes, now, limits) == files[k..]
    ensures Fits(files[k..], sizes, now, limits)
    ensures forall j | 0 <= j < k :: !Fits(files[j..], sizes, now, limits)
  {
    if files == [] || Fits(files, sizes, now, limits) {
      k := 0;
      assert files[0..] == files;
    } else {
      k := KeptIsLongestSuffix(files[1..], sizes, now, limits);
      k := k + 1;
      assert files[1..][k - 1..] == files[k..];
      forall j | 0 <= j < k ensures !Fits(files[j..], sizes, now, limits) {
        if j == 0 {
          assert files[0..] == files;
        } else {
          assert files[1..][j - 1..] == files[j..];
        }
      }
    }
  }

  lemma {:induction false} KeptAfterOld(files: seq<Hour>, sizes: map<Hour, nat>, now: int, limits: Limits, k: nat)
    requires k <= |files| && forall i | 0 <= i < k :: TooOld(files[i], now, limits)
    ensures Kept(files, sizes, now, limits) == Kept(files[k..], sizes, now, limits)
    decreases k
  {
    if k > 0 {
      KeptAfterOld(files[1..], sizes, now, limits, k - 1);
      assert files[1..][k - 1..] == files[k..];
      assert TooOld(files[0], now, limits);
    } else {
      assert files[0..] == files;
    }
  }

  /** With a size limit of zero nothing is left to hold the limit up, so `write` never drops a record. */
  lemma NothingDropped(files: seq<Hour>, sizes: map<Hour, nat>, now: int, limits: Limits)
    requires limits.maxBytes == 0
    ensures Total(Kept(files, sizes, now, limits), sizes) == 0
  {
    var k := KeptIsLongestSuffix(files, sizes, now, limits);
  }

  /** The limits in numbers: what is kept is young and small enough, and one file more would be too old or too much. */
  lemma KeptWithinLimits(files: seq<Hour>, sizes: map<Hour, nat>, now: int, limits: Limits) returns (k: nat)
    ensures k <= |files| && Kept(files, sizes, now, limits) == files[k..]
    ensures forall i | k <= i < |files| :: now - 3600 * files[i] <= 3600 * limits.maxHours
    ensures k < |files| ==> Total(files[k..], sizes) <= limits.maxBytes
    ensures forall j | 0 <= j < k ::
      Total(files[j..], sizes) > limits.maxBytes || exists i :: j <= i < |files| && now - 3600 * files[i] > 3600 * limits.maxHours
  {
    k := KeptIsLongestSuffix(files, sizes, now, limits);
    forall i | k <= i < |files| ensures now - 3600 * files[i] <= 3600 * limits.maxHours {
      assert files[k..][i - k] == files[i];
    }
    forall j | 0 <= j < k
      ensures Total(files[j..], sizes) > limits.maxBytes || exists i :: j <= i < |files| && now - 3600 * files[i] > 3600 * limits.maxHours
    {
      OneMoreDoesNotFit(files, sizes, now, limits, j);
    }
  }

  lemma OneMoreDoesNotFit(files: seq<Hour>, sizes: map<Hour, nat>, now: int, limits: Limits, j: nat)
    requires j <= |files| && !Fits(files[j..], sizes, now, limits)
    ensures Total(files[j..], sizes) > limits.maxBytes || exists i :: j <= i < |files| && now - 3600 * files[i] > 3600 * limits.maxHours
  {
    if Total(files[j..], sizes) <= limits.maxBytes {
      var i :| 0 <= i < |files[j..]| && TooOld(files[j..][i], now, limits);
      assert files[j + i] == files[j..][i];
    }
  }

  /** The total is the sum of the sizes, whatever the order. */
  lemma {:induction false} TotalIsSum<T>(a: seq<T>, b: seq<T>, sizes: map<T, nat>)
    ensures Total(a + b, sizes) == Total(a, sizes) + Total(b, sizes)
    ensures forall f: T :: Total([f], sizes) == if f in sizes then sizes[f] else 0
    decreases |a|
  {
    forall f: T ensures Total([f], sizes) == if f in sizes then sizes[f] else 0 {
      assert [f][1..] == [];
    }
    if a == [] {
      assert a + b == b;
    } else {
      assert (a + b)[1..] == a[1..] + b;
      TotalIsSum(a[1..], b, sizes);
    }
  }

  // ----- Listing the directory -----

  predicate IsLeast(m: Hour, hours: set<Hour>) {
    m in hours && forall h | h in hours :: m <= h
  }

  lemma {:induction false} LeastExists(hours: set<Hour>)
    requires hours != {}
    ensures exists m :: IsLeast(m, hours)
    decreases |hours|
  {
    assert (forall x :: x !in hours) ==> hours == {};
    var x :| x in hours;
    var rest := hours - {x};
    if rest == {} {
      forall h | h in hours ensures x <= h {
        assert h == x || h in rest;
      }
      assert IsLeast(x, hours);
    } else {
      LeastExists(rest);
      var y :| IsLeast(y, rest);
      assert forall h | h in hours :: h == x || h in rest;
      assert IsLeast(if x <= y then x else y, hours);
    }
  }

  /** The hours in order. */
  function Listing(hours: set<Hour>): (files: seq<Hour>)
    ensures Ascending(files)
    ensures forall h :: h in files <==> h in hours
    decreases |hours|
  {
    if hours == {} then [] else
    LeastExists(hours);
    var m :| IsLeast(m, hours);
    var rest := Listing(hours - {m});
    assert forall j | 0 <= j < |rest| :: rest[j] in rest;
    [m] + rest
  }

  lemma ListingStep(hours: set<Hour>, m: Hour)
    requires IsLeast(m, hours)
    ensures Listing(hours) == [m] + Listing(hours - {m})
  {
  }

  // ----- Paths -----

  /** A path the program builds for some hour. */
  predicate Built(p: Path) {
    StampOf(p).Some? && Valid(StampOf(p).value) && p == PathFor(StampOf(p).value)
  }

  /** Every valid hour has such a path. */
  lemma PathForIsBuilt(t: Stamp)
    requires Valid(t)
    ensures Built(PathFor(t)) && HourIn(PathFor(t)) == HourNumber(t)
  {
    PathRoundTrip(t);
  }

  function HourIn(p: Path): Hour
    requires StampOf(p).Some?
  {
    HourNumber(StampOf(p).value)
  }

  ghost predicate AllBuilt(files: seq<Path>) {
    forall i :: 0 <= i < |files| ==> Built(files[i])
  }

  ghost function HoursIn(files: seq<Path>): (hours: seq<Hour>)
    requires AllBuilt(files)
    ensures |hours| == |files| && forall i :: 0 <= i < |hours| ==> hours[i] == HourIn(files[i])
  {
    seq(|files|, i requires 0 <= i < |files| => HourIn(files[i]))
  }

  ghost predicate InPathOrder(files: seq<Path>) {
    forall i, j :: 0 <= i < j < |files| ==> TextBefore(AsPosix(files[i]), AsPosix(files[j]))
  }

  lemma BuiltOrder(p: Path, q: Path)
    requires Built(p) && Built(q) && TextBefore(AsPosix(p), AsPosix(q))
    ensures HourIn(p) < HourIn(q)
  {
    PathOrderIsTimeOrder(StampOf(p).value, StampOf(q).value);
  }

  /** Sorting the program's paths as text sorts the hours. */
  lemma PathOrderAscends(files: seq<Path>)
    requires AllBuilt(files) && InPathOrder(files)
    ensures Ascending(HoursIn(files))
  {
    forall i, j | 0 <= i < j < |files| ensures HourIn(files[i]) < HourIn(files[j]) {
      BuiltOrder(files[i], files[j]);
    }
  }

  ghost predicate IsFirstPath(p: Path, paths: set<Path>) {
    p in paths && forall q :: q in paths ==> !TextBefore(AsPosix(q), AsPosix(p))
  }

  lemma FirstPathExists(paths: set<Path>)
    requires paths != {}
    ensures exists p :: IsFirstPath(p, paths)
  {
    var names := set p | p in paths :: AsPosix(p);
    assert (forall x :: x !in paths) ==> paths == {};
    var x :| x in paths;
    assert AsPosix(x) in names;
    FirstExists(names);
    var name :| IsFirst(name, names);
    var p :| p in paths && AsPosix(p) == name;
    forall q | q in paths ensures !TextBefore(AsPosix(q), AsPosix(p)) {
      assert AsPosix(q) in names;
    }
    assert IsFirstPath(p, paths);
  }

  method PickFirstPath(paths: set<Path>) returns (p: Path)
    requires paths != {}
    ensures IsFirstPath(p, paths)
  {
    FirstPathExists(paths);
    p :| p in paths && forall q | q in paths :: !TextBefore(AsPosix(q), AsPosix(p));
  }

  /** Different paths print differently, as they do on a file system. */
  ghost predicate DistinctNames(paths: set<Path>) {
    forall p, q :: p in paths && q in paths && AsPosix(p) == AsPosix(q) ==> p == q
  }

  /** The files so far, all before those still to come. */
  ghost predicate ListedSoFar(files: seq<Path>, left: set<Path>, paths: set<Path>) {
    && InPathOrder(files)
    && (forall p :: p in paths <==> p in files || p in left)
    && forall i, q :: 0 <= i < |files| && q in left ==> TextBefore(AsPosix(files[i]), AsPosix(q))
  }

  lemma ListNext(files: seq<Path>, left: set<Path>, paths: set<Path>, p: Path)
    requires ListedSoFar(files, left, paths) && left <= paths && DistinctNames(paths) && IsFirstPath(p, left)
    ensures ListedSoFar(files + [p], left - {p}, paths)
  {
    var more := files + [p];
    forall q | q in left - {p} ensures TextBefore(AsPosix(p), AsPosix(q)) {
      TextBeforeTotal(AsPosix(p), AsPosix(q));
    }
    forall q ensures q in paths <==> q in more || q in left - {p} {
      assert q in more <==> q in files || q == p;
    }
  }

  /** `_all_files_sorted` */
  method ListFiles(paths: set<Path>) returns (files: seq<Path>)
    requires DistinctNames(paths)
    ensures InPathOrder(files)
    ensures forall p :: p in files <==> p in paths
  {
    files := [];
    var left := paths;
    while left != {}
      invariant left <= paths && ListedSoFar(files, left, paths)
      decreases left
    {
      var p := PickFirstPath(left);
      ListNext(files, left, paths, p);
      files := files + [p];
      left := left - {p};
    }
  }

  lemma HasMember(s: seq<Hour>)
    ensures |s| > 0 <==> exists h :: h in s
  {
    if |s| > 0 {
      var h := s[0];
      assert h in s;
    }
  }

  lemma {:induction false} AscendingUnique(a: seq<Hour>, b: seq<Hour>)
    requires Ascending(a) && Ascending(b) && forall h :: h in a <==> h in b
    ensures a == b
    decreases |a|
  {
    if a == [] || b == [] {
      HasMember(a);
      HasMember(b);
    } else {
      SameHead(a, b);
      forall h ensures h in a[1..] <==> h in b[1..] {
        assert h in a <==> h == a[0] || h in a[1..];
        assert h in b <==> h == b[0] || h in b[1..];
        assert a[0] !in a[1..] && b[0] !in b[1..];
      }
      AscendingUnique(a[1..], b[1..]);
    }
  }

  lemma SameHead(a: seq<Hour>, b: seq<Hour>)
    requires a != [] && b != []
    requires Ascending(a) && Ascending(b) && forall h :: h in a <==> h in b
    ensures a[0] == b[0]
  {
    assert a[0] in b && b[0] in a;
    assert forall i :: 0 <= i < |a| ==> a[0] <= a[i];
    assert forall i :: 0 <= i < |b| ==> b[0] <= b[i];
  }

  /** The listing of the program's paths is the listing of their hours. */
  lemma ListedHours(paths: set<Path>, files: seq<Path>)
    requires AllBuilt(files) && InPathOrder(files) && forall p :: p in files <==> p in paths
    ensures forall p :: p in paths ==> Built(p)
    ensures HoursIn(files) == Listing(set p | p in paths && Built(p) :: HourIn(p))
  {
    PathOrderAscends(files);
    var hours := set p | p in paths && Built(p) :: HourIn(p);
    forall h ensures h in HoursIn(files) <==> h in hours {
      if h in HoursIn(files) {
        var i :| 0 <= i < |files| && HoursIn(files)[i] == h;
        assert files[i] in paths;
      }
      if h in hours {
        var p :| p in paths && Built(p) && HourIn(p) == h;
        var i :| 0 <= i < |files| && files[i] == p;
        assert HoursIn(files)[i] == h;
      }
    }
    AscendingUnique(HoursIn(files), Listing(hours));
  }

  // ----- Retention on paths -----

  /** A path whose components are no date has no age. */
  predicate PathTooOld(p: Path, now: int, limits: Limits) {
    StampOf(p).Some? && TooOld(HourIn(p), now, limits)
  }

  function AgeTest(now: int, limits: Limits): Path -> bool {
    p => PathTooOld(p, now, limits)
  }

  /** The files that are not too aged, in order. */
  function Young<T>(files: seq<T>, aged: T -> bool): seq<T> {
    if files == [] then []
    else
      var rest := Young(files[..|files| - 1], aged);
      if aged(files[|files| - 1]) then rest else rest + [files[|files| - 1]]
  }

  /** The oldest files dropped until the size limit holds. */
  function Trimmed<T>(files: seq<T>, sizes: map<T, nat>, maxBytes: int): seq<T> {
    if files != [] && Total(files, sizes) > maxBytes then Trimmed(files[1..], sizes, maxBytes) else files
  }

  lemma {:induction false} YoungHas<T>(files: seq<T>, aged: T -> bool, f: T)
    ensures f in Young(files, aged) <==> f in files && !aged(f)
  {
    if files != [] {
      var init, last := files[..|files| - 1], files[|files| - 1];
      YoungHas(init, aged, f);
      assert f in files <==> f in init || f == last;
    }
  }

  /** The age loop spares exactly the files whose name gives no hour, or one within the limit. */
  lemma YoungWithinLimit(files: seq<Path>, now: int, limits: Limits, p: Path)
    ensures p in Young(files, AgeTest(now, limits)) <==>
      p in files && !(StampOf(p).Some? && now - 3600 * HourNumber(StampOf(p).value) > 3600 * limits.maxHours)
  {
    YoungHas(files, AgeTest(now, limits), p);
  }

  function Without<T(==)>(files: seq<T>, f: T): seq<T> {
    if files == [] then [] else if files[0] == f then files[1..] else [files[0]] + Without(files[1..], f)
  }

  lemma {:induction false} WithoutAfter<T>(before: seq<T>, f: T, rest: seq<T>)
    requires f !in before
    ensures Without(before + [f] + rest, f) == before + rest
  {
    var all := before + [f] + rest;
    if before == [] {
      assert all[0] == f && all[1..] == rest;
      assert [] + rest == rest;
    } else {
      assert all[0] == before[0] && all[1..] == before[1..] + [f] + rest;
      WithoutAfter(before[1..], f, rest);
    }
  }

  lemma {:induction false} YoungSubset<T>(files: seq<T>, aged: T -> bool, p: T)
    requires p in Young(files, aged)
    ensures p in files
  {
    if p in Young(files[..|files| - 1], aged) {
      YoungSubset(files[..|files| - 1], aged, p);
    }
  }

  /** No file is listed twice. */
  ghost predicate Distinct<T>(files: seq<T>) {
    forall i, j :: 0 <= i < j < |files| ==> files[i] != files[j]
  }

  lemma OrderedDistinct(files: seq<Path>)
    requires InPathOrder(files)
    ensures Distinct(files)
  {
    forall i, j | 0 <= i < j < |files| ensures files[i] != files[j] {
      TextBeforeIrreflexive(AsPosix(files[i]));
    }
  }

  /** One turn of the age loop: the file is taken out of the list unless it is young. */
  lemma AgeStep<T>(files: seq<T>, aged: T -> bool, i: nat)
    requires i < |files| && Distinct(files)
    ensures
      var left := Young(files[..i], aged) + files[i..];
      Young(files[..i + 1], aged) + files[i + 1..] == if aged(files[i]) then Without(left, files[i]) else left
  {
    var before, f, rest := Young(files[..i], aged), files[i], files[i + 1..];
    assert files[..i + 1][..i] == files[..i] && files[i..] == [f] + rest;
    if aged(f) {
      if f in before {
        YoungSubset(files[..i], aged, f);
      }
      WithoutAfter(before, f, rest);
      assert before + files[i..] == before + [f] + rest;
    } else {
      assert before + [f] + rest == before + files[i..];
    }
  }

  /** The age loop: the list is gone through as it was, the files too old are taken out of it. */
  method DropAged<T(==)>(files: seq<T>, aged: T -> bool) returns (left: seq<T>)
    requires Distinct(files)
    ensures left == Young(files, aged)
  {
    left := files;
    assert Young(files[..0], aged) + files[0..] == files;
    for i := 0 to |files|
      invariant left == Young(files[..i], aged) + files[i..]
    {
      AgeStep(files, aged, i);
      if aged(files[i]) {
        left := Without(left, files[i]);
      }
    }
    assert files[..|files|] == files && files[|files|..] == [];
  }

  /** The size loop. */
  method DropOldest<T>(files: seq<T>, sizes: map<T, nat>, maxBytes: int) returns (left: seq<T>)
    ensures left == Trimmed(files, sizes, maxBytes)
  {
    left := files;
    while left != [] && Total(left, sizes) > maxBytes
      invariant Trimmed(left, sizes, maxBytes) == Trimmed(files, sizes, maxBytes)
    {
      left := left[1..];
    }
  }

  /**
   `_enforce_retention`: first every file past the age limit, wherever it stands, then the oldest until the size limit
   holds.
   */
  method EnforceRetention(files: seq<Path>, sizes: map<Path, nat>, now: int, limits: Limits)
    returns (kept: seq<Path>)
    requires InPathOrder(files)
    ensures kept == Trimmed(Young(files, AgeTest(now, limits)), sizes, limits.maxBytes)
  {
    OrderedDistinct(files);
    kept := DropAged(files, AgeTest(now, limits));
    kept := DropOldest(kept, sizes, limits.maxBytes);
  }

  // ----- For the program's paths the result is the longest suffix that fits -----

  /** When the aged files come first, the age loop leaves a suffix. */
  lemma {:induction false} YoungIsSuffix<T>(files: seq<T>, aged: T -> bool) returns (k: nat)
    requires forall i, j :: 0 <= i < j < |files| && aged(files[j]) ==> aged(files[i])
    ensures k <= |files| && Young(files, aged) == files[k..]
    ensures forall i :: 0 <= i < k ==> aged(files[i])
    ensures forall i :: k <= i < |files| ==> !aged(files[i])
    decreases |files|
  {
    k := 0;
    if files != [] {
      var n := |files| - 1;
      var init := files[..n];
      k := YoungIsSuffix(init, aged);
      if aged(files[n]) {
        assert forall i :: 0 <= i < n ==> aged(init[i]);
        k := n + 1;
      } else {
        assert init[k..] + [files[n]] == files[k..];
      }
    }
  }

  lemma {:induction false} SameTotal<A, B>(a: seq<A>, b: seq<B>, sizesA: map<A, nat>, sizesB: map<B, nat>)
    requires |a| == |b| && forall i :: 0 <= i < |a| ==> Size(sizesA, a[i]) == Size(sizesB, b[i])
    ensures Total(a, sizesA) == Total(b, sizesB)
    decreases |a|
  {
    if a != [] {
      SameTotal(a[1..], b[1..], sizesA, sizesB);
    }
  }

  /** How many of the oldest files go. */
  function Excess<T>(files: seq<T>, sizes: map<T, nat>, maxBytes: int): nat {
    if files != [] && Total(files, sizes) > maxBytes then 1 + Excess(files[1..], sizes, maxBytes) else 0
  }

  lemma {:induction false} TrimmedIsSuffix<T>(files: seq<T>, sizes: map<T, nat>, maxBytes: int)
    ensures Excess(files, sizes, maxBytes) <= |files|
    ensures Trimmed(files, sizes, maxBytes) == files[Excess(files, sizes, maxBytes)..]
    decreases |files|
  {
    if files != [] && Total(files, sizes) > maxBytes {
      var k := Excess(files[1..], sizes, maxBytes);
      TrimmedIsSuffix(files[1..], sizes, maxBytes);
      assert files[1..][k..] == files[k + 1..];
    }
  }

  /** Lists of the same sizes lose as many. */
  lemma {:induction false} SameExcess<A, B>(
      a: seq<A>, b: seq<B>, sizesA: map<A, nat>, sizesB: map<B, nat>, maxBytes: int)
    requires |a| == |b| && forall i :: 0 <= i < |a| ==> Size(sizesA, a[i]) == Size(sizesB, b[i])
    ensures Excess(a, sizesA, maxBytes) == Excess(b, sizesB, maxBytes)
    decreases |a|
  {
    SameTotal(a, b, sizesA, sizesB);
    if a != [] {
      SameExcess(a[1..], b[1..], sizesA, sizesB, maxBytes);
    }
  }

  lemma {:induction false} KeptIsTrimmed(hours: seq<Hour>, sizes: map<Hour, nat>, now: int, limits: Limits)
    requires forall i :: 0 <= i < |hours| ==> !TooOld(hours[i], now, limits)
    ensures Kept(hours, sizes, now, limits) == Trimmed(hours, sizes, limits.maxBytes)
    decreases |hours|
  {
    if hours != [] {
      KeptIsTrimmed(hours[1..], sizes, now, limits);
    }
  }

  lemma SuffixOfSuffix<T>(s: seq<T>, n: nat, k: nat)
    requires n <= |s| && k <= |s| - n
    ensures s[n..][k..] == s[n + k..]
  {
  }

  lemma TrimmedSuffix<T>(files: seq<T>, sizes: map<T, nat>, maxBytes: int, n: nat)
    requires n <= |files|
    ensures n + Excess(files[n..], sizes, maxBytes) <= |files|
    ensures Trimmed(files[n..], sizes, maxBytes) == files[n + Excess(files[n..], sizes, maxBytes)..]
  {
    TrimmedIsSuffix(files[n..], sizes, maxBytes);
    SuffixOfSuffix(files, n, Excess(files[n..], sizes, maxBytes));
  }

  lemma SameExcessFrom<A, B>(
      a: seq<A>, b: seq<B>, sizesA: map<A, nat>, sizesB: map<B, nat>, maxBytes: int, n: nat)
    requires |a| == |b| && forall i :: 0 <= i < |a| ==> Size(sizesA, a[i]) == Size(sizesB, b[i])
    requires n <= |a|
    ensures Excess(a[n..], sizesA, maxBytes) == Excess(b[n..], sizesB, maxBytes)
  {
    SameExcess(a[n..], b[n..], sizesA, sizesB, maxBytes);
  }

  lemma KeptIsTrimmedYoung(hours: seq<Hour>, sizes: map<Hour, nat>, now: int, limits: Limits, n: nat)
    requires n <= |hours|
    requires forall i | 0 <= i < n :: TooOld(hours[i], now, limits)
    requires forall i | n <= i < |hours| :: !TooOld(hours[i], now, limits)
    ensures Kept(hours, sizes, now, limits) == Trimmed(hours[n..], sizes, limits.maxBytes)
  {
    KeptAfterOld(hours, sizes, now, limits, n);
    KeptIsTrimmed(hours[n..], sizes, now, limits);
  }

  /** Files named by ascending hours and tested for age by their hours are aged from the front. */
  lemma AgedFirst<T>(files: seq<T>, hours: seq<Hour>, aged: T -> bool, now: int, limits: Limits)
    requires |files| == |hours| && Ascending(hours)
    requires forall i :: 0 <= i < |files| ==> aged(files[i]) == TooOld(hours[i], now, limits)
    ensures forall i, j :: 0 <= i < j < |files| && aged(files[j]) ==> aged(files[i])
  {
    forall i, j | 0 <= i < j < |files| && aged(files[j]) ensures aged(files[i]) {
      assert hours[i] < hours[j];
    }
  }

  /** The two loops leave the files of the longest suffix of the hours that fits. */
  lemma RetentionIsKept<T>(files: seq<T>, hours: seq<Hour>, aged: T -> bool, sizes: map<T, nat>, byHour: map<Hour, nat>,
                           now: int, limits: Limits)
    returns (k: nat)
    requires |files| == |hours| && Ascending(hours)
    requires forall i :: 0 <= i < |files| ==> aged(files[i]) == TooOld(hours[i], now, limits)
    requires forall i :: 0 <= i < |files| ==> Size(sizes, files[i]) == Size(byHour, hours[i])
    ensures k <= |files| && Trimmed(Young(files, aged), sizes, limits.maxBytes) == files[k..]
    ensures hours[k..] == Kept(hours, byHour, now, limits)
  {
    AgedFirst(files, hours, aged, now, limits);
    var n := YoungIsSuffix(files, aged);
    KeptIsTrimmedYoung(hours, byHour, now, limits, n);
    SameExcessFrom(files, hours, sizes, byHour, limits.maxBytes, n);
    TrimmedSuffix(files, sizes, limits.maxBytes, n);
    TrimmedSuffix(hours, byHour, limits.maxBytes, n);
    k := n + Excess(files[n..], sizes, limits.maxBytes);
  }

  /**
   On the program's own paths, with the age of each read back from the path, the two loops together leave a suffix of
   the list, and its hours are the longest suffix of the hours that fits both limits.
   */
  lemma PathRetentionIsKept(
      files: seq<Path>, sizes: map<Path, nat>, byHour: map<Hour, nat>, now: int, limits: Limits)
    returns (k: nat)
    requires AllBuilt(files) && InPathOrder(files)
    requires forall i :: 0 <= i < |files| ==> Size(sizes, files[i]) == Size(byHour, HoursIn(files)[i])
    ensures k <= |files| && Trimmed(Young(files, AgeTest(now, limits)), sizes, limits.maxBytes) == files[k..]
    ensures HoursIn(files)[k..] == Kept(HoursIn(files), byHour, now, limits)
  {
    PathOrderAscends(files);
    k := RetentionIsKept(files, HoursIn(files), AgeTest(now, limits), sizes, byHour, now, limits);
  }
}
