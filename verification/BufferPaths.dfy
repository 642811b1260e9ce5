/**
 The layout of the offline buffer in `buffer.py`: one file an hour under YYYY/MM/DD/cloud_HH.jsonl.
 Sorting the paths as text is what puts the files in time order, and reading the components back
 is what gives a file its age.
 */
module BufferPaths {
  import opened Text
  import opened Wrappers

  // ----- Hours of the proleptic Gregorian calendar, as `datetime` counts them -----

  datatype Stamp = Stamp(year: nat, month: nat, day: nat, hour: nat)

  predicate Leap(year: nat) {
    year % 4 == 0 && (year % 100 != 0 || year % 400 == 0)
  }

  function DaysIn(year: nat, month: nat): nat {
    if month == 2 then (if Leap(year) then 29 else 28)
    else if month == 4 || month == 6 || month == 9 || month == 11 then 30
    else 31
  }

  /** What the `datetime` constructor accepts. */
  predicate OnCalendar(s: Stamp) {
    && 1 <= s.year <= 9999
    && 1 <= s.month <= 12
    && 1 <= s.day <= DaysIn(s.year, s.month)
    && s.hour < 24
  }

  /** The hours whose year prints with four digits. */
  predicate Valid(s: Stamp) {
    OnCalendar(s) && s.year >= 1000
  }

  function DaysBeforeYear(year: nat): int {
    var y := year - 1;
    365 * y + y / 4 - y / 100 + y / 400
  }

  function DaysBeforeMonth(year: nat, month: nat): nat {
    if month <= 1 then 0 else DaysBeforeMonth(year, month - 1) + DaysIn(year, month - 1)
  }

  /** Hours since the start of year 1. */
  function HourNumber(s: Stamp): int {
    24 * (DaysBeforeYear(s.year) + DaysBeforeMonth(s.year, s.month) + s.day - 1) + s.hour
  }

  predicate Earlier(s: Stamp, t: Stamp) {
    s.year < t.year || (s.year == t.year && (
    s.month < t.month || (s.month == t.month && (
    s.day < t.day || (s.day == t.day && s.hour < t.hour)))))
  }

  lemma YearLength(year: nat)
    requires year >= 1
    ensures DaysBeforeYear(year + 1) == DaysBeforeYear(year) + (if Leap(year) then 366 else 365)
  {
    CountMultiples(year);
    NestedMultiples(year);
  }

  lemma NestedMultiples(n: nat)
    ensures n % 400 == 0 ==> n % 100 == 0
    ensures n % 100 == 0 ==> n % 4 == 0
  {
    Multiple(4 * (n / 400));
    Multiple(25 * (n / 100));
  }

  lemma Multiple(k: nat)
    ensures (100 * k) % 100 == 0 && (4 * k) % 4 == 0
  {
  }

  lemma CountMultiples(n: nat)
    requires n >= 1
    ensures n / 4 == (n - 1) / 4 + (if n % 4 == 0 then 1 else 0)
    ensures n / 100 == (n - 1) / 100 + (if n % 100 == 0 then 1 else 0)
    ensures n / 400 == (n - 1) / 400 + (if n % 400 == 0 then 1 else 0)
  {
  }

  lemma {:induction false} YearsGrow(y: nat, z: nat)
    requires 1 <= y < z
    ensures DaysBeforeYear(y) + (if Leap(y) then 366 else 365) <= DaysBeforeYear(z)
    decreases z
  {
    YearLength(z - 1);
    if y < z - 1 {
      YearsGrow(y, z - 1);
    }
  }

  lemma {:induction false} MonthsGrow(year: nat, m: nat, n: nat)
    requires 1 <= m < n
    ensures DaysBeforeMonth(year, m) + DaysIn(year, m) <= DaysBeforeMonth(year, n)
    decreases n
  {
    if m < n - 1 {
      MonthsGrow(year, m, n - 1);
    }
  }

  lemma MonthsFill(year: nat)
    ensures DaysBeforeMonth(year, 13) == if Leap(year) then 366 else 365
  {
    var feb := DaysIn(year, 2);
    assert DaysBeforeMonth(year, 2) == 31;
    assert DaysBeforeMonth(year, 3) == 31 + feb;
    assert DaysBeforeMonth(year, 4) == 62 + feb;
    assert DaysBeforeMonth(year, 5) == 92 + feb;
    assert DaysBeforeMonth(year, 6) == 123 + feb;
    assert DaysBeforeMonth(year, 7) == 153 + feb;
    assert DaysBeforeMonth(year, 8) == 184 + feb;
    assert DaysBeforeMonth(year, 9) == 215 + feb;
    assert DaysBeforeMonth(year, 10) == 245 + feb;
    assert DaysBeforeMonth(year, 11) == 276 + feb;
    assert DaysBeforeMonth(year, 12) == 306 + feb;
  }

  lemma DayWithinYear(s: Stamp)
    requires OnCalendar(s)
    ensures DaysBeforeMonth(s.year, s.month) + s.day <= if Leap(s.year) then 366 else 365
  {
    MonthsFill(s.year);
    MonthsGrow(s.year, s.month, 13);
  }

  lemma EarlierHasSmallerNumber(s: Stamp, t: Stamp)
    requires OnCalendar(s) && OnCalendar(t) && Earlier(s, t)
    ensures HourNumber(s) < HourNumber(t)
  {
    if s.year < t.year {
      YearsGrow(s.year, t.year);
      DayWithinYear(s);
    } else if s.month < t.month {
      MonthsGrow(s.year, s.month, t.month);
    }
  }

  /** One hour on, by the calendar. */
  function NextHour(s: Stamp): Stamp {
    if s.hour < 23 then s.(hour := s.hour + 1)
    else if s.day < DaysIn(s.year, s.month) then Stamp(s.year, s.month, s.day + 1, 0)
    else if s.month < 12 then Stamp(s.year, s.month + 1, 1, 0)
    else Stamp(s.year + 1, 1, 1, 0)
  }

  /** Across days, months and years the next hour has the next number. */
  lemma NextHourCountsOne(s: Stamp)
    requires OnCalendar(s)
    ensures HourNumber(NextHour(s)) == HourNumber(s) + 1
    ensures OnCalendar(NextHour(s)) <==> s != Stamp(9999, 12, 31, 23)
  {
    if s.hour == 23 && s.day == DaysIn(s.year, s.month) {
      if s.month == 12 {
        YearTurns(s.year);
      } else {
        MonthTurns(s.year, s.month);
      }
    }
  }

  lemma MonthTurns(year: nat, month: nat)
    requires 1 <= month < 12
    ensures HourNumber(Stamp(year, month + 1, 1, 0)) == HourNumber(Stamp(year, month, DaysIn(year, month), 23)) + 1
  {
  }

  lemma YearTurns(year: nat)
    requires year >= 1
    ensures HourNumber(Stamp(year + 1, 1, 1, 0)) == HourNumber(Stamp(year, 12, DaysIn(year, 12), 23)) + 1
  {
    MonthsFill(year);
    YearLength(year);
  }

  /** The Unix epoch is 719162 days into the calendar. */
  lemma EpochAnchor()
    ensures HourNumber(Stamp(1970, 1, 1, 0)) == 24 * 719162
  {
    assert DaysBeforeMonth(1970, 1) == 0;
  }

  /** The leap rule repeats after 400 years. */
  lemma CycleOf400Years(year: nat)
    requires year >= 1
    ensures DaysBeforeYear(year + 400) == DaysBeforeYear(year) + 146097
  {
    CycleCounts(year - 1);
  }

  lemma CycleCounts(n: nat)
    ensures (n + 400) / 4 == n / 4 + 100 && (n + 400) / 100 == n / 100 + 4 && (n + 400) / 400 == n / 400 + 1
  {
  }

  /** Thirty days in four months, 31 in seven, and the leap rule for February. */
  lemma MonthLengths(year: nat)
    ensures DaysIn(year, 2) == (if year % 400 == 0 then 29 else if year % 100 == 0 then 28 else if year % 4 == 0 then 29 else 28)
    ensures forall m :: m in {4, 6, 9, 11} ==> DaysIn(year, m) == 30
    ensures forall m :: m in {1, 3, 5, 7, 8, 10, 12} ==> DaysIn(year, m) == 31
  {
    NestedMultiples(year);
  }

  // ----- Paths -----

  /** The path components below the buffer directory. */
  type Path = seq<string>

  function Digit(n: nat): char
    requires n < 10
  {
    ('0' as int + n) as char
  }

  function TwoDigits(n: nat): string
    requires n < 100
  {
    [Digit(n / 10), Digit(n % 10)]
  }

  /** `_current_file_path_for` */
  function PathFor(s: Stamp): Path
    requires Valid(s)
  {
    [ TwoDigits(s.year / 100) + TwoDigits(s.year % 100),
      TwoDigits(s.month),
      TwoDigits(s.day),
      "cloud_" + TwoDigits(s.hour) + ".jsonl" ]
  }

  /** `as_posix` */
  function AsPosix(path: Path): string {
    if path == [] then ""
    else if |path| == 1 then path[0]
    else path[0] + "/" + AsPosix(path[1..])
  }

  /** `int` on a component; only plain decimal digits are modelled. */
  function ParseInt(s: string): Option<nat> {
    if s == "" then None else ParseFrom(0, s)
  }

  function ParseFrom(acc: nat, s: string): Option<nat>
    decreases |s|
  {
    if s == "" then Some(acc)
    else if '0' <= s[0] <= '9' then ParseFrom(10 * acc + (s[0] as int - '0' as int), s[1..])
    else None
  }

  function UpTo(s: string, c: char): string {
    if s == "" || s[0] == c then "" else [s[0]] + UpTo(s[1..], c)
  }

  /** The text up to the first separator, or all of it. */
  lemma {:induction false} UpToFirst(s: string, c: char)
    ensures UpTo(s, c) <= s && c !in UpTo(s, c)
    ensures UpTo(s, c) == s || s[|UpTo(s, c)|] == c
  {
    if s != "" && s[0] != c {
      UpToFirst(s[1..], c);
    }
  }

  /** `_file_datetime_from_path` on a path that matches `cloud_*.jsonl` */
  function StampOf(path: Path): (r: Option<Stamp>)
    ensures r.Some? ==> OnCalendar(r.value)
  {
    if |path| < 4 || |path[3]| < 12 then None
    else
      var stem := path[3][..|path[3]| - 6];
      match (ParseInt(path[0]), ParseInt(path[1]), ParseInt(path[2]), ParseInt(UpTo(stem[6..], '_')))
      case (Some(y), Some(m), Some(d), Some(h)) =>
        var s := Stamp(y, m, d, h);
        if OnCalendar(s) then Some(s) else None
      case _ => None
  }

  lemma ParseTwoMore(acc: nat, n: nat, rest: string)
    requires n < 100
    ensures ParseFrom(acc, TwoDigits(n) + rest) == ParseFrom(100 * acc + n, rest)
  {
    var s := TwoDigits(n) + rest;
    assert s[1..] == [Digit(n % 10)] + rest && s[1..][1..] == rest;
    assert ParseFrom(acc, s) == ParseFrom(10 * acc + n / 10, s[1..]);
  }

  lemma ParseTwoDigits(n: nat)
    requires n < 100
    ensures ParseInt(TwoDigits(n)) == Some(n)
  {
    ParseTwoMore(0, n, "");
    assert TwoDigits(n) + "" == TwoDigits(n);
  }

  lemma ParseFourDigits(n: nat)
    requires n < 10000
    ensures ParseInt(TwoDigits(n / 100) + TwoDigits(n % 100)) == Some(n)
  {
    ParseTwoMore(0, n / 100, TwoDigits(n % 100));
    ParseTwoMore(n / 100, n % 100, "");
    assert TwoDigits(n % 100) + "" == TwoDigits(n % 100);
  }

  lemma UpToNone(s: string, c: char)
    requires c !in s
    ensures UpTo(s, c) == s
  {
    UpToFirst(s, c);
  }

  lemma HourOfName(hour: nat)
    requires hour < 24
    ensures
      var name := "cloud_" + TwoDigits(hour) + ".jsonl";
      |name| == 14 && ParseInt(UpTo(name[..|name| - 6][6..], '_')) == Some(hour)
  {
    var two := TwoDigits(hour);
    var name := "cloud_" + two + ".jsonl";
    assert name[..|name| - 6][6..] == two;
    UpToNone(two, '_');
    ParseTwoDigits(hour);
  }

  /** Parsing a path gives back the hour it was built for. */
  lemma PathRoundTrip(s: Stamp)
    requires Valid(s)
    ensures StampOf(PathFor(s)) == Some(s)
  {
    ParseFourDigits(s.year);
    ParseTwoDigits(s.month);
    ParseTwoDigits(s.day);
    HourOfName(s.hour);
  }

  lemma DigitsLook()
    ensures TwoDigits(20) == "20" && TwoDigits(24) == "24" && TwoDigits(3) == "03" && TwoDigits(5) == "05"
    ensures TwoDigits(9) == "09"
  {
  }

  lemma NameLooks(two: string)
    requires two == "09"
    ensures "cloud_" + two + ".jsonl" == "cloud_09.jsonl"
  {
    assert "cloud_" + two == "cloud_09";
  }

  /** What the components of a path look like. */
  lemma PathLooksLike()
    ensures PathFor(Stamp(2024, 3, 5, 9)) == ["2024", "03", "05", "cloud_09.jsonl"]
  {
    DigitsLook();
    NameLooks(TwoDigits(9));
    assert "20" + "24" == "2024";
  }

  /** And how they are joined. */
  lemma PosixLooksLike(a: string, b: string, c: string, d: string)
    ensures AsPosix([a, b, c, d]) == a + "/" + b + "/" + c + "/" + d
  {
    PosixOfFour(a, b, c, d);
    assert "/" + (c + ("/" + d)) == "/" + c + "/" + d;
    assert "/" + (b + ("/" + c + "/" + d)) == "/" + b + "/" + c + "/" + d;
    assert a + ("/" + b + "/" + c + "/" + d) == a + "/" + b + "/" + c + "/" + d;
  }

  // ----- Text order is time order -----

  lemma TextBeforeTwoDigits(m: nat, n: nat)
    requires m < 100 && n < 100
    ensures TextBefore(TwoDigits(m), TwoDigits(n)) <==> m < n
    ensures TwoDigits(m) == TwoDigits(n) <==> m == n
  {
    var a, b := TwoDigits(m), TwoDigits(n);
    assert a[1..][1..] == "" && b[1..][1..] == "";
    assert TextBefore(a[1..], b[1..]) <==> m % 10 < n % 10;
  }

  /** Two fields of the path: fixed-width numbers compare first, the rest breaks ties. */
  lemma TextBeforeField(m: nat, n: nat, x: string, y: string)
    requires m < 100 && n < 100
    ensures TextBefore(TwoDigits(m) + x, TwoDigits(n) + y) <==> m < n || (m == n && TextBefore(x, y))
  {
    TextBeforeConcat(TwoDigits(m), TwoDigits(n), x, y);
    TextBeforeTwoDigits(m, n);
  }

  function AfterDay(s: Stamp): string
    requires Valid(s)
  {
    "/cloud_" + (TwoDigits(s.hour) + ".jsonl")
  }

  function AfterMonth(s: Stamp): string
    requires Valid(s)
  {
    "/" + (TwoDigits(s.day) + AfterDay(s))
  }

  function AfterYear(s: Stamp): string
    requires Valid(s)
  {
    "/" + (TwoDigits(s.month) + AfterMonth(s))
  }

  lemma PosixOfFour(a: string, b: string, c: string, d: string)
    ensures AsPosix([a, b, c, d]) == a + ("/" + (b + ("/" + (c + ("/" + d)))))
  {
    assert [a, b, c, d][1..] == [b, c, d] && [b, c, d][1..] == [c, d] && [c, d][1..] == [d];
    assert AsPosix([c, d]) == c + ("/" + AsPosix([d])) == c + ("/" + d);
    assert AsPosix([b, c, d]) == b + ("/" + AsPosix([c, d]));
    assert AsPosix([a, b, c, d]) == a + ("/" + AsPosix([b, c, d]));
  }

  lemma PosixFields(s: Stamp)
    requires Valid(s)
    ensures AsPosix(PathFor(s)) == TwoDigits(s.year / 100) + (TwoDigits(s.year % 100) + AfterYear(s))
  {
    var p := PathFor(s);
    PosixOfFour(p[0], p[1], p[2], p[3]);
    assert p == [p[0], p[1], p[2], p[3]];
    assert "/" + p[3] == AfterDay(s);
    assert p[0] + AfterYear(s) == TwoDigits(s.year / 100) + (TwoDigits(s.year % 100) + AfterYear(s));
  }

  lemma PathOrderIsEarlier(s: Stamp, t: Stamp)
    requires Valid(s) && Valid(t)
    ensures TextBefore(AsPosix(PathFor(s)), AsPosix(PathFor(t))) <==> Earlier(s, t)
  {
    PosixFields(s);
    PosixFields(t);
    TextBeforeField(s.year / 100, t.year / 100, TwoDigits(s.year % 100) + AfterYear(s), TwoDigits(t.year % 100) + AfterYear(t));
    TextBeforeField(s.year % 100, t.year % 100, AfterYear(s), AfterYear(t));
    TextBeforePrefix("/", TwoDigits(s.month) + AfterMonth(s), TwoDigits(t.month) + AfterMonth(t));
    TextBeforeField(s.month, t.month, AfterMonth(s), AfterMonth(t));
    TextBeforePrefix("/", TwoDigits(s.day) + AfterDay(s), TwoDigits(t.day) + AfterDay(t));
    TextBeforeField(s.day, t.day, AfterDay(s), AfterDay(t));
    TextBeforePrefix("/cloud_", TwoDigits(s.hour) + ".jsonl", TwoDigits(t.hour) + ".jsonl");
    TextBeforeField(s.hour, t.hour, ".jsonl", ".jsonl");
    TextBeforeIrreflexive(".jsonl");
  }

  /** Sorting the paths as text sorts the files by the hour they hold. */
  lemma PathOrderIsTimeOrder(s: Stamp, t: Stamp)
    requires Valid(s) && Valid(t)
    ensures TextBefore(AsPosix(PathFor(s)), AsPosix(PathFor(t))) <==> HourNumber(s) < HourNumber(t)
  {
    PathOrderIsEarlier(s, t);
    if Earlier(s, t) {
      EarlierHasSmallerNumber(s, t);
    } else if Earlier(t, s) {
      EarlierHasSmallerNumber(t, s);
    } else {
      assert s == t;
    }
  }
}
