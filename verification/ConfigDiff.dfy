/**
 The configuration diff of `manager.py` (`_compute_diff`) and the look-up of dotted paths (`get_value`).

 A value that is not a dict is a token, two tokens being equal when the program finds the values equal.
 */
module ConfigDiff {
  import opened Text
  import opened Wrappers

  datatype Value = Leaf(token: int) | Dict(entries: map<string, Value>)

  type Config = map<string, Value>

  type Path = seq<string>

  datatype Entry = Added(value: Value) | Removed(value: Value) | Changed(before: Value, after: Value)

  /** The three sections, each by dotted path. */
  datatype Diff = Diff(changed: map<string, (Value, Value)>, added: map<string, Value>, removed: map<string, Value>)

  predicate Holds(d: Diff, key: string, e: Entry) {
    match e
    case Added(v) => key in d.added && d.added[key] == v
    case Removed(v) => key in d.removed && d.removed[key] == v
    case Changed(v, w) => key in d.changed && d.changed[key] == (v, w)
  }

  // ----- Dotted paths -----

  function Dotted(p: Path): string {
    if p == [] then "" else if |p| == 1 then p[0] else p[0] + "." + Dotted(p[1..])
  }

  /** The path of a key under a prefix, as the program builds it. */
  function Extended(prefix: string, key: string): string {
    if prefix == "" then prefix + key else prefix + "." + key
  }

  predicate DotFree(key: string) {
    '.' !in key
  }

  predicate DotFreePath(p: Path) {
    forall i :: 0 <= i < |p| ==> DotFree(p[i])
  }

  /** The library's `split(".")`. */
  function Split(s: string): (p: Path)
    ensures p != []
  {
    if s == "" then [""]
    else
      var rest := Split(s[1..]);
      if s[0] == '.' then [""] + rest else [[s[0]] + rest[0]] + rest[1..]
  }

  lemma {:induction false} SplitPlain(s: string)
    requires DotFree(s)
    ensures Split(s) == [s]
  {
    if s != "" {
      SplitPlain(s[1..]);
      assert [s[0]] + s[1..] == s;
    }
  }

  lemma {:induction false} SplitAtDot(s: string, t: string)
    requires DotFree(s)
    ensures Split(s + "." + t) == [s] + Split(t)
  {
    if s == "" {
      assert (s + "." + t)[1..] == t;
    } else {
      SplitAtDot(s[1..], t);
      assert (s + "." + t)[1..] == s[1..] + "." + t;
      assert [s[0]] + s[1..] == s;
    }
  }

  lemma {:induction false} SplitIsDotFree(s: string)
    ensures DotFreePath(Split(s))
  {
    if s != "" {
      SplitIsDotFree(s[1..]);
    }
  }

  lemma {:induction false} SplitDotted(p: Path)
    requires p != [] && DotFreePath(p)
    ensures Split(Dotted(p)) == p
  {
    if |p| == 1 {
      SplitPlain(p[0]);
    } else {
      SplitDotted(p[1..]);
      SplitAtDot(p[0], Dotted(p[1..]));
    }
  }

  /** Splitting a dotted path gives back its keys exactly when no key has a dot in it. */
  lemma SplitDottedIff(p: Path)
    requires p != []
    ensures Split(Dotted(p)) == p <==> DotFreePath(p)
  {
    SplitIsDotFree(Dotted(p));
    if DotFreePath(p) {
      SplitDotted(p);
    }
  }

  /** So two paths without dots in their keys have the same dotted form only if they are the same. */
  lemma DottedInjective(p: Path, q: Path)
    requires p != [] && q != [] && DotFreePath(p) && DotFreePath(q) && Dotted(p) == Dotted(q)
    ensures p == q
  {
    SplitDotted(p);
    SplitDotted(q);
  }

  lemma {:induction false} DottedSnoc(p: Path, key: string)
    requires p != []
    ensures Dotted(p + [key]) == Dotted(p) + "." + key
  {
    if |p| == 1 {
      assert (p + [key])[1..] == [key];
    } else {
      assert (p + [key])[1..] == p[1..] + [key];
      DottedSnoc(p[1..], key);
    }
  }

  /** What the program builds for a key is its dotted path, unless the keys above it are the empty key alone. */
  lemma ExtendedIsDotted(p: Path, key: string)
    ensures Extended(Dotted(p), key) == Dotted(p + [key]) <==> p != [""]
  {
    if p == [] {
      assert p + [key] == [key];
    } else {
      DottedSnoc(p, key);
    }
  }

  // ----- What is reported where -----

  predicate BothDicts(v: Value, w: Value) {
    v.Dict? && w.Dict?
  }

  /** What the diff says of a path. */
  function Report(was: Config, now: Config, p: Path): Option<Entry>
    decreases |p|
  {
    if p == [] then None
    else
      var k := p[0];
      if k !in was then if k in now && |p| == 1 then Some(Added(now[k])) else None
      else if k !in now then if |p| == 1 then Some(Removed(was[k])) else None
      else if BothDicts(was[k], now[k]) then Report(was[k].entries, now[k].entries, p[1..])
      else if |p| == 1 && was[k] != now[k] then Some(Changed(was[k], now[k])) else None
  }

  /** The walk of `get_value`; `None` is its `KeyError`. */
  function Lookup(v: Value, p: Path): Option<Value> {
    if p == [] then Some(v)
    else
      var k := p[0];
      if v.Dict? && k in v.entries then Lookup(v.entries[k], p[1..]) else None
  }

  predicate IsDict(v: Option<Value>) {
    v.Some? && v.value.Dict?
  }

  /**
   What a report means, by look-ups alone: a dict on both sides down to the parent, and then a value on one side only,
   or different values that are not both dicts.
   */
  lemma {:induction false} ReportByLookup(was: Config, now: Config, p: Path, e: Entry)
    ensures Report(was, now, p) == Some(e) <==>
      && p != []
      && IsDict(Lookup(Dict(was), p[..|p| - 1])) && IsDict(Lookup(Dict(now), p[..|p| - 1]))
      && match e {
           case Added(w) => Lookup(Dict(was), p) == None && Lookup(Dict(now), p) == Some(w)
           case Removed(v) => Lookup(Dict(was), p) == Some(v) && Lookup(Dict(now), p) == None
           case Changed(v, w) =>
             Lookup(Dict(was), p) == Some(v) && Lookup(Dict(now), p) == Some(w) && v != w && !BothDicts(v, w)
         }
    decreases |p|
  {
    if p != [] {
      var k := p[0];
      if |p| == 1 {
        assert p[..0] == [] && p[1..] == [];
        assert Lookup(Dict(was), p) == if k in was then Some(was[k]) else None;
        assert Lookup(Dict(now), p) == if k in now then Some(now[k]) else None;
      } else {
        assert p[..|p| - 1][0] == k && p[..|p| - 1][1..] == p[1..][..|p| - 2];
        if k in was && k in now && BothDicts(was[k], now[k]) {
          ReportByLookup(was[k].entries, now[k].entries, p[1..], e);
        }
      }
    }
  }

  /** No reported path lies below another. */
  lemma {:induction false} ReportPrefixFree(was: Config, now: Config, p: Path, q: Path)
    requires Report(was, now, p).Some? && p < q
    ensures Report(was, now, q) == None
    decreases |p|
  {
    var k := p[0];
    if |p| > 1 {
      assert p[1..] < q[1..];
      ReportPrefixFree(was[k].entries, now[k].entries, p[1..], q[1..]);
    }
  }

  lemma {:induction false} SameReportsNothing(m: Config, p: Path)
    ensures Report(m, m, p) == None
    decreases |p|
  {
    if p != [] {
      var k := p[0];
      if k in m && m[k].Dict? {
        SameReportsNothing(m[k].entries, p[1..]);
      }
    }
  }

  ghost predicate NoReport(was: Config, now: Config) {
    forall p: Path :: Report(was, now, p) == None
  }

  lemma {:induction false} NothingReportedSame(was: Config, now: Config)
    requires NoReport(was, now)
    ensures was == now
    decreases Dict(was)
  {
    forall k: string ensures (k in was <==> k in now) && (k in was ==> was[k] == now[k]) {
      assert Report(was, now, [k]) == None;
      if k in was && k in now && BothDicts(was[k], now[k]) {
        var v, w := was[k].entries, now[k].entries;
        forall q: Path ensures Report(v, w, q) == None {
          assert ([k] + q)[1..] == q;
          assert Report(was, now, [k] + q) == None;
        }
        NothingReportedSame(v, w);
      }
    }
  }

  /** The diff is empty exactly when nothing has changed. */
  lemma EmptyIffEqual(was: Config, now: Config)
    ensures NoReport(was, now) <==> was == now
  {
    if NoReport(was, now) {
      NothingReportedSame(was, now);
    }
    if was == now {
      forall p: Path ensures Report(was, now, p) == None {
        SameReportsNothing(was, p);
      }
    }
  }

  // ----- The diff is a patch -----

  /** One entry carried out. */
  function Write(m: Config, p: Path, e: Entry): Config
    decreases |p|
  {
    if p == [] then m
    else
      var k := p[0];
      if |p| == 1 then
        match e
        case Added(v) => m[k := v]
        case Removed(_) => m - {k}
        case Changed(_, v) => m[k := v]
      else if k in m && m[k].Dict? then m[k := Dict(Write(m[k].entries, p[1..], e))]
      else m
  }

  /** Carrying out a reported entry settles it, and changes no other report. */
  lemma {:induction false} WriteSettles(was: Config, now: Config, p: Path, e: Entry, q: Path)
    requires Report(was, now, p) == Some(e)
    ensures Report(Write(was, p, e), now, q) == if q == p then None else Report(was, now, q)
    decreases |p|
  {
    var k := p[0];
    if q != [] && q[0] == k {
      if |p| == 1 {
        if k in now && now[k].Dict? {
          SameReportsNothing(now[k].entries, q[1..]);
        }
        assert p == [k];
        assert |q| == 1 ==> q == [k];
      } else {
        WriteSettles(was[k].entries, now[k].entries, p[1..], e, q[1..]);
        assert q == [k] + q[1..] && p == [k] + p[1..];
      }
    }
  }

  // ----- The three sections -----

  /** No key on any level has a dot in it. */
  predicate DotFreeTree(m: Config)
    decreases Dict(m)
  {
    forall k :: k in m ==> DotFree(k) && (m[k].Dict? ==> DotFreeTree(m[k].entries))
  }

  /** So are reported paths. */
  lemma {:induction false} ReportedIsDotFree(was: Config, now: Config, p: Path)
    requires DotFreeTree(was) && DotFreeTree(now) && Report(was, now, p).Some?
    ensures p != [] && DotFreePath(p)
    decreases |p|
  {
    var k := p[0];
    if |p| > 1 {
      ReportedIsDotFree(was[k].entries, now[k].entries, p[1..]);
      assert p == [k] + p[1..];
    }
  }

  /** The entry is reported at a path whose first key is in `keys` and whose dotted form, below `at`, is `key`. */
  ghost predicate ReportedAs(was: Config, now: Config, at: Path, keys: set<string>, key: string, e: Entry) {
    exists p: Path :: p != [] && p[0] in keys && key == Dotted(at + p) && Report(was, now, p) == Some(e)
  }

  /** The sections hold exactly what is reported, each entry under its dotted path. */
  ghost predicate Describes(d: Diff, was: Config, now: Config, at: Path, keys: set<string>) {
    forall key: string, e: Entry :: Holds(d, key, e) <==> ReportedAs(was, now, at, keys, key, e)
  }

  function Merged(d: Diff, sub: Diff): Diff {
    Diff(d.changed + sub.changed, d.added + sub.added, d.removed + sub.removed)
  }

  predicate Has(d: Diff, key: string) {
    key in d.changed || key in d.added || key in d.removed
  }

  /** Sections with no path in common merge to the entries of both. */
  lemma MergedHolds(d: Diff, sub: Diff, key: string, e: Entry)
    requires forall k: string :: !(Has(d, k) && Has(sub, k))
    ensures Holds(Merged(d, sub), key, e) <==> Holds(d, key, e) || Holds(sub, key, e)
  {
    assert !(Has(d, key) && Has(sub, key));
  }

  function EntryAt(d: Diff, key: string): Entry
    requires Has(d, key)
    ensures Holds(d, key, EntryAt(d, key))
  {
    if key in d.added then Added(d.added[key])
    else if key in d.removed then Removed(d.removed[key])
    else Changed(d.changed[key].0, d.changed[key].1)
  }

  lemma SameBelow(at: Path, p: Path, q: Path)
    requires at + p == at + q
    ensures p == q
  {
    assert (at + p)[|at|..] == p && (at + q)[|at|..] == q;
  }

  lemma ReportsUnder(was: Config, now: Config, at: Path, keys: set<string>, k: string, key: string, e: Entry)
    requires DotFreeTree(was) && DotFreeTree(now) && DotFreePath(at) && k !in keys
    requires ReportedAs(was, now, at, keys, key, e)
    ensures forall f: Entry :: !ReportedAs(was, now, at, {k}, key, f)
  {
    var p: Path :| p != [] && p[0] in keys && key == Dotted(at + p) && Report(was, now, p) == Some(e);
    ReportedIsDotFree(was, now, p);
    forall f: Entry ensures !ReportedAs(was, now, at, {k}, key, f) {
      if ReportedAs(was, now, at, {k}, key, f) {
        var q: Path :| q != [] && q[0] in {k} && key == Dotted(at + q) && Report(was, now, q) == Some(f);
        ReportedIsDotFree(was, now, q);
        DottedInjective(at + p, at + q);
        SameBelow(at, p, q);
      }
    }
  }

  /** One more key: the sections for it are joined to those for the others. */
  lemma DescribesNext(d: Diff, sub: Diff, was: Config, now: Config, at: Path, keys: set<string>, k: string)
    requires DotFreeTree(was) && DotFreeTree(now) && DotFreePath(at) && k !in keys
    requires Describes(d, was, now, at, keys) && Describes(sub, was, now, at, {k})
    ensures Describes(Merged(sub, d), was, now, at, keys + {k})
  {
    forall key: string ensures !(Has(d, key) && Has(sub, key)) {
      if Has(d, key) && Has(sub, key) {
        var e, f := EntryAt(d, key), EntryAt(sub, key);
        assert Holds(d, key, e) && Holds(sub, key, f);
        ReportsUnder(was, now, at, keys, k, key, e);
      }
    }
    forall key: string, e: Entry
      ensures Holds(Merged(sub, d), key, e) <==> ReportedAs(was, now, at, keys + {k}, key, e)
    {
      MergedHolds(sub, d, key, e);
      ReportedSplit(was, now, at, keys, k, key, e);
    }
  }

  lemma ReportedSplit(was: Config, now: Config, at: Path, keys: set<string>, k: string, key: string, e: Entry)
    ensures ReportedAs(was, now, at, keys + {k}, key, e) <==>
      ReportedAs(was, now, at, keys, key, e) || ReportedAs(was, now, at, {k}, key, e)
  {
  }

  /** The diff of two dicts below a key is what is reported at that key. */
  lemma SubDescribes(sub: Diff, was: Config, now: Config, at: Path, k: string)
    requires k in was && k in now && BothDicts(was[k], now[k])
    requires Describes(sub, was[k].entries, now[k].entries, at + [k], was[k].entries.Keys + now[k].entries.Keys)
    ensures Describes(sub, was, now, at, {k})
  {
    var v, w := was[k].entries, now[k].entries;
    forall key: string, e: Entry ensures Holds(sub, key, e) <==> ReportedAs(was, now, at, {k}, key, e) {
      if ReportedAs(v, w, at + [k], v.Keys + w.Keys, key, e) {
        var q: Path :| q != [] && q[0] in v.Keys + w.Keys && key == Dotted(at + [k] + q) && Report(v, w, q) == Some(e);
        var p := [k] + q;
        assert p[1..] == q && at + [k] + q == at + p;
        assert Report(was, now, p) == Some(e);
      }
      if ReportedAs(was, now, at, {k}, key, e) {
        var p: Path :| p != [] && p[0] in {k} && key == Dotted(at + p) && Report(was, now, p) == Some(e);
        assert Report(v, w, p[1..]) == Some(e);
        assert p[1..] != [] && p[1] in v.Keys + w.Keys;
        assert at + [k] + p[1..] == at + p;
      }
    }
  }

  function Single(key: string, e: Option<Entry>): Diff {
    match e
    case None => Diff(map[], map[], map[])
    case Some(Added(v)) => Diff(map[], map[key := v], map[])
    case Some(Removed(v)) => Diff(map[], map[], map[key := v])
    case Some(Changed(v, w)) => Diff(map[key := (v, w)], map[], map[])
  }

  /** At a key that does not lead to two dicts there is one entry, or none. */
  lemma SingleDescribes(was: Config, now: Config, at: Path, k: string)
    requires k in was || k in now
    requires !(k in was && k in now && BothDicts(was[k], now[k]))
    ensures Describes(Single(Dotted(at + [k]), Report(was, now, [k])), was, now, at, {k})
  {
    var d := Single(Dotted(at + [k]), Report(was, now, [k]));
    forall key: string, e: Entry ensures Holds(d, key, e) <==> ReportedAs(was, now, at, {k}, key, e) {
      if Holds(d, key, e) {
        assert [k] != [] && [k][0] in {k} && Report(was, now, [k]) == Some(e);
      }
      if ReportedAs(was, now, at, {k}, key, e) {
        var p: Path :| p != [] && p[0] in {k} && key == Dotted(at + p) && Report(was, now, p) == Some(e);
        assert p == [k];
      }
    }
  }

  // ----- The diff, for any keys -----

  const EMPTY: Diff := Diff(map[], map[], map[])

  /** The keys in order, each entry of a section replacing an earlier one under the same path. */
  ghost function Diffed(was: Config, now: Config, prefix: string): Diff
    decreases Dict(was), 1, 0
  {
    DiffedOver(was, now, prefix, SortedTexts(was.Keys + now.Keys))
  }

  ghost function DiffedOver(was: Config, now: Config, prefix: string, keys: seq<string>): Diff
    requires forall k :: k in keys ==> k in was || k in now
    decreases Dict(was), 0, |keys|
  {
    if keys == [] then EMPTY
    else Merged(DiffedAt(was, now, prefix, keys[0]), DiffedOver(was, now, prefix, keys[1..]))
  }

  ghost function DiffedAt(was: Config, now: Config, prefix: string, key: string): Diff
    requires key in was || key in now
    decreases Dict(was), 0, 0
  {
    if key in was && key in now && BothDicts(was[key], now[key])
    then Diffed(was[key].entries, now[key].entries, Extended(prefix, key))
    else Single(Extended(prefix, key), Report(was, now, [key]))
  }

  /** The empty key leads to no dicts that differ. */
  predicate Rooted(was: Config, now: Config) {
    "" in was && "" in now && BothDicts(was[""], now[""]) ==> was[""] == now[""]
  }

  /** The inputs the dotted forms are fit for. */
  ghost predicate Fit(was: Config, now: Config, prefix: string, at: Path) {
    && DotFreeTree(was) && DotFreeTree(now) && DotFreePath(at)
    && prefix == Dotted(at) && at != [""]
    && (at == [] ==> Rooted(was, now))
  }

  lemma {:induction false} SameDiffedOver(m: Config, prefix: string, keys: seq<string>)
    requires forall k :: k in keys ==> k in m
    ensures DiffedOver(m, m, prefix, keys) == EMPTY
    decreases Dict(m), 0, |keys|
  {
    if keys != [] {
      var k := keys[0];
      SameReportsNothing(m, [k]);
      if m[k].Dict? {
        SameDiffed(m[k].entries, Extended(prefix, k));
      }
      SameDiffedOver(m, prefix, keys[1..]);
    }
  }

  lemma {:induction false} SameDiffed(m: Config, prefix: string)
    ensures Diffed(m, m, prefix) == EMPTY
    decreases Dict(m), 1
  {
    SameDiffedOver(m, prefix, SortedTexts(m.Keys + m.Keys));
  }

  /** Nothing is reported below a key that leads to the same value on both sides. */
  lemma SameDescribes(was: Config, now: Config, at: Path, k: string)
    requires k in was && k in now && was[k] == now[k]
    ensures Describes(EMPTY, was, now, at, {k})
  {
    forall p: Path | p != [] && p[0] == k ensures Report(was, now, p) == None {
      if was[k].Dict? {
        SameReportsNothing(was[k].entries, p[1..]);
      }
    }
  }

  lemma {:induction false} DiffedAtDescribes(was: Config, now: Config, prefix: string, at: Path, k: string)
    requires Fit(was, now, prefix, at) && (k in was || k in now)
    ensures Describes(DiffedAt(was, now, prefix, k), was, now, at, {k})
    decreases Dict(was), 0, 0
  {
    ExtendedIsDotted(at, k);
    if k in was && k in now && BothDicts(was[k], now[k]) {
      if at + [k] == [""] {
        SameDiffed(was[k].entries, Extended(prefix, k));
        SameDescribes(was, now, at, k);
      } else {
        DiffedDescribes(was[k].entries, now[k].entries, Extended(prefix, k), at + [k]);
        SubDescribes(DiffedAt(was, now, prefix, k), was, now, at, k);
      }
    } else {
      SingleDescribes(was, now, at, k);
    }
  }

  lemma {:induction false} DiffedOverDescribes(was: Config, now: Config, prefix: string, at: Path, keys: seq<string>)
    requires Fit(was, now, prefix, at) && TextAscending(keys)
    requires forall k :: k in keys ==> k in was || k in now
    ensures Describes(DiffedOver(was, now, prefix, keys), was, now, at, set k | k in keys)
    decreases Dict(was), 0, |keys|
  {
    if keys != [] {
      var k, rest := keys[0], keys[1..];
      DiffedAtDescribes(was, now, prefix, at, k);
      DiffedOverDescribes(was, now, prefix, at, rest);
      AscendingHead(keys);
      DescribesNext(DiffedOver(was, now, prefix, rest), DiffedAt(was, now, prefix, k), was, now, at, (set q | q in rest), k);
      assert (set q | q in keys) == (set q | q in rest) + {k};
    }
  }

  lemma AscendingHead(keys: seq<string>)
    requires keys != [] && TextAscending(keys)
    ensures keys[0] !in keys[1..] && TextAscending(keys[1..])
  {
    TextBeforeIrreflexive(keys[0]);
  }

  /** For such inputs the sections hold exactly the reported entries, each under its dotted path. */
  lemma {:induction false} DiffedDescribes(was: Config, now: Config, prefix: string, at: Path)
    requires Fit(was, now, prefix, at)
    ensures Describes(Diffed(was, now, prefix), was, now, at, was.Keys + now.Keys)
    decreases Dict(was), 1, 0
  {
    var keys := SortedTexts(was.Keys + now.Keys);
    DiffedOverDescribes(was, now, prefix, at, keys);
    assert (set k | k in keys) == was.Keys + now.Keys;
  }

  // ----- What it promises -----

  /** The program's diff of two configurations whose keys the dotted forms are fit for. */
  ghost predicate DiffOf(d: Diff, was: Config, now: Config) {
    Fit(was, now, "", []) && d == Diffed(was, now, "")
  }

  /** Each entry is reported at the path its dotted form splits into. */
  lemma HeldIsReported(d: Diff, was: Config, now: Config, key: string, e: Entry)
    requires DiffOf(d, was, now) && Holds(d, key, e)
    ensures DotFreePath(Split(key)) && Dotted(Split(key)) == key && Report(was, now, Split(key)) == Some(e)
  {
    DiffedDescribes(was, now, "", []);
    assert ReportedAs(was, now, [], was.Keys + now.Keys, key, e);
    var p: Path :| p != [] && p[0] in was.Keys + now.Keys && key == Dotted([] + p) && Report(was, now, p) == Some(e);
    assert [] + p == p;
    ReportedIsDotFree(was, now, p);
    SplitDotted(p);
  }

  /** And each report is held under its dotted form. */
  lemma ReportedIsHeld(d: Diff, was: Config, now: Config, p: Path, e: Entry)
    requires DiffOf(d, was, now) && Report(was, now, p) == Some(e)
    ensures Holds(d, Dotted(p), e)
  {
    DiffedDescribes(was, now, "", []);
    assert [] + p == p && p[0] in was.Keys + now.Keys;
    assert ReportedAs(was, now, [], was.Keys + now.Keys, Dotted(p), e);
  }

  /** The diff is empty exactly when the configurations are equal. */
  lemma EmptyDiffIffEqual(d: Diff, was: Config, now: Config)
    requires DiffOf(d, was, now)
    ensures (forall key: string :: !Has(d, key)) <==> was == now
  {
    EmptyIffEqual(was, now);
    if key: string :| Has(d, key) {
      HeldIsReported(d, was, now, key, EntryAt(d, key));
    }
    if p: Path :| Report(was, now, p) != None {
      ReportedIsHeld(d, was, now, p, Report(was, now, p).value);
      assert Has(d, Dotted(p));
    }
  }

  /** The sections are disjoint. */
  lemma SectionsDisjoint(d: Diff, was: Config, now: Config, key: string, e: Entry, f: Entry)
    requires DiffOf(d, was, now) && Holds(d, key, e) && Holds(d, key, f)
    ensures e == f
  {
    HeldIsReported(d, was, now, key, e);
    HeldIsReported(d, was, now, key, f);
  }

  /** No path in any section lies below another. */
  lemma PathsPrefixFree(d: Diff, was: Config, now: Config, key: string, below: string)
    requires DiffOf(d, was, now) && Has(d, key) && Has(d, below)
    ensures !(Split(key) < Split(below))
  {
    HeldIsReported(d, was, now, key, EntryAt(d, key));
    HeldIsReported(d, was, now, below, EntryAt(d, below));
    if Split(key) < Split(below) {
      ReportPrefixFree(was, now, Split(key), Split(below));
    }
  }

  /** `get_value` finds every reported value at its path, on the side it is reported for and on no other. */
  lemma ReportedValuesResolve(d: Diff, was: Config, now: Config, key: string, e: Entry)
    requires DiffOf(d, was, now) && Holds(d, key, e)
    ensures
      var before, after := Lookup(Dict(was), Split(key)), Lookup(Dict(now), Split(key));
      match e
      case Added(v) => before == None && after == Some(v)
      case Removed(v) => before == Some(v) && after == None
      case Changed(v, w) => before == Some(v) && after == Some(w) && v != w
  {
    HeldIsReported(d, was, now, key, e);
    ReportByLookup(was, now, Split(key), e);
  }

  // ----- Applying it -----

  /** The listed entries carried out one after another. */
  function Applied(m: Config, d: Diff, keys: seq<string>): Config
    requires forall i :: 0 <= i < |keys| ==> Has(d, keys[i])
    decreases |keys|
  {
    if keys == [] then m else Applied(Write(m, Split(keys[0]), EntryAt(d, keys[0])), d, keys[1..])
  }

  ghost predicate Distinct(keys: seq<string>) {
    forall i, j :: 0 <= i < j < |keys| ==> keys[i] != keys[j]
  }

  /** Part way through, what is still reported is what the remaining keys stand for. */
  ghost predicate Pending(m: Config, was: Config, now: Config, keys: seq<string>) {
    forall p: Path :: Report(m, now, p) == if Dotted(p) in keys then Report(was, now, p) else None
  }

  lemma PendingNext(m: Config, was: Config, now: Config, d: Diff, keys: seq<string>)
    requires DiffOf(d, was, now) && Pending(m, was, now, keys)
    requires keys != [] && Distinct(keys) && Has(d, keys[0])
    ensures Pending(Write(m, Split(keys[0]), EntryAt(d, keys[0])), was, now, keys[1..])
  {
    var key, e := keys[0], EntryAt(d, keys[0]);
    var p := Split(key);
    HeldIsReported(d, was, now, key, e);
    assert Report(m, now, p) == Some(e);
    forall q: Path
      ensures Report(Write(m, p, e), now, q) == if Dotted(q) in keys[1..] then Report(was, now, q) else None
    {
      WriteSettles(m, now, p, e, q);
      assert Dotted(q) in keys <==> Dotted(q) == key || Dotted(q) in keys[1..];
      assert key !in keys[1..];
      if Dotted(q) == key && Report(was, now, q).Some? {
        ReportedIsDotFree(was, now, q);
        DottedInjective(p, q);
      }
    }
  }

  lemma {:induction false} AppliedSettles(m: Config, was: Config, now: Config, d: Diff, keys: seq<string>)
    requires DiffOf(d, was, now) && Pending(m, was, now, keys) && Distinct(keys)
    requires forall i :: 0 <= i < |keys| ==> Has(d, keys[i])
    ensures Applied(m, d, keys) == now
    decreases |keys|
  {
    if keys == [] {
      forall p: Path ensures Report(m, now, p) == None {
        assert Dotted(p) !in keys;
      }
      NothingReportedSame(m, now);
    } else {
      PendingNext(m, was, now, d, keys);
      AppliedSettles(Write(m, Split(keys[0]), EntryAt(d, keys[0])), was, now, d, keys[1..]);
    }
  }

  /** The diff is a patch: carried out on the old configuration, in any order, it gives the new one. */
  lemma PatchGivesNew(was: Config, now: Config, d: Diff, keys: seq<string>)
    requires DiffOf(d, was, now) && Distinct(keys)
    requires forall i :: 0 <= i < |keys| ==> Has(d, keys[i])
    requires forall key: string :: Has(d, key) ==> key in keys
    ensures Applied(was, d, keys) == now
  {
    forall p: Path ensures Report(was, now, p) == if Dotted(p) in keys then Report(was, now, p) else None {
      if Report(was, now, p).Some? {
        ReportedIsHeld(d, was, now, p, Report(was, now, p).value);
        assert Has(d, Dotted(p));
      }
    }
    AppliedSettles(was, was, now, d, keys);
  }

  // ----- Where the dotted forms are not fit -----

  predicate StartsWithDot(s: string) {
    s != "" && s[0] == '.'
  }

  /** No section has a path that starts with a dot. */
  ghost predicate NoLeadingDot(d: Diff) {
    forall key: string :: Has(d, key) ==> !StartsWithDot(key)
  }

  lemma ExtendedNoLeadingDot(prefix: string, key: string)
    requires DotFree(key) && !StartsWithDot(prefix)
    ensures !StartsWithDot(Extended(prefix, key))
  {
    if prefix == "" {
      assert prefix + key == key;
      assert key != "" ==> key[0] in key;
    } else {
      assert (prefix + "." + key)[0] == prefix[0];
    }
  }

  lemma {:induction false} OverNoLeadingDot(was: Config, now: Config, prefix: string, keys: seq<string>)
    requires DotFreeTree(was) && DotFreeTree(now) && !StartsWithDot(prefix)
    requires forall k :: k in keys ==> k in was || k in now
    ensures NoLeadingDot(DiffedOver(was, now, prefix, keys))
    decreases Dict(was), 0, |keys|
  {
    if keys != [] {
      var k := keys[0];
      ExtendedNoLeadingDot(prefix, k);
      if k in was && k in now && BothDicts(was[k], now[k]) {
        DiffedNoLeadingDot(was[k].entries, now[k].entries, Extended(prefix, k));
      }
      OverNoLeadingDot(was, now, prefix, keys[1..]);
    }
  }

  lemma {:induction false} DiffedNoLeadingDot(was: Config, now: Config, prefix: string)
    requires DotFreeTree(was) && DotFreeTree(now) && !StartsWithDot(prefix)
    ensures NoLeadingDot(Diffed(was, now, prefix))
    decreases Dict(was), 1
  {
    OverNoLeadingDot(was, now, prefix, SortedTexts(was.Keys + now.Keys));
  }

  /**
   For keys without dots the sections hold exactly the reported entries under their dotted paths if and only if the
   empty key leads to no dicts that differ: below it the program drops the first dot.
   */
  lemma DescribedIffRooted(was: Config, now: Config)
    requires DotFreeTree(was) && DotFreeTree(now)
    ensures Describes(Diffed(was, now, ""), was, now, [], was.Keys + now.Keys) <==> Rooted(was, now)
  {
    if Rooted(was, now) {
      DiffedDescribes(was, now, "", []);
    } else {
      var v, w := was[""].entries, now[""].entries;
      EmptyIffEqual(v, w);
      var q: Path :| Report(v, w, q) != None;
      var p := [""] + q;
      assert p[1..] == q && Report(was, now, p) == Report(v, w, q) && [] + p == p;
      assert StartsWithDot(Dotted(p));
      var e := Report(was, now, p).value;
      assert ReportedAs(was, now, [], was.Keys + now.Keys, Dotted(p), e);
      DiffedNoLeadingDot(was, now, "");
      assert Holds(Diffed(was, now, ""), Dotted(p), e) ==> Has(Diffed(was, now, ""), Dotted(p));
    }
  }

  lemma DiffedOverOne(was: Config, now: Config, prefix: string, k: string)
    requires k in was || k in now
    ensures DiffedOver(was, now, prefix, [k]) == DiffedAt(was, now, prefix, k)
  {
    assert [k][1..] == [];
    assert DiffedOver(was, now, prefix, [k][1..]) == EMPTY;
    MergedEmpty(DiffedAt(was, now, prefix, k));
  }

  lemma SortedOne(k: string)
    ensures SortedTexts({k}) == [k]
  {
    TextBeforeIrreflexive(k);
    assert IsFirst(k, {k}) && {k} - {k} == {};
    SortedStep({k}, k);
  }

  lemma SortedTwo(k: string, l: string)
    requires TextBefore(k, l)
    ensures SortedTexts({k, l}) == [k, l]
  {
    TextBeforeIrreflexive(k);
    if TextBefore(l, k) {
      TextBeforeTransitive(k, l, k);
    }
    assert IsFirst(k, {k, l});
    assert {k, l} - {k} == {l};
    SortedStep({k, l}, k);
    SortedOne(l);
  }

  lemma DiffedTwo(was: Config, now: Config, prefix: string, k: string, l: string)
    requires was.Keys + now.Keys == {k, l} && TextBefore(k, l)
    ensures Diffed(was, now, prefix) == Merged(DiffedAt(was, now, prefix, k), DiffedAt(was, now, prefix, l))
  {
    SortedTwo(k, l);
    var keys := [k, l];
    assert SortedTexts(was.Keys + now.Keys) == keys;
    assert keys[1..] == [l];
    DiffedOverOne(was, now, prefix, l);
  }

  /** A dict at `x` that gains `y`, and a new key `k` beside it. */
  function Before(x: string): Config {
    map[x := Dict(map[])]
  }

  function After(x: string, y: string, k: string): Config {
    map[x := Dict(map[y := Leaf(1)]), k := Leaf(2)]
  }

  function Additions(m: map<string, Value>): Diff {
    Diff(map[], m, map[])
  }

  lemma NestedAddition(x: string, y: string, k: string)
    requires x != k
    ensures Report(Before(x), After(x, y, k), [x, y]) == Some(Added(Leaf(1)))
    ensures DiffedAt(Before(x), After(x, y, k), "", x) == Additions(map[Extended(x, y) := Leaf(1)])
  {
    var v: Config, w: Config := map[], map[y := Leaf(1)];
    assert [x, y][1..] == [y] && Report(v, w, [y]) == Some(Added(Leaf(1)));
    assert v.Keys + w.Keys == {y};
    SortedOne(y);
    assert SortedTexts(v.Keys + w.Keys) == [y];
    DiffedOverOne(v, w, x, y);
    assert Extended("", x) == x;
    assert Diffed(v, w, x) == DiffedAt(v, w, x, y) == Additions(map[Extended(x, y) := Leaf(1)]);
  }

  lemma PlainAddition(x: string, y: string, k: string)
    requires x != k
    ensures Report(Before(x), After(x, y, k), [k]) == Some(Added(Leaf(2)))
    ensures DiffedAt(Before(x), After(x, y, k), "", k) == Additions(map[k := Leaf(2)])
  {
    assert Extended("", k) == k;
  }

  /** Both additions are reported, and the program writes the nested one first. */
  lemma TwoAdditions(x: string, y: string, k: string)
    requires TextBefore(x, k)
    ensures x != k
    ensures Diffed(Before(x), After(x, y, k), "") == Additions(map[Extended(x, y) := Leaf(1)] + map[k := Leaf(2)])
  {
    TextBeforeIrreflexive(x);
    NestedAddition(x, y, k);
    PlainAddition(x, y, k);
    assert Before(x).Keys + After(x, y, k).Keys == {x, k};
    DiffedTwo(Before(x), After(x, y, k), "", x, k);
  }

  lemma PrefixIsBefore(x: string, y: string)
    requires y != ""
    ensures TextBefore(x, x + y)
  {
    TextBeforePrefix(x, "", y);
    assert x + "" == x;
  }

  /** Two reports with one dotted form: no sections hold both. */
  lemma OneFormTwoReports(was: Config, now: Config, p: Path, q: Path, v: Value, w: Value)
    requires p != [] && q != [] && Dotted(p) == Dotted(q) && v != w
    requires Report(was, now, p) == Some(Added(v)) && Report(was, now, q) == Some(Added(w))
    ensures forall d: Diff :: !Describes(d, was, now, [], was.Keys + now.Keys)
  {
    assert [] + p == p && [] + q == q;
    assert ReportedAs(was, now, [], was.Keys + now.Keys, Dotted(p), Added(v));
    assert ReportedAs(was, now, [], was.Keys + now.Keys, Dotted(p), Added(w));
    forall d: Diff ensures !Describes(d, was, now, [], was.Keys + now.Keys) {
      assert !(Holds(d, Dotted(p), Added(v)) && Holds(d, Dotted(p), Added(w)));
    }
  }

  lemma LookupNested(x: string, y: string, k: string)
    requires x != k && DotFree(x) && DotFree(y)
    ensures Lookup(Dict(After(x, y, k)), Split(x + "." + y)) == Some(Leaf(1))
  {
    SplitDotted([x, y]);
    assert [x, y][1..] == [y] && Dotted([x, y]) == x + "." + y;
    assert Lookup(Dict(map[y := Leaf(1)]), [y]) == Some(Leaf(1));
  }

  lemma NestedForm(x: string, y: string, k: string)
    requires k == x + "." + y
    ensures Dotted([x, y]) == k == Dotted([k])
    ensures TextBefore(x, k)
    ensures x != "" ==> Extended(x, y) == k
  {
    assert [x, y][1..] == [y];
    assert k == x + ("." + y);
    PrefixIsBefore(x, "." + y);
  }

  lemma LaterWins(x: string, y: string, k: string)
    requires TextBefore(x, k) && Extended(x, y) == k
    ensures Diffed(Before(x), After(x, y, k), "") == Additions(map[k := Leaf(2)])
  {
    TwoAdditions(x, y, k);
    assert map[k := Leaf(1)] + map[k := Leaf(2)] == map[k := Leaf(2)];
  }

  lemma NoSectionsHoldBoth(x: string, y: string, k: string)
    requires x != k && Dotted([x, y]) == Dotted([k])
    ensures forall d: Diff :: !Describes(d, Before(x), After(x, y, k), [], Before(x).Keys + After(x, y, k).Keys)
  {
    NestedAddition(x, y, k);
    PlainAddition(x, y, k);
    OneFormTwoReports(Before(x), After(x, y, k), [x, y], [k], Leaf(1), Leaf(2));
  }

  /**
   A key `k` with a dot after its first character can always meet a nested path: both entries are reported, no sections
   hold both, and the program keeps only that of `k`, which is not the value `get_value` finds at that path.
   */
  lemma DottedKeysCollide(x: string, y: string, k: string)
    requires x != "" && k == x + "." + y
    ensures forall d: Diff :: !Describes(d, Before(x), After(x, y, k), [], Before(x).Keys + After(x, y, k).Keys)
    ensures Diffed(Before(x), After(x, y, k), "") == Additions(map[k := Leaf(2)])
    ensures DotFree(x) && DotFree(y) ==> Lookup(Dict(After(x, y, k)), Split(k)) == Some(Leaf(1))
  {
    NestedForm(x, y, k);
    TextBeforeIrreflexive(x);
    NoSectionsHoldBoth(x, y, k);
    LaterWins(x, y, k);
    if DotFree(x) && DotFree(y) {
      LookupNested(x, y, k);
    }
  }

  /** Below the empty key the nested path is the key alone, and meets that very key beside it. */
  lemma EmptyKeyCollides(y: string)
    requires y != ""
    ensures Report(Before(""), After("", y, y), ["", y]) == Some(Added(Leaf(1)))
    ensures Diffed(Before(""), After("", y, y), "") == Additions(map[y := Leaf(2)])
  {
    NestedAddition("", y, y);
    LaterWins("", y, y);
  }

  lemma TwoEntries(y: string, k: string, v: Value, w: Value)
    requires y != k
    ensures map[y := v] + map[k := w] == map[y := v, k := w]
  {
  }

  lemma BothKept(x: string, y: string, k: string)
    requires TextBefore(x, k) && Extended(x, y) == y != k
    ensures Diffed(Before(x), After(x, y, k), "") == Additions(map[y := Leaf(1), k := Leaf(2)])
  {
    TwoAdditions(x, y, k);
    TwoEntries(y, k, Leaf(1), Leaf(2));
  }

  /** A key that starts with a dot is kept apart from the path below the empty key, but `get_value` reads it as that path. */
  lemma LeadingDotMisread(y: string, k: string)
    requires DotFree(y) && k == "." + y
    ensures Diffed(Before(""), After("", y, k), "") == Additions(map[y := Leaf(1), k := Leaf(2)])
    ensures Lookup(Dict(After("", y, k)), Split(k)) == Some(Leaf(1))
  {
    BothKept("", y, k);
    assert "" + "." + y == k;
    LookupNested("", y, k);
  }

  // ----- The program -----

  /** What the diff finds at one key. */
  method DiffAtKey(was: Config, now: Config, key: string, prefix: string) returns (sub: Diff)
    requires key in was || key in now
    ensures sub == DiffedAt(was, now, prefix, key)
    decreases Dict(was), 0
  {
    var fullKey := Extended(prefix, key);
    if key in was && key in now && was[key].Dict? && now[key].Dict? {
      sub := ComputeDiff(was[key].entries, now[key].entries, fullKey);
    } else if key !in was {
      sub := Diff(map[], map[fullKey := now[key]], map[]);
    } else if key !in now {
      sub := Diff(map[], map[], map[fullKey := was[key]]);
    } else if was[key] != now[key] {
      sub := Diff(map[fullKey := (was[key], now[key])], map[], map[]);
    } else {
      sub := EMPTY;
    }
  }

  lemma MapAssociates<T>(a: map<string, T>, b: map<string, T>, c: map<string, T>)
    ensures a + b + c == a + (b + c)
  {
    var left, right := a + b + c, a + (b + c);
    assert left.Keys == right.Keys;
    forall k | k in left ensures left[k] == right[k] {
      assert k in c || k in a + b;
    }
  }

  lemma MapEmpty<T>(a: map<string, T>)
    ensures a + map[] == a && map[] + a == a
  {
  }

  lemma MergedAssociates(a: Diff, b: Diff, c: Diff)
    ensures Merged(Merged(a, b), c) == Merged(a, Merged(b, c))
  {
    MapAssociates(a.changed, b.changed, c.changed);
    MapAssociates(a.added, b.added, c.added);
    MapAssociates(a.removed, b.removed, c.removed);
  }

  lemma MergedEmpty(a: Diff)
    ensures Merged(a, EMPTY) == a && Merged(EMPTY, a) == a
  {
    MapEmpty(a.changed);
    MapEmpty(a.added);
    MapEmpty(a.removed);
  }

  /** The diff so far, joined with that of the keys still to come. */
  ghost function WithRest(d: Diff, was: Config, now: Config, prefix: string, keys: set<string>): Diff
    requires keys <= was.Keys + now.Keys
  {
    Merged(d, DiffedOver(was, now, prefix, SortedTexts(keys)))
  }

  lemma NextKey(d: Diff, was: Config, now: Config, prefix: string, keys: set<string>, key: string)
    requires keys <= was.Keys + now.Keys && IsFirst(key, keys)
    ensures WithRest(Merged(d, DiffedAt(was, now, prefix, key)), was, now, prefix, keys - {key}) ==
      WithRest(d, was, now, prefix, keys)
  {
    var rest := SortedTexts(keys - {key});
    SortedStep(keys, key);
    var all := SortedTexts(keys);
    assert all[0] == key && all[1..] == rest;
    MergedAssociates(d, DiffedAt(was, now, prefix, key), DiffedOver(was, now, prefix, rest));
  }

  /** `_compute_diff` */
  method ComputeDiff(was: Config, now: Config, prefix: string) returns (d: Diff)
    ensures d == Diffed(was, now, prefix)
    decreases Dict(was), 1
  {
    d := EMPTY;
    var keys := was.Keys + now.Keys;
    MergedEmpty(Diffed(was, now, prefix));
    while keys != {}
      invariant keys <= was.Keys + now.Keys
      invariant WithRest(d, was, now, prefix, keys) == Diffed(was, now, prefix)
      decreases keys
    {
      var key := PickFirst(keys);
      var sub := DiffAtKey(was, now, key, prefix);
      NextKey(d, was, now, prefix, keys, key);
      d := Merged(d, sub);
      keys := keys - {key};
    }
    MergedEmpty(d);
  }

  /** `get_value` */
  method GetValue(configs: map<string, Config>, name: string, path: string) returns (r: Option<Value>)
    ensures r == if name in configs then Lookup(Dict(configs[name]), Split(path)) else None
  {
    if name !in configs {
      return None;
    }
    var parts := Split(path);
    var current := Dict(configs[name]);
    for i := 0 to |parts|
      invariant Lookup(Dict(configs[name]), parts) == Lookup(current, parts[i..])
    {
      if current.Leaf? {
        return None;
      }
      if parts[i] !in current.entries {
        return None;
      }
      assert parts[i..][1..] == parts[i + 1..];
      current := current.entries[parts[i]];
    }
    return Some(current);
  }
}
