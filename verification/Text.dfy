/** Strings in the order in which `sorted` puts them. */
module Text {

  predicate TextBefore(a: string, b: string) {
    b != "" && (a == "" || a[0] < b[0] || (a[0] == b[0] && TextBefore(a[1..], b[1..])))
  }

  lemma {:induction false} TextBeforeIrreflexive(a: string)
    ensures !TextBefore(a, a)
  {
    if a != "" {
      TextBeforeIrreflexive(a[1..]);
    }
  }

  lemma {:induction false} TextBeforeTransitive(a: string, b: string, c: string)
    requires TextBefore(a, b) && TextBefore(b, c)
    ensures TextBefore(a, c)
  {
    if a != "" && a[0] == b[0] == c[0] {
      TextBeforeTransitive(a[1..], b[1..], c[1..]);
    }
  }

  /** Of two different strings one comes first. */
  lemma {:induction false} TextBeforeTotal(a: string, b: string)
    ensures a == b || TextBefore(a, b) || TextBefore(b, a)
  {
    if a != "" && b != "" && a[0] == b[0] {
      TextBeforeTotal(a[1..], b[1..]);
      assert a == [a[0]] + a[1..] && b == [b[0]] + b[1..];
    }
  }

  lemma {:induction false} TextBeforeConcat(a: string, b: string, x: string, y: string)
    requires |a| == |b|
    ensures TextBefore(a + x, b + y) <==> TextBefore(a, b) || (a == b && TextBefore(x, y))
  {
    if a == "" {
      assert a + x == x && b + y == y;
    } else {
      assert (a + x)[1..] == a[1..] + x && (b + y)[1..] == b[1..] + y;
      TextBeforeConcat(a[1..], b[1..], x, y);
      assert a == [a[0]] + a[1..] && b == [b[0]] + b[1..];
    }
  }

  /** A common prefix does not matter. */
  lemma TextBeforePrefix(p: string, x: string, y: string)
    ensures TextBefore(p + x, p + y) <==> TextBefore(x, y)
  {
    TextBeforeConcat(p, p, x, y);
    TextBeforeIrreflexive(p);
  }

  // ----- Sorting a set -----

  ghost predicate IsFirst(m: string, keys: set<string>) {
    m in keys && forall k :: k in keys ==> !TextBefore(k, m)
  }

  lemma {:induction false} FirstExists(keys: set<string>)
    requires keys != {}
    ensures exists m :: IsFirst(m, keys)
    decreases |keys|
  {
    assert (forall x :: x !in keys) ==> keys == {};
    var x :| x in keys;
    var rest := keys - {x};
    TextBeforeIrreflexive(x);
    if rest == {} {
      assert forall k | k in keys :: k == x || k in rest;
      assert IsFirst(x, keys);
    } else {
      FirstExists(rest);
      var y :| IsFirst(y, rest);
      var m := if TextBefore(x, y) then x else y;
      forall k | k in keys ensures !TextBefore(k, m) {
        assert k == x || k in rest;
        if TextBefore(x, y) && k in rest && TextBefore(k, x) {
          TextBeforeTransitive(k, x, y);
        }
      }
      assert IsFirst(m, keys);
    }
  }

  lemma FirstUnique(keys: set<string>, m: string, n: string)
    requires IsFirst(m, keys) && IsFirst(n, keys)
    ensures m == n
  {
    TextBeforeTotal(m, n);
  }

  ghost predicate TextAscending(s: seq<string>) {
    forall i, j :: 0 <= i < j < |s| ==> TextBefore(s[i], s[j])
  }

  /** `sorted` on a set of strings */
  ghost function SortedTexts(keys: set<string>): (s: seq<string>)
    ensures TextAscending(s)
    ensures forall k :: k in s <==> k in keys
    decreases |keys|
  {
    if keys == {} then []
    else
      FirstExists(keys);
      var m :| IsFirst(m, keys);
      var rest := SortedTexts(keys - {m});
      assert forall j | 0 <= j < |rest| :: TextBefore(m, rest[j]) by {
        forall j | 0 <= j < |rest| ensures TextBefore(m, rest[j]) {
          assert rest[j] in rest;
          TextBeforeTotal(m, rest[j]);
        }
      }
      [m] + rest
  }

  lemma SortedStep(keys: set<string>, m: string)
    requires IsFirst(m, keys)
    ensures SortedTexts(keys) == [m] + SortedTexts(keys - {m})
  {
    var n :| IsFirst(n, keys) && SortedTexts(keys) == [n] + SortedTexts(keys - {n});
    FirstUnique(keys, m, n);
  }

  /** The next of the strings still to be sorted. */
  method PickFirst(keys: set<string>) returns (m: string)
    requires keys != {}
    ensures IsFirst(m, keys)
  {
    FirstExists(keys);
    m :| m in keys && forall k | k in keys :: !TextBefore(k, m);
  }
}
