/**
 File names of one journal directory, and the order in which the tools sort directory listings
 (by code point, as `sorted` does on path names).
 */
module Names {

  const MANIFEST := "manifest.json"
  const MANIFEST_TEMP := "manifest.json.tmp"

  /** Decimal rendering of an index. */
  function Decimal(n: nat): (s: string)
    ensures |s| > 0 && '0' <= s[0] <= '9'
  {
    if n < 10 then ['0' + n as char] else Decimal(n / 10) + ['0' + (n % 10) as char]
  }

  function BeforeName(index: nat): string { Decimal(index) + ".before" }

  function AfterName(index: nat): string { Decimal(index) + ".after" }

  lemma {:induction false} DecimalInjective(m: nat, n: nat)
    requires Decimal(m) == Decimal(n)
    ensures m == n
  {
    var dm, dn := Decimal(m), Decimal(n);
    assert dm[|dm| - 1] == dn[|dn| - 1];
    if m >= 10 && n >= 10 {
      assert dm[..|dm| - 1] == Decimal(m / 10);
      assert dn[..|dn| - 1] == Decimal(n / 10);
      DecimalInjective(m / 10, n / 10);
    }
  }

  /** Image names never clash with one another or with the manifest files. */
  lemma ImageNamesDistinct(i: nat, j: nat)
    ensures BeforeName(i) == BeforeName(j) ==> i == j
    ensures AfterName(i) == AfterName(j) ==> i == j
    ensures BeforeName(i) != AfterName(j)
    ensures BeforeName(i) != MANIFEST && AfterName(i) != MANIFEST
    ensures BeforeName(i) != MANIFEST_TEMP && AfterName(i) != MANIFEST_TEMP
  {
    var b, a := BeforeName(i), AfterName(j);
    assert b[|b| - 1] == 'e' && a[|a| - 1] == 'r';
    assert b[0] != 'm' && AfterName(i)[0] != 'm';
    if b == BeforeName(j) {
      assert b[..|b| - 7] == Decimal(i) && BeforeName(j)[..|b| - 7] == Decimal(j);
      DecimalInjective(i, j);
    }
    if AfterName(i) == a {
      assert AfterName(i)[..|a| - 6] == Decimal(i) && a[..|a| - 6] == Decimal(j);
      DecimalInjective(i, j);
    }
  }

  // Listing order.

  predicate Less(a: string, b: string) {
    b != [] && (a == [] || a[0] < b[0] || (a[0] == b[0] && Less(a[1..], b[1..])))
  }

  lemma {:induction false} LessTotal(a: string, b: string)
    ensures a == b || Less(a, b) || Less(b, a)
  {
    if a != [] && b != [] && a[0] == b[0] {
      LessTotal(a[1..], b[1..]);
      assert a == [a[0]] + a[1..] && b == [b[0]] + b[1..];
    }
  }

  lemma {:induction false} LessTransitive(a: string, b: string, c: string)
    requires Less(a, b) && Less(b, c)
    ensures Less(a, c)
  {
    if a != [] && a[0] == b[0] && b[0] == c[0] {
      LessTransitive(a[1..], b[1..], c[1..]);
    }
  }

  lemma {:induction false} LessIrreflexive(a: string)
    ensures !Less(a, a)
  {
    if a != [] { LessIrreflexive(a[1..]); }
  }

  ghost predicate IsGreatest(m: string, names: set<string>) {
    m in names && forall n :: n in names && n != m ==> Less(n, m)
  }

  lemma {:induction false} GreatestExists(names: set<string>)
    requires names != {}
    ensures exists m :: IsGreatest(m, names)
  {
    var x :| x in names;
    if names != {x} {
      var rest := names - {x};
      assert rest == {} ==> names == {x};
      GreatestExists(rest);
      var m :| IsGreatest(m, rest);
      LessTotal(x, m);
      if Less(m, x) {
        forall n | n in names && n != x ensures Less(n, x) {
          if n != m { LessTransitive(n, m, x); }
        }
        assert IsGreatest(x, names);
      } else {
        assert IsGreatest(m, names);
      }
    } else {
      assert IsGreatest(x, names);
    }
  }

  ghost function Greatest(names: set<string>): (m: string)
    requires names != {}
    ensures IsGreatest(m, names)
  {
    GreatestExists(names);
    var m :| IsGreatest(m, names); m
  }

  /** `sorted(names, reverse=True)`. */
  ghost function Descending(names: set<string>): (list: seq<string>)
    ensures forall n :: n in list <==> n in names
  {
    if names == {} then [] else
      var m := Greatest(names);
      [m] + Descending(names - {m})
  }

  /** `sorted(names)`. */
  ghost function Ascending(names: set<string>): (list: seq<string>)
    ensures forall n :: n in list <==> n in names
  {
    if names == {} then [] else
      var m := Greatest(names);
      Ascending(names - {m}) + [m]
  }

  ghost predicate StrictlyDescending(list: seq<string>) {
    forall i, j :: 0 <= i < j < |list| ==> Less(list[j], list[i])
  }

  ghost predicate StrictlyAscending(list: seq<string>) {
    forall i, j :: 0 <= i < j < |list| ==> Less(list[i], list[j])
  }

  lemma {:induction false} DescendingSorted(names: set<string>)
    ensures StrictlyDescending(Descending(names))
  {
    if names != {} {
      var m := Greatest(names);
      DescendingSorted(names - {m});
      var rest := Descending(names - {m});
      forall j | 0 <= j < |rest| ensures Less(rest[j], m) {
        assert rest[j] in rest;
      }
    }
  }

  lemma {:induction false} AscendingSorted(names: set<string>)
    ensures StrictlyAscending(Ascending(names))
  {
    if names != {} {
      var m := Greatest(names);
      AscendingSorted(names - {m});
      var rest := Ascending(names - {m});
      forall j | 0 <= j < |rest| ensures Less(rest[j], m) {
        assert rest[j] in rest;
      }
    }
  }

  /** A strictly descending list holding exactly `names` is the listing, so the order is determined. */
  lemma {:induction false} DescendingUnique(list: seq<string>, names: set<string>)
    requires StrictlyDescending(list) && forall n :: n in list <==> n in names
    ensures list == Descending(names)
  {
    if |list| > 0 { assert list[0] in names; }
    if names != {} {
      var m := Greatest(names);
      assert m in list;
      assert list[0] in list;
      if list[0] != m {
        var k :| 0 <= k < |list| && list[k] == m;
        assert Less(list[0], m) && Less(m, list[0]);
        LessTransitive(m, list[0], m);
        LessIrreflexive(m);
      }
      var rest := list[1..];
      forall n ensures n in rest <==> n in names - {m} {
        if n in rest {
          var k :| 0 <= k < |rest| && rest[k] == n;
          assert Less(list[k + 1], list[0]);
          LessIrreflexive(m);
          assert n in list;
        }
      }
      forall i, j | 0 <= i < j < |rest| ensures Less(rest[j], rest[i]) {
        assert Less(list[j + 1], list[i + 1]);
      }
      DescendingUnique(rest, names - {m});
      assert list == [m] + rest;
    }
  }

  lemma DescendingStep(list: seq<string>, rest: set<string>, m: string)
    requires IsGreatest(m, rest)
    ensures list + Descending(rest) == (list + [m]) + Descending(rest - {m})
  {
    GreatestUnique(m, rest);
  }

  lemma AscendingStep(list: seq<string>, rest: set<string>, m: string)
    requires IsGreatest(m, rest)
    ensures Ascending(rest) + list == Ascending(rest - {m}) + ([m] + list)
  {
    GreatestUnique(m, rest);
  }

  /** A Python `sorted(..., reverse=True)` over names: repeatedly move the greatest to the list. */
  method SortDescending(names: set<string>) returns (list: seq<string>)
    ensures list == Descending(names)
  {
    list := [];
    var rest := names;
    while rest != {}
      invariant list + Descending(rest) == Descending(names)
      decreases |rest|
    {
      var m := PickGreatest(rest);
      DescendingStep(list, rest, m);
      list, rest := list + [m], rest - {m};
    }
  }

  /** A Python `sorted(...)` over names. */
  method SortAscending(names: set<string>) returns (list: seq<string>)
    ensures list == Ascending(names)
  {
    list := [];
    var rest := names;
    while rest != {}
      invariant Ascending(rest) + list == Ascending(names)
      decreases |rest|
    {
      var m := PickGreatest(rest);
      AscendingStep(list, rest, m);
      list, rest := [m] + list, rest - {m};
    }
  }

  predicate LessOrSame(a: string, b: string) { a == b || Less(a, b) }

  method PickGreatest(names: set<string>) returns (m: string)
    requires names != {}
    ensures IsGreatest(m, names)
  {
    m :| m in names;
    var rest := names - {m};
    while rest != {}
      invariant rest <= names && m in names - rest
      invariant forall n :: n in names - rest ==> LessOrSame(n, m)
      decreases |rest|
    {
      var x :| x in rest;
      LessTotal(x, m);
      if Less(m, x) {
        forall n | n in names - rest ensures Less(n, x) {
          assert LessOrSame(n, m);
          if n != m { LessTransitive(n, m, x); }
        }
        m := x;
      }
      rest := rest - {x};
    }
    assert names - rest == names;
  }

  lemma GreatestUnique(m: string, names: set<string>)
    requires IsGreatest(m, names)
    ensures Greatest(names) == m
  {
    var g := Greatest(names);
    if g != m {
      LessTransitive(m, g, m);
      LessIrreflexive(m);
    }
  }

  /** Reverse name order puts the manifest ahead of every image. */
  lemma ManifestListedBeforeImages(image: string)
    requires image != [] && '0' <= image[0] <= '9'
    ensures Less(image, MANIFEST)
  {
  }
}
