/** The pattern catalog that the controller advertises (`available_patterns`,
    src/message_loop.rs:100-175). Every regular file directly under the
    base-pattern directory names a family and its property values in its
    stem, `family_p1_v1_p2_v2…`; every regular file under
    `custom_patterns` is a value of property `filename` of family `custom`.
    The catalog lists, per family, its properties in the order first seen
    and every value seen for each, and finally all family names in
    ascending order. */
module Catalog {
  import opened Wrappers
  import opened Schema
  import Strings
  import Paths

  /** One item of a one-level directory walk; an item the walk could not
      read is `None`. */
  datatype DirEntry = DirEntry(path: Paths.Path, isFile: bool)

  type Families = map<string, APattern>

  const EmptyFamily := APattern(map[], [])

  predicate NoDup(xs: seq<string>) {
    forall i, j :: 0 <= i < j < |xs| ==> xs[i] != xs[j]
  }

  /** A family whose value lists are exactly those of its listed
      properties. */
  ghost predicate WellFormed(f: APattern) {
    forall p :: p in f.propertyValues <==> p in f.properties
  }

  /** `process_value`: a property seen for the first time is listed and gets
      an empty value list; then the value is appended to its list. The
      `unwrap` of the list lookup cannot fail on a well-formed family, and
      families stay well-formed; on a family that is not, the list is taken
      to be empty. */
  function AddValue(f: APattern, property: string, value: string): (r: APattern)
    ensures WellFormed(f) ==> WellFormed(r)
    ensures r.properties == if property in f.properties then f.properties else f.properties + [property]
    ensures property in r.propertyValues && r.propertyValues[property] ==
      (if property in f.properties && property in f.propertyValues then f.propertyValues[property] else []) + [value]
  {
    var values := if property in f.propertyValues then f.propertyValues[property] else [];
    if property in f.properties then
      f.(propertyValues := f.propertyValues[property := values + [value]])
    else
      APattern(f.propertyValues[property := [value]], f.properties + [property])
  }

  /** The `(property, value)` pairs of the parts after the family name. A
      trailing property without a value ends the list: the `?` on the value
      leaves the closure after the earlier pairs were recorded. */
  function PairsOf(parts: seq<string>): (pairs: seq<(string, string)>)
    ensures |pairs| == |parts| / 2
    ensures forall k :: 0 <= k < |pairs| ==> pairs[k] == (parts[2 * k], parts[2 * k + 1])
  {
    if |parts| < 2 then [] else [(parts[0], parts[1])] + PairsOf(parts[2..])
  }

  function AddPairs(f: APattern, pairs: seq<(string, string)>): (r: APattern)
    ensures WellFormed(f) ==> WellFormed(r)
    decreases |pairs|
  {
    if |pairs| == 0 then f
    else AddPairs(AddValue(f, pairs[0].0, pairs[0].1), pairs[1..])
  }

  function Lookup(families: Families, name: string): APattern {
    if name in families then families[name] else EmptyFamily
  }

  ghost predicate AllWellFormed(families: Families) {
    forall name :: name in families ==> WellFormed(families[name])
  }

  /** What a walk item of the base-pattern directory contributes: its family
      and its pairs, or nothing for an unreadable item or a non-file. */
  function BaseContribution(e: Option<DirEntry>): Option<(string, seq<(string, string)>)> {
    if e.None? || !e.value.isFile then None
    else match Paths.FileName(e.value.path)
      case None => None
      case Some(name) =>
        var parts := Strings.Split(Paths.FileStem(name), "_");
        Some((parts[0], PairsOf(parts[1..])))
  }

  /** What a walk item of `custom_patterns` contributes: its whole file
      name, as the walk reports it. */
  function CustomContribution(e: Option<DirEntry>): Option<(string, seq<(string, string)>)> {
    if e.None? || !e.value.isFile then None
    else
      var name := match Paths.FileName(e.value.path) case Some(n) => n case None => e.value.path;
      Some(("custom", [("filename", name)]))
  }

  /** Creating the family entry before reading the pairs: a family appears
      even when its file name has no complete pair. */
  function Contribute(families: Families, c: Option<(string, seq<(string, string)>)>): (r: Families)
    ensures AllWellFormed(families) ==> AllWellFormed(r)
  {
    match c
    case None => families
    case Some((name, pairs)) => families[name := AddPairs(Lookup(families, name), pairs)]
  }

  function BaseFamilies(entries: seq<Option<DirEntry>>): (r: Families)
    ensures AllWellFormed(r)
  {
    if |entries| == 0 then map[]
    else Contribute(BaseFamilies(entries[..|entries| - 1]), BaseContribution(entries[|entries| - 1]))
  }

  function CustomFamilies(start: Families, entries: seq<Option<DirEntry>>): (r: Families)
    ensures AllWellFormed(start) ==> AllWellFormed(r)
  {
    if |entries| == 0 then start
    else Contribute(CustomFamilies(start, entries[..|entries| - 1]), CustomContribution(entries[|entries| - 1]))
  }

  /** The families of the catalog for the two walks, in walk order. */
  function CatalogFamilies(base: seq<Option<DirEntry>>, custom: seq<Option<DirEntry>>): (r: Families)
    ensures AllWellFormed(r)
  {
    CustomFamilies(BaseFamilies(base), custom)
  }

  // ------------------------------------------------------------- sorting

  predicate StrictlySorted(xs: seq<string>) {
    forall i, j :: 0 <= i < j < |xs| ==> Strings.Less(xs[i], xs[j])
  }

  /** Inserts `x` at its place in a strictly ascending sequence. */
  function InsertSorted(xs: seq<string>, x: string): (r: seq<string>)
    requires StrictlySorted(xs)
    ensures StrictlySorted(r)
    ensures forall y :: y in r <==> y in xs || y == x
  {
    if |xs| == 0 then [x]
    else if x == xs[0] then xs
    else if Strings.Less(x, xs[0]) then
      assert forall j :: 0 < j < |xs| ==> Strings.Less(x, xs[j]) by {
        forall j | 0 < j < |xs| ensures Strings.Less(x, xs[j]) {
          Strings.LessTransitive(x, xs[0], xs[j]);
        }
      }
      [x] + xs
    else
      Strings.LessTotal(x, xs[0]);
      var rest := InsertSorted(xs[1..], x);
      assert forall y :: y in rest ==> Strings.Less(xs[0], y) by {
        forall y | y in rest ensures Strings.Less(xs[0], y) {
          if y != x {
            var j :| 0 <= j < |xs[1..]| && xs[1..][j] == y;
            assert xs[j + 1] == y;
          }
        }
      }
      [xs[0]] + rest
  }

  lemma {:induction false} SortedExists(s: set<string>)
    ensures exists r :: StrictlySorted(r) && forall y :: y in r <==> y in s
    decreases |s|
  {
    if s == {} {
      assert StrictlySorted([]);
      assert forall y :: y in [] <==> y in s;
    } else {
      var x :| x in s;
      SortedExists(s - {x});
      var r :| StrictlySorted(r) && forall y :: y in r <==> y in s - {x};
      var r' := InsertSorted(r, x);
      assert forall y :: y in r' <==> y in s;
    }
  }

  /** The names of `s` in ascending order, each once. */
  ghost function SortedKeys(s: set<string>): (r: seq<string>)
    ensures StrictlySorted(r)
    ensures forall y :: y in r <==> y in s
  {
    SortedExists(s);
    var r :| StrictlySorted(r) && forall y :: y in r <==> y in s;
    r
  }

  lemma NonEmptyHasFirst(s: seq<string>)
    ensures |s| > 0 ==> s[0] in s
  {
  }

  /** A strictly ascending sequence is determined by its elements. */
  lemma {:induction false} SortedUnique(a: seq<string>, b: seq<string>)
    requires StrictlySorted(a) && StrictlySorted(b)
    requires forall y :: y in a <==> y in b
    ensures a == b
    decreases |a|
  {
    if |a| == 0 {
      NonEmptyHasFirst(b);
    } else {
      assert a[0] in b;
      var k :| 0 <= k < |b| && b[k] == a[0];
      assert b[0] in a;
      var m :| 0 <= m < |a| && a[m] == b[0];
      assert !(Strings.Less(a[0], b[0]) && Strings.Less(b[0], a[0])) by {
        if Strings.Less(a[0], b[0]) {
          Strings.LessAsymmetric(a[0], b[0]);
        }
      }
      assert a[0] == b[0];
      forall y
        ensures y in a[1..] <==> y in b[1..]
      {
        if y in a[1..] {
          var i :| 0 <= i < |a[1..]| && a[1..][i] == y;
          Strings.LessIrreflexive(a[0]);
          assert Strings.Less(a[0], a[i + 1]);
          assert y in b;
          var j :| 0 <= j < |b| && b[j] == y;
          assert j != 0;
          assert b[1..][j - 1] == y;
        }
        if y in b[1..] {
          var i :| 0 <= i < |b[1..]| && b[1..][i] == y;
          Strings.LessIrreflexive(b[0]);
          assert Strings.Less(b[0], b[i + 1]);
          assert y in a;
          var j :| 0 <= j < |a| && a[j] == y;
          assert j != 0;
          assert a[1..][j - 1] == y;
        }
      }
      SortedUnique(a[1..], b[1..]);
    }
  }

  /** `available_patterns`' result for the two walks. */
  ghost function CatalogOf(base: seq<Option<DirEntry>>, custom: seq<Option<DirEntry>>): AvailablePatterns {
    var families := CatalogFamilies(base, custom);
    AvailablePatterns.AvailablePatterns(families, SortedKeys(families.Keys))
  }

  // ------------------------------------------------------ the indexer

  /** The indexer as the source runs it: the families are built in place,
      one walk item and one pair at a time, then the family names are
      collected and sorted. */
  method BuildCatalog(base: seq<Option<DirEntry>>, custom: seq<Option<DirEntry>>) returns (catalog: AvailablePatterns)
    ensures catalog == CatalogOf(base, custom)
  {
    var families: Families := map[];
    for i := 0 to |base|
      invariant families == BaseFamilies(base[..i])
    {
      assert base[..i + 1][..i] == base[..i];
      families := ProcessBaseEntry(families, base[i]);
    }
    assert base[..|base|] == base;
    var start := families;
    for i := 0 to |custom|
      invariant families == CustomFamilies(start, custom[..i])
    {
      assert custom[..i + 1][..i] == custom[..i];
      var c := CustomContribution(custom[i]);
      if c.Some? {
        var entry := Lookup(families, "custom");
        assert AddPairs(entry, c.value.1) == AddValue(entry, "filename", c.value.1[0].1);
        families := families["custom" := AddValue(entry, "filename", c.value.1[0].1)];
      }
    }
    assert custom[..|custom|] == custom;
    var names := SortNames(families.Keys);
    SortedUnique(names, SortedKeys(families.Keys));
    catalog := AvailablePatterns.AvailablePatterns(families, names);
  }

  /** One item of the base-pattern walk: the family entry is created, then
      the parts after the family name are consumed two at a time until none
      or only a property without a value is left. */
  method ProcessBaseEntry(families: Families, e: Option<DirEntry>) returns (r: Families)
    ensures r == Contribute(families, BaseContribution(e))
  {
    r := families;
    if e.None? || !e.value.isFile {
      return;
    }
    var fileName := Paths.FileName(e.value.path);
    if fileName.None? {
      return;
    }
    var parts := Strings.Split(Paths.FileStem(fileName.value), "_");
    var name := parts[0];
    var entry := ConsumePairs(Lookup(r, name), parts);
    r := r[name := entry];
  }

  /** The loop over the parts after the family name: they are consumed two
      at a time until none, or only a property without a value, is left. */
  method ConsumePairs(start: APattern, parts: seq<string>) returns (entry: APattern)
    requires |parts| > 0
    ensures entry == AddPairs(start, PairsOf(parts[1..]))
  {
    entry := start;
    ghost var pairs := PairsOf(parts[1..]);
    ghost var n := 0;
    var k := 1;
    while k < |parts|
      invariant k == 2 * n + 1 && n <= |pairs|
      invariant entry == AddPairs(start, pairs[..n])
      decreases |parts| - k
    {
      var property := parts[k];
      if k + 1 >= |parts| {
        break;
      }
      var value := parts[k + 1];
      PairAt(parts, n);
      AddPairsStep(start, pairs, n);
      entry := AddValue(entry, property, value);
      k := k + 2;
      n := n + 1;
    }
    assert n == |pairs|;
    assert pairs[..n] == pairs;
  }

  lemma PairAt(parts: seq<string>, n: nat)
    requires 2 * n + 2 < |parts|
    ensures n < |PairsOf(parts[1..])|
    ensures PairsOf(parts[1..])[n] == (parts[2 * n + 1], parts[2 * n + 2])
  {
    assert parts[1..][2 * n] == parts[2 * n + 1];
    assert parts[1..][2 * n + 1] == parts[2 * n + 2];
  }

  lemma {:induction false} AddPairsStep(f: APattern, pairs: seq<(string, string)>, n: nat)
    requires n < |pairs|
    ensures AddPairs(f, pairs[..n + 1]) == AddValue(AddPairs(f, pairs[..n]), pairs[n].0, pairs[n].1)
    decreases n
  {
    if n > 0 {
      var g := AddValue(f, pairs[0].0, pairs[0].1);
      assert pairs[..n + 1][1..] == pairs[1..][..n];
      assert pairs[..n][1..] == pairs[1..][..n - 1];
      AddPairsStep(g, pairs[1..], n - 1);
    } else {
      assert pairs[..1][1..] == [];
    }
  }

  /** `keys().collect()` followed by `sort()`. */
  method SortNames(keys: set<string>) returns (names: seq<string>)
    ensures StrictlySorted(names)
    ensures forall y :: y in names <==> y in keys
  {
    names := [];
    var rest := keys;
    while rest != {}
      invariant rest <= keys
      invariant StrictlySorted(names)
      invariant forall y :: y in names <==> y in keys - rest
      decreases |rest|
    {
      var k :| k in rest;
      names := InsertSorted(names, k);
      rest := rest - {k};
    }
  }
}
