/** What the catalog holds, stated independently of how the indexer folds
    the directory walks: read all walk items in order as a list of
    `(family, property, value)` records; then each family's properties are
    the properties of its records without repetition, in the order first
    seen, each property's values are the values of its records in walk order,
    and the families are exactly the families named by some file, including
    those whose name carried no complete pair. */
module CatalogProperties {
  import opened Wrappers
  import opened Schema
  import opened Catalog
  import Strings

  type Record = (string, string, string)

  /** The records of one family's pairs. */
  function Tag(name: string, pairs: seq<(string, string)>): (t: seq<Record>)
    ensures |t| == |pairs|
    ensures forall i :: 0 <= i < |t| ==> t[i] == (name, pairs[i].0, pairs[i].1)
  {
    if |pairs| == 0 then [] else [(name, pairs[0].0, pairs[0].1)] + Tag(name, pairs[1..])
  }

  function ContributionRecords(c: Option<(string, seq<(string, string)>)>): seq<Record> {
    match c
    case None => []
    case Some((name, pairs)) => Tag(name, pairs)
  }

  function ContributionNames(c: Option<(string, seq<(string, string)>)>): set<string> {
    match c
    case None => {}
    case Some((name, _)) => {name}
  }

  function BaseRecords(entries: seq<Option<DirEntry>>): seq<Record> {
    if |entries| == 0 then []
    else BaseRecords(entries[..|entries| - 1]) + ContributionRecords(BaseContribution(entries[|entries| - 1]))
  }

  function BaseNames(entries: seq<Option<DirEntry>>): set<string> {
    if |entries| == 0 then {}
    else BaseNames(entries[..|entries| - 1]) + ContributionNames(BaseContribution(entries[|entries| - 1]))
  }

  /** The records `t` followed by those of the `custom_patterns` walk. */
  function CustomRecordsAfter(t: seq<Record>, entries: seq<Option<DirEntry>>): seq<Record> {
    if |entries| == 0 then t
    else CustomRecordsAfter(t, entries[..|entries| - 1]) + ContributionRecords(CustomContribution(entries[|entries| - 1]))
  }

  function CustomNamesAfter(names: set<string>, entries: seq<Option<DirEntry>>): set<string> {
    if |entries| == 0 then names
    else CustomNamesAfter(names, entries[..|entries| - 1]) + ContributionNames(CustomContribution(entries[|entries| - 1]))
  }

  /** The records of both walks, in walk order. */
  function AllRecords(base: seq<Option<DirEntry>>, custom: seq<Option<DirEntry>>): seq<Record> {
    CustomRecordsAfter(BaseRecords(base), custom)
  }

  /** The families named by some file of either walk. */
  function AllNames(base: seq<Option<DirEntry>>, custom: seq<Option<DirEntry>>): set<string> {
    CustomNamesAfter(BaseNames(base), custom)
  }

  /** The properties of family `f`'s records, in record order. */
  function PropsOf(t: seq<Record>, f: string): seq<string> {
    if |t| == 0 then []
    else PropsOf(t[..|t| - 1], f) + (if t[|t| - 1].0 == f then [t[|t| - 1].1] else [])
  }

  /** The values of family `f`'s records for property `p`, in record order. */
  function ValuesOf(t: seq<Record>, f: string, p: string): seq<string> {
    if |t| == 0 then []
    else ValuesOf(t[..|t| - 1], f, p) + (if t[|t| - 1].0 == f && t[|t| - 1].1 == p then [t[|t| - 1].2] else [])
  }

  /** The elements of `xs` without repetition, each where first seen. */
  function Dedup(xs: seq<string>): (r: seq<string>)
    ensures forall x :: x in r <==> x in xs
  {
    if |xs| == 0 then []
    else
      var d := Dedup(xs[..|xs| - 1]);
      assert forall x :: x in xs <==> x in xs[..|xs| - 1] || x == xs[|xs| - 1] by {
        assert xs == xs[..|xs| - 1] + [xs[|xs| - 1]];
      }
      if xs[|xs| - 1] in d then d else d + [xs[|xs| - 1]]
  }

  /** `a` is family `f` as the records describe it: its properties are
      the family's recorded properties without repetition, in the order
      first seen, and each has exactly its recorded values, in order. */
  ghost predicate Describes(a: APattern, t: seq<Record>, f: string) {
    a.properties == Dedup(PropsOf(t, f)) &&
    (forall p :: p in a.propertyValues <==> p in a.properties) &&
    (forall p :: p in a.propertyValues ==> a.propertyValues[p] == ValuesOf(t, f, p))
  }

  ghost predicate Matches(m: Families, names: set<string>, t: seq<Record>) {
    m.Keys == names &&
    (forall f :: f in m ==> Describes(m[f], t, f)) &&
    (forall i :: 0 <= i < |t| ==> t[i].0 in names)
  }

  // ------------------------------------------------------------ the steps

  lemma {:induction false} PropsOfAbsent(t: seq<Record>, f: string)
    requires forall i :: 0 <= i < |t| ==> t[i].0 != f
    ensures PropsOf(t, f) == []
  {
    if |t| > 0 {
      PropsOfAbsent(t[..|t| - 1], f);
    }
  }

  /** A property never recorded for a family has no values. */
  lemma {:induction false} ValuesOfUnlisted(t: seq<Record>, f: string, p: string)
    requires p !in PropsOf(t, f)
    ensures ValuesOf(t, f, p) == []
  {
    if |t| > 0 {
      ValuesOfUnlisted(t[..|t| - 1], f, p);
    }
  }

  /** Appending a record extends its family's property list, and the value
      list of its family and property, and nothing else. */
  lemma PropsSnoc(t: seq<Record>, x: Record, g: string)
    ensures PropsOf(t + [x], g) == if x.0 == g then PropsOf(t, g) + [x.1] else PropsOf(t, g)
  {
    assert (t + [x])[..|t|] == t;
  }

  lemma ValuesSnoc(t: seq<Record>, x: Record, g: string, q: string)
    ensures ValuesOf(t + [x], g, q) == if x.0 == g && x.1 == q then ValuesOf(t, g, q) + [x.2] else ValuesOf(t, g, q)
  {
    assert (t + [x])[..|t|] == t;
  }

  lemma DedupSnoc(xs: seq<string>, p: string)
    ensures Dedup(xs + [p]) == if p in Dedup(xs) then Dedup(xs) else Dedup(xs) + [p]
  {
    assert (xs + [p])[..|xs|] == xs;
  }

  /** No element is kept twice. */
  lemma {:induction false} DedupNoDup(xs: seq<string>)
    ensures NoDup(Dedup(xs))
  {
    if |xs| > 0 {
      DedupNoDup(xs[..|xs| - 1]);
    }
  }

  lemma TagCons(t: seq<Record>, f: string, pairs: seq<(string, string)>)
    requires |pairs| > 0
    ensures t + Tag(f, pairs) == (t + [(f, pairs[0].0, pairs[0].1)]) + Tag(f, pairs[1..])
  {
    var x := (f, pairs[0].0, pairs[0].1);
    assert Tag(f, pairs) == [x] + Tag(f, pairs[1..]);
    assert t + ([x] + Tag(f, pairs[1..])) == (t + [x]) + Tag(f, pairs[1..]);
  }

  /** A family with no records is described by the empty family that
      `or_default` creates. */
  lemma EmptyDescribes(t: seq<Record>, f: string)
    requires forall i :: 0 <= i < |t| ==> t[i].0 != f
    ensures Describes(EmptyFamily, t, f)
  {
    PropsOfAbsent(t, f);
  }

  /** One more record changes its own family exactly as `process_value`
      does. */
  lemma DescribesStep(a: APattern, t: seq<Record>, f: string, p: string, v: string)
    requires WellFormed(a) && Describes(a, t, f)
    ensures Describes(AddValue(a, p, v), t + [(f, p, v)], f)
  {
    var x := (f, p, v);
    var t' := t + [x];
    var b := AddValue(a, p, v);
    assert b.properties == Dedup(PropsOf(t', f)) by {
      PropsSnoc(t, x, f);
      DedupSnoc(PropsOf(t, f), p);
    }
    forall q | q in b.propertyValues
      ensures b.propertyValues[q] == ValuesOf(t', f, q)
    {
      ValuesSnoc(t, x, f, q);
      if q == p && p !in a.properties {
        ValuesOfUnlisted(t, f, p);
      }
    }
  }

  /** A record of one family leaves the description of every other family
      as it was. */
  lemma DescribesOther(a: APattern, t: seq<Record>, x: Record, g: string)
    requires x.0 != g && Describes(a, t, g)
    ensures Describes(a, t + [x], g)
  {
    PropsSnoc(t, x, g);
    forall q | q in a.propertyValues
      ensures a.propertyValues[q] == ValuesOf(t + [x], g, q)
    {
      ValuesSnoc(t, x, g, q);
    }
  }

  lemma DescribesWellFormed(a: APattern, t: seq<Record>, f: string)
    requires Describes(a, t, f)
    ensures WellFormed(a)
  {
  }

  /** A family's pairs act on it as their records describe them. */
  lemma {:induction false} AddPairsDescribes(a: APattern, t: seq<Record>, f: string, pairs: seq<(string, string)>)
    requires WellFormed(a) && Describes(a, t, f)
    ensures Describes(AddPairs(a, pairs), t + Tag(f, pairs), f)
    decreases |pairs|
  {
    if |pairs| == 0 {
      assert t + Tag(f, pairs) == t;
    } else {
      var x := (f, pairs[0].0, pairs[0].1);
      var t1 := t + [x];
      var a1 := AddValue(a, x.1, x.2);
      TagCons(t, f, pairs);
      assert Describes(a1, t1, f) by {
        DescribesStep(a, t, f, x.1, x.2);
      }
      assert AddPairs(a, pairs) == AddPairs(a1, pairs[1..]);
      AddPairsDescribes(a1, t1, f, pairs[1..]);
    }
  }

  /** A family's pairs leave the description of every other family as it
      was. */
  lemma {:induction false} TagOther(a: APattern, t: seq<Record>, f: string, pairs: seq<(string, string)>, g: string)
    requires f != g && Describes(a, t, g)
    ensures Describes(a, t + Tag(f, pairs), g)
    decreases |pairs|
  {
    if |pairs| == 0 {
      assert t + Tag(f, pairs) == t;
    } else {
      var x := (f, pairs[0].0, pairs[0].1);
      var t1 := t + [x];
      assert Describes(a, t1, g) by {
        DescribesOther(a, t, x, g);
      }
      TagOther(a, t1, f, pairs[1..], g);
      TagCons(t, f, pairs);
    }
  }

  lemma ContributeMatches(m: Families, names: set<string>, t: seq<Record>, c: Option<(string, seq<(string, string)>)>)
    requires Matches(m, names, t)
    ensures Matches(Contribute(m, c), names + ContributionNames(c), t + ContributionRecords(c))
  {
    if c.None? {
      assert t + [] == t;
    } else {
      var (name, pairs) := c.value;
      var t' := t + Tag(name, pairs);
      var m' := Contribute(m, c);
      assert m'.Keys == names + {name};
      assert forall f :: f in m' ==> Describes(m'[f], t', f) by {
        forall f | f in m'
          ensures Describes(m'[f], t', f)
        {
          if f == name {
            assert Describes(Lookup(m, name), t, name) by {
              if name !in m {
                EmptyDescribes(t, name);
              }
            }
            AddPairsDescribes(Lookup(m, name), t, name, pairs);
          } else {
            TagOther(m[f], t, name, pairs, f);
          }
        }
      }
      assert forall i :: 0 <= i < |t'| ==> t'[i].0 in names + {name} by {
        TagFamilies(t, name, pairs, names);
      }
    }
  }

  lemma TagFamilies(t: seq<Record>, name: string, pairs: seq<(string, string)>, names: set<string>)
    requires forall i :: 0 <= i < |t| ==> t[i].0 in names
    ensures forall i :: 0 <= i < |t + Tag(name, pairs)| ==> (t + Tag(name, pairs))[i].0 in names + {name}
  {
    var t' := t + Tag(name, pairs);
    forall i | 0 <= i < |t'|
      ensures t'[i].0 in names + {name}
    {
      if i >= |t| {
        assert t'[i] == Tag(name, pairs)[i - |t|];
      }
    }
  }

  lemma {:induction false} BaseMatches(entries: seq<Option<DirEntry>>)
    ensures Matches(BaseFamilies(entries), BaseNames(entries), BaseRecords(entries))
  {
    if |entries| > 0 {
      var init := entries[..|entries| - 1];
      BaseMatches(init);
      ContributeMatches(BaseFamilies(init), BaseNames(init), BaseRecords(init), BaseContribution(entries[|entries| - 1]));
    }
  }

  lemma {:induction false} CustomMatches(start: Families, names: set<string>, t: seq<Record>, entries: seq<Option<DirEntry>>)
    requires Matches(start, names, t)
    ensures Matches(CustomFamilies(start, entries), CustomNamesAfter(names, entries), CustomRecordsAfter(t, entries))
  {
    if |entries| > 0 {
      var init := entries[..|entries| - 1];
      CustomMatches(start, names, t, init);
      ContributeMatches(CustomFamilies(start, init), CustomNamesAfter(names, init), CustomRecordsAfter(t, init), CustomContribution(entries[|entries| - 1]));
    }
  }

  // ----------------------------------------------------------- the theorem

  /** The catalog for two walks, read as records: one entry per family named
      by some file, each as its records describe it, and the family names in
      ascending order, each once. */
  lemma CatalogDescribed(base: seq<Option<DirEntry>>, custom: seq<Option<DirEntry>>)
    ensures var t := AllRecords(base, custom);
      var c := CatalogOf(base, custom);
      c.patterns.Keys == AllNames(base, custom) &&
      (forall f :: f in c.patterns ==> Describes(c.patterns[f], t, f)) &&
      StrictlySorted(c.patternNames) && NoDup(c.patternNames) &&
      (forall f :: f in c.patternNames <==> f in c.patterns)
  {
    var t := AllRecords(base, custom);
    var names := AllNames(base, custom);
    var m := CatalogFamilies(base, custom);
    assert Matches(m, names, t) by {
      BaseMatches(base);
      CustomMatches(BaseFamilies(base), BaseNames(base), BaseRecords(base), custom);
    }
    var sorted := CatalogOf(base, custom).patternNames;
    forall i, j | 0 <= i < j < |sorted|
      ensures sorted[i] != sorted[j]
    {
      Strings.LessIrreflexive(sorted[i]);
    }

  }

  /** A description determines the family. */
  lemma DescribesUnique(a: APattern, b: APattern, t: seq<Record>, f: string)
    requires Describes(a, t, f) && Describes(b, t, f)
    ensures a == b
  {
    assert a.propertyValues == b.propertyValues;
  }

  /** Every family lists each of its recorded properties once, and every
      recorded property has at least one value. */
  lemma CatalogFamilyContents(base: seq<Option<DirEntry>>, custom: seq<Option<DirEntry>>, f: string)
    requires f in CatalogOf(base, custom).patterns
    ensures var t := AllRecords(base, custom);
      var a := CatalogOf(base, custom).patterns[f];
      NoDup(a.properties) &&
      (forall p :: p in a.properties <==> p in PropsOf(t, f)) &&
      (forall p :: p in a.propertyValues ==> a.propertyValues[p] == ValuesOf(t, f, p) && a.propertyValues[p] != [])
  {
    CatalogDescribed(base, custom);
    var t := AllRecords(base, custom);
    DedupNoDup(PropsOf(t, f));
    forall p | p in PropsOf(t, f)
      ensures ValuesOf(t, f, p) != []
    {
      ValuesOfListed(t, f, p);
    }
  }

  /** A property recorded for a family has at least one value. */
  lemma {:induction false} ValuesOfListed(t: seq<Record>, f: string, p: string)
    requires p in PropsOf(t, f)
    ensures ValuesOf(t, f, p) != []
  {
    var init := t[..|t| - 1];
    if p !in PropsOf(init, f) {
      assert t[|t| - 1].0 == f && t[|t| - 1].1 == p;
    } else {
      ValuesOfListed(init, f, p);
    }
  }
}
