/** Where the controller looks for the image files behind a pattern: the
    flatness correction for a wavelength (src/message_loop.rs:249-269), the
    file of a base or custom pattern (src/message_loop.rs:271-294) and the
    place an uploaded image is written to (src/message_loop.rs:515-521).
    Whether a path names a regular file is a predicate `isFile` on paths. */
module Resolve {
  import opened Wrappers
  import opened Schema
  import Strings
  import Paths
  import Catalog

  type Path = Paths.Path

  /** The position of the first candidate that is a file. */
  function FirstFile(isFile: Path -> bool, candidates: seq<Path>): (r: Option<nat>)
    ensures r.Some? ==> r.value < |candidates| && isFile(candidates[r.value])
    ensures r.Some? ==> forall j :: 0 <= j < r.value ==> !isFile(candidates[j])
    ensures r.None? ==> forall j :: 0 <= j < |candidates| ==> !isFile(candidates[j])
  {
    if |candidates| == 0 then None
    else if isFile(candidates[0]) then Some(0)
    else match FirstFile(isFile, candidates[1..])
      case None => None
      case Some(i) => Some(i + 1)
  }

  /** Probing two lists one after the other: the second list is reached
      only when no candidate of the first is a file. */
  lemma FirstFileConcat(isFile: Path -> bool, a: seq<Path>, b: seq<Path>)
    ensures FirstFile(isFile, a + b) ==
      match FirstFile(isFile, a)
      case Some(i) => Some(i)
      case None =>
        match FirstFile(isFile, b)
        case Some(j) => Some(|a| + j)
        case None => None
  {
    var c := a + b;
    match FirstFile(isFile, a)
    case Some(i) =>
      assert c[i] == a[i];
      assert forall j :: 0 <= j < i ==> c[j] == a[j];
    case None =>
      match FirstFile(isFile, b)
      case Some(j) =>
        assert c[|a| + j] == b[j];
        assert forall k :: 0 <= k < |a| ==> c[k] == a[k];
        assert forall k :: |a| <= k < |a| + j ==> c[k] == b[k - |a|];
      case None =>
        assert forall k :: 0 <= k < |c| ==> c[k] == if k < |a| then a[k] else b[k - |a|];
  }

  // ------------------------------------------------- flatness correction

  /** The plain name is probed before the factory one. */
  const FactorySuffixes: seq<string> := ["", "_factory"]

  function FlatnessName(wavelength: u32): string {
    "flatness_wavelength_" + Strings.NatToString(wavelength)
  }

  /** `stem` with each extension in turn, directly under `dir`; the
      extension is appended as it is, dot included if it has one. */
  function Probes(dir: Path, stem: string, exts: seq<string>): seq<Path> {
    seq(|exts|, e requires 0 <= e < |exts| => Paths.Join(dir, stem + exts[e]))
  }

  /** The paths probed, in order: for every suffix in turn, the name with
      that suffix and every extension. */
  function Candidates(dir: Path, name: string, suffixes: seq<string>, exts: seq<string>): seq<Path> {
    if |suffixes| == 0 then []
    else Probes(dir, name + suffixes[0], exts) + Candidates(dir, name, suffixes[1..], exts)
  }

  /** The first candidate that is a file, or an error naming the
      wavelength. */
  function FlatnessPath(dir: Path, exts: seq<string>, isFile: Path -> bool, wavelength: u32): Result<Path> {
    var candidates := Candidates(dir, FlatnessName(wavelength), FactorySuffixes, exts);
    match FirstFile(isFile, candidates)
    case Some(i) => Ok(candidates[i])
    case None => Fail("No flatness correction pattern for wavelength " + Strings.NatToString(wavelength))
  }

  /** The flatness file is the first plain file over the extensions in
      order; only when there is none is the first factory file taken, and
      when there is neither the error names the wavelength. */
  lemma FlatnessPlainFirst(dir: Path, exts: seq<string>, isFile: Path -> bool, wavelength: u32)
    ensures var plain := Probes(dir, FlatnessName(wavelength), exts);
      var factory := Probes(dir, FlatnessName(wavelength) + "_factory", exts);
      FlatnessPath(dir, exts, isFile, wavelength) ==
        match FirstFile(isFile, plain)
        case Some(i) => Ok(plain[i])
        case None =>
          match FirstFile(isFile, factory)
          case Some(j) => Ok(factory[j])
          case None => Fail("No flatness correction pattern for wavelength " + Strings.NatToString(wavelength))
  {
    var name := FlatnessName(wavelength);
    var plain := Probes(dir, name, exts);
    var factory := Probes(dir, name + "_factory", exts);
    assert Candidates(dir, name, FactorySuffixes[2..], exts) == [];
    assert Candidates(dir, name, FactorySuffixes[1..], exts) == factory + [] by {
      assert FactorySuffixes[1..][1..] == FactorySuffixes[2..];
    }
    assert plain == Probes(dir, name + "", exts) by {
      assert name + "" == name;
    }
    FirstFileConcat(isFile, plain, factory);
    assert factory + [] == factory;
    var c := plain + factory;
    match FirstFile(isFile, plain)
    case Some(i) =>
      assert c[i] == plain[i];
    case None =>
      match FirstFile(isFile, factory)
      case Some(j) =>
        assert c[|plain| + j] == factory[j];
      case None =>
  }

  /** A flatness file found is `flatness_wavelength_<w>` followed by one of
      the suffixes and the `i`-th extension, directly under `dir`; the
      suffix is empty exactly when some plain name is a file, and then `i`
      is the first such. */
  lemma FlatnessPathForm(dir: Path, exts: seq<string>, isFile: Path -> bool, wavelength: u32) returns (suffix: string, i: nat)
    requires FlatnessPath(dir, exts, isFile, wavelength).Ok?
    ensures suffix in FactorySuffixes && i < |exts|
    ensures FlatnessPath(dir, exts, isFile, wavelength).value == Paths.Join(dir, FlatnessName(wavelength) + suffix + exts[i])
    ensures FirstFile(isFile, Probes(dir, FlatnessName(wavelength), exts)) == if suffix == "" then Some(i) else None
  {
    var name := FlatnessName(wavelength);
    var plain := Probes(dir, name, exts);
    var factory := Probes(dir, name + "_factory", exts);
    var found := FlatnessPath(dir, exts, isFile, wavelength).value;
    var p, f := FirstFile(isFile, plain), FirstFile(isFile, factory);
    if p.Some? {
      assert found == plain[p.value] by {
        FlatnessPlainFirst(dir, exts, isFile, wavelength);
      }
      suffix, i := "", p.value;
      assert plain[i] == Paths.Join(dir, name + suffix + exts[i]) by {
        EmptySuffix(name, exts[i]);
      }
    } else {
      assert f.Some? && found == factory[f.value] by {
        FlatnessPlainFirst(dir, exts, isFile, wavelength);
      }
      suffix, i := "_factory", f.value;
    }
  }

  lemma EmptySuffix(name: string, ext: string)
    ensures name + "" + ext == name + ext
  {
    assert name + "" == name;
  }

  /** No `_` of a flatness file name is followed by `f`, so "_factory"
      occurs nowhere in it, whatever `_`-free extension follows. */
  lemma FlatnessNameUnfactoried(wavelength: u32, ext: string)
    requires Strings.FreeOf(ext, '_')
    ensures Strings.Find(FlatnessName(wavelength) + ext, "_factory").None?
  {
    var prefix := "flatness_wavelength_";
    var digits := Strings.NatToString(wavelength);
    var s := FlatnessName(wavelength) + ext;
    assert s == prefix + digits + ext;
    forall j | 0 <= j < |s| - 1 && s[j] == '_'
      ensures s[j + 1] != 'f'
    {
      if j < 19 {
        assert s[j] == prefix[j] && s[j + 1] == prefix[j + 1];
      } else if j == 19 {
        assert s[j + 1] == digits[0];
      }
    }
    Strings.AbsentByPair(s, "_factory");
  }

  /** Removing every "_factory" from the name of a flatness file, plain or
      factory, gives the plain name. */
  lemma FactoryRemoved(wavelength: u32, suffix: string, ext: string)
    requires suffix in FactorySuffixes && Strings.FreeOf(ext, '_')
    ensures Strings.Replace(FlatnessName(wavelength) + suffix + ext, "_factory", "") == FlatnessName(wavelength) + ext
  {
    var name := FlatnessName(wavelength);
    if suffix == "" {
      assert name + suffix + ext == name + ext;
      FlatnessNameUnfactoried(wavelength, ext);
      Strings.ReplaceAbsent(name + ext, "_factory", "");
    } else {
      FlatnessNameUnfactoried(wavelength, "");
      assert name + "" == name;
      Strings.FreeOfFirstChar(ext, "_factory");
      Strings.UniqueLastCharUnbordered("_factory");
      Strings.ReplaceOnce(name, "_factory", ext, "");
      assert name + "" + ext == name + ext;
    }
  }

  // ------------------------------------------------- correction target

  /** The file a correction of the flatness file `found` is saved to: the
      same directory, the file name with every "_factory" removed; `None`
      where the path has no file name and the unwrap panics. */
  function CorrectionTarget(found: Path): Option<Path> {
    match Paths.FileName(found)
    case None => None
    case Some(name) => Some(Paths.SetFileName(found, Strings.Replace(name, "_factory", "")))
  }

  /** Extensions that hold neither `_` nor a separator. */
  predicate PlainExtensions(exts: seq<string>) {
    forall e :: e in exts ==> Strings.FreeOf(e, '_') && Strings.FreeOf(e, '/')
  }

  /** A flatness file name is a single ordinary path component. */
  lemma FlatnessNamePlain(wavelength: u32, suffix: string, ext: string)
    requires suffix in FactorySuffixes && Strings.FreeOf(ext, '/')
    ensures Paths.IsPlainName(FlatnessName(wavelength) + suffix + ext)
  {
    var prefix := "flatness_wavelength_";
    var digits := Strings.NatToString(wavelength);
    var s := FlatnessName(wavelength) + suffix + ext;
    assert s == prefix + digits + suffix + ext;
    forall k | 0 <= k < |s|
      ensures s[k] != '/'
    {
      if k < |prefix| {
        assert s[k] == prefix[k];
      } else if k < |prefix| + |digits| {
        assert s[k] == digits[k - |prefix|];
      } else if k < |prefix| + |digits| + |suffix| {
        assert s[k] == suffix[k - |prefix| - |digits|];
      } else {
        assert s[k] == ext[k - |prefix| - |digits| - |suffix|];
      }
    }
  }

  /** A correction of the flatness file found is saved under the plain
      name with the found file's extension, directly under `dir`: the first
      plain file when there was one, else the plain counterpart of the
      factory file. */
  lemma CorrectionTargetPlain(dir: Path, exts: seq<string>, isFile: Path -> bool, wavelength: u32) returns (i: nat)
    requires FlatnessPath(dir, exts, isFile, wavelength).Ok?
    requires PlainExtensions(exts) && Paths.SingleTrailing(dir)
    ensures i < |exts|
    ensures var plain := Probes(dir, FlatnessName(wavelength), exts);
      CorrectionTarget(FlatnessPath(dir, exts, isFile, wavelength).value) == Some(plain[i]) &&
      (FirstFile(isFile, plain).Some? ==> FirstFile(isFile, plain) == Some(i))
  {
    var suffix;
    suffix, i := FlatnessPathForm(dir, exts, isFile, wavelength);
    var name := FlatnessName(wavelength);
    var ext := exts[i];
    var found := FlatnessPath(dir, exts, isFile, wavelength).value;
    assert Strings.FreeOf(ext, '_') && Strings.FreeOf(ext, '/');
    FlatnessNamePlain(wavelength, suffix, ext);
    FlatnessNamePlain(wavelength, "", ext);
    EmptySuffix(name, ext);
    Paths.LastComponentJoin(dir, name + suffix + ext);
    assert Paths.FileName(found) == Some(name + suffix + ext);
    FactoryRemoved(wavelength, suffix, ext);
    Paths.SetFileNameJoin(dir, name + suffix + ext, name + ext);
  }

  /** Making `s[i]` a file, where no earlier candidate was one, makes it
      the first file. */
  lemma FirstFileAfterAdding(isFile: Path -> bool, isFile': Path -> bool, s: seq<Path>, i: nat)
    requires i < |s|
    requires forall q :: isFile'(q) <==> isFile(q) || q == s[i]
    requires FirstFile(isFile, s).Some? ==> FirstFile(isFile, s) == Some(i)
    ensures FirstFile(isFile', s).Some? && s[FirstFile(isFile', s).value] == s[i]
  {
    assert isFile'(s[i]);
    var j := FirstFile(isFile', s).value;
    if s[j] != s[i] {
      assert false;
    }
  }

  /** Once the correction target is a file, it is the flatness file found
      for the wavelength: it is the first plain name that is a file. */
  lemma CorrectionFoundNext(dir: Path, exts: seq<string>, isFile: Path -> bool, isFile': Path -> bool, wavelength: u32)
    requires FlatnessPath(dir, exts, isFile, wavelength).Ok?
    requires PlainExtensions(exts) && Paths.SingleTrailing(dir)
    requires forall q :: isFile'(q) <==> isFile(q) || Some(q) == CorrectionTarget(FlatnessPath(dir, exts, isFile, wavelength).value)
    ensures var target := CorrectionTarget(FlatnessPath(dir, exts, isFile, wavelength).value);
      target.Some? && FlatnessPath(dir, exts, isFile', wavelength) == Ok(target.value)
  {
    var i := CorrectionTargetPlain(dir, exts, isFile, wavelength);
    var plain := Probes(dir, FlatnessName(wavelength), exts);
    FirstFileAfterAdding(isFile, isFile', plain, i);
    FlatnessPlainFirst(dir, exts, isFile', wavelength);
  }

  /** No candidate before the `e`-th extension of the `f`-th suffix is a
      file. */
  ghost predicate NoneBefore(isFile: Path -> bool, dir: Path, name: string, suffixes: seq<string>, exts: seq<string>, f: nat, e: nat) {
    forall f', e' :: 0 <= f' < |suffixes| && 0 <= e' < |exts| && (f' < f || (f' == f && e' < e)) ==>
      !isFile(Paths.Join(dir, name + suffixes[f'] + exts[e']))
  }

  /** The first file among the candidates is the first pair of suffix and
      extension, in loop order, that names a file. */
  lemma {:induction false} CandidatesFirst(isFile: Path -> bool, dir: Path, name: string, suffixes: seq<string>, exts: seq<string>, f: nat, e: nat)
    requires f < |suffixes| && e < |exts|
    requires NoneBefore(isFile, dir, name, suffixes, exts, f, e)
    requires isFile(Paths.Join(dir, name + suffixes[f] + exts[e]))
    ensures var c := Candidates(dir, name, suffixes, exts);
      FirstFile(isFile, c).Some? && c[FirstFile(isFile, c).value] == Paths.Join(dir, name + suffixes[f] + exts[e])
    decreases f
  {
    var head := Probes(dir, name + suffixes[0], exts);
    var rest := Candidates(dir, name, suffixes[1..], exts);
    FirstFileConcat(isFile, head, rest);
    if f == 0 {
      ProbesFirst(isFile, dir, name + suffixes[0], exts, e);
      assert (head + rest)[e] == head[e];
    } else {
      NoneBeforeShift(isFile, dir, name, suffixes, exts, f, e);
      assert suffixes[1..][f - 1] == suffixes[f];
      CandidatesFirst(isFile, dir, name, suffixes[1..], exts, f - 1, e);
      var j := FirstFile(isFile, rest).value;
      assert (head + rest)[|head| + j] == rest[j];
    }
  }

  /** The first probe of one stem that is a file. */
  lemma ProbesFirst(isFile: Path -> bool, dir: Path, stem: string, exts: seq<string>, e: nat)
    requires e < |exts| && isFile(Paths.Join(dir, stem + exts[e]))
    requires forall e' :: 0 <= e' < e ==> !isFile(Paths.Join(dir, stem + exts[e']))
    ensures FirstFile(isFile, Probes(dir, stem, exts)) == Some(e)
  {
    var head := Probes(dir, stem, exts);
    assert isFile(head[e]);
    forall j | 0 <= j < e
      ensures !isFile(head[j])
    {
    }
  }

  /** Past the first suffix, no probe of the first suffix is a file, and
      nothing before the position is a file among the other suffixes. */
  lemma NoneBeforeShift(isFile: Path -> bool, dir: Path, name: string, suffixes: seq<string>, exts: seq<string>, f: nat, e: nat)
    requires 0 < f < |suffixes|
    requires NoneBefore(isFile, dir, name, suffixes, exts, f, e)
    ensures FirstFile(isFile, Probes(dir, name + suffixes[0], exts)).None?
    ensures NoneBefore(isFile, dir, name, suffixes[1..], exts, f - 1, e)
  {
    var head := Probes(dir, name + suffixes[0], exts);
    forall j | 0 <= j < |exts|
      ensures !isFile(head[j])
    {
    }
    forall f', e' | 0 <= f' < |suffixes[1..]| && 0 <= e' < |exts| && (f' < f - 1 || (f' == f - 1 && e' < e))
      ensures !isFile(Paths.Join(dir, name + suffixes[1..][f'] + exts[e']))
    {
      assert suffixes[1..][f'] == suffixes[f' + 1];
    }
  }

  /** When no pair of suffix and extension names a file, no candidate is
      one. */
  lemma {:induction false} CandidatesNone(isFile: Path -> bool, dir: Path, name: string, suffixes: seq<string>, exts: seq<string>)
    requires NoneBefore(isFile, dir, name, suffixes, exts, |suffixes|, 0)
    ensures FirstFile(isFile, Candidates(dir, name, suffixes, exts)).None?
    decreases |suffixes|
  {
    if |suffixes| > 0 {
      var head := Probes(dir, name + suffixes[0], exts);
      var rest := Candidates(dir, name, suffixes[1..], exts);
      FirstFileConcat(isFile, head, rest);
      assert FirstFile(isFile, head).None? by {
        forall j | 0 <= j < |exts|
          ensures !isFile(head[j])
        {
        }
      }
      assert NoneBefore(isFile, dir, name, suffixes[1..], exts, |suffixes[1..]|, 0) by {
        forall f', e' | 0 <= f' < |suffixes[1..]| && 0 <= e' < |exts|
          ensures !isFile(Paths.Join(dir, name + suffixes[1..][f'] + exts[e']))
        {
          assert suffixes[1..][f'] == suffixes[f' + 1];
        }
      }
      CandidatesNone(isFile, dir, name, suffixes[1..], exts);
    }
  }

  /** `get_file_path_for_flatness_corr_pattern`: the nested probe loops
      with their early return. */
  method FindFlatnessFile(dir: Path, exts: seq<string>, isFile: Path -> bool, wavelength: u32) returns (r: Result<Path>)
    ensures r == FlatnessPath(dir, exts, isFile, wavelength)
  {
    var filename := "flatness_wavelength_" + Strings.NatToString(wavelength);
    for f := 0 to |FactorySuffixes|
      invariant NoneBefore(isFile, dir, filename, FactorySuffixes, exts, f, 0)
    {
      var factory := FactorySuffixes[f];
      for e := 0 to |exts|
        invariant NoneBefore(isFile, dir, filename, FactorySuffixes, exts, f, e)
      {
        var path := Paths.Join(dir, filename + factory + exts[e]);
        if isFile(path) {
          CandidatesFirst(isFile, dir, filename, FactorySuffixes, exts, f, e);
          return Ok(path);
        }
      }
    }
    CandidatesNone(isFile, dir, filename, FactorySuffixes, exts);
    return Fail("No flatness correction pattern for wavelength " + Strings.NatToString(wavelength));
  }

  // ---------------------------------------------------------- base patterns

  /** `filename` followed by `_property_value` for every property, in the
      order the properties are given. */
  function BaseStem(filename: string, properties: seq<(string, string)>): string
    decreases |properties|
  {
    if |properties| == 0 then filename
    else
      var last := properties[|properties| - 1];
      BaseStem(filename, properties[..|properties| - 1]) + "_" + last.0 + "_" + last.1
  }

  /** Setting each extension in turn on the path the previous one left,
      the first path that is a file. */
  function FirstProbe(path: Path, exts: seq<string>, isFile: Path -> bool): Option<Path>
    decreases |exts|
  {
    if |exts| == 0 then None
    else
      var probe := Paths.SetExtension(path, exts[0]);
      if isFile(probe) then Some(probe) else FirstProbe(probe, exts[1..], isFile)
  }

  /** `get_file_path_for_base_corr_pattern`: a spot pattern has no file; a
      custom pattern is its file name under the base-pattern directory, not
      probed; a base pattern is the first file among its extension probes.
      The error for a base pattern carries its family name; the source
      renders the whole pattern there. */
  function BasePath(basePatterns: Path, exts: seq<string>, isFile: Path -> bool, pattern: PatternParams): Result<Path> {
    match pattern
    case Spot(_) => Fail("Cannot get file path for the spot pattern")
    case Custom(c) => Ok(Paths.Join(basePatterns, c.filename))
    case Base(b) =>
      match FirstProbe(Paths.Join(basePatterns, BaseStem(b.filename, b.properties)), exts, isFile)
      case Some(path) => Ok(path)
      case None => Fail("Can't find file for base pattern " + b.filename)
  }

  /** The probe loop of a base pattern, with its early return. */
  method ProbeExtensions(start: Path, exts: seq<string>, isFile: Path -> bool) returns (found: Option<Path>)
    ensures found == FirstProbe(start, exts, isFile)
  {
    var path := start;
    for e := 0 to |exts|
      invariant FirstProbe(path, exts[e..], isFile) == FirstProbe(start, exts, isFile)
    {
      assert exts[e..][0] == exts[e] && exts[e..][1..] == exts[e + 1..];
      path := Paths.SetExtension(path, exts[e]);
      if isFile(path) {
        return Some(path);
      }
    }
    return None;
  }

  method ResolveBasePattern(basePatterns: Path, exts: seq<string>, isFile: Path -> bool, pattern: PatternParams) returns (r: Result<Path>)
    ensures r == BasePath(basePatterns, exts, isFile, pattern)
  {
    match pattern
    case Spot(_) =>
      return Fail("Cannot get file path for the spot pattern");
    case Custom(c) =>
      return Ok(Paths.Join(basePatterns, c.filename));
    case Base(b) =>
      var filename := b.filename;
      for i := 0 to |b.properties|
        invariant filename == BaseStem(b.filename, b.properties[..i])
      {
        var (property, value) := b.properties[i];
        assert b.properties[..i + 1][..i] == b.properties[..i];
        filename := filename + "_" + property + "_" + value;
      }
      assert b.properties[..|b.properties|] == b.properties;
      var found := ProbeExtensions(Paths.Join(basePatterns, filename), exts, isFile);
      if found.Some? {
        return Ok(found.value);
      }
      return Fail("Can't find file for base pattern " + b.filename);
  }

  /** An extension that `set_extension` replaces as a whole. */
  predicate PlainExtension(ext: string) {
    ext != "" && Strings.FreeOf(ext, '.') && Strings.FreeOf(ext, '/')
  }

  /** The start path with just the `k`-th extension, for every `k`. */
  function SingleExtensions(path: Path, exts: seq<string>): (singles: seq<Path>)
    ensures |singles| == |exts|
    decreases |exts|
  {
    if |exts| == 0 then [] else [Paths.SetExtension(path, exts[0])] + SingleExtensions(path, exts[1..])
  }

  /** When every extension but the last is plain, setting the extensions
      one after the other probes the start path with each extension alone:
      the first file found is the first of those that is a file. */
  lemma {:induction false} FirstProbeSingles(path: Path, exts: seq<string>, isFile: Path -> bool)
    requires Paths.FileName(path).Some?
    requires forall j :: 0 <= j < |exts| - 1 ==> PlainExtension(exts[j])
    ensures var singles := SingleExtensions(path, exts);
      FirstProbe(path, exts, isFile) ==
        match FirstFile(isFile, singles)
        case Some(i) => Some(singles[i])
        case None => None
    decreases |exts|
  {
    var singles := SingleExtensions(path, exts);
    if |exts| > 0 {
      var probe := Paths.SetExtension(path, exts[0]);
      var rest := SingleExtensions(path, exts[1..]);
      assert singles == [probe] + rest;
      FirstFileConcat(isFile, [probe], rest);
      if !isFile(probe) && |exts| > 1 {
        SinglesAfterPlain(path, exts);
        FirstProbeSingles(probe, exts[1..], isFile);
        if FirstFile(isFile, rest).Some? {
          assert singles[1 + FirstFile(isFile, rest).value] == rest[FirstFile(isFile, rest).value];
        }
      }
    }
  }

  /** After a plain first extension, the remaining probes are the start
      path with each remaining extension alone. */
  lemma SinglesAfterPlain(path: Path, exts: seq<string>)
    requires Paths.FileName(path).Some? && |exts| > 1 && PlainExtension(exts[0])
    ensures Paths.FileName(Paths.SetExtension(path, exts[0])).Some?
    ensures SingleExtensions(Paths.SetExtension(path, exts[0]), exts[1..]) == SingleExtensions(path, exts[1..])
  {
    var probe := Paths.SetExtension(path, exts[0]);
    Paths.SetExtensionTwice(path, exts[0], exts[0]);
    forall b | b in exts[1..]
      ensures Paths.SetExtension(probe, b) == Paths.SetExtension(path, b)
    {
      Paths.SetExtensionTwice(path, exts[0], b);
    }
    SinglesAgree(probe, path, exts[1..]);
  }

  /** Two start paths that every extension sends to the same path give
      the same probes. */
  lemma {:induction false} SinglesAgree(p: Path, q: Path, exts: seq<string>)
    requires forall b :: b in exts ==> Paths.SetExtension(p, b) == Paths.SetExtension(q, b)
    ensures SingleExtensions(p, exts) == SingleExtensions(q, exts)
    decreases |exts|
  {
    if |exts| > 0 {
      assert exts[0] in exts;
      assert forall b :: b in exts[1..] ==> b in exts;
      SinglesAgree(p, q, exts[1..]);
    }
  }

  /** The pieces `filename, p1, v1, p2, v2, …` of a base stem. */
  function StemPieces(filename: string, properties: seq<(string, string)>): (pieces: seq<string>)
    ensures |pieces| == 1 + 2 * |properties| && pieces[0] == filename
    decreases |properties|
  {
    if |properties| == 0 then [filename]
    else
      var last := properties[|properties| - 1];
      StemPieces(filename, properties[..|properties| - 1]) + [last.0, last.1]
  }

  lemma JoinSnoc(pieces: seq<string>, x: string, sep: string)
    requires |pieces| > 0
    ensures Strings.Join(pieces + [x], sep) == Strings.Join(pieces, sep) + sep + x
    decreases |pieces|
  {
    if |pieces| > 1 {
      assert (pieces + [x])[1..] == pieces[1..] + [x];
      JoinSnoc(pieces[1..], x, sep);
    } else {
      assert (pieces + [x])[1..] == [x];
    }
  }

  /** The stem is its pieces joined with `_`. */
  lemma {:induction false} BaseStemJoin(filename: string, properties: seq<(string, string)>)
    ensures BaseStem(filename, properties) == Strings.Join(StemPieces(filename, properties), "_")
    decreases |properties|
  {
    if |properties| > 0 {
      var init := properties[..|properties| - 1];
      var last := properties[|properties| - 1];
      var pieces := StemPieces(filename, init);
      BaseStemJoin(filename, init);
      JoinSnoc(pieces, last.0, "_");
      JoinSnoc(pieces + [last.0], last.1, "_");
      assert pieces + [last.0] + [last.1] == pieces + [last.0, last.1];
    }
  }

  /** The catalog's pairing of the pieces after the family name gives the
      properties back. */
  lemma {:induction false} PairsOfStemPieces(filename: string, properties: seq<(string, string)>)
    ensures Catalog.PairsOf(StemPieces(filename, properties)[1..]) == properties
    decreases |properties|
  {
    var pairs := Catalog.PairsOf(StemPieces(filename, properties)[1..]);
    forall k | 0 <= k < |properties|
      ensures pairs[k] == properties[k]
    {
      StemPieceAt(filename, properties, k);
    }
  }

  lemma {:induction false} StemPieceAt(filename: string, properties: seq<(string, string)>, k: nat)
    requires k < |properties|
    ensures StemPieces(filename, properties)[2 * k + 1] == properties[k].0
    ensures StemPieces(filename, properties)[2 * k + 2] == properties[k].1
    decreases |properties|
  {
    if k < |properties| - 1 {
      StemPieceAt(filename, properties[..|properties| - 1], k);
    }
  }

  lemma {:induction false} StemPiecesFree(filename: string, properties: seq<(string, string)>, c: char)
    requires Strings.FreeOf(filename, c)
    requires forall k :: 0 <= k < |properties| ==> Strings.FreeOf(properties[k].0, c) && Strings.FreeOf(properties[k].1, c)
    ensures forall k :: 0 <= k < |StemPieces(filename, properties)| ==> Strings.FreeOf(StemPieces(filename, properties)[k], c)
    decreases |properties|
  {
    if |properties| > 0 {
      StemPiecesFree(filename, properties[..|properties| - 1], c);
    }
  }

  /** The names of a base pattern hold none of `_`, `.` and `/`. */
  predicate PlainNames(filename: string, properties: seq<(string, string)>) {
    filename != "" &&
    Strings.FreeOf(filename, '_') && Strings.FreeOf(filename, '.') && Strings.FreeOf(filename, '/') &&
    forall k :: 0 <= k < |properties| ==>
      Strings.FreeOf(properties[k].0, '_') && Strings.FreeOf(properties[k].1, '_') &&
      Strings.FreeOf(properties[k].0, '.') && Strings.FreeOf(properties[k].1, '.') &&
      Strings.FreeOf(properties[k].0, '/') && Strings.FreeOf(properties[k].1, '/')
  }

  /** The stem of plain names is a plain name without dots that splits on
      `_` into its pieces. */
  lemma PlainStem(filename: string, properties: seq<(string, string)>)
    requires PlainNames(filename, properties)
    ensures var stem := BaseStem(filename, properties);
      Paths.IsPlainName(stem) && Strings.FreeOf(stem, '.') && Paths.FileStem(stem) == stem &&
      Strings.Split(stem, "_") == StemPieces(filename, properties)
  {
    var stem := BaseStem(filename, properties);
    var pieces := StemPieces(filename, properties);
    BaseStemJoin(filename, properties);
    StemPiecesFree(filename, properties, '_');
    StemPiecesFree(filename, properties, '.');
    StemPiecesFree(filename, properties, '/');
    JoinFree(pieces, "_", '.');
    JoinFree(pieces, "_", '/');
    JoinHead(pieces, "_");
    NoDotStem(stem);
    forall k | 0 <= k < |pieces|
      ensures Strings.Find(pieces[k], "_").None?
    {
      Strings.FreeOfFirstChar(pieces[k], "_");
    }
    Strings.SplitJoin(pieces, "_");
  }

  /** Joining a plain name without dots and setting a plain extension gives
      a path whose file name is `stem.ext` and whose stem is `stem`. */
  lemma JoinedWithExtension(dir: Path, stem: string, ext: string)
    requires Paths.IsPlainName(stem) && Paths.FileStem(stem) == stem && PlainExtension(ext)
    ensures var path := Paths.SetExtension(Paths.Join(dir, stem), ext);
      Paths.FileName(path) == Some(stem + "." + ext) && Paths.FileStem(stem + "." + ext) == stem
  {
    var joined := Paths.Join(dir, stem);
    Paths.LastComponentJoin(dir, stem);
    Paths.DirPartCut(joined);
    Paths.ExtendedFree(stem, ext);
    Paths.ExtendedPath(Paths.DirPart(joined), stem, ext);
    Paths.SetExtensionOfNamed(joined, stem, ext);
  }

  /** A base pattern with plain names, probed with a plain extension, names
      a file that the catalog lists under the same family with the same
      properties and values, in the same order. */
  lemma BaseProbeReadsBack(basePatterns: Path, filename: string, properties: seq<(string, string)>, ext: string)
    requires PlainNames(filename, properties) && PlainExtension(ext)
    ensures var path := Paths.SetExtension(Paths.Join(basePatterns, BaseStem(filename, properties)), ext);
      Catalog.BaseContribution(Some(Catalog.DirEntry(path, true))) == Some((filename, properties))
  {
    var stem := BaseStem(filename, properties);
    var path := Paths.SetExtension(Paths.Join(basePatterns, stem), ext);
    assert Paths.IsPlainName(stem) && Paths.FileStem(stem) == stem &&
      Strings.Split(stem, "_") == StemPieces(filename, properties) by {
      PlainStem(filename, properties);
    }
    assert Paths.FileName(path) == Some(stem + "." + ext) && Paths.FileStem(stem + "." + ext) == stem by {
      JoinedWithExtension(basePatterns, stem, ext);
    }
    PairsOfStemPieces(filename, properties);
  }

  lemma {:induction false} JoinFree(pieces: seq<string>, sep: string, c: char)
    requires Strings.FreeOf(sep, c)
    requires forall k :: 0 <= k < |pieces| ==> Strings.FreeOf(pieces[k], c)
    ensures Strings.FreeOf(Strings.Join(pieces, sep), c)
    decreases |pieces|
  {
    if |pieces| > 1 {
      JoinFree(pieces[1..], sep, c);
      var rest := Strings.Join(pieces[1..], sep);
      var s := pieces[0] + sep + rest;
      forall i | 0 <= i < |s|
        ensures s[i] != c
      {
        if i < |pieces[0]| {
          assert s[i] == pieces[0][i];
        } else if i < |pieces[0]| + |sep| {
          assert s[i] == sep[i - |pieces[0]|];
        } else {
          assert s[i] == rest[i - |pieces[0]| - |sep|];
        }
      }
    }
  }

  lemma JoinHead(pieces: seq<string>, sep: string)
    requires |pieces| > 0 && |pieces[0]| > 0
    ensures |Strings.Join(pieces, sep)| > 0 && Strings.Join(pieces, sep)[0] == pieces[0][0]
  {
  }

  /** A name without dots is its own stem and not `.` or `..`. */
  lemma NoDotStem(name: string)
    requires name != "" && Strings.FreeOf(name, '.') && Strings.FreeOf(name, '/')
    ensures Paths.FileStem(name) == name
    ensures Paths.IsPlainName(name)
  {
    assert name[0] != '.';
  }

  /** A property value holding a dot loses everything after its last dot
      when the extension is set, so the file the catalog read the value
      from is not the one probed: `grating_period_0.5.png` is listed with
      period `0.5`, and that pattern is looked for as
      `grating_period_0.png`, the file of period `0`. */
  lemma DottedValueProbesOtherFile(dir: Path, family: string, property: string, whole: string, fraction: string, ext: string)
    requires PlainNames(family, [(property, whole)])
    requires fraction != "" && Strings.FreeOf(fraction, '.') && Strings.FreeOf(fraction, '/') && ext != ""
    ensures Paths.SetExtension(Paths.Join(dir, BaseStem(family, [(property, whole + "." + fraction)])), ext) ==
      Paths.SetExtension(Paths.Join(dir, BaseStem(family, [(property, whole)])), ext)
  {
    var plain := BaseStem(family, [(property, whole)]);
    var dotted := BaseStem(family, [(property, whole + "." + fraction)]);
    assert dotted == plain + "." + fraction by {
      OneProperty(family, property, whole);
      OneProperty(family, property, whole + "." + fraction);
    }
    assert Paths.IsPlainName(plain) && Paths.FileStem(plain) == plain by {
      PlainStem(family, [(property, whole)]);
    }
    Paths.FileStemOfExtended(plain, fraction);
    Paths.ExtendedFree(plain, fraction);
    assert Paths.IsPlainName(dotted) by {
      assert |dotted| >= 3;
    }
    var j1 := Paths.Join(dir, dotted);
    var j2 := Paths.Join(dir, plain);
    Paths.LastComponentJoin(dir, dotted);
    Paths.LastComponentJoin(dir, plain);
    Paths.SetExtensionOfNamed(j1, dotted, ext);
    Paths.SetExtensionOfNamed(j2, plain, ext);
    SameDirectory(dir, dotted, plain);
  }

  lemma OneProperty(family: string, property: string, value: string)
    ensures BaseStem(family, [(property, value)]) == family + "_" + property + "_" + value
  {
    assert [(property, value)][..0] == [];
  }

  /** Two plain names joined to one directory share the directory part. */
  lemma SameDirectory(dir: Path, a: string, b: string)
    requires Paths.IsPlainName(a) && Paths.IsPlainName(b)
    ensures Paths.DirPart(Paths.Join(dir, a)) == Paths.DirPart(Paths.Join(dir, b))
  {
    var ja := Paths.Join(dir, a);
    var jb := Paths.Join(dir, b);
    Paths.LastComponentJoin(dir, a);
    Paths.LastComponentJoin(dir, b);
    Paths.DirPartCut(ja);
    Paths.DirPartCut(jb);
    assert ja == Paths.DirPart(ja) + a;
    assert jb == Paths.DirPart(jb) + b;
    if dir == "" || dir[|dir| - 1] == '/' {
      assert ja == dir + a && jb == dir + b;
    } else {
      assert ja == dir + "/" + a && jb == dir + "/" + b;
    }
  }

  // -------------------------------------------------------------- uploads

  /** Where an uploaded image goes: the working directory, then the
      base-pattern directory, then `custom_patterns`, then the name. Reading
      the working directory can fail. */
  function CustomPatternPath(cwd: Option<Path>, basePatterns: Path, name: string): Result<Path> {
    match cwd
    case None => Fail("cannot read the current directory")
    case Some(dir) => Ok(Paths.Join(Paths.Join(Paths.Join(dir, basePatterns), "custom_patterns"), name))
  }

  /** An uploaded image, listed in the catalog under its file name, is not
      where a custom pattern of that name is looked for: uploads go below
      `custom_patterns`, the lookup is directly below the base-pattern
      directory, and the upload path is always the longer one. */
  lemma UploadIsNotWhereCustomResolves(cwd: Path, basePatterns: Path, name: string, ext: string, exts: seq<string>, isFile: Path -> bool)
    requires Paths.IsPlainName(name) && PlainExtension(ext)
    ensures var upload := CustomPatternPath(Some(cwd), basePatterns, name).value;
      var written := Paths.SetExtension(upload, ext);
      var listed := Paths.FileName(written);
      listed.Some? &&
      BasePath(basePatterns, exts, isFile, Custom(CustomPattern(listed.value))) == Ok(Paths.Join(basePatterns, listed.value)) &&
      Paths.Join(basePatterns, listed.value) != written
  {
    var dir := Paths.Join(Paths.Join(cwd, basePatterns), "custom_patterns");
    var upload := Paths.Join(dir, name);
    var x := Paths.FileStem(name) + "." + ext;
    UploadWritten(dir, name, ext);
    assert |dir| >= |basePatterns| + 15;
    assert |Paths.Join(basePatterns, x)| <= |basePatterns| + |x| + 1;
  }

  /** The written upload is the directory part of the upload path followed
      by `stem.ext`, which is also its file name. */
  lemma UploadWritten(dir: Path, name: string, ext: string)
    requires Paths.IsPlainName(name) && PlainExtension(ext)
    ensures var upload := Paths.Join(dir, name);
      var x := Paths.FileStem(name) + "." + ext;
      var written := Paths.SetExtension(upload, ext);
      Paths.FileName(written) == Some(x) && |written| >= |dir| + |x| && x[0] != '/'
  {
    var upload := Paths.Join(dir, name);
    Paths.LastComponentJoin(dir, name);
    Paths.DirPartCut(upload);
    var stem := Paths.FileStem(name);
    Paths.ExtendedFree(name, ext);
    Paths.ExtendedPath(Paths.DirPart(upload), stem, ext);
    Paths.SetExtensionOfNamed(upload, name, ext);
  }

  /** An empty upload name makes the upload path the `custom_patterns`
      directory with a trailing separator; setting the extension then names
      a file `custom_patterns.<ext>` beside that directory, not inside it. */
  lemma EmptyUploadNameWritesBesideDirectory(cwd: Path, basePatterns: Path, ext: string)
    requires PlainExtension(ext)
    ensures var upload := CustomPatternPath(Some(cwd), basePatterns, "").value;
      var dir := Paths.Join(Paths.Join(cwd, basePatterns), "custom_patterns");
      var written := Paths.SetExtension(upload, ext);
      upload == dir + "/" &&
      written == Paths.SetExtension(dir, ext) &&
      Paths.FileName(written) == Some("custom_patterns" + "." + ext) &&
      Paths.DirPart(written) == Paths.DirPart(dir)
  {
    CustomPatternsPlain();
    Paths.EmptyNameThenExtension(Paths.Join(cwd, basePatterns), "custom_patterns", ext);
  }

  /** `custom_patterns` is one ordinary component without a dot. */
  lemma CustomPatternsPlain()
    ensures Paths.IsPlainName("custom_patterns") && Strings.FreeOf("custom_patterns", '.')
  {
  }
}
