/** Unix paths as `std::path::PathBuf` treats them, for the operations the
    controller performs: `push`/`join`, `file_name`, `file_stem`,
    `set_extension` and `set_file_name`. Paths are strings. Trailing
    separators are ignored where `Path::components` ignores them; `.`
    components and repeated separators inside a path are not normalised. */
module Paths {
  import opened Wrappers
  import Strings

  type Path = string

  predicate IsAbsolute(p: Path) {
    |p| > 0 && p[0] == '/'
  }

  /** `base.join(name)` / `base.push(name)`: an absolute `name` replaces the
      path; otherwise a separator is put between the two unless `base` is
      empty or already ends with one. */
  function Join(base: Path, name: Path): (r: Path)
    ensures IsAbsolute(name) ==> r == name
    ensures !IsAbsolute(name) ==> |base| + |name| <= |r| <= |base| + |name| + 1
    ensures !IsAbsolute(name) ==> r[..|base|] == base && r[|r| - |name|..] == name
    ensures !IsAbsolute(name) && |r| > |base| + |name| ==> r[|base|] == '/'
  {
    if IsAbsolute(name) then name
    else if |base| == 0 || base[|base| - 1] == '/' then base + name
    else base + "/" + name
  }

  /** Index of the last `c` in `s`. */
  function LastIndexOf(s: string, c: char): (r: Option<nat>)
    ensures r.Some? ==> r.value < |s| && s[r.value] == c
    ensures r.Some? ==> forall j :: r.value < j < |s| ==> s[j] != c
    ensures r.None? ==> forall j :: 0 <= j < |s| ==> s[j] != c
  {
    if |s| == 0 then None
    else if s[|s| - 1] == c then Some(|s| - 1)
    else LastIndexOf(s[..|s| - 1], c)
  }

  /** Everything up to and including the last separator. */
  function DirPart(p: Path): Path {
    match LastIndexOf(p, '/')
    case None => ""
    case Some(i) => p[..i + 1]
  }

  /** Everything after the last separator. */
  function LastComponent(p: Path): string {
    match LastIndexOf(p, '/')
    case None => p
    case Some(i) => p[i + 1..]
  }

  /** The path without its trailing separators; a root separator stays. */
  function Trimmed(p: Path): (r: Path)
    ensures |r| <= |p| && r == p[..|r|]
    ensures |r| <= 1 || r[|r| - 1] != '/'
    ensures |p| > 0 ==> |r| > 0
    ensures forall k :: |r| <= k < |p| ==> p[k] == '/'
  {
    if |p| > 1 && p[|p| - 1] == '/' then Trimmed(p[..|p| - 1]) else p
  }

  /** `Path::file_name`: the last component once trailing separators are
      dropped, unless it is empty, `.` or `..`. */
  function FileName(p: Path): Option<string> {
    var name := LastComponent(Trimmed(p));
    if name == "" || name == "." || name == ".." then None else Some(name)
  }

  /** `file_stem` of a file name: the text before the last `.`, unless the
      only `.` is the first character (a hidden file), which keeps the whole
      name. */
  function FileStem(name: string): (stem: string)
    ensures |stem| <= |name| && stem == name[..|stem|]
    ensures |name| > 0 ==> |stem| > 0
  {
    match LastIndexOf(name, '.')
    case None => name
    case Some(i) => if i == 0 then name else name[..i]
  }

  /** `PathBuf::set_extension`: the path is cut right after the stem of its
      file name and, unless `ext` is empty, `.` and `ext` are appended. A
      path without a file name is left alone. */
  function SetExtension(p: Path, ext: string): Path {
    match FileName(p)
    case None => p
    case Some(name) => DirPart(Trimmed(p)) + FileStem(name) + (if ext == "" then "" else "." + ext)
  }

  /** The parent directory, as `PathBuf::pop` leaves it. */
  function Parent(p: Path): Path {
    var t := Trimmed(p);
    match LastIndexOf(t, '/')
    case None => ""
    case Some(i) => if i == 0 then "/" else t[..i]
  }

  /** `PathBuf::set_file_name`: the last component is replaced by `name`. */
  function SetFileName(p: Path, name: string): Path {
    if FileName(p).Some? then Join(Parent(p), name) else Join(p, name)
  }

  /** A name that is a single ordinary component. */
  predicate IsPlainName(name: string) {
    name != "" && name != "." && name != ".." && forall i :: 0 <= i < |name| ==> name[i] != '/'
  }

  /** A `c` followed only by other characters is the last `c`. */
  lemma {:induction false} LastIndexOfAfter(a: string, c: char, b: string)
    requires forall i :: 0 <= i < |b| ==> b[i] != c
    ensures LastIndexOf(a + [c] + b, c) == Some(|a|)
    decreases |b|
  {
    var s := a + [c] + b;
    if |b| == 0 {
      assert s == a + [c];
    } else {
      var b' := b[..|b| - 1];
      assert s[|s| - 1] == b[|b| - 1];
      assert s[..|s| - 1] == a + [c] + b';
      LastIndexOfAfter(a, c, b');
    }
  }

  /** Joining a plain name makes it the last component. */
  lemma LastComponentJoin(base: Path, name: string)
    requires IsPlainName(name)
    ensures LastComponent(Join(base, name)) == name
  {
    if |base| == 0 {
      assert Join(base, name) == name;
      assert LastIndexOf(name, '/').None?;
    } else if base[|base| - 1] == '/' {
      var a := base[..|base| - 1];
      assert Join(base, name) == a + ['/'] + name by {
        assert base == a + ['/'];
      }
      LastIndexOfAfter(a, '/', name);
      assert (a + ['/'] + name)[|a| + 1..] == name;
    } else {
      assert Join(base, name) == base + ['/'] + name;
      LastIndexOfAfter(base, '/', name);
      assert (base + ['/'] + name)[|base| + 1..] == name;
    }
  }

  /** Setting the file name of a path makes that name its file name. */
  lemma FileNameOfSetFileName(p: Path, name: string)
    requires IsPlainName(name)
    ensures FileName(SetFileName(p, name)) == Some(name)
  {
    LastComponentJoin(if FileName(p).Some? then Parent(p) else p, name);
  }

  /** A dot-free plain name joined to a directory is the file name; setting
      an extension then names `name.ext` in the same directory. */
  lemma SetExtensionOfJoined(dir: Path, name: string, ext: string)
    requires IsPlainName(name) && Strings.FreeOf(name, '.')
    requires ext != "" && Strings.FreeOf(ext, '.') && Strings.FreeOf(ext, '/')
    ensures var p := Join(dir, name);
      FileName(p) == Some(name) &&
      var w := SetExtension(p, ext);
      FileName(w) == Some(name + "." + ext) && DirPart(w) == DirPart(p)
  {
    var p := Join(dir, name);
    assert p[|p| - 1] == name[|name| - 1] by {
      assert p[|p| - |name|..] == name;
    }
    assert Trimmed(p) == p;
    LastComponentJoin(dir, name);
    assert FileStem(name) == name by {
      assert LastIndexOf(name, '.').None?;
    }
    DirPartCut(p);
    ExtendedFree(name, ext);
    ExtendedPath(DirPart(p), name, ext);
    SetExtensionOfNamed(p, name, ext);
  }

  /** Pushing an empty name onto `dir/name` adds a trailing separator; the
      extension set on that path then names `name.ext` beside the directory
      `dir/name`. */
  lemma EmptyNameThenExtension(dir: Path, name: string, ext: string)
    requires IsPlainName(name) && Strings.FreeOf(name, '.')
    requires ext != "" && Strings.FreeOf(ext, '.') && Strings.FreeOf(ext, '/')
    ensures var p := Join(dir, name);
      var w := SetExtension(Join(p, ""), ext);
      Join(p, "") == p + "/" && w == SetExtension(p, ext) &&
      FileName(w) == Some(name + "." + ext) && DirPart(w) == DirPart(p)
  {
    var p := Join(dir, name);
    assert p[|p| - 1] != '/' by {
      assert p[|p| - |name|..] == name;
      assert p[|p| - 1] == name[|name| - 1];
    }
    assert Join(p, "") == p + "/" by {
      assert p + "/" + "" == p + "/";
    }
    SetExtensionOfJoined(dir, name, ext);
    TrailingSeparatorIgnored(p, ext);
  }

  /** A trailing separator changes neither the file name nor, for a path
      that has one, the path `set_extension` makes: `a/b/` is treated as
      `a/b`. */
  lemma TrailingSeparatorIgnored(p: Path, ext: string)
    ensures FileName(p + "/") == FileName(p)
    ensures FileName(p).Some? ==> SetExtension(p + "/", ext) == SetExtension(p, ext)
  {
    if |p| > 0 {
      TrimmedDropsSeparator(p);
    } else {
      assert p + "/" == "/";
      assert LastIndexOf("/", '/') == Some(0);
    }
  }

  lemma TrimmedDropsSeparator(p: Path)
    requires |p| > 0
    ensures Trimmed(p + "/") == Trimmed(p)
  {
    assert (p + "/")[..|p|] == p;
  }

  /** `dir` does not end in two separators, the one spelling of a
      directory that `Parent` does not give back as written. */
  predicate SingleTrailing(dir: Path) {
    !(|dir| >= 2 && dir[|dir| - 1] == '/' && dir[|dir| - 2] == '/')
  }

  /** Renaming the file `dir/x` to `y` gives `dir/y`. */
  lemma SetFileNameJoin(dir: Path, x: string, y: string)
    requires IsPlainName(x) && IsPlainName(y) && SingleTrailing(dir)
    ensures SetFileName(Join(dir, x), y) == Join(dir, y)
  {
    LastComponentJoin(dir, x);
    EndsInPlainName(Join(dir, x), x);
    JoinParentOfJoin(dir, x, y);
  }

  /** A path that ends in a plain name has no trailing separator. */
  lemma EndsInPlainName(p: Path, x: string)
    requires IsPlainName(x) && |x| <= |p| && p[|p| - |x|..] == x
    ensures Trimmed(p) == p
  {
    assert p[|p| - 1] == x[|x| - 1];
  }

  /** The parent of `dir/x`, with `y` pushed onto it, is `dir/y`. */
  lemma JoinParentOfJoin(dir: Path, x: string, y: string)
    requires IsPlainName(x) && IsPlainName(y) && SingleTrailing(dir)
    ensures Join(Parent(Join(dir, x)), y) == Join(dir, y)
  {
    if |dir| == 0 {
      ParentBelowNothing(dir, x, y);
    } else if dir[|dir| - 1] == '/' {
      ParentBelowSeparator(dir, x, y);
    } else {
      ParentBelowName(dir, x, y);
    }
  }

  /** The case of `JoinParentOfJoin` where `dir` is empty. */
  lemma ParentBelowNothing(dir: Path, x: string, y: string)
    requires IsPlainName(x) && IsPlainName(y) && |dir| == 0
    ensures Join(Parent(Join(dir, x)), y) == Join(dir, y)
  {
    var p := Join(dir, x);
    assert p == x;
    EndsInPlainName(p, x);
  }

  /** The case of `JoinParentOfJoin` where `dir` ends in one separator. */
  lemma ParentBelowSeparator(dir: Path, x: string, y: string)
    requires IsPlainName(x) && IsPlainName(y) && SingleTrailing(dir)
    requires |dir| > 0 && dir[|dir| - 1] == '/'
    ensures Join(Parent(Join(dir, x)), y) == Join(dir, y)
  {
    var d := dir[..|dir| - 1];
    assert dir == d + ['/'];
    var p := Join(dir, x);
    assert p == d + ['/'] + x;
    EndsInPlainName(p, x);
    LastIndexOfAfter(d, '/', x);
    assert Parent(p) == if |d| == 0 then "/" else d;
    if |d| > 0 {
      assert Join(d, y) == d + "/" + y;
    }
  }

  /** The case of `JoinParentOfJoin` where `dir` does not end in a
      separator. */
  lemma ParentBelowName(dir: Path, x: string, y: string)
    requires IsPlainName(x) && IsPlainName(y)
    requires |dir| > 0 && dir[|dir| - 1] != '/'
    ensures Join(Parent(Join(dir, x)), y) == Join(dir, y)
  {
    var p := Join(dir, x);
    assert p == dir + ['/'] + x;
    EndsInPlainName(p, x);
    LastIndexOfAfter(dir, '/', x);
    assert (dir + ['/'] + x)[..|dir|] == dir;
  }

  /** A path is its directory part followed by its last component; the
      directory part is empty or ends with a separator, and the last
      component holds none. */
  lemma DirPartCut(p: Path)
    ensures p == DirPart(p) + LastComponent(p)
    ensures DirPart(p) == "" || DirPart(p)[|DirPart(p)| - 1] == '/'
    ensures Strings.FreeOf(LastComponent(p), '/')
  {
    match LastIndexOf(p, '/')
    case None =>
    case Some(i) =>
      assert p == p[..i + 1] + p[i + 1..];
      var c := p[i + 1..];
      forall k | 0 <= k < |c|
        ensures c[k] != '/'
      {
        assert c[k] == p[i + 1 + k];
      }
  }

  /** Appending a name free of separators to a directory part makes it the
      last component and keeps the directory part. */
  lemma DirPlusName(d: Path, x: string)
    requires d == "" || d[|d| - 1] == '/'
    requires Strings.FreeOf(x, '/')
    ensures DirPart(d + x) == d && LastComponent(d + x) == x
  {
    if d == "" {
      assert d + x == x;
    } else {
      var d' := d[..|d| - 1];
      assert d + x == d' + ['/'] + x by {
        assert d == d' + ['/'];
      }
      LastIndexOfAfter(d', '/', x);
      assert (d' + ['/'] + x)[..|d'| + 1] == d;
      assert (d' + ['/'] + x)[|d'| + 1..] == x;
    }
  }

  /** The stem of `stem.ext` is `stem` when the extension holds no dot. */
  lemma FileStemOfExtended(stem: string, ext: string)
    requires stem != "" && Strings.FreeOf(ext, '.')
    ensures FileStem(stem + "." + ext) == stem
  {
    LastIndexOfAfter(stem, '.', ext);
    assert stem + "." + ext == stem + ['.'] + ext;
    assert (stem + ['.'] + ext)[..|stem|] == stem;
  }

  /** A stem of a name free of separators, with an extension free of
      separators, is free of separators. */
  lemma ExtendedFree(name: string, a: string)
    requires Strings.FreeOf(name, '/') && Strings.FreeOf(a, '/')
    ensures Strings.FreeOf(FileStem(name) + "." + a, '/')
  {
    var stem := FileStem(name);
    var x := stem + "." + a;
    forall k | 0 <= k < |x|
      ensures x[k] != '/'
    {
      if k < |stem| {
        assert x[k] == name[k];
      } else if k > |stem| {
        assert x[k] == a[k - |stem| - 1];
      }
    }
  }

  /** The path `d` + `stem.a` has file name `stem.a`, directory part `d`
      and stem `stem`. */
  lemma ExtendedPath(d: Path, stem: string, a: string)
    requires d == "" || d[|d| - 1] == '/'
    requires stem != "" && a != "" && Strings.FreeOf(a, '.')
    requires Strings.FreeOf(stem + "." + a, '/')
    ensures FileName(d + (stem + "." + a)) == Some(stem + "." + a)
    ensures DirPart(d + (stem + "." + a)) == d
    ensures FileStem(stem + "." + a) == stem
  {
    var x := stem + "." + a;
    DirPlusName(d, x);
    FileStemOfExtended(stem, a);
    assert |x| >= 3;
  }

  /** A path with a file name and a non-empty extension set is its
      directory part followed by `stem.ext`. */
  lemma SetExtensionOfNamed(p: Path, name: string, ext: string)
    requires FileName(p) == Some(name) && ext != ""
    ensures SetExtension(p, ext) == DirPart(Trimmed(p)) + (FileStem(name) + "." + ext)
  {
    var d := DirPart(Trimmed(p));
    var stem := FileStem(name);
    assert d + stem + ("." + ext) == d + (stem + "." + ext);
  }

  /** Setting a plain extension and then another one is the same as setting
      only the second: the first extension becomes the part after the last
      dot, and only that part is replaced. */
  lemma SetExtensionTwice(p: Path, a: string, b: string)
    requires FileName(p).Some?
    requires a != "" && Strings.FreeOf(a, '.') && Strings.FreeOf(a, '/')
    ensures FileName(SetExtension(p, a)).Some?
    ensures SetExtension(SetExtension(p, a), b) == SetExtension(p, b)
  {
    var name := FileName(p).value;
    var stem := FileStem(name);
    var d := DirPart(Trimmed(p));
    var p' := d + (stem + "." + a);
    assert SetExtension(p, a) == p' by {
      SetExtensionOfNamed(p, name, a);
    }
    assert FileName(p') == Some(stem + "." + a) && DirPart(Trimmed(p')) == d && FileStem(stem + "." + a) == stem by {
      DirPartCut(Trimmed(p));
      ExtendedFree(name, a);
      ExtendedPath(d, stem, a);
    }
  }
}
