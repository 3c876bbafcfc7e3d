/** The string operations of Rust's standard library that the controller
    relies on: `str::split` on a pattern, `str::replace`, the lexicographic
    order of `String` and the decimal rendering of unsigned integers. */
module Strings {
  import opened Wrappers

  /** `pat` occurs in `s` starting at index `i`. */
  predicate OccursAt(s: string, pat: string, i: nat) {
    i + |pat| <= |s| && s[i..i + |pat|] == pat
  }

  /** Index of the leftmost occurrence of `pat` in `s` at or after `from`. */
  function FindFrom(s: string, pat: string, from: nat): (r: Option<nat>)
    decreases |s| - from
    ensures r.Some? ==> from <= r.value && OccursAt(s, pat, r.value)
    ensures r.Some? ==> forall j :: from <= j < r.value ==> !OccursAt(s, pat, j)
    ensures r.None? ==> forall j :: from <= j ==> !OccursAt(s, pat, j)
  {
    if from + |pat| > |s| then None
    else if OccursAt(s, pat, from) then Some(from)
    else FindFrom(s, pat, from + 1)
  }

  /** Index of the leftmost occurrence of `pat` in `s` (`str::find`). */
  function Find(s: string, pat: string): Option<nat> {
    FindFrom(s, pat, 0)
  }

  /** `s.split(sep)`: the pieces between the non-overlapping occurrences of
      `sep`, found from left to right. There is always at least one piece. */
  function Split(s: string, sep: string): (pieces: seq<string>)
    requires |sep| > 0
    ensures |pieces| >= 1
    decreases |s|
  {
    match Find(s, sep)
    case None => [s]
    case Some(i) => [s[..i]] + Split(s[i + |sep|..], sep)
  }

  /** The pieces put back together with `sep` between neighbours. */
  function Join(pieces: seq<string>, sep: string): string {
    if |pieces| == 0 then ""
    else if |pieces| == 1 then pieces[0]
    else pieces[0] + sep + Join(pieces[1..], sep)
  }

  /** `s.replace(from, to)`: every match that `split` cuts at is replaced. */
  function Replace(s: string, from: string, to: string): string
    requires |from| > 0
  {
    Join(Split(s, from), to)
  }

  /** Splitting loses nothing: joining the pieces with the separator gives
      the original string back. */
  lemma {:induction false} JoinSplit(s: string, sep: string)
    requires |sep| > 0
    ensures Join(Split(s, sep), sep) == s
    decreases |s|
  {
    match Find(s, sep)
    case None =>
    case Some(i) =>
      var rest := s[i + |sep|..];
      JoinSplit(rest, sep);
      JoinCons(s[..i], Split(rest, sep), sep);
      CutAt(s, sep, i);
  }

  lemma JoinCons(p: string, r: seq<string>, sep: string)
    requires |r| > 0
    ensures Join([p] + r, sep) == p + sep + Join(r, sep)
  {
    assert ([p] + r)[1..] == r;
  }

  /** An occurrence of `sep` cuts `s` into what comes before, `sep` and what
      comes after. */
  lemma CutAt(s: string, sep: string, i: nat)
    requires OccursAt(s, sep, i)
    ensures s == s[..i] + sep + s[i + |sep|..]
  {
    assert s == s[..i] + s[i..i + |sep|] + s[i + |sep|..];
  }

  /** No piece of a split contains the separator. */
  lemma {:induction false} SplitPiecesAreFree(s: string, sep: string, k: nat)
    requires |sep| > 0
    requires k < |Split(s, sep)|
    ensures Find(Split(s, sep)[k], sep).None?
    decreases |s|
  {
    match Find(s, sep)
    case None =>
    case Some(i) =>
      if k == 0 {
        var piece := s[..i];
        forall j: nat | OccursAt(piece, sep, j)
          ensures false
        {
          assert piece[j..j + |sep|] == s[j..j + |sep|];
          assert OccursAt(s, sep, j);
        }
        NoOccurrenceMeansNotFound(piece, sep);
      } else {
        SplitPiecesAreFree(s[i + |sep|..], sep, k - 1);
      }
  }

  lemma NoOccurrenceMeansNotFound(s: string, sep: string)
    requires forall j: nat :: !OccursAt(s, sep, j)
    ensures Find(s, sep).None?
  {
  }

  /** No proper suffix of `sep` is also a prefix of it, so two occurrences
      of `sep` never overlap. True of every one-character separator and of
      ";base64,". */
  predicate Unbordered(sep: string) {
    forall k :: 0 < k < |sep| ==> sep[k..] != sep[..|sep| - k]
  }

  /** A separator whose last character appears nowhere else is unbordered. */
  lemma UniqueLastCharUnbordered(sep: string)
    requires |sep| > 0
    requires forall i :: 0 <= i < |sep| - 1 ==> sep[i] != sep[|sep| - 1]
    ensures Unbordered(sep)
  {
    forall k | 0 < k < |sep|
      ensures sep[k..] != sep[..|sep| - k]
    {
      assert sep[k..][|sep| - k - 1] == sep[|sep| - 1];
      assert sep[..|sep| - k][|sep| - k - 1] == sep[|sep| - k - 1];
    }
  }

  /** A string free of an unbordered separator, followed by the separator,
      is the first piece of the split. */
  lemma SplitAfterFreePrefix(a: string, sep: string, b: string)
    requires |sep| > 0 && Unbordered(sep)
    requires Find(a, sep).None?
    ensures Split(a + sep + b, sep) == [a] + Split(b, sep)
  {
    var s := a + sep + b;
    assert OccursAt(s, sep, |a|) by {
      assert s[|a|..|a| + |sep|] == sep;
    }
    forall j | 0 <= j < |a|
      ensures !OccursAt(s, sep, j)
    {
      if j + |sep| <= |a| {
        assert a[j..j + |sep|] == s[j..j + |sep|];
        assert !OccursAt(a, sep, j);
      } else {
        // an occurrence here would straddle the end of `a`, making a proper
        // suffix of `sep` equal to a prefix of it
        var d := |a| - j;
        assert sep[d..] != sep[..|sep| - d];
        assert s[j..j + |sep|][d..] == sep[..|sep| - d];
      }
    }
    assert Find(s, sep) == Some(|a|);
    assert s[..|a|] == a;
    assert s[|a| + |sep|..] == b;
  }

  /** No character of `s` is `c`. */
  predicate FreeOf(s: string, c: char) {
    forall i :: 0 <= i < |s| ==> s[i] != c
  }

  /** A string in which the first character of `sep` never occurs holds no
      occurrence of `sep`. */
  lemma FreeOfFirstChar(s: string, sep: string)
    requires |sep| > 0
    requires forall i :: 0 <= i < |s| ==> s[i] != sep[0]
    ensures Find(s, sep).None?
  {
    forall j: nat
      ensures !OccursAt(s, sep, j)
    {
      if j + |sep| <= |s| {
        assert s[j..j + |sep|][0] == s[j];
      }
    }
    NoOccurrenceMeansNotFound(s, sep);
  }

  /** Joining pieces that hold no separator and splitting the result again
      gives the pieces back. */
  lemma {:induction false} SplitJoin(pieces: seq<string>, sep: string)
    requires |sep| > 0 && Unbordered(sep) && |pieces| > 0
    requires forall k :: 0 <= k < |pieces| ==> Find(pieces[k], sep).None?
    ensures Split(Join(pieces, sep), sep) == pieces
    decreases |pieces|
  {
    if |pieces| > 1 {
      var rest := pieces[1..];
      SplitJoin(rest, sep);
      JoinCons(pieces[0], rest, sep);
      assert pieces == [pieces[0]] + rest;
      SplitAfterFreePrefix(pieces[0], sep, Join(rest, sep));
    }
  }

  /** A string without the pattern is left as it is by `replace`. */
  lemma ReplaceAbsent(s: string, from: string, to: string)
    requires |from| > 0 && Find(s, from).None?
    ensures Replace(s, from, to) == s
  {
  }

  /** One occurrence of an unbordered pattern between two texts free of it
      is replaced by `to`. */
  lemma ReplaceOnce(a: string, from: string, b: string, to: string)
    requires |from| > 0 && Unbordered(from)
    requires Find(a, from).None? && Find(b, from).None?
    ensures Replace(a + from + b, from, to) == a + to + b
  {
    SplitAfterFreePrefix(a, from, b);
    assert Split(a + from + b, from) == [a, b];
    JoinCons(a, [b], to);
  }

  /** A pattern of at least two characters cannot occur where its first
      character is never followed by its second. */
  lemma AbsentByPair(s: string, pat: string)
    requires |pat| >= 2
    requires forall j :: 0 <= j < |s| - 1 && s[j] == pat[0] ==> s[j + 1] != pat[1]
    ensures Find(s, pat).None?
  {
    forall j: nat
      ensures !OccursAt(s, pat, j)
    {
      if j + |pat| <= |s| {
        assert s[j..j + |pat|][0] == s[j] && s[j..j + |pat|][1] == s[j + 1];
      }
    }
    NoOccurrenceMeansNotFound(s, pat);
  }

  /** Lexicographic order of Rust's `String` (byte order of UTF-8, which is
      code point order): a proper prefix comes first, otherwise the first
      differing character decides. */
  predicate Less(a: string, b: string)
    decreases |a|
  {
    if |a| == 0 then |b| > 0
    else if |b| == 0 then false
    else if a[0] != b[0] then a[0] < b[0]
    else Less(a[1..], b[1..])
  }

  lemma {:induction false} LessIrreflexive(a: string)
    ensures !Less(a, a)
    decreases |a|
  {
    if |a| > 0 {
      LessIrreflexive(a[1..]);
    }
  }

  lemma {:induction false} LessTransitive(a: string, b: string, c: string)
    requires Less(a, b) && Less(b, c)
    ensures Less(a, c)
    decreases |a|
  {
    if |a| > 0 && a[0] == b[0] && b[0] == c[0] {
      LessTransitive(a[1..], b[1..], c[1..]);
    }
  }

  lemma {:induction false} LessTotal(a: string, b: string)
    requires a != b
    ensures Less(a, b) || Less(b, a)
    decreases |a|
  {
    if |a| > 0 && |b| > 0 && a[0] == b[0] {
      LessTotal(a[1..], b[1..]);
    }
  }

  lemma LessAsymmetric(a: string, b: string)
    requires Less(a, b)
    ensures !Less(b, a)
  {
    if Less(b, a) {
      LessTransitive(a, b, a);
      LessIrreflexive(a);
    }
  }

  predicate IsDigit(c: char) {
    '0' <= c <= '9'
  }

  function DigitChar(d: nat): (c: char)
    requires d < 10
    ensures IsDigit(c) && DigitValue(c) == d
  {
    (d + '0' as int) as char
  }

  function DigitValue(c: char): nat
    requires IsDigit(c)
  {
    c as int - '0' as int
  }

  /** Decimal rendering of an unsigned integer (`to_string`, `{}`). */
  function NatToString(n: nat): (s: string)
    ensures |s| >= 1
    ensures forall i :: 0 <= i < |s| ==> IsDigit(s[i])
  {
    if n < 10 then [DigitChar(n)]
    else NatToString(n / 10) + [DigitChar(n % 10)]
  }

  /** The value of a string of decimal digits. */
  function ParseNat(s: string): nat
    requires forall i :: 0 <= i < |s| ==> IsDigit(s[i])
  {
    if |s| == 0 then 0
    else ParseNat(s[..|s| - 1]) * 10 + DigitValue(s[|s| - 1])
  }

  /** The decimal rendering reads back as the same number. */
  lemma {:induction false} ParseNatToString(n: nat)
    ensures ParseNat(NatToString(n)) == n
  {
    if n >= 10 {
      var s := NatToString(n);
      assert s[..|s| - 1] == NatToString(n / 10);
      ParseNatToString(n / 10);
    }
  }

  /** Distinct numbers render differently, and only zero renders with a
      leading zero. */
  lemma NatToStringInjective(m: nat, n: nat)
    ensures NatToString(m) == NatToString(n) ==> m == n
    ensures NatToString(n)[0] == '0' ==> n == 0
  {
    ParseNatToString(m);
    ParseNatToString(n);
    LeadingDigit(n);
  }

  lemma {:induction false} LeadingDigit(n: nat)
    ensures NatToString(n)[0] == '0' ==> n == 0
  {
    if n >= 10 {
      LeadingDigit(n / 10);
    }
  }
}
