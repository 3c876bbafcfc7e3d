/** The two selection rules of the dispatcher: the calibration entry used to
    quantise a pattern (src/message_loop.rs:393-410) and the laser whose
    wavelength becomes the current one (src/message_loop.rs:491-502). Both
    are iterator chains in the source. */
module Selection {
  import opened Wrappers
  import opened Schema

  /** `e.max(w) - e.min(w)`: the distance of two unsigned integers. */
  function Distance(a: int, b: int): nat {
    if a >= b then a - b else b - a
  }

  /** `iter().position(|&e| e == w)`: the first index holding `w`. */
  function Position(s: seq<u32>, w: u32): (r: Option<nat>)
    ensures r.Some? ==> r.value < |s| && s[r.value] == w
    ensures r.Some? ==> forall j :: 0 <= j < r.value ==> s[j] != w
    ensures r.None? ==> forall j :: 0 <= j < |s| ==> s[j] != w
  {
    if |s| == 0 then None
    else if s[0] == w then Some(0)
    else match Position(s[1..], w)
      case None => None
      case Some(i) => Some(i + 1)
  }

  /** `enumerate().min_by_key(distance)` over the first `n` entries: a later
      entry replaces the best so far only when it is strictly closer, so the
      first of several closest entries is kept. */
  function ClosestUpTo(s: seq<u32>, w: u32, n: nat): (r: nat)
    requires 0 < n <= |s|
    ensures r < n
    ensures forall j :: 0 <= j < n ==> Distance(s[r], w) <= Distance(s[j], w)
    ensures forall j :: 0 <= j < r ==> Distance(s[r], w) < Distance(s[j], w)
  {
    if n == 1 then 0
    else
      var best := ClosestUpTo(s, w, n - 1);
      if Distance(s[n - 1], w) < Distance(s[best], w) then n - 1 else best
  }

  /** The calibration index for wavelength `w`: the position of `w` among
      the known wavelengths, or else the first index closest to it; an
      empty table is an error. */
  function ScaleIndex(known: seq<u32>, w: u32): (r: Result<nat>)
    ensures r.Ok? <==> |known| > 0
    ensures r.Ok? ==> r.value < |known|
    ensures |known| == 0 ==> r == Fail("no known wavelengths available")
  {
    match Position(known, w)
    case Some(i) => Ok(i)
    case None =>
      if |known| == 0 then Fail("no known wavelengths available")
      else Ok(ClosestUpTo(known, w, |known|))
  }

  /** The index chosen is the first one that minimises the distance to `w`;
      the exact match, when there is one, is the first such index. */
  lemma ScaleIndexIsFirstClosest(known: seq<u32>, w: u32)
    requires |known| > 0
    ensures var i := ScaleIndex(known, w).value;
      (forall j :: 0 <= j < |known| ==> Distance(known[i], w) <= Distance(known[j], w)) &&
      (forall j :: 0 <= j < i ==> Distance(known[i], w) < Distance(known[j], w)) &&
      (w in known ==> known[i] == w)
  {
    var p := Position(known, w);
    if p.Some? {
      var i := p.value;
      forall j | 0 <= j < i
        ensures Distance(known[i], w) < Distance(known[j], w)
      {
        assert known[j] != w;
      }
    }
  }

  /** Looking up the position first changes nothing: the result is always
      the first closest entry. */
  lemma ScaleIndexIsClosest(known: seq<u32>, w: u32)
    requires |known| > 0
    ensures ScaleIndex(known, w) == Ok(ClosestUpTo(known, w, |known|))
  {
    ScaleIndexIsFirstClosest(known, w);
  }

  /** With calibrations for 450, 500 and 550 nm: 500 is found by position,
      530 is closest to 550, and 525 is as close to 500 as to 550, so the
      earlier entry wins. */
  lemma ScaleIndexExamples()
    ensures ScaleIndex([450, 500, 550], 500) == Ok(1)
    ensures ScaleIndex([450, 500, 550], 530) == Ok(2)
    ensures ScaleIndex([450, 500, 550], 525) == Ok(1)
    ensures ScaleIndex([], 500).Err?
  {
  }

  /** The filter of the laser report: an enabled laser that is not the LED. */
  predicate Qualifies(l: LaserState) {
    l.state != 0 && l.name != "led"
  }

  /** `filter(qualifies).max_by_key(intensity)` over the first `n` lasers:
      a later laser replaces the best so far when it is at least as intense,
      so the last of several strongest lasers is kept. */
  function StrongestUpTo(lasers: seq<LaserState>, n: nat): (r: Option<nat>)
    requires n <= |lasers|
    ensures r.None? <==> forall j :: 0 <= j < n ==> !Qualifies(lasers[j])
    ensures r.Some? ==> r.value < n && Qualifies(lasers[r.value])
    ensures r.Some? ==> forall j :: 0 <= j < n && Qualifies(lasers[j]) ==>
      lasers[j].intensity <= lasers[r.value].intensity
    ensures r.Some? ==> forall j :: r.value < j < n && Qualifies(lasers[j]) ==>
      lasers[j].intensity < lasers[r.value].intensity
  {
    if n == 0 then None
    else
      var best := StrongestUpTo(lasers, n - 1);
      if !Qualifies(lasers[n - 1]) then best
      else if best.None? || lasers[best.value].intensity <= lasers[n - 1].intensity then Some(n - 1)
      else best
  }

  /** The wavelength of the strongest qualifying laser, if any. */
  function StrongestWavelength(lasers: seq<LaserState>): Option<u32> {
    match StrongestUpTo(lasers, |lasers|)
    case None => None
    case Some(i) => Some(lasers[i].wavelength)
  }

  /** The chosen laser qualifies, no qualifying laser is more intense, and
      every later qualifying laser is strictly weaker; there is no choice
      exactly when no laser qualifies. */
  lemma StrongestIsLastMaximum(lasers: seq<LaserState>)
    ensures StrongestWavelength(lasers).None? <==> forall j :: 0 <= j < |lasers| ==> !Qualifies(lasers[j])
    ensures StrongestWavelength(lasers).Some? ==>
      exists i :: (0 <= i < |lasers| && Qualifies(lasers[i]) &&
        lasers[i].wavelength == StrongestWavelength(lasers).value &&
        (forall j :: 0 <= j < |lasers| && Qualifies(lasers[j]) ==> lasers[j].intensity <= lasers[i].intensity) &&
        (forall j :: i < j < |lasers| && Qualifies(lasers[j]) ==> lasers[j].intensity < lasers[i].intensity))
  {
    var r := StrongestUpTo(lasers, |lasers|);
    if r.Some? {
      var i := r.value;
      assert Qualifies(lasers[i]) && lasers[i].wavelength == StrongestWavelength(lasers).value;
    }
  }

  /** Two equally intense lasers: the later one is chosen. The LED and a
      disabled laser are never chosen, however intense. */
  lemma StrongestExamples()
    ensures StrongestWavelength([LaserState("a", 1, 488, 10), LaserState("b", 1, 561, 10)]) == Some(561)
    ensures StrongestWavelength([LaserState("a", 1, 488, 10), LaserState("led", 1, 0, 90), LaserState("c", 0, 640, 90)]) == Some(488)
    ensures StrongestWavelength([LaserState("led", 1, 0, 90)]) == None
  {
    var mixed := [LaserState("a", 1, 488, 10), LaserState("led", 1, 0, 90), LaserState("c", 0, 640, 90)];
    assert StrongestUpTo(mixed, 1) == Some(0);
    assert StrongestUpTo(mixed, 2) == Some(0);
    assert StrongestUpTo(mixed, 3) == Some(0);
  }
}
