/** The controller's device state and the effect of each of its operations
    on it, as functions of the state before: the array cache
    (src/message_loop.rs:220-228), the pattern computation
    (src/message_loop.rs:322-426), the pixel writer
    (src/message_loop.rs:230-239) and `update_state`
    (src/message_loop.rs:430-445). The code the controller calls but that
    is not modelled (image and base64 codecs, the directory walk, the
    quantisation of phases to grey levels, the operating system) is the
    environment `Env`, a record of functions. */
module Engine {
  import opened Wrappers
  import opened Schema
  import Paths
  import opened Rasters
  import Selection
  import Catalog
  import Resolve
  import Strings
  import ImageData

  type Path = Paths.Path

  /** The regular files of the file system and their contents. */
  type Files = map<Path, seq<byte>>

  /** `State.cache`: decoded arrays by the path they were read from. */
  type Cache = map<Path, Phases>

  /** The collaborators of the controller, fixed for a run. */
  datatype Env = Env(
    cwd: Option<Path>,                                    // `std::env::current_dir`
    walk: (Files, Path) -> seq<Option<Catalog.DirEntry>>, // the items of a one-level `WalkDir`
    decodeBase64: string -> Option<seq<byte>>,            // `base64::decode`
    decodeImage: seq<byte> -> Option<Grid<byte>>,         // `open_gray_image` on a file's bytes
    encodeImage: (Path, Phases) -> Option<seq<byte>>,     // `save_gray_image`: quantise, encode by extension
    writable: Path -> bool,                               // `File::create` succeeds
    level: (Frame, nat, nat) -> byte,                     // sample `(x, y)` of the quantised pattern
    reboot: bool)                                         // `system_shutdown::reboot` succeeds

  /** `State` (src/main.rs:36-41). */
  datatype State = State(wavelength: u32, fresnel: u32, patternParams: PatternParams, cache: Cache)

  /** `path.is_file()` against the file system `files`. */
  function IsFileIn(files: Files): Path -> bool {
    p => p in files
  }

  /** The shape `ndarray::Dim([size_x, size_y])` of a full screen. */
  function ScreenDim(config: Config): (nat, nat) {
    (config.screen.size.0, config.screen.size.1)
  }

  // ----------------------------------------------------------------- cache

  /** `read_image_from_file`: the grey levels of the file, resampled to
      `dim` by index when a shape is requested. */
  function ReadImage(env: Env, files: Files, path: Path, dim: Option<(nat, nat)>): (r: Result<Phases>)
    ensures r.Ok? <==> path in files && env.decodeImage(files[path]).Some?
    ensures r.Ok? ==> r.value.Levels?
    ensures r.Ok? && dim.Some? ==> IsGrid(r.value.levels, dim.value.0, dim.value.1)
    ensures r.Ok? ==>
      var g := env.decodeImage(files[path]).value;
      r.value == Levels(if dim.Some? then Resample(g, dim.value.0, dim.value.1) else g)
  {
    if path !in files then Fail("No such file or directory")
    else match env.decodeImage(files[path])
      case None => Fail("The image format could not be determined")
      case Some(g) => Ok(Levels(if dim.Some? then Resample(g, dim.value.0, dim.value.1) else g))
  }

  /** The cache after a lookup, and the array found or the error. */
  datatype Loaded = Loaded(cache: Cache, result: Result<Phases>)

  /** `load_data`: the cached array when the path is a key, whatever shape
      is asked for; otherwise the file is read and, only if that succeeds,
      stored under the path. */
  function LoadData(env: Env, files: Files, cache: Cache, path: Path, dim: Option<(nat, nat)>): (r: Loaded)
    ensures r.result.Ok? ==> path in r.cache && r.cache[path] == r.result.value
    ensures r.cache.Keys == cache.Keys + (if r.result.Ok? then {path} else {})
    ensures forall p :: p in cache ==> r.cache[p] == cache[p]
    ensures path !in cache ==> r.result == ReadImage(env, files, path, dim)
  {
    if path in cache then Loaded(cache, Ok(cache[path]))
    else match ReadImage(env, files, path, dim)
      case Err(f) => Loaded(cache, Err(f))
      case Ok(a) => Loaded(cache[path := a], Ok(a))
  }

  /** A hit reads nothing and ignores the requested shape: loading a
      cached path returns the stored array and leaves the cache as it is. */
  lemma LoadDataHit(env: Env, files: Files, cache: Cache, path: Path, dim: Option<(nat, nat)>)
    requires path in cache
    ensures LoadData(env, files, cache, path, dim) == Loaded(cache, Ok(cache[path]))
  {
    assert LoadData(env, files, cache, path, dim).cache.Keys == cache.Keys;
  }

  /** Loading is idempotent: once a path has loaded, loading it again with
      any shape gives the same array and changes nothing. */
  lemma LoadDataTwice(env: Env, files: Files, cache: Cache, path: Path, dim1: Option<(nat, nat)>, dim2: Option<(nat, nat)>)
    requires LoadData(env, files, cache, path, dim1).result.Ok?
    ensures var first := LoadData(env, files, cache, path, dim1);
      LoadData(env, files, first.cache, path, dim2) == first
  {
    var first := LoadData(env, files, cache, path, dim1);
    LoadDataHit(env, files, first.cache, path, dim2);
  }

  // ------------------------------------------------------ pattern compute

  /** The phase term the pattern starts from: the spot field over the full
      screen, or the array of the resolved file, loaded at screen shape. */
  function BaseTerm(config: Config, env: Env, files: Files, st: State): (r: Loaded)
    ensures r.cache.Keys >= st.cache.Keys && forall p :: p in st.cache ==> r.cache[p] == st.cache[p]
  {
    var dim := ScreenDim(config);
    match st.patternParams
    case Spot(spot) => Loaded(st.cache, Ok(SpotField(spot, dim.0, dim.1)))
    case _ =>
      match Resolve.BasePath(config.dirPath.basePatterns, config.imageFileExtensions, IsFileIn(files), st.patternParams)
      case Err(f) => Loaded(st.cache, Err(f))
      case Ok(path) => LoadData(env, files, st.cache, path, Some(dim))
  }

  /** The flatness correction for `wavelength` added to the base term when
      the configuration asks for it; the correction is broadcast to the base
      term's shape. */
  function WithFlatness(config: Config, env: Env, files: Files, wavelength: u32, base: Loaded): (r: Loaded)
    requires base.result.Ok?
    ensures r.cache.Keys >= base.cache.Keys && forall p :: p in base.cache ==> r.cache[p] == base.cache[p]
    ensures r.result.Ok? ==> Shape(r.result.value) == Shape(base.result.value)
  {
    if !config.computePattern.addFlatnessCorrection then base
    else match Resolve.FlatnessPath(config.dirPath.flatnessCorrPatterns, config.imageFileExtensions, IsFileIn(files), wavelength)
      case Err(f) => Loaded(base.cache, Err(f))
      case Ok(path) =>
        var flat := LoadData(env, files, base.cache, path, Some(ScreenDim(config)));
        if flat.result.Err? then flat
        else if !BroadcastsTo(Shape(flat.result.value), Shape(base.result.value)) then
          Loaded(flat.cache, Err(Panicked("could not broadcast array")))
        else Loaded(flat.cache, Ok(Sum(base.result.value, flat.result.value)))
  }

  /** The 8-bit pattern of a frame: one grey level per element of the phase
      array, in the phase array's shape. */
  function Quantise(env: Env, frame: Frame): (g: Grid<byte>)
    ensures IsGrid(g, Shape(frame.phases).0, Shape(frame.phases).1)
  {
    var shape := Shape(frame.phases);
    seq(shape.0, x requires 0 <= x => seq(shape.1, y requires 0 <= y => env.level(frame, x, y)))
  }

  /** The cache after computing a pattern, and the pattern or the error. */
  datatype Computed = Computed(cache: Cache, result: Result<Grid<byte>>)

  /** `compute_pattern`: base term, optional flatness correction, the blazed
      gradient over the screen (broadcast to the pattern's shape), the
      Fresnel lens, and quantisation with the calibration factor of the
      wavelength. Arrays loaded on the way stay cached even when a later
      step fails. */
  function ComputePattern(config: Config, env: Env, files: Files, st: State): (r: Computed)
    ensures r.cache.Keys >= st.cache.Keys && forall p :: p in st.cache ==> r.cache[p] == st.cache[p]
  {
    var dim := ScreenDim(config);
    var base := BaseTerm(config, env, files, st);
    if base.result.Err? then Computed(base.cache, Err(base.result.fault))
    else
      var summed := WithFlatness(config, env, files, st.wavelength, base);
      if summed.result.Err? then Computed(summed.cache, Err(summed.result.fault))
      else
        var phases := summed.result.value;
        var scaling := config.computePattern.slmCalibScaling;
        if !BroadcastsTo(dim, Shape(phases)) then
          Computed(summed.cache, Err(Panicked("could not broadcast array")))
        else match Selection.ScaleIndex(scaling.knownWavelengths, st.wavelength)
          case Err(f) => Computed(summed.cache, Err(f))
          case Ok(id) =>
            if id >= |scaling.scaleFactors| then Computed(summed.cache, Err(Panicked("index out of bounds")))
            else
              var frame := Frame(phases, dim, st.wavelength, st.fresnel, scaling.scaleFactors[id]);
              Computed(summed.cache, Ok(Quantise(env, frame)))
  }

  /** A spot pattern's base term is the spot field over the full screen,
      read from no file; any other pattern's is the array of the file its
      parameters resolve to, loaded at screen shape, or the resolution's
      error. */
  lemma BaseTermCases(config: Config, env: Env, files: Files, st: State)
    ensures var dim := ScreenDim(config);
      st.patternParams.Spot? ==>
        BaseTerm(config, env, files, st) == Loaded(st.cache, Ok(SpotField(st.patternParams.spot, dim.0, dim.1)))
    ensures var path := Resolve.BasePath(config.dirPath.basePatterns, config.imageFileExtensions, IsFileIn(files), st.patternParams);
      !st.patternParams.Spot? ==>
        (path.Err? ==> BaseTerm(config, env, files, st) == Loaded(st.cache, Err(path.fault))) &&
        (path.Ok? ==> BaseTerm(config, env, files, st) == LoadData(env, files, st.cache, path.value, Some(ScreenDim(config))))
  {
  }

  /** Without `add_flatness_correction` the base term is used as it is and
      no flatness file is looked up or cached. */
  lemma WithoutFlatness(config: Config, env: Env, files: Files, wavelength: u32, base: Loaded)
    requires base.result.Ok?
    requires !config.computePattern.addFlatnessCorrection
    ensures WithFlatness(config, env, files, wavelength, base) == base
  {
  }

  /** With `add_flatness_correction` the flatness file for the wavelength
      is looked up and loaded at screen shape into the base term's cache. A
      missing file or a failed load is the error; a file that does not
      broadcast to the base term's shape panics; otherwise the result is the
      base term plus the correction. Either way the cache is the one the
      load left. */
  lemma WithFlatnessOn(config: Config, env: Env, files: Files, wavelength: u32, base: Loaded)
    requires base.result.Ok?
    requires config.computePattern.addFlatnessCorrection
    ensures var path := Resolve.FlatnessPath(config.dirPath.flatnessCorrPatterns, config.imageFileExtensions, IsFileIn(files), wavelength);
      var r := WithFlatness(config, env, files, wavelength, base);
      (path.Err? ==> r == Loaded(base.cache, Err(path.fault))) &&
      (path.Ok? ==>
        var flat := LoadData(env, files, base.cache, path.value, Some(ScreenDim(config)));
        r.cache == flat.cache &&
        (flat.result.Err? ==> r.result == flat.result) &&
        (flat.result.Ok? && !BroadcastsTo(Shape(flat.result.value), Shape(base.result.value)) ==>
          r.result == Err(Panicked("could not broadcast array"))) &&
        (flat.result.Ok? && BroadcastsTo(Shape(flat.result.value), Shape(base.result.value)) ==>
          r.result == Ok(Sum(base.result.value, flat.result.value))))
  {
  }

  /** The steps of `compute_pattern`: a failed base term ends it; otherwise
      the pattern succeeds exactly when the flatness step succeeds, the
      screen broadcasts to its shape and the wavelength has a scale factor.
      An empty table of known wavelengths is the error "no known wavelengths
      available", an index past the scale factors panics, and a computed
      pattern is the quantised frame with the factor at the wavelength's
      index. */
  lemma ComputePatternSteps(config: Config, env: Env, files: Files, st: State)
    ensures var r := ComputePattern(config, env, files, st);
      var base := BaseTerm(config, env, files, st);
      base.result.Err? ==> r == Computed(base.cache, Err(base.result.fault))
    ensures var r := ComputePattern(config, env, files, st);
      var base := BaseTerm(config, env, files, st);
      var scaling := config.computePattern.slmCalibScaling;
      var index := Selection.ScaleIndex(scaling.knownWavelengths, st.wavelength);
      base.result.Ok? ==>
        var summed := WithFlatness(config, env, files, st.wavelength, base);
        var ready := summed.result.Ok? && BroadcastsTo(ScreenDim(config), Shape(summed.result.value));
        r.cache == summed.cache &&
        (r.result.Ok? <==> ready && index.Ok? && index.value < |scaling.scaleFactors|) &&
        (ready && |scaling.knownWavelengths| == 0 ==> r.result == Fail("no known wavelengths available")) &&
        (ready && index.Ok? && index.value >= |scaling.scaleFactors| ==> r.result == Err(Panicked("index out of bounds"))) &&
        (r.result.Ok? ==>
          r.result.value == Quantise(env, Frame(summed.result.value, ScreenDim(config), st.wavelength, st.fresnel, scaling.scaleFactors[index.value])))
  {
  }

  /** Every cached array has the shape of the screen. */
  ghost predicate ScreenShaped(cache: Cache, dim: (nat, nat)) {
    forall p :: p in cache ==> Shape(cache[p]) == dim
  }

  /** While every cached array has the screen's shape, so does every array
      loaded for a pattern, and a computed pattern covers the screen
      exactly. */
  lemma ComputeKeepsScreenShape(config: Config, env: Env, files: Files, st: State)
    requires ScreenDim(config).0 > 0
    requires ScreenShaped(st.cache, ScreenDim(config))
    ensures var r := ComputePattern(config, env, files, st);
      ScreenShaped(r.cache, ScreenDim(config)) &&
      (r.result.Ok? ==> IsGrid(r.result.value, config.screen.size.0, config.screen.size.1))
  {
    var dim := ScreenDim(config);
    var base := BaseTerm(config, env, files, st);
    assert ScreenShaped(base.cache, dim) && (base.result.Ok? ==> Shape(base.result.value) == dim) by {
      BaseTermScreenShaped(config, env, files, st);
    }
    if base.result.Ok? {
      var summed := WithFlatness(config, env, files, st.wavelength, base);
      assert ScreenShaped(summed.cache, dim) by {
        if config.computePattern.addFlatnessCorrection {
          var fp := Resolve.FlatnessPath(config.dirPath.flatnessCorrPatterns, config.imageFileExtensions, IsFileIn(files), st.wavelength);
          if fp.Ok? {
            LoadScreenShaped(env, files, base.cache, fp.value, dim);
          }
        }
      }
    }
  }

  /** A load at screen shape keeps the cache screen-shaped and yields an
      array of screen shape. */
  lemma LoadScreenShaped(env: Env, files: Files, cache: Cache, path: Path, dim: (nat, nat))
    requires dim.0 > 0 && ScreenShaped(cache, dim)
    ensures var r := LoadData(env, files, cache, path, Some(dim));
      ScreenShaped(r.cache, dim) && (r.result.Ok? ==> Shape(r.result.value) == dim)
  {
    var r := LoadData(env, files, cache, path, Some(dim));
    if path !in cache && r.result.Ok? {
      assert IsGrid(r.result.value.levels, dim.0, dim.1);
    }
  }

  lemma BaseTermScreenShaped(config: Config, env: Env, files: Files, st: State)
    requires ScreenDim(config).0 > 0 && ScreenShaped(st.cache, ScreenDim(config))
    ensures var base := BaseTerm(config, env, files, st);
      ScreenShaped(base.cache, ScreenDim(config)) && (base.result.Ok? ==> Shape(base.result.value) == ScreenDim(config))
  {
    if !st.patternParams.Spot? {
      var bp := Resolve.BasePath(config.dirPath.basePatterns, config.imageFileExtensions, IsFileIn(files), st.patternParams);
      if bp.Ok? {
        LoadScreenShaped(env, files, st.cache, bp.value, ScreenDim(config));
      }
    }
  }

  // ---------------------------------------------------------- pixel buffer

  /** Byte `4k + c` of the ARGB buffer, `c < 3`, set to `v`; `None` when the
      pixel lies outside the buffer, where indexing panics. */
  function PutPixel(px: seq<byte>, k: nat, v: byte): (r: Option<seq<byte>>)
    ensures r.Some? <==> 4 * k + 2 < |px|
    ensures r.Some? ==> |r.value| == |px|
    ensures r.Some? ==> forall n :: 0 <= n < |px| ==> r.value[n] == if 4 * k <= n < 4 * k + 3 then v else px[n]
  {
    if 4 * k + 2 < |px| then Some(px[4 * k := v][4 * k + 1 := v][4 * k + 2 := v]) else None
  }

  /** Pixel `y * width + x` has its colour bytes inside the buffer. */
  predicate InBuffer(px: seq<byte>, width: nat, x: nat, y: nat) {
    4 * (y * width + x) + 2 < |px|
  }

  /** The first `n` samples of row `x` of the pattern written to pixels
      `y * width + x`, in order. */
  function PaintRow(px: seq<byte>, row: seq<byte>, x: nat, width: nat, n: nat): (r: Option<seq<byte>>)
    requires n <= |row|
    ensures r.Some? <==> forall y :: 0 <= y < n ==> InBuffer(px, width, x, y)
    ensures r.Some? ==> |r.value| == |px| && forall i :: 0 <= i < |px| && i % 4 == 3 ==> r.value[i] == px[i]
  {
    if n == 0 then Some(px)
    else match PaintRow(px, row, x, width, n - 1)
      case None => None
      case Some(p) =>
        assert InBuffer(px, width, x, n - 1) <==> 4 * ((n - 1) * width + x) + 2 < |p|;
        PutPixel(p, (n - 1) * width + x, row[n - 1])
  }

  /** The first `m` rows of the pattern written, in `indexed_iter` order. */
  function PaintRows(px: seq<byte>, grid: Grid<byte>, width: nat, m: nat): (r: Option<seq<byte>>)
    requires m <= |grid|
    ensures r.Some? <==> forall x, y :: 0 <= x < m && 0 <= y < |grid[x]| ==> InBuffer(px, width, x, y)
    ensures r.Some? ==> |r.value| == |px| && forall i :: 0 <= i < |px| && i % 4 == 3 ==> r.value[i] == px[i]
  {
    if m == 0 then Some(px)
    else match PaintRows(px, grid, width, m - 1)
      case None => None
      case Some(p) =>
        var x := m - 1;
        assert forall y :: InBuffer(p, width, x, y) <==> InBuffer(px, width, x, y);
        PaintRow(p, grid[x], x, width, |grid[x]|)
  }

  /** `put_pattern`'s writes: the buffer with every sample of the pattern
      in place, or `None` when a write would fall outside it. */
  function Paint(px: seq<byte>, grid: Grid<byte>, width: nat): Option<seq<byte>> {
    PaintRows(px, grid, width, |grid|)
  }

  /** A buffer of `width * height * 4` bytes takes every sample of a
      `width` by `height` pattern. */
  lemma PaintFits(px: seq<byte>, grid: Grid<byte>, width: nat, height: nat)
    requires IsGrid(grid, width, height) && |px| == width * height * 4
    ensures Paint(px, grid, width).Some?
  {
    forall x, y | 0 <= x < width && 0 <= y < height
      ensures InBuffer(px, width, x, y)
    {
      CellBound(height, width, y, x);
    }
  }

  /** `k = y * width + x` with `x < width` exactly when `x` and `y` are the
      remainder and quotient of `k` by `width`. */
  lemma CellOf(k: nat, width: nat, x: nat, y: nat)
    requires x < width
    ensures k == y * width + x <==> k % width == x && k / width == y
  {
    if k == y * width + x {
      DivModUnique(k, width, y, x);
    }
  }

  /** Quotient and remainder are unique. */
  lemma DivModUnique(k: int, w: int, q: int, r: int)
    requires w > 0 && 0 <= r < w && k == q * w + r
    ensures k / w == q && k % w == r
  {
    var q', r' := k / w, k % w;
    assert q' * w + r' == q * w + r;
    if q' > q {
      assert (q' - q) * w == q' * w - q * w;
      MulAtLeast(q' - q, w);
    } else if q' < q {
      assert (q - q') * w == q * w - q' * w;
      MulAtLeast(q - q', w);
    }
  }

  lemma {:induction false} MulAtLeast(d: nat, w: nat)
    requires d >= 1
    ensures d * w >= w
    decreases d
  {
    if d > 1 {
      MulAtLeast(d - 1, w);
      assert d * w == (d - 1) * w + w;
    }
  }

  /** Byte `i` is a colour byte of pixel `k = y * width + x` exactly when
      its pixel's cell is `(x, y)` and it is not the alpha byte. */
  lemma ColourByteOf(i: nat, width: nat, x: nat, y: nat)
    requires x < width
    ensures var k := y * width + x;
      4 * k <= i < 4 * k + 3 <==> i % 4 < 3 && i / 4 % width == x && i / 4 / width == y
  {
    CellOf(i / 4, width, x, y);
  }

  /** Byte `n` after the rows before `m`, and the first `y0` samples of row
      `m`, have been written without collisions: the sample of the byte's
      cell for a colour byte of a written cell, the old byte otherwise. */
  function Expected(px: seq<byte>, grid: Grid<byte>, width: nat, m: nat, y0: nat, n: nat): byte
    requires width > 0 && n < |px|
  {
    var x, y := n / 4 % width, n / 4 / width;
    if n % 4 < 3 && x < |grid| && y < |grid[x]| && (x < m || (x == m && y < y0)) then grid[x][y] else px[n]
  }

  ghost predicate PaintedUpTo(r: seq<byte>, px: seq<byte>, grid: Grid<byte>, width: nat, m: nat, y0: nat)
    requires width > 0
  {
    |r| == |px| && forall n :: 0 <= n < |px| ==> r[n] == Expected(px, grid, width, m, y0, n)
  }

  /** Writing sample `(m, y0)` moves the expectation on by one cell. */
  lemma ExpectedStep(px: seq<byte>, grid: Grid<byte>, width: nat, m: nat, y0: nat, n: nat)
    requires m < width && m < |grid| && y0 < |grid[m]| && n < |px|
    ensures var k := y0 * width + m;
      Expected(px, grid, width, m, y0 + 1, n) ==
        if 4 * k <= n < 4 * k + 3 then grid[m][y0] else Expected(px, grid, width, m, y0, n)
  {
    ColourByteOf(n, width, m, y0);
  }

  /** A row written to its end is the start of the next row. */
  lemma ExpectedNextRow(px: seq<byte>, grid: Grid<byte>, width: nat, m: nat, n: nat)
    requires 0 < width && m < |grid| && n < |px|
    ensures Expected(px, grid, width, m, |grid[m]|, n) == Expected(px, grid, width, m + 1, 0, n)
  {
  }

  lemma {:induction false} PaintRowPlaces(px: seq<byte>, p: seq<byte>, grid: Grid<byte>, width: nat, m: nat, n: nat)
    requires m < |grid| && m < width && n <= |grid[m]|
    requires PaintedUpTo(p, px, grid, width, m, 0)
    requires PaintRow(p, grid[m], m, width, n).Some?
    ensures PaintedUpTo(PaintRow(p, grid[m], m, width, n).value, px, grid, width, m, n)
  {
    if n > 0 {
      PaintRowPlaces(px, p, grid, width, m, n - 1);
      var q := PaintRow(p, grid[m], m, width, n - 1).value;
      var r := PaintRow(p, grid[m], m, width, n).value;
      assert r == PutPixel(q, (n - 1) * width + m, grid[m][n - 1]).value;
      forall i | 0 <= i < |px|
        ensures r[i] == Expected(px, grid, width, m, n, i)
      {
        ExpectedStep(px, grid, width, m, n - 1, i);
      }
    }
  }

  lemma {:induction false} PaintRowsPlace(px: seq<byte>, grid: Grid<byte>, width: nat, m: nat)
    requires m <= |grid| <= width && width > 0
    requires PaintRows(px, grid, width, m).Some?
    ensures PaintedUpTo(PaintRows(px, grid, width, m).value, px, grid, width, m, 0)
  {
    if m > 0 {
      PaintRowsPlace(px, grid, width, m - 1);
      var p := PaintRows(px, grid, width, m - 1).value;
      PaintRowPlaces(px, p, grid, width, m - 1, |grid[m - 1]|);
      var r := PaintRows(px, grid, width, m).value;
      forall i | 0 <= i < |px|
        ensures r[i] == Expected(px, grid, width, m, 0, i)
      {
        ExpectedNextRow(px, grid, width, m - 1, i);
      }
    }
  }

  /** A pattern with no more rows than the screen is wide is written
      without collisions: colour byte `c < 3` of pixel `y * width + x` holds
      sample `(x, y)`, and every other byte, each alpha byte among them,
      keeps its value. */
  lemma PaintPlaces(px: seq<byte>, grid: Grid<byte>, width: nat)
    requires 0 < width && |grid| <= width && Paint(px, grid, width).Some?
    ensures PaintedUpTo(Paint(px, grid, width).value, px, grid, width, |grid|, 0)
  {
    PaintRowsPlace(px, grid, width, |grid|);
  }

  // ------------------------------------------------------------- writing

  /** `save_image`: the array quantised and encoded for the extension of
      `path`, then written there; encoding can fail (an unknown extension)
      and so can creating the file. Nothing else in the file system
      changes. */
  function SaveImage(env: Env, files: Files, path: Path, phases: Phases): (r: Result<Files>)
    ensures r.Ok? <==> env.encodeImage(path, phases).Some? && env.writable(path)
    ensures r.Ok? ==> r.value.Keys == files.Keys + {path} && r.value[path] == env.encodeImage(path, phases).value
    ensures r.Ok? ==> forall p :: p in files && p != path ==> r.value[p] == files[p]
  {
    match env.encodeImage(path, phases)
    case None => Fail("The image format could not be determined")
    case Some(bytes) => if env.writable(path) then Ok(files[path := bytes]) else Fail("Permission denied")
  }

  /** The file system and the cache after a correction, and its outcome. */
  datatype Stored = Stored(files: Files, cache: Cache, result: Result<()>)

  /** `add_correction_pattern_deltas`: the flatness file for the wavelength
      is loaded at its own shape, then merged with the deltas and saved. */
  function AddCorrection(config: Config, env: Env, files: Files, cache: Cache, d: CorrectionPatternDeltas): (r: Stored)
  {
    match Resolve.FlatnessPath(config.dirPath.flatnessCorrPatterns, config.imageFileExtensions, IsFileIn(files), d.wavelength)
    case Err(e) => Stored(files, cache, Err(e))
    case Ok(found) =>
      var loaded := LoadData(env, files, cache, found, None);
      if loaded.result.Err? then Stored(files, loaded.cache, Err(loaded.result.fault))
      else MergeAndSave(env, files, loaded.cache, found, loaded.result.value, d)
  }

  /** The rest of `add_correction_pattern_deltas`, once the array
      `previous` of the flatness file `found` is loaded: the deltas are
      decoded to the requested shape and added, and the sum is saved under
      the name without "_factory"; only then is the sum cached under that
      name. A failure writes nothing and leaves the cache alone; a success
      writes the target file and caches the sum under it, and nothing
      else. */
  function MergeAndSave(env: Env, files: Files, cache: Cache, found: Path, previous: Phases, d: CorrectionPatternDeltas): (r: Stored)
    ensures r.result.Err? ==> r.files == files && r.cache == cache
    ensures r.result.Ok? <==>
      var delta := Base64ToNdarray(env.decodeBase64, d.imagedata, d.shapeXY.0, d.shapeXY.1);
      var target := Resolve.CorrectionTarget(found);
      delta.Ok? && BroadcastsTo((d.shapeXY.0, d.shapeXY.1), Shape(previous)) && target.Some? &&
      SaveImage(env, files, target.value, Sum(previous, Deltas(delta.value))).Ok?
    ensures r.result.Ok? ==>
      var delta := Base64ToNdarray(env.decodeBase64, d.imagedata, d.shapeXY.0, d.shapeXY.1).value;
      var target := Resolve.CorrectionTarget(found).value;
      var merged := Sum(previous, Deltas(delta));
      r.cache == cache[target := merged] && r.files == SaveImage(env, files, target, merged).value
  {
    match Base64ToNdarray(env.decodeBase64, d.imagedata, d.shapeXY.0, d.shapeXY.1)
    case Err(e) => Stored(files, cache, Err(e))
    case Ok(delta) =>
      if !BroadcastsTo((d.shapeXY.0, d.shapeXY.1), Shape(previous)) then
        Stored(files, cache, Err(Panicked("could not broadcast array")))
      else match Resolve.CorrectionTarget(found)
        case None => Stored(files, cache, Err(Panicked("called `Option::unwrap()` on a `None` value")))
        case Some(target) =>
          var merged := Sum(previous, Deltas(delta));
          match SaveImage(env, files, target, merged)
          case Err(e) => Stored(files, cache, Err(e))
          case Ok(saved) => Stored(saved, cache[target := merged], Ok(()))
  }

  /** A correction that fails writes nothing, and the cache changes at most
      by the flatness file it loaded. */
  lemma AddCorrectionFailure(config: Config, env: Env, files: Files, cache: Cache, d: CorrectionPatternDeltas)
    requires AddCorrection(config, env, files, cache, d).result.Err?
    ensures var r := AddCorrection(config, env, files, cache, d);
      var fp := Resolve.FlatnessPath(config.dirPath.flatnessCorrPatterns, config.imageFileExtensions, IsFileIn(files), d.wavelength);
      r.files == files &&
      (fp.Err? ==> r.cache == cache) &&
      (fp.Ok? ==> r.cache == LoadData(env, files, cache, fp.value, None).cache)
  {
    var fp := Resolve.FlatnessPath(config.dirPath.flatnessCorrPatterns, config.imageFileExtensions, IsFileIn(files), d.wavelength);
    if fp.Ok? {
      var loaded := LoadData(env, files, cache, fp.value, None);
      if loaded.result.Ok? {
        assert AddCorrection(config, env, files, cache, d) == MergeAndSave(env, files, loaded.cache, fp.value, loaded.result.value, d);
      }
    }
  }

  /** A correction that succeeds has loaded the flatness file, decoded
      exactly rows times columns words that broadcast to its shape, and
      written their sum to the correction target, which is then cached
      with the sum; no other file and no other cache entry changes. */
  lemma AddCorrectionSuccess(config: Config, env: Env, files: Files, cache: Cache, d: CorrectionPatternDeltas)
    requires AddCorrection(config, env, files, cache, d).result.Ok?
    ensures var r := AddCorrection(config, env, files, cache, d);
      var fp := Resolve.FlatnessPath(config.dirPath.flatnessCorrPatterns, config.imageFileExtensions, IsFileIn(files), d.wavelength);
      var delta := Base64ToNdarray(env.decodeBase64, d.imagedata, d.shapeXY.0, d.shapeXY.1);
      fp.Ok? && delta.Ok? &&
      |env.decodeBase64(d.imagedata).value| / 4 == d.shapeXY.0 * d.shapeXY.1 &&
      var loaded := LoadData(env, files, cache, fp.value, None);
      var target := Resolve.CorrectionTarget(fp.value);
      loaded.result.Ok? && target.Some? &&
      BroadcastsTo((d.shapeXY.0, d.shapeXY.1), Shape(loaded.result.value)) &&
      var merged := Sum(loaded.result.value, Deltas(delta.value));
      r.cache == loaded.cache[target.value := merged] &&
      r.files.Keys == files.Keys + {target.value} &&
      r.files[target.value] == env.encodeImage(target.value, merged).value &&
      forall p :: p in files && p != target.value ==> r.files[p] == files[p]
  {
  }

  /** After a successful correction the file written is
      `flatness_wavelength_<w>` with the extension of the file that was
      found, and it is the flatness file found from then on: the next
      pattern computed for the wavelength loads the merged array from the
      cache without reading it. */
  lemma AddCorrectionTakesEffect(config: Config, env: Env, files: Files, cache: Cache, d: CorrectionPatternDeltas, dim: Option<(nat, nat)>) returns (i: nat)
    requires AddCorrection(config, env, files, cache, d).result.Ok?
    requires Resolve.PlainExtensions(config.imageFileExtensions)
    requires Paths.SingleTrailing(config.dirPath.flatnessCorrPatterns)
    ensures i < |config.imageFileExtensions|
    ensures var r := AddCorrection(config, env, files, cache, d);
      var dir := config.dirPath.flatnessCorrPatterns;
      var written := Paths.Join(dir, Resolve.FlatnessName(d.wavelength) + config.imageFileExtensions[i]);
      var fp := Resolve.FlatnessPath(dir, config.imageFileExtensions, IsFileIn(files), d.wavelength);
      var delta := Base64ToNdarray(env.decodeBase64, d.imagedata, d.shapeXY.0, d.shapeXY.1);
      fp.Ok? && delta.Ok? &&
      var merged := Sum(LoadData(env, files, cache, fp.value, None).result.value, Deltas(delta.value));
      r.files.Keys == files.Keys + {written} &&
      Resolve.FlatnessPath(dir, config.imageFileExtensions, IsFileIn(r.files), d.wavelength) == Ok(written) &&
      LoadData(env, r.files, r.cache, written, dim) == Loaded(r.cache, Ok(merged))
  {
    var r := AddCorrection(config, env, files, cache, d);
    var dir := config.dirPath.flatnessCorrPatterns;
    var exts := config.imageFileExtensions;
    AddCorrectionSuccess(config, env, files, cache, d);
    i := Resolve.CorrectionTargetPlain(dir, exts, IsFileIn(files), d.wavelength);
    var fp := Resolve.FlatnessPath(dir, exts, IsFileIn(files), d.wavelength).value;
    var target := Resolve.CorrectionTarget(fp);
    assert forall q :: IsFileIn(r.files)(q) <==> IsFileIn(files)(q) || Some(q) == target;
    Resolve.CorrectionFoundNext(dir, exts, IsFileIn(files), IsFileIn(r.files), d.wavelength);
    LoadDataHit(env, r.files, r.cache, target.value, dim);
  }

  /** The file system after an upload, and its outcome. */
  datatype Written = Written(files: Files, result: Result<()>)

  /** `save_image_data`: the data URL is taken apart, the extension it
      names replaces the extension of `path`, the file is created, and the
      decoded body is written to it. The file is created before the body is
      decoded, so a body that is not base64 leaves an empty file behind. */
  function SaveImageData(env: Env, files: Files, path: Path, data: string): (r: Written)
    ensures var parts := ImageData.ParseImageData(data);
      r.result.Ok? <==> parts.Ok? && env.writable(Paths.SetExtension(path, parts.value.extension)) && env.decodeBase64(parts.value.body).Some?
    ensures r.files == files || (
      var parts := ImageData.ParseImageData(data);
      parts.Ok? &&
      var target := Paths.SetExtension(path, parts.value.extension);
      r.files.Keys == files.Keys + {target} &&
      r.files[target] == (if r.result.Ok? then env.decodeBase64(parts.value.body).value else []) &&
      forall p :: p in files && p != target ==> r.files[p] == files[p])
  {
    match ImageData.ParseImageData(data)
    case Err(e) => Written(files, Err(e))
    case Ok(parts) =>
      var target := Paths.SetExtension(path, parts.extension);
      if !env.writable(target) then Written(files, Fail("Permission denied"))
      else match env.decodeBase64(parts.body)
        case None => Written(files[target := []], Fail("Invalid byte in base64 input"))
        case Some(bytes) => Written(files[target := bytes], Ok(()))
  }

  /** An image sent as `<mime>/<ext>;base64,<body>` is written, decoded,
      to `path` with its extension set to `ext`. */
  lemma SaveImageDataRoundTrip(env: Env, files: Files, path: Path, mime: string, ext: string, body: string)
    requires Strings.FreeOf(mime, '/') && Strings.FreeOf(mime, ';') && Strings.FreeOf(ext, '/') && Strings.FreeOf(ext, ';')
    requires Strings.FreeOf(body, ';')
    requires env.writable(Paths.SetExtension(path, ext)) && env.decodeBase64(body).Some?
    ensures SaveImageData(env, files, path, mime + "/" + ext + ImageData.Marker + body) ==
      Written(files[Paths.SetExtension(path, ext) := env.decodeBase64(body).value], Ok(()))
  {
    ImageData.ParseImageDataRoundTrip(mime, ext, body);
  }

  /** A body that is not base64 leaves an empty file where the image was to
      go, and the upload fails. */
  lemma BadBodyLeavesEmptyFile(env: Env, files: Files, path: Path, mime: string, ext: string, body: string)
    requires Strings.FreeOf(mime, '/') && Strings.FreeOf(mime, ';') && Strings.FreeOf(ext, '/') && Strings.FreeOf(ext, ';')
    requires Strings.FreeOf(body, ';')
    requires env.writable(Paths.SetExtension(path, ext)) && env.decodeBase64(body).None?
    ensures var r := SaveImageData(env, files, path, mime + "/" + ext + ImageData.Marker + body);
      r.result.Err? && r.files == files[Paths.SetExtension(path, ext) := []]
  {
    ImageData.ParseImageDataRoundTrip(mime, ext, body);
  }

  /** `std::fs::remove_file`: an error when there is no such file. */
  function RemoveFile(files: Files, path: Path): (r: Result<Files>)
    ensures r.Ok? <==> path in files
    ensures r.Ok? ==> r.value.Keys == files.Keys - {path} && forall p :: p in r.value ==> r.value[p] == files[p]
  {
    if path in files then Ok(files - {path}) else Fail("No such file or directory")
  }
}
