/** The controller as the program holds it: `Context` (src/main.rs:42-48)
    with the device state, the pixel buffer of the screen, and the
    connection to the broker, here an outbox of publications and a list of
    subscriptions. Each operation is the step-by-step code of
    src/message_loop.rs, and each is proved to have exactly the effect that
    `Dispatch` and `Engine` give it as a function of the `World`. */
module Controller {
  import opened Wrappers
  import opened Schema
  import opened Rasters
  import Paths
  import Util
  import Catalog
  import Selection
  import Resolve
  import Wire
  import Engine
  import Dispatch

  class Context {
    const config: Config
    const env: Engine.Env
    /** Precomputed once: the only topic the controller publishes to. */
    const mainTopicAim: string
    /** `ScreenContext::pixels`: four bytes per pixel, ARGB, row by row. */
    const pixels: array<byte>
    var state: Engine.State
    var files: Engine.Files
    var outbox: seq<Dispatch.Publication>
    var subscriptions: seq<Dispatch.Subscription>
    var rebooted: bool

    /** Everything the operations change, as a value. */
    ghost function World(): Dispatch.World
      reads this, pixels
    {
      Dispatch.World(state, files, pixels[..], outbox, subscriptions, rebooted)
    }

    ghost predicate Valid()
      reads this
    {
      mainTopicAim == Dispatch.AimTopic(config)
    }

    /** The state after an operation agrees with the outcome `o` of its
        specification and the operation returned `o`'s result. After a
        panic, which ends the process, the pixel buffer may hold a partial
        pattern, so nothing more is said about the state then. */
    ghost predicate Reached(o: Dispatch.Outcome, r: Result<()>)
      reads this, pixels
    {
      r == o.result && (World() == o.world || (r.Err? && r.fault.Panicked?))
    }

    /** `Context::new`: the aim topic is computed once from the
        configuration. */
    constructor (config: Config, env: Engine.Env, files: Engine.Files, pixels: array<byte>, state: Engine.State)
      ensures Valid() && mainTopicAim == MainTopic(config) + "/aim"
      ensures this.config == config && this.env == env && this.pixels == pixels
      ensures World() == Dispatch.World(state, files, pixels[..], [], [], false)
    {
      this.config := config;
      this.env := env;
      this.mainTopicAim := Util.Subtopic(MainTopic(config), "aim");
      this.pixels := pixels;
      this.state := state;
      this.files := files;
      this.outbox := [];
      this.subscriptions := [];
      this.rebooted := false;
    }

    // --------------------------------------------------------------- sends

    /** `send_aim_message`: publish to `main_topic_aim` with QoS 0. */
    method SendAimMessage(m: Message)
      requires Valid()
      modifies this
      ensures World() == Dispatch.Send(config, old(World()), m)
    {
      outbox := outbox + [Dispatch.Publication(mainTopicAim, m, 0)];
    }

    method SendGetLasers()
      requires Valid()
      modifies this
      ensures World() == Dispatch.SendGetLasers(config, old(World()))
    {
      SendAimMessage(Message(Device, Lasers(LaserCommand.Get)));
    }

    /** `send_available_patterns`: the catalog is built from the two walks
        of the file system as it is now. */
    method SendAvailablePatterns()
      requires Valid()
      modifies this
      ensures World() == Dispatch.SendAvailablePatterns(config, env, old(World()))
    {
      var base := config.dirPath.basePatterns;
      var catalog := Catalog.BuildCatalog(env.walk(files, base), env.walk(files, Paths.Join(base, "custom_patterns")));
      SendAimMessage(Message(Device, Aim(AimCommand.AvailablePatterns(catalog))));
    }

    method SendPrestackDone()
      requires Valid()
      modifies this
      ensures World() == Dispatch.SendPrestackDone(config, old(World()))
    {
      SendAimMessage(Message(Device, Aim(Response("PreStack done"))));
    }

    method SendCorrectionAck(wavelength: u32)
      requires Valid()
      modifies this
      ensures World() == Dispatch.SendCorrectionAck(config, old(World()), wavelength)
    {
      SendAimMessage(Message(Device, Aim(SetCorrectionPatternDeltasResponse(wavelength, true))));
    }

    // --------------------------------------------------------------- cache

    /** `load_data`: a miss reads the file and inserts it before the
        cached array is returned. */
    method LoadData(path: Paths.Path, dim: Option<(nat, nat)>) returns (r: Result<Phases>)
      modifies this
      ensures var l := Engine.LoadData(env, files, old(state.cache), path, dim);
        r == l.result && World() == old(World()).(state := old(state).(cache := l.cache))
    {
      if path !in state.cache {
        var read := Engine.ReadImage(env, files, path, dim);
        if read.Err? {
          return Err(read.fault);
        }
        state := state.(cache := state.cache[path := read.value]);
      }
      return Ok(state.cache[path]);
    }

    // ------------------------------------------------------------- pattern

    /** The first step of `compute_pattern`: the spot field, or the array
        of the file the pattern resolves to, loaded at screen shape. */
    method BaseTerm() returns (r: Result<Phases>)
      modifies this
      ensures var b := Engine.BaseTerm(config, env, old(files), old(state));
        r == b.result && World() == old(World()).(state := old(state).(cache := b.cache))
    {
      var dim := Engine.ScreenDim(config);
      if state.patternParams.Spot? {
        return Ok(SpotField(state.patternParams.spot, dim.0, dim.1));
      }
      var path := Resolve.ResolveBasePattern(config.dirPath.basePatterns, config.imageFileExtensions, Engine.IsFileIn(files), state.patternParams);
      if path.Err? {
        return Err(path.fault);
      }
      r := LoadData(path.value, Some(dim));
    }

    /** The second step of `compute_pattern`: the flatness correction of
        the current wavelength is added when configured. */
    method WithFlatness(base: Phases) returns (r: Result<Phases>)
      modifies this
      ensures var f := Engine.WithFlatness(config, env, old(files), old(state.wavelength), Engine.Loaded(old(state.cache), Ok(base)));
        r == f.result && World() == old(World()).(state := old(state).(cache := f.cache))
    {
      if !config.computePattern.addFlatnessCorrection {
        return Ok(base);
      }
      var path := Resolve.FindFlatnessFile(config.dirPath.flatnessCorrPatterns, config.imageFileExtensions, Engine.IsFileIn(files), state.wavelength);
      if path.Err? {
        return Err(path.fault);
      }
      var flat := LoadData(path.value, Some(Engine.ScreenDim(config)));
      if flat.Err? {
        return Err(flat.fault);
      }
      if !BroadcastsTo(Shape(flat.value), Shape(base)) {
        return Err(Panicked("could not broadcast array"));
      }
      return Ok(Sum(base, flat.value));
    }

    /** `compute_pattern`: the base term, then the flatness correction when
        configured, then the calibration factor of the wavelength. Arrays
        loaded on the way stay cached when a later step fails. */
    method ComputePattern() returns (r: Result<Grid<byte>>)
      modifies this
      ensures var c := Engine.ComputePattern(config, env, old(files), old(state));
        r == c.result && World() == old(World()).(state := old(state).(cache := c.cache))
    {
      var base := BaseTerm();
      if base.Err? {
        return Err(base.fault);
      }
      ghost var baseCache := state.cache;
      var summed := WithFlatness(base.value);
      if summed.Err? {
        return Err(summed.fault);
      }
      var phases := summed.value;
      var dim := Engine.ScreenDim(config);
      var scaling := config.computePattern.slmCalibScaling;
      if !BroadcastsTo(dim, Shape(phases)) {
        return Err(Panicked("could not broadcast array"));
      }
      var id := Selection.ScaleIndex(scaling.knownWavelengths, state.wavelength);
      if id.Err? {
        return Err(id.fault);
      }
      if id.value >= |scaling.scaleFactors| {
        return Err(Panicked("index out of bounds"));
      }
      var frame := Frame(phases, dim, state.wavelength, state.fresnel, scaling.scaleFactors[id.value]);
      return Ok(Engine.Quantise(env, frame));
    }

    /** One row of `put_pattern`'s iteration: sample `y` of row `x` goes to
        the three colour bytes of pixel `y * width + x`; a pixel outside
        the buffer panics. */
    method PutRow(row: seq<byte>, x: nat) returns (r: Result<()>)
      modifies pixels
      ensures var painted := Engine.PaintRow(old(pixels[..]), row, x, config.screen.size.0, |row|);
        r == (if painted.Some? then Ok(()) else Err(Panicked("index out of bounds"))) &&
        (r.Ok? ==> pixels[..] == painted.value)
    {
      var width := config.screen.size.0;
      ghost var start: seq<byte> := pixels[..];
      for y := 0 to |row|
        invariant Engine.PaintRow(start, row, x, width, y) == Some(pixels[..])
      {
        var k := y * width + x;
        if 4 * k + 2 >= pixels.Length {
          assert !Engine.InBuffer(start, width, x, y);
          return Err(Panicked("index out of bounds"));
        }
        ghost var before: seq<byte> := pixels[..];
        pixels[4 * k] := row[y];
        pixels[4 * k + 1] := row[y];
        pixels[4 * k + 2] := row[y];
        assert pixels[..] == before[4 * k := row[y]][4 * k + 1 := row[y]][4 * k + 2 := row[y]];
      }
      return Ok(());
    }

    /** `put_pattern`: the rows of the pattern in `indexed_iter` order. */
    method PutPattern(grid: Grid<byte>) returns (r: Result<()>)
      modifies pixels
      ensures var painted := Engine.Paint(old(pixels[..]), grid, config.screen.size.0);
        r == (if painted.Some? then Ok(()) else Err(Panicked("index out of bounds"))) &&
        (r.Ok? ==> pixels[..] == painted.value)
    {
      var width := config.screen.size.0;
      ghost var start: seq<byte> := pixels[..];
      for x := 0 to |grid|
        invariant Engine.PaintRows(start, grid, width, x) == Some(pixels[..])
      {
        r := PutRow(grid[x], x);
        if r.Err? {
          assert Engine.PaintRows(start, grid, width, x + 1).None?;
          return;
        }
      }
      return Ok(());
    }

    /** The second half of `update_state`: the pattern of the current
        state is computed and put on the screen. */
    method ShowPattern() returns (r: Result<()>)
      modifies this, pixels
      ensures Reached(Dispatch.UpdateState(config, env, old(World()), None, None, None), r)
    {
      ghost var w := World();
      assert Dispatch.Overwrite(w.state, None, None, None) == w.state;
      ghost var o := Dispatch.UpdateState(config, env, w, None, None, None);
      var grid := ComputePattern();
      if grid.Err? {
        assert o == Dispatch.Outcome(World(), Err(grid.fault));
        return Err(grid.fault);
      }
      ghost var w' := World();
      ghost var painted := Engine.Paint(w.pixels, grid.value, config.screen.size.0);
      assert painted.None? ==> o == Dispatch.Outcome(w', Err(Panicked("index out of bounds")));
      assert painted.Some? ==> o == Dispatch.Outcome(w'.(pixels := painted.value), Ok(()));
      assert w'.pixels == w.pixels;
      r := PutPattern(grid.value);
      assert World() == w'.(pixels := pixels[..]);
    }

    /** `update_state`: the fields given are overwritten, then the pattern
        is computed and put on the screen. */
    method UpdateState(pattern: Option<PatternParams>, fresnel: Option<u32>, wavelength: Option<u32>) returns (r: Result<()>)
      modifies this, pixels
      ensures Reached(Dispatch.UpdateState(config, env, old(World()), pattern, fresnel, wavelength), r)
    {
      if pattern.Some? {
        state := state.(patternParams := pattern.value);
      }
      state := state.(fresnel := fresnel.GetOr(state.fresnel));
      state := state.(wavelength := wavelength.GetOr(state.wavelength));
      assert World() == old(World()).(state := Dispatch.Overwrite(old(state), pattern, fresnel, wavelength));
      Dispatch.UpdateStateOverwritesFirst(config, env, old(World()), pattern, fresnel, wavelength);
      r := ShowPattern();
    }

    // ---------------------------------------------------------- correction

    /** `add_correction_pattern_deltas`: the flatness file is loaded at its
        own shape, the deltas are added, the sum is saved under the name
        without "_factory" and only then cached under it. */
    method AddCorrectionPatternDeltas(d: CorrectionPatternDeltas) returns (r: Result<()>)
      modifies this
      ensures var s := Engine.AddCorrection(config, env, old(files), old(state.cache), d);
        r == s.result && World() == old(World()).(files := s.files, state := old(state).(cache := s.cache))
    {
      var found := Resolve.FindFlatnessFile(config.dirPath.flatnessCorrPatterns, config.imageFileExtensions, Engine.IsFileIn(files), d.wavelength);
      if found.Err? {
        return Err(found.fault);
      }
      var previous := LoadData(found.value, None);
      if previous.Err? {
        return Err(previous.fault);
      }
      assert Engine.AddCorrection(config, env, old(files), old(state.cache), d) ==
        Engine.MergeAndSave(env, files, state.cache, found.value, previous.value, d);
      r := MergeAndSave(found.value, previous.value, d);
    }

    /** The rest of `add_correction_pattern_deltas` once the flatness file
        `found` has loaded as `previous`. */
    method MergeAndSave(found: Paths.Path, previous: Phases, d: CorrectionPatternDeltas) returns (r: Result<()>)
      modifies this
      ensures var s := Engine.MergeAndSave(env, old(files), old(state.cache), found, previous, d);
        r == s.result && World() == old(World()).(files := s.files, state := old(state).(cache := s.cache))
    {
      var delta := Base64ToNdarray(env.decodeBase64, d.imagedata, d.shapeXY.0, d.shapeXY.1);
      if delta.Err? {
        return Err(delta.fault);
      }
      if !BroadcastsTo((d.shapeXY.0, d.shapeXY.1), Shape(previous)) {
        return Err(Panicked("could not broadcast array"));
      }
      var merged := Sum(previous, Deltas(delta.value));
      var target := Resolve.CorrectionTarget(found);
      if target.None? {
        return Err(Panicked("called `Option::unwrap()` on a `None` value"));
      }
      var saved := Engine.SaveImage(env, files, target.value, merged);
      if saved.Err? {
        return Err(saved.fault);
      }
      files := saved.value;
      state := state.(cache := state.cache[target.value := merged]);
      return Ok(());
    }

    // ------------------------------------------------------------ commands

    /** `on_connect`: the four subscriptions, one per subtopic in order,
        then the reports. */
    method OnConnect()
      requires Valid()
      modifies this
      ensures World() == Dispatch.OnConnect(config, env, old(World()))
    {
      for i := 0 to |Dispatch.Subtopics|
        invariant subscriptions == old(subscriptions) + Dispatch.Subscriptions(config)[..i]
        invariant World() == old(World()).(subscriptions := subscriptions)
      {
        var topic := Util.Subtopic(MainTopic(config), Dispatch.Subtopics[i]);
        subscriptions := subscriptions + [Dispatch.Subscription(topic, 0)];
        assert Dispatch.Subscriptions(config)[..i + 1] == Dispatch.Subscriptions(config)[..i] + [Dispatch.Subscription(topic, 0)];
      }
      assert Dispatch.Subscriptions(config)[..|Dispatch.Subtopics|] == Dispatch.Subscriptions(config);
      SendGetLasers();
      SendAvailablePatterns();
    }

    method PreStack(s: AimState) returns (r: Result<()>)
      requires Valid()
      modifies this, pixels
      ensures Reached(Dispatch.HandlePreStack(config, env, old(World()), s), r)
    {
      r := UpdateState(Some(s.pattern), Some(s.fresnel), None);
      if r.Err? {
        return;
      }
      SendPrestackDone();
    }

    /** `UploadImage`: save below `custom_patterns`, then the catalog. */
    method Upload(name: string, data: string) returns (r: Result<()>)
      requires Valid()
      modifies this
      ensures Reached(Dispatch.Upload(config, env, old(World()), name, data), r)
    {
      var path := Resolve.CustomPatternPath(env.cwd, config.dirPath.basePatterns, name);
      if path.Err? {
        return Err(path.fault);
      }
      var written := Engine.SaveImageData(env, files, path.value, data);
      files := written.files;
      if written.result.Err? {
        return written.result;
      }
      SendAvailablePatterns();
      return Ok(());
    }

    /** `DeleteImage`: remove the file below `custom_patterns`, then the
        catalog. */
    method Delete(name: string) returns (r: Result<()>)
      requires Valid()
      modifies this
      ensures Reached(Dispatch.Delete(config, env, old(World()), name), r)
    {
      var path := Resolve.CustomPatternPath(env.cwd, config.dirPath.basePatterns, name);
      if path.Err? {
        return Err(path.fault);
      }
      var removed := Engine.RemoveFile(files, path.value);
      if removed.Err? {
        return Err(removed.fault);
      }
      files := removed.value;
      SendAvailablePatterns();
      return Ok(());
    }

    method ApplyCorrection(d: CorrectionPatternDeltas) returns (r: Result<()>)
      requires Valid()
      modifies this
      ensures Reached(Dispatch.ApplyCorrection(config, env, old(World()), d), r)
    {
      r := AddCorrectionPatternDeltas(d);
      if r.Err? {
        return;
      }
      SendCorrectionAck(d.wavelength);
    }

    /** `Reboot`: start the reboot of the machine, which can fail. */
    method StartReboot() returns (r: Result<()>)
      requires Valid()
      modifies this
      ensures Reached(Dispatch.StartReboot(env, old(World())), r)
    {
      if env.reboot {
        rebooted := true;
        r := Ok(());
      } else {
        r := Fail("reboot failed");
      }
    }

    /** The `match aim_command` of `process_message`. */
    method HandleAim(cmd: AimCommand) returns (r: Result<()>)
      requires Valid()
      modifies this, pixels
      ensures Reached(Dispatch.HandleAim(config, env, old(World()), cmd), r)
    {
      match cmd
      case Set(s) =>
        r := UpdateState(Some(s.pattern), Some(s.fresnel), None);
      case PreStack(s) =>
        r := PreStack(s);
      case Get =>
        r := Ok(());
      case GetAllPatterns =>
        SendAvailablePatterns();
        r := Ok(());
      case SetFresnel(v) =>
        r := UpdateState(None, Some(v), None);
      case SetPattern(p) =>
        r := UpdateState(Some(p), None, None);
      case UploadImage(name, data) =>
        r := Upload(name, data);
      case DeleteImage(name) =>
        r := Delete(name);
      case SetCorrectionPatternDeltas(d) =>
        r := ApplyCorrection(d);
      case Reboot =>
        r := StartReboot();
      case Response(_) =>
        r := Ok(());
      case Disconnect =>
        r := Ok(());
      case AvailablePatterns(_) =>
        r := Ok(());
      case SetCorrectionPatternDeltasResponse(_, _) =>
        r := Ok(());
    }

    /** `process_message` on a decoded message: the reports on `InitDone`,
        the wavelength of the strongest laser on a laser update, and then
        the `Aim` command or the "Unexpected message" error. */
    method Handle(m: Message) returns (r: Result<()>)
      requires Valid()
      modifies this, pixels
      ensures Reached(Dispatch.Handle(config, env, old(World()), m), r)
    {
      if m.mType == Status && m.data == Embedded(InitDone) {
        SendGetLasers();
        SendAvailablePatterns();
      } else if m.mType == Device && m.data.Lasers? && m.data.lasers.Set? {
        var strongest := Selection.StrongestWavelength(m.data.lasers.lasers);
        if strongest.None? {
          return Ok(());
        }
        r := UpdateState(None, None, Some(strongest.value));
        if r.Err? {
          return;
        }
      }
      if !(m.mType == Device && m.data.Aim?) {
        return Fail("Unexpected message");
      }
      r := HandleAim(m.data.aim);
    }

    /** `process_message`: the payload is decoded first; a payload that
        does not decode changes nothing. */
    method ProcessMessage(payload: Wire.Json) returns (r: Result<()>)
      requires Valid()
      modifies this, pixels
      ensures Reached(Dispatch.ProcessMessage(config, env, old(World()), payload), r)
    {
      var decoded := Wire.DecodeMessage(payload);
      if decoded.Err? {
        return Err(decoded.fault);
      }
      r := Handle(decoded.value);
    }
  }
}
