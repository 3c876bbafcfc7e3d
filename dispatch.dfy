/** What the controller does with each message it receives, as a function
    of everything its operations change (the `World`): `update_state`
    (src/message_loop.rs:430-445), `on_connect` (src/message_loop.rs:447-467)
    and `process_message` (src/message_loop.rs:469-570), with the reports
    they send (src/message_loop.rs:86-98, 177-218). Publishing is appending
    to an outbox; subscribing is appending to a list of subscriptions. */
module Dispatch {
  import opened Wrappers
  import opened Schema
  import opened Rasters
  import Paths
  import Util
  import Catalog
  import Selection
  import Resolve
  import Wire
  import Engine

  /** A message sent with `client.publish`. */
  datatype Publication = Publication(topic: string, message: Message, qos: nat)

  /** A topic subscribed to with `client.subscribe`. */
  datatype Subscription = Subscription(topic: string, qos: nat)

  /** The part of the controller that its operations change: the device
      state with its cache, the file system, the ARGB pixel buffer of the
      screen, what has been published and subscribed, and whether a reboot
      was started. */
  datatype World = World(
    state: Engine.State,
    files: Engine.Files,
    pixels: seq<byte>,
    outbox: seq<Publication>,
    subscriptions: seq<Subscription>,
    rebooted: bool)

  /** The world after an operation, and its outcome. */
  datatype Outcome = Outcome(world: World, result: Result<()>)

  // ----------------------------------------------------------------- sends

  /** `main_topic_aim`: the only topic the controller publishes to. */
  function AimTopic(config: Config): (t: string)
    ensures t == MainTopic(config) + "/aim"
  {
    Util.Subtopic(MainTopic(config), "aim")
  }

  /** `send_aim_message`: the message published to the aim topic with
      QoS 0. */
  function Send(config: Config, w: World, m: Message): (r: World)
    ensures SentToAim(config, w, r)
    ensures r.outbox == w.outbox + [Publication(AimTopic(config), m, 0)]
    ensures r.state == w.state && r.files == w.files && r.pixels == w.pixels
    ensures r.subscriptions == w.subscriptions && r.rebooted == w.rebooted
  {
    var r := w.(outbox := w.outbox + [Publication(AimTopic(config), m, 0)]);
    assert r.outbox[..|w.outbox|] == w.outbox;
    r
  }

  /** `available_patterns` over the two one-level walks of the file system:
      the base-pattern directory and its `custom_patterns`. */
  ghost function CatalogIn(config: Config, env: Engine.Env, files: Engine.Files): AvailablePatterns {
    var base := config.dirPath.basePatterns;
    Catalog.CatalogOf(env.walk(files, base), env.walk(files, Paths.Join(base, "custom_patterns")))
  }

  /** The catalog of `files`, as `send_available_patterns` publishes it. */
  ghost function CatalogPublication(config: Config, env: Engine.Env, files: Engine.Files): Publication {
    Publication(AimTopic(config), Message(Device, Aim(AimCommand.AvailablePatterns(CatalogIn(config, env, files)))), 0)
  }

  ghost function SendAvailablePatterns(config: Config, env: Engine.Env, w: World): (r: World)
    ensures SentToAim(config, w, r)
    ensures r == w.(outbox := w.outbox + [CatalogPublication(config, env, w.files)])
  {
    Send(config, w, Message(Device, Aim(AimCommand.AvailablePatterns(CatalogIn(config, env, w.files)))))
  }

  function SendGetLasers(config: Config, w: World): (r: World)
    ensures SentToAim(config, w, r)
  {
    Send(config, w, Message(Device, Lasers(LaserCommand.Get)))
  }

  function SendPrestackDone(config: Config, w: World): (r: World)
    ensures SentToAim(config, w, r)
  {
    Send(config, w, Message(Device, Aim(Response("PreStack done"))))
  }

  function SendCorrectionAck(config: Config, w: World, wavelength: u32): (r: World)
    ensures SentToAim(config, w, r)
  {
    Send(config, w, Message(Device, Aim(SetCorrectionPatternDeltasResponse(wavelength, true))))
  }

  /** The reports sent on connecting and on `InitDone`: the request for
      the lasers, then the catalog. The report of the current state that
      follows them sends nothing. */
  ghost function SendReports(config: Config, env: Engine.Env, w: World): (r: World)
    ensures SentToAim(config, w, r)
  {
    var g := SendGetLasers(config, w);
    var r := SendAvailablePatterns(config, env, g);
    SentToAimTransitive(config, w, g, r);
    r
  }

  /** `w'` is `w` with only publications to the aim topic at QoS 0 added. */
  ghost predicate SentToAim(config: Config, w: World, w': World) {
    |w.outbox| <= |w'.outbox| && w'.outbox[..|w.outbox|] == w.outbox &&
    forall i :: |w.outbox| <= i < |w'.outbox| ==> w'.outbox[i].topic == AimTopic(config) && w'.outbox[i].qos == 0
  }

  lemma SentToAimTransitive(config: Config, a: World, b: World, c: World)
    requires SentToAim(config, a, b) && SentToAim(config, b, c)
    ensures SentToAim(config, a, c)
  {
    assert c.outbox[..|a.outbox|] == c.outbox[..|b.outbox|][..|a.outbox|];
    forall i | |a.outbox| <= i < |c.outbox|
      ensures c.outbox[i].topic == AimTopic(config) && c.outbox[i].qos == 0
    {
      if i < |b.outbox| {
        assert c.outbox[i] == c.outbox[..|b.outbox|][i];
      }
    }
  }

  // ------------------------------------------------------------ the state

  /** The state with the fields given overwritten and the others kept. */
  function Overwrite(s: Engine.State, pattern: Option<PatternParams>, fresnel: Option<u32>, wavelength: Option<u32>): Engine.State {
    s.(patternParams := pattern.GetOr(s.patternParams),
       fresnel := fresnel.GetOr(s.fresnel),
       wavelength := wavelength.GetOr(s.wavelength))
  }

  /** `update_state`: the given fields are overwritten first; then the
      pattern is computed and written to the pixel buffer. A computation
      that fails keeps the new fields (and the arrays it cached) but leaves
      the pixels as they were. */
  function UpdateState(config: Config, env: Engine.Env, w: World,
                       pattern: Option<PatternParams>, fresnel: Option<u32>, wavelength: Option<u32>): (o: Outcome)
    ensures o.world.files == w.files && o.world.outbox == w.outbox
    ensures o.world.subscriptions == w.subscriptions && o.world.rebooted == w.rebooted
  {
    var st := Overwrite(w.state, pattern, fresnel, wavelength);
    var computed := Engine.ComputePattern(config, env, w.files, st);
    var w' := w.(state := st.(cache := computed.cache));
    match computed.result
    case Err(e) => Outcome(w', Err(e))
    case Ok(grid) =>
      match Engine.Paint(w.pixels, grid, config.screen.size.0)
      case None => Outcome(w', Err(Panicked("index out of bounds")))
      case Some(px) => Outcome(w'.(pixels := px), Ok(()))
  }

  /** `update_state` overwrites exactly the fields it is given, keeps the
      others, and keeps every cached array; it computes the pattern from the
      overwritten state, and the pixels change only when a pattern was
      computed, and then to that pattern painted over them. */
  lemma UpdateStateFields(config: Config, env: Engine.Env, w: World,
                          pattern: Option<PatternParams>, fresnel: Option<u32>, wavelength: Option<u32>)
    ensures var s := UpdateState(config, env, w, pattern, fresnel, wavelength).world.state;
      (pattern.Some? ==> s.patternParams == pattern.value) && (pattern.None? ==> s.patternParams == w.state.patternParams) &&
      (fresnel.Some? ==> s.fresnel == fresnel.value) && (fresnel.None? ==> s.fresnel == w.state.fresnel) &&
      (wavelength.Some? ==> s.wavelength == wavelength.value) && (wavelength.None? ==> s.wavelength == w.state.wavelength) &&
      (forall p :: p in w.state.cache ==> p in s.cache && s.cache[p] == w.state.cache[p])
    ensures var o := UpdateState(config, env, w, pattern, fresnel, wavelength);
      var computed := Engine.ComputePattern(config, env, w.files, Overwrite(w.state, pattern, fresnel, wavelength));
      o.world.state.cache == computed.cache &&
      (computed.result.Err? ==> o.world.pixels == w.pixels && o.result == Err(computed.result.fault)) &&
      (o.result.Ok? <==> computed.result.Ok? && Engine.Paint(w.pixels, computed.result.value, config.screen.size.0).Some?) &&
      (o.result.Ok? ==> o.world.pixels == Engine.Paint(w.pixels, computed.result.value, config.screen.size.0).value)
  {
    UpdateStateOverwritesFirst(config, env, w, pattern, fresnel, wavelength);
    UpdateStatePaints(config, env, w.(state := Overwrite(w.state, pattern, fresnel, wavelength)));
  }

  /** With no fields given, `update_state` keeps every field but the cache,
      takes the cache of the computation and paints its result, or returns
      the computation's error with the buffer untouched. */
  lemma UpdateStatePaints(config: Config, env: Engine.Env, w: World)
    ensures var o := UpdateState(config, env, w, None, None, None);
      var computed := Engine.ComputePattern(config, env, w.files, w.state);
      o.world.state == w.state.(cache := computed.cache) &&
      (computed.result.Err? ==> o.world.pixels == w.pixels && o.result == Err(computed.result.fault)) &&
      (o.result.Ok? <==> computed.result.Ok? && Engine.Paint(w.pixels, computed.result.value, config.screen.size.0).Some?) &&
      (o.result.Ok? ==> o.world.pixels == Engine.Paint(w.pixels, computed.result.value, config.screen.size.0).value)
  {
    assert Overwrite(w.state, None, None, None) == w.state;
  }

  /** `update_state` overwrites the fields before it computes anything:
      it is the update with no fields given, applied to the overwritten
      state. */
  lemma UpdateStateOverwritesFirst(config: Config, env: Engine.Env, w: World,
                                   pattern: Option<PatternParams>, fresnel: Option<u32>, wavelength: Option<u32>)
    ensures UpdateState(config, env, w, pattern, fresnel, wavelength) ==
      UpdateState(config, env, w.(state := Overwrite(w.state, pattern, fresnel, wavelength)), None, None, None)
  {
  }

  /** Whether the screen is painted with a pattern of its own size: the
      cache holds only arrays of the screen's shape, the screen has at
      least one row and column and the buffer has four bytes per pixel. */
  ghost predicate ScreenReady(config: Config, w: World) {
    var (sx, sy) := config.screen.size;
    sx > 0 && sy > 0 &&
    Engine.ScreenShaped(w.state.cache, Engine.ScreenDim(config)) &&
    |w.pixels| == sx * sy * 4
  }

  /** On a ready screen, `update_state` never panics while painting: it
      fails only where computing the pattern fails, and it keeps the screen
      ready. Every colour byte of the buffer then holds its pixel's sample
      and every other byte, each alpha byte among them, is kept. */
  lemma UpdateStateOnReadyScreen(config: Config, env: Engine.Env, w: World,
                                 pattern: Option<PatternParams>, fresnel: Option<u32>, wavelength: Option<u32>)
    requires ScreenReady(config, w)
    ensures var o := UpdateState(config, env, w, pattern, fresnel, wavelength);
      var computed := Engine.ComputePattern(config, env, w.files, Overwrite(w.state, pattern, fresnel, wavelength));
      ScreenReady(config, o.world) &&
      (o.result.Ok? <==> computed.result.Ok?) &&
      (o.result.Ok? ==> Engine.PaintedUpTo(o.world.pixels, w.pixels, computed.result.value, config.screen.size.0, config.screen.size.0, 0))
  {
    var (sx, sy) := config.screen.size;
    var st := Overwrite(w.state, pattern, fresnel, wavelength);
    var computed := Engine.ComputePattern(config, env, w.files, st);
    Engine.ComputeKeepsScreenShape(config, env, w.files, st);
    if computed.result.Ok? {
      var grid := computed.result.value;
      Engine.PaintFits(w.pixels, grid, sx, sy);
      Engine.PaintPlaces(w.pixels, grid, sx);
    }
  }

  // -------------------------------------------------------------- commands

  /** `PreStack`: as `Set`, then "PreStack done" once the pattern is
      shown. */
  ghost function HandlePreStack(config: Config, env: Engine.Env, w: World, s: AimState): (o: Outcome)
    ensures SentToAim(config, w, o.world)
    ensures var u := UpdateState(config, env, w, Some(s.pattern), Some(s.fresnel), None);
      o.world.state == u.world.state && o.world.pixels == u.world.pixels &&
      (o.result.Ok? <==> u.result.Ok?) &&
      o.world.outbox == w.outbox + (if u.result.Ok? then [Publication(AimTopic(config), Message(Device, Aim(Response("PreStack done"))), 0)] else [])
  {
    var u := UpdateState(config, env, w, Some(s.pattern), Some(s.fresnel), None);
    if u.result.Err? then u else Outcome(SendPrestackDone(config, u.world), Ok(()))
  }

  /** `UploadImage`: the image is saved below `custom_patterns`, then the
      catalog is sent. A failed save may still have left an empty file. */
  ghost function Upload(config: Config, env: Engine.Env, w: World, name: string, data: string): (o: Outcome)
    ensures SentToAim(config, w, o.world)
    ensures var path := Resolve.CustomPatternPath(env.cwd, config.dirPath.basePatterns, name);
      path.Err? ==> o == Outcome(w, Err(path.fault))
    ensures var path := Resolve.CustomPatternPath(env.cwd, config.dirPath.basePatterns, name);
      path.Ok? ==>
        var written := Engine.SaveImageData(env, w.files, path.value, data);
        o.result == written.result &&
        o.world == w.(files := written.files,
                      outbox := w.outbox + (if written.result.Ok? then [CatalogPublication(config, env, written.files)] else []))
  {
    match Resolve.CustomPatternPath(env.cwd, config.dirPath.basePatterns, name)
    case Err(e) => Outcome(w, Err(e))
    case Ok(path) =>
      var written := Engine.SaveImageData(env, w.files, path, data);
      var w' := w.(files := written.files);
      if written.result.Err? then Outcome(w', Err(written.result.fault))
      else Outcome(SendAvailablePatterns(config, env, w'), Ok(()))
  }

  /** `DeleteImage`: the file below `custom_patterns` is removed, then the
      catalog is sent. */
  ghost function Delete(config: Config, env: Engine.Env, w: World, name: string): (o: Outcome)
    ensures SentToAim(config, w, o.world)
    ensures var path := Resolve.CustomPatternPath(env.cwd, config.dirPath.basePatterns, name);
      path.Err? ==> o == Outcome(w, Err(path.fault))
    ensures var path := Resolve.CustomPatternPath(env.cwd, config.dirPath.basePatterns, name);
      path.Ok? ==>
        var removed := Engine.RemoveFile(w.files, path.value);
        (removed.Err? ==> o == Outcome(w, Err(removed.fault))) &&
        (removed.Ok? ==> o == Outcome(w.(files := removed.value, outbox := w.outbox + [CatalogPublication(config, env, removed.value)]), Ok(())))
  {
    match Resolve.CustomPatternPath(env.cwd, config.dirPath.basePatterns, name)
    case Err(e) => Outcome(w, Err(e))
    case Ok(path) =>
      match Engine.RemoveFile(w.files, path)
      case Err(e) => Outcome(w, Err(e))
      case Ok(files) => Outcome(SendAvailablePatterns(config, env, w.(files := files)), Ok(()))
  }

  /** `SetCorrectionPatternDeltas`: the correction is merged and saved,
      then acknowledged with the request's wavelength. */
  ghost function ApplyCorrection(config: Config, env: Engine.Env, w: World, d: CorrectionPatternDeltas): (o: Outcome)
    ensures SentToAim(config, w, o.world)
    ensures var stored := Engine.AddCorrection(config, env, w.files, w.state.cache, d);
      o.world.files == stored.files && o.world.state == w.state.(cache := stored.cache) &&
      (o.result.Ok? <==> stored.result.Ok?) &&
      o.world.outbox == w.outbox + (if stored.result.Ok? then [Publication(AimTopic(config), Message(Device, Aim(SetCorrectionPatternDeltasResponse(d.wavelength, true))), 0)] else [])
  {
    var stored := Engine.AddCorrection(config, env, w.files, w.state.cache, d);
    var w' := w.(files := stored.files, state := w.state.(cache := stored.cache));
    if stored.result.Err? then Outcome(w', Err(stored.result.fault))
    else Outcome(SendCorrectionAck(config, w', d.wavelength), Ok(()))
  }

  /** `Reboot`: the reboot of the machine is started, which can fail. */
  function StartReboot(env: Engine.Env, w: World): Outcome {
    if env.reboot then Outcome(w.(rebooted := true), Ok(())) else Outcome(w, Fail("reboot failed"))
  }

  /** The effect of an `Aim` command sent with type `Device`. */
  ghost function HandleAim(config: Config, env: Engine.Env, w: World, cmd: AimCommand): (o: Outcome)
    ensures SentToAim(config, w, o.world)
  {
    assert SentToAim(config, w, w) by {
      assert w.outbox[..|w.outbox|] == w.outbox;
    }
    match cmd
    case Set(s) => UpdateState(config, env, w, Some(s.pattern), Some(s.fresnel), None)
    case PreStack(s) => HandlePreStack(config, env, w, s)
    case Get => Outcome(w, Ok(()))
    case GetAllPatterns => Outcome(SendAvailablePatterns(config, env, w), Ok(()))
    case SetFresnel(v) => UpdateState(config, env, w, None, Some(v), None)
    case SetPattern(p) => UpdateState(config, env, w, Some(p), None, None)
    case UploadImage(name, data) => Upload(config, env, w, name, data)
    case DeleteImage(name) => Delete(config, env, w, name)
    case SetCorrectionPatternDeltas(d) => ApplyCorrection(config, env, w, d)
    case Reboot => StartReboot(env, w)
    case Response(_) => Outcome(w, Ok(()))
    case Disconnect => Outcome(w, Ok(()))
    case AvailablePatterns(_) => Outcome(w, Ok(()))
    case SetCorrectionPatternDeltasResponse(_, _) => Outcome(w, Ok(()))
  }

  /** The second half of `process_message`: only an `Aim` command of type
      `Device` is handled; everything else ends in an error. */
  ghost function Finish(config: Config, env: Engine.Env, w: World, m: Message): (o: Outcome)
    ensures SentToAim(config, w, o.world)
    ensures !(m.mType == Device && m.data.Aim?) ==> o == Outcome(w, Fail("Unexpected message"))
  {
    assert SentToAim(config, w, w) by {
      assert w.outbox[..|w.outbox|] == w.outbox;
    }
    if m.mType == Device && m.data.Aim? then HandleAim(config, env, w, m.data.aim)
    else Outcome(w, Fail("Unexpected message"))
  }

  /** A laser update: the wavelength of the strongest qualifying laser is
      set before the message is finished; with no qualifying laser,
      `process_message` returns at once. */
  ghost function LaserSet(config: Config, env: Engine.Env, w: World, m: Message, lasers: seq<LaserState>): (o: Outcome)
    ensures SentToAim(config, w, o.world)
  {
    assert SentToAim(config, w, w) by {
      assert w.outbox[..|w.outbox|] == w.outbox;
    }
    match Selection.StrongestWavelength(lasers)
    case None => Outcome(w, Ok(()))
    case Some(wavelength) =>
      var u := UpdateState(config, env, w, None, None, Some(wavelength));
      if u.result.Err? then u
      else
        var o := Finish(config, env, u.world, m);
        SentToAimTransitive(config, w, u.world, o.world);
        o
  }

  /** `process_message` once the payload has decoded: `InitDone` of type
      `Status` sends the reports and a `Set` of the lasers of type `Device`
      moves to the wavelength of the strongest qualifying laser before the
      command is handled. */
  ghost function Handle(config: Config, env: Engine.Env, w: World, m: Message): (o: Outcome)
    ensures SentToAim(config, w, o.world)
  {
    if m.mType == Status && m.data == Embedded(InitDone) then
      var reported := SendReports(config, env, w);
      var o := Finish(config, env, reported, m);
      SentToAimTransitive(config, w, reported, o.world);
      o
    else if m.mType == Device && m.data.Lasers? && m.data.lasers.Set? then LaserSet(config, env, w, m, m.data.lasers.lasers)
    else Finish(config, env, w, m)
  }

  /** `process_message`: a payload that does not decode changes nothing.
      Whatever the message, only publications to the aim topic at QoS 0
      are added. */
  ghost function ProcessMessage(config: Config, env: Engine.Env, w: World, payload: Wire.Json): (o: Outcome)
    ensures Wire.DecodeMessage(payload).Err? ==> o == Outcome(w, Err(Wire.DecodeMessage(payload).fault))
    ensures SentToAim(config, w, o.world)
  {
    assert SentToAim(config, w, w) by {
      assert w.outbox[..|w.outbox|] == w.outbox;
    }
    match Wire.DecodeMessage(payload)
    case Err(e) => Outcome(w, Err(e))
    case Ok(m) => Handle(config, env, w, m)
  }

  /** The topics `on_connect` subscribes to, below the main topic. */
  const Subtopics: seq<string> := ["embedded/aim", "gui/aim", "calibration/aim", "embedded/lasers"]

  function Subscriptions(config: Config): (subs: seq<Subscription>)
    ensures |subs| == |Subtopics|
    ensures forall i :: 0 <= i < |subs| ==> subs[i] == Subscription(MainTopic(config) + "/" + Subtopics[i], 0)
  {
    seq(|Subtopics|, i requires 0 <= i < |Subtopics| => Subscription(Util.Subtopic(MainTopic(config), Subtopics[i]), 0))
  }

  /** `on_connect`: the four subscriptions at QoS 0, then the reports,
      which go to the aim topic. */
  ghost function OnConnect(config: Config, env: Engine.Env, w: World): (r: World)
    ensures r.subscriptions == w.subscriptions + Subscriptions(config)
    ensures SentToAim(config, w, r)
    ensures r.outbox == w.outbox + [
      Publication(AimTopic(config), Message(Device, Lasers(LaserCommand.Get)), 0),
      CatalogPublication(config, env, w.files)]
    ensures r.state == w.state && r.files == w.files && r.pixels == w.pixels && r.rebooted == w.rebooted
  {
    var c := w.(subscriptions := w.subscriptions + Subscriptions(config));
    assert SentToAim(config, w, c) by {
      assert w.outbox[..|w.outbox|] == w.outbox;
    }
    var r := SendReports(config, env, c);
    SentToAimTransitive(config, w, c, r);
    r
  }

  // ------------------------------------------------------------ properties

  /** A message that is neither an `Aim` command of type `Device` nor a
      laser update ends in the "Unexpected message" error, after whatever
      `InitDone` sent. */
  lemma NonAimEndsInError(config: Config, env: Engine.Env, w: World, m: Message)
    requires !(m.mType == Device && m.data.Aim?)
    requires !(m.mType == Device && m.data.Lasers? && m.data.lasers.Set?)
    ensures Handle(config, env, w, m).result == Fail("Unexpected message")
  {
  }

  /** `InitDone` sends the request for the lasers and the catalog, and then
      reports the message as unexpected. */
  lemma InitDoneReportsThenFails(config: Config, env: Engine.Env, w: World)
    ensures Handle(config, env, w, Message(Status, Embedded(InitDone))) == Outcome(SendReports(config, env, w), Fail("Unexpected message"))
    ensures SendReports(config, env, w).outbox == w.outbox + [
      Publication(AimTopic(config), Message(Device, Lasers(LaserCommand.Get)), 0),
      Publication(AimTopic(config), Message(Device, Aim(AimCommand.AvailablePatterns(CatalogIn(config, env, w.files)))), 0)]
  {
  }

  /** A laser update moves to the wavelength of the strongest qualifying
      laser, the last of the strongest on a tie, and ends in an error even
      when the pattern is recomputed; with no qualifying laser nothing changes and the outcome is
      `Ok`. */
  lemma LaserUpdate(config: Config, env: Engine.Env, w: World, lasers: seq<LaserState>)
    ensures var o := Handle(config, env, w, Message(Device, Lasers(LaserCommand.Set(lasers))));
      match Selection.StrongestWavelength(lasers)
      case None => o == Outcome(w, Ok(()))
      case Some(wavelength) =>
        var u := UpdateState(config, env, w, None, None, Some(wavelength));
        o.world == u.world && o.world.state.wavelength == wavelength &&
        o.result == (if u.result.Err? then u.result else Fail("Unexpected message"))
  {
    match Selection.StrongestWavelength(lasers)
    case None =>
    case Some(wavelength) =>
      UpdateStateFields(config, env, w, None, None, Some(wavelength));
  }

  /** Commands that only read change nothing. */
  lemma PassiveCommands(config: Config, env: Engine.Env, w: World, cmd: AimCommand)
    requires cmd.Get? || cmd.Response? || cmd.Disconnect? || cmd.AvailablePatterns? || cmd.SetCorrectionPatternDeltasResponse?
    ensures HandleAim(config, env, w, cmd) == Outcome(w, Ok(()))
  {
  }

  /** `PreStack` sets the pattern and the Fresnel value and keeps the
      laser wavelength. */
  lemma PreStackFields(config: Config, env: Engine.Env, w: World, s: AimState)
    ensures var o := HandlePreStack(config, env, w, s);
      o.world.state.patternParams == s.pattern && o.world.state.fresnel == s.fresnel &&
      o.world.state.wavelength == w.state.wavelength
  {
    UpdateStateFields(config, env, w, Some(s.pattern), Some(s.fresnel), None);
  }

  /** `Set`, `SetFresnel` and `SetPattern` are `update_state` with the
      fields they carry: each overwrites exactly those fields and keeps the
      others. */
  lemma SetCommandsUpdate(config: Config, env: Engine.Env, w: World, cmd: AimCommand)
    requires cmd.Set? || cmd.SetFresnel? || cmd.SetPattern?
    ensures var o := HandleAim(config, env, w, cmd);
      o.world.files == w.files && o.world.outbox == w.outbox && o.world.state.wavelength == w.state.wavelength
    ensures var s := HandleAim(config, env, w, cmd).world.state;
      (cmd.Set? ==> s.patternParams == cmd.aimState.pattern && s.fresnel == cmd.aimState.fresnel) &&
      (cmd.SetFresnel? ==> s.patternParams == w.state.patternParams && s.fresnel == cmd.value) &&
      (cmd.SetPattern? ==> s.patternParams == cmd.pattern && s.fresnel == w.state.fresnel)
    ensures cmd.Set? ==> HandleAim(config, env, w, cmd) == UpdateState(config, env, w, Some(cmd.aimState.pattern), Some(cmd.aimState.fresnel), None)
    ensures cmd.SetFresnel? ==> HandleAim(config, env, w, cmd) == UpdateState(config, env, w, None, Some(cmd.value), None)
    ensures cmd.SetPattern? ==> HandleAim(config, env, w, cmd) == UpdateState(config, env, w, Some(cmd.pattern), None, None)
  {
    match cmd
    case Set(a) => UpdateStateFields(config, env, w, Some(a.pattern), Some(a.fresnel), None);
    case SetFresnel(v) => UpdateStateFields(config, env, w, None, Some(v), None);
    case SetPattern(p) => UpdateStateFields(config, env, w, Some(p), None, None);
  }

  /** `GetAllPatterns` sends the catalog of the files as they are and
      changes nothing else; `UploadImage` and `DeleteImage` save or remove
      the file and send the catalog of the files as they then are; `Reboot`
      starts the reboot. */
  lemma FileCommands(config: Config, env: Engine.Env, w: World, cmd: AimCommand)
    ensures cmd.GetAllPatterns? ==>
      HandleAim(config, env, w, cmd) == Outcome(w.(outbox := w.outbox + [CatalogPublication(config, env, w.files)]), Ok(()))
    ensures cmd.UploadImage? ==> HandleAim(config, env, w, cmd) == Upload(config, env, w, cmd.name, cmd.imagedata)
    ensures cmd.DeleteImage? ==> HandleAim(config, env, w, cmd) == Delete(config, env, w, cmd.name)
    ensures cmd.Reboot? ==> HandleAim(config, env, w, cmd) == StartReboot(env, w)
  {
  }
}
