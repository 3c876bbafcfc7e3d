/** The configuration record and the messages the controller sends and
    receives (src/schema.rs), with the tags that name them on the wire.
    Floating-point fields are kept as `real`s that the model never computes
    with; `u16`, `u32` and `usize` are the ranges of Rust's unsigned types. */
module Schema {
  import opened Wrappers
  import Strings

  type u16 = x: int | 0 <= x < 0x1_0000
  type u32 = x: int | 0 <= x < 0x1_0000_0000
  type usize = x: int | 0 <= x < 0x1_0000_0000_0000_0000

  // ---------------------------------------------------------------- config

  datatype DirPath = DirPath(basePatterns: string, flatnessCorrPatterns: string)

  datatype Microscope = Microscope(serialNr: string)

  datatype MqttConfig = MqttConfig(brokerIp: string, port: u16)

  /** `MqttConfig::server_uri`: `tcp://<broker_ip>:<port>`, the port in
      decimal. */
  function ServerUri(m: MqttConfig): (uri: string)
    ensures |uri| > 7 + |m.brokerIp|
    ensures uri[..6] == "tcp://"
    ensures uri[6..6 + |m.brokerIp|] == m.brokerIp
    ensures uri[6 + |m.brokerIp|] == ':'
  {
    "tcp://" + m.brokerIp + ":" + Strings.NatToString(m.port)
  }

  /** The port can be read back from the URI: everything after the broker
      address and its `:` is the port's decimal rendering. */
  lemma ServerUriPort(m: MqttConfig)
    ensures var digits := ServerUri(m)[7 + |m.brokerIp|..];
      (forall i :: 0 <= i < |digits| ==> Strings.IsDigit(digits[i])) &&
      Strings.ParseNat(digits) == m.port
  {
    var uri := ServerUri(m);
    assert uri[7 + |m.brokerIp|..] == Strings.NatToString(m.port);
    Strings.ParseNatToString(m.port);
  }

  datatype ScreenConfig = ScreenConfig(size: (u32, u32), fullscreen: bool)

  /** Calibration table: `scaleFactors[i]` belongs to `knownWavelengths[i]`. */
  datatype SLMCalibScaling = SLMCalibScaling(knownWavelengths: seq<u32>, scaleFactors: seq<real>)

  datatype PatternComputationDebug = PatternComputationDebug(saveComputedToImage: bool)

  datatype PatternComputationConfig = PatternComputationConfig(
    slmCalibScaling: SLMCalibScaling,
    addFlatnessCorrection: bool,
    debug: Option<PatternComputationDebug>)

  datatype LogLevel = Debug | Info | Warning | Error | Critical

  /** The logger's filter levels, least to most verbose. */
  datatype LevelFilter = Off | Error | Warn | Info | Debug | Trace

  /** `LogLevel::into_level_filter`: the logger has no critical level, so
      `Critical` filters like `Error`; every other level keeps a filter of
      its own, and the two extreme filters are never chosen. */
  function IntoLevelFilter(l: LogLevel): (f: LevelFilter)
    ensures f == LevelFilter.Error <==> l == LogLevel.Error || l == LogLevel.Critical
    ensures f != LevelFilter.Off && f != LevelFilter.Trace
  {
    match l
    case Debug => LevelFilter.Debug
    case Info => LevelFilter.Info
    case Warning => LevelFilter.Warn
    case Error => LevelFilter.Error
    case Critical => LevelFilter.Error
  }

  /** Two levels filter alike exactly when they are equal or are `Error`
      and `Critical`. */
  lemma LevelFiltersCoincide(a: LogLevel, b: LogLevel)
    ensures IntoLevelFilter(a) == IntoLevelFilter(b) <==>
      a == b || ((a.Error? || a.Critical?) && (b.Error? || b.Critical?))
  {
  }

  datatype Logging = Logging(logLevel: LogLevel)

  datatype DefaultState = DefaultState(fresnel: u32, wavelength: u32, pattern: PatternParams)

  datatype Config = Config(
    microscope: Microscope,
    dirPath: DirPath,
    mqtt: MqttConfig,
    screen: ScreenConfig,
    computePattern: PatternComputationConfig,
    imageFileExtensions: seq<string>,
    logging: Logging,
    defaults: DefaultState)

  /** `Config::main_topic`: the root topic is the microscope's serial number. */
  function MainTopic(c: Config): string {
    c.microscope.serialNr
  }

  // -------------------------------------------------------------- patterns

  datatype SpotPattern = SpotPattern(
    positionXY: (real, real),
    diameter: real,
    gradientXY: (real, real),
    backgroundGradientXY: (real, real))

  datatype CustomPattern = CustomPattern(filename: string)

  /** A file-based pattern: a family name and its property values. The
      source keeps the properties in a hash map, whose iteration order is
      unspecified; here they are a sequence of distinct keys in that order. */
  datatype BasePattern = BasePattern(filename: string, properties: seq<(string, string)>)

  datatype PatternParams =
    | Spot(spot: SpotPattern)
    | Custom(custom: CustomPattern)
    | Base(base: BasePattern)

  // --------------------------------------------------------------- catalog

  /** One pattern family of the catalog: its property names in the order
      they were first seen, and the values seen for each property. */
  datatype APattern = APattern(propertyValues: map<string, seq<string>>, properties: seq<string>)

  datatype AvailablePatterns = AvailablePatterns(patterns: map<string, APattern>, patternNames: seq<string>)

  // -------------------------------------------------------------- messages

  datatype MessageType = Log | Device | Status

  datatype LaserState = LaserState(name: string, state: u32, wavelength: u32, intensity: u32)

  datatype LaserCommand = Get | AvailablePatterns | Set(lasers: seq<LaserState>)

  datatype AimState = AimState(pattern: PatternParams, fresnel: u32)

  datatype CorrectionPatternDeltas = CorrectionPatternDeltas(
    wavelength: u32,
    imagedata: string,
    shapeXY: (usize, usize))

  datatype AimCommand =
    | Get
    | GetAllPatterns
    | Set(aimState: AimState)
    | PreStack(aimState: AimState)
    | SetPattern(pattern: PatternParams)
    | SetFresnel(value: u32)
    | Response(reply: string)
    | UploadImage(name: string, imagedata: string)
    | DeleteImage(name: string)
    | Disconnect
    | SetCorrectionPatternDeltas(deltas: CorrectionPatternDeltas)
    | SetCorrectionPatternDeltasResponse(wavelength: u32, success: bool)
    | AvailablePatterns(patterns: AvailablePatterns)
    | Reboot

  datatype EmbeddedCommand = InitDone | Set

  datatype MessageData =
    | Embedded(embedded: EmbeddedCommand)
    | Lasers(lasers: LaserCommand)
    | Aim(aim: AimCommand)

  datatype Message = Message(mType: MessageType, data: MessageData)

  // ------------------------------------------------------------- wire tags

  /** The `"type"` field of a message. */
  function MessageTypeTag(t: MessageType): string {
    match t
    case Log => "log"
    case Device => "device"
    case Status => "status"
  }

  /** The `"device"` field that selects the payload family. */
  function DeviceTag(d: MessageData): string {
    match d
    case Embedded(_) => "embedded"
    case Lasers(_) => "lasers"
    case Aim(_) => "aim"
  }

  /** The `"command"` field of a laser payload. */
  function LaserCommandTag(c: LaserCommand): string {
    match c
    case Get => "get"
    case AvailablePatterns => "availablePatterns"
    case Set(_) => "set"
  }

  /** The `"command"` field of an embedded payload. */
  function EmbeddedCommandTag(c: EmbeddedCommand): string {
    match c
    case InitDone => "initdone"
    case Set => "set"
  }

  /** The `"command"` field of an aim payload. `PreStack` carries no rename
      and keeps its variant name; the correction response shares its tag
      with the correction request and is never produced by decoding. */
  function AimCommandTag(c: AimCommand): string {
    match c
    case Get => "get"
    case GetAllPatterns => "getAllPatterns"
    case Set(_) => "set"
    case PreStack(_) => "PreStack"
    case SetPattern(_) => "setpattern"
    case SetFresnel(_) => "setfresnel"
    case Response(_) => "response"
    case UploadImage(_, _) => "uploadimage"
    case DeleteImage(_) => "deleteimage"
    case Disconnect => "disconnect"
    case SetCorrectionPatternDeltas(_) => "setCorrectionPatternDeltas"
    case SetCorrectionPatternDeltasResponse(_, _) => "setCorrectionPatternDeltas"
    case AvailablePatterns(_) => "availablePatterns"
    case Reboot => "reboot"
  }

  /** Position of the variant in the declaration of `AimCommand`. */
  function AimVariant(c: AimCommand): nat {
    match c
    case Get => 0
    case GetAllPatterns => 1
    case Set(_) => 2
    case PreStack(_) => 3
    case SetPattern(_) => 4
    case SetFresnel(_) => 5
    case Response(_) => 6
    case UploadImage(_, _) => 7
    case DeleteImage(_) => 8
    case Disconnect => 9
    case SetCorrectionPatternDeltas(_) => 10
    case SetCorrectionPatternDeltasResponse(_, _) => 11
    case AvailablePatterns(_) => 12
    case Reboot => 13
  }

  /** Among the variants that can be decoded, the tag determines the variant. */
  lemma AimTagsDistinct(a: AimCommand, b: AimCommand)
    requires !a.SetCorrectionPatternDeltasResponse? && !b.SetCorrectionPatternDeltasResponse?
    ensures AimCommandTag(a) == AimCommandTag(b) <==> AimVariant(a) == AimVariant(b)
  {
  }
}
