/** How the messages of src/schema.rs are read from JSON objects, following
    the `Deserialize` derives and attributes there: internally tagged enums
    select a variant by a string field (`"command"`, `"device"`), the
    untagged `PatternParams` tries its variants in declaration order, and
    `BasePattern` is read by a hand-written visitor from the first map entry.
    Two liberties are taken: a repeated field is read from its first
    occurrence rather than refused, and structs written as JSON arrays are
    refused rather than read positionally. A JSON value is a tree; turning
    bytes into that tree is not modelled. */
module Wire {
  import opened Wrappers
  import opened Schema

  /** A parsed JSON value. Numbers written without fraction or exponent are
      integers. An object keeps its members in document order. */
  datatype Json =
    | JNull
    | JBool(b: bool)
    | JInt(i: int)
    | JFloat(r: real)
    | JString(s: string)
    | JArray(items: seq<Json>)
    | JObject(members: seq<(string, Json)>)

  type Members = seq<(string, Json)>

  /** The value of the first member called `key`. */
  function Get(o: Members, key: string): (r: Option<Json>)
    ensures r.Some? <==> key in MemberKeys(o)
  {
    if |o| == 0 then None
    else if o[0].0 == key then Some(o[0].1)
    else Get(o[1..], key)
  }

  function Require(o: Members, key: string): (r: Result<Json>)
    ensures r.Ok? <==> Get(o, key).Some?
    ensures r.Ok? ==> Get(o, key) == Some(r.value)
  {
    match Get(o, key)
    case None => Fail("missing field `" + key + "`")
    case Some(v) => Ok(v)
  }

  function AsObject(j: Json): Result<Members> {
    if j.JObject? then Ok(j.members) else Fail("invalid type: expected a map")
  }

  function DecodeString(j: Json): Result<string> {
    if j.JString? then Ok(j.s) else Fail("invalid type: expected a string")
  }

  function DecodeBool(j: Json): Result<bool> {
    if j.JBool? then Ok(j.b) else Fail("invalid type: expected a boolean")
  }

  /** An unsigned integer below `bound`; a float is refused. */
  function DecodeUnsigned(j: Json, bound: nat): (r: Result<nat>)
    ensures r.Ok? <==> j.JInt? && 0 <= j.i < bound
    ensures r.Ok? ==> r.value == j.i
  {
    if j.JInt? && 0 <= j.i < bound then Ok(j.i)
    else Fail("invalid value: expected an unsigned integer in range")
  }

  function DecodeU32(j: Json): Result<u32> {
    var n :- DecodeUnsigned(j, 0x1_0000_0000);
    Ok(n)
  }

  function DecodeUsize(j: Json): Result<usize> {
    var n :- DecodeUnsigned(j, 0x1_0000_0000_0000_0000);
    Ok(n)
  }

  /** An `f32`; integers are accepted too. Rounding to single precision is
      not modelled. */
  function DecodeF32(j: Json): Result<real> {
    match j
    case JInt(i) => Ok(i as real)
    case JFloat(r) => Ok(r)
    case _ => Fail("invalid type: expected f32")
  }

  function DecodeF32Pair(j: Json): Result<(real, real)> {
    if j.JArray? && |j.items| == 2 then
      var a :- DecodeF32(j.items[0]);
      var b :- DecodeF32(j.items[1]);
      Ok((a, b))
    else Fail("invalid type: expected a tuple of size 2")
  }

  /** A JSON array of strings: item i is the i-th string; any other item
      fails the whole array. */
  function DecodeStrings(items: seq<Json>): (r: Result<seq<string>>)
    ensures r.Ok? <==> forall i :: 0 <= i < |items| ==> items[i].JString?
    ensures r.Ok? ==> |r.value| == |items| && forall i :: 0 <= i < |items| ==> items[i] == JString(r.value[i])
  {
    if |items| == 0 then Ok([])
    else
      var head :- DecodeString(items[0]);
      var tail :- DecodeStrings(items[1..]);
      Ok([head] + tail)
  }

  function DecodeStringArray(j: Json): Result<seq<string>> {
    if j.JArray? then DecodeStrings(j.items) else Fail("invalid type: expected a sequence")
  }

  // ------------------------------------------------------------- patterns

  function DecodeSpotPattern(j: Json): Result<SpotPattern> {
    var o :- AsObject(j);
    var position :- Require(o, "position_xy");
    var position :- DecodeF32Pair(position);
    var diameter :- Require(o, "diameter");
    var diameter :- DecodeF32(diameter);
    var gradient :- Require(o, "gradient_xy");
    var gradient :- DecodeF32Pair(gradient);
    var background :- Require(o, "background_gradient_xy");
    var background :- DecodeF32Pair(background);
    Ok(SpotPattern(position, diameter, gradient, background))
  }

  function DecodeCustomPattern(j: Json): Result<CustomPattern> {
    var o :- AsObject(j);
    var filename :- Require(o, "filename");
    var filename :- DecodeString(filename);
    Ok(CustomPattern(filename))
  }

  /** The names of a property list. */
  function Keys(props: seq<(string, string)>): set<string> {
    if |props| == 0 then {} else {props[0].0} + Keys(props[1..])
  }

  /** The names of an object's members. */
  function MemberKeys(o: Members): set<string> {
    if |o| == 0 then {} else {o[0].0} + MemberKeys(o[1..])
  }

  predicate DistinctKeys(props: seq<(string, string)>) {
    |props| == 0 || (props[0].0 !in Keys(props[1..]) && DistinctKeys(props[1..]))
  }

  /** `HashMap::insert`: a new key is added at the end, an existing key gets
      the new value in its place. */
  /** The value of the first property called `key`; in a property list
      with distinct keys, its only one. */
  function Lookup(props: seq<(string, string)>, key: string): (r: Option<string>)
    ensures r.Some? <==> key in Keys(props)
  {
    if |props| == 0 then None
    else if props[0].0 == key then Some(props[0].1)
    else Lookup(props[1..], key)
  }

  function Insert(props: seq<(string, string)>, key: string, value: string): (r: seq<(string, string)>)
    ensures Keys(r) == Keys(props) + {key}
    ensures DistinctKeys(props) ==> DistinctKeys(r)
    ensures Lookup(r, key) == Some(value)
    ensures forall k :: k != key ==> Lookup(r, k) == Lookup(props, k)
    ensures key in Keys(props) ==> |r| == |props| && forall i :: 0 <= i < |r| ==> r[i].0 == props[i].0
    ensures key !in Keys(props) ==> r == props + [(key, value)]
  {
    if |props| == 0 then [(key, value)]
    else if props[0].0 == key then [(key, value)] + props[1..]
    else
      var rest := Insert(props[1..], key, value);
      assert ([props[0]] + rest)[1..] == rest;
      [props[0]] + rest
  }

  /** The string held by the last member called `key`, if that member holds
      a string. */
  function LastString(o: Members, key: string): (r: Option<string>)
    ensures key !in MemberKeys(o) ==> r.None?
  {
    if |o| == 0 then None
    else if key in MemberKeys(o[1..]) then LastString(o[1..], key)
    else if o[0].0 == key && o[0].1.JString? then Some(o[0].1.s)
    else None
  }

  /** The members of a `HashMap<String, String>`, read in order into `acc`:
      every value must be a string; a repeated key keeps its last value. */
  function DecodeStringMapFrom(o: Members, acc: seq<(string, string)>): (r: Result<seq<(string, string)>>)
    ensures r.Ok? && DistinctKeys(acc) ==> DistinctKeys(r.value)
    ensures r.Ok? ==> Keys(r.value) == Keys(acc) + MemberKeys(o)
    ensures r.Ok? <==> AllStrings(o)
    ensures r.Ok? ==> forall k :: Lookup(r.value, k) == if k in MemberKeys(o) then LastString(o, k) else Lookup(acc, k)
  {
    if |o| == 0 then Ok(acc)
    else
      var value :- DecodeString(o[0].1);
      DecodeStringMapFrom(o[1..], Insert(acc, o[0].0, value))
  }

  /** Every member's value is a string. */
  predicate AllStrings(o: Members) {
    |o| == 0 || (o[0].1.JString? && AllStrings(o[1..]))
  }

  function DecodeStringMap(o: Members): (r: Result<seq<(string, string)>>)
    ensures r.Ok? ==> DistinctKeys(r.value) && Keys(r.value) == MemberKeys(o)
    ensures r.Ok? <==> AllStrings(o)
    ensures r.Ok? ==> forall k :: Lookup(r.value, k) == LastString(o, k)
  {
    DecodeStringMapFrom(o, [])
  }

  /** `BasePatternVistior::visit_map`: the first entry's key is the family
      name and its value the property map; an empty map is refused. */
  function DecodeBasePattern(o: Members): (r: Result<BasePattern>)
    ensures |o| == 0 ==> r == Fail("empty base pattern")
    ensures r.Ok? <==> |o| > 0 && o[0].1.JObject? && AllStrings(o[0].1.members)
    ensures r.Ok? ==> r.value.filename == o[0].0 && DistinctKeys(r.value.properties)
    ensures r.Ok? ==> forall k :: Lookup(r.value.properties, k) == LastString(o[0].1.members, k)
  {
    if |o| == 0 then Fail("empty base pattern")
    else
      var props :- AsObject(o[0].1);
      var props :- DecodeStringMap(props);
      Ok(BasePattern(o[0].0, props))
  }

  function DecodeSpotVariant(j: Json): Result<PatternParams> {
    var o :- AsObject(j);
    var spot :- Require(o, "spot");
    var spot :- DecodeSpotPattern(spot);
    Ok(Spot(spot))
  }

  function DecodeCustomVariant(j: Json): Result<PatternParams> {
    var o :- AsObject(j);
    var custom :- Require(o, "custom");
    var custom :- DecodeCustomPattern(custom);
    Ok(Custom(custom))
  }

  function DecodeBaseVariant(j: Json): Result<PatternParams> {
    var o :- AsObject(j);
    var base :- DecodeBasePattern(o);
    Ok(Base(base))
  }

  /** The untagged `PatternParams`: the first variant that reads wins. */
  function DecodePatternParams(j: Json): (r: Result<PatternParams>)
    ensures r.Ok? <==> DecodeSpotVariant(j).Ok? || DecodeCustomVariant(j).Ok? || DecodeBaseVariant(j).Ok?
    ensures r.Ok? && r.value.Custom? ==> DecodeSpotVariant(j).Err?
    ensures r.Ok? && r.value.Base? ==> DecodeSpotVariant(j).Err? && DecodeCustomVariant(j).Err?
  {
    var spot := DecodeSpotVariant(j);
    if spot.Ok? then spot
    else
      var custom := DecodeCustomVariant(j);
      if custom.Ok? then custom
      else
        var base := DecodeBaseVariant(j);
        if base.Ok? then base
        else Fail("data did not match any variant of untagged enum PatternParams")
  }

  /** The untagged serialisation of a pattern (`derive(Serialize)`): the
      variant's one field, a base pattern flattened to `{family: props}`. */
  function EncodePatternParams(p: PatternParams): Json {
    match p
    case Spot(s) => JObject([("spot", EncodeSpotPattern(s))])
    case Custom(c) => JObject([("custom", JObject([("filename", JString(c.filename))]))])
    case Base(b) => JObject([(b.filename, JObject(EncodeProperties(b.properties)))])
  }

  function EncodeF32Pair(p: (real, real)): Json {
    JArray([JFloat(p.0), JFloat(p.1)])
  }

  function EncodeSpotPattern(s: SpotPattern): Json {
    JObject([
      ("position_xy", EncodeF32Pair(s.positionXY)),
      ("diameter", JFloat(s.diameter)),
      ("gradient_xy", EncodeF32Pair(s.gradientXY)),
      ("background_gradient_xy", EncodeF32Pair(s.backgroundGradientXY))])
  }

  function EncodeProperties(props: seq<(string, string)>): (o: Members)
    ensures |o| == |props|
  {
    if |props| == 0 then [] else [(props[0].0, JString(props[0].1))] + EncodeProperties(props[1..])
  }

  /** A base pattern whose family is `custom` and which has a `filename`
      property reads back as a custom pattern: the untagged decoder tries
      `Custom` before `Base`. */
  predicate ReadsAsCustom(p: PatternParams) {
    p.Base? && p.base.filename == "custom" && "filename" in Keys(p.base.properties)
  }

  /** Reading the members of an encoded property list with fresh names
      appends the properties unchanged. */
  lemma {:induction false} DecodeEncodedProperties(props: seq<(string, string)>, acc: seq<(string, string)>)
    requires DistinctKeys(props)
    requires Keys(acc) !! Keys(props)
    ensures DecodeStringMapFrom(EncodeProperties(props), acc) == Ok(acc + props)
    decreases |props|
  {
    if |props| > 0 {
      var e := EncodeProperties(props);
      var (key, value) := props[0];
      assert e[0] == (key, JString(value));
      assert e[1..] == EncodeProperties(props[1..]);
      assert Keys(props) == {key} + Keys(props[1..]);
      InsertFresh(acc, key, value);
      var acc' := acc + [(key, value)];
      assert DecodeStringMapFrom(e, acc) == DecodeStringMapFrom(e[1..], acc');
      KeysAppend(acc, [(key, value)]);
      assert Keys([(key, value)]) == {key};
      DecodeEncodedProperties(props[1..], acc');
      ShiftAppend(acc, props);
    } else {
      assert acc + props == acc;
    }
  }

  lemma ShiftAppend<T>(a: seq<T>, b: seq<T>)
    requires |b| > 0
    ensures (a + [b[0]]) + b[1..] == a + b
  {
  }

  lemma {:induction false} KeysAppend(a: seq<(string, string)>, b: seq<(string, string)>)
    ensures Keys(a + b) == Keys(a) + Keys(b)
    decreases |a|
  {
    if |a| > 0 {
      assert (a + b)[0] == a[0];
      assert (a + b)[1..] == a[1..] + b;
      KeysAppend(a[1..], b);
    } else {
      assert a + b == b;
    }
  }

  lemma {:induction false} InsertFresh(props: seq<(string, string)>, key: string, value: string)
    requires key !in Keys(props)
    ensures Insert(props, key, value) == props + [(key, value)]
    decreases |props|
  {
    if |props| > 0 {
      InsertFresh(props[1..], key, value);
    }
  }

  lemma {:induction false} NoFilenameField(props: seq<(string, string)>)
    requires "filename" !in Keys(props)
    ensures Get(EncodeProperties(props), "filename").None?
    decreases |props|
  {
    if |props| > 0 {
      NoFilenameField(props[1..]);
      assert EncodeProperties(props)[1..] == EncodeProperties(props[1..]);
    }
  }

  /** Encoding then decoding a pattern gives it back, except for a base
      pattern that reads as a custom one. Property names must be distinct,
      as they are in the map the source holds. */
  lemma DecodeEncodePatternParams(p: PatternParams)
    requires p.Base? ==> DistinctKeys(p.base.properties)
    requires !ReadsAsCustom(p)
    ensures DecodePatternParams(EncodePatternParams(p)) == Ok(p)
  {
    var j := EncodePatternParams(p);
    match p
    case Spot(s) =>
      SpotRoundTrip(s);
    case Custom(c) =>
    case Base(b) =>
      BaseRoundTrip(b);
  }

  /** The base-pattern case of `DecodeEncodePatternParams`: neither the
      spot nor the custom reading applies, and the base reading gives the
      pattern back. */
  lemma BaseRoundTrip(b: BasePattern)
    requires DistinctKeys(b.properties) && !ReadsAsCustom(Base(b))
    ensures DecodePatternParams(EncodePatternParams(Base(b))) == Ok(Base(b))
  {
    BaseVariantRoundTrip(b);
    OtherVariantsRefuseBase(b);
  }

  lemma BaseVariantRoundTrip(b: BasePattern)
    requires DistinctKeys(b.properties)
    ensures DecodeBaseVariant(EncodePatternParams(Base(b))) == Ok(Base(b))
  {
    DecodeEncodedProperties(b.properties, []);
    assert [] + b.properties == b.properties;
  }

  /** An encoded base pattern that does not read as a custom one is refused
      by the spot and the custom readings. */
  lemma OtherVariantsRefuseBase(b: BasePattern)
    requires !ReadsAsCustom(Base(b))
    ensures DecodeSpotVariant(EncodePatternParams(Base(b))).Err?
    ensures DecodeCustomVariant(EncodePatternParams(Base(b))).Err?
  {
    EncodedValuesAreStrings(b.properties, "position_xy");
    if b.filename == "custom" {
      NoFilenameField(b.properties);
    }
  }

  /** Every member of an encoded property list is a string. */
  lemma {:induction false} EncodedValuesAreStrings(props: seq<(string, string)>, key: string)
    ensures Get(EncodeProperties(props), key).Some? ==> Get(EncodeProperties(props), key).value.JString?
    decreases |props|
  {
    if |props| > 0 {
      EncodedValuesAreStrings(props[1..], key);
      assert EncodeProperties(props)[1..] == EncodeProperties(props[1..]);
    }
  }

  lemma SpotRoundTrip(s: SpotPattern)
    ensures DecodeSpotPattern(EncodeSpotPattern(s)) == Ok(s)
  {
    var o := EncodeSpotPattern(s).members;
    assert "gradient_xy"[0] != "position_xy"[0];
    assert "background_gradient_xy"[0] != "gradient_xy"[0];
    assert "background_gradient_xy"[0] != "position_xy"[0];
    assert Get(o[3..], "background_gradient_xy") == Some(EncodeF32Pair(s.backgroundGradientXY));
    assert Get(o[2..], "background_gradient_xy") == Get(o[3..], "background_gradient_xy") by {
      assert o[2..][1..] == o[3..];
    }
    assert Get(o[2..], "gradient_xy") == Some(EncodeF32Pair(s.gradientXY));
    assert Get(o[1..], "gradient_xy") == Get(o[2..], "gradient_xy") by {
      assert o[1..][1..] == o[2..];
    }
    assert Get(o[1..], "background_gradient_xy") == Get(o[2..], "background_gradient_xy") by {
      assert o[1..][1..] == o[2..];
    }
    assert Get(o, "position_xy") == Some(EncodeF32Pair(s.positionXY));
    assert Get(o, "diameter") == Some(JFloat(s.diameter));
    assert Get(o, "gradient_xy") == Some(EncodeF32Pair(s.gradientXY));
    assert Get(o, "background_gradient_xy") == Some(EncodeF32Pair(s.backgroundGradientXY));
  }

  /** The family `custom` with a `filename` property — the shape of the
      catalog's entry for uploaded images — reads as a custom pattern. */
  lemma CustomFamilyReadsAsCustom(file: string)
    ensures DecodePatternParams(EncodePatternParams(Base(BasePattern("custom", [("filename", file)]))))
      == Ok(Custom(CustomPattern(file)))
  {
  }

  // ------------------------------------------------------------- messages

  function DecodeAimState(o: Members): Result<AimState> {
    var pattern :- Require(o, "pattern");
    var pattern :- DecodePatternParams(pattern);
    var fresnel :- Require(o, "fresnel");
    var fresnel :- DecodeU32(fresnel);
    Ok(AimState(pattern, fresnel))
  }

  function DecodeShape(j: Json): Result<(usize, usize)> {
    if j.JArray? && |j.items| == 2 then
      var a :- DecodeUsize(j.items[0]);
      var b :- DecodeUsize(j.items[1]);
      Ok((a, b))
    else Fail("invalid length: expected an array of length 2")
  }

  function DecodeCorrectionPatternDeltas(o: Members): Result<CorrectionPatternDeltas> {
    var wavelength :- Require(o, "wavelength");
    var wavelength :- DecodeU32(wavelength);
    var imagedata :- Require(o, "imagedata");
    var imagedata :- DecodeString(imagedata);
    var shape :- Require(o, "shape_xy");
    var shape :- DecodeShape(shape);
    Ok(CorrectionPatternDeltas(wavelength, imagedata, shape))
  }

  function DecodeLaserState(j: Json): Result<LaserState> {
    var o :- AsObject(j);
    var name :- Require(o, "name");
    var name :- DecodeString(name);
    var state :- Require(o, "state");
    var state :- DecodeU32(state);
    var wavelength :- Require(o, "wavelength");
    var wavelength :- DecodeU32(wavelength);
    var intensity :- Require(o, "intensity");
    var intensity :- DecodeU32(intensity);
    Ok(LaserState(name, state, wavelength, intensity))
  }

  /** A JSON array of laser states: state i is item i read; any item that
      does not read fails the whole array. */
  function DecodeLaserStates(items: seq<Json>): (r: Result<seq<LaserState>>)
    ensures r.Ok? <==> forall i :: 0 <= i < |items| ==> DecodeLaserState(items[i]).Ok?
    ensures r.Ok? ==> |r.value| == |items| && forall i :: 0 <= i < |items| ==> DecodeLaserState(items[i]) == Ok(r.value[i])
  {
    if |items| == 0 then Ok([])
    else
      var head :- DecodeLaserState(items[0]);
      var tail :- DecodeLaserStates(items[1..]);
      Ok([head] + tail)
  }

  /** An `APattern`: `properties` by name, every other member a property's
      `{"values": [...]}`. */
  function DecodeAPattern(j: Json): Result<APattern> {
    var o :- AsObject(j);
    var properties :- Require(o, "properties");
    var properties :- DecodeStringArray(properties);
    var values :- DecodePropertyValues(o);
    Ok(APattern(values, properties))
  }

  function DecodePropertyValues(o: Members): Result<map<string, seq<string>>> {
    if |o| == 0 then Ok(map[])
    else
      var init :- DecodePropertyValues(o[..|o| - 1]);
      var (key, value) := o[|o| - 1];
      if key == "properties" then Ok(init)
      else
        var prop :- AsObject(value);
        var values :- Require(prop, "values");
        var values :- DecodeStringArray(values);
        Ok(init[key := values])
  }

  function DecodePatternFamilies(o: Members): Result<map<string, APattern>> {
    if |o| == 0 then Ok(map[])
    else
      var init :- DecodePatternFamilies(o[..|o| - 1]);
      var (key, value) := o[|o| - 1];
      if key == "patternNames" then Ok(init)
      else
        var family :- DecodeAPattern(value);
        Ok(init[key := family])
  }

  /** `AvailablePatterns`: `patternNames` by name, every other member a
      pattern family. */
  function DecodeAvailablePatterns(j: Json): Result<AvailablePatterns> {
    var o :- AsObject(j);
    var names :- Require(o, "patternNames");
    var names :- DecodeStringArray(names);
    var families :- DecodePatternFamilies(o);
    Ok(AvailablePatterns.AvailablePatterns(families, names))
  }

  /** The `"command"` member, which selects the variant. */
  function CommandTag(o: Members): (r: Result<string>)
    ensures r.Ok? ==> Get(o, "command") == Some(JString(r.value))
  {
    var tag :- Require(o, "command");
    DecodeString(tag)
  }

  function DecodeLaserCommand(o: Members): (r: Result<LaserCommand>)
    ensures r.Ok? ==> Get(o, "command") == Some(JString(LaserCommandTag(r.value)))
  {
    var tag :- CommandTag(o);
    if tag == "get" then Ok(LaserCommand.Get)
    else if tag == "availablePatterns" then Ok(LaserCommand.AvailablePatterns)
    else if tag == "set" then
      var lasers :- Require(o, "lasers");
      if lasers.JArray? then
        var lasers :- DecodeLaserStates(lasers.items);
        Ok(LaserCommand.Set(lasers))
      else Fail("invalid type: expected a sequence")
    else Fail("unknown variant `" + tag + "`")
  }

  function DecodeEmbeddedCommand(o: Members): (r: Result<EmbeddedCommand>)
    ensures r.Ok? ==> Get(o, "command") == Some(JString(EmbeddedCommandTag(r.value)))
  {
    var tag :- CommandTag(o);
    if tag == "initdone" then Ok(InitDone)
    else if tag == "set" then Ok(EmbeddedCommand.Set)
    else Fail("unknown variant `" + tag + "`")
  }

  /** An aim command. The correction response is skipped when reading, so
      its tag reads as the correction request. */
  function DecodeAimCommand(o: Members): (r: Result<AimCommand>)
    ensures r.Ok? ==> Get(o, "command") == Some(JString(AimCommandTag(r.value)))
    ensures r.Ok? ==> !r.value.SetCorrectionPatternDeltasResponse?
  {
    var tag :- CommandTag(o);
    DecodeAimVariant(tag, o)
  }

  /** The aim command called `tag`, read from the other members. */
  function DecodeAimVariant(tag: string, o: Members): (r: Result<AimCommand>)
    ensures r.Ok? ==> AimCommandTag(r.value) == tag && !r.value.SetCorrectionPatternDeltasResponse?
  {
    if tag == "get" then Ok(AimCommand.Get)
    else if tag == "getAllPatterns" then Ok(GetAllPatterns)
    else if tag == "disconnect" then Ok(Disconnect)
    else if tag == "reboot" then Ok(Reboot)
    else DecodeAimStateVariant(tag, o)
  }

  /** The aim commands that carry a pattern or a Fresnel value. */
  function DecodeAimStateVariant(tag: string, o: Members): (r: Result<AimCommand>)
    ensures r.Ok? ==> AimCommandTag(r.value) == tag && !r.value.SetCorrectionPatternDeltasResponse?
  {
    if tag == "set" then
      var state :- DecodeAimState(o);
      Ok(AimCommand.Set(state))
    else if tag == "PreStack" then
      var state :- DecodeAimState(o);
      Ok(PreStack(state))
    else if tag == "setpattern" then
      var pattern :- Require(o, "pattern");
      var pattern :- DecodePatternParams(pattern);
      Ok(SetPattern(pattern))
    else if tag == "setfresnel" then
      var value :- Require(o, "value");
      var value :- DecodeU32(value);
      Ok(SetFresnel(value))
    else DecodeAimFileVariant(tag, o)
  }

  /** The aim commands about files and replies. */
  function DecodeAimFileVariant(tag: string, o: Members): (r: Result<AimCommand>)
    ensures r.Ok? ==> AimCommandTag(r.value) == tag && !r.value.SetCorrectionPatternDeltasResponse?
  {
    if tag == "response" then
      var reply :- Require(o, "reply");
      var reply :- DecodeString(reply);
      Ok(Response(reply))
    else if tag == "uploadimage" then
      var name :- Require(o, "name");
      var name :- DecodeString(name);
      var data :- Require(o, "imagedata");
      var data :- DecodeString(data);
      Ok(UploadImage(name, data))
    else if tag == "deleteimage" then
      var name :- Require(o, "name");
      var name :- DecodeString(name);
      Ok(DeleteImage(name))
    else DecodeAimCatalogVariant(tag, o)
  }

  /** The aim commands about the correction pattern and the catalog. */
  function DecodeAimCatalogVariant(tag: string, o: Members): (r: Result<AimCommand>)
    ensures r.Ok? ==> AimCommandTag(r.value) == tag && !r.value.SetCorrectionPatternDeltasResponse?
  {
    if tag == "setCorrectionPatternDeltas" then
      var deltas :- DecodeCorrectionPatternDeltas(o);
      Ok(SetCorrectionPatternDeltas(deltas))
    else if tag == "availablePatterns" then DecodeCatalogCommand(o)
    else Fail("unknown variant `" + tag + "`")
  }

  /** `availablePatterns`: the catalog in the member `"patterns"`. */
  function DecodeCatalogCommand(o: Members): (r: Result<AimCommand>)
    ensures r.Ok? ==> r.value.AvailablePatterns?
  {
    var patterns :- Require(o, "patterns");
    var patterns :- DecodeAvailablePatterns(patterns);
    Ok(AimCommand.AvailablePatterns(patterns))
  }

  /** The payload, selected by its `"device"` member; the command is read
      from the same object. */
  function DecodeMessageData(j: Json): (r: Result<MessageData>)
    ensures r.Ok? ==> j.JObject? && Get(j.members, "device") == Some(JString(DeviceTag(r.value)))
  {
    var o :- AsObject(j);
    var device :- Require(o, "device");
    var device :- DecodeString(device);
    if device == "embedded" then
      var c :- DecodeEmbeddedCommand(o);
      Ok(Embedded(c))
    else if device == "lasers" then
      var c :- DecodeLaserCommand(o);
      Ok(Lasers(c))
    else if device == "aim" then
      var c :- DecodeAimCommand(o);
      Ok(Aim(c))
    else Fail("unknown variant `" + device + "`")
  }

  function DecodeMessageType(j: Json): (r: Result<MessageType>)
    ensures r.Ok? ==> j == JString(MessageTypeTag(r.value))
  {
    var t :- DecodeString(j);
    if t == "log" then Ok(Log)
    else if t == "device" then Ok(Device)
    else if t == "status" then Ok(Status)
    else Fail("unknown variant `" + t + "`")
  }

  /** A whole message: `{"type": …, "data": {"device": …, "command": …, …}}`. */
  function DecodeMessage(j: Json): (r: Result<Message>)
    ensures r.Ok? ==> j.JObject? && Get(j.members, "type") == Some(JString(MessageTypeTag(r.value.mType)))
    ensures r.Ok? ==> Get(j.members, "data").Some? && DecodeMessageData(Get(j.members, "data").value) == Ok(r.value.data)
  {
    var o :- AsObject(j);
    var t :- Require(o, "type");
    var t :- DecodeMessageType(t);
    var data :- Require(o, "data");
    var data :- DecodeMessageData(data);
    Ok(Message(t, data))
  }

  /** What the envelope promises about a message that reads: the `"type"`,
      `"device"` and `"command"` members name its variants, and the reply
      to a correction request is never among them. */
  lemma EnvelopeTags(j: Json)
    requires DecodeMessage(j).Ok?
    ensures var m := DecodeMessage(j).value;
      var data := Get(j.members, "data").value;
      data.JObject? &&
      Get(j.members, "type") == Some(JString(MessageTypeTag(m.mType))) &&
      Get(data.members, "device") == Some(JString(DeviceTag(m.data))) &&
      match m.data
      case Embedded(c) => Get(data.members, "command") == Some(JString(EmbeddedCommandTag(c)))
      case Lasers(c) => Get(data.members, "command") == Some(JString(LaserCommandTag(c)))
      case Aim(c) => Get(data.members, "command") == Some(JString(AimCommandTag(c))) && !c.SetCorrectionPatternDeltasResponse?
  {
  }
}
