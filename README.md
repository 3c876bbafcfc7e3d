# SLM controller — a verified model of its core

The SLM controller drives a spatial light modulator (SLM) screen that
shapes a microscope's laser beam. It listens on an MQTT broker below a
topic named after the microscope's serial number. It computes an 8-bit
phase pattern for the current pattern, Fresnel value and laser
wavelength, and writes that pattern into the ARGB pixel buffer of the
screen. It also keeps the pattern files on disk: it builds a catalog of
base patterns, stores uploaded images and merges correction deltas into
the flatness-correction file of a wavelength.

This project models that core in Dafny, module by module:

- `Schema` holds the configuration and the messages (src/schema.rs).
- `Wire` holds the way messages are read from JSON values. It covers the
  untagged pattern parameters and the one-entry base-pattern map.
- `Util` holds topic names (src/util.rs).
- `Catalog` and `CatalogProperties` build the pattern catalog:
  - `Catalog.BuildCatalog` is the imperative loop of `available_patterns`.
  - It is proved equal to a fold.
  - The fold is proved to describe, family by family, the records read
    off the file names.
- `Resolve` holds the probe loops that find flatness and base-pattern
  files.
- `Rasters` decodes base64 deltas into arrays and resamples grey images.
- `Selection` holds the calibration index and the choice of the strongest
  laser.
- `ImageData` takes apart the data URL of an upload.
- `Engine` holds the array cache, the pattern computation, the pixel
  writer, the correction merge and the file operations. Each is a
  function of the state before it.
- `Dispatch` holds `update_state`, `on_connect` and `process_message` as
  functions of a `World`: the device state, the files, the pixels, the
  publications, the subscriptions, and whether a reboot has started.
- `Controller` holds the class `Context`. Its fields are the ones the
  source updates in place, and its pixel buffer is an `array`. Each
  method is the step-by-step code of src/message_loop.rs, proved to reach
  exactly the `World` that `Dispatch`/`Engine` give it.
- `Startup` covers src/main.rs: the initial state, the last will, the
  zeroed buffer and the first `update_state`.

`Strings` and `Paths` model the standard-library operations the source
uses on strings and `PathBuf`s:
- `split`, `replace`, `to_string` and sorting of strings;
- `join`, `file_name`, `file_stem`, `set_extension` and `set_file_name`
  of paths.

Floating-point arrays are symbolic. A `Phases` value records where its
elements come from:
- a grey image (`Levels`);
- the bit patterns of decoded `f32`s (`Deltas`);
- the spot field;
- a sum.

The grey level that quantisation gives each pixel is an environment
function `Env.level`. The other collaborators are functions of `Env` as
well:
- the image codec;
- the base64 decoder (RFC 4648, section 4);
- the directory walk;
- the current directory;
- file creation;
- the operating system's reboot.

Behaviours of the code worth noting:

- A file name with a property but no value, like `gauss_size_10_shape`,
  is not skipped by the catalog. The family is created and the complete
  pairs before the last property are recorded.
- On a tie in intensity, `max_by_key` keeps the *last* strongest laser,
  not the first.
- The flatness file is probed under the plain name for every extension
  first. The `_factory` name is probed only after that.
- After a laser update, `process_message` goes on to the `Aim` match. So
  a laser update ends in the "Unexpected message" error even when the
  pattern was recomputed, and `InitDone` ends in that error after
  sending its reports.
- A base pattern is read from the first entry of the flattened map. A
  map with more entries is accepted: the first entry is used and the rest
  are ignored.

## Model

| member | source | states |
|---|---|---|
| Util.Subtopic | src/util.rs:6-8 | the subtopic is the topic, one `/` and the suffix, verbatim |
| Util.SubtopicLevels | src/util.rs:6-8 | for a topic without `/`, splitting a subtopic on `/` gives the topic followed by the suffix's own levels |
| Schema.ServerUri | src/schema.rs:31-33 | the URI starts with `tcp://`, then the broker address, then `:` |
| Schema.ServerUriPort | src/schema.rs:31-33 | everything after the `:` is decimal digits that read back as the port |
| Schema.IntoLevelFilter | src/schema.rs:74-83 | `Critical` and `Error` both become the error filter, and no other level does; `Off` and `Trace` are never chosen |
| Schema.LevelFiltersCoincide | src/schema.rs:74-83 | two levels give the same filter exactly when they are equal or are `Error` and `Critical` |
| Schema.AimTagsDistinct | src/schema.rs:175-222 | among the decodable aim commands, equal `command` tags mean the same variant, and conversely |
| Strings.FindFrom | src/message_loop.rs:61 | the leftmost occurrence at or after the start, and none before it; `None` exactly when there is none |
| Strings.Split | src/message_loop.rs:61 | a split always has at least one piece |
| Strings.JoinSplit | src/message_loop.rs:129 | joining the pieces of a split with the separator gives the string back |
| Strings.SplitPiecesAreFree | src/message_loop.rs:129 | no piece of a split holds the separator |
| Strings.SplitAfterFreePrefix | src/message_loop.rs:61-67 | a separator-free text followed by an unbordered separator is the first piece, and the rest splits on its own |
| Strings.SplitJoin | src/message_loop.rs:129 | separator-free pieces, joined and split again, come back unchanged |
| Strings.ReplaceAbsent | src/message_loop.rs:313 | `replace` leaves a string without the pattern unchanged |
| Strings.ReplaceOnce | src/message_loop.rs:313 | a single occurrence of an unbordered pattern between pattern-free texts is replaced |
| Strings.NatToString | src/message_loop.rs:250 | the decimal rendering is a non-empty string of digits |
| Strings.ParseNatToString | src/message_loop.rs:250 | the decimal rendering reads back as the number |
| Strings.NatToStringInjective | src/message_loop.rs:250 | distinct numbers render differently, and only 0 starts with `0` |
| Strings.LessIrreflexive | src/message_loop.rs:172 | the lexicographic order of `sort` is irreflexive |
| Strings.LessTransitive | src/message_loop.rs:172 | the order is transitive |
| Strings.LessTotal | src/message_loop.rs:172 | any two distinct strings are ordered one way |
| Strings.LessAsymmetric | src/message_loop.rs:172 | the order is asymmetric |
| Paths.Join | src/message_loop.rs:283 | an absolute name replaces the base; otherwise the result is the base, at most one `/`, then the name |
| Paths.FileStem | src/message_loop.rs:128 | the stem is a prefix of the file name, and non-empty when the name is |
| Paths.LastComponentJoin | src/message_loop.rs:283 | joining a plain name makes it the last component |
| Paths.FileNameOfSetFileName | src/message_loop.rs:314 | after `set_file_name(name)` the file name is `name` |
| Paths.SetFileNameJoin | src/message_loop.rs:308-314 | renaming `dir/x` to `y` gives `dir/y` |
| Paths.DirPartCut | src/message_loop.rs:308-314 | a path is its directory part followed by its separator-free last component |
| Paths.FileStemOfExtended | src/message_loop.rs:128 | the stem of `stem.ext` is `stem` for a dot-free extension |
| Paths.ExtendedPath | src/message_loop.rs:74 | `d` + `stem.a` has file name `stem.a`, directory part `d` and stem `stem` |
| Paths.SetExtensionOfNamed | src/message_loop.rs:74 | setting an extension replaces the file name with `stem.ext` under the same directory part |
| Paths.SetExtensionTwice | src/message_loop.rs:284-286 | setting a plain extension and then another is setting only the second |
| Paths.Trimmed | src/message_loop.rs:74 | trailing separators are dropped, a root separator is kept, and nothing else changes |
| Paths.TrailingSeparatorIgnored | src/message_loop.rs:74 | `a/b/` has the file name of `a/b`, and setting an extension on it gives the same path as on `a/b` |
| Paths.SetExtensionOfJoined | src/message_loop.rs:74 | a dot-free plain name pushed onto a directory is the file name, and setting an extension names `name.ext` in the same directory |
| Paths.EmptyNameThenExtension | src/message_loop.rs:74 | pushing an empty name adds a trailing separator, after which the extension names `name.ext` beside the directory |
| Catalog.AddValue | src/message_loop.rs:104-117 | a new property is listed once at the end; the value is appended to that property's list; well-formedness is kept |
| Catalog.PairsOf | src/message_loop.rs:134-142 | the pairs are parts `(2k, 2k+1)` after the name, and a trailing property without a value is dropped |
| Catalog.AddPairs | src/message_loop.rs:134-142 | recording pairs keeps a family well-formed |
| Catalog.Contribute | src/message_loop.rs:121-147 | creating the family entry and recording its pairs keeps every family well-formed |
| Catalog.BaseFamilies | src/message_loop.rs:119-148 | the families of the base walk are well-formed |
| Catalog.CustomFamilies | src/message_loop.rs:152-170 | adding the `custom` walk keeps the families well-formed |
| Catalog.CatalogFamilies | src/message_loop.rs:100-170 | the families of both walks are well-formed |
| Catalog.InsertSorted | src/message_loop.rs:171-172 | insertion keeps a sequence strictly ascending and adds exactly the new name |
| Catalog.SortedKeys | src/message_loop.rs:171-172 | the names of a set, strictly ascending, each once |
| Catalog.SortedUnique | src/message_loop.rs:171-172 | two strictly ascending sequences with the same elements are equal |
| Catalog.BuildCatalog | src/message_loop.rs:100-175 | the in-place indexer returns exactly the catalog of the two walks |
| Catalog.ProcessBaseEntry | src/message_loop.rs:121-147 | one walk item changes the families exactly as its contribution does |
| Catalog.ConsumePairs | src/message_loop.rs:134-142 | the pair loop records exactly the complete pairs after the family name |
| Catalog.AddPairsStep | src/message_loop.rs:134-142 | recording one more pair is one more `process_value` |
| Catalog.SortNames | src/message_loop.rs:171-172 | the collected names are strictly ascending and are exactly the keys |
| CatalogProperties.Tag | src/message_loop.rs:141 | one `(family, property, value)` record per pair, in order |
| CatalogProperties.Dedup | src/message_loop.rs:105-110 | the first-seen list holds exactly the elements of the input |
| CatalogProperties.DedupNoDup | src/message_loop.rs:105-110 | the first-seen list has no repetition |
| CatalogProperties.ValuesOfUnlisted | src/message_loop.rs:104-117 | a property never recorded for a family has no values |
| CatalogProperties.ValuesOfListed | src/message_loop.rs:104-117 | a recorded property has at least one value |
| CatalogProperties.EmptyDescribes | src/message_loop.rs:132 | the `or_default` family describes a family with no records |
| CatalogProperties.DescribesStep | src/message_loop.rs:104-117 | `process_value` changes a family exactly as one more record describes |
| CatalogProperties.DescribesOther | src/message_loop.rs:132 | a record of one family leaves every other family's description intact |
| CatalogProperties.DescribesWellFormed | src/message_loop.rs:104-117 | a described family is well-formed |
| CatalogProperties.AddPairsDescribes | src/message_loop.rs:134-142 | a file's pairs act on its family as their records describe |
| CatalogProperties.TagOther | src/message_loop.rs:134-142 | a file's pairs leave every other family's description intact |
| CatalogProperties.ContributeMatches | src/message_loop.rs:121-147 | one walk item keeps the families matching the names and records read so far |
| CatalogProperties.BaseMatches | src/message_loop.rs:119-148 | the base walk's families match its names and records |
| CatalogProperties.CustomMatches | src/message_loop.rs:152-170 | the `custom` walk keeps the families matching, with `filename` records |
| CatalogProperties.CatalogDescribed | src/message_loop.rs:100-175 | one entry per family named by a file, each as its records describe it; the names strictly ascending, each once, and exactly the entries |
| CatalogProperties.DescribesUnique | src/message_loop.rs:104-117 | a description determines the family |
| CatalogProperties.CatalogFamilyContents | src/message_loop.rs:104-117 | each family lists each recorded property once, and each value list is that property's recorded values, never empty |
| Rasters.LeWord | src/message_loop.rs:30 | the first byte is the least significant |
| Rasters.LeBytes | src/message_loop.rs:30 | a word has four little-endian bytes |
| Rasters.LeWordBytes | src/message_loop.rs:30 | reading the bytes of a word gives the word back |
| Rasters.LeBytesWord | src/message_loop.rs:30 | writing the word read from four bytes gives the bytes back |
| Rasters.Words | src/message_loop.rs:29-30 | `chunks_exact(4)` gives one word per whole four bytes |
| Rasters.WordsAt | src/message_loop.rs:29-30 | word `i` is read from bytes `4i` to `4i+3` |
| Rasters.Serialize | src/message_loop.rs:29-30 | serialising words gives four bytes each |
| Rasters.WordsSerialize | src/message_loop.rs:29-30 | grouping recovers serialised words, whatever remainder of up to three bytes follows |
| Rasters.Rows | src/message_loop.rs:26-27 | the reshaped sequence is a grid of the requested shape |
| Rasters.RowsAt | src/message_loop.rs:26-27 | element `(i, j)` is flat element `i*cols + j` |
| Rasters.RowsFlatten | src/message_loop.rs:26-27 | reshaping a flattened grid gives it back |
| Rasters.FromShapeVec | src/message_loop.rs:26-32 | reshaping fails exactly when the element count is not rows times columns |
| Rasters.Base64ToNdarray | src/message_loop.rs:25-33 | decoding succeeds exactly when the text is base64 whose whole words fill the shape; the result has that shape |
| Rasters.Base64ToNdarrayAt | src/message_loop.rs:25-33 | element `(i, j)` is the little-endian word at bytes `4(i*cols + j)` of the decoded text |
| Rasters.Base64ToNdarrayRoundTrip | src/message_loop.rs:25-33 | text decoding to a grid's serialised rows, plus fewer than four bytes, decodes to that grid |
| Rasters.Resample | src/message_loop.rs:42-45 | the element at the same index where the image has one, 0 elsewhere, in the requested shape |
| Rasters.ResampleSameShape | src/message_loop.rs:42-45 | resampling to the image's own shape changes nothing |
| Rasters.ResampleIdempotent | src/message_loop.rs:42-45 | resampling twice to one shape is resampling once |
| Selection.Position | src/message_loop.rs:394-398 | the first index holding the wavelength; `None` exactly when absent |
| Selection.ClosestUpTo | src/message_loop.rs:400-407 | `min_by_key` keeps the first of the closest entries |
| Selection.ScaleIndex | src/message_loop.rs:393-409 | an index exists exactly when the table is non-empty, and it lies within the table; an empty table is the error "no known wavelengths available" |
| Selection.ScaleIndexIsFirstClosest | src/message_loop.rs:393-409 | the index minimises the distance, no earlier entry is as close, and an exact match is chosen when present |
| Selection.ScaleIndexIsClosest | src/message_loop.rs:393-409 | looking up the position first agrees with the closest-first search |
| Selection.ScaleIndexExamples | src/message_loop.rs:393-409 | table 450/500/550: 500 gives 1, 530 gives 2, 525 (a tie) gives 1, and an empty table is an error |
| Selection.StrongestUpTo | src/message_loop.rs:491-494 | `max_by_key` over qualifying lasers keeps the last of the strongest; `None` exactly when none qualifies |
| Selection.StrongestIsLastMaximum | src/message_loop.rs:491-502 | the chosen wavelength is that of a qualifying laser no other qualifying laser outshines, every later one strictly weaker; none exactly when none qualifies |
| Selection.StrongestExamples | src/message_loop.rs:491-494 | an equal-intensity tie picks the later laser; the LED and disabled lasers are never chosen |
| ImageData.SplitHasSecond | src/message_loop.rs:65-67 | a second piece exists exactly when the marker occurs |
| ImageData.ParseImageDataAccepts | src/message_loop.rs:60-72 | the data is accepted exactly when it holds `;base64,` and its header holds a `/` |
| ImageData.SplitAtMarker | src/message_loop.rs:61-67 | header and body without `;` split into header and body |
| ImageData.ParseImageDataRoundTrip | src/message_loop.rs:60-72 | `<mime>/<ext>;base64,<body>` reads back as extension `ext` and body `body` |
| ImageData.ExtraPiecesIgnored | src/message_loop.rs:61-67 | text after a second marker is ignored |
| Resolve.FirstFile | src/message_loop.rs:252-264 | the first candidate that is a file; none before it; `None` exactly when none is |
| Resolve.FirstFileConcat | src/message_loop.rs:252-264 | the second list is probed only when no candidate of the first is a file |
| Resolve.FlatnessPlainFirst | src/message_loop.rs:249-269 | the first plain file over the extensions, else the first `_factory` file, else the error naming the wavelength |
| Resolve.FlatnessPathForm | src/message_loop.rs:249-264 | a found file is `flatness_wavelength_<w>` + suffix + the `i`-th extension in the directory; the suffix is empty exactly when a plain name is a file |
| Resolve.FlatnessNameUnfactoried | src/message_loop.rs:250 | a plain flatness name holds no `_factory` |
| Resolve.FactoryRemoved | src/message_loop.rs:308-313 | removing `_factory` from either flatness name gives the plain name |
| Resolve.FlatnessNamePlain | src/message_loop.rs:250-259 | a flatness file name is one ordinary path component |
| Resolve.CorrectionTargetPlain | src/message_loop.rs:300-314 | a correction is saved under the plain name with the found file's extension: the first plain file when there was one |
| Resolve.CorrectionFoundNext | src/message_loop.rs:300-317 | once the correction target exists it is the flatness file found for the wavelength |
| Resolve.CandidatesFirst | src/message_loop.rs:252-264 | the first file is the first (suffix, extension) pair in loop order that names a file |
| Resolve.CandidatesNone | src/message_loop.rs:252-268 | when no pair names a file, no candidate is one |
| Resolve.FindFlatnessFile | src/message_loop.rs:249-269 | the nested loops with early return compute the flatness path |
| Resolve.ProbeExtensions | src/message_loop.rs:284-289 | the extension loop with early return finds the first probe that is a file |
| Resolve.ResolveBasePattern | src/message_loop.rs:271-294 | the base-pattern path: an error for a spot, the joined name for a custom, the probe result for a base pattern |
| Resolve.SingleExtensions | src/message_loop.rs:284-286 | one probe per extension |
| Resolve.FirstProbeSingles | src/message_loop.rs:283-289 | with plain extensions, the probes set extensions one after the other and find the start path with the first extension that is a file |
| Resolve.SinglesAfterPlain | src/message_loop.rs:284-286 | after a plain first extension the remaining probes are the start path with each extension alone |
| Resolve.StemPieces | src/message_loop.rs:278-282 | the pieces are the family name then each property and value |
| Resolve.BaseStemJoin | src/message_loop.rs:278-282 | the stem is its pieces joined with `_` |
| Resolve.PairsOfStemPieces | src/message_loop.rs:278-282 | the catalog's pairing of a stem's pieces gives the properties back |
| Resolve.PlainStem | src/message_loop.rs:278-283 | the stem of plain names is a dot-free plain name that splits on `_` into its pieces |
| Resolve.JoinedWithExtension | src/message_loop.rs:283-285 | the probed path has file name `stem.ext` and stem `stem` |
| Resolve.BaseProbeReadsBack | src/message_loop.rs:277-289 | the probed file of a base pattern is listed by the catalog under the same family, properties and values, in order |
| Resolve.DottedValueProbesOtherFile | src/message_loop.rs:283-286 | a value with a dot loses its fraction when the extension is set, so another file is probed |
| Resolve.UploadIsNotWhereCustomResolves | src/message_loop.rs:274-276 | an uploaded image is listed by its file name, but a custom pattern of that name resolves to another, shorter path |
| Resolve.UploadWritten | src/message_loop.rs:515-521 | the written upload has file name `stem.ext` and is no shorter than its directory plus that name |
| Resolve.EmptyUploadNameWritesBesideDirectory | src/message_loop.rs:515-521 | an empty upload name gives the `custom_patterns` directory with a trailing separator, and the image is written as `custom_patterns.<ext>` beside that directory |
| Wire.Get | src/schema.rs:241-246 | a member is found exactly when its key is present |
| Wire.Require | src/schema.rs:241-246 | a required member fails exactly when missing and otherwise is the member |
| Wire.DecodeUnsigned | src/schema.rs:124-130 | an integer in range reads as itself; anything else is refused |
| Wire.DecodeStrings | src/schema.rs:156-159 | a list of strings reads exactly when every item is a string, and string i is item i |
| Wire.DecodeLaserStates | src/schema.rs:124-140 | a list of laser states reads exactly when every item reads, and state i is item i read |
| Wire.Lookup | src/schema.rs:274 | a key has a value exactly when it is among the property names |
| Wire.Insert | src/schema.rs:293-296 | `HashMap::insert`: the key gets the new value, every other key keeps its value, an existing key is replaced in place and a new one is added at the end |
| Wire.LastString | src/schema.rs:274 | a key that is not a member has no value |
| Wire.DecodeStringMapFrom | src/schema.rs:274 | reading succeeds exactly when every value is a string; the keys are those read, distinct, and each key read has the value of its last occurrence while the others keep theirs |
| Wire.DecodeStringMap | src/schema.rs:274 | a string map reads exactly when every value is a string; its keys are the members', distinct, each with the value of its last occurrence |
| Wire.DecodeBasePattern | src/schema.rs:270-281 | an empty map is "empty base pattern"; otherwise the first entry's key is the family, and each property has the value of its last occurrence in the first entry's map |
| Wire.DecodePatternParams | src/schema.rs:298-311 | the untagged enum reads when some variant reads; custom only when spot does not, base only when neither does |
| Wire.EncodeProperties | src/schema.rs:292-296 | one member per property |
| Wire.DecodeEncodedProperties | src/schema.rs:274 | reading an encoded property list appends the properties unchanged |
| Wire.DecodeEncodePatternParams | src/schema.rs:298-311 | encoding then decoding a pattern gives it back, unless a base pattern reads as custom |
| Wire.BaseRoundTrip | src/schema.rs:292-311 | a base pattern that does not read as custom comes back unchanged |
| Wire.BaseVariantRoundTrip | src/schema.rs:270-296 | the base reading of an encoded base pattern with distinct property names gives it back |
| Wire.OtherVariantsRefuseBase | src/schema.rs:298-311 | an encoded base pattern that does not read as custom is refused by the spot and the custom readings |
| Wire.SpotRoundTrip | src/schema.rs:248-254 | a spot pattern comes back unchanged |
| Wire.CustomFamilyReadsAsCustom | src/schema.rs:298-311 | the base pattern `custom` with one `filename` property reads as a custom pattern |
| Wire.CommandTag | src/schema.rs:175-177 | the tag read is the `command` member's string |
| Wire.DecodeLaserCommand | src/schema.rs:132-141 | a laser command read carries its own tag |
| Wire.DecodeEmbeddedCommand | src/schema.rs:224-231 | an embedded command read carries its own tag |
| Wire.DecodeAimCommand | src/schema.rs:175-222 | an aim command read carries its own tag and is never the skipped correction response |
| Wire.DecodeAimVariant | src/schema.rs:177-222 | the variant read is the one the tag names |
| Wire.DecodeAimStateVariant | src/schema.rs:182-192 | the pattern and Fresnel commands read carry the tag given |
| Wire.DecodeAimFileVariant | src/schema.rs:193-207 | the file and reply commands read carry the tag given |
| Wire.DecodeAimCatalogVariant | src/schema.rs:208-219 | a correction request or catalog read carries the tag given; the response is never read |
| Wire.DecodeCatalogCommand | src/schema.rs:216-219 | `availablePatterns` reads as the catalog command |
| Wire.DecodeMessageData | src/schema.rs:233-239 | a payload read carries its `device` tag |
| Wire.DecodeMessageType | src/schema.rs:116-122 | a message type read is its tag's string |
| Wire.DecodeMessage | src/schema.rs:241-246 | a message read has its `type` tag and its payload read from `data` |
| Wire.EnvelopeTags | src/schema.rs:233-246 | the `type`, `device` and `command` members name the variants of a message read |
| Engine.ReadImage | src/message_loop.rs:35-49 | reading succeeds exactly when the file exists and decodes; the levels are the decoded image, resampled by index to a requested shape |
| Engine.LoadData | src/message_loop.rs:220-228 | a hit returns the cached array; a miss reads the file and caches it only on success; no other entry changes |
| Engine.LoadDataHit | src/message_loop.rs:220-228 | a cached path ignores the shape asked for and leaves the cache as it is |
| Engine.LoadDataTwice | src/message_loop.rs:220-228 | loading a loaded path again, at any shape, changes nothing |
| Engine.BaseTerm | src/message_loop.rs:347-366 | the base term keeps every cached array |
| Engine.BaseTermCases | src/message_loop.rs:347-366 | a spot pattern's base term is the spot field over the screen and touches no cache; any other pattern's is the array of its resolved file loaded at screen shape, or the resolution's error |
| Engine.WithoutFlatness | src/message_loop.rs:368-372 | without `add_flatness_correction` the base term is kept as it is |
| Engine.WithFlatness | src/message_loop.rs:368-372 | the flatness correction keeps cached arrays and the base term's shape, with its cases stated by `WithoutFlatness` and `WithFlatnessOn` |
| Engine.WithFlatnessOn | src/message_loop.rs:368-372 | with the correction configured: the lookup error when no flatness file is found, the load error, the broadcast panic, or the base term plus the loaded correction, with the cache the load left |
| Engine.Quantise | src/message_loop.rs:412 | the 8-bit pattern has the phase array's shape |
| Engine.ComputePattern | src/message_loop.rs:322-426 | computing keeps every cached array, even when a step fails |
| Engine.ComputePatternSteps | src/message_loop.rs:347-413 | a failed base term ends the computation; otherwise it succeeds exactly when the flatness step succeeds, the screen broadcasts and the wavelength has a scale factor; an empty table fails with "no known wavelengths available", an index past the factors panics, and a result is the quantised frame with the factor at the wavelength's index |
| Engine.ComputeKeepsScreenShape | src/message_loop.rs:322-426 | with a screen-shaped cache, the cache stays screen-shaped and a computed pattern covers the screen |
| Engine.LoadScreenShaped | src/message_loop.rs:220-228 | a load at screen shape keeps the cache screen-shaped and yields a screen-shaped array |
| Engine.BaseTermScreenShaped | src/message_loop.rs:347-366 | the base term of a screen-shaped cache has the screen's shape |
| Engine.PutPixel | src/message_loop.rs:235-238 | the three colour bytes of pixel `k` are set; it panics exactly when they lie outside the buffer |
| Engine.PaintRow | src/message_loop.rs:234-239 | a row is written exactly when all its pixels are in the buffer, and alpha bytes are kept |
| Engine.PaintRows | src/message_loop.rs:234-239 | rows are written exactly when all their pixels are in the buffer, and alpha bytes are kept |
| Engine.PaintFits | src/message_loop.rs:230-239 | a `width * height * 4` buffer takes every sample of a screen-sized pattern |
| Engine.CellOf | src/message_loop.rs:235 | `k = y*width + x` exactly when `x` and `y` are the remainder and quotient of `k` |
| Engine.ColourByteOf | src/message_loop.rs:235-238 | byte `i` is a colour byte of pixel `(x, y)` exactly when its cell is `(x, y)` and it is not alpha |
| Engine.PaintPlaces | src/message_loop.rs:230-239 | with no more rows than the width, colour byte `c < 3` of pixel `y*width + x` holds sample `(x, y)`, and every other byte is kept |
| Engine.SaveImage | src/message_loop.rs:51-58 | saving succeeds exactly when encoding and creating succeed; only that file changes |
| Engine.MergeAndSave | src/message_loop.rs:302-317 | a failure changes nothing; success requires decodable, broadcastable deltas and a saved sum; the sum is cached under the target |
| Engine.AddCorrectionFailure | src/message_loop.rs:296-320 | a failed correction writes nothing; the cache changes at most by the loaded flatness file |
| Engine.AddCorrectionSuccess | src/message_loop.rs:296-320 | a correction loads the flatness file, decodes rows times columns words, writes the sum to the target and caches it; nothing else changes |
| Engine.AddCorrectionTakesEffect | src/message_loop.rs:296-320 | after a correction the plain flatness file is the one found, and loading it returns the merged array from the cache |
| Engine.SaveImageData | src/message_loop.rs:60-80 | the upload succeeds exactly when the data parses, the file is created and the body decodes; only the target file changes |
| Engine.SaveImageDataRoundTrip | src/message_loop.rs:60-80 | a data URL is written, decoded, under the path with its extension set |
| Engine.BadBodyLeavesEmptyFile | src/message_loop.rs:77 | a body that is not base64 leaves an empty file and fails |
| Engine.RemoveFile | src/message_loop.rs:553 | removal fails exactly when the file is missing and otherwise removes only it |
| Dispatch.AimTopic | src/main.rs:58 | the aim topic is the main topic plus `/aim` |
| Dispatch.Send | src/message_loop.rs:82-98 | sending appends exactly one publication, the message to the aim topic at QoS 0, and changes nothing else |
| Dispatch.SendAvailablePatterns | src/message_loop.rs:177-184 | the catalog report appends exactly the catalog of the current files and changes nothing else |
| Dispatch.SendGetLasers | src/message_loop.rs:201-207 | the laser request only adds publications to the aim topic |
| Dispatch.SendPrestackDone | src/message_loop.rs:191-199 | the acknowledgement only adds publications to the aim topic |
| Dispatch.SendCorrectionAck | src/message_loop.rs:209-218 | the correction acknowledgement only adds publications to the aim topic |
| Dispatch.SendReports | src/message_loop.rs:462-464 | the reports only add publications to the aim topic |
| Dispatch.UpdateState | src/message_loop.rs:430-445 | the update keeps files, outbox, subscriptions and reboot flag |
| Dispatch.UpdateStateFields | src/message_loop.rs:430-445 | exactly the given fields are overwritten and every cached array kept; pixels change only to the painted pattern, and the computation's error is returned |
| Dispatch.UpdateStatePaints | src/message_loop.rs:441-442 | with no fields given, only the cache and the pixels change, as the computation and the painting say |
| Dispatch.UpdateStateOverwritesFirst | src/message_loop.rs:436-441 | the fields are overwritten before anything is computed |
| Dispatch.UpdateStateOnReadyScreen | src/message_loop.rs:430-445 | on a ready screen painting never panics, the update fails exactly when the computation does, and each colour byte holds its sample |
| Dispatch.HandlePreStack | src/message_loop.rs:528-532 | `PreStack` is `Set` plus "PreStack done", sent exactly when the update succeeds |
| Dispatch.Upload | src/message_loop.rs:548-551 | a name that does not resolve changes nothing; otherwise the files are those `save_image_data` leaves, the result is its result, and on success exactly the catalog of the new files is sent; state, pixels and subscriptions are kept |
| Dispatch.Delete | src/message_loop.rs:552-555 | a name that does not resolve, or a missing file, changes nothing; otherwise the file is removed and exactly the catalog of the remaining files is sent; state, pixels and subscriptions are kept |
| Dispatch.ApplyCorrection | src/message_loop.rs:558-561 | files and cache change as the correction says; the acknowledgement with the request's wavelength is sent exactly on success |
| Dispatch.HandleAim | src/message_loop.rs:523-567 | an aim command only adds publications to the aim topic |
| Dispatch.Finish | src/message_loop.rs:510-513 | anything but a `Device` aim command changes nothing and fails with "Unexpected message" |
| Dispatch.LaserSet | src/message_loop.rs:487-506 | a laser update only adds publications to the aim topic |
| Dispatch.Handle | src/message_loop.rs:481-570 | handling a message only adds publications to the aim topic |
| Dispatch.ProcessMessage | src/message_loop.rs:469-473 | a payload that does not decode changes nothing and returns the decode error |
| Dispatch.Subscriptions | src/message_loop.rs:448-460 | the four subtopics below the main topic, in order, at QoS 0 |
| Dispatch.OnConnect | src/message_loop.rs:447-467 | `on_connect` adds the four subscriptions, then sends exactly the request for the lasers and the catalog of the files, and keeps state, files and pixels |
| Dispatch.NonAimEndsInError | src/message_loop.rs:510-513 | anything but an aim command or a laser update ends in "Unexpected message" |
| Dispatch.InitDoneReportsThenFails | src/message_loop.rs:482-486 | `InitDone` sends the laser request and the catalog, in that order, then fails as unexpected |
| Dispatch.LaserUpdate | src/message_loop.rs:487-513 | a laser update moves to the strongest laser's wavelength and then fails as unexpected; with no qualifying laser nothing changes |
| Dispatch.PassiveCommands | src/message_loop.rs:534-536 | `Get`, replies, `Disconnect` and the catalog and acknowledgement commands change nothing |
| Dispatch.PreStackFields | src/message_loop.rs:528-532 | `PreStack` sets the pattern and Fresnel value and keeps the wavelength |
| Dispatch.SetCommandsUpdate | src/message_loop.rs:523-547 | `Set`, `SetFresnel` and `SetPattern` are `update_state` with the fields they carry: each overwrites exactly those, keeps the others and the files, and sends nothing |
| Dispatch.FileCommands | src/message_loop.rs:537-565 | `GetAllPatterns` sends the catalog and changes nothing else; `UploadImage`, `DeleteImage` and `Reboot` are the upload, the deletion and the start of the reboot |
| Controller.Context.constructor | src/main.rs:51-65 | the aim topic is computed once; the fields are the arguments |
| Controller.Context.SendAimMessage | src/message_loop.rs:95-98 | the new world is `Send` of the old |
| Controller.Context.SendGetLasers | src/message_loop.rs:201-207 | the new world is the laser request sent |
| Controller.Context.SendAvailablePatterns | src/message_loop.rs:177-184 | the catalog built in place is the one sent |
| Controller.Context.SendPrestackDone | src/message_loop.rs:191-199 | the new world is the acknowledgement sent |
| Controller.Context.SendCorrectionAck | src/message_loop.rs:209-218 | the new world is the correction acknowledgement sent |
| Controller.Context.LoadData | src/message_loop.rs:220-228 | the result and the new cache are those of `Engine.LoadData` |
| Controller.Context.BaseTerm | src/message_loop.rs:347-366 | the result and the new cache are those of `Engine.BaseTerm` |
| Controller.Context.WithFlatness | src/message_loop.rs:368-372 | the result and the new cache are those of `Engine.WithFlatness` |
| Controller.Context.ComputePattern | src/message_loop.rs:322-426 | the result and the new cache are those of `Engine.ComputePattern` |
| Controller.Context.PutRow | src/message_loop.rs:234-239 | the row's pixels are written as `Engine.PaintRow`, or the method panics |
| Controller.Context.PutPattern | src/message_loop.rs:230-239 | the buffer becomes `Engine.Paint` of the old one, or the method panics |
| Controller.Context.ShowPattern | src/message_loop.rs:441-442 | the world and result are those of the update with no fields given |
| Controller.Context.UpdateState | src/message_loop.rs:430-445 | the world and result are those of `Dispatch.UpdateState` |
| Controller.Context.AddCorrectionPatternDeltas | src/message_loop.rs:296-320 | files, cache and result are those of `Engine.AddCorrection` |
| Controller.Context.MergeAndSave | src/message_loop.rs:302-317 | files, cache and result are those of `Engine.MergeAndSave` |
| Controller.Context.OnConnect | src/message_loop.rs:447-467 | the subscription loop and the reports reach `Dispatch.OnConnect` |
| Controller.Context.PreStack | src/message_loop.rs:528-532 | reaches `Dispatch.HandlePreStack` |
| Controller.Context.Upload | src/message_loop.rs:548-551 | reaches `Dispatch.Upload`: the file `save_image_data` writes, its result, and the catalog on success |
| Controller.Context.Delete | src/message_loop.rs:552-555 | reaches `Dispatch.Delete`: the file removed, and the catalog on success |
| Controller.Context.ApplyCorrection | src/message_loop.rs:558-561 | reaches `Dispatch.ApplyCorrection` |
| Controller.Context.StartReboot | src/message_loop.rs:563-565 | the reboot flag is set when the reboot starts; otherwise the command fails |
| Controller.Context.HandleAim | src/message_loop.rs:523-567 | reaches `Dispatch.HandleAim` |
| Controller.Context.Handle | src/message_loop.rs:481-570 | reaches `Dispatch.Handle` |
| Controller.Context.ProcessMessage | src/message_loop.rs:469-570 | reaches `Dispatch.ProcessMessage` |
| Startup.InitializeState | src/main.rs:117-124 | the defaults of the configuration with an empty cache |
| Startup.LastWill | src/main.rs:67-81 | a `Device` `Disconnect` to the aim topic at QoS 0 |
| Startup.LastWillIsIgnored | src/main.rs:67-81 | the controller's own last will, if received, changes nothing |
| Startup.PixelBufferLength | src/main.rs:179 | the `u32` product, wrapped; equal to `width*height*4` when that fits |
| Startup.InitialPixels | src/main.rs:176-181 | the buffer has that length and every byte is 0 |
| Startup.StartupShowsDefaults | src/main.rs:183-188 | on a screen whose buffer fits, start-up keeps the defaults, fails exactly when their pattern does, and otherwise shows it with alpha bytes 0 |
| Startup.Start | src/main.rs:155-188 | allocates the zeroed buffer, builds the context and reaches the start-up world |

## Left out

- Floating point: arrays are symbolic `Phases`. The grey level of each pixel after quantisation is the environment function `Env.level`. So the spot disk, the blazed gradient, the Fresnel lens and `rem_euclid` are not computed. Two factors appear without a relation asserted between them: 2π/256 when reading levels and 255/2π when saving.
- Engine.Quantise: states only the shape of the pattern, because its values come from `Env.level`.
- Broadcasting: `a += b` and `&a + &b` are modelled one way, with the right operand broadcast to the left shape; the sum keeps the left operand's shape.
- Controller.Context.UpdateState: after a panic (an out-of-bounds pixel write) nothing is said about the state, because the process ends and the buffer may hold a partial pattern. The same holds for the other `Controller.Context` methods that can reach a panic.
- Controller.Context.PutPattern: checks the bounds of each pixel before writing its three bytes. So a panicking write leaves no byte of that pixel changed. The source could write one or two bytes first, but only on a buffer whose length is not a multiple of four, and the buffer allocated at start-up always is one.
- Startup.PixelBufferLength: models the release-build wrap-around of the `u32` product; a debug build panics instead.
- `usize` overflow in `put_pattern`'s index arithmetic is not modelled; indices are unbounded.
- The SDL texture update, canvas copy and present, and their errors, are not modelled.
- MQTT `publish` and `subscribe` errors and the JSON serialisation of outgoing messages are not modelled: publishing is appending to an outbox.
- JSON text parsing is not modelled: messages are read from a `Json` value tree.
- The text of error messages that embed a value's `Debug` rendering is not modelled.
- The logger (`initialize_logger`, `logger_format`) and the `info!`/`error!` calls are not modelled; `IntoLevelFilter` is.
- The debug dump of the computed pattern to `computed_pattern.png` is not modelled.
- `send_current_state` sends nothing in the source and is modelled as doing nothing.
- `system_shutdown::reboot` is external: `Env.reboot` says whether it starts, and the model records `rebooted`.
- The order of a directory walk is the environment's `walk`. A `HashMap`'s iteration order is the order of the property sequence given; `Wire.DecodeStringMap` fixes it to document order. In the source that order is unspecified, and with two or more properties it decides which base-pattern file name is probed (src/message_loop.rs:279-281), so the model picks one of the files the source may probe.
- Get: a field that occurs twice in a message is read from its first occurrence. The `Deserialize` derives and the tagged-enum reader refuse such a message with "duplicate field"; the model accepts it.
- Structs and struct variants written as JSON arrays, which the derived `visit_seq` readers accept positionally, are refused by the model: only the object form is read.
- Rasters.GridShape: a grid with no rows has shape `(0, 0)`, where `ndarray` keeps the column count. Only a zero-width screen could produce one, and start-up fails before that.
- `Env.decodeImage` sees only a file's bytes, while `image::open` chooses the decoder from the path's extension; the model makes identical bytes under two extensions decode alike.
- Paths are strings. Trailing separators are dropped where `Path::components` drops them, but `.` components and repeated separators inside a path are not normalised (Rust reads `a/./b` and `a//b` as `a/b`). Some path lemmas therefore require a directory with at most one trailing separator (`Paths.SingleTrailing`).
- The extension probe of a base pattern sets extensions one after another. The lemmas about it require every extension but the last to be dot-free.
- `message_loop`: the polling loop, its window events and the quit key are not modelled. Each received message is one `ProcessMessage` call, and its error is only reported.
- `initialize` reading `config.json`, connecting to the broker, and SDL window creation are not modelled. The configuration is a parameter.
