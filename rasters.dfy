/** The arrays the controller works with. Phase arrays hold `f32`s in the
    source; here their values stay symbolic (`Phases`) and only their shape
    and provenance are modelled. The integer-level steps are exact: the
    little-endian word grouping of `base64_to_ndarray`
    (src/message_loop.rs:25-33), its row-major reshape, and the crop/zero-pad
    resample of `read_image_from_file` (src/message_loop.rs:42-45). */
module Rasters {
  import opened Wrappers
  import opened Schema

  type byte = x: int | 0 <= x < 0x100

  /** The bit pattern of an `f32`. */
  type Word = x: int | 0 <= x < 0x1_0000_0000

  /** A two-dimensional array as a sequence of rows. */
  type Grid<T> = seq<seq<T>>

  predicate IsGrid<T>(g: Grid<T>, rows: nat, cols: nat) {
    |g| == rows && forall i :: 0 <= i < rows ==> |g[i]| == cols
  }

  // ------------------------------------------------------ little endian

  /** `f32::from_le_bytes` on the bit level: the first byte is the least
      significant. */
  function LeWord(b: seq<byte>): (w: Word)
    requires |b| == 4
    ensures w % 0x100 == b[0]
  {
    b[0] as int + 0x100 * (b[1] as int + 0x100 * (b[2] as int + 0x100 * b[3] as int))
  }

  /** The four little-endian bytes of a word. */
  function LeBytes(w: Word): (b: seq<byte>)
    ensures |b| == 4
  {
    [w % 0x100, w / 0x100 % 0x100, w / 0x100 / 0x100 % 0x100, w / 0x100 / 0x100 / 0x100]
  }

  lemma ByteDigit(a: int, q: int)
    requires 0 <= a < 0x100
    ensures (a + 0x100 * q) % 0x100 == a && (a + 0x100 * q) / 0x100 == q
  {
  }

  lemma LeWordBytes(w: Word)
    ensures LeWord(LeBytes(w)) == w
  {
  }

  lemma LeBytesWord(b: seq<byte>)
    requires |b| == 4
    ensures LeBytes(LeWord(b)) == b
  {
    var q2 := b[2] as int + 0x100 * b[3] as int;
    var q1 := b[1] as int + 0x100 * q2;
    ByteDigit(b[0], q1);
    ByteDigit(b[1], q2);
    ByteDigit(b[2], b[3]);
  }

  /** `chunks_exact(4)` followed by `from_le_bytes`: whole words only, a
      remainder of up to three bytes is dropped. */
  function Words(bytes: seq<byte>): (ws: seq<Word>)
    ensures |ws| == |bytes| / 4
    decreases |bytes|
  {
    if |bytes| < 4 then [] else [LeWord(bytes[..4])] + Words(bytes[4..])
  }

  /** Word `i` is read from bytes `4i` to `4i + 3`. */
  lemma {:induction false} WordsAt(bytes: seq<byte>, i: nat)
    requires i < |bytes| / 4
    ensures 4 * i + 4 <= |bytes|
    ensures Words(bytes)[i] == LeWord(bytes[4 * i..4 * i + 4])
    decreases i
  {
    if i > 0 {
      WordsAt(bytes[4..], i - 1);
      assert bytes[4..][4 * (i - 1)..4 * (i - 1) + 4] == bytes[4 * i..4 * i + 4];
    }
  }

  /** The little-endian serialisation of a sequence of words. */
  function Serialize(ws: seq<Word>): (bytes: seq<byte>)
    ensures |bytes| == 4 * |ws|
  {
    if |ws| == 0 then [] else LeBytes(ws[0]) + Serialize(ws[1..])
  }

  /** Grouping recovers the serialised words, whatever trailing remainder
      follows them. */
  lemma {:induction false} WordsSerialize(ws: seq<Word>, tail: seq<byte>)
    requires |tail| < 4
    ensures Words(Serialize(ws) + tail) == ws
  {
    if |ws| > 0 {
      var bytes := Serialize(ws) + tail;
      assert bytes[..4] == LeBytes(ws[0]);
      assert bytes[4..] == Serialize(ws[1..]) + tail;
      WordsSerialize(ws[1..], tail);
      LeWordBytes(ws[0]);
    }
  }

  // -------------------------------------------------------------- reshape

  lemma MulSucc(rows: nat, cols: nat)
    requires rows > 0
    ensures rows * cols == (rows - 1) * cols + cols
  {
  }

  /** The first `rows` rows of `cols` elements each, in row-major order. */
  function Rows<T>(xs: seq<T>, rows: nat, cols: nat): (g: Grid<T>)
    requires |xs| == rows * cols
    ensures IsGrid(g, rows, cols)
    decreases rows
  {
    if rows == 0 then []
    else
      MulSucc(rows, cols);
      [xs[..cols]] + Rows(xs[cols..], rows - 1, cols)
  }

  lemma CellBound(rows: nat, cols: nat, i: nat, j: nat)
    requires i < rows && j < cols
    ensures i * cols + j < rows * cols
  {
    var rest: nat := rows - i - 1;
    assert rows * cols == i * cols + cols + rest * cols;
  }

  /** Element `(i, j)` of the reshaped array is element `i * cols + j` of the
      flat sequence. */
  lemma {:induction false} RowsAt<T>(xs: seq<T>, rows: nat, cols: nat, i: nat, j: nat)
    requires |xs| == rows * cols && i < rows && j < cols
    ensures i * cols + j < |xs|
    ensures Rows(xs, rows, cols)[i][j] == xs[i * cols + j]
    decreases rows
  {
    CellBound(rows, cols, i, j);
    MulSucc(rows, cols);
    if i > 0 {
      MulSucc(i, cols);
      RowsAt(xs[cols..], rows - 1, cols, i - 1, j);
    }
  }

  /** The rows laid end to end. */
  function Flatten<T>(g: Grid<T>): seq<T> {
    if |g| == 0 then [] else g[0] + Flatten(g[1..])
  }

  lemma {:induction false} FlattenLength<T>(g: Grid<T>, rows: nat, cols: nat)
    requires IsGrid(g, rows, cols)
    ensures |Flatten(g)| == rows * cols
    decreases rows
  {
    if rows > 0 {
      FlattenLength(g[1..], rows - 1, cols);
      MulSucc(rows, cols);
    }
  }

  /** Reshaping the flattened rows of a grid gives the grid back. */
  lemma {:induction false} RowsFlatten<T>(g: Grid<T>, rows: nat, cols: nat)
    requires IsGrid(g, rows, cols)
    ensures |Flatten(g)| == rows * cols
    ensures Rows(Flatten(g), rows, cols) == g
    decreases rows
  {
    FlattenLength(g, rows, cols);
    if rows > 0 {
      var f := Flatten(g);
      assert f[..cols] == g[0];
      assert f[cols..] == Flatten(g[1..]);
      RowsFlatten(g[1..], rows - 1, cols);
    }
  }

  /** `Array2::from_shape_vec((rows, cols), xs)`: an error unless the
      sequence holds exactly `rows * cols` elements. */
  function FromShapeVec<T>(xs: seq<T>, rows: nat, cols: nat): (r: Result<Grid<T>>)
    ensures r.Ok? <==> |xs| == rows * cols
    ensures r.Ok? ==> IsGrid(r.value, rows, cols)
  {
    if |xs| != rows * cols then Fail("ShapeError/IncompatibleShape: incompatible shapes")
    else Ok(Rows(xs, rows, cols))
  }

  /** `base64_to_ndarray`: decode, group into little-endian words, reshape.
      `decode` is the base64 decoder of RFC 4648 section 4, `None` on
      malformed input. */
  function Base64ToNdarray(decode: string -> Option<seq<byte>>, s: string, rows: nat, cols: nat): (r: Result<Grid<Word>>)
    ensures r.Ok? <==> decode(s).Some? && |decode(s).value| / 4 == rows * cols
    ensures r.Ok? ==> IsGrid(r.value, rows, cols)
  {
    match decode(s)
    case None => Fail("Invalid base64")
    case Some(bytes) => FromShapeVec(Words(bytes), rows, cols)
  }

  /** Element `(i, j)` of a decoded array is the word at bytes
      `4 (i cols + j)` to `4 (i cols + j) + 3` of the decoded text. */
  lemma Base64ToNdarrayAt(decode: string -> Option<seq<byte>>, s: string, rows: nat, cols: nat, i: nat, j: nat)
    requires Base64ToNdarray(decode, s, rows, cols).Ok?
    requires i < rows && j < cols
    ensures var k := i * cols + j;
      4 * k + 4 <= |decode(s).value| &&
      Base64ToNdarray(decode, s, rows, cols).value[i][j] == LeWord(decode(s).value[4 * k..4 * k + 4])
  {
    var bytes := decode(s).value;
    RowsAt(Words(bytes), rows, cols, i, j);
    WordsAt(bytes, i * cols + j);
  }

  /** A text that decodes to the serialised rows of a grid, followed by a
      remainder of fewer than four bytes, decodes back to that grid. */
  lemma Base64ToNdarrayRoundTrip(decode: string -> Option<seq<byte>>, s: string, g: Grid<Word>, rows: nat, cols: nat, tail: seq<byte>)
    requires IsGrid(g, rows, cols) && |tail| < 4
    requires decode(s) == Some(Serialize(Flatten(g)) + tail)
    ensures Base64ToNdarray(decode, s, rows, cols) == Ok(g)
  {
    WordsSerialize(Flatten(g), tail);
    RowsFlatten(g, rows, cols);
  }

  // ------------------------------------------------------------- resample

  /** `Array::from_shape_fn(dim, |id| array.get(id) … unwrap_or(0))`: the
      element at the same index where the source array has one, zero
      elsewhere. Normalising the levels maps zero to zero, so resampling the
      levels before normalising them is the same as after. */
  function Resample(g: Grid<byte>, rows: nat, cols: nat): (r: Grid<byte>)
    ensures IsGrid(r, rows, cols)
    ensures forall i, j :: 0 <= i < rows && 0 <= j < cols ==>
      r[i][j] == if i < |g| && j < |g[i]| then g[i][j] else 0
  {
    seq(rows, i => seq(cols, j => if 0 <= i < |g| && 0 <= j < |g[i]| then g[i][j] else 0))
  }

  /** Resampling to the array's own shape changes nothing. */
  lemma ResampleSameShape(g: Grid<byte>, rows: nat, cols: nat)
    requires IsGrid(g, rows, cols)
    ensures Resample(g, rows, cols) == g
  {
    var r := Resample(g, rows, cols);
    forall i | 0 <= i < rows
      ensures r[i] == g[i]
    {
    }
  }

  /** Resampling twice to one shape is resampling once. */
  lemma ResampleIdempotent(g: Grid<byte>, rows: nat, cols: nat)
    ensures Resample(Resample(g, rows, cols), rows, cols) == Resample(g, rows, cols)
  {
    ResampleSameShape(Resample(g, rows, cols), rows, cols);
  }

  // --------------------------------------------------------------- phases

  /** A phase array (`Array2<f32>`), described by where its values come
      from. */
  datatype Phases =
    | Levels(levels: Grid<byte>)       // a grey image, each level times 2π/256
    | Deltas(words: Grid<Word>)        // `f32`s given by their bit patterns
    | SpotField(spot: SpotPattern, rows: nat, cols: nat)
    | Sum(augend: Phases, addend: Phases)

  /** The shape of a grid of rows. A grid with no rows carries no column
      count, so its shape is `(0, 0)`. */
  function GridShape<T>(g: Grid<T>): (nat, nat) {
    (|g|, if |g| == 0 then 0 else |g[0]|)
  }

  /** The shape of a phase array; a sum has the shape of its left operand,
      which the in-place addition keeps. */
  function Shape(p: Phases): (nat, nat) {
    match p
    case Levels(g) => GridShape(g)
    case Deltas(g) => GridShape(g)
    case SpotField(_, rows, cols) => (rows, cols)
    case Sum(a, _) => Shape(a)
  }

  /** The parameters that, with a phase array, determine the 8-bit pattern
      shown on the modulator: the blazed gradient and the Fresnel lens come
      from the screen `size`, `wavelength` and `fresnel`, the quantisation
      from `scale`. */
  datatype Frame = Frame(phases: Phases, size: (nat, nat), wavelength: u32, fresnel: u32, scale: real)

  /** `a += b` and `&a + &b` on arrays: `b` is broadcast to the shape of
      `a`, which needs each of its axes to match or to have length one;
      otherwise the operation panics. */
  predicate BroadcastsTo(from: (nat, nat), to: (nat, nat)) {
    (from.0 == to.0 || from.0 == 1) && (from.1 == to.1 || from.1 == 1)
  }
}
