/** MXFP4 weights in convert_hf_to_gguf.py: the repack into ggml blocks, the direct dequantization, and ggml's own
    reading of a block. A value is a 4-bit E2M1 code; 32 values share an E8M0 scale byte (OCP Microscaling Formats
    Specification v1.0, sections 5.3.3 and 5.4.1). */
module Mxfp4 {
  import opened Bytes
  import opened Wrappers

  /** A 4-bit code. */
  type Code = x: nat | x < 16

  // ---------- Numbers

  /** A single-precision number. The finite ones that occur here are exact: a few bits times a power of two. */
  datatype Float = Zero(negative: bool) | Number(value: real) | Infinity(negative: bool) | NotANumber

  function Pow2(k: int): (r: real)
    ensures r > 0.0
    decreases if k < 0 then -k else k
  {
    if k == 0 then 1.0 else if k > 0 then 2.0 * Pow2(k - 1) else Pow2(k + 1) / 2.0
  }

  lemma Pow2Next(k: int)
    ensures Pow2(k + 1) == 2.0 * Pow2(k)
  {
  }

  const OVERFLOW := 128

  /** A finite real as a number of the format: zero, itself, or an infinity when it is too large. */
  function Rounded(r: real, negative: bool): (f: Float) {
    if r == 0.0 then Zero(negative)
    else if -Pow2(OVERFLOW) < r < Pow2(OVERFLOW) then Number(r)
    else Infinity(r < 0.0)
  }

  predicate Negative(f: Float) {
    match f
    case Zero(negative) => negative
    case Number(r) => r < 0.0
    case Infinity(negative) => negative
    case NotANumber => false
  }

  function RealOf(f: Float): (x: real)
    requires f.Zero? || f.Number?
  {
    if f.Zero? then 0.0 else f.value
  }

  function Times(a: Float, b: Float): (f: Float) {
    var negative := Negative(a) != Negative(b);
    if a.NotANumber? || b.NotANumber? then NotANumber
    else if a.Infinity? || b.Infinity? then (if a.Zero? || b.Zero? then NotANumber else Infinity(negative))
    else Rounded(RealOf(a) * RealOf(b), negative)
  }

  /** 2 to the power k, for k no less than the least exponent of the format. */
  function Exp2(k: int): (f: Float) {
    Rounded(Pow2(k), false)
  }

  // ---------- The two tables

  const MAGNITUDES := [0.0, 0.5, 1.0, 1.5, 2.0, 3.0, 4.0, 6.0]

  /** The converter's table entry: it has a negative zero. */
  function E2M1(code: Code): (f: Float)
  {
    var m := MAGNITUDES[code % 8];
    Rounded(if code < 8 then m else -m, code >= 8)
  }

  /** The value that the format's fields stand for: sign, two exponent bits with bias 1, one mantissa bit. */
  function FieldsValue(code: Code): (r: real)
  {
    var exponent, mantissa := code / 2 % 4, (code % 2) as real;
    var m := if exponent == 0 then mantissa * 0.5 else Pow2(exponent - 1) * (1.0 + mantissa * 0.5);
    if code < 8 then m else -m
  }

  lemma SmallIsExact(r: real, negative: bool)
    requires -16.0 < r < 16.0
    ensures Rounded(r, negative) == if r == 0.0 then Zero(negative) else Number(r)
  {
    Pow2Values();
  }

  /** The table is the format. */
  lemma TableIsFormat(code: Code)
    ensures (E2M1(code).Zero? || E2M1(code).Number?) && RealOf(E2M1(code)) == FieldsValue(code)
    ensures Negative(E2M1(code)) <==> code >= 8
  {
    hide Rounded, Pow2;
    Pow2Values();
    assert code in {0, 1, 2, 3, 4, 5, 6, 7, 8, 9, 10, 11, 12, 13, 14, 15};
    var m := MAGNITUDES[code % 8];
    SmallIsExact(if code < 8 then m else -m, code >= 8);
  }

  lemma Pow2Values()
    ensures Pow2(0) == 1.0 && Pow2(1) == 2.0 && Pow2(2) == 4.0 && Pow2(3) == 8.0 && Pow2(OVERFLOW) > 16.0
  {
    Pow2Grows(4, OVERFLOW);
    assert Pow2(3) == 8.0 && Pow2(4) == 16.0;
    Pow2Grows(5, OVERFLOW);
    assert Pow2(5) == 32.0;
  }

  lemma {:induction false} Pow2Grows(j: int, k: int)
    requires j <= k
    ensures Pow2(j) <= Pow2(k)
    decreases k - j
  {
    if j < k {
      Pow2Grows(j, k - 1);
      Pow2Next(k - 1);
    }
  }

  const KVALUES := [0, 1, 2, 3, 4, 6, 8, 12, 0, -1, -2, -3, -4, -6, -8, -12]

  /** ggml's table entry: integers, doubled, and so without a negative zero. */
  function Kvalue(code: Code): (f: Float)
  {
    Rounded(KVALUES[code] as real, KVALUES[code] < 0)
  }

  /** ggml's scale, half of the E8M0 one, from the bits it puts together. */
  function HalfScale(e: Byte): (f: Float) {
    if e == 0 then Number(Pow2(-128))
    else if e == 1 then Number(Pow2(-127))
    else Number(Pow2(e - 1 - 127))
  }

  /** What the converter makes of a code and a scale byte. */
  function Unpacked(code: Code, scale: Byte): (x: Float)
  {
    Times(E2M1(code), Exp2(scale - 127))
  }

  /** What ggml makes of them. */
  function Dequantized(code: Code, scale: Byte): (x: Float)
  {
    Times(HalfScale(scale), Kvalue(code))
  }

  /** The tables side by side: ggml's entry is twice the converter's. */
  lemma TablesDouble(code: Code) returns (v: real)
    ensures code in {0, 8} ==> E2M1(code) == Zero(code == 8) && Kvalue(code) == Zero(false)
    ensures code !in {0, 8} ==>
              E2M1(code) == Number(v) && Kvalue(code) == Number(2.0 * v) && v != 0.0 && (v < 0.0 <==> code > 8)
    ensures code in {1, 9} ==> v == 0.5 || v == -0.5
    ensures code !in {0, 1, 8, 9} ==> v >= 1.0 || v <= -1.0
  {
    hide Rounded;
    assert code in {0, 1, 2, 3, 4, 5, 6, 7, 8, 9, 10, 11, 12, 13, 14, 15};
    v := if code < 8 then MAGNITUDES[code % 8] else -MAGNITUDES[code % 8];
    SmallIsExact(v, code >= 8);
    SmallIsExact(2.0 * v, 2.0 * v < 0.0);
  }

  lemma Scales(scale: Byte) returns (h: real)
    ensures h > 0.0 && HalfScale(scale) == Number(h)
    ensures scale == 255 ==> Exp2(scale - 127) == Infinity(false) && 2.0 * h == Pow2(OVERFLOW)
    ensures scale != 255 ==> Exp2(scale - 127) == Number(2.0 * h)
  {
    h := Pow2(scale - 128);
    Pow2Next(scale - 128);
    if scale != 255 {
      Pow2Grows(scale - 127, 127);
      Pow2Next(127);
    }
  }

  lemma SameProduct(v: real, h: real)
    requires v != 0.0 && h > 0.0
    ensures Times(Number(v), Number(2.0 * h)) == Times(Number(h), Number(2.0 * v))
    ensures Times(Number(h), Number(2.0 * v)) == Rounded(h * (2.0 * v), v < 0.0)
  {
    assert v * (2.0 * h) == h * (2.0 * v);
  }

  /** Under the scale byte 255 every magnitude from 1 up overflows in ggml. */
  lemma Overflows(v: real, h: real)
    requires h > 0.0 && 2.0 * h == Pow2(OVERFLOW) && (v >= 1.0 || v <= -1.0)
    ensures Rounded(h * (2.0 * v), v < 0.0) == Infinity(v < 0.0)
  {
    hide Pow2;
    if v >= 1.0 {
      Larger(v, h);
    } else {
      Larger(-v, h);
      assert h * (2.0 * v) == -(h * (2.0 * -v));
    }
  }

  lemma Larger(v: real, h: real)
    requires h > 0.0 && v >= 1.0
    ensures h * (2.0 * v) >= 2.0 * h
  {
    assert h * (2.0 * v) - 2.0 * h == 2.0 * h * (v - 1.0);
  }

  /** The two readings give the same bits except for the code of the negative zero, which ggml reads as a positive
      one, and, under the scale byte that stands for no number, the two smallest magnitudes of either sign. */
  lemma ReadingsAgree(code: Code, scale: Byte)
    ensures Unpacked(code, scale) == Dequantized(code, scale) <==> code != 8 && (scale == 255 ==> code !in {0, 1, 9})
  {
    hide E2M1, Kvalue, HalfScale, Exp2, Pow2, Rounded;
    var v := TablesDouble(code);
    var h := Scales(scale);
    if code in {0, 8} {
      ZeroTimes(code, scale, h);
    } else if scale != 255 {
      SameProduct(v, h);
    } else {
      SameProduct(v, h);
      if code in {1, 9} {
        Halves(v, h);
      } else {
        Overflows(v, h);
      }
    }
  }

  lemma Halves(v: real, h: real)
    requires h > 0.0 && 2.0 * h == Pow2(OVERFLOW) && (v == 0.5 || v == -0.5)
    ensures Rounded(h * (2.0 * v), v < 0.0).Number?
  {
    hide Pow2;
    assert h * (2.0 * v) == if v == 0.5 then h else -h;
  }

  lemma ZeroTimes(code: Code, scale: Byte, h: real)
    requires code in {0, 8} && E2M1(code) == Zero(code == 8) && Kvalue(code) == Zero(false)
             && HalfScale(scale) == Number(h)
    requires h > 0.0 && Exp2(scale - 127) == if scale == 255 then Infinity(false) else Number(2.0 * h)
    ensures Dequantized(code, scale) == Zero(false)
    ensures Unpacked(code, scale) == if scale == 255 then NotANumber else Zero(code == 8)
  {
    hide Pow2;
  }

  /** Under every scale that stands for a number they are the same number. */
  lemma ReadingsSameNumber(code: Code, scale: Byte)
    requires scale != 255
    ensures Unpacked(code, scale) == Dequantized(code, scale)
            || (Unpacked(code, scale).Zero? && Dequantized(code, scale).Zero?)
  {
    hide E2M1, Kvalue, HalfScale, Exp2;
    if code == 8 {
      var _ := TablesDouble(code);
      var _ := Scales(scale);
    } else {
      ReadingsAgree(code, scale);
    }
  }

  // ---------- The repack

  datatype RawMatrix = Matrix(rows: nat, cols: nat, data: seq<seq<Byte>>)

  predicate IsMatrix(m: RawMatrix) {
    |m.data| == m.rows && forall i :: 0 <= i < m.rows ==> |m.data[i]| == m.cols
  }

  type Matrix = m: RawMatrix | IsMatrix(m) witness Matrix(0, 0, [])

  datatype Error = BadWidth | BadScale

  const BLOCK_VALUES := 32
  const BLOCK_BYTES := 17

  /** Value v of a source row: two to a byte, the low nibble first. */
  function SourceCode(row: seq<Byte>, v: nat): (code: Code)
    requires v < |row| * 2
  {
    if v % 2 == 0 then row[v / 2] % 16 else row[v / 2] / 16
  }

  predicate RowFits(row: seq<Byte>, scales: seq<Byte>) {
    |row| == |scales| * 16
  }

  /** Byte i of the packed values of block j: the values i and 16 + i of the block. */
  function PackedByte(row: seq<Byte>, j: nat, i: nat): (b: Byte)
    requires j * 16 + 16 <= |row| && i < 16
  {
    SourceCode(row, j * 32 + i) + SourceCode(row, j * 32 + 16 + i) * 16
  }

  /** A packed row: for each block its scale byte, then its sixteen bytes of values. */
  function PackRow(row: seq<Byte>, scales: seq<Byte>): (packed: seq<Byte>)
    requires RowFits(row, scales)
    ensures |packed| == |scales| * BLOCK_BYTES
  {
    seq(|scales| * BLOCK_BYTES, p requires 0 <= p < |scales| * BLOCK_BYTES =>
      if p % BLOCK_BYTES == 0 then scales[p / BLOCK_BYTES] else PackedByte(row, p / BLOCK_BYTES, p % BLOCK_BYTES - 1))
  }

  /** The shapes both directions demand. */
  function ShapeError(weight: Matrix, scale: Matrix): (e: Result<(), Error>) {
    if weight.cols * 2 % BLOCK_VALUES != 0 then Err(BadWidth)
    else if scale.rows != weight.rows || scale.cols != weight.cols * 2 / BLOCK_VALUES then Err(BadScale)
    else Ok(())
  }

  function Pack(weight: Matrix, scale: Matrix): (r: Result<Matrix, Error>) {
    match ShapeError(weight, scale)
    case Err(e) => Err(e)
    case Ok(_) =>
      Ok(Matrix(weight.rows, scale.cols * BLOCK_BYTES,
                seq(weight.rows, i requires 0 <= i < weight.rows => PackRow(weight.data[i], scale.data[i]))))
  }

  // ---------- ggml's reading of a packed row

  /** The scale byte and the code of value v in ggml's order: low nibbles first, then high ones. */
  function PackedScale(packed: seq<Byte>, v: nat): (b: Byte)
    requires (v / 32 + 1) * BLOCK_BYTES <= |packed|
  {
    packed[v / 32 * BLOCK_BYTES]
  }

  function PackedCode(packed: seq<Byte>, v: nat): (code: Code)
    requires (v / 32 + 1) * BLOCK_BYTES <= |packed|
  {
    if v % 32 < 16 then packed[v / 32 * BLOCK_BYTES + 1 + v % 32] % 16
    else packed[v / 32 * BLOCK_BYTES + 1 + v % 32 - 16] / 16
  }

  /** Where byte i of block j goes. */
  lemma Places(packed: seq<Byte>, j: nat, i: nat)
    requires (j + 1) * BLOCK_BYTES <= |packed| && i < 16
    ensures var low, high := j * 32 + i, j * 32 + 16 + i;
            && low / 32 == j && high / 32 == j
            && PackedScale(packed, low) == PackedScale(packed, high) == packed[j * BLOCK_BYTES]
            && PackedCode(packed, low) == packed[j * BLOCK_BYTES + 1 + i] % 16
            && PackedCode(packed, high) == packed[j * BLOCK_BYTES + 1 + i] / 16
  {
    assert (j * 32 + i) / 32 == j && (j * 32 + 16 + i) / 32 == j;
    assert (j * 32 + i) % 32 == i && (j * 32 + 16 + i) % 32 == 16 + i;
  }

  function ValueAt(packed: seq<Byte>, v: nat): (x: Float)
    requires (v / 32 + 1) * BLOCK_BYTES <= |packed|
  {
    Dequantized(PackedCode(packed, v), PackedScale(packed, v))
  }

  lemma ValuesAre(packed: seq<Byte>, j: nat, i: nat)
    requires (j + 1) * BLOCK_BYTES <= |packed| && i < 16
    ensures (j * 32 + i) / 32 == j && (j * 32 + 16 + i) / 32 == j && packed[j * BLOCK_BYTES + 1 + i] / 16 < 16
    ensures ValueAt(packed, j * 32 + i)
            == Times(HalfScale(packed[j * BLOCK_BYTES]), Kvalue(packed[j * BLOCK_BYTES + 1 + i] % 16))
    ensures ValueAt(packed, j * 32 + 16 + i)
            == Times(HalfScale(packed[j * BLOCK_BYTES]), Kvalue(packed[j * BLOCK_BYTES + 1 + i] / 16))
  {
    hide Times, HalfScale, Kvalue, PackedCode, PackedScale;
    Places(packed, j, i);
  }

  /** ggml's row reader, block by block through an output array. */
  method DequantizeRow(packed: seq<Byte>, k: nat) returns (y: array<Float>)
    requires |packed| == k / 32 * BLOCK_BYTES && k % 32 == 0
    ensures y.Length == k
    ensures forall v :: 0 <= v < k ==> y[v] == ValueAt(packed, v)
  {
    hide ValueAt, HalfScale, Kvalue, Times;
    y := new Float[k];
    var ib := 0;
    while ib < k / 32
      invariant 0 <= ib <= k / 32
      invariant forall v :: 0 <= v < ib * 32 ==> y[v] == ValueAt(packed, v)
    {
      var d := HalfScale(packed[ib * BLOCK_BYTES]);
      var j := 0;
      while j < 16
        invariant 0 <= j <= 16
        invariant forall v :: 0 <= v < ib * 32 + j ==> y[v] == ValueAt(packed, v)
        invariant forall v :: ib * 32 + 16 <= v < ib * 32 + 16 + j ==> y[v] == ValueAt(packed, v)
      {
        ValuesAre(packed, ib, j);
        var b := packed[ib * BLOCK_BYTES + 1 + j];
        y[ib * 32 + j] := Times(d, Kvalue(b % 16));
        y[ib * 32 + 16 + j] := Times(d, Kvalue(b / 16));
        j := j + 1;
      }
      ib := ib + 1;
    }
  }

  /** All codes of a row, the low nibbles into the even places and the high ones into the odd. */
  method RowCodes(row: seq<Byte>) returns (vals: array<Code>)
    ensures vals.Length == |row| * 2 && forall v :: 0 <= v < |row| * 2 ==> vals[v] == SourceCode(row, v)
  {
    vals := new Code[|row| * 2];
    var i := 0;
    while i < |row|
      invariant 0 <= i <= |row|
      invariant forall v :: 0 <= v < i * 2 && v % 2 == 0 ==> vals[v] == SourceCode(row, v)
    {
      vals[i * 2] := row[i] % 16;
      i := i + 1;
    }
    i := 0;
    while i < |row|
      invariant 0 <= i <= |row|
      invariant forall v :: 0 <= v < |row| * 2 && v % 2 == 0 ==> vals[v] == SourceCode(row, v)
      invariant forall v :: 0 <= v < i * 2 ==> vals[v] == SourceCode(row, v)
    {
      vals[i * 2 + 1] := row[i] / 16;
      i := i + 1;
    }
  }

  /** The converter's direct reading of a source row: all codes into an array, then the table and the scales. */
  method UnpackRow(row: seq<Byte>, scales: seq<Byte>) returns (out: seq<Float>)
    requires RowFits(row, scales)
    ensures |out| == |row| * 2
    ensures forall v :: 0 <= v < |out| ==> out[v] == Unpacked(SourceCode(row, v), scales[v / BLOCK_VALUES])
  {
    hide SourceCode, E2M1, Exp2, Times;
    var vals := RowCodes(row);
    out := [];
    var i := 0;
    while i < vals.Length
      invariant 0 <= i <= vals.Length && |out| == i
      invariant forall v :: 0 <= v < i ==> out[v] == Unpacked(SourceCode(row, v), scales[v / BLOCK_VALUES])
    {
      var scale: int := scales[i / BLOCK_VALUES];
      out := out + [Times(E2M1(vals[i]), Exp2(scale - 127))];
      i := i + 1;
    }
  }

  /** The converter's direct reading of a matrix; it demands what the repack demands. */
  method Unpack(weight: Matrix, scale: Matrix) returns (r: Result<seq<seq<Float>>, Error>)
    ensures r.Err? <==> Pack(weight, scale).Err?
    ensures r.Err? ==> r.error == Pack(weight, scale).error
    ensures r.Ok? ==> |r.value| == weight.rows && forall i :: 0 <= i < weight.rows ==>
              |r.value[i]| == weight.cols * 2 && forall v :: 0 <= v < weight.cols * 2 ==>
                r.value[i][v] == Unpacked(SourceCode(weight.data[i], v), scale.data[i][v / BLOCK_VALUES])
  {
    var e := ShapeError(weight, scale);
    if e.Err? {
      return Err(e.error);
    }
    var rows: seq<seq<Float>> := [];
    var i := 0;
    while i < weight.rows
      invariant 0 <= i <= weight.rows && |rows| == i
      invariant forall k :: 0 <= k < i ==>
                  |rows[k]| == weight.cols * 2 && forall v :: 0 <= v < weight.cols * 2 ==>
                    rows[k][v] == Unpacked(SourceCode(weight.data[k], v), scale.data[k][v / BLOCK_VALUES])
    {
      var out := UnpackRow(weight.data[i], scale.data[i]);
      rows := rows + [out];
      i := i + 1;
    }
    r := Ok(rows);
  }

  // ---------- The repack keeps every value

  lemma NibblesPart(lo: Code, hi: Code)
    ensures (lo + hi * 16) % 16 == lo && (lo + hi * 16) / 16 == hi
  {
  }

  lemma PackRowAt(row: seq<Byte>, scales: seq<Byte>, j: nat, i: nat)
    requires RowFits(row, scales) && j < |scales| && i < 16
    ensures PackRow(row, scales)[j * BLOCK_BYTES] == scales[j]
    ensures PackRow(row, scales)[j * BLOCK_BYTES + 1 + i] == PackedByte(row, j, i)
  {
    hide PackedByte;
    var p := j * BLOCK_BYTES + 1 + i;
    assert j * BLOCK_BYTES % BLOCK_BYTES == 0 && j * BLOCK_BYTES / BLOCK_BYTES == j;
    assert p / BLOCK_BYTES == j && p % BLOCK_BYTES == 1 + i;
  }

  lemma BlockKeepsCodes(row: seq<Byte>, scales: seq<Byte>, j: nat, i: nat)
    requires RowFits(row, scales) && j < |scales| && i < 16
    ensures var packed, low, high := PackRow(row, scales), j * 32 + i, j * 32 + 16 + i;
            && low / 32 == j && high / 32 == j
            && PackedCode(packed, low) == SourceCode(row, low) && PackedScale(packed, low) == scales[j]
            && PackedCode(packed, high) == SourceCode(row, high) && PackedScale(packed, high) == scales[j]
  {
    hide PackRow, SourceCode, PackedCode, PackedScale;
    var packed := PackRow(row, scales);
    Places(packed, j, i);
    PackRowAt(row, scales, j, i);
    NibblesPart(SourceCode(row, j * 32 + i), SourceCode(row, j * 32 + 16 + i));
  }

  /** ggml's reading of a packed row finds, value by value, the code and the scale byte of the source. */
  lemma RepackKeepsCodes(row: seq<Byte>, scales: seq<Byte>, v: nat)
    requires RowFits(row, scales) && v < |row| * 2
    ensures (v / 32 + 1) * BLOCK_BYTES <= |PackRow(row, scales)|
    ensures PackedCode(PackRow(row, scales), v) == SourceCode(row, v)
    ensures PackedScale(PackRow(row, scales), v) == scales[v / 32]
  {
    hide PackRow, SourceCode, PackedCode, PackedScale;
    var j, i := v / 32, v % 32;
    if i < 16 {
      BlockKeepsCodes(row, scales, j, i);
      assert v == j * 32 + i;
    } else {
      BlockKeepsCodes(row, scales, j, i - 16);
      assert v == j * 32 + 16 + (i - 16);
    }
  }

  /** So repacking and letting ggml read gives what the direct dequantization gives, except where the two readings of
      one value differ. */
  lemma RepackAgrees(row: seq<Byte>, scales: seq<Byte>, v: nat)
    requires RowFits(row, scales) && v < |row| * 2
    ensures (v / 32 + 1) * BLOCK_BYTES <= |PackRow(row, scales)|
    ensures var packed := PackRow(row, scales);
            var read, direct := ValueAt(packed, v), Unpacked(SourceCode(row, v), scales[v / 32]);
            && (read == direct <==>
                SourceCode(row, v) != 8 && (scales[v / 32] == 255 ==> SourceCode(row, v) !in {0, 1, 9}))
            && (scales[v / 32] != 255 ==> read == direct || (read.Zero? && direct.Zero?))
  {
    hide Dequantized, Unpacked;
    RepackKeepsCodes(row, scales, v);
    ReadingsAgree(SourceCode(row, v), scales[v / 32]);
    if scales[v / 32] != 255 {
      ReadingsSameNumber(SourceCode(row, v), scales[v / 32]);
    }
  }

  lemma ByteFromNibbles(a: Byte, b: Byte)
    requires a % 16 == b % 16 && a / 16 == b / 16
    ensures a == b
  {
  }

  lemma SameByte(r1: seq<Byte>, r2: seq<Byte>, i: nat)
    requires i < |r1| && i < |r2|
    requires SourceCode(r1, i * 2) == SourceCode(r2, i * 2) && SourceCode(r1, i * 2 + 1) == SourceCode(r2, i * 2 + 1)
    ensures r1[i] == r2[i]
  {
    assert i * 2 % 2 == 0 && (i * 2 + 1) % 2 == 1 && i * 2 / 2 == i && (i * 2 + 1) / 2 == i;
    ByteFromNibbles(r1[i], r2[i]);
  }

  lemma RowInjective(r1: seq<Byte>, s1: seq<Byte>, r2: seq<Byte>, s2: seq<Byte>)
    requires RowFits(r1, s1) && RowFits(r2, s2) && PackRow(r1, s1) == PackRow(r2, s2)
    ensures r1 == r2 && s1 == s2
  {
    hide PackRow, SourceCode, PackedCode, PackedScale;
    assert |s1| == |s2|;
    forall j | 0 <= j < |s1| ensures s1[j] == s2[j] {
      RepackKeepsCodes(r1, s1, j * 32);
      RepackKeepsCodes(r2, s2, j * 32);
    }
    forall i | 0 <= i < |r1| ensures r1[i] == r2[i] {
      RepackKeepsCodes(r1, s1, i * 2);
      RepackKeepsCodes(r2, s2, i * 2);
      RepackKeepsCodes(r1, s1, i * 2 + 1);
      RepackKeepsCodes(r2, s2, i * 2 + 1);
      SameByte(r1, r2, i);
    }
  }

  /** The repack loses nothing: different weights or scales of one shape give different blocks. */
  lemma PackInjective(w1: Matrix, s1: Matrix, w2: Matrix, s2: Matrix)
    requires Pack(w1, s1).Ok? && Pack(w1, s1) == Pack(w2, s2)
    ensures w1 == w2 && s1 == s2
  {
    assert s1.cols == s2.cols && w1.rows == w2.rows && w1.cols == w2.cols && s1.rows == s2.rows;
    forall i | 0 <= i < w1.rows ensures w1.data[i] == w2.data[i] && s1.data[i] == s2.data[i] {
      assert Pack(w1, s1).value.data[i] == Pack(w2, s2).value.data[i];
      RowInjective(w1.data[i], s1.data[i], w2.data[i], s2.data[i]);
    }
  }
}
