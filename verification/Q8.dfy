/** The Q8_0 quantizer of convert_qwen4exp.py over the reals, and the table it streams to a file shard by shard. */
module Q8 {
  import opened Bytes
  import opened Wrappers
  import opened Sequences

  const QK8_0 := 32
  const BLOCK_BYTES := 34

  // ---------- One block

  function Abs(x: real): (r: real)
    ensures r >= 0.0 && r >= x && r >= -x && (r == x || r == -x)
  {
    if x < 0.0 then -x else x
  }

  /** The largest magnitude. */
  function Amax(b: seq<real>): (m: real)
    ensures m >= 0.0
    ensures forall i :: 0 <= i < |b| ==> Abs(b[i]) <= m
    ensures b != [] ==> exists i :: 0 <= i < |b| && Abs(b[i]) == m
  {
    if b == [] then 0.0 else
    var n := |b| - 1;
    var m := Amax(b[..n]);
    assert forall i :: 0 <= i < n ==> b[..n][i] == b[i];
    if Abs(b[n]) >= m then Abs(b[n]) else m
  }

  /** The nearest integer, halves to the even one. */
  function Rint(x: real): (n: int)
    ensures -0.5 <= n as real - x <= 0.5
    ensures (n as real - x == 0.5 || n as real - x == -0.5) ==> n % 2 == 0
  {
    var f := x.Floor;
    var rest := x - f as real;
    if rest < 0.5 then f else if rest > 0.5 then f + 1 else if f % 2 == 0 then f else f + 1
  }

  /** The step of a block. */
  function StepOf(b: seq<real>): (d: real)
    ensures d >= 0.0 && Amax(b) == d * 127.0
  {
    Amax(b) / 127.0
  }

  function Inverse(d: real): (r: real) {
    if d > 0.0 then 1.0 / d else 0.0
  }

  /** The code of one element, with the reciprocal of the step, or 0 for a block of zeros. */
  function CodeOf(x: real, d: real): (q: int) {
    Rint(x * Inverse(d))
  }

  /** What a code stands for. */
  function Value(q: int, d: real): (x: real) {
    q as real * d
  }

  function Codes(b: seq<real>): (q: seq<int>)
    ensures |q| == |b| && forall i :: 0 <= i < |b| ==> q[i] == CodeOf(b[i], StepOf(b))
  {
    seq(|b|, i requires 0 <= i < |b| => CodeOf(b[i], StepOf(b)))
  }

  /** The element in steps. */
  lemma Scaled(x: real, d: real) returns (y: real)
    requires d > 0.0
    ensures y * d == x && CodeOf(x, d) == Rint(y)
  {
    hide Inverse, Rint;
    InverseIs(d);
    y := x * Inverse(d);
    Associate(x, Inverse(d), d);
  }

  lemma InverseIs(d: real)
    requires d > 0.0
    ensures Inverse(d) * d == 1.0
  {
  }

  lemma Associate(x: real, r: real, d: real)
    ensures x * r * d == x * (r * d)
  {
  }

  /** Times a positive step keeps the order, both ways. */
  lemma Ordered(y: real, z: real, d: real)
    requires d > 0.0
    ensures y * d <= z * d <==> y <= z
  {
    if y <= z {
      assert (z - y) * d >= 0.0;
    } else {
      assert (y - z) * d > 0.0;
    }
  }

  lemma WithinSteps(x: real, y: real, d: real)
    requires d > 0.0 && y * d == x && Abs(x) <= 127.0 * d
    ensures -127.0 <= y <= 127.0
  {
    Ordered(y, 127.0, d);
    Ordered(-127.0, y, d);
  }

  lemma RintNear(y: real)
    requires -127.0 <= y <= 127.0
    ensures -127 <= Rint(y) <= 127
  {
  }

  /** One element: its code fits in a signed byte, and what the code stands for is within half a step. */
  lemma CodeNear(x: real, d: real)
    requires d >= 0.0 && Abs(x) <= 127.0 * d
    ensures -127 <= CodeOf(x, d) <= 127 && Abs(Value(CodeOf(x, d), d) - x) <= d / 2.0
  {
    if d > 0.0 {
      hide Rint, CodeOf, Value;
      var y := Scaled(x, d);
      WithinSteps(x, y, d);
      RintNear(y);
      HalfStep(Rint(y), x, y, d);
    } else {
      assert x == 0.0;
      ZeroCode(x, d);
    }
  }

  lemma Monotone(a: real, b: real, d: real)
    requires a <= b && d >= 0.0
    ensures a * d <= b * d
  {
    assert (b - a) * d >= 0.0;
  }

  lemma Near(r: real, y: real, d: real)
    requires d > 0.0 && -0.5 <= r - y <= 0.5
    ensures y * d - d / 2.0 <= r * d <= y * d + d / 2.0
  {
    var low, high := y - 0.5, y + 0.5;
    Monotone(r, high, d);
    Monotone(low, r, d);
    assert low * d == y * d - d / 2.0 && high * d == y * d + d / 2.0;
  }

  lemma HalfStep(q: int, x: real, y: real, d: real)
    requires d > 0.0 && y * d == x && -0.5 <= q as real - y <= 0.5
    ensures Abs(Value(q, d) - x) <= d / 2.0
  {
    var v, low, high := Value(q, d), x - d / 2.0, x + d / 2.0;
    assert low <= v <= high by { Near(q as real, y, d); }
    Within(v, x, d / 2.0);
  }

  lemma Within(v: real, x: real, e: real)
    requires x - e <= v <= x + e
    ensures Abs(v - x) <= e
  {
  }

  lemma RintWhole(n: int, y: real)
    requires y == n as real
    ensures Rint(y) == n
  {
  }

  /** The code of a whole number of steps is that number. */
  lemma CodeExact(n: int, d: real)
    requires d > 0.0
    ensures CodeOf(Value(n, d), d) == n
  {
    hide Rint, CodeOf;
    var y := Scaled(Value(n, d), d);
    Ordered(y, n as real, d);
    Ordered(n as real, y, d);
    RintWhole(n, y);
  }

  /** Every code fits in a signed byte, and what it stands for is within half a step of the element. */
  lemma CodeIsNear(b: seq<real>, i: nat)
    requires i < |b|
    ensures -127 <= Codes(b)[i] <= 127
    ensures Abs(Value(Codes(b)[i], StepOf(b)) - b[i]) <= StepOf(b) / 2.0
  {
    hide CodeOf, Amax, Value;
    CodeNear(b[i], StepOf(b));
  }

  /** The element of largest magnitude gets the code 127 or -127. */
  lemma LargestIsExact(b: seq<real>, i: nat)
    requires i < |b| && Abs(b[i]) == Amax(b) && StepOf(b) > 0.0
    ensures Codes(b)[i] == if b[i] > 0.0 then 127 else -127
  {
    hide CodeOf, Amax;
    if b[i] > 0.0 {
      CodeExact(127, StepOf(b));
    } else {
      CodeExact(-127, StepOf(b));
    }
  }

  function Dequantized(q: seq<int>, d: real): (b: seq<real>)
    ensures |b| == |q| && forall i :: 0 <= i < |q| ==> b[i] == Value(q[i], d)
  {
    seq(|q|, i requires 0 <= i < |q| => Value(q[i], d))
  }

  /** Quantizing what a block stands for gives the block again. */
  lemma Requantized(b: seq<real>)
    requires b != []
    ensures StepOf(Dequantized(Codes(b), StepOf(b))) == StepOf(b) && Codes(Dequantized(Codes(b), StepOf(b))) == Codes(b)
  {
    hide CodeOf, Amax, StepOf, Value;
    var d := StepOf(b);
    var c := Dequantized(Codes(b), d);
    RequantizedStep(b, c);
    forall i | 0 <= i < |b| ensures Codes(c)[i] == Codes(b)[i] {
      if d > 0.0 {
        CodeExact(Codes(b)[i], d);
      } else {
        ZeroCode(b[i], d);
        ZeroCode(c[i], d);
      }
    }
  }

  lemma ZeroCode(x: real, d: real)
    requires d == 0.0
    ensures CodeOf(x, d) == 0
  {
    RintWhole(0, x * 0.0);
  }

  lemma RequantizedStep(b: seq<real>, c: seq<real>)
    requires b != [] && c == Dequantized(Codes(b), StepOf(b))
    ensures StepOf(c) == StepOf(b)
  {
    hide CodeOf, Amax, Rint, Value;
    var d := StepOf(b);
    var i :| 0 <= i < |b| && Abs(b[i]) == Amax(b);
    if d > 0.0 {
      LargestIsExact(b, i);
      FullStep(d);
    } else {
      CodeIsNear(b, i);
      Steps(Codes(b)[i], d);
    }
    assert Abs(c[i]) == 127.0 * d;
    forall k | 0 <= k < |c| ensures Abs(c[k]) <= 127.0 * d {
      CodeIsNear(b, k);
      Steps(Codes(b)[k], d);
    }
    LargestIs(c, 127.0 * d, i);
  }

  lemma FullStep(d: real)
    requires d >= 0.0
    ensures Abs(Value(127, d)) == Abs(Value(-127, d)) == 127.0 * d
  {
  }

  lemma Steps(q: int, d: real)
    requires -127 <= q <= 127 && d >= 0.0
    ensures Abs(Value(q, d)) <= 127.0 * d
  {
    if d > 0.0 {
      Ordered(q as real, 127.0, d);
      Ordered(-127.0, q as real, d);
    }
  }

  lemma LargestIs(b: seq<real>, m: real, i: nat)
    requires i < |b| && Abs(b[i]) == m && forall k :: 0 <= k < |b| ==> Abs(b[k]) <= m
    ensures Amax(b) == m
  {
  }

  // ---------- Blocks as bytes

  /** A signed byte, stored. */
  function Stored(q: int): (b: Byte) {
    q % 256
  }

  function Signed(x: Byte): (n: int) {
    if x < 128 then x else x - 256
  }

  lemma StoredSigned(q: int)
    requires -128 <= q <= 127
    ensures Signed(Stored(q)) == q
  {
  }

  /** How a step is stored in two bytes; the rounding to half precision is left open. */
  type Half = real -> (Byte, Byte)

  function BlockBytes(b: seq<real>, half: Half): (r: seq<Byte>)
    requires |b| == QK8_0
    ensures |r| == BLOCK_BYTES
  {
    var d := StepOf(b);
    [half(d).0, half(d).1] + seq(QK8_0, i requires 0 <= i < QK8_0 => Stored(CodeOf(b[i], d)))
  }

  function Encoded(x: seq<real>, half: Half): (r: seq<Byte>)
    requires |x| % QK8_0 == 0
    ensures |r| == |x| / QK8_0 * BLOCK_BYTES
  {
    if x == [] then [] else BlockBytes(x[..QK8_0], half) + Encoded(x[QK8_0..], half)
  }

  lemma {:induction false} EncodedAppend(x: seq<real>, y: seq<real>, half: Half)
    requires |x| % QK8_0 == 0 && |y| % QK8_0 == 0
    ensures Encoded(x + y, half) == Encoded(x, half) + Encoded(y, half)
  {
    hide BlockBytes;
    if x == [] {
      assert x + y == y;
    } else {
      assert (x + y)[..QK8_0] == x[..QK8_0] && (x + y)[QK8_0..] == x[QK8_0..] + y;
      EncodedAppend(x[QK8_0..], y, half);
    }
  }

  lemma BehindFirst<T>(a: seq<T>, b: seq<T>, k: nat, size: nat)
    requires k + size <= |b|
    ensures (a + b)[|a| + k..|a| + k + size] == b[k..k + size]
  {
  }

  /** Block j of the bytes is block j of the elements. */
  lemma {:induction false} EncodedBlock(x: seq<real>, half: Half, j: nat)
    requires |x| % QK8_0 == 0 && j < |x| / QK8_0
    ensures j * 34 + 34 <= |Encoded(x, half)| && j * 32 + 32 <= |x|
    ensures Encoded(x, half)[j * 34..j * 34 + 34] == BlockBytes(x[j * 32..j * 32 + 32], half)
  {
    hide BlockBytes;
    if j > 0 {
      var first, rest := x[..QK8_0], x[QK8_0..];
      EncodedBlock(rest, half, j - 1);
      assert x == first + rest;
      BehindFirst(first, rest, (j - 1) * 32, 32);
      BehindFirst(BlockBytes(first, half), Encoded(rest, half), (j - 1) * 34, 34);
    }
  }

  lemma CodeStored(b: seq<real>, half: Half, i: nat)
    requires |b| == QK8_0 && i < QK8_0
    ensures Signed(BlockBytes(b, half)[2 + i]) == Codes(b)[i]
  {
    hide CodeOf, StepOf, Value;
    CodeIsNear(b, i);
    StoredSigned(Codes(b)[i]);
  }

  lemma StepError(q: int, s: real, d: real)
    requires -127 <= q <= 127
    ensures Abs(Value(q, s) - Value(q, d)) <= 127.0 * Abs(s - d)
  {
    var e := s - d;
    assert Value(q, s) - Value(q, d) == Value(q, e);
    if e >= 0.0 {
      Steps(q, e);
    } else {
      Steps(q, -e);
      assert Value(q, -e) == -Value(q, e);
    }
  }

  /** A reader that takes the two bytes for the step s is off, at each element, by at most half the exact step and
      127 times the error of s. */
  lemma ReadIsNear(b: seq<real>, half: Half, s: real, i: nat)
    requires |b| == QK8_0 && i < QK8_0
    ensures Abs(Value(Signed(BlockBytes(b, half)[2 + i]), s) - b[i]) <= StepOf(b) / 2.0 + 127.0 * Abs(s - StepOf(b))
  {
    hide CodeOf, StepOf, Value, BlockBytes;
    CodeStored(b, half, i);
    CodeIsNear(b, i);
    StepError(Codes(b)[i], s, StepOf(b));
  }

  // ---------- The quantizer and the stream

  datatype Error = BadShape | WrongCount

  lemma NoBlock(x: seq<real>, half: Half)
    ensures Encoded(x[..0], half) == []
  {
  }

  lemma NextBlock(x: seq<real>, half: Half, i: nat)
    requires |x| % QK8_0 == 0 && i * 32 + 32 <= |x|
    ensures Encoded(x[..i * 32 + 32], half) == Encoded(x[..i * 32], half) + BlockBytes(x[i * 32..i * 32 + 32], half)
  {
    hide BlockBytes;
    var a, b := x[..i * 32], x[i * 32..i * 32 + 32];
    EncodedAppend(a, b, half);
    assert x[..i * 32 + 32] == a + b;
    assert b[..QK8_0] == b && b[QK8_0..] == [];
    assert Encoded(b, half) == BlockBytes(b, half) + [];
  }

  method Quantize(x: seq<real>, half: Half) returns (r: Result<seq<Byte>, Error>)
    ensures r.Ok? <==> |x| % QK8_0 == 0
    ensures r.Ok? ==> r.value == Encoded(x, half)
  {
    if |x| % QK8_0 != 0 {
      return Err(BadShape);
    }
    hide Encoded, BlockBytes;
    var n := |x| / QK8_0;
    var out := new Byte[n * BLOCK_BYTES];
    var i := 0;
    NoBlock(x, half);
    while i < n
      invariant 0 <= i <= n
      invariant out[..i * 34] == Encoded(x[..i * 32], half)
    {
      var b := x[i * 32..i * 32 + 32];
      WriteBlock(out, i, b, half);
      NextBlock(x, half, i);
      i := i + 1;
    }
    assert x[..i * 32] == x && out[..i * 34] == out[..];
    r := Ok(out[..]);
  }

  method WriteBlock(out: array<Byte>, i: nat, b: seq<real>, half: Half)
    requires i * 34 + 34 <= out.Length && |b| == QK8_0
    modifies out
    ensures out[..i * 34 + 34] == old(out[..i * 34]) + BlockBytes(b, half)
  {
    hide CodeOf, StepOf;
    var d := StepOf(b);
    out[i * 34], out[i * 34 + 1] := half(d).0, half(d).1;
    var k := 0;
    while k < QK8_0
      invariant 0 <= k <= QK8_0
      invariant out[..i * 34] == old(out[..i * 34])
      invariant out[i * 34..i * 34 + 2 + k] == BlockBytes(b, half)[..2 + k]
    {
      out[i * 34 + 2 + k] := Stored(CodeOf(b[k], d));
      k := k + 1;
    }
    assert out[..i * 34 + 34] == out[..i * 34] + out[i * 34..i * 34 + 34];
  }

  class File {
    var content: seq<Byte>

    constructor ()
      ensures content == []
    {
      content := [];
    }

    method Append(bytes: seq<Byte>)
      modifies this
      ensures content == old(content) + bytes
    {
      content := content + bytes;
    }
  }

  predicate WholeBlocks(shards: seq<seq<real>>) {
    forall i :: 0 <= i < |shards| ==> |shards[i]| % QK8_0 == 0
  }

  lemma WholeSum(m: nat, n: nat)
    requires m % QK8_0 == 0 && n % QK8_0 == 0
    ensures (m + n) % QK8_0 == 0
  {
    var k := m / QK8_0 + n / QK8_0;
    assert m + n == k * QK8_0;
  }

  lemma {:induction false} WholeTable(shards: seq<seq<real>>)
    requires WholeBlocks(shards)
    ensures |Flatten(shards)| % QK8_0 == 0
  {
    if shards != [] {
      WholeTable(shards[1..]);
      WholeSum(|shards[0]|, |Flatten(shards[1..])|);
    }
  }

  /** One more shard. */
  lemma NextShard(shards: seq<seq<real>>, i: nat, half: Half)
    requires i < |shards| && WholeBlocks(shards)
    ensures |Flatten(shards[..i])| % QK8_0 == 0 && |Flatten(shards[..i + 1])| % QK8_0 == 0
    ensures Flatten(shards[..i + 1]) == Flatten(shards[..i]) + shards[i]
    ensures Encoded(Flatten(shards[..i + 1]), half) == Encoded(Flatten(shards[..i]), half) + Encoded(shards[i], half)
  {
    WholeTable(shards[..i]);
    WholeTable(shards[..i + 1]);
    FlattenAppend(shards[..i], [shards[i]]);
    assert shards[..i + 1] == shards[..i] + [shards[i]] && [shards[i]][1..] == [];
    assert Flatten([shards[i]]) == shards[i];
    EncodedAppend(Flatten(shards[..i]), shards[i], half);
  }

  /** The byte count that the header declares for a table. */
  function DeclaredBytes(rows: nat, rowLen: nat): (n: nat) {
    rows * rowLen / QK8_0 * BLOCK_BYTES
  }

  class ShardStreamQ8 {
    const shards: seq<seq<real>>
    const nbytes: nat
    const half: Half

    constructor (shards: seq<seq<real>>, nbytes: nat, half: Half)
      ensures this.shards == shards && this.nbytes == nbytes && this.half == half
    {
      this.shards, this.nbytes, this.half := shards, nbytes, half;
    }

    method ToFile(fout: File) returns (r: Result<nat, Error>)
      modifies fout
      ensures WholeBlocks(shards)
              ==> |Flatten(shards)| % QK8_0 == 0 && fout.content == old(fout.content) + Encoded(Flatten(shards), half)
      ensures r.Ok? <==> WholeBlocks(shards) && |Flatten(shards)| / QK8_0 * BLOCK_BYTES == nbytes
      ensures r.Ok? ==> r.value == nbytes == |fout.content| - |old(fout.content)|
    {
      hide Encoded, Flatten;
      var written := 0;
      var i := 0;
      NoShards(half, shards);
      while i < |shards|
        invariant 0 <= i <= |shards| && WholeBlocks(shards[..i]) && |Flatten(shards[..i])| % QK8_0 == 0
        invariant fout.content == old(fout.content) + Encoded(Flatten(shards[..i]), half)
        invariant written == |Flatten(shards[..i])| / QK8_0 * BLOCK_BYTES
      {
        var blocks := Quantize(shards[i], half);
        if blocks.Err? {
          return Err(BadShape);
        }
        var done := shards[..i + 1];
        assert done[..i] == shards[..i] && done[..i + 1] == done;
        NextShard(done, i, half);
        fout.Append(blocks.value);
        written := written + |blocks.value|;
        i := i + 1;
      }
      assert shards[..i] == shards;
      if written != nbytes {
        return Err(WrongCount);
      }
      r := Ok(written);
    }
  }

  lemma NoShards(half: Half, shards: seq<seq<real>>)
    ensures Flatten(shards[..0]) == [] && Encoded([], half) == []
  {
  }

  /** With whole blocks in every row and in every shard, the count that was declared is written exactly when the
      shards hold as many elements as the table. */
  lemma CountIsDeclared(shards: seq<seq<real>>, rows: nat, rowLen: nat)
    requires WholeBlocks(shards) && rowLen % QK8_0 == 0
    ensures |Flatten(shards)| / QK8_0 * BLOCK_BYTES == DeclaredBytes(rows, rowLen)
            <==> |Flatten(shards)| == rows * rowLen
  {
    WholeTable(shards);
    RowsOfBlocks(rows, rowLen);
  }

  lemma RowsOfBlocks(rows: nat, rowLen: nat)
    requires rowLen % QK8_0 == 0
    ensures rows * rowLen % QK8_0 == 0
  {
    var k := rowLen / QK8_0;
    assert rows * rowLen == rows * k * QK8_0;
  }
}
