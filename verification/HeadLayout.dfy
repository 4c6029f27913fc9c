/** LlamaModel.permute of convert_hf_to_gguf.py: the rows of every attention head, interleaved. */
module HeadLayout {
  import opened Arithmetic
  import opened Tensors
  import opened Loras
  import opened Sums

  datatype Count = Absent | Given(n: nat)

  /** The head count that is used: the key-value one when it is given and differs. */
  function HeadCount(nHead: nat, nHeadKv: Count): (h: nat) {
    if nHeadKv.Given? && nHead != nHeadKv.n then nHeadKv.n else nHead
  }

  /** Whether the rows split into h heads of two halves of m rows. */
  predicate Splits(shape: Shape, h: nat, m: nat) {
    shape != [] && shape[0] == h * 2 * m
  }

  /** The shape of the first reshape. */
  function SplitShape(shape: Shape, h: nat, m: nat): (r: Shape)
    requires shape != []
  {
    [h] + ([2] + ([m] + shape[1..]))
  }

  lemma {:induction false} OffsetPrepend(n: nat, tail: Shape, i: nat, idx: Index)
    requires i < n && InBounds(tail, idx)
    ensures InBounds([n] + tail, [i] + idx)
    ensures Offset([n] + tail, [i] + idx) == i * Prod(tail) + Offset(tail, idx)
  {
    PrependInBounds(n, tail, i, idx);
    if tail == [] {
      assert ([n] + tail)[..0] == [] && ([i] + idx)[..0] == [];
    } else {
      var d := |tail| - 1;
      var tail', idx' := tail[..d], idx[..d];
      OffsetPrepend(n, tail', i, idx');
      assert ([n] + tail)[..d + 1] == [n] + tail' && ([i] + idx)[..d + 1] == [i] + idx';
      assert ([n] + tail)[d + 1] == tail[d] && ([i] + idx)[d + 1] == idx[d];
      calc {
        Offset([n] + tail, [i] + idx);
        Offset([n] + tail', [i] + idx') * tail[d] + idx[d];
        (i * Prod(tail') + Offset(tail', idx')) * tail[d] + idx[d];
        { Distribute(i, Prod(tail'), Offset(tail', idx'), tail[d]); }
        i * (Prod(tail') * tail[d]) + Offset(tail', idx') * tail[d] + idx[d];
        i * Prod(tail) + Offset(tail, idx);
      }
    }
  }

  lemma Distribute(i: nat, p: nat, o: nat, n: nat)
    ensures (i * p + o) * n == i * (p * n) + o * n
  {
  }

  lemma {:induction false} ProdPrepend(n: nat, tail: Shape)
    ensures Prod([n] + tail) == n * Prod(tail)
  {
    if tail == [] {
      assert ([n] + tail)[..0] == [];
    } else {
      var d := |tail| - 1;
      assert ([n] + tail)[..d + 1] == [n] + tail[..d];
      ProdPrepend(n, tail[..d]);
      assert n * Prod(tail[..d]) * tail[d] == n * (Prod(tail[..d]) * tail[d]);
    }
  }

  /** Four factors and an offset, grouped. */
  lemma OffsetThree(x: nat, y: nat, z: nat, tail: Shape, a: nat, b: nat, c: nat, idx: Index)
    requires a < x && b < y && c < z && InBounds(tail, idx)
    ensures InBounds([x] + ([y] + ([z] + tail)), [a] + ([b] + ([c] + idx)))
    ensures Offset([x] + ([y] + ([z] + tail)), [a] + ([b] + ([c] + idx)))
            == ((a * y + b) * z + c) * Prod(tail) + Offset(tail, idx)
  {
    hide Offset, Prod;
    OffsetPrepend(z, tail, c, idx);
    OffsetPrepend(y, [z] + tail, b, [c] + idx);
    OffsetPrepend(x, [y] + ([z] + tail), a, [b] + ([c] + idx));
    ProdPrepend(z, tail);
    ProdPrepend(y, [z] + tail);
    Factor(a, y, b, z, c, Prod(tail));
  }

  lemma Factor(a: nat, y: nat, b: nat, z: nat, c: nat, p: nat)
    ensures a * (y * (z * p)) + (b * (z * p) + c * p) == ((a * y + b) * z + c) * p
  {
    var w := a * y + b;
    assert a * (y * (z * p)) == (a * y) * (z * p);
    assert (a * y) * (z * p) + b * (z * p) == w * (z * p);
    assert w * (z * p) == (w * z) * p;
    assert (w * z) * p + c * p == (w * z + c) * p;
  }

  lemma SplitProd(shape: Shape, h: nat, m: nat)
    requires Splits(shape, h, m)
    ensures Prod(SplitShape(shape, h, m)) == Prod(shape)
  {
    hide Prod;
    var tail := shape[1..];
    ProdPrepend(m, tail);
    ProdPrepend(2, [m] + tail);
    ProdPrepend(h, [2] + ([m] + tail));
    ProdPrepend(shape[0], tail);
    assert shape == [shape[0]] + tail;
    assert h * (2 * (m * Prod(tail))) == (h * 2 * m) * Prod(tail);
  }

  /** Axes 1 and 2 exchanged. */
  function Swap12(n: nat): (axes: seq<nat>)
    requires n >= 3
    ensures AreAxes(SwappedAxes(n, 1, 2), n) && axes == AxesOf(SwappedAxes(n, 1, 2), n) && IsPermutation(axes)
    ensures |axes| == n && forall i :: 0 <= i < n ==> axes[i] == if i == 1 then 2 else if i == 2 then 1 else i
  {
    SwapIsPermutation(n, 1, 2);
    AxesOf(SwappedAxes(n, 1, 2), n)
  }

  /** The tensor with every head's rows interleaved: reshape, swap the halves with the rows, reshape back. */
  function PermuteHeads(t: Tensor, h: nat, m: nat): (r: Tensor)
    requires Splits(t.shape, h, m)
    ensures r.shape == t.shape
  {
    Reshape(SplitSwapped(t, h, m), t.shape)
  }

  lemma SwappedProd(shape: Shape, h: nat, m: nat)
    requires Splits(shape, h, m)
    ensures PermutedShape(SplitShape(shape, h, m), Swap12(|shape| + 2)) == [h] + ([m] + ([2] + shape[1..]))
    ensures Prod([h] + ([m] + ([2] + shape[1..]))) == Prod(shape)
  {
    hide Prod, PermutedShape;
    var tail := shape[1..];
    SwappedShape(h, 2, m, tail);
    ProdPrepend(2, tail);
    ProdPrepend(m, [2] + tail);
    ProdPrepend(h, [m] + ([2] + tail));
    ProdPrepend(shape[0], tail);
    assert shape == [shape[0]] + tail;
    Reassociate(h, m, Prod(tail));
  }

  lemma Reassociate(h: nat, m: nat, p: nat)
    ensures h * (m * (2 * p)) == h * 2 * m * p
  {
    assert m * (2 * p) == 2 * m * p;
    assert h * (2 * m * p) == h * (2 * m) * p;
  }

  lemma SwappedShape(x: nat, y: nat, z: nat, tail: Shape)
    ensures PermutedShape([x] + ([y] + ([z] + tail)), Swap12(|tail| + 3)) == [x] + ([z] + ([y] + tail))
  {
    hide IsPermutation;
    var s := [x] + ([y] + ([z] + tail));
    var p, q := PermutedShape(s, Swap12(|tail| + 3)), [x] + ([z] + ([y] + tail));
    forall i | 0 <= i < |p| ensures p[i] == q[i] {
      assert p[i] == s[Swap12(|tail| + 3)[i]];
    }
  }

  /** The row that row r of the result comes from: in head r / 2m, the half r mod 2, the place (r mod 2m) / 2. */
  function SourceRow(m: nat, r: nat): (n: nat)
    requires m > 0
  {
    NonNegative(r / (2 * m), 2 * m);
    NonNegative(r % 2, m);
    r / (2 * m) * (2 * m) + r % 2 * m + r % (2 * m) / 2
  }

  lemma MulTwo(a: nat, m: nat)
    ensures a * (2 * m) == a * m * 2 == a * 2 * m
  {
  }

  lemma RowParts(h: nat, m: nat, r: nat)
    requires r < h * 2 * m
    ensures m > 0 && r / (2 * m) < h && r % (2 * m) / 2 < m && r % 2 < 2
    ensures r == (r / (2 * m) * m + r % (2 * m) / 2) * 2 + r % 2
    ensures SourceRow(m, r) == (r / (2 * m) * 2 + r % 2) * m + r % (2 * m) / 2 && SourceRow(m, r) < h * 2 * m
  {
    hide SourceRow;
    MulTwo(h, m);
    DivBound(r, h, 2 * m);
    var a, q := r / (2 * m), r % (2 * m);
    HalfBound(q, m);
    PartsOf(h, m, r, a, q % 2, q / 2);
    SourceRowIs(m, r, a, q);
    Sum2(a, r % 2, m, q / 2);
  }

  lemma SourceRowIs(m: nat, r: nat, a: nat, q: nat)
    requires m > 0 && a == r / (2 * m) && q == r % (2 * m)
    ensures SourceRow(m, r) == a * (2 * m) + r % 2 * m + q / 2
  {
  }

  lemma PartsOf(h: nat, m: nat, r: nat, a: nat, b: nat, c: nat)
    requires a < h && b < 2 && c < m && r == a * (2 * m) + (c * 2 + b)
    ensures r % 2 == b && r == (a * m + c) * 2 + b && a * (2 * m) + b * m + c < h * 2 * m
  {
    MulTwo(a, m);
    MulTwo(h, m);
    DivModUnique(a * m + c, 2, b);
    MulBounds(b, 2, c, m);
    MulBounds(a, h, b * m + c, 2 * m);
  }

  lemma HalfBound(q: nat, m: nat)
    requires q < 2 * m
    ensures q / 2 < m
  {
  }

  lemma Sum2(a: nat, b: nat, m: nat, c: nat)
    ensures (a * 2 + b) * m + c == a * (2 * m) + b * m + c
  {
    MulTwo(a, m);
  }

  lemma ReshapeAt(t: Tensor, shape: Shape, idx: Index, jdx: Index)
    requires Prod(shape) == Prod(t.shape) && InBounds(t.shape, idx) && InBounds(shape, jdx)
    requires Offset(shape, jdx) == Offset(t.shape, idx)
    ensures At(Reshape(t, shape), jdx) == At(t, idx)
  {
  }

  /** The tensor of the first reshape, and the one after the swap. */
  function Split(t: Tensor, h: nat, m: nat): (r: Tensor)
    requires Splits(t.shape, h, m)
    ensures r.shape == SplitShape(t.shape, h, m)
  {
    SplitProd(t.shape, h, m);
    Reshape(t, SplitShape(t.shape, h, m))
  }

  function SplitSwapped(t: Tensor, h: nat, m: nat): (r: Tensor)
    requires Splits(t.shape, h, m)
    ensures r.shape == [h] + ([m] + ([2] + t.shape[1..])) && Prod(r.shape) == Prod(t.shape)
  {
    SwappedProd(t.shape, h, m);
    Permute(Split(t, h, m), Swap12(|t.shape| + 2))
  }

  /** Row r of the result is row SourceRow(r) of the weight. */
  lemma PermutedRow(t: Tensor, h: nat, m: nat, r: nat, idx: Index)
    requires Splits(t.shape, h, m) && r < t.shape[0] && InBounds(t.shape[1..], idx)
    ensures m > 0 && SourceRow(m, r) < t.shape[0]
    ensures InBounds(t.shape, [r] + idx) && InBounds(t.shape, [SourceRow(m, r)] + idx)
    ensures At(PermuteHeads(t, h, m), [r] + idx) == At(t, [SourceRow(m, r)] + idx)
  {
    hide Offset, Prod, SourceRow, Permute, Reshape, At, Split;
    var tail := t.shape[1..];
    RowParts(h, m, r);
    var a, b, c := r / (2 * m), r % 2, r % (2 * m) / 2;
    assert t.shape == [t.shape[0]] + tail;
    var idx4, jdx4 := [a] + ([b] + ([c] + idx)), [a] + ([c] + ([b] + idx));
    OffsetThree(h, 2, m, tail, a, b, c, idx);
    OffsetThree(h, m, 2, tail, a, c, b, idx);
    OffsetPrepend(t.shape[0], tail, r, idx);
    OffsetPrepend(t.shape[0], tail, SourceRow(m, r), idx);
    SplitAgain(t, h, m, a, b, c, idx);
    SplitBack(t, h, m, SourceRow(m, r), a, b, c, idx);
    ReshapeAt(SplitSwapped(t, h, m), t.shape, jdx4, [r] + idx);
  }

  lemma SplitAgain(t: Tensor, h: nat, m: nat, a: nat, b: nat, c: nat, idx: Index)
    requires Splits(t.shape, h, m) && InBounds(SplitShape(t.shape, h, m), [a] + ([b] + ([c] + idx)))
    requires InBounds([h] + ([m] + ([2] + t.shape[1..])), [a] + ([c] + ([b] + idx)))
    ensures At(SplitSwapped(t, h, m), [a] + ([c] + ([b] + idx))) == At(Split(t, h, m), [a] + ([b] + ([c] + idx)))
  {
    hide Permute, At, Split, Prod;
    SwappedProd(t.shape, h, m);
    PermuteAt(Split(t, h, m), Swap12(|t.shape| + 2), [a] + ([c] + ([b] + idx)));
    SwappedIndex(SplitShape(t.shape, h, m), a, b, c, idx);
  }

  lemma SplitBack(t: Tensor, h: nat, m: nat, r: nat, a: nat, b: nat, c: nat, idx: Index)
    requires Splits(t.shape, h, m) && InBounds(SplitShape(t.shape, h, m), [a] + ([b] + ([c] + idx)))
             && InBounds(t.shape, [r] + idx)
    requires Offset(SplitShape(t.shape, h, m), [a] + ([b] + ([c] + idx))) == Offset(t.shape, [r] + idx)
    ensures At(Split(t, h, m), [a] + ([b] + ([c] + idx))) == At(t, [r] + idx)
  {
    hide Offset, Prod, At;
    SplitProd(t.shape, h, m);
    ReshapeAt(t, SplitShape(t.shape, h, m), [r] + idx, [a] + ([b] + ([c] + idx)));
  }

  lemma SwappedIndex(shape: Shape, a: nat, b: nat, c: nat, idx: Index)
    requires |shape| == |idx| + 3 && InBounds(PermutedShape(shape, Swap12(|shape|)), [a] + ([c] + ([b] + idx)))
    ensures Unpermuted(shape, Swap12(|shape|), [a] + ([c] + ([b] + idx))) == [a] + ([b] + ([c] + idx))
  {
    hide IsPermutation;
    var axes, jdx := Swap12(|shape|), [a] + ([c] + ([b] + idx));
    var u, v := Unpermuted(shape, axes, jdx), [a] + ([b] + ([c] + idx));
    forall i | 0 <= i < |u| ensures u[i] == v[i] {
      var e := if i == 1 then 2 else if i == 2 then 1 else i;
      assert u[axes[e]] == jdx[e];
    }
  }

  // ---------- The same code run on a pair of factors

  /** reshape, swapaxes and reshape, one after the other, each on what the one before gives. */
  function PermuteHeadsLora(l: Lora, h: nat): (r: Result)
    requires h > 0
  {
    var shape := LoraShape(l);
    var tail: seq<int> := shape[1..];
    var r1 := LoraReshape(l, [h, 2, shape[0] / h / 2] + tail);
    if !r1.Ok? then r1
    else
      var r2 := LoraTranspose(r1.value, 1, 2);
      if !r2.Ok? then r2 else LoraReshape(r2.value, shape)
  }

  lemma FirstStep(l: Lora, h: nat, k: nat, tail: seq<int>, m: Lora)
    requires Broadcasts(l) && Splits(LoraShape(l), h, k)
    requires |tail| == |LoraShape(l)| - 1 && forall i :: 0 <= i < |tail| ==> tail[i] == LoraShape(l)[i + 1]
    requires LoraReshape(l, [h, 2, k] + tail) == Ok(m)
    ensures Broadcasts(m) && Rank(m) == Rank(l) && Merged(m) == Split(Merged(l), h, k)
  {
    hide Merged, Prod;
    ReshapeCommutes(l, [h, 2, k] + tail, m);
    var x, y := LoraShape(m), SplitShape(LoraShape(l), h, k);
    forall i | 0 <= i < |x| ensures |x| == |y| && x[i] == y[i] {
      assert ([h, 2, k] + tail)[i] != -1;
    }
    assert x == y;
    SplitProd(LoraShape(l), h, k);
  }

  lemma SecondStep(l: Lora, m: Lora)
    requires Broadcasts(l) && |LoraShape(l)| >= 3 && LoraTranspose(l, 1, 2) == Ok(m)
    ensures Broadcasts(m) && Rank(m) == Rank(l) && Merged(m) == Permute(Merged(l), Swap12(|LoraShape(l)|))
  {
    hide Merged, Permute;
    TransposeCommutes(l, 1, 2, m);
    var n := |LoraShape(l)|;
    var axes := Swap12(n);
    TransposeKeepsRank(l, m);
  }

  lemma TransposeKeepsRank(l: Lora, m: Lora)
    requires |LoraShape(l)| >= 3 && LoraTranspose(l, 1, 2) == Ok(m)
    ensures Rank(m) == Rank(l)
  {
    hide Permute, IsPermutation;
    var n := |LoraShape(l)|;
    var axes := Swap12(n);
    assert m.A == l.A;
  }

  lemma LastStep(l: Lora, shape: Shape, m: Lora)
    requires Broadcasts(l) && Prod(shape) == Prod(LoraShape(l)) && LoraReshape(l, shape) == Ok(m)
    ensures Broadcasts(m) && Merged(m) == Reshape(Merged(l), shape)
  {
    hide Merged, Prod;
    ReshapeCommutes(l, shape, m);
    var x := LoraShape(m);
    forall i | 0 <= i < |shape| ensures |x| == |shape| && x[i] == shape[i] {
      assert shape[i] != -1;
    }
    assert x == shape;
  }

  /** Run on the pair, the code permutes the heads of the weight the pair stands for. */
  lemma PermuteHeadsCommutes(l: Lora, h: nat, m: Lora)
    requires h > 0 && Broadcasts(l) && Splits(LoraShape(l), h, LoraShape(l)[0] / h / 2)
    requires PermuteHeadsLora(l, h) == Ok(m)
    ensures Broadcasts(m) && Merged(m) == PermuteHeads(Merged(l), h, LoraShape(l)[0] / h / 2)
  {
    hide Merged, Permute, Prod, LoraReshape, LoraTranspose, Split;
    var shape := LoraShape(l);
    var tail: seq<int> := shape[1..];
    var k := shape[0] / h / 2;
    var l1 := LoraReshape(l, [h, 2, k] + tail).value;
    FirstStep(l, h, k, tail, l1);
    var l2 := LoraTranspose(l1, 1, 2).value;
    assert |LoraShape(l1)| == |shape| + 2;
    SecondStep(l1, l2);
    SwappedProd(shape, h, k);
    LastStep(l2, shape, m);
  }

  lemma ProdTwo(a: nat, b: nat)
    ensures Prod([a, b]) == a * b
  {
    assert [a, b][..1] == [a] && [a][..0] == [];
    assert Prod([a]) == a;
  }

  lemma ProdFour(a: nat, b: nat, c: nat, d: nat)
    ensures Prod([a, b, c, d]) == a * b * c * d
  {
    assert [a, b, c, d][..3] == [a, b, c] && [a, b, c][..2] == [a, b];
    ProdTwo(a, b);
  }

  /** A pair for a matrix whose rows split into heads is always accepted. */
  lemma MatrixAccepted(l: Lora, h: nat, k: nat)
    requires |l.B.shape| == 2 && h > 0 && LoraShape(l)[0] == h * 2 * k
    ensures LoraShape(l)[0] / h / 2 == k && PermuteHeadsLora(l, h).Ok?
  {
    hide Permute, Prod, LoraReshape, LoraTranspose;
    var shape := LoraShape(l);
    var c, r, rows := RowSize(l), Rank(l), shape[0];
    MulTwo(h, k);
    DivModUnique(2 * k, h, 0);
    assert rows == 2 * k * h + 0;
    assert rows / h == 2 * k;
    var tail: seq<int> := shape[1..];
    var dims := [h, 2, k] + tail;
    assert dims == [h, 2, k, c];
    var l1 := MatrixSplit(l, h, k);
    var l2 := SplitTransposed(l1, h, k, r, c);
    SplitJoined(l2, h, k, r, c);
    assert shape == [rows, c];
  }

  lemma MatrixSplit(l: Lora, h: nat, k: nat) returns (m: Lora)
    requires |l.B.shape| == 2 && l.B.shape[0] == h * 2 * k
    ensures LoraReshape(l, [h, 2, k, RowSize(l)]) == Ok(m)
    ensures m.A.shape == [1, 1, Rank(l), RowSize(l)] && m.B.shape == [h, 2, k, Rank(l)]
  {
    var c, r := RowSize(l), Rank(l);
    var dims := [h, 2, k, c];
    ProdTwo(r, c);
    ProdTwo(h * 2 * k, r);
    ProdFour(1, 1, r, c);
    ProdFour(h, 2, k, r);
    assert l.A.shape == [r, c] && l.B.shape == [h * 2 * k, r];
    assert -1 !in dims;
    var s := AsShape(dims);
    assert s[..3] + [r] == [h, 2, k, r] && Ones(2) + [r, c] == [1, 1, r, c];
    m := LoraReshape(l, dims).value;
  }

  lemma SplitTransposed(l: Lora, h: nat, k: nat, r: nat, c: nat) returns (m: Lora)
    requires l.A.shape == [1, 1, r, c] && l.B.shape == [h, 2, k, r]
    ensures LoraTranspose(l, 1, 2) == Ok(m)
    ensures m.A.shape == [1, 1, r, c] && m.B.shape == [h, k, 2, r]
  {
    hide Permute, IsPermutation, Prod;
    var axes := Swap12(4);
    assert AllOnes(Leads(l.A)) by { assert Leads(l.A) == [1, 1]; }
    assert PermutedShape(l.B.shape, axes) == [h, k, 2, r];
    m := LoraTranspose(l, 1, 2).value;
  }

  lemma SplitJoined(l: Lora, h: nat, k: nat, r: nat, c: nat)
    requires l.A.shape == [1, 1, r, c] && l.B.shape == [h, k, 2, r]
    ensures LoraReshape(l, [h * 2 * k, c]).Ok?
  {
    var rows := h * 2 * k;
    var dims := [rows, c];
    ProdTwo(r, c);
    ProdTwo(rows, r);
    ProdFour(1, 1, r, c);
    ProdFour(h, k, 2, r);
    assert h * k * 2 == rows;
    assert -1 !in dims;
    var s := AsShape(dims);
    assert s[..1] + [r] == [rows, r] && Ones(0) + [r, c] == [r, c];
  }

  // ---------- What attention sees

  /** A row as its head, its half and its place in the half, in the order of the result. */
  lemma ResultParts(h: nat, m: nat, r: nat) returns (a: nat, b: nat, c: nat)
    requires r < h * 2 * m
    ensures a < h && b < 2 && c < m && r == a * (2 * m) + (c * 2 + b)
  {
    MulTwo(h, m);
    DivBound(r, h, 2 * m);
    var q := r % (2 * m);
    HalfBound(q, m);
    a, b, c := r / (2 * m), q % 2, q / 2;
  }

  /** The same in the order of the weight. */
  lemma WeightParts(h: nat, m: nat, r: nat) returns (a: nat, b: nat, c: nat)
    requires r < h * 2 * m
    ensures a < h && b < 2 && c < m && r == a * (2 * m) + (b * m + c)
  {
    MulTwo(h, m);
    DivBound(r, h, 2 * m);
    var q := r % (2 * m);
    DivBound(q, 2, m);
    a, b, c := r / (2 * m), q / m, q % m;
  }

  lemma InHeads(h: nat, m: nat, a: nat, q: nat)
    requires a < h && q < 2 * m
    ensures a * (2 * m) + q < h * 2 * m
  {
    MulTwo(h, m);
    MulBounds(a, h, q, 2 * m);
  }

  /** The permutation is a bijection on the rows, and keeps every row in its head. */
  lemma SourceRowBijective(h: nat, m: nat, r: nat)
    requires r < h * 2 * m
    ensures m > 0 && SourceRow(m, r) < h * 2 * m && SourceRow(m, r) / (2 * m) == r / (2 * m)
    ensures TargetRow(m, SourceRow(m, r)) == r
    ensures 0 <= TargetRow(m, r) < h * 2 * m && SourceRow(m, TargetRow(m, r)) == r
  {
    hide SourceRow, TargetRow;
    var a, b, c := ResultParts(h, m, r);
    Interleave(a, m, b, c);
    InHeads(h, m, a, b * m + c);
    var a', b', c' := WeightParts(h, m, r);
    Interleave(a', m, b', c');
    InHeads(h, m, a', c' * 2 + b');
  }

  /** Where row r of the weight goes. */
  function TargetRow(m: nat, r: nat): (n: int)
    requires m > 0
  {
    r / (2 * m) * (2 * m) + r % (2 * m) % m * 2 + r % (2 * m) / m
  }

  lemma Interleave(a: nat, m: nat, b: nat, c: nat)
    requires b < 2 && c < m
    ensures c * 2 + b < 2 * m && b * m + c < 2 * m
    ensures SourceRow(m, a * (2 * m) + (c * 2 + b)) == a * (2 * m) + (b * m + c)
    ensures TargetRow(m, a * (2 * m) + (b * m + c)) == a * (2 * m) + (c * 2 + b)
    ensures (a * (2 * m) + (b * m + c)) / (2 * m) == a && (a * (2 * m) + (c * 2 + b)) / (2 * m) == a
  {
    var d := 2 * m;
    MulTwo(a, m);
    DivModUnique(a, d, c * 2 + b);
    DivModUnique(a, d, b * m + c);
    DivModUnique(b, m, c);
    DivModUnique(a * m + c, 2, b);
    assert a * d + (c * 2 + b) == (a * m + c) * 2 + b;
  }

  /** The permutation inside one head. */
  function InHead(m: nat): (p: seq<nat>)
    ensures |p| == 2 * m && forall i :: 0 <= i < 2 * m ==> p[i] == InHeadPlace(m, i) && p[i] < 2 * m
  {
    seq(2 * m, i requires 0 <= i < 2 * m => InHeadPlace(m, i))
  }

  function InHeadPlace(m: nat, i: nat): (p: nat)
    requires i < 2 * m
    ensures p < 2 * m
  {
    HalfBound(i, m);
    MulBounds(i % 2, 2, i / 2, m);
    i % 2 * m + i / 2
  }

  /** Place (b, c) in the weight comes to place (c, b). */
  lemma InHeadAt(m: nat, b: nat, c: nat)
    requires b < 2 && c < m
    ensures c * 2 + b < 2 * m && InHead(m)[c * 2 + b] == b * m + c
    ensures (b * m + c) % m * 2 + (b * m + c) / m == c * 2 + b
  {
    DivModUnique(c, 2, b);
    DivModUnique(b, m, c);
  }

  lemma InHeadPermutes(m: nat)
    ensures IsPermutation(InHead(m))
  {
    hide InHeadPlace;
    var p := InHead(m);
    forall i | 0 <= i < |p| ensures p[i] < |p| && m > 0 && p[i] % m * 2 + p[i] / m == i {
      HalfBound(i, m);
      InHeadAt(m, i % 2, i / 2);
    }
    forall e | 0 <= e < |p| ensures e in p {
      DivBound(e, 2, m);
      InHeadAt(m, e / m, e % m);
    }
  }

  /** Row r of the matrix applied to the vector x. */
  function RowTimes(w: Tensor, r: nat, x: seq<real>, n: nat): (sum: real)
    requires |w.shape| == 2 && r < w.shape[0] && n <= w.shape[1] == |x|
  {
    if n == 0 then 0.0 else RowTimes(w, r, x, n - 1) + At(w, [r, n - 1]) * x[n - 1]
  }

  /** The activations of head a: the rows of the head applied to x. */
  function HeadVector(w: Tensor, m: nat, a: nat, x: seq<real>): (v: seq<real>)
    requires |w.shape| == 2 && |x| == w.shape[1] && (a + 1) * (2 * m) <= w.shape[0]
    ensures |v| == 2 * m
  {
    seq(2 * m, i requires 0 <= i < 2 * m => RowTimes(w, a * (2 * m) + i, x, |x|))
  }

  function Products(u: seq<real>, v: seq<real>): (p: seq<real>)
    requires |u| == |v|
    ensures |p| == |u| && forall i :: 0 <= i < |u| ==> p[i] == u[i] * v[i]
  {
    seq(|u|, i requires 0 <= i < |u| => u[i] * v[i])
  }

  function Dot(u: seq<real>, v: seq<real>): (x: real)
    requires |u| == |v|
  {
    SumOf(Products(u, v))
  }

  lemma {:induction false} RowTimesPermuted(w: Tensor, h: nat, m: nat, r: nat, x: seq<real>, n: nat)
    requires |w.shape| == 2 && Splits(w.shape, h, m) && r < w.shape[0] && n <= w.shape[1] == |x|
    ensures m > 0 && SourceRow(m, r) < w.shape[0]
    ensures RowTimes(PermuteHeads(w, h, m), r, x, n) == RowTimes(w, SourceRow(m, r), x, n)
  {
    hide PermuteHeads, SourceRow, At, InBounds;
    RowParts(h, m, r);
    if n > 0 {
      RowTimesPermuted(w, h, m, r, x, n - 1);
      PermutedElement(w, h, m, r, n - 1);
    }
  }

  lemma PermutedElement(w: Tensor, h: nat, m: nat, r: nat, j: nat)
    requires |w.shape| == 2 && Splits(w.shape, h, m) && r < w.shape[0] && j < w.shape[1]
    ensures m > 0 && SourceRow(m, r) < w.shape[0]
    ensures InBounds(w.shape, [r, j]) && InBounds(w.shape, [SourceRow(m, r), j])
    ensures At(PermuteHeads(w, h, m), [r, j]) == At(w, [SourceRow(m, r), j])
  {
    hide PermuteHeads, SourceRow, At;
    assert w.shape[1..] == [w.shape[1]];
    PermutedRow(w, h, m, r, [j]);
    assert [r] + [j] == [r, j] && [SourceRow(m, r)] + [j] == [SourceRow(m, r), j];
  }

  /** A head of the permuted weight gives the activations of that head of the weight, interleaved. */
  lemma HeadVectorPermuted(w: Tensor, h: nat, m: nat, a: nat, x: seq<real>)
    requires |w.shape| == 2 && Splits(w.shape, h, m) && a < h && |x| == w.shape[1]
    ensures (a + 1) * (2 * m) <= w.shape[0]
    ensures HeadVector(PermuteHeads(w, h, m), m, a, x) == Gather(HeadVector(w, m, a, x), InHead(m))
  {
    hide PermuteHeads, RowTimes, IsPermutation;
    MulTwo(h, m);
    MulLess(a, h, 2 * m);
    InHeadPermutes(m);
    var u, v := HeadVector(PermuteHeads(w, h, m), m, a, x), Gather(HeadVector(w, m, a, x), InHead(m));
    forall i | 0 <= i < 2 * m ensures u[i] == v[i] {
      InHeads(h, m, a, i);
      RowTimesPermuted(w, h, m, a * (2 * m) + i, x, |x|);
      SourceInHead(m, a, i);
    }
  }

  /** Inside its head, a row comes from the place that the interleaving of one head names. */
  lemma SourceInHead(m: nat, a: nat, i: nat)
    requires i < 2 * m
    ensures InHead(m)[i] < 2 * m && SourceRow(m, a * (2 * m) + i) == a * (2 * m) + InHead(m)[i]
  {
    hide SourceRow;
    HalfBound(i, m);
    Interleave(a, m, i % 2, i / 2);
    InHeadAt(m, i % 2, i / 2);
  }

  /** A dot product does not depend on the order of the places. */
  lemma DotPermuted(q: seq<real>, k: seq<real>, p: seq<nat>)
    requires |q| == |k| == |p| && IsPermutation(p)
    ensures Dot(Gather(q, p), Gather(k, p)) == Dot(q, k)
  {
    hide SumOf;
    var x, y := Products(Gather(q, p), Gather(k, p)), Gather(Products(q, k), p);
    forall i | 0 <= i < |p| ensures x[i] == y[i] {
      assert Gather(q, p)[i] == q[p[i]] && Gather(k, p)[i] == k[p[i]];
    }
    assert x == y;
    SumPermuted(Products(q, k), p);
  }

  /** Permuting the heads of both Q and K leaves every dot product of a query head with a key head as
      it was, whichever key head the query head is grouped with. */
  lemma AttentionUnchanged(wq: Tensor, wk: Tensor, nHead: nat, nHeadKv: Count, m: nat, a: nat, b: nat, x: seq<real>,
                           y: seq<real>)
    requires |wq.shape| == |wk.shape| == 2 && |x| == wq.shape[1] && |y| == wk.shape[1]
    requires Splits(wq.shape, HeadCount(nHead, Given(nHead)), m) && Splits(wk.shape, HeadCount(nHead, nHeadKv), m)
    requires a < HeadCount(nHead, Given(nHead)) && b < HeadCount(nHead, nHeadKv)
    ensures (a + 1) * (2 * m) <= wq.shape[0] && (b + 1) * (2 * m) <= wk.shape[0]
    ensures Dot(HeadVector(PermuteHeads(wq, HeadCount(nHead, Given(nHead)), m), m, a, x),
                HeadVector(PermuteHeads(wk, HeadCount(nHead, nHeadKv), m), m, b, y))
            == Dot(HeadVector(wq, m, a, x), HeadVector(wk, m, b, y))
  {
    hide PermuteHeads, HeadVector, IsPermutation, Dot;
    var hq, hk := HeadCount(nHead, Given(nHead)), HeadCount(nHead, nHeadKv);
    HeadVectorPermuted(wq, hq, m, a, x);
    HeadVectorPermuted(wk, hk, m, b, y);
    InHeadPermutes(m);
    DotPermuted(HeadVector(wq, m, a, x), HeadVector(wk, m, b, y), InHead(m));
  }
}
