/** LoraTorchTensor of convert_lora_to_gguf.py: a weight update kept as a pair of factors. The base
    model's conversion code runs on the pair instead of on the product of its factors. */
module Loras {
  import opened Arithmetic
  import opened Tensors

  datatype RawLora = Lora(A: Tensor, B: Tensor)

  /** What the constructor checks. */
  predicate IsLora(l: RawLora) {
    && |l.A.shape| == |l.B.shape| >= 2
    && l.A.shape[|l.A.shape| - 2] == l.B.shape[|l.B.shape| - 1]
  }

  type Lora = l: RawLora | IsLora(l)
    witness Lora(Tensor([0, 0], []), Tensor([0, 0], []))

  datatype Result = Ok(value: Lora) | NotImplemented | Rejected

  /** The constructor. */
  function Pair(A: Tensor, B: Tensor): (r: Result)
    ensures r.Ok? ==> r.value == Lora(A, B)
  {
    if IsLora(Lora(A, B)) then Ok(Lora(A, B)) else Rejected
  }

  function Rank(l: Lora): (n: nat) { l.B.shape[|l.B.shape| - 1] }

  function RowSize(l: Lora): (n: nat) { l.A.shape[|l.A.shape| - 1] }

  /** All axes of a factor but its last two. */
  function Leads(t: Tensor): (shape: Shape)
    requires |t.shape| >= 2
  {
    t.shape[..|t.shape| - 2]
  }

  /** The shape the pair stands for. */
  function LoraShape(l: Lora): (s: Shape)
    ensures |s| == |l.B.shape|
  {
    l.B.shape[..|l.B.shape| - 1] + [RowSize(l)]
  }

  /** The leading axes of A broadcast to those of B, so that the product has the pair's shape. */
  predicate Broadcasts(l: Lora) {
    forall d :: 0 <= d < |Leads(l.A)| ==> Leads(l.A)[d] == 1 || Leads(l.A)[d] == Leads(l.B)[d]
  }

  predicate AllOnes(s: Shape) {
    forall d :: 0 <= d < |s| ==> s[d] == 1
  }

  /** The leading index into A for a leading index of the product. */
  function Clipped(leads: Shape, idx: Index): (r: Index)
    requires |idx| == |leads| && forall d :: 0 <= d < |leads| ==> leads[d] == 1 || idx[d] < leads[d]
    ensures InBounds(leads, r)
  {
    seq(|leads|, d requires 0 <= d < |leads| => if leads[d] == 1 then 0 else idx[d])
  }

  /** The index into B for term k of the product's element at idx. */
  function IndexB(l: Lora, idx: Index, k: nat): (r: Index)
    requires InBounds(LoraShape(l), idx) && k < Rank(l)
    ensures InBounds(l.B.shape, r)
  {
    var n := |idx|;
    assert forall d :: 0 <= d < n - 1 ==> LoraShape(l)[d] == l.B.shape[d];
    idx[..n - 1] + [k]
  }

  function IndexA(l: Lora, idx: Index, k: nat): (r: Index)
    requires Broadcasts(l) && InBounds(LoraShape(l), idx) && k < Rank(l)
    ensures InBounds(l.A.shape, r)
  {
    var n := |idx|;
    assert forall d :: 0 <= d < n - 2 ==> LoraShape(l)[d] == l.B.shape[d] == Leads(l.B)[d];
    Clipped(Leads(l.A), idx[..n - 2]) + [k, idx[n - 1]]
  }

  function Term(l: Lora, idx: Index, k: nat): (x: real)
    requires Broadcasts(l) && InBounds(LoraShape(l), idx) && k < Rank(l)
  {
    At(l.B, IndexB(l, idx, k)) * At(l.A, IndexA(l, idx, k))
  }

  /** The first n terms of the product's element at idx. */
  function Terms(l: Lora, idx: Index, n: nat): (x: real)
    requires Broadcasts(l) && InBounds(LoraShape(l), idx) && n <= Rank(l)
  {
    if n == 0 then 0.0 else Terms(l, idx, n - 1) + Term(l, idx, n - 1)
  }

  /** The weight the pair stands for: B times A. */
  function Merged(l: Lora): (t: Tensor)
    requires Broadcasts(l)
    ensures t.shape == LoraShape(l)
  {
    Build(LoraShape(l), (idx: Index) requires InBounds(LoraShape(l), idx) => Terms(l, idx, Rank(l)))
  }

  lemma MergedAt(l: Lora, idx: Index)
    requires Broadcasts(l) && InBounds(LoraShape(l), idx)
    ensures At(Merged(l), idx) == Terms(l, idx, Rank(l))
  {
    BuildAt(LoraShape(l), (i: Index) requires InBounds(LoraShape(l), i) => Terms(l, i, Rank(l)), idx);
  }

  /** Elements whose terms agree are equal. */
  lemma {:induction false} TermsEqual(l: Lora, idx: Index, m: Lora, jdx: Index, n: nat)
    requires Broadcasts(l) && InBounds(LoraShape(l), idx) && n <= Rank(l)
    requires Broadcasts(m) && InBounds(LoraShape(m), jdx) && n <= Rank(m)
    requires forall k :: 0 <= k < n ==> Term(l, idx, k) == Term(m, jdx, k)
    ensures Terms(l, idx, n) == Terms(m, jdx, n)
  {
    if n > 0 {
      TermsEqual(l, idx, m, jdx, n - 1);
    }
  }

  // ---------- reshape

  function ProdInt(dims: seq<int>): (n: int) {
    if dims == [] then 1 else ProdInt(dims[..|dims| - 1]) * dims[|dims| - 1]
  }

  function ReplaceFree(dims: seq<int>, size: int): (r: seq<int>)
    ensures |r| == |dims| && forall i :: 0 <= i < |r| ==> r[i] == if dims[i] == -1 then size else dims[i]
  {
    seq(|dims|, i requires 0 <= i < |dims| => if dims[i] == -1 then size else dims[i])
  }

  datatype Dims = NoDims | Dims(dims: seq<int>)

  /** The shape with -1 replaced by what the element count leaves for it. */
  function Expanded(shape: Shape, dims: seq<int>): (r: Dims)
    ensures r.Dims? ==> |r.dims| == |dims|
  {
    if -1 !in dims then Dims(dims)
    else
      var n := ProdInt(ReplaceFree(dims, 1));
      if n == 0 || Prod(shape) % n != 0 then NoDims else Dims(ReplaceFree(dims, Prod(shape) / n))
  }

  predicate IsShape(dims: seq<int>) {
    forall i :: 0 <= i < |dims| ==> dims[i] >= 0
  }

  function AsShape(dims: seq<int>): (s: Shape)
    requires IsShape(dims)
    ensures |s| == |dims| && forall i :: 0 <= i < |s| ==> s[i] == dims[i]
  {
    seq(|dims|, i requires 0 <= i < |dims| => dims[i])
  }

  function Ones(n: nat): (s: Shape)
    ensures |s| == n && AllOnes(s)
  {
    seq(n, _ => 1)
  }

  function LoraReshape(l: Lora, dims: seq<int>): (r: Result) {
    if |dims| < 2 then NotImplemented
    else
      var e := Expanded(LoraShape(l), dims);
      if e == NoDims then Rejected
      else if e.dims[|dims| - 1] != RowSize(l) then NotImplemented
      else if !IsShape(e.dims) then Rejected
      else
        var s := AsShape(e.dims);
        var shapeA := Ones(|s| - 2) + [Rank(l), RowSize(l)];
        var shapeB := s[..|s| - 1] + [Rank(l)];
        if Prod(shapeA) != Prod(l.A.shape) || Prod(shapeB) != Prod(l.B.shape) then Rejected
        else Pair(Reshape(l.A, shapeA), Reshape(l.B, shapeB))
  }

  // ---------- reshape commutes with the product

  lemma ProdSnoc(s: Shape, n: nat)
    ensures Prod(s + [n]) == Prod(s) * n
  {
    assert (s + [n])[..|s|] == s;
  }

  lemma OffsetSnoc(s: Shape, n: nat, idx: Index, i: nat)
    requires InBounds(s, idx) && i < n
    ensures InBounds(s + [n], idx + [i]) && Offset(s + [n], idx + [i]) == Offset(s, idx) * n + i
  {
    assert (s + [n])[..|s|] == s && (idx + [i])[..|s|] == idx;
  }

  lemma {:induction false} OnesOffset(s: Shape, idx: Index)
    requires AllOnes(s) && InBounds(s, idx)
    ensures Offset(s, idx) == 0 && Prod(s) == 1
  {
    if s != [] {
      OnesOffset(s[..|s| - 1], idx[..|s| - 1]);
    }
  }

  /** Row i of B against column j of A, with both factors read as flat matrices. */
  function FlatTerms(a: seq<real>, b: seq<real>, r: nat, c: nat, i: nat, j: nat, n: nat): (x: real)
    requires n <= r && j < c && |a| == r * c && (i + 1) * r <= |b|
  {
    if n == 0 then 0.0
    else
      MulBounds(n - 1, r, j, c);
      FlatTerms(a, b, r, c, i, j, n - 1) + b[i * r + (n - 1)] * a[(n - 1) * c + j]
  }

  /** The shape of the rows: all axes of the product but the last. */
  function RowShape(l: Lora): (shape: Shape) { l.B.shape[..|l.B.shape| - 1] }

  lemma Shapes(l: Lora)
    ensures l.B.shape == RowShape(l) + [Rank(l)] && LoraShape(l) == RowShape(l) + [RowSize(l)]
    ensures l.A.shape == Leads(l.A) + [Rank(l)] + [RowSize(l)]
    ensures Prod(l.B.shape) == Prod(RowShape(l)) * Rank(l) && Prod(LoraShape(l)) == Prod(RowShape(l)) * RowSize(l)
    ensures Prod(l.A.shape) == Prod(Leads(l.A)) * Rank(l) * RowSize(l)
  {
    ProdSnoc(RowShape(l), Rank(l));
    ProdSnoc(RowShape(l), RowSize(l));
    ProdSnoc(Leads(l.A), Rank(l));
    ProdSnoc(Leads(l.A) + [Rank(l)], RowSize(l));
  }

  lemma OnesBroadcast(l: Lora)
    requires AllOnes(Leads(l.A))
    ensures Broadcasts(l)
  {
  }

  lemma RowInBounds(l: Lora, idx: Index)
    requires InBounds(LoraShape(l), idx)
    ensures |idx| == |l.B.shape|
    ensures InBounds(RowShape(l), idx[..|idx| - 1]) && idx[|idx| - 1] < RowSize(l)
  {
  }

  lemma FlatB(l: Lora, idx: Index, k: nat)
    requires InBounds(LoraShape(l), idx) && k < Rank(l)
    ensures InBounds(RowShape(l), idx[..|idx| - 1])
    ensures Offset(l.B.shape, IndexB(l, idx, k)) == Offset(RowShape(l), idx[..|idx| - 1]) * Rank(l) + k
  {
    hide Offset;
    RowInBounds(l, idx);
    assert l.B.shape == RowShape(l) + [Rank(l)];
    OffsetSnoc(RowShape(l), Rank(l), idx[..|idx| - 1], k);
  }

  lemma FlatA(l: Lora, idx: Index, k: nat)
    requires AllOnes(Leads(l.A)) && Broadcasts(l) && InBounds(LoraShape(l), idx) && k < Rank(l)
    ensures Offset(l.A.shape, IndexA(l, idx, k)) == k * RowSize(l) + idx[|idx| - 1]
  {
    hide Offset;
    var n := |idx| - 1;
    RowInBounds(l, idx);
    var lead := Clipped(Leads(l.A), idx[..n - 1]);
    var front := Leads(l.A) + [Rank(l)];
    assert l.A.shape == front + [RowSize(l)];
    assert IndexA(l, idx, k) == lead + [k] + [idx[n]];
    OnesOffset(Leads(l.A), lead);
    OffsetSnoc(Leads(l.A), Rank(l), lead, k);
    OffsetSnoc(front, RowSize(l), lead + [k], idx[n]);
  }

  /** One term of the product, read off the flat data of the factors. */
  lemma FlatTerm(l: Lora, idx: Index, k: nat)
    requires AllOnes(Leads(l.A)) && Broadcasts(l) && InBounds(LoraShape(l), idx) && k < Rank(l)
    ensures var n := |idx| - 1;
            InBounds(RowShape(l), idx[..n]) &&
            var i, r, c := Offset(RowShape(l), idx[..n]), Rank(l), RowSize(l);
            i * r + k < |l.B.data| && k * c + idx[n] < |l.A.data|
            && Term(l, idx, k) == l.B.data[i * r + k] * l.A.data[k * c + idx[n]]
  {
    hide Offset, IndexA, IndexB;
    FlatA(l, idx, k);
    FlatB(l, idx, k);
  }

  lemma {:induction false} FlatSum(l: Lora, idx: Index, n: nat)
    requires AllOnes(Leads(l.A)) && Broadcasts(l) && InBounds(LoraShape(l), idx) && n <= Rank(l)
    requires InBounds(RowShape(l), idx[..|idx| - 1])
    requires |l.A.data| == Rank(l) * RowSize(l)
    requires (Offset(RowShape(l), idx[..|idx| - 1]) + 1) * Rank(l) <= |l.B.data|
    ensures Terms(l, idx, n) == FlatTerms(l.A.data, l.B.data, Rank(l), RowSize(l),
                                          Offset(RowShape(l), idx[..|idx| - 1]), idx[|idx| - 1], n)
  {
    hide Term, Offset;
    if n > 0 {
      FlatSum(l, idx, n - 1);
      FlatTerm(l, idx, n - 1);
    }
  }

  /** The place in memory, as a row and a place in the row. */
  lemma SplitPlace(rows: Shape, c: nat, n: nat)
    requires n < Prod(rows + [c])
    ensures var idx := IndexAt(rows + [c], n); var m := |rows|;
            c > 0 && |idx| == m + 1 && InBounds(rows, idx[..m]) && Offset(rows, idx[..m]) == n / c && idx[m] == n % c
            && n / c < Prod(rows)
  {
    hide Offset;
    ProdSnoc(rows, c);
    DivBound(n, Prod(rows), c);
    var idx, m := IndexAt(rows + [c], n), |rows|;
    assert idx == idx[..m] + [idx[m]] && (rows + [c])[m] == c;
    assert forall d :: 0 <= d < m ==> (rows + [c])[d] == rows[d];
    OffsetSnoc(rows, c, idx[..m], idx[m]);
    DivModUnique(Offset(rows, idx[..m]), c, idx[m]);
  }

  /** With nothing to broadcast, the product is that of two flat matrices. */
  lemma FlatMerged(l: Lora, n: nat)
    requires AllOnes(Leads(l.A)) && Broadcasts(l) && n < Prod(LoraShape(l))
    ensures var r, c := Rank(l), RowSize(l);
            c > 0 && |l.A.data| == r * c && (n / c + 1) * r <= |l.B.data|
            && Merged(l).data[n] == FlatTerms(l.A.data, l.B.data, r, c, n / c, n % c, r)
  {
    hide Offset, Terms, FlatTerms, IndexAt, Merged, Prod;
    var r, c := Rank(l), RowSize(l);
    Shapes(l);
    OnesProd(Leads(l.A));
    assert |l.A.data| == r * c;
    SplitPlace(RowShape(l), c, n);
    MulLess(n / c, Prod(RowShape(l)), r);
    var idx := IndexAt(LoraShape(l), n);
    assert Merged(l).data[n] == At(Merged(l), idx);
    MergedAt(l, idx);
    FlatSum(l, idx, r);
  }

  lemma {:induction false} OnesProd(s: Shape)
    requires AllOnes(s)
    ensures Prod(s) == 1
  {
    if s != [] {
      OnesProd(s[..|s| - 1]);
    }
  }

  lemma {:induction false} ProdOne(s: Shape)
    requires Prod(s) == 1
    ensures AllOnes(s)
  {
    if s != [] {
      var d := |s| - 1;
      var p, n := Prod(s[..d]), s[d];
      assert p * n == 1;
      assert p > 0 && n > 0;
      if p > 1 {
        MulLess(1, p, n);
      }
      ProdOne(s[..d]);
    }
  }

  lemma CancelFactor(a: nat, b: nat, n: nat)
    requires n > 0 && a * n == b * n
    ensures a == b
  {
    if a < b {
      MulLess(a, b, n);
    } else if b < a {
      MulLess(b, a, n);
    }
  }

  /** A pair of rank zero stands for zeros. */
  lemma RankZero(l: Lora, n: nat)
    requires Broadcasts(l) && Rank(l) == 0 && n < Prod(LoraShape(l))
    ensures Merged(l).data[n] == 0.0
  {
    hide Offset, IndexAt, Merged, Prod;
    MergedAt(l, IndexAt(LoraShape(l), n));
  }

  /** A pair of some rank has its leading axes of A dropped by a reshape only if they are all 1. */
  lemma LeadsAreOnes(l: Lora, m: Lora)
    requires Rank(l) > 0 && RowSize(l) > 0 && Rank(m) == Rank(l) && RowSize(m) == RowSize(l)
    requires AllOnes(Leads(m.A)) && |m.A.data| == |l.A.data|
    ensures AllOnes(Leads(l.A))
  {
    hide Prod;
    var r, c := Rank(l), RowSize(l);
    Shapes(l);
    Shapes(m);
    OnesProd(Leads(m.A));
    assert Prod(Leads(l.A)) * (r * c) == 1 * (r * c) by {
      assert Prod(Leads(l.A)) * r * c == Prod(Leads(l.A)) * (r * c);
    }
    assert r * c > 0;
    CancelFactor(Prod(Leads(l.A)), 1, r * c);
    ProdOne(Leads(l.A));
  }

  /** Reshaping the pair reshapes the weight it stands for, whenever the code accepts the shape: exactly when the
      element count stays, which only a pair of rank zero can miss. */
  lemma ReshapeCommutes(l: Lora, dims: seq<int>, m: Lora)
    requires Broadcasts(l) && LoraReshape(l, dims) == Ok(m)
    ensures Broadcasts(m) && (Rank(l) > 0 ==> Prod(LoraShape(m)) == Prod(LoraShape(l)))
    ensures Prod(LoraShape(m)) == Prod(LoraShape(l)) ==> Merged(m) == Reshape(Merged(l), LoraShape(m))
    ensures forall i :: 0 <= i < |dims| ==> |dims| == |LoraShape(m)| && (dims[i] == -1 || dims[i] == LoraShape(m)[i])
  {
    hide Merged, Prod;
    var r, c := Rank(l), RowSize(l);
    Shapes(l);
    Shapes(m);
    var s := AsShape(Expanded(LoraShape(l), dims).dims);
    assert Leads(m.A) == Ones(|s| - 2) && RowShape(m) == s[..|s| - 1] && Rank(m) == r && RowSize(m) == c;
    OnesBroadcast(m);
    assert LoraShape(m) == s;
    if r > 0 {
      CancelFactor(Prod(RowShape(m)), Prod(RowShape(l)), r);
      if c > 0 {
        LeadsAreOnes(l, m);
      }
    }
    if Prod(LoraShape(m)) == Prod(LoraShape(l)) {
      var x, y := Merged(m), Reshape(Merged(l), s);
      forall n | 0 <= n < |x.data| ensures x.data[n] == y.data[n] {
        if r > 0 {
          assert c > 0;
          FlatMerged(l, n);
          FlatMerged(m, n);
        } else {
          RankZero(l, n);
          RankZero(m, n);
        }
      }
    }
  }

  // ---------- permute, transpose, swapaxes

  /** An axis counted from the end, as the code normalizes it. */
  function FromEnd(d: int, n: nat): (r: int) {
    if d >= 0 then d - n else d
  }

  predicate AreAxes(dims: seq<int>, n: nat) {
    |dims| == n && forall i :: 0 <= i < n ==> 0 <= n + FromEnd(dims[i], n) < n
  }

  function AxesOf(dims: seq<int>, n: nat): (axes: seq<nat>)
    requires AreAxes(dims, n)
    ensures |axes| == n && forall i :: 0 <= i < n ==> axes[i] == n + FromEnd(dims[i], n)
  {
    seq(n, i requires 0 <= i < n => n + FromEnd(dims[i], n))
  }

  function LoraPermute(l: Lora, dims: seq<int>): (r: Result) {
    var n := |LoraShape(l)|;
    if dims == [] then Rejected
    else
      var last := FromEnd(dims[|dims| - 1], n);
      var valid := AreAxes(dims, n) && IsPermutation(AxesOf(dims, n));
      if last == -1 then
        if !AllOnes(Leads(l.A)) || !valid then Rejected
        else Pair(l.A, Permute(l.B, AxesOf(dims, n)))
      else if n == 2 && last == -2 && |dims| < 2 then Rejected
      else if n == 2 && last == -2 && FromEnd(dims[|dims| - 2], n) == -1 then
        if !valid then Rejected
        else Pair(Permute(l.B, AxesOf(dims, n)), Permute(l.A, AxesOf(dims, n)))
      else NotImplemented
  }

  function PlaceOf(d: int, n: nat): (r: int) {
    if d >= 0 then d else n + d
  }

  function Range(n: nat): (r: seq<int>)
    ensures |r| == n && forall i :: 0 <= i < n ==> r[i] == i
  {
    seq(n, i => i)
  }

  /** The axes in order, with two exchanged. */
  function SwappedAxes(n: nat, a: nat, b: nat): (r: seq<int>)
    requires a < n && b < n
    ensures |r| == n
    ensures forall i :: 0 <= i < n ==> r[i] == if i == a then b else if i == b then a else i
  {
    Range(n)[a := b][b := a]
  }

  function LoraTranspose(l: Lora, dim0: int, dim1: int): (r: Result) {
    var n := |LoraShape(l)|;
    var a, b := PlaceOf(dim0, n), PlaceOf(dim1, n);
    if !(0 <= a < n && 0 <= b < n) then Rejected else LoraPermute(l, SwappedAxes(n, a, b))
  }

  /** Where the last axis stays, the other axes of the product are those of B. */
  lemma PermuteTerm(l: Lora, axes: seq<nat>, m: Lora, idx: Index, k: nat)
    requires Broadcasts(l) && AllOnes(Leads(l.A)) && |axes| == |l.B.shape| && IsPermutation(axes)
    requires axes[|axes| - 1] == |axes| - 1 && m == Lora(l.A, Permute(l.B, axes))
    requires Broadcasts(m) && LoraShape(m) == PermutedShape(LoraShape(l), axes)
    requires InBounds(LoraShape(m), idx) && k < Rank(m)
    ensures k < Rank(l) && Term(m, idx, k) == Term(l, Unpermuted(LoraShape(l), axes, idx), k)
  {
    hide Permute, IsPermutation, InBounds, At, IndexA, IndexB, Clipped, PermutedShape;
    var jdx := Unpermuted(LoraShape(l), axes, idx);
    PermuteAt(l.B, axes, IndexB(m, idx, k));
    PermuteIndexB(l, axes, m, idx, k);
    PermuteIndexA(l, axes, m, idx, k);
  }

  /** The last axis stays last, and every other one stays before it. */
  lemma LastStays(axes: seq<nat>, i: nat)
    requires IsPermutation(axes) && i < |axes| && axes[|axes| - 1] == |axes| - 1
    ensures axes[i] == |axes| - 1 <==> i == |axes| - 1
  {
  }

  lemma PermuteIndexB(l: Lora, axes: seq<nat>, m: Lora, idx: Index, k: nat)
    requires |axes| == |l.B.shape| && IsPermutation(axes) && axes[|axes| - 1] == |axes| - 1
    requires m == Lora(l.A, Permute(l.B, axes)) && LoraShape(m) == PermutedShape(LoraShape(l), axes)
    requires InBounds(LoraShape(m), idx) && k < Rank(m)
    ensures k < Rank(l)
    ensures Unpermuted(l.B.shape, axes, IndexB(m, idx, k)) == IndexB(l, Unpermuted(LoraShape(l), axes, idx), k)
  {
    hide IsPermutation, Permute;
    var n := |axes| - 1;
    LastStays(axes, n);
    assert Rank(m) == Rank(l);
    var x, y := Unpermuted(l.B.shape, axes, IndexB(m, idx, k)), IndexB(l, Unpermuted(LoraShape(l), axes, idx), k);
    forall e | 0 <= e <= n ensures x[e] == y[e] {
      assert e in axes by { HasAxis(axes, e); }
      var i := Position(axes, e);
      LastStays(axes, i);
      assert x[axes[i]] == IndexB(m, idx, k)[i];
    }
  }

  lemma HasAxis(axes: seq<nat>, e: nat)
    requires IsPermutation(axes) && e < |axes|
    ensures e in axes
  {
  }

  lemma PermuteIndexA(l: Lora, axes: seq<nat>, m: Lora, idx: Index, k: nat)
    requires Broadcasts(l) && AllOnes(Leads(l.A)) && |axes| == |l.B.shape| && IsPermutation(axes)
    requires axes[|axes| - 1] == |axes| - 1 && m == Lora(l.A, Permute(l.B, axes)) && Broadcasts(m)
    requires LoraShape(m) == PermutedShape(LoraShape(l), axes)
    requires InBounds(LoraShape(m), idx) && k < Rank(m) && k < Rank(l)
    ensures IndexA(m, idx, k) == IndexA(l, Unpermuted(LoraShape(l), axes, idx), k)
  {
    hide Permute;
    var n := |axes| - 1;
    var jdx := Unpermuted(LoraShape(l), axes, idx);
    assert jdx[axes[n]] == idx[n];
    assert Clipped(Leads(m.A), idx[..n - 1]) == Clipped(Leads(l.A), jdx[..n - 1]);
  }

  lemma PermuteKeepsShape(l: Lora, axes: seq<nat>, m: Lora)
    requires |axes| == |l.B.shape| && IsPermutation(axes)
    requires axes[|axes| - 1] == |axes| - 1 && m == Lora(l.A, Permute(l.B, axes))
    ensures LoraShape(m) == PermutedShape(LoraShape(l), axes)
  {
    var n := |axes| - 1;
    forall i | 0 <= i <= n ensures LoraShape(m)[i] == PermutedShape(LoraShape(l), axes)[i] {
      assert i < n ==> axes[i] != axes[n];
    }
  }

  lemma PermuteLeads(l: Lora, axes: seq<nat>, m: Lora)
    requires AllOnes(Leads(l.A)) && |axes| == |l.B.shape| && IsPermutation(axes)
    requires axes[|axes| - 1] == |axes| - 1 && m == Lora(l.A, Permute(l.B, axes)) && Broadcasts(l)
    ensures Broadcasts(m) && LoraShape(m) == PermutedShape(LoraShape(l), axes)
    ensures Merged(m) == Permute(Merged(l), axes)
  {
    hide Merged, Permute, Term;
    OnesBroadcast(m);
    PermuteKeepsShape(l, axes, m);
    forall idx | InBounds(LoraShape(m), idx) ensures At(Merged(m), idx) == At(Permute(Merged(l), axes), idx) {
      var jdx := Unpermuted(LoraShape(l), axes, idx);
      MergedAt(m, idx);
      PermuteAt(Merged(l), axes, idx);
      MergedAt(l, jdx);
      forall k | 0 <= k < Rank(m) ensures k < Rank(l) && Term(m, idx, k) == Term(l, jdx, k) {
        PermuteTerm(l, axes, m, idx, k);
      }
      assert Rank(m) == Rank(l);
      TermsEqual(m, idx, l, jdx, Rank(m));
    }
    TensorEqual(Merged(m), Permute(Merged(l), axes));
  }

  /** A matrix is transposed by transposing and exchanging its factors. */
  lemma TransposeMatrix(l: Lora, m: Lora)
    requires |l.B.shape| == 2 && IsPermutation([1, 0]) && m == Lora(Permute(l.B, [1, 0]), Permute(l.A, [1, 0]))
    ensures Broadcasts(l) && Broadcasts(m) && LoraShape(m) == PermutedShape(LoraShape(l), [1, 0])
    ensures Merged(m) == Permute(Merged(l), [1, 0])
  {
    hide Merged, Permute;
    var axes := [1, 0];
    assert LoraShape(m) == PermutedShape(LoraShape(l), axes);
    forall idx | InBounds(LoraShape(m), idx) ensures At(Merged(m), idx) == At(Permute(Merged(l), axes), idx) {
      var jdx := [idx[1], idx[0]];
      assert Unpermuted(LoraShape(l), axes, idx) == jdx by {
        var u := Unpermuted(LoraShape(l), axes, idx);
        assert u[axes[0]] == idx[0] && u[axes[1]] == idx[1];
      }
      MergedAt(m, idx);
      PermuteAt(Merged(l), axes, idx);
      MergedAt(l, jdx);
      forall k | 0 <= k < Rank(m) ensures k < Rank(l) && Term(m, idx, k) == Term(l, jdx, k) {
        TransposeTerm(l, m, idx, k);
      }
      assert Rank(m) == Rank(l);
      TermsEqual(m, idx, l, jdx, Rank(m));
    }
    TensorEqual(Merged(m), Permute(Merged(l), axes));
  }

  /** A term of the product of two matrices. */
  lemma MatrixTerm(l: Lora, i: nat, j: nat, k: nat)
    requires |l.B.shape| == 2 && i < l.B.shape[0] && j < RowSize(l) && k < Rank(l)
    ensures Broadcasts(l) && LoraShape(l) == [l.B.shape[0], RowSize(l)] && InBounds(LoraShape(l), [i, j])
    ensures InBounds(l.B.shape, [i, k]) && InBounds(l.A.shape, [k, j])
    ensures Term(l, [i, j], k) == At(l.B, [i, k]) * At(l.A, [k, j])
  {
    assert IndexB(l, [i, j], k) == [i, k];
    assert IndexA(l, [i, j], k) == [k, j];
  }

  lemma TransposedAt(t: Tensor, i: nat, j: nat)
    requires |t.shape| == 2 && IsPermutation([1, 0]) && i < t.shape[1] && j < t.shape[0]
    ensures InBounds(PermutedShape(t.shape, [1, 0]), [i, j]) && InBounds(t.shape, [j, i])
    ensures At(Permute(t, [1, 0]), [i, j]) == At(t, [j, i])
  {
    hide Permute;
    var axes := [1, 0];
    PermuteAt(t, axes, [i, j]);
    var u := Unpermuted(t.shape, axes, [i, j]);
    assert u[axes[0]] == i && u[axes[1]] == j;
    assert u == [j, i];
  }

  lemma TransposeTerm(l: Lora, m: Lora, idx: Index, k: nat)
    requires |l.B.shape| == 2 && IsPermutation([1, 0]) && m == Lora(Permute(l.B, [1, 0]), Permute(l.A, [1, 0]))
    requires InBounds(LoraShape(m), idx) && k < Rank(m)
    ensures InBounds(LoraShape(l), [idx[1], idx[0]]) && k < Rank(l)
    ensures Term(m, idx, k) == Term(l, [idx[1], idx[0]], k)
  {
    hide Permute, Term;
    assert idx == [idx[0], idx[1]];
    MatrixTerm(m, idx[0], idx[1], k);
    MatrixTerm(l, idx[1], idx[0], k);
    TransposedAt(l.B, k, idx[1]);
    TransposedAt(l.A, idx[0], k);
  }

  /** Permuting the pair permutes the axes of the weight it stands for, whenever the code accepts it. */
  lemma PermuteCommutes(l: Lora, dims: seq<int>, m: Lora)
    requires Broadcasts(l) && LoraPermute(l, dims) == Ok(m)
    ensures AreAxes(dims, |LoraShape(l)|) && IsPermutation(AxesOf(dims, |LoraShape(l)|))
    ensures var axes := AxesOf(dims, |LoraShape(l)|);
            Broadcasts(m) && LoraShape(m) == PermutedShape(LoraShape(l), axes) && Merged(m) == Permute(Merged(l), axes)
  {
    hide Merged, Permute, PermutedShape;
    var n := |LoraShape(l)|;
    var axes := AxesOf(dims, n);
    if FromEnd(dims[|dims| - 1], n) == -1 {
      PermuteLeads(l, axes, m);
    } else {
      assert axes == [1, 0];
      TransposeMatrix(l, m);
    }
  }

  lemma SwapIsPermutation(n: nat, a: nat, b: nat)
    requires a < n && b < n
    ensures AreAxes(SwappedAxes(n, a, b), n) && IsPermutation(AxesOf(SwappedAxes(n, a, b), n))
  {
    var axes := AxesOf(SwappedAxes(n, a, b), n);
    forall e | 0 <= e < n ensures e in axes {
      assert axes[if e == a then b else if e == b then a else e] == e;
    }
  }

  /** Exchanging two axes of the pair exchanges them in the weight it stands for. */
  lemma TransposeCommutes(l: Lora, dim0: int, dim1: int, m: Lora)
    requires Broadcasts(l) && LoraTranspose(l, dim0, dim1) == Ok(m)
    ensures var n := |LoraShape(l)|; var a, b := PlaceOf(dim0, n), PlaceOf(dim1, n);
            && 0 <= a < n && 0 <= b < n && AreAxes(SwappedAxes(n, a, b), n)
            && var axes := AxesOf(SwappedAxes(n, a, b), n);
            && IsPermutation(axes) && Broadcasts(m) && Merged(m) == Permute(Merged(l), axes)
  {
    hide Merged, Permute, LoraPermute;
    var n := |LoraShape(l)|;
    PermuteCommutes(l, SwappedAxes(n, PlaceOf(dim0, n), PlaceOf(dim1, n)), m);
  }
}
