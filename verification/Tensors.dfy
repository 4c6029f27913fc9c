/** Dense row-major tensors over the reals, as far as the converters use them: shapes, index maps and sums. */
module Tensors {
  import opened Arithmetic

  type Shape = seq<nat>
  type Index = seq<nat>

  /** The number of elements of a shape. */
  function Prod(shape: Shape): (n: nat) {
    if shape == [] then 1 else Prod(shape[..|shape| - 1]) * shape[|shape| - 1]
  }

  predicate InBounds(shape: Shape, idx: Index) {
    |idx| == |shape| && forall d :: 0 <= d < |shape| ==> idx[d] < shape[d]
  }

  /** The place of an element in memory. */
  function Offset(shape: Shape, idx: Index): (n: nat)
    requires InBounds(shape, idx)
    ensures n < Prod(shape)
  {
    if shape == [] then 0
    else
      var d := |shape| - 1;
      MulBounds(Offset(shape[..d], idx[..d]), Prod(shape[..d]), idx[d], shape[d]);
      Offset(shape[..d], idx[..d]) * shape[d] + idx[d]
  }

  /** The element at a place in memory. */
  function IndexAt(shape: Shape, n: nat): (idx: Index)
    requires n < Prod(shape)
    ensures InBounds(shape, idx)
    ensures Offset(shape, idx) == n
  {
    if shape == [] then []
    else
      var d := |shape| - 1;
      DivBound(n, Prod(shape[..d]), shape[d]);
      var front := IndexAt(shape[..d], n / shape[d]);
      var idx := front + [n % shape[d]];
      assert idx[..d] == front;
      idx
  }

  lemma {:induction false} IndexAtOffset(shape: Shape, idx: Index)
    requires InBounds(shape, idx)
    ensures IndexAt(shape, Offset(shape, idx)) == idx
  {
    if shape == [] {
    } else {
      var d := |shape| - 1;
      IndexAtOffset(shape[..d], idx[..d]);
      DivModUnique(Offset(shape[..d], idx[..d]), shape[d], idx[d]);
      assert idx == idx[..d] + [idx[d]];
    }
  }

  datatype RawTensor = Tensor(shape: Shape, data: seq<real>)

  predicate IsTensor(t: RawTensor) { |t.data| == Prod(t.shape) }

  type Tensor = t: RawTensor | IsTensor(t) witness Tensor([0], [])

  function At(t: Tensor, idx: Index): (x: real)
    requires InBounds(t.shape, idx)
  {
    t.data[Offset(t.shape, idx)]
  }

  /** The tensor with the given elements. */
  function Build(shape: Shape, f: Index --> real): (t: Tensor)
    requires forall idx :: InBounds(shape, idx) ==> f.requires(idx)
    ensures t.shape == shape
  {
    Tensor(shape, seq(Prod(shape), n requires 0 <= n < Prod(shape) => f(IndexAt(shape, n))))
  }

  lemma BuildAt(shape: Shape, f: Index --> real, idx: Index)
    requires forall i :: InBounds(shape, i) ==> f.requires(i)
    requires InBounds(shape, idx)
    ensures At(Build(shape, f), idx) == f(idx)
  {
    IndexAtOffset(shape, idx);
  }

  /** A tensor is determined by its shape and its elements. */
  lemma TensorEqual(s: Tensor, t: Tensor)
    requires s.shape == t.shape
    requires forall idx :: InBounds(s.shape, idx) ==> At(s, idx) == At(t, idx)
    ensures s == t
  {
    forall n | 0 <= n < |s.data| ensures s.data[n] == t.data[n] {
      var idx := IndexAt(s.shape, n);
      assert At(s, idx) == At(t, idx);
    }
  }

  // ---------- Operations on tensors

  /** The same elements in the same order under another shape. */
  function Reshape(t: Tensor, shape: Shape): (r: Tensor)
    requires Prod(shape) == Prod(t.shape)
    ensures r.shape == shape && r.data == t.data
  {
    Tensor(shape, t.data)
  }

  /** Each axis once. */
  predicate IsPermutation(dims: seq<nat>) {
    && (forall e :: 0 <= e < |dims| ==> e in dims)
    && (forall i, j :: 0 <= i < j < |dims| ==> dims[i] != dims[j])
    && (forall i :: 0 <= i < |dims| ==> dims[i] < |dims|)
  }

  /** Where axis e stands. */
  function Position(dims: seq<nat>, e: nat): (i: nat)
    requires e in dims
    ensures i < |dims| && dims[i] == e
  {
    if dims[0] == e then 0 else 1 + Position(dims[1..], e)
  }

  function PermutedShape(shape: Shape, dims: seq<nat>): (r: Shape)
    requires |dims| == |shape| && IsPermutation(dims)
    ensures |r| == |shape| && forall i :: 0 <= i < |r| ==> r[i] == shape[dims[i]]
  {
    seq(|shape|, i requires 0 <= i < |shape| => shape[dims[i]])
  }

  /** The index that the permuted tensor's index stands for. */
  function Unpermuted(shape: Shape, dims: seq<nat>, idx: Index): (r: Index)
    requires |dims| == |shape| && IsPermutation(dims) && InBounds(PermutedShape(shape, dims), idx)
    ensures InBounds(shape, r)
    ensures forall i :: 0 <= i < |dims| ==> r[dims[i]] == idx[i]
  {
    seq(|shape|, e requires 0 <= e < |shape| => idx[Position(dims, e)])
  }

  function Permute(t: Tensor, dims: seq<nat>): (r: Tensor)
    requires |dims| == |t.shape| && IsPermutation(dims)
    ensures r.shape == PermutedShape(t.shape, dims)
  {
    var shape := PermutedShape(t.shape, dims);
    Build(shape, (idx: Index) requires InBounds(shape, idx) => At(t, Unpermuted(t.shape, dims, idx)))
  }

  lemma PermuteAt(t: Tensor, dims: seq<nat>, idx: Index)
    requires |dims| == |t.shape| && IsPermutation(dims) && InBounds(PermutedShape(t.shape, dims), idx)
    ensures At(Permute(t, dims), idx) == At(t, Unpermuted(t.shape, dims, idx))
  {
    var shape := PermutedShape(t.shape, dims);
    BuildAt(shape, (i: Index) requires InBounds(shape, i) => At(t, Unpermuted(t.shape, dims, i)), idx);
  }

  /** A selection on one axis: a single place, which drops the axis, or a list of places. */
  datatype Select = Pick(i: nat) | Take(places: seq<nat>)

  predicate Selects(shape: Shape, sel: seq<Select>) {
    |sel| == |shape| &&
    forall d :: 0 <= d < |shape| ==>
      match sel[d]
      case Pick(i) => i < shape[d]
      case Take(ps) => forall p :: 0 <= p < |ps| ==> ps[p] < shape[d]
  }

  function SelectedShape(sel: seq<Select>): (shape: Shape) {
    if sel == [] then []
    else
      var d := |sel| - 1;
      SelectedShape(sel[..d]) + if sel[d].Pick? then [] else [|sel[d].places|]
  }

  /** The index that an index of the selection stands for. */
  function Selected(shape: Shape, sel: seq<Select>, idx: Index): (r: Index)
    requires Selects(shape, sel) && InBounds(SelectedShape(sel), idx)
    ensures InBounds(shape, r)
  {
    if sel == [] then []
    else
      var d := |sel| - 1;
      if sel[d].Pick? then Selected(shape[..d], sel[..d], idx) + [sel[d].i]
      else
        var m := |idx| - 1;
        Selected(shape[..d], sel[..d], idx[..m]) + [sel[d].places[idx[m]]]
  }

  function SelectFrom(t: Tensor, sel: seq<Select>): (r: Tensor)
    requires Selects(t.shape, sel)
    ensures r.shape == SelectedShape(sel)
  {
    var shape := SelectedShape(sel);
    Build(shape, (idx: Index) requires InBounds(shape, idx) => At(t, Selected(t.shape, sel, idx)))
  }

  lemma SelectAt(t: Tensor, sel: seq<Select>, idx: Index)
    requires Selects(t.shape, sel) && InBounds(SelectedShape(sel), idx)
    ensures At(SelectFrom(t, sel), idx) == At(t, Selected(t.shape, sel, idx))
  {
    var shape := SelectedShape(sel);
    BuildAt(shape, (i: Index) requires InBounds(shape, i) => At(t, Selected(t.shape, sel, i)), idx);
  }

  /** Tensors of one shape, stacked on a new first axis. */
  predicate SameShapes(ts: seq<Tensor>) {
    ts != [] && forall i :: 0 <= i < |ts| ==> ts[i].shape == ts[0].shape
  }

  function Stack(ts: seq<Tensor>): (r: Tensor)
    requires SameShapes(ts)
    ensures r.shape == [|ts|] + ts[0].shape
  {
    var shape := [|ts|] + ts[0].shape;
    Build(shape, (idx: Index) requires InBounds(shape, idx) => StackElement(ts, idx))
  }

  function StackElement(ts: seq<Tensor>, idx: Index): (x: real)
    requires SameShapes(ts) && InBounds([|ts|] + ts[0].shape, idx)
  {
    assert forall d :: 0 <= d < |ts[0].shape| ==>
      idx[1..][d] == idx[d + 1] && ([|ts|] + ts[0].shape)[d + 1] == ts[0].shape[d];
    At(ts[idx[0]], idx[1..])
  }

  lemma StackAt(ts: seq<Tensor>, idx: Index)
    requires SameShapes(ts) && InBounds([|ts|] + ts[0].shape, idx)
    ensures At(Stack(ts), idx) == StackElement(ts, idx)
  {
    var shape := [|ts|] + ts[0].shape;
    BuildAt(shape, (i: Index) requires InBounds(shape, i) => StackElement(ts, i), idx);
  }

  /** Two tensors that agree on all axes but the first, one after the other. */
  predicate Catable(s: Tensor, t: Tensor) {
    |s.shape| == |t.shape| && s.shape != [] && s.shape[1..] == t.shape[1..]
  }

  function CatShape(s: Shape, t: Shape): (shape: Shape)
    requires s != [] && t != []
  {
    [s[0] + t[0]] + s[1..]
  }

  function CatElement(s: Tensor, t: Tensor, idx: Index): (x: real)
    requires Catable(s, t) && InBounds(CatShape(s.shape, t.shape), idx)
  {
    var shape := CatShape(s.shape, t.shape);
    assert forall d :: 1 <= d < |shape| ==>
      shape[d] == s.shape[1..][d - 1] == s.shape[d] && s.shape[d] == t.shape[1..][d - 1] == t.shape[d];
    if idx[0] < s.shape[0] then At(s, idx) else At(t, [idx[0] - s.shape[0]] + idx[1..])
  }

  function Cat(s: Tensor, t: Tensor): (r: Tensor)
    requires Catable(s, t)
    ensures r.shape == CatShape(s.shape, t.shape)
  {
    var shape := CatShape(s.shape, t.shape);
    Build(shape, (idx: Index) requires InBounds(shape, idx) => CatElement(s, t, idx))
  }

  lemma CatAt(s: Tensor, t: Tensor, idx: Index)
    requires Catable(s, t) && InBounds(CatShape(s.shape, t.shape), idx)
    ensures At(Cat(s, t), idx) == CatElement(s, t, idx)
  {
    var shape := CatShape(s.shape, t.shape);
    BuildAt(shape, (i: Index) requires InBounds(shape, i) => CatElement(s, t, i), idx);
  }

  /** A selection on the first axis, the other axes whole. */
  predicate SelectsFirst(shape: Shape, s: Select) {
    shape != [] &&
    match s
    case Pick(i) => i < shape[0]
    case Take(ps) => forall p :: 0 <= p < |ps| ==> ps[p] < shape[0]
  }

  function FirstShape(shape: Shape, s: Select): (r: Shape)
    requires shape != []
  {
    (if s.Pick? then [] else [|s.places|]) + shape[1..]
  }

  lemma PrependInBounds(n: nat, tail: Shape, i: nat, idx: Index)
    requires i < n && InBounds(tail, idx)
    ensures InBounds([n] + tail, [i] + idx)
  {
  }

  lemma TailInBounds(n: nat, tail: Shape, idx: Index)
    requires InBounds([n] + tail, idx)
    ensures idx != [] && idx[0] < n && InBounds(tail, idx[1..])
  {
    assert forall d :: 0 <= d < |tail| ==> ([n] + tail)[d + 1] == tail[d];
  }

  function FirstIndex(shape: Shape, s: Select, idx: Index): (r: Index)
    requires SelectsFirst(shape, s) && InBounds(FirstShape(shape, s), idx)
    ensures InBounds(shape, r)
  {
    assert shape == [shape[0]] + shape[1..];
    var tail := shape[1..];
    if s.Pick? then
      assert FirstShape(shape, s) == tail;
      PrependInBounds(shape[0], tail, s.i, idx);
      [s.i] + idx
    else
      TailInBounds(|s.places|, tail, idx);
      PrependInBounds(shape[0], tail, s.places[idx[0]], idx[1..]);
      [s.places[idx[0]]] + idx[1..]
  }

  function SelectFirst(t: Tensor, s: Select): (r: Tensor)
    requires SelectsFirst(t.shape, s)
    ensures r.shape == FirstShape(t.shape, s)
  {
    var shape := FirstShape(t.shape, s);
    Build(shape, (idx: Index) requires InBounds(shape, idx) => At(t, FirstIndex(t.shape, s, idx)))
  }

  lemma SelectFirstAt(t: Tensor, s: Select, idx: Index)
    requires SelectsFirst(t.shape, s) && InBounds(FirstShape(t.shape, s), idx)
    ensures At(SelectFirst(t, s), idx) == At(t, FirstIndex(t.shape, s, idx))
  {
    var shape := FirstShape(t.shape, s);
    BuildAt(shape, (i: Index) requires InBounds(shape, i) => At(t, FirstIndex(t.shape, s, i)), idx);
  }

  predicate AllCatable(ts: seq<Tensor>) {
    ts != [] && forall i :: 0 <= i < |ts| ==> Catable(ts[0], ts[i])
  }

  /** Any number of tensors, one after the other on the first axis. */
  function CatAll(ts: seq<Tensor>): (r: Tensor)
    requires AllCatable(ts)
    ensures Catable(ts[0], r)
  {
    if |ts| == 1 then ts[0] else Cat(CatAll(ts[..|ts| - 1]), ts[|ts| - 1])
  }
}
