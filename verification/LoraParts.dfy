/** Indexing, stacking and concatenating factor pairs (convert_lora_to_gguf.py). */
module LoraParts {
  import opened Tensors
  import opened Loras

  // ---------- Python subscripts

  datatype Bound = Open | Limit(i: int)

  type Step = n: nat | n > 0 witness 1

  datatype Slice = Slice(start: Bound, stop: Bound, step: Step)

  const FULL := Slice(Open, Open, 1)

  datatype Item = Int(i: int) | Cut(s: Slice) | Ellipsis

  function Clamp(b: Bound, open: nat, dim: nat): (p: nat)
    requires open <= dim
    ensures p <= dim
  {
    if b.Open? then open
    else if b.i < 0 then (if dim + b.i < 0 then 0 else dim + b.i)
    else if b.i > dim then dim
    else b.i
  }

  function Steps(start: nat, stop: nat, step: Step): (ps: seq<nat>)
    ensures forall p :: 0 <= p < |ps| ==> ps[p] < stop
    decreases if start < stop then stop - start else 0
  {
    if start >= stop then [] else [start] + Steps(start + step, stop, step)
  }

  /** The places a slice takes on an axis of the given size. */
  function Places(s: Slice, dim: nat): (ps: seq<nat>)
    ensures forall p :: 0 <= p < |ps| ==> ps[p] < dim
  {
    Steps(Clamp(s.start, 0, dim), Clamp(s.stop, dim, dim), s.step)
  }

  function All(dim: nat): (ps: seq<nat>)
    ensures |ps| == dim && forall p :: 0 <= p < dim ==> ps[p] == p
  {
    seq(dim, p => p)
  }

  predicate InRange(item: Item, dim: nat) {
    item.Int? ==> 0 <= PlaceOf(item.i, dim) < dim
  }

  /** What one subscript selects on an axis. */
  function SelectOne(item: Item, dim: nat): (s: Select)
    requires InRange(item, dim)
  {
    match item
    case Int(i) => Pick(PlaceOf(i, dim))
    case Cut(sl) => Take(Places(sl, dim))
    case Ellipsis => Take(All(dim))
  }

  predicate AllInRange(items: seq<Item>, shape: Shape) {
    |items| == |shape| && forall d :: 0 <= d < |shape| ==> InRange(items[d], shape[d])
  }

  function SelectAll(items: seq<Item>, shape: Shape): (sel: seq<Select>)
    requires AllInRange(items, shape)
    ensures Selects(shape, sel)
    ensures |sel| == |shape| && forall d :: 0 <= d < |shape| ==> sel[d] == SelectOne(items[d], shape[d])
  {
    seq(|shape|, d requires 0 <= d < |shape| => SelectOne(items[d], shape[d]))
  }

  function Whole(shape: Shape): (sel: seq<Select>)
    ensures Selects(shape, sel) && |sel| == |shape|
    ensures forall d :: 0 <= d < |shape| ==> sel[d] == Take(All(shape[d]))
  {
    seq(|shape|, d requires 0 <= d < |shape| => Take(All(shape[d])))
  }

  // ---------- A slice of rows

  /** A slice of a matrix: A as it is, rows of B. */
  function GetRows(l: Lora, s: Slice): (r: Result)
    requires |l.A.shape| == 2
  {
    Pair(l.A, SelectFirst(l.B, Take(Places(s, l.B.shape[0]))))
  }

  /** One term of a selection of rows. */
  lemma RowsTerm(l: Lora, s: Select, m: Lora, i: nat, j: nat, k: nat)
    requires |l.A.shape| == 2 && s.Take? && SelectsFirst(l.B.shape, s) && m == Lora(l.A, SelectFirst(l.B, s))
    requires i < |s.places| && j < RowSize(l) && k < Rank(l) && Broadcasts(l) && Broadcasts(m)
    ensures Rank(m) == Rank(l) && LoraShape(m) == [|s.places|, RowSize(l)]
    ensures LoraShape(l) == [l.B.shape[0], RowSize(l)] && InBounds(LoraShape(l), [s.places[i], j])
    ensures Term(m, [i, j], k) == Term(l, [s.places[i], j], k)
  {
    hide SelectFirst, Term;
    assert FirstShape(l.B.shape, s) == [|s.places|, Rank(l)];
    MatrixTerm(m, i, j, k);
    MatrixTerm(l, s.places[i], j, k);
    SelectFirstAt(l.B, s, [i, k]);
    assert FirstIndex(l.B.shape, s, [i, k]) == [s.places[i], k];
  }

  /** A slice of rows of the pair is that slice of the rows of its matrix. */
  lemma RowsCommute(l: Lora, slice: Slice, m: Lora)
    requires |l.A.shape| == 2 && GetRows(l, slice) == Ok(m)
    ensures Broadcasts(l) && Broadcasts(m)
    ensures Merged(m) == SelectFirst(Merged(l), Take(Places(slice, LoraShape(l)[0])))
  {
    hide Merged, SelectFirst, Term, Places, Terms, Prod;
    var s := Take(Places(slice, LoraShape(l)[0]));
    var t := SelectFirst(Merged(l), s);
    assert LoraShape(m) == t.shape == [|s.places|, RowSize(l)];
    forall idx | InBounds(LoraShape(m), idx) ensures At(Merged(m), idx) == At(t, idx) {
      var jdx := [s.places[idx[0]], idx[1]];
      assert idx == [idx[0], idx[1]];
      MergedAt(m, idx);
      SelectFirstAt(Merged(l), s, idx);
      assert FirstIndex(LoraShape(l), s, idx) == jdx;
      MergedAt(l, jdx);
      forall k | 0 <= k < Rank(m) ensures k < Rank(l) && Term(m, idx, k) == Term(l, jdx, k) {
        RowsTerm(l, s, m, idx[0], idx[1], k);
      }
      TermsEqual(m, idx, l, jdx, Rank(m));
    }
    TensorEqual(Merged(m), t);
  }

  // ---------- stack

  function FactorsA(ls: seq<Lora>): (ts: seq<Tensor>)
    ensures |ts| == |ls| && forall i :: 0 <= i < |ls| ==> ts[i] == ls[i].A
  {
    seq(|ls|, i requires 0 <= i < |ls| => ls[i].A)
  }

  function FactorsB(ls: seq<Lora>): (ts: seq<Tensor>)
    ensures |ts| == |ls| && forall i :: 0 <= i < |ls| ==> ts[i] == ls[i].B
  {
    seq(|ls|, i requires 0 <= i < |ls| => ls[i].B)
  }

  function Products(ls: seq<Lora>): (ts: seq<Tensor>)
    requires forall i :: 0 <= i < |ls| ==> Broadcasts(ls[i])
    ensures |ts| == |ls| && forall i :: 0 <= i < |ls| ==> ts[i] == Merged(ls[i])
  {
    seq(|ls|, i requires 0 <= i < |ls| => Merged(ls[i]))
  }

  /** torch.stack on the first axis. */
  function LoraStack(ls: seq<Lora>): (r: Result) {
    if !SameShapes(FactorsA(ls)) || !SameShapes(FactorsB(ls)) then Rejected
    else Pair(Stack(FactorsA(ls)), Stack(FactorsB(ls)))
  }

  lemma StackShapes(ls: seq<Lora>, m: Lora, i: nat)
    requires i < |ls| && LoraStack(ls) == Ok(m)
    ensures m.A.shape == [|ls|] + ls[i].A.shape && m.B.shape == [|ls|] + ls[i].B.shape
    ensures m == Lora(Stack(FactorsA(ls)), Stack(FactorsB(ls))) && Rank(m) == Rank(ls[i]) && |ls[i].A.shape| >= 2
    ensures LoraShape(m) == [|ls|] + LoraShape(ls[i])
    ensures Leads(m.A) == [|ls|] + Leads(ls[i].A) && Leads(m.B) == [|ls|] + Leads(ls[i].B)
  {
    hide Stack;
    assert FactorsA(ls)[i].shape == FactorsA(ls)[0].shape && FactorsB(ls)[i].shape == FactorsB(ls)[0].shape;
  }

  lemma StackBroadcasts(ls: seq<Lora>, m: Lora)
    requires LoraStack(ls) == Ok(m) && forall i :: 0 <= i < |ls| ==> Broadcasts(ls[i])
    ensures ls != [] && Broadcasts(m)
  {
    assert |FactorsA(ls)| == |ls|;
    StackShapes(ls, m, 0);
    assert Broadcasts(ls[0]);
  }

  lemma StackIndexB(ls: seq<Lora>, m: Lora, idx: Index, k: nat)
    requires LoraStack(ls) == Ok(m) && InBounds(LoraShape(m), idx) && k < Rank(m) && idx != [] && idx[0] < |ls|
    requires k < Rank(ls[idx[0]]) && InBounds(LoraShape(ls[idx[0]]), idx[1..])
    ensures IndexB(m, idx, k) == [idx[0]] + IndexB(ls[idx[0]], idx[1..], k)
  {
    hide LoraStack, InBounds;
    assert |idx| == |LoraShape(m)| && |idx[1..]| == |LoraShape(ls[idx[0]])| by {
      SameLength(LoraShape(m), idx);
      SameLength(LoraShape(ls[idx[0]]), idx[1..]);
    }
    StackShapes(ls, m, idx[0]);
  }

  lemma SameLength(shape: Shape, idx: Index)
    requires InBounds(shape, idx)
    ensures |idx| == |shape|
  {
  }

  lemma LeadsFitA(l: Lora, idx: Index)
    requires Broadcasts(l) && InBounds(LoraShape(l), idx)
    ensures |idx| == |l.A.shape| >= 2
    ensures forall d :: 0 <= d < |idx| - 2 ==> Leads(l.A)[d] == 1 || idx[d] < Leads(l.A)[d]
  {
    assert forall d :: 0 <= d < |idx| - 2 ==> LoraShape(l)[d] == l.B.shape[d] == Leads(l.B)[d];
  }

  lemma StackIndexA(ls: seq<Lora>, m: Lora, idx: Index, k: nat)
    requires LoraStack(ls) == Ok(m) && InBounds(LoraShape(m), idx) && k < Rank(m) && idx != [] && idx[0] < |ls|
    requires k < Rank(ls[idx[0]]) && InBounds(LoraShape(ls[idx[0]]), idx[1..]) && Broadcasts(m)
             && Broadcasts(ls[idx[0]])
    ensures IndexA(m, idx, k) == [idx[0]] + IndexA(ls[idx[0]], idx[1..], k)
  {
    hide LoraStack, Clipped, InBounds, LoraShape, Broadcasts;
    StackShapes(ls, m, idx[0]);
    var l := ls[idx[0]];
    LeadsFitA(m, idx);
    LeadsFitA(l, idx[1..]);
    var n := |idx|;
    assert idx[..n - 2] == [idx[0]] + idx[1..][..n - 3];
    ClippedPrepend(|ls|, Leads(l.A), idx[0], idx[1..][..n - 3]);
  }

  lemma ClippedPrepend(n: nat, leads: Shape, i: nat, idx: Index)
    requires i < n && |idx| == |leads| && forall d :: 0 <= d < |leads| ==> leads[d] == 1 || idx[d] < leads[d]
    ensures forall d :: 0 <= d < |leads| + 1 ==> ([n] + leads)[d] == 1 || ([i] + idx)[d] < ([n] + leads)[d]
    ensures Clipped([n] + leads, [i] + idx) == [i] + Clipped(leads, idx)
  {
  }

  lemma StackedAt(ts: seq<Tensor>, i: nat, idx: Index)
    requires SameShapes(ts) && i < |ts| && InBounds([|ts|] + ts[0].shape, [i] + idx) && InBounds(ts[i].shape, idx)
    ensures At(Stack(ts), [i] + idx) == At(ts[i], idx)
  {
    StackAt(ts, [i] + idx);
    assert ([i] + idx)[1..] == idx;
  }

  lemma StackTerm(ls: seq<Lora>, m: Lora, idx: Index, k: nat)
    requires LoraStack(ls) == Ok(m) && InBounds(LoraShape(m), idx) && k < Rank(m) && idx != [] && idx[0] < |ls|
    requires k < Rank(ls[idx[0]]) && InBounds(LoraShape(ls[idx[0]]), idx[1..]) && Broadcasts(m)
             && Broadcasts(ls[idx[0]])
    ensures Term(m, idx, k) == Term(ls[idx[0]], idx[1..], k)
  {
    hide Stack, LoraShape, IndexA, IndexB;
    var i, l := idx[0], ls[idx[0]];
    StackShapes(ls, m, i);
    StackIndexA(ls, m, idx, k);
    StackIndexB(ls, m, idx, k);
    StackedAt(FactorsA(ls), i, IndexA(l, idx[1..], k));
    StackedAt(FactorsB(ls), i, IndexB(l, idx[1..], k));
  }

  /** Stacking pairs stacks the weights they stand for. */
  lemma StackCommutes(ls: seq<Lora>, m: Lora)
    requires LoraStack(ls) == Ok(m) && forall i :: 0 <= i < |ls| ==> Broadcasts(ls[i])
    ensures Broadcasts(m) && SameShapes(Products(ls)) && Merged(m) == Stack(Products(ls))
  {
    hide Merged, Stack, LoraStack, LoraShape, At, InBounds, Broadcasts;
    StackBroadcasts(ls, m) by { hide Merged; }
    StackShapes(ls, m, 0);
    ProductsAlike(ls, m);
    var t := Stack(Products(ls));
    forall idx | InBounds(LoraShape(m), idx) ensures At(Merged(m), idx) == At(t, idx) {
      StackMergedAt(ls, m, idx);
    }
    TensorEqual(Merged(m), t);
  }

  lemma ProductsAlike(ls: seq<Lora>, m: Lora)
    requires LoraStack(ls) == Ok(m) && forall i :: 0 <= i < |ls| ==> Broadcasts(ls[i])
    ensures SameShapes(Products(ls))
  {
    assert ls != [];
    hide Merged, LoraStack, LoraShape, Broadcasts;
    StackShapes(ls, m, 0);
    forall i | 0 <= i < |ls| ensures LoraShape(ls[i]) == LoraShape(ls[0]) {
      StackShapes(ls, m, i);
      assert LoraShape(ls[i]) == LoraShape(m)[1..] == LoraShape(ls[0]);
    }
  }

  lemma StackMergedAt(ls: seq<Lora>, m: Lora, idx: Index)
    requires LoraStack(ls) == Ok(m) && (forall i :: 0 <= i < |ls| ==> Broadcasts(ls[i])) && Broadcasts(m)
    requires SameShapes(Products(ls)) && InBounds(LoraShape(m), idx)
    requires LoraShape(m) == [|ls|] + LoraShape(ls[0])
    ensures At(Merged(m), idx) == At(Stack(Products(ls)), idx)
  {
    hide Merged, Stack, LoraStack, Term, LoraShape, At, InBounds, Broadcasts;
    TailInBounds(|ls|, LoraShape(ls[0]), idx);
    var l, jdx := ls[idx[0]], idx[1..];
    StackShapes(ls, m, idx[0]);
    assert LoraShape(l) == Products(ls)[idx[0]].shape == Products(ls)[0].shape == LoraShape(ls[0]);
    MergedAt(m, idx);
    MergedAt(l, jdx);
    assert idx == [idx[0]] + jdx;
    StackedAt(Products(ls), idx[0], jdx);
    forall k | 0 <= k < Rank(m) ensures k < Rank(l) && Term(m, idx, k) == Term(l, jdx, k) {
      StackTerm(ls, m, idx, k);
    }
    TermsEqual(m, idx, l, jdx, Rank(m));
  }

  // ---------- cat

  /** torch.cat on the first axis of matrices: only B is concatenated, and all A must be equal. */
  function LoraCat(ls: seq<Lora>): (r: Result)
    requires ls != [] && |ls[0].A.shape| == 2
  {
    if exists i :: 1 <= i < |ls| && ls[i].A != ls[0].A then NotImplemented
    else if !AllCatable(FactorsB(ls)) then Rejected
    else Pair(ls[0].A, CatAll(FactorsB(ls)))
  }

  lemma MatrixCatAt(s: Tensor, t: Tensor, u: Tensor, gap: nat, i: nat, k: nat)
    requires |s.shape| == 2 && Catable(s, t) && i < s.shape[0] + t.shape[0] && k < s.shape[1]
    requires (u == s && gap == 0 && i < s.shape[0]) || (u == t && gap == s.shape[0] <= i)
    ensures At(Cat(s, t), [i, k]) == At(u, [i - gap, k])
  {
    hide Cat, At;
    assert CatShape(s.shape, t.shape) == [s.shape[0] + t.shape[0], s.shape[1]];
    CatAt(s, t, [i, k]);
    assert [i - s.shape[0]] + [i, k][1..] == [i - s.shape[0], k];
  }

  /** A term of a pair with two matrices in a row belongs to one of them. */
  lemma CatTerm(A: Tensor, s: Tensor, t: Tensor, u: Tensor, gap: nat, i: nat, j: nat, k: nat)
    requires |A.shape| == |s.shape| == 2 && Catable(s, t) && A.shape[0] == s.shape[1] == t.shape[1]
    requires (u == s && gap == 0 && i < s.shape[0]) || (u == t && gap == s.shape[0] <= i)
    requires i < s.shape[0] + t.shape[0] && j < A.shape[1] && k < A.shape[0]
    ensures IsLora(Lora(A, Cat(s, t))) && IsLora(Lora(A, u))
    ensures Broadcasts(Lora(A, u)) && InBounds(LoraShape(Lora(A, u)), [i - gap, j])
    ensures Broadcasts(Lora(A, Cat(s, t))) && InBounds(LoraShape(Lora(A, Cat(s, t))), [i, j])
    ensures Term(Lora(A, Cat(s, t)), [i, j], k) == Term(Lora(A, u), [i - gap, j], k)
  {
    hide Cat, Term, At, Broadcasts, LoraShape, InBounds;
    assert CatShape(s.shape, t.shape) == [s.shape[0] + t.shape[0], s.shape[1]];
    MatrixTerm(Lora(A, Cat(s, t)), i, j, k);
    MatrixTerm(Lora(A, u), i - gap, j, k);
    MatrixCatAt(s, t, u, gap, i, k);
  }

  lemma CatTwo(A: Tensor, s: Tensor, t: Tensor)
    requires IsLora(Lora(A, s)) && IsLora(Lora(A, t)) && |A.shape| == 2 && Catable(s, t)
    ensures IsLora(Lora(A, Cat(s, t))) && Broadcasts(Lora(A, s)) && Broadcasts(Lora(A, t))
            && Broadcasts(Lora(A, Cat(s, t)))
    ensures Catable(Merged(Lora(A, s)), Merged(Lora(A, t)))
    ensures Merged(Lora(A, Cat(s, t))) == Cat(Merged(Lora(A, s)), Merged(Lora(A, t)))
  {
    hide Merged, Cat, Term;
    assert CatShape(s.shape, t.shape) == [s.shape[0] + t.shape[0], s.shape[1]];
    var m: Lora := Lora(A, Cat(s, t));
    var x: Lora, y: Lora := Lora(A, s), Lora(A, t);
    var c := Cat(Merged(x), Merged(y));
    assert LoraShape(m) == c.shape == [s.shape[0] + t.shape[0], A.shape[1]];
    forall idx | InBounds(LoraShape(m), idx) ensures At(Merged(m), idx) == At(c, idx) {
      var i, j := idx[0], idx[1];
      assert idx == [i, j];
      MergedAt(m, idx);
      CatAt(Merged(x), Merged(y), idx);
      if i < s.shape[0] {
        MergedAt(x, idx);
        forall k | 0 <= k < Rank(m)
          ensures k < Rank(x) && Term(m, idx, k) == Term(x, idx, k)
        {
          CatTerm(A, s, t, s, 0, i, j, k);
        }
        TermsEqual(m, idx, x, idx, Rank(m));
      } else {
        var jdx := [i - s.shape[0], j];
        assert [i - s.shape[0]] + idx[1..] == jdx;
        MergedAt(y, jdx);
        forall k | 0 <= k < Rank(m)
          ensures k < Rank(y) && Term(m, idx, k) == Term(y, jdx, k)
        {
          CatTerm(A, s, t, t, s.shape[0], i, j, k);
        }
        TermsEqual(m, idx, y, jdx, Rank(m));
      }
    }
    TensorEqual(Merged(m), c);
  }

  /** The pairs of one A with each of several B. */
  predicate ShareA(A: Tensor, bs: seq<Tensor>) {
    |A.shape| == 2 && forall i :: 0 <= i < |bs| ==> IsLora(Lora(A, bs[i]))
  }

  function ProductsWith(A: Tensor, bs: seq<Tensor>): (ts: seq<Tensor>)
    requires ShareA(A, bs)
    ensures |ts| == |bs|
    ensures forall i :: 0 <= i < |bs| ==> Broadcasts(Lora(A, bs[i])) && ts[i] == Merged(Lora(A, bs[i]))
  {
    seq(|bs|, i requires 0 <= i < |bs| => Merged(Lora(A, bs[i])))
  }

  lemma ProductsCatable(A: Tensor, bs: seq<Tensor>)
    requires ShareA(A, bs) && AllCatable(bs)
    ensures AllCatable(ProductsWith(A, bs))
  {
    hide Merged;
    var ps := ProductsWith(A, bs);
    forall i | 0 <= i < |ps| ensures Catable(ps[0], ps[i]) {
      assert ps[0].shape == [bs[0].shape[0], A.shape[1]] && ps[i].shape == [bs[i].shape[0], A.shape[1]];
    }
  }

  lemma FrontCatable(A: Tensor, bs: seq<Tensor>)
    requires ShareA(A, bs) && AllCatable(bs) && |bs| > 1
    ensures var n := |bs| - 1;
            ShareA(A, bs[..n]) && AllCatable(bs[..n]) && ProductsWith(A, bs[..n]) == ProductsWith(A, bs)[..n]
            && Catable(CatAll(bs[..n]), bs[n]) && CatAll(bs) == Cat(CatAll(bs[..n]), bs[n])
  {
    hide *;
    var n := |bs| - 1;
    FrontShares(A, bs);
    FrontAllCatable(bs);
    CatableTogether(bs[0], CatAll(bs[..n]), bs[n]);
    CatAllSnoc(bs);
  }

  lemma FrontShares(A: Tensor, bs: seq<Tensor>)
    requires ShareA(A, bs) && bs != []
    ensures ShareA(A, bs[..|bs| - 1]) && ProductsWith(A, bs[..|bs| - 1]) == ProductsWith(A, bs)[..|bs| - 1]
  {
    hide Merged, IsLora;
  }

  lemma FrontAllCatable(bs: seq<Tensor>)
    requires AllCatable(bs) && |bs| > 1
    ensures AllCatable(bs[..|bs| - 1]) && Catable(bs[0], CatAll(bs[..|bs| - 1])) && Catable(bs[0], bs[|bs| - 1])
  {
    hide Cat, Catable;
    var front := bs[..|bs| - 1];
    assert front[0] == bs[0];
    assert forall i :: 0 <= i < |front| ==> front[i] == bs[i];
  }

  lemma CatableTogether(s: Tensor, t: Tensor, u: Tensor)
    requires Catable(s, t) && Catable(s, u)
    ensures Catable(t, u)
  {
  }

  lemma CatAllSnoc(bs: seq<Tensor>)
    requires AllCatable(bs) && |bs| > 1 && AllCatable(bs[..|bs| - 1]) && Catable(CatAll(bs[..|bs| - 1]), bs[|bs| - 1])
    ensures CatAll(bs) == Cat(CatAll(bs[..|bs| - 1]), bs[|bs| - 1])
  {
    hide Cat;
  }

  lemma {:induction false} CatAllB(A: Tensor, bs: seq<Tensor>)
    requires ShareA(A, bs) && AllCatable(bs)
    ensures IsLora(Lora(A, CatAll(bs))) && Broadcasts(Lora(A, CatAll(bs)))
    ensures AllCatable(ProductsWith(A, bs)) && Merged(Lora(A, CatAll(bs))) == CatAll(ProductsWith(A, bs))
    decreases |bs|
  {
    hide Merged, Cat, Catable, AllCatable, ProductsWith;
    ProductsCatable(A, bs);
    var n := |bs| - 1;
    if n > 0 {
      FrontCatable(A, bs);
      CatAllB(A, bs[..n]);
      CatTwo(A, CatAll(bs[..n]), bs[n]);
    } else {
      SomeCatable(bs);
    }
  }

  lemma SomeCatable(bs: seq<Tensor>)
    requires AllCatable(bs)
    ensures bs != []
  {
  }

  /** Concatenating matrix pairs that share A concatenates the matrices they stand for. */
  lemma CatCommutes(ls: seq<Lora>, m: Lora)
    requires ls != [] && |ls[0].A.shape| == 2 && LoraCat(ls) == Ok(m)
    ensures Broadcasts(m) && forall i :: 0 <= i < |ls| ==> Broadcasts(ls[i])
    ensures AllCatable(Products(ls)) && Merged(m) == CatAll(Products(ls))
  {
    hide Merged, CatAll;
    var A, bs := ls[0].A, FactorsB(ls);
    forall i | 0 <= i < |ls| ensures ls[i] == Lora(A, bs[i]) {
      assert ls[i].A == A;
    }
    assert ShareA(A, bs);
    CatAllB(A, bs);
    assert Products(ls) == ProductsWith(A, bs);
  }
}
