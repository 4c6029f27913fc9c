/** Which calls on a factor pair the code accepts (convert_lora_to_gguf.py). */
module LoraAccepted {
  import opened Arithmetic
  import opened Tensors
  import opened Loras
  import opened LoraParts
  import opened LoraTuples
  import opened LoraFirstAxis

  // ---------- permute, transpose

  /** Each axis once, counted from either end. */
  predicate EachOnce(dims: seq<int>, n: int) {
    && |dims| == n && (forall i :: 0 <= i < n ==> -n <= dims[i] < n)
    && forall i, j :: 0 <= i < j < n ==> dims[i] != dims[j] && dims[i] != dims[j] + n && dims[i] + n != dims[j]
  }

  /** An order of the axes is accepted exactly when it has each axis once and either the last axis stays last, with A
      the same for all leading axes, or the pair is a matrix and its two axes change places. What is not implemented is
      just to move the last axis of more than two. */
  lemma PermuteAccepted(l: Lora, dims: seq<int>)
    ensures var n := |l.B.shape|;
            LoraPermute(l, dims).Ok? <==>
              EachOnce(dims, n)
              && ((dims[n - 1] in {-1, n - 1} && forall d :: 0 <= d < n - 2 ==> l.A.shape[d] == 1)
                  || (n == 2 && dims[0] in {-1, 1} && dims[1] in {-2, 0}))
    ensures var n := |l.B.shape|;
            EachOnce(dims, n) ==> (LoraPermute(l, dims) == NotImplemented <==> n > 2 && dims[n - 1] !in {-1, n - 1})
  {
    hide Permute, IsPermutation, EachOnce;
    var n := |l.B.shape|;
    OnceIsPermutation(dims, n);
    if EachOnce(dims, n) {
      var axes := AxesOf(dims, n);
      assert AllOnes(Leads(l.A)) <==> forall d :: 0 <= d < n - 2 ==> l.A.shape[d] == 1;
      if axes[n - 1] == n - 1 {
        KeepsRank(l, axes);
      } else if n == 2 {
        LastOfTwo(dims);
      }
    }
  }

  lemma KeepsRank(l: Lora, axes: seq<nat>)
    requires |axes| == |l.B.shape| && IsPermutation(axes) && axes[|axes| - 1] == |axes| - 1
    ensures Pair(l.A, Permute(l.B, axes)).Ok?
  {
    hide Permute, IsPermutation;
  }

  lemma LastOfTwo(dims: seq<int>)
    requires EachOnce(dims, 2) && AreAxes(dims, 2) && AxesOf(dims, 2)[1] != 1
    ensures AxesOf(dims, 2) == [1, 0] && dims[0] in {-1, 1} && dims[1] in {-2, 0}
  {
  }

  lemma OnceIsPermutation(dims: seq<int>, n: nat)
    ensures EachOnce(dims, n) <==> AreAxes(dims, n) && IsPermutation(AxesOf(dims, n))
  {
    hide IsPermutation;
    if AreAxes(dims, n) {
      var axes := AxesOf(dims, n);
      DistinctIsPermutation(axes);
      assert forall i :: 0 <= i < n ==> axes[i] == (if dims[i] < 0 then dims[i] + n else dims[i]);
    }
  }

  /** Places that are distinct and in range are each place once. */
  lemma DistinctIsPermutation(axes: seq<nat>)
    ensures IsPermutation(axes) <==>
              (forall i :: 0 <= i < |axes| ==> axes[i] < |axes|)
              && forall i, j :: 0 <= i < j < |axes| ==> axes[i] != axes[j]
  {
    if (forall i :: 0 <= i < |axes| ==> axes[i] < |axes|) && forall i, j :: 0 <= i < j < |axes| ==> axes[i] != axes[j] {
      forall e | 0 <= e < |axes| ensures e in axes {
        Pigeons(axes, e);
      }
    }
  }

  function Below(n: nat): (s: set<nat>)
    ensures |s| == n && forall x: nat :: x in s <==> x < n
  {
    if n == 0 then {} else Below(n - 1) + {n - 1}
  }

  function Values(axes: seq<nat>): (s: set<nat>)
    ensures forall x: nat :: x in s <==> x in axes
  {
    if axes == [] then {} else Values(axes[..|axes| - 1]) + {axes[|axes| - 1]}
  }

  /** As many distinct numbers below n as there are leave none out. */
  lemma Pigeons(axes: seq<nat>, e: nat)
    requires e < |axes| && (forall i :: 0 <= i < |axes| ==> axes[i] < |axes|)
    requires forall i, j :: 0 <= i < j < |axes| ==> axes[i] != axes[j]
    ensures e in axes
  {
    ValuesCount(axes);
    SubsetOfSize(Values(axes), Below(|axes|));
    assert e in Below(|axes|);
  }

  lemma {:induction false} ValuesCount(axes: seq<nat>)
    requires forall i, j :: 0 <= i < j < |axes| ==> axes[i] != axes[j]
    ensures |Values(axes)| == |axes|
  {
    if axes != [] {
      ValuesCount(axes[..|axes| - 1]);
    }
  }

  lemma {:induction false} SubsetOfSize(s: set<nat>, t: set<nat>)
    requires s <= t && |s| == |t|
    ensures s == t
  {
    if s != {} {
      var x :| x in s;
      SubsetOfSize(s - {x}, t - {x});
    }
  }

  /** Two axes, counted from either end, may be exchanged exactly when both are there and the pair is a matrix, or A is
      the same for all leading axes and the last axis stays. */
  lemma TransposeAccepted(l: Lora, dim0: int, dim1: int)
    ensures var n := |l.B.shape|;
            LoraTranspose(l, dim0, dim1).Ok? <==>
              && -n <= dim0 < n && -n <= dim1 < n
              && (n == 2
                  || ((forall d :: 0 <= d < n - 2 ==> l.A.shape[d] == 1)
                      && (dim0 == dim1 || dim0 == dim1 + n || dim1 == dim0 + n
                          || (dim0 !in {-1, n - 1} && dim1 !in {-1, n - 1}))))
  {
    hide LoraPermute;
    var n := |l.B.shape|;
    var a, b := PlaceOf(dim0, n), PlaceOf(dim1, n);
    if 0 <= a < n && 0 <= b < n {
      var dims := SwappedAxes(n, a, b);
      PermuteAccepted(l, dims);
      SwappedDistinct(n, a, b);
      assert dims[n - 1] == if n - 1 == a then b else if n - 1 == b then a else n - 1;
    }
  }

  lemma SwappedDistinct(n: nat, a: nat, b: nat)
    requires a < n && b < n
    ensures var dims := SwappedAxes(n, a, b);
            && (forall i :: 0 <= i < n ==> 0 <= dims[i] < n)
            && forall i, j :: 0 <= i < j < n ==> dims[i] != dims[j]
  {
  }

  // ---------- stack, cat

  /** Pairs may be stacked exactly when there is one and all have factors of the same shapes. */
  lemma StackAccepted(ls: seq<Lora>)
    ensures LoraStack(ls).Ok? <==>
              ls != [] && forall i :: 0 <= i < |ls| ==> ls[i].A.shape == ls[0].A.shape && ls[i].B.shape == ls[0].B.shape
  {
    hide Stack;
    if ls != [] {
      assert FactorsA(ls)[0] == ls[0].A && FactorsB(ls)[0] == ls[0].B;
      assert SameShapes(FactorsA(ls)) <==> forall i :: 0 <= i < |ls| ==> ls[i].A.shape == ls[0].A.shape;
      assert SameShapes(FactorsB(ls)) <==> forall i :: 0 <= i < |ls| ==> ls[i].B.shape == ls[0].B.shape;
    }
  }

  /** Matrix pairs may be concatenated exactly when all have the same A. */
  lemma CatAccepted(ls: seq<Lora>)
    requires ls != [] && |ls[0].A.shape| == 2
    ensures LoraCat(ls).Ok? <==> forall i :: 0 <= i < |ls| ==> ls[i].A == ls[0].A
  {
    hide CatAll;
    if forall i :: 0 <= i < |ls| ==> ls[i].A == ls[0].A {
      forall i | 0 <= i < |ls| ensures Catable(FactorsB(ls)[0], FactorsB(ls)[i]) {
        assert ls[i].B.shape[1..] == [ls[i].B.shape[1]] && ls[0].B.shape[1..] == [ls[0].B.shape[1]];
      }
      var B := CatAll(FactorsB(ls));
      assert B.shape[1] == B.shape[1..][0] == ls[0].B.shape[1..][0];
    } else {
      var i :| 0 <= i < |ls| && ls[i].A != ls[0].A;
      assert 1 <= i < |ls|;
    }
  }

  /** Pairs of more than two axes may be concatenated exactly when their factors agree on all axes but the first. */
  lemma CatBothAccepted(ls: seq<Lora>)
    requires ls != [] && |ls[0].A.shape| > 2
    ensures LoraCatBoth(ls).Ok? <==>
              forall i :: 0 <= i < |ls| ==>
                && |ls[i].A.shape| == |ls[0].A.shape|
                && ls[i].A.shape[1..] == ls[0].A.shape[1..] && ls[i].B.shape[1..] == ls[0].B.shape[1..]
  {
    hide CatAll;
    var a, b := FactorsA(ls), FactorsB(ls);
    assert AllCatable(a) <==> forall i :: 0 <= i < |ls| ==> Catable(a[0], a[i]);
    assert AllCatable(b) <==> forall i :: 0 <= i < |ls| ==> Catable(b[0], b[i]);
    if AllCatable(a) && AllCatable(b) {
      JoinedRank(ls);
    }
  }

  lemma JoinedRank(ls: seq<Lora>)
    requires ls != [] && |ls[0].A.shape| > 2 && AllCatable(FactorsA(ls)) && AllCatable(FactorsB(ls))
    ensures IsLora(RawLora.Lora(CatAll(FactorsA(ls)), CatAll(FactorsB(ls))))
  {
    var A, B := CatAll(FactorsA(ls)), CatAll(FactorsB(ls));
    var n := |A.shape|;
    assert A.shape[1..][n - 3] == ls[0].A.shape[1..][n - 3] && B.shape[1..][n - 2] == ls[0].B.shape[1..][n - 2];
  }

  // ---------- Indexing

  predicate Counts(i: int, n: nat) {
    0 <= i + n && i < n
  }

  /** A slice of a matrix pair is always accepted. */
  lemma RowsAccepted(l: Lora, s: Slice)
    requires |l.A.shape| == 2
    ensures GetRows(l, s).Ok?
  {
    hide SelectFirst, Places;
  }

  /** One subscript on a pair of more than two axes: a slice is always accepted, an integer exactly when both factors
      have that place. */
  lemma FirstAccepted(l: Lora, item: Item)
    requires |l.A.shape| > 2 && !item.Ellipsis?
    ensures GetFirst(l, item).Ok? <==> item.Int? ==> Counts(item.i, l.A.shape[0]) && Counts(item.i, l.B.shape[0])
  {
    hide SelectFirst, Places;
  }

  /** A tuple with slices for the last two axes is accepted exactly when each of its integers counts a place of the
      weight's axis. */
  lemma TupleAccepted(l: Lora, items: seq<Item>)
    requires |items| == |l.A.shape| && Broadcasts(l) && LastTwoCut(items)
    ensures GetTuple(l, items).Ok? <==>
              forall d :: 0 <= d < |items| && items[d].Int? ==> Counts(items[d].i, LoraShape(l)[d])
  {
    hide SelectFrom, SelectionA, SelectionB;
    var n := |items| - 1;
    assert TupleInRange(l, items) <==>
             forall d :: 0 <= d < |items| && items[d].Int? ==> Counts(items[d].i, LoraShape(l)[d]) by {
      assert forall d :: 0 <= d < n ==> LoraShape(l)[d] == RowShape(l)[d] && items[..n][d] == items[d];
      assert forall d :: 0 <= d < n ==> (InRange(items[..n][d], RowShape(l)[d])
                                         <==> (items[d].Int? ==> Counts(items[d].i, LoraShape(l)[d])));
    }
    if TupleInRange(l, items) {
      LeadsAreCountable(l, items);
      TupleFits(l, items);
    }
  }

  lemma LeadsAreCountable(l: Lora, items: seq<Item>)
    requires |items| == |l.A.shape| && Broadcasts(l) && TupleInRange(l, items)
    ensures LeadsCountable(Front(items), Leads(l.A))
  {
    forall d | 0 <= d < |Leads(l.A)| && Front(items)[d].Int? ensures Leads(l.A)[d] > 0 {
      assert Front(items)[d] == items[..|items| - 1][d] && Leads(l.B)[d] == RowShape(l)[d];
    }
  }

  lemma TupleFits(l: Lora, items: seq<Item>)
    requires Broadcasts(l) && LastTwoCut(items) && TupleInRange(l, items) && LeadsCountable(Front(items), Leads(l.A))
    ensures GetTuple(l, items).Ok?
  {
    hide SelectedShape, LeadsSelection, SelectAll, SelectionB, Selection, LeadsOf, SelectFrom, Places;
    AnyShapes(l, items);
    SelectsOne(items[|items| - 2], RowShape(l)[|items| - 2]);
    SelectsOne(items[|items| - 1], RowSize(l));
  }

  // ---------- reshape

  /** A shape that fits the given dimensions, where -1 stands for any size. */
  predicate Fills(s: Shape, dims: seq<int>) {
    |s| == |dims| && forall i :: 0 <= i < |dims| ==> dims[i] == s[i] || dims[i] == -1
  }

  /** The product of the sizes that are not left open. */
  function Given(dims: seq<int>): (n: int) {
    ProdInt(ReplaceFree(dims, 1))
  }

  /** What the code asks of the shape that a pair gets: the row size stays, the rows keep their number unless there is
      no rank, and a size that is left open, times the product of the given ones, is the number of elements. */
  predicate IsTarget(l: Lora, dims: seq<int>, s: Shape) {
    && |s| >= 2 && Fills(s, dims) && s[|s| - 1] == RowSize(l)
    && (Rank(l) > 0 ==> Prod(s[..|s| - 1]) == Prod(RowShape(l)))
    && (-1 in dims ==> Given(dims) != 0 && forall i :: 0 <= i < |s| && dims[i] == -1 ==>
                         s[i] * Given(dims) == Prod(LoraShape(l)))
  }

  /** A shape is accepted exactly when there is a target for it, and A is the same for all leading axes or has no
      element. */
  lemma ReshapeAccepted(l: Lora, dims: seq<int>)
    ensures LoraReshape(l, dims).Ok? <==>
              (Rank(l) == 0 || RowSize(l) == 0 || AllOnes(Leads(l.A))) && exists s: Shape :: IsTarget(l, dims, s)
  {
    hide Prod, IsTarget;
    if LoraReshape(l, dims).Ok? {
      var s := AsShape(Expanded(LoraShape(l), dims).dims);
      TargetFound(l, dims, s);
    }
    if (Rank(l) == 0 || RowSize(l) == 0 || AllOnes(Leads(l.A))) && exists s: Shape :: IsTarget(l, dims, s) {
      var s: Shape :| IsTarget(l, dims, s);
      TargetTaken(l, dims, s);
    }
  }

  lemma FactorCounts(l: Lora, s: Shape)
    requires |s| >= 2
    ensures var shapeA, shapeB := Ones(|s| - 2) + [Rank(l), RowSize(l)], s[..|s| - 1] + [Rank(l)];
            && (Prod(shapeA) == Prod(l.A.shape) <==> Rank(l) == 0 || RowSize(l) == 0 || AllOnes(Leads(l.A)))
            && (Prod(shapeB) == Prod(l.B.shape) <==> Rank(l) == 0 || Prod(s[..|s| - 1]) == Prod(RowShape(l)))
  {
    hide Prod, AllOnes;
    var r, c := Rank(l), RowSize(l);
    Shapes(l);
    ProdSnoc(s[..|s| - 1], r);
    OnesCount(|s| - 2, r, c);
    LeadsCount(Leads(l.A), r, c);
    if r > 0 && Prod(s[..|s| - 1]) * r == Prod(RowShape(l)) * r {
      CancelFactor(Prod(s[..|s| - 1]), Prod(RowShape(l)), r);
    }
  }

  lemma OnesCount(n: nat, r: nat, c: nat)
    ensures Prod(Ones(n) + [r, c]) == r * c
  {
    hide Prod;
    OnesProd(Ones(n));
    assert Ones(n) + [r, c] == Ones(n) + [r] + [c];
    ProdSnoc(Ones(n), r);
    ProdSnoc(Ones(n) + [r], c);
  }

  lemma LeadsCount(leads: Shape, r: nat, c: nat)
    ensures Prod(leads) * r * c == r * c <==> r == 0 || c == 0 || AllOnes(leads)
  {
    hide Prod, AllOnes;
    assert Prod(leads) * r * c == Prod(leads) * (r * c);
    if AllOnes(leads) {
      OnesProd(leads);
    } else if r > 0 && c > 0 && Prod(leads) * (r * c) == 1 * (r * c) {
      assert r * c > 0;
      CancelFactor(Prod(leads), 1, r * c);
      ProdOne(leads);
    }
  }

  lemma {:induction false} ProdIntIs(dims: seq<int>, s: Shape)
    requires |s| == |dims| && forall i :: 0 <= i < |s| ==> dims[i] == s[i]
    ensures ProdInt(dims) == Prod(s)
  {
    if dims != [] {
      ProdIntIs(dims[..|dims| - 1], s[..|s| - 1]);
    }
  }

  lemma TargetFound(l: Lora, dims: seq<int>, s: Shape)
    requires LoraReshape(l, dims).Ok? && s == AsShape(Expanded(LoraShape(l), dims).dims)
    ensures IsTarget(l, dims, s) && (Rank(l) == 0 || RowSize(l) == 0 || AllOnes(Leads(l.A)))
  {
    hide Prod, AllOnes;
    FactorCounts(l, s);
    if -1 in dims {
      var n := Given(dims);
      assert Prod(LoraShape(l)) == n * (Prod(LoraShape(l)) / n);
    }
  }

  lemma TargetTaken(l: Lora, dims: seq<int>, s: Shape)
    requires IsTarget(l, dims, s) && (Rank(l) == 0 || RowSize(l) == 0 || AllOnes(Leads(l.A)))
    ensures LoraReshape(l, dims).Ok?
  {
    hide Prod, AllOnes;
    FactorCounts(l, s);
    assert Expanded(LoraShape(l), dims) == Dims(s) by { TargetExpands(l, dims, s); }
    assert AsShape(s) == s;
  }

  lemma TargetExpands(l: Lora, dims: seq<int>, s: Shape)
    requires IsTarget(l, dims, s)
    ensures Expanded(LoraShape(l), dims) == Dims(s)
  {
    hide Prod;
    if -1 in dims {
      var i :| 0 <= i < |dims| && dims[i] == -1;
      var n, v := Given(dims), s[i];
      KnownIsPositive(dims, s);
      forall j | 0 <= j < |dims| && dims[j] == -1 ensures s[j] == v {
        CancelFactor(s[j], v, n);
      }
      assert ReplaceFree(dims, v) == s;
      DivModUnique(v, n, 0);
      assert Prod(LoraShape(l)) == v * n + 0;
    } else {
      assert dims == s;
    }
  }

  lemma KnownIsPositive(dims: seq<int>, s: Shape)
    requires Fills(s, dims)
    ensures ProdInt(ReplaceFree(dims, 1)) >= 0
  {
    var known: Shape := seq(|dims|, i requires 0 <= i < |dims| => if dims[i] == -1 then 1 else s[i]);
    ProdIntIs(ReplaceFree(dims, 1), known);
  }
}
