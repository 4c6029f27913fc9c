/** Indexing and concatenating factor pairs of more than two axes along the first one
    (convert_lora_to_gguf.py): both factors are treated alike. */
module LoraFirstAxis {
  import opened Tensors
  import opened Loras
  import opened LoraParts

  /** One integer or slice on the first axis. */
  function GetFirst(l: Lora, item: Item): (r: Result)
    requires |l.A.shape| > 2 && !item.Ellipsis?
  {
    if !InRange(item, l.A.shape[0]) || !InRange(item, l.B.shape[0]) then Rejected
    else Pair(SelectFirst(l.A, SelectOne(item, l.A.shape[0])), SelectFirst(l.B, SelectOne(item, l.B.shape[0])))
  }

  /** The axes of A behind the first, for the matching axes of the product and term k. */
  function RestA(tail: Shape, idx: Index, k: nat): (r: Index)
    requires |tail| == |idx| >= 2
    requires forall d :: 0 <= d < |tail| - 2 ==> tail[d] == 1 || idx[d] < tail[d]
  {
    Clipped(tail[..|tail| - 2], idx[..|idx| - 2]) + [k, idx[|idx| - 1]]
  }

  predicate RestFits(l: Lora, idx: Index) {
    |l.A.shape| == |idx| > 2 && forall d :: 0 <= d < |idx| - 3 ==>
      l.A.shape[1..][d] == 1 || idx[1..][d] < l.A.shape[1..][d]
  }

  lemma RestOf(l: Lora, idx: Index)
    requires |l.A.shape| > 2 && Broadcasts(l) && InBounds(LoraShape(l), idx)
    ensures RestFits(l, idx) && (l.A.shape[0] == 1 || (l.A.shape[0] == l.B.shape[0] && idx[0] < l.A.shape[0]))
  {
    assert forall d :: 0 <= d < |idx| - 2 ==>
      Leads(l.A)[d] == l.A.shape[d] && Leads(l.B)[d] == l.B.shape[d] == LoraShape(l)[d];
  }

  /** The index into A: the first axis by itself, then the rest. */
  lemma SplitIndexA(l: Lora, idx: Index, k: nat)
    requires |l.A.shape| > 2 && Broadcasts(l) && InBounds(LoraShape(l), idx) && k < Rank(l)
    ensures RestFits(l, idx)
    ensures IndexA(l, idx, k) == [if l.A.shape[0] == 1 then 0 else idx[0]] + RestA(l.A.shape[1..], idx[1..], k)
  {
    hide InBounds;
    RestOf(l, idx);
    SameLength(LoraShape(l), idx);
    var n := |idx|;
    var leads := l.A.shape[1..][..n - 3];
    assert Leads(l.A) == [l.A.shape[0]] + leads;
    assert idx[..n - 2] == [idx[0]] + idx[1..][..n - 3];
    if l.A.shape[0] == 1 {
      ClippedOne(leads, idx[0], idx[1..][..n - 3]);
    } else {
      ClippedPrepend(l.A.shape[0], leads, idx[0], idx[1..][..n - 3]);
    }
  }

  lemma ClippedOne(leads: Shape, i: nat, idx: Index)
    requires |idx| == |leads| && forall d :: 0 <= d < |leads| ==> leads[d] == 1 || idx[d] < leads[d]
    ensures forall d :: 0 <= d < |leads| + 1 ==> ([1] + leads)[d] == 1 || ([i] + idx)[d] < ([1] + leads)[d]
    ensures Clipped([1] + leads, [i] + idx) == [0] + Clipped(leads, idx)
  {
  }

  lemma SplitIndexB(l: Lora, idx: Index, k: nat)
    requires |l.A.shape| > 2 && InBounds(LoraShape(l), idx) && k < Rank(l)
    ensures IndexB(l, idx, k) == [idx[0]] + (idx[1..|idx| - 1] + [k])
  {
  }

  // ---------- One integer or slice

  lemma FirstShapes(l: Lora, item: Item, m: Lora)
    requires |l.A.shape| > 2 && !item.Ellipsis? && GetFirst(l, item) == Ok(m)
    ensures InRange(item, l.A.shape[0]) && InRange(item, l.B.shape[0]) && LoraShape(l)[0] == l.B.shape[0]
    ensures var a, b := SelectOne(item, l.A.shape[0]), SelectOne(item, l.B.shape[0]);
            && m == Lora(SelectFirst(l.A, a), SelectFirst(l.B, b)) && SelectsFirst(LoraShape(l), b)
            && m.A.shape == FirstShape(l.A.shape, a) && m.B.shape == FirstShape(l.B.shape, b)
            && LoraShape(m) == FirstShape(LoraShape(l), b) && Rank(m) == Rank(l)
  {
    hide SelectFirst;
    var b := SelectOne(item, l.B.shape[0]);
    assert LoraShape(l)[1..] == l.B.shape[1..|l.B.shape| - 1] + [RowSize(l)];
  }

  lemma PickedIndexA(l: Lora, a: nat, b: nat, m: Lora, idx: Index, k: nat)
    requires |l.A.shape| > 2 && Broadcasts(l) && Broadcasts(m) && a < l.A.shape[0]
    requires l.A.shape[0] == l.B.shape[0] ==> a == b
    requires m.A.shape == l.A.shape[1..] && k < Rank(m) == Rank(l)
    requires InBounds(LoraShape(m), idx) && InBounds(LoraShape(l), [b] + idx)
    ensures [a] + IndexA(m, idx, k) == IndexA(l, [b] + idx, k)
  {
    hide InBounds, Clipped, IndexA, RestA;
    var jdx := [b] + idx;
    WholeIndexA(m, idx, k);
    RestOf(l, jdx);
    SplitIndexA(l, jdx, k);
    assert jdx[1..] == idx;
  }

  lemma PickedIndexB(l: Lora, b: nat, m: Lora, idx: Index, k: nat)
    requires |l.A.shape| > 2 && m.B.shape == l.B.shape[1..] && k < Rank(m) == Rank(l)
    requires InBounds(LoraShape(m), idx) && InBounds(LoraShape(l), [b] + idx)
    ensures [b] + IndexB(m, idx, k) == IndexB(l, [b] + idx, k)
  {
  }

  lemma WholeIndexA(m: Lora, idx: Index, k: nat)
    requires Broadcasts(m) && InBounds(LoraShape(m), idx) && k < Rank(m)
    ensures |m.A.shape| == |idx| >= 2 && (forall d :: 0 <= d < |idx| - 2 ==> m.A.shape[d] == 1 || idx[d] < m.A.shape[d])
    ensures IndexA(m, idx, k) == RestA(m.A.shape, idx, k)
  {
    assert forall d :: 0 <= d < |idx| - 2 ==>
      Leads(m.A)[d] == m.A.shape[d] && Leads(m.B)[d] == m.B.shape[d] == LoraShape(m)[d];
  }

  lemma PickedIndices(l: Lora, a: nat, b: nat, m: Lora, idx: Index, k: nat)
    requires |l.A.shape| > 2 && Broadcasts(l) && Broadcasts(m) && a < l.A.shape[0] && b < l.B.shape[0]
    requires l.A.shape[0] == l.B.shape[0] ==> a == b
    requires m.A.shape == FirstShape(l.A.shape, Pick(a)) && m.B.shape == FirstShape(l.B.shape, Pick(b))
    requires InBounds(LoraShape(m), idx) && InBounds(LoraShape(l), [b] + idx) && k < Rank(m) == Rank(l)
    ensures InBounds(m.A.shape, IndexA(m, idx, k)) && InBounds(m.B.shape, IndexB(m, idx, k))
    ensures [a] + IndexA(m, idx, k) == IndexA(l, [b] + idx, k)
    ensures [b] + IndexB(m, idx, k) == IndexB(l, [b] + idx, k)
  {
    hide InBounds, IndexA, IndexB, LoraShape;
    assert m.A.shape == l.A.shape[1..] && m.B.shape == l.B.shape[1..];
    PickedIndexA(l, a, b, m, idx, k);
    PickedIndexB(l, b, m, idx, k);
  }

  /** Where the two factors have the first axis alike, or A has size one there, they are selected from alike. */
  lemma PickedTerm(l: Lora, a: nat, b: nat, m: Lora, idx: Index, k: nat)
    requires |l.A.shape| > 2 && Broadcasts(l) && Broadcasts(m) && a < l.A.shape[0] && b < l.B.shape[0]
    requires l.A.shape[0] == l.B.shape[0] ==> a == b
    requires m == Lora(SelectFirst(l.A, Pick(a)), SelectFirst(l.B, Pick(b)))
    requires InBounds(LoraShape(m), idx) && InBounds(LoraShape(l), [b] + idx) && k < Rank(m) == Rank(l)
    ensures Term(m, idx, k) == Term(l, [b] + idx, k)
  {
    hide SelectFirst, At, IndexA, IndexB, InBounds, LoraShape;
    PickedIndices(l, a, b, m, idx, k);
    SelectFirstAt(l.A, Pick(a), IndexA(m, idx, k));
    SelectFirstAt(l.B, Pick(b), IndexB(m, idx, k));
  }

  lemma TakenIndexA(l: Lora, a: seq<nat>, b: seq<nat>, m: Lora, idx: Index, k: nat)
    requires |l.A.shape| > 2 && Broadcasts(l) && Broadcasts(m) && idx != []
    requires SelectsFirst(l.A.shape, Take(a)) && (l.A.shape[0] == l.B.shape[0] ==> a == b)
    requires m.A.shape == FirstShape(l.A.shape, Take(a)) && m.B.shape[0] == |b|
    requires InBounds(LoraShape(m), idx) && idx[0] < |b| && InBounds(LoraShape(l), [b[idx[0]]] + idx[1..])
    requires k < Rank(m) == Rank(l)
    ensures InBounds(m.A.shape, IndexA(m, idx, k))
    ensures FirstIndex(l.A.shape, Take(a), IndexA(m, idx, k)) == IndexA(l, [b[idx[0]]] + idx[1..], k)
  {
    hide InBounds, Clipped, IndexA, RestA, LoraShape, Broadcasts, FirstIndex;
    var jdx := [b[idx[0]]] + idx[1..];
    RestOf(l, jdx);
    RestOf(m, idx);
    SplitIndexA(l, jdx, k);
    SplitIndexA(m, idx, k);
    assert jdx[0] == b[idx[0]] && jdx[1..] == idx[1..] && m.A.shape[1..] == l.A.shape[1..] && m.A.shape[0] == |a|;
    TakenPlace(l.A.shape[0], a, b, idx[0]);
    var rest := RestA(l.A.shape[1..], idx[1..], k);
    FirstIndexTake(l.A.shape, a, if |a| == 1 then 0 else idx[0], rest);
  }

  /** The place of A that an element comes from when both factors are selected from on the first axis. */
  lemma TakenPlace(n: nat, a: seq<nat>, b: seq<nat>, p: nat)
    requires p < |b| && (|a| == 1 || p < |a|) && (n == 1 || a == b) && forall i :: 0 <= i < |a| ==> a[i] < n
    ensures var q := if |a| == 1 then 0 else p;
            q < |a| && a[q] == if n == 1 then 0 else b[p]
  {
  }

  lemma FirstIndexTake(shape: Shape, a: seq<nat>, q: nat, rest: Index)
    requires SelectsFirst(shape, Take(a)) && q < |a|
    requires InBounds(FirstShape(shape, Take(a)), [q] + rest)
    ensures FirstIndex(shape, Take(a), [q] + rest) == [a[q]] + rest
  {
    hide InBounds;
    assert ([q] + rest)[1..] == rest;
  }

  lemma TakenIndexB(l: Lora, b: seq<nat>, m: Lora, idx: Index, k: nat)
    requires |l.A.shape| > 2 && |m.A.shape| > 2 && idx != [] && SelectsFirst(l.B.shape, Take(b))
    requires m.B.shape == FirstShape(l.B.shape, Take(b))
    requires InBounds(LoraShape(m), idx) && idx[0] < |b| && InBounds(LoraShape(l), [b[idx[0]]] + idx[1..])
    requires k < Rank(m) == Rank(l)
    ensures InBounds(m.B.shape, IndexB(m, idx, k))
    ensures FirstIndex(l.B.shape, Take(b), IndexB(m, idx, k)) == IndexB(l, [b[idx[0]]] + idx[1..], k)
  {
    hide InBounds, IndexB;
    SameLength(LoraShape(m), idx);
    var jdx := [b[idx[0]]] + idx[1..];
    SplitIndexB(l, jdx, k);
    SplitIndexB(m, idx, k);
    assert jdx[1..|jdx| - 1] == idx[1..|idx| - 1];
  }

  lemma TakenTerm(l: Lora, a: seq<nat>, b: seq<nat>, m: Lora, idx: Index, k: nat)
    requires |l.A.shape| > 2 && Broadcasts(l) && Broadcasts(m)
    requires SelectsFirst(l.A.shape, Take(a)) && SelectsFirst(l.B.shape, Take(b))
    requires l.A.shape[0] == l.B.shape[0] ==> a == b
    requires m == Lora(SelectFirst(l.A, Take(a)), SelectFirst(l.B, Take(b)))
    requires InBounds(LoraShape(m), idx) && idx[0] < |b| && InBounds(LoraShape(l), [b[idx[0]]] + idx[1..])
             && k < Rank(m) == Rank(l)
    requires idx != []
    ensures Term(m, idx, k) == Term(l, [b[idx[0]]] + idx[1..], k)
  {
    hide SelectFirst, At, IndexA, IndexB, InBounds, LoraShape, FirstIndex;
    TakenIndexA(l, a, b, m, idx, k);
    TakenIndexB(l, b, m, idx, k);
    SelectFirstAt(l.A, Take(a), IndexA(m, idx, k));
    SelectFirstAt(l.B, Take(b), IndexB(m, idx, k));
  }

  lemma FirstTerm(l: Lora, item: Item, m: Lora, idx: Index, k: nat)
    requires |l.A.shape| > 2 && !item.Ellipsis? && Broadcasts(l) && Broadcasts(m) && GetFirst(l, item) == Ok(m)
    requires InBounds(LoraShape(m), idx) && k < Rank(m)
    ensures InRange(item, LoraShape(l)[0]) && SelectsFirst(LoraShape(l), SelectOne(item, LoraShape(l)[0]))
    ensures k < Rank(l) && InBounds(FirstShape(LoraShape(l), SelectOne(item, LoraShape(l)[0])), idx)
    ensures Term(m, idx, k) == Term(l, FirstIndex(LoraShape(l), SelectOne(item, LoraShape(l)[0]), idx), k)
  {
    hide SelectFirst, Term, Places;
    FirstShapes(l, item, m);
    var a, b := SelectOne(item, l.A.shape[0]), SelectOne(item, l.B.shape[0]);
    var jdx := FirstIndex(LoraShape(l), b, idx);
    if item.Int? {
      PickedTerm(l, a.i, b.i, m, idx, k);
    } else {
      TakenTerm(l, a.places, b.places, m, idx, k);
    }
  }

  /** Whether what a subscript leaves of the first axis of A still fits what it leaves of B. */
  predicate FirstFits(l: Lora, item: Item)
    requires |l.A.shape| > 2
  {
    match item
    case Int(_) => true
    case Cut(s) =>
      var a, b := |Places(s, l.A.shape[0])|, |Places(s, l.B.shape[0])|;
      a == 1 || a == b
    case Ellipsis => true
  }

  /** Indexing the pair on the first axis indexes the weight it stands for exactly when an integer or a slice leaves
      one place of A, or as many as of B; otherwise the factors have no product of the shape that the
      result reports. */
  lemma FirstCommutes(l: Lora, item: Item, m: Lora)
    requires |l.A.shape| > 2 && !item.Ellipsis? && Broadcasts(l) && GetFirst(l, item) == Ok(m)
    ensures Broadcasts(m) <==> FirstFits(l, item)
    ensures Broadcasts(m) ==>
              && InRange(item, LoraShape(l)[0])
              && SelectsFirst(LoraShape(l), SelectOne(item, LoraShape(l)[0]))
              && Merged(m) == SelectFirst(Merged(l), SelectOne(item, LoraShape(l)[0]))
  {
    hide Merged, SelectFirst, Term, Places;
    FirstShapes(l, item, m);
    FirstBroadcasts(l, item, m);
    if Broadcasts(m) {
      var sel := SelectOne(item, LoraShape(l)[0]);
      var t := SelectFirst(Merged(l), sel);
      forall idx | InBounds(LoraShape(m), idx) ensures At(Merged(m), idx) == At(t, idx) {
        var jdx := FirstIndex(LoraShape(l), sel, idx);
        MergedAt(m, idx);
        SelectFirstAt(Merged(l), sel, idx);
        MergedAt(l, jdx);
        forall k | 0 <= k < Rank(m) ensures k < Rank(l) && Term(m, idx, k) == Term(l, jdx, k) {
          FirstTerm(l, item, m, idx, k);
        }
        TermsEqual(m, idx, l, jdx, Rank(m));
      }
      TensorEqual(Merged(m), t);
    }
  }

  lemma FirstBroadcasts(l: Lora, item: Item, m: Lora)
    requires |l.A.shape| > 2 && !item.Ellipsis? && Broadcasts(l) && GetFirst(l, item) == Ok(m)
    ensures Broadcasts(m) <==> FirstFits(l, item)
  {
    hide SelectFirst, Places;
    FirstShapes(l, item, m);
    var n := |m.A.shape|;
    var gap := if item.Int? then 1 else 0;
    if item.Cut? {
      FirstLead(m);
    }
    if FirstFits(l, item) {
      forall d | 0 <= d < n - 2 ensures m.A.shape[d] == 1 || m.A.shape[d] == m.B.shape[d] {
        if d + gap > 0 {
          assert Leads(l.A)[d + gap] == 1 || Leads(l.A)[d + gap] == Leads(l.B)[d + gap];
        }
      }
    }
  }

  lemma ProdThreeOnes()
    ensures Prod([1, 1, 1]) == 1 && Prod([2, 1, 1]) == 2
  {
    assert [1, 1, 1][..2] == [1, 1] && [1, 1][..1] == [1] && [1][..0] == [];
    assert [2, 1, 1][..2] == [2, 1] && [2, 1][..1] == [2] && [2][..0] == [];
    assert Prod([1]) == 1 && Prod([2]) == 2 && Prod([1, 1]) == 1 && Prod([2, 1]) == 2;
  }

  /** A pair as a reshape leaves it, A with a leading axis of size one. */
  function ReshapedPair(): (l: Lora)
    ensures l.A.shape == [1, 1, 1] && l.B.shape == [2, 1, 1] && Broadcasts(l)
  {
    ProdThreeOnes();
    Lora(Tensor([1, 1, 1], [1.0]), Tensor([2, 1, 1], [3.0, 4.0]))
  }

  /** Asked for the second of its two weights by a slice, the code gives a pair that reports one weight and has none. */
  lemma SecondIsLost()
    ensures var l, second := ReshapedPair(), Cut(Slice(Limit(1), Limit(2), 1));
            && GetFirst(l, second).Ok? && !Broadcasts(GetFirst(l, second).value)
            && |Places(second.s, LoraShape(l)[0])| == 1
  {
    hide SelectFirst, ReshapedPair;
    var l, second := ReshapedPair(), Cut(Slice(Limit(1), Limit(2), 1));
    assert Places(second.s, 1) == [] && |Places(second.s, 2)| == 1;
    FirstBroadcasts(l, second, GetFirst(l, second).value);
  }

  // ---------- Concatenation

  /** torch.cat on the first axis of pairs of more than two axes: both factors are concatenated. */
  function LoraCatBoth(ls: seq<Lora>): (r: Result)
    requires ls != [] && |ls[0].A.shape| > 2
  {
    if !AllCatable(FactorsA(ls)) || !AllCatable(FactorsB(ls)) then Rejected
    else Pair(CatAll(FactorsA(ls)), CatAll(FactorsB(ls)))
  }

  /** Whether the factors have the first axis alike. */
  predicate Aligned(l: Lora) {
    |l.A.shape| > 2 && l.A.shape[0] == l.B.shape[0]
  }

  /** Two pairs joined. */
  predicate IsJoined(m: Lora, x: Lora, y: Lora) {
    Catable(x.A, y.A) && Catable(x.B, y.B) && m == Lora(Cat(x.A, y.A), Cat(x.B, y.B))
  }

  lemma JoinedShapes(m: Lora, x: Lora, y: Lora)
    requires Aligned(x) && Aligned(y) && Broadcasts(x) && Broadcasts(y) && IsJoined(m, x, y)
    ensures Aligned(m) && Broadcasts(m) && Rank(m) == Rank(x) == Rank(y) && Catable(Merged(x), Merged(y))
    ensures m.A.shape == CatShape(x.A.shape, y.A.shape) && m.B.shape == CatShape(x.B.shape, y.B.shape)
    ensures LoraShape(m) == CatShape(LoraShape(x), LoraShape(y)) && LoraShape(x)[0] == x.A.shape[0]
  {
    hide Merged, Cat;
    var n := |m.B.shape|;
    assert x.B.shape[1..][n - 2] == y.B.shape[1..][n - 2] && x.A.shape[1..][n - 2] == y.A.shape[1..][n - 2];
    assert LoraShape(x)[1..] == x.B.shape[1..][..n - 2] + [RowSize(x)];
    assert LoraShape(y)[1..] == y.B.shape[1..][..n - 2] + [RowSize(y)];
    forall d | 0 <= d < n - 2 ensures m.A.shape[d] == 1 || m.A.shape[d] == m.B.shape[d] {
      if d > 0 {
        assert Leads(x.A)[d] == x.A.shape[d] && Leads(x.B)[d] == x.B.shape[d];
        assert m.A.shape[d] == x.A.shape[1..][d - 1] && m.B.shape[d] == x.B.shape[1..][d - 1];
      }
    }
  }

  /** With the first axis alike, the index into A starts as the index of the product does. */
  lemma AlignedIndexA(l: Lora, idx: Index, k: nat)
    requires Aligned(l) && Broadcasts(l) && InBounds(LoraShape(l), idx) && k < Rank(l)
    ensures RestFits(l, idx) && IndexA(l, idx, k) == [idx[0]] + RestA(l.A.shape[1..], idx[1..], k)
  {
    hide RestA, IndexA;
    SplitIndexA(l, idx, k);
    RestOf(l, idx);
    assert idx[0] < LoraShape(l)[0] == l.B.shape[0];
  }

  /** The pair that an element of joined pairs belongs to has its axes behind the first. */
  lemma JoinedTails(m: Lora, x: Lora, y: Lora, l: Lora)
    requires IsJoined(m, x, y) && (l == x || l == y)
    ensures m.A.shape[1..] == l.A.shape[1..] && m.B.shape[1..] == l.B.shape[1..] && |m.A.shape| == |l.A.shape|
  {
    hide Cat;
  }

  lemma JoinedIndexA(m: Lora, x: Lora, y: Lora, l: Lora, gap: nat, idx: Index, k: nat)
    requires Aligned(m) && Aligned(l) && Broadcasts(m) && Broadcasts(l) && IsJoined(m, x, y) && (l == x || l == y)
    requires InBounds(LoraShape(m), idx) && idx != [] && gap <= idx[0]
    requires InBounds(LoraShape(l), [idx[0] - gap] + idx[1..]) && k < Rank(m) == Rank(l)
    ensures var a := IndexA(m, idx, k);
            a != [] && a[0] == idx[0] && IndexA(l, [idx[0] - gap] + idx[1..], k) == [idx[0] - gap] + a[1..]
  {
    hide InBounds, IndexA, RestA, Cat, IsJoined, Broadcasts, Aligned, LoraShape;
    JoinedTails(m, x, y, l);
    var jdx := [idx[0] - gap] + idx[1..];
    AlignedIndexA(m, idx, k);
    AlignedIndexA(l, jdx, k);
    assert jdx[0] == idx[0] - gap && jdx[1..] == idx[1..];
    var rest := RestA(m.A.shape[1..], idx[1..], k);
    assert ([idx[0]] + rest)[1..] == rest;
  }

  lemma JoinedIndexB(m: Lora, l: Lora, gap: nat, idx: Index, k: nat)
    requires |m.A.shape| > 2 && |l.A.shape| > 2
    requires InBounds(LoraShape(m), idx) && idx != [] && gap <= idx[0]
    requires InBounds(LoraShape(l), [idx[0] - gap] + idx[1..]) && k < Rank(m) == Rank(l)
    ensures var b := IndexB(m, idx, k);
            b != [] && b[0] == idx[0] && IndexB(l, [idx[0] - gap] + idx[1..], k) == [idx[0] - gap] + b[1..]
  {
    hide InBounds, IndexB;
    SameLength(LoraShape(m), idx);
    var jdx := [idx[0] - gap] + idx[1..];
    SplitIndexB(m, idx, k);
    SplitIndexB(l, jdx, k);
    assert jdx[0] == idx[0] - gap && jdx[1..|jdx| - 1] == idx[1..|idx| - 1];
    var rest := idx[1..|idx| - 1] + [k];
    assert ([idx[0]] + rest)[1..] == rest;
  }

  /** An element of two tensors in a row, `gap` places on along the first axis, is an element of one of them. */
  lemma OneOfTwo(s: Tensor, t: Tensor, u: Tensor, gap: nat, idx: Index, jdx: Index)
    requires Catable(s, t) && InBounds(CatShape(s.shape, t.shape), idx) && idx != []
    requires (u == s && gap == 0 && idx[0] < s.shape[0]) || (u == t && gap == s.shape[0] <= idx[0])
    requires jdx == [idx[0] - gap] + idx[1..]
    ensures InBounds(u.shape, jdx) && At(Cat(s, t), idx) == At(u, jdx)
  {
    hide Cat, At, InBounds, Catable;
    CatPicks(s, t, idx);
    Rebuild(idx);
  }

  lemma JoinedTerm(m: Lora, x: Lora, y: Lora, l: Lora, gap: nat, idx: Index, k: nat)
    requires Aligned(x) && Aligned(y) && Broadcasts(x) && Broadcasts(y) && IsJoined(m, x, y) && Broadcasts(m)
    requires Aligned(m) && idx != []
    requires (l == x && gap == 0 && idx[0] < x.A.shape[0]) || (l == y && gap == x.A.shape[0])
    requires InBounds(LoraShape(m), idx) && gap <= idx[0] && InBounds(LoraShape(l), [idx[0] - gap] + idx[1..])
    requires k < Rank(m) == Rank(l)
    ensures Term(m, idx, k) == Term(l, [idx[0] - gap] + idx[1..], k)
  {
    hide Cat, At, IndexA, IndexB, InBounds, LoraShape, Broadcasts, CatShape;
    var jdx := [idx[0] - gap] + idx[1..];
    JoinedShapes(m, x, y);
    JoinedIndexA(m, x, y, l, gap, idx, k);
    JoinedIndexB(m, l, gap, idx, k);
    OneOfTwo(x.A, y.A, l.A, gap, IndexA(m, idx, k), IndexA(l, jdx, k));
    OneOfTwo(x.B, y.B, l.B, gap, IndexB(m, idx, k), IndexB(l, jdx, k));
  }

  lemma Rebuild(idx: Index)
    requires idx != []
    ensures [idx[0] - 0] + idx[1..] == idx
  {
  }

  /** Joining two aligned pairs joins their products. */
  lemma JoinedProducts(m: Lora, x: Lora, y: Lora)
    requires Aligned(x) && Aligned(y) && Broadcasts(x) && Broadcasts(y) && IsJoined(m, x, y)
    ensures Aligned(m) && Broadcasts(m) && Catable(Merged(x), Merged(y)) && Merged(m) == Cat(Merged(x), Merged(y))
  {
    hide Merged, Cat, Term, IsJoined;
    JoinedShapes(m, x, y);
    var c := Cat(Merged(x), Merged(y));
    forall idx | InBounds(LoraShape(m), idx) ensures At(Merged(m), idx) == At(c, idx) {
      JoinedElement(m, x, y, idx);
    }
    TensorEqual(Merged(m), c);
  }

  lemma JoinedElement(m: Lora, x: Lora, y: Lora, idx: Index)
    requires Aligned(x) && Aligned(y) && Broadcasts(x) && Broadcasts(y) && IsJoined(m, x, y) && Broadcasts(m)
             && Aligned(m)
    requires Catable(Merged(x), Merged(y)) && LoraShape(m) == CatShape(LoraShape(x), LoraShape(y))
    requires InBounds(LoraShape(m), idx) && Rank(m) == Rank(x) == Rank(y) && LoraShape(x)[0] == x.A.shape[0]
    ensures InBounds(CatShape(Merged(x).shape, Merged(y).shape), idx)
            && At(Merged(m), idx) == At(Cat(Merged(x), Merged(y)), idx)
  {
    hide Merged, Cat, Term, IsJoined, Aligned, At, InBounds, Terms;
    MergedAt(m, idx);
    SameLength(LoraShape(m), idx);
    CatPicks(Merged(x), Merged(y), idx);
    var first := idx[0] < x.A.shape[0];
    var l, gap := if first then x else y, if first then 0 else x.A.shape[0];
    var jdx := [idx[0] - gap] + idx[1..];
    Rebuild(idx);
    MergedAt(l, jdx);
    forall k | 0 <= k < Rank(m) ensures k < Rank(l) && Term(m, idx, k) == Term(l, jdx, k) {
      JoinedTerm(m, x, y, l, gap, idx, k);
    }
    TermsEqual(m, idx, l, jdx, Rank(m));
  }

  /** An element of two tensors in a row is an element of one of them. */
  lemma CatPicks(s: Tensor, t: Tensor, idx: Index)
    requires Catable(s, t) && InBounds(CatShape(s.shape, t.shape), idx)
    ensures idx != []
    ensures if idx[0] < s.shape[0] then InBounds(s.shape, idx) && At(Cat(s, t), idx) == At(s, idx)
            else
              var rest := [idx[0] - s.shape[0]] + idx[1..];
              InBounds(t.shape, rest) && At(Cat(s, t), idx) == At(t, rest)
  {
    hide Cat, At;
    CatAt(s, t, idx);
    CatBounds(s.shape, t.shape, idx);
  }

  lemma CatBounds(s: Shape, t: Shape, idx: Index)
    requires s != [] && t != [] && s[1..] == t[1..] && InBounds(CatShape(s, t), idx)
    ensures if idx[0] < s[0] then InBounds(s, idx) else InBounds(t, [idx[0] - s[0]] + idx[1..])
  {
    assert forall d :: 1 <= d < |s| ==> s[d] == s[1..][d - 1] && t[d] == t[1..][d - 1] && CatShape(s, t)[d] == s[d];
  }

  predicate AllBroadcast(ls: seq<Lora>) {
    forall i :: 0 <= i < |ls| ==> Broadcasts(ls[i])
  }

  predicate AllAligned(ls: seq<Lora>) {
    forall i :: 0 <= i < |ls| ==> Aligned(ls[i]) && Broadcasts(ls[i])
  }

  /** Pairs whose factors have the first axis alike. */
  lemma {:induction false} AlignedCommute(ls: seq<Lora>, m: Lora)
    requires ls != [] && AllAligned(ls) && LoraCatBoth(ls) == Ok(m)
    ensures Aligned(m) && Broadcasts(m) && AllCatable(Products(ls)) && Merged(m) == CatAll(Products(ls))
    decreases |ls|
  {
    hide Merged, Cat, Catable, AllCatable, LoraCatBoth, IsJoined, CatAll, Products, Aligned, Broadcasts;
    var n := |ls| - 1;
    IsAligned(ls[0]);
    if n == 0 {
      OneProduct(ls, m);
    } else {
      var front := ls[..n];
      var f := FrontJoined(ls, m);
      AlignedCommute(front, f);
      JoinedProducts(m, f, ls[n]);
      ProductsSplit(ls, m);
    }
  }

  lemma OneProduct(ls: seq<Lora>, m: Lora)
    requires |ls| == 1 && |ls[0].A.shape| > 2 && Broadcasts(ls[0]) && LoraCatBoth(ls) == Ok(m)
    ensures m == ls[0] && AllCatable(Products(ls)) && CatAll(Products(ls)) == Merged(ls[0])
  {
    hide Merged;
  }

  /** The pair of all but the last, and the last joined to it. */
  lemma FrontJoined(ls: seq<Lora>, m: Lora) returns (f: Lora)
    requires |ls| > 1 && |ls[0].A.shape| > 2 && LoraCatBoth(ls) == Ok(m)
    ensures LoraCatBoth(ls[..|ls| - 1]) == Ok(f) && IsJoined(m, f, ls[|ls| - 1])
  {
    hide Cat, Merged;
    var n := |ls| - 1;
    var front := ls[..n];
    FrontAllCatable(FactorsA(ls));
    FrontAllCatable(FactorsB(ls));
    assert FactorsA(front) == FactorsA(ls)[..n] && FactorsB(front) == FactorsB(ls)[..n];
    f := Lora(CatAll(FactorsA(front)), CatAll(FactorsB(front)));
  }

  lemma FirstLead(l: Lora)
    requires |l.A.shape| > 2
    ensures Broadcasts(l) ==> l.A.shape[0] == 1 || l.A.shape[0] == l.B.shape[0]
  {
    assert Leads(l.A)[0] == l.A.shape[0] && Leads(l.B)[0] == l.B.shape[0];
  }

  function SumFirst(ts: seq<Tensor>): (n: nat)
    requires forall i :: 0 <= i < |ts| ==> ts[i].shape != []
  {
    if ts == [] then 0 else SumFirst(ts[..|ts| - 1]) + ts[|ts| - 1].shape[0]
  }

  lemma {:induction false} CatAllFirst(ts: seq<Tensor>)
    requires AllCatable(ts)
    ensures forall i :: 0 <= i < |ts| ==> ts[i].shape != []
    ensures CatAll(ts).shape != [] && CatAll(ts).shape[0] == SumFirst(ts)
    decreases |ts|
  {
    hide Cat;
    assert forall i :: 0 <= i < |ts| ==> Catable(ts[0], ts[i]);
    var n := |ts| - 1;
    if n > 0 {
      FrontAllCatable(ts);
      CatAllFirst(ts[..n]);
    } else {
      assert ts[..0] == [];
    }
  }

  lemma IsAligned(l: Lora)
    ensures Aligned(l) <==> |l.A.shape| > 2 && l.A.shape[0] == l.B.shape[0]
  {
  }

  lemma SumsSnoc(ls: seq<Lora>)
    requires ls != [] && forall i :: 0 <= i < |ls| ==> |ls[i].A.shape| > 2
    ensures var n := |ls| - 1;
            && SumFirst(FactorsA(ls)) == SumFirst(FactorsA(ls[..n])) + ls[n].A.shape[0]
            && SumFirst(FactorsB(ls)) == SumFirst(FactorsB(ls[..n])) + ls[n].B.shape[0]
  {
    var n := |ls| - 1;
    assert FactorsA(ls[..n]) == FactorsA(ls)[..n] && FactorsB(ls[..n]) == FactorsB(ls)[..n];
  }

  /** With no first axis empty, joined factors have as long a first axis only if all of them had. */
  lemma {:induction false} SumsApart(ls: seq<Lora>)
    requires forall i :: 0 <= i < |ls| ==> |ls[i].A.shape| > 2 && Broadcasts(ls[i]) && ls[i].B.shape[0] > 0
    ensures |ls| <= SumFirst(FactorsA(ls)) <= SumFirst(FactorsB(ls))
    ensures SumFirst(FactorsA(ls)) == SumFirst(FactorsB(ls)) ==> AllAligned(ls)
    decreases |ls|
  {
    if ls != [] {
      hide AllAligned, Broadcasts, Aligned, SumFirst, FactorsA, FactorsB;
      var n := |ls| - 1;
      SumsApart(ls[..n]);
      SumsSnoc(ls);
      FirstLead(ls[n]);
      IsAligned(ls[n]);
      if SumFirst(FactorsA(ls)) == SumFirst(FactorsB(ls)) {
        LastAligned(ls);
      }
    }
  }

  lemma LastAligned(ls: seq<Lora>)
    requires ls != [] && AllAligned(ls[..|ls| - 1]) && Aligned(ls[|ls| - 1]) && Broadcasts(ls[|ls| - 1])
    ensures AllAligned(ls)
  {
    hide Broadcasts, Aligned;
    assert forall i :: 0 <= i < |ls| - 1 ==> ls[i] == ls[..|ls| - 1][i];
  }

  /** Joined factors have a product of the shape they report exactly when the first axes of all A together have size
      one, or as many places as those of all B. */
  lemma JoinedBroadcasts(ls: seq<Lora>, m: Lora)
    requires ls != [] && |ls[0].A.shape| > 2 && LoraCatBoth(ls) == Ok(m) && Broadcasts(ls[0])
    ensures forall i :: 0 <= i < |ls| ==> |ls[i].A.shape| > 2 && |ls[i].B.shape| > 2
    ensures Broadcasts(m) <==>
              SumFirst(FactorsA(ls)) == 1 || SumFirst(FactorsA(ls)) == SumFirst(FactorsB(ls))
  {
    hide CatAll, SumFirst;
    SameRanks(ls);
    CatAllFirst(FactorsA(ls));
    CatAllFirst(FactorsB(ls));
    FirstLead(m);
    OtherLeads(ls[0], m);
  }

  lemma OtherLeads(l: Lora, m: Lora)
    requires |l.A.shape| > 2 && Catable(l.A, m.A) && Catable(l.B, m.B) && Broadcasts(l)
    ensures m.A.shape[0] == 1 || m.A.shape[0] == m.B.shape[0] ==> Broadcasts(m)
  {
    forall d | 1 <= d < |Leads(m.A)| ensures Leads(m.A)[d] == 1 || Leads(m.A)[d] == Leads(m.B)[d] {
      assert Leads(m.A)[d] == m.A.shape[1..][d - 1] == l.A.shape[1..][d - 1] == Leads(l.A)[d];
      assert Leads(m.B)[d] == m.B.shape[1..][d - 1] == l.B.shape[1..][d - 1] == Leads(l.B)[d];
    }
  }

  // ---------- One place in all of A

  lemma CatEmptyRight(s: Tensor, t: Tensor)
    requires Catable(s, t) && t.shape[0] == 0
    ensures Cat(s, t) == s
  {
    hide Cat, At, InBounds;
    assert CatShape(s.shape, t.shape) == s.shape;
    forall idx | InBounds(s.shape, idx) ensures At(Cat(s, t), idx) == At(s, idx) {
      CatPicks(s, t, idx);
      FirstInBounds(s.shape, idx);
    }
    TensorEqual(Cat(s, t), s);
  }

  lemma CatEmptyLeft(s: Tensor, t: Tensor)
    requires Catable(s, t) && s.shape[0] == 0
    ensures Cat(s, t) == t
  {
    hide Cat, At, InBounds;
    assert CatShape(s.shape, t.shape) == t.shape;
    forall idx | InBounds(t.shape, idx) ensures At(Cat(s, t), idx) == At(t, idx) {
      CatPicks(s, t, idx);
      Rebuild(idx);
    }
    TensorEqual(Cat(s, t), t);
  }

  lemma FirstInBounds(shape: Shape, idx: Index)
    requires shape != [] && InBounds(shape, idx)
    ensures idx != [] && idx[0] < shape[0]
  {
  }

  lemma ProductsCatable(ls: seq<Lora>)
    requires ls != [] && |ls[0].A.shape| > 2 && AllBroadcast(ls)
    requires AllCatable(FactorsA(ls)) && AllCatable(FactorsB(ls))
    ensures AllCatable(Products(ls))
  {
    hide Merged, Broadcasts;
    var ps := Products(ls);
    forall i | 0 <= i < |ls| ensures Catable(ps[0], ps[i]) {
      assert Catable(FactorsA(ls)[0], FactorsA(ls)[i]) && Catable(FactorsB(ls)[0], FactorsB(ls)[i]);
      ProductTail(ls[0]);
      ProductTail(ls[i]);
      var n := |ls[0].A.shape|;
      assert RowSize(ls[0]) == ls[0].A.shape[1..][n - 2] && RowSize(ls[i]) == ls[i].A.shape[1..][n - 2];
    }
  }

  lemma ProductTail(l: Lora)
    requires |l.A.shape| > 2
    ensures LoraShape(l)[0] == l.B.shape[0] && LoraShape(l)[1..] == l.B.shape[1..][..|l.B.shape| - 2] + [RowSize(l)]
  {
  }

  /** If all first axes of A are empty, so are those of B. */
  lemma {:induction false} NothingJoined(ls: seq<Lora>)
    requires AllBroadcast(ls) && (forall i :: 0 <= i < |ls| ==> |ls[i].A.shape| > 2) && SumFirst(FactorsA(ls)) == 0
    ensures SumFirst(FactorsB(ls)) == 0 && SumFirst(Products(ls)) == 0
    decreases |ls|
  {
    if ls != [] {
      hide Broadcasts, SumFirst, FactorsA, FactorsB, Products, LoraShape, AllBroadcast;
      var n := |ls| - 1;
      FrontBroadcasts(ls);
      SumsSnoc(ls);
      NothingJoined(ls[..n]);
      FirstLead(ls[n]);
      ProductTail(ls[n]);
      ProductsSum(ls);
    }
  }

  lemma FrontBroadcasts(ls: seq<Lora>)
    requires ls != [] && AllBroadcast(ls)
    ensures AllBroadcast(ls[..|ls| - 1]) && Broadcasts(ls[|ls| - 1])
  {
    hide Broadcasts;
  }

  lemma ProductsSum(ls: seq<Lora>)
    requires ls != [] && AllBroadcast(ls)
    requires forall i :: 0 <= i < |ls| ==> |ls[i].A.shape| > 2
    ensures SumFirst(Products(ls)) == SumFirst(Products(ls[..|ls| - 1])) + LoraShape(ls[|ls| - 1])[0]
  {
    hide Merged, Broadcasts;
    assert Products(ls[..|ls| - 1]) == Products(ls)[..|ls| - 1];
  }

  /** With one place in all first axes of A together, one pair has it and the others are empty. */
  lemma {:induction false} OnePlaceCommutes(ls: seq<Lora>, m: Lora)
    requires ls != [] && |ls[0].A.shape| > 2 && LoraCatBoth(ls) == Ok(m) && AllBroadcast(ls)
    requires forall i :: 0 <= i < |ls| ==> |ls[i].A.shape| > 2
    requires SumFirst(FactorsA(ls)) == 1
    ensures Broadcasts(m) && AllCatable(Products(ls)) && Merged(m) == CatAll(Products(ls))
    decreases |ls|
  {
    hide Merged, CatAll, Cat, SumFirst, FactorsA, FactorsB, Products, Broadcasts, AllCatable, LoraCatBoth, IsJoined;
    var n := |ls| - 1;
    if n == 0 {
      OneProduct(ls, m);
    } else {
      var front, last := ls[..n], ls[n];
      var f := FrontJoined(ls, m);
      SumsSnoc(ls);
      FirstLead(last);
      if last.A.shape[0] == 0 {
        OnePlaceCommutes(front, f);
        LastIsEmpty(ls, f, m);
      } else {
        NothingInFront(front, f);
        OnlyLast(ls, f, m);
      }
    }
  }

  lemma LastIsEmpty(ls: seq<Lora>, f: Lora, m: Lora)
    requires |ls| > 1 && |ls[0].A.shape| > 2 && LoraCatBoth(ls) == Ok(m) && AllBroadcast(ls)
    requires AllBroadcast(ls[..|ls| - 1]) && AllCatable(Products(ls[..|ls| - 1]))
    requires var front, last := ls[..|ls| - 1], ls[|ls| - 1];
             && |last.A.shape| > 2 && last.A.shape[0] == last.B.shape[0] == 0 && IsJoined(m, f, last)
             && Broadcasts(f) && Merged(f) == CatAll(Products(front))
    ensures m == f && AllCatable(Products(ls)) && CatAll(Products(ls)) == Merged(f)
  {
    hide Merged, CatAll, Cat, Broadcasts, Products;
    ProductsSplit(ls, m);
    EmptyBehind(f, ls[|ls| - 1], m, CatAll(Products(ls[..|ls| - 1])));
  }

  lemma OnlyLast(ls: seq<Lora>, f: Lora, m: Lora)
    requires |ls| > 1 && |ls[0].A.shape| > 2 && LoraCatBoth(ls) == Ok(m) && AllBroadcast(ls)
    requires AllBroadcast(ls[..|ls| - 1]) && AllCatable(Products(ls[..|ls| - 1])) && Broadcasts(ls[|ls| - 1])
    requires IsJoined(m, f, ls[|ls| - 1]) && f.A.shape[0] == 0 && f.B.shape[0] == 0
    requires CatAll(Products(ls[..|ls| - 1])).shape[0] == 0
    ensures m == ls[|ls| - 1] && AllCatable(Products(ls)) && CatAll(Products(ls)) == Merged(ls[|ls| - 1])
  {
    hide Merged, CatAll, Cat, Broadcasts, Products;
    ProductsSplit(ls, m);
    EmptyBefore(f, ls[|ls| - 1], m, CatAll(Products(ls[..|ls| - 1])));
  }

  lemma EmptyBehind(f: Lora, last: Lora, m: Lora, p: Tensor)
    requires IsJoined(m, f, last) && Broadcasts(last) && Catable(p, Merged(last))
    requires |last.A.shape| > 2 && last.A.shape[0] == last.B.shape[0] == 0
    ensures m == f && Cat(p, Merged(last)) == p
  {
    hide Merged, Cat, Broadcasts;
    ProductTail(last);
    CatEmptyRight(f.A, last.A);
    CatEmptyRight(f.B, last.B);
    CatEmptyRight(p, Merged(last));
  }

  lemma EmptyBefore(f: Lora, last: Lora, m: Lora, p: Tensor)
    requires IsJoined(m, f, last) && Broadcasts(last) && Catable(p, Merged(last))
    requires f.A.shape[0] == 0 && f.B.shape[0] == 0 && p.shape[0] == 0
    ensures m == last && Cat(p, Merged(last)) == Merged(last)
  {
    hide Merged, Cat, Broadcasts;
    CatEmptyLeft(f.A, last.A);
    CatEmptyLeft(f.B, last.B);
    CatEmptyLeft(p, Merged(last));
  }

  lemma NothingInFront(front: seq<Lora>, f: Lora)
    requires front != [] && AllBroadcast(front) && (forall i :: 0 <= i < |front| ==> |front[i].A.shape| > 2)
    requires LoraCatBoth(front) == Ok(f) && SumFirst(FactorsA(front)) == 0
    ensures f.A.shape[0] == 0 && f.B.shape[0] == 0
    ensures AllCatable(Products(front)) && CatAll(Products(front)).shape[0] == 0
  {
    hide Merged, CatAll, Broadcasts, SumFirst;
    ProductsCatable(front);
    NothingJoined(front);
    CatAllFirst(FactorsA(front));
    CatAllFirst(FactorsB(front));
    CatAllFirst(Products(front));
  }

  /** The products of accepted pairs can be concatenated, the last to those before it. */
  lemma ProductsSplit(ls: seq<Lora>, m: Lora)
    requires |ls| > 1 && |ls[0].A.shape| > 2 && AllBroadcast(ls) && LoraCatBoth(ls) == Ok(m)
    ensures var front, last := ls[..|ls| - 1], ls[|ls| - 1];
            && AllCatable(Products(ls)) && AllCatable(Products(front)) && Catable(CatAll(Products(front)), Merged(last))
            && CatAll(Products(ls)) == Cat(CatAll(Products(front)), Merged(last))
  {
    hide Merged, Cat, Broadcasts;
    var n := |ls| - 1;
    ProductsCatable(ls);
    FrontAllCatable(Products(ls));
    assert Products(ls[..n]) == Products(ls)[..n];
  }

  /** Concatenating pairs of more than two axes gives a pair whose product has the shape it reports exactly when the
      first axes of all A have one place together, or as many as those of all B. The product is the concatenation of
      the weights in the first case, and whenever every pair has the first axis of both factors alike. With no first
      axis empty, no other pair keeps its shape. */
  lemma CatBothCommutes(ls: seq<Lora>, m: Lora)
    requires ls != [] && |ls[0].A.shape| > 2 && LoraCatBoth(ls) == Ok(m)
    requires AllBroadcast(ls)
    ensures forall i :: 0 <= i < |ls| ==> |ls[i].A.shape| > 2 && |ls[i].B.shape| > 2
    ensures Broadcasts(m) <==>
              SumFirst(FactorsA(ls)) == 1 || SumFirst(FactorsA(ls)) == SumFirst(FactorsB(ls))
    ensures SumFirst(FactorsA(ls)) == 1 || |ls| == 1 || AllAligned(ls)
            ==> Broadcasts(m) && AllCatable(Products(ls)) && Merged(m) == CatAll(Products(ls))
    ensures (forall i :: 0 <= i < |ls| ==> ls[i].B.shape[0] > 0) ==>
              (Broadcasts(m) <==> |ls| == 1 || AllAligned(ls))
  {
    hide Merged, CatAll, Products, Broadcasts, Aligned, SumFirst;
    JoinedBroadcasts(ls, m);
    if |ls| == 1 {
      OneProduct(ls, m);
    } else if AllAligned(ls) {
      AlignedCommute(ls, m);
    } else {
      if SumFirst(FactorsA(ls)) == 1 {
        OnePlaceCommutes(ls, m);
      }
      if forall i :: 0 <= i < |ls| ==> ls[i].B.shape[0] > 0 {
        FirstAxesApart(ls, m);
      }
    }
  }

  lemma SameRanks(ls: seq<Lora>)
    requires ls != [] && |ls[0].A.shape| > 2 && AllCatable(FactorsA(ls))
    ensures forall i :: 0 <= i < |ls| ==> |ls[i].A.shape| > 2 && |ls[i].B.shape| > 2
  {
    forall i | 0 <= i < |ls| ensures |ls[i].A.shape| > 2 && |ls[i].B.shape| > 2 {
      assert Catable(FactorsA(ls)[0], FactorsA(ls)[i]);
    }
  }

  /** Two reshaped pairs, joined: the two weights of each would need the same A, and A has two places for the four. */
  lemma ReshapedDoNotJoin()
    ensures var ls := [ReshapedPair(), ReshapedPair()];
            LoraCatBoth(ls).Ok? && !Broadcasts(LoraCatBoth(ls).value)
  {
    hide ReshapedPair, Broadcasts, CatAll;
    var ls := [ReshapedPair(), ReshapedPair()];
    CatAllFirst(FactorsA(ls));
    CatAllFirst(FactorsB(ls));
    IsAligned(ls[0]);
    FirstAxesApart(ls, LoraCatBoth(ls).value);
  }

  lemma FirstAxesApart(ls: seq<Lora>, m: Lora)
    requires |ls| > 1 && |ls[0].A.shape| > 2 && LoraCatBoth(ls) == Ok(m) && !AllAligned(ls)
    requires forall i :: 0 <= i < |ls| ==> |ls[i].A.shape| > 2 && Broadcasts(ls[i]) && ls[i].B.shape[0] > 0
    ensures !Broadcasts(m)
  {
    hide CatAll, AllAligned, Broadcasts;
    CatAllFirst(FactorsA(ls));
    CatAllFirst(FactorsB(ls));
    SumsApart(ls);
    FirstLead(m);
  }

  lemma ProdNone()
    ensures Prod([0, 1, 1]) == 0
  {
    assert [0, 1, 1][..2] == [0, 1] && [0, 1][..1] == [0] && [0][..0] == [];
    assert Prod([0]) == 0 && Prod([0, 1]) == 0;
  }

  /** A pair without any weight, and one whose two weights share their A. */
  function NoWeight(): (l: Lora)
    ensures l.A.shape == [1, 1, 1] && l.A.data == [1.0] && l.B.shape == [0, 1, 1] && Broadcasts(l)
  {
    ProdThreeOnes();
    ProdNone();
    Lora(Tensor([1, 1, 1], [1.0]), Tensor([0, 1, 1], []))
  }

  function TwoWeights(): (l: Lora)
    ensures l.A.shape == [1, 1, 1] && l.A.data == [2.0] && l.B.shape == [2, 1, 1] && l.B.data == [3.0, 4.0]
    ensures Broadcasts(l)
  {
    ProdThreeOnes();
    Lora(Tensor([1, 1, 1], [2.0]), Tensor([2, 1, 1], [3.0, 4.0]))
  }

  /** Joined, the two have a product of the right shape, but the first weight is taken with the A of the pair that has
      none. */
  lemma WeightsMixedUp() returns (m: Lora, ts: seq<Tensor>)
    ensures LoraCatBoth([NoWeight(), TwoWeights()]) == Ok(m) && Broadcasts(m)
    ensures AllBroadcast([NoWeight(), TwoWeights()]) && ts == Products([NoWeight(), TwoWeights()]) && AllCatable(ts)
    ensures Merged(m).shape == CatAll(ts).shape == [2, 1, 1]
    ensures Merged(m).data == [3.0, 8.0] && CatAll(ts).data == [6.0, 8.0]
  {
    hide NoWeight, TwoWeights, Merged, Cat, At, Broadcasts, InBounds;
    var x, y := NoWeight(), TwoWeights();
    var ls := [x, y];
    assert FactorsA(ls) == [x.A, y.A] && FactorsB(ls) == [x.B, y.B];
    TwoInARow(x.A, y.A);
    TwoInARow(x.B, y.B);
    m := LoraCatBoth(ls).value;
    CatEmptyLeft(x.B, y.B);
    OtherLeads(x, m);
    TwoRows(x.A, y.A);
    RowProducts(m);
    RowProducts(y);
    ProductsSplit(ls, m);
    ts := Products(ls);
    assert Products(ls[..1]) == [Merged(x)] && ls[..1] == [x];
    CatEmptyLeft(Merged(x), Merged(y));
  }

  lemma TwoInARow(s: Tensor, t: Tensor)
    requires Catable(s, t)
    ensures AllCatable([s, t]) && CatAll([s, t]) == Cat(s, t)
  {
    hide Cat;
    assert [s, t][..1] == [s] && CatAll([s]) == s;
  }

  lemma AtRow(t: Tensor, i: nat)
    requires t.shape in {[1, 1, 1], [2, 1, 1]} && i < t.shape[0]
    ensures |t.data| == t.shape[0] && InBounds(t.shape, [i, 0, 0]) && At(t, [i, 0, 0]) == t.data[i]
  {
    ProdThreeOnes();
    var idx, s := [i, 0, 0], t.shape;
    assert idx[..2] == [i, 0] && idx[..2][..1] == [i] && idx[..1] == [i] && idx[..1][..0] == [];
    assert s[..2][..1] == s[..1] && s[..1][..0] == [];
    assert Offset(s[..1], [i]) == i && Offset(s[..2], [i, 0]) == i;
  }

  lemma TwoRows(s: Tensor, t: Tensor)
    requires s.shape == t.shape == [1, 1, 1] && Catable(s, t)
    ensures |s.data| == |t.data| == 1 && Cat(s, t).shape == [2, 1, 1] && Cat(s, t).data == [s.data[0], t.data[0]]
  {
    hide Cat, At, InBounds;
    assert CatShape(s.shape, t.shape) == [2, 1, 1];
    AtRow(Cat(s, t), 0);
    AtRow(Cat(s, t), 1);
    CatPicks(s, t, [0, 0, 0]);
    CatPicks(s, t, [1, 0, 0]);
    AtRow(s, 0);
    AtRow(t, 0);
    assert [1 - 1] + [1, 0, 0][1..] == [0, 0, 0];
  }

  /** The product of two weights of one element and rank one. */
  lemma RowProducts(l: Lora)
    requires l.A.shape in {[1, 1, 1], [2, 1, 1]} && l.B.shape == [2, 1, 1] && Broadcasts(l)
    ensures |l.A.data| == l.A.shape[0] && |l.B.data| == 2 && Merged(l).shape == [2, 1, 1]
    ensures Merged(l).data == [l.B.data[0] * l.A.data[0], l.B.data[1] * l.A.data[if l.A.shape[0] == 1 then 0 else 1]]
  {
    hide Merged, At;
    assert LoraShape(l) == [2, 1, 1];
    RowProduct(l, 0);
    RowProduct(l, 1);
    AtRow(Merged(l), 0);
    AtRow(Merged(l), 1);
    var d := Merged(l).data;
    assert d[0] == l.B.data[0] * l.A.data[0];
    assert d[1] == l.B.data[1] * l.A.data[if l.A.shape[0] == 1 then 0 else 1];
    assert d == [d[0], d[1]];
  }

  lemma RowProduct(l: Lora, i: nat)
    requires l.A.shape in {[1, 1, 1], [2, 1, 1]} && l.B.shape == [2, 1, 1] && Broadcasts(l) && i < 2
    ensures |l.A.data| == l.A.shape[0] && |l.B.data| == 2 && InBounds(LoraShape(l), [i, 0, 0])
    ensures At(Merged(l), [i, 0, 0]) == l.B.data[i] * l.A.data[if l.A.shape[0] == 1 then 0 else i]
  {
    hide Merged, At, IndexA, IndexB;
    var idx, p := [i, 0, 0], if l.A.shape[0] == 1 then 0 else i;
    AtRow(l.A, p);
    AtRow(l.B, i);
    MergedAt(l, idx);
    RowIndices(l, i, p);
    assert Terms(l, idx, 0) == 0.0 && Terms(l, idx, 1) == Terms(l, idx, 0) + Term(l, idx, 0);
  }

  lemma RowIndices(l: Lora, i: nat, p: nat)
    requires l.A.shape in {[1, 1, 1], [2, 1, 1]} && l.B.shape == [2, 1, 1] && Broadcasts(l) && i < 2
    requires p == if l.A.shape[0] == 1 then 0 else i
    ensures InBounds(LoraShape(l), [i, 0, 0])
    ensures IndexA(l, [i, 0, 0], 0) == [p, 0, 0] && IndexB(l, [i, 0, 0], 0) == [i, 0, 0]
  {
    assert Leads(l.A) == [l.A.shape[0]];
  }
}
