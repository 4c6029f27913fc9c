/** Indexing factor pairs with a tuple of subscripts (convert_lora_to_gguf.py). */
module LoraTuples {
  import opened Arithmetic
  import opened Tensors
  import opened Loras
  import opened LoraParts

  // ---------- What the tuple selects from the factors

  /** The subscript of a leading axis of A: an integer counts modulo the axis, anything else takes all of it. */
  function LeadSelect(item: Item, dim: nat): (s: Select)
    requires item.Int? ==> dim > 0
  {
    if item.Int? then Pick(item.i % dim) else Take(All(dim))
  }

  /** The subscripts of the leading axes. */
  function Front(items: seq<Item>): (front: seq<Item>)
    requires |items| >= 2
  {
    items[..|items| - 2]
  }

  predicate LeadsCountable(items: seq<Item>, leads: Shape) {
    |items| == |leads| && forall d :: 0 <= d < |leads| && items[d].Int? ==> leads[d] > 0
  }

  function LeadsSelection(items: seq<Item>, leads: Shape): (sel: seq<Select>)
    requires LeadsCountable(items, leads)
    ensures Selects(leads, sel) && |sel| == |leads|
    ensures forall d :: 0 <= d < |sel| ==> sel[d] == LeadSelect(items[d], leads[d])
  {
    seq(|leads|, d requires 0 <= d < |leads| => LeadSelect(items[d], leads[d]))
  }

  /** The selection on A: its leading axes as above, its rank axis whole, the last subscript on its rows. */
  function SelectionA(l: Lora, items: seq<Item>): (sel: seq<Select>)
    requires |items| == |l.A.shape| && InRange(items[|items| - 1], RowSize(l))
             && LeadsCountable(Front(items), Leads(l.A))
    ensures Selects(l.A.shape, sel)
  {
    LeadsSelection(Front(items), Leads(l.A)) + [Take(All(Rank(l)))] + [SelectOne(items[|items| - 1], RowSize(l))]
  }

  /** The selection on B: all subscripts but the last, and its rank axis whole. */
  function SelectionB(l: Lora, items: seq<Item>): (sel: seq<Select>)
    requires |items| == |l.B.shape| && AllInRange(items[..|items| - 1], RowShape(l))
    ensures Selects(l.B.shape, sel)
  {
    SelectAll(items[..|items| - 1], RowShape(l)) + [Take(All(Rank(l)))]
  }

  predicate TupleInRange(l: Lora, items: seq<Item>) {
    |items| == |l.A.shape| && AllInRange(items[..|items| - 1], RowShape(l)) && InRange(items[|items| - 1], RowSize(l))
  }

  /** A tuple with one subscript an axis. */
  function GetTuple(l: Lora, items: seq<Item>): (r: Result)
    requires |items| == |l.A.shape|
  {
    if !TupleInRange(l, items) || !LeadsCountable(Front(items), Leads(l.A)) then Rejected
    else Pair(SelectFrom(l.A, SelectionA(l, items)), SelectFrom(l.B, SelectionB(l, items)))
  }

  /** What the tuple selects from the weight itself. */
  function Selection(l: Lora, items: seq<Item>): (sel: seq<Select>)
    requires TupleInRange(l, items)
    ensures Selects(LoraShape(l), sel)
  {
    SelectAll(items[..|items| - 1], RowShape(l)) + [SelectOne(items[|items| - 1], RowSize(l))]
  }

  lemma SelectedSnoc(sel: seq<Select>, s: Select)
    ensures SelectedShape(sel + [s]) == SelectedShape(sel) + if s.Pick? then [] else [|s.places|]
  {
    assert (sel + [s])[..|sel|] == sel;
  }

  lemma SelectedIndexSnoc(shape: Shape, dim: nat, sel: seq<Select>, places: seq<nat>, idx: Index, i: nat)
    requires Selects(shape, sel) && Selects(shape + [dim], sel + [Take(places)])
    requires InBounds(SelectedShape(sel), idx) && i < |places|
    ensures InBounds(SelectedShape(sel + [Take(places)]), idx + [i])
    ensures Selected(shape + [dim], sel + [Take(places)], idx + [i]) == Selected(shape, sel, idx) + [places[i]]
  {
    SelectedSnoc(sel, Take(places));
    assert (sel + [Take(places)])[..|sel|] == sel && (shape + [dim])[..|shape|] == shape && (idx + [i])[..|idx|] == idx;
  }

  // ---------- Leading axes

  /** Whether a leading axis is selected alike from both factors: A has size one there, or an integer picks one place,
      or the subscript takes the whole axis. */
  predicate Kept(item: Item, dimA: nat, dimB: nat) {
    dimA == 1 || item.Int? || SelectOne(item, dimB) == Take(All(dimB))
  }

  /** The condition on a tuple that can be checked before it is used. */
  predicate LeadsKept(items: seq<Item>, leadsA: Shape, leadsB: Shape) {
    |items| == |leadsA| == |leadsB| && forall d :: 0 <= d < |leadsA| ==> Kept(items[d], leadsA[d], leadsB[d])
  }

  predicate LeadsFit(items: seq<Item>, leadsA: Shape, leadsB: Shape) {
    && |items| == |leadsA| == |leadsB| && AllInRange(items, leadsB) && LeadsCountable(items, leadsA)
    && forall d :: 0 <= d < |leadsA| ==> leadsA[d] == 1 || leadsA[d] == leadsB[d]
  }

  /** The axes of A are those of B or 1. */
  predicate Spreads(a: Shape, b: Shape) {
    |a| == |b| && forall d :: 0 <= d < |a| ==> a[d] == 1 || a[d] == b[d]
  }

  lemma {:induction false} StepsLess(start: nat, stop: nat, step: Step)
    ensures |Steps(start, stop, step)| <= if start < stop then stop - start else 0
    ensures start < stop && |Steps(start, stop, step)| == stop - start ==>
              forall p :: 0 <= p < stop - start ==> Steps(start, stop, step)[p] == start + p
    decreases if start < stop then stop - start else 0
  {
    if start < stop {
      StepsLess(start + step, stop, step);
    }
  }

  /** A slice that takes as many places as there are takes all of them. */
  lemma AsManyIsAll(s: Slice, dim: nat)
    ensures |Places(s, dim)| <= dim
    ensures |Places(s, dim)| == dim <==> Places(s, dim) == All(dim)
  {
    var start, stop := Clamp(s.start, 0, dim), Clamp(s.stop, dim, dim);
    StepsLess(start, stop, s.step);
  }

  lemma AxisKept(item: Item, dimA: nat, dimB: nat)
    requires !item.Int? && (dimA == 1 || dimA == dimB)
    ensures Kept(item, dimA, dimB) <==> dimA == 1 || dimA == |SelectOne(item, dimB).places|
  {
    if item.Cut? {
      AsManyIsAll(item.s, dimB);
    }
  }

  lemma LeadsSnoc(items: seq<Item>, a: Shape, b: Shape)
    requires LeadsFit(items, a, b) && items != []
    ensures var d := |a| - 1;
            && LeadsFit(items[..d], a[..d], b[..d]) && InRange(items[d], b[d]) && (items[d].Int? ==> a[d] > 0)
            && LeadsSelection(items, a) == LeadsSelection(items[..d], a[..d]) + [LeadSelect(items[d], a[d])]
            && SelectAll(items, b) == SelectAll(items[..d], b[..d]) + [SelectOne(items[d], b[d])]
  {
    hide Places, All;
  }

  /** What is left of the leading axes of A still broadcasts to those of B exactly when every one of them was selected
      alike. */
  lemma {:induction false} KeptIffSpreads(items: seq<Item>, a: Shape, b: Shape)
    requires LeadsFit(items, a, b)
    ensures var x, y := SelectedShape(LeadsSelection(items, a)), SelectedShape(SelectAll(items, b));
            |x| == |y| && (Spreads(x, y) <==> LeadsKept(items, a, b))
    decreases |a|
  {
    hide LeadsSelection, SelectAll, SelectedShape, Kept, SelectOne, InRange;
    if a == [] {
      NoLeads(items, a, b);
    } else {
      var d := |a| - 1;
      LeadsSnoc(items, a, b);
      KeptIffSpreads(items[..d], a[..d], b[..d]);
      SpreadsSnoc(items, a, b);
    }
  }

  lemma NoLeads(items: seq<Item>, a: Shape, b: Shape)
    requires LeadsFit(items, a, b) && a == []
    ensures SelectedShape(LeadsSelection(items, a)) == [] == SelectedShape(SelectAll(items, b))
  {
  }

  lemma SpreadsSnoc(items: seq<Item>, a: Shape, b: Shape)
    requires LeadsFit(items, a, b) && a != [] && LeadsFit(items[..|a| - 1], a[..|a| - 1], b[..|a| - 1])
    requires var d := |a| - 1;
             var x := SelectedShape(LeadsSelection(items[..d], a[..d]));
             var y := SelectedShape(SelectAll(items[..d], b[..d]));
             |x| == |y| && (Spreads(x, y) <==> LeadsKept(items[..d], a[..d], b[..d]))
    ensures var x, y := SelectedShape(LeadsSelection(items, a)), SelectedShape(SelectAll(items, b));
            |x| == |y| && (Spreads(x, y) <==> LeadsKept(items, a, b))
  {
    hide LeadsSelection, SelectAll, SelectedShape, Kept;
    var d := |a| - 1;
    LeadsSnoc(items, a, b);
    var sa, sb := LeadsSelection(items[..d], a[..d]), SelectAll(items[..d], b[..d]);
    SelectedSnoc(sa, LeadSelect(items[d], a[d]));
    SelectedSnoc(sb, SelectOne(items[d], b[d]));
    KeptSnoc(items, a, b);
    if items[d].Int? {
      assert Kept(items[d], a[d], b[d]) by { IntKept(items[d], a[d], b[d]); }
      assert SelectedShape(sa) + [] == SelectedShape(sa) && SelectedShape(sb) + [] == SelectedShape(sb);
    } else {
      AxisKept(items[d], a[d], b[d]);
      SpreadsMore(SelectedShape(sa), SelectedShape(sb), a[d], |SelectOne(items[d], b[d]).places|);
    }
  }

  lemma IntKept(item: Item, dimA: nat, dimB: nat)
    requires item.Int?
    ensures Kept(item, dimA, dimB)
  {
  }

  lemma KeptSnoc(items: seq<Item>, a: Shape, b: Shape)
    requires |items| == |a| == |b| && a != []
    ensures var d := |a| - 1;
            LeadsKept(items, a, b) <==> LeadsKept(items[..d], a[..d], b[..d]) && Kept(items[d], a[d], b[d])
  {
    hide Kept;
  }

  lemma SpreadsMore(x: Shape, y: Shape, m: nat, n: nat)
    requires |x| == |y|
    ensures Spreads(x + [m], y + [n]) <==> Spreads(x, y) && (m == 1 || m == n)
  {
    if Spreads(x + [m], y + [n]) {
      assert forall d :: 0 <= d < |x| ==> x[d] == (x + [m])[d] && y[d] == (y + [n])[d];
      assert (x + [m])[|x|] == m && (y + [n])[|x|] == n;
    }
  }

  /** An integer picks from an axis of A, counted modulo its size, the place that it picks from the axis of B. */
  lemma PicksAlike(i: int, dimA: nat, dimB: nat)
    requires 0 <= PlaceOf(i, dimB) < dimB && dimA > 0 && (dimA == 1 || dimA == dimB)
    ensures i % dimA == if dimA == 1 then 0 else PlaceOf(i, dimB)
  {
    if dimA == 1 {
      assert i % 1 == 0;
    } else if i < 0 {
      assert i == -1 * dimA + PlaceOf(i, dimB);
      DivModNegative(i, dimA);
    }
  }

  /** An index with the given leading axes clipped fits them. */
  predicate ClipFits(leads: Shape, idx: Index) {
    |idx| == |leads| && forall d :: 0 <= d < |leads| ==> leads[d] == 1 || idx[d] < leads[d]
  }

  lemma ClippedSnoc(leads: Shape, n: nat, idx: Index, i: nat)
    requires ClipFits(leads, idx) && (n == 1 || i < n)
    ensures ClipFits(leads + [n], idx + [i])
    ensures Clipped(leads + [n], idx + [i]) == Clipped(leads, idx) + [if n == 1 then 0 else i]
  {
  }

  lemma SelectedPickSnoc(shape: Shape, dim: nat, sel: seq<Select>, p: nat, idx: Index)
    requires Selects(shape, sel) && p < dim && InBounds(SelectedShape(sel), idx)
    ensures Selects(shape + [dim], sel + [Pick(p)]) && SelectedShape(sel + [Pick(p)]) == SelectedShape(sel)
    ensures Selected(shape + [dim], sel + [Pick(p)], idx) == Selected(shape, sel, idx) + [p]
  {
    SelectedSnoc(sel, Pick(p));
    assert (sel + [Pick(p)])[..|sel|] == sel && (shape + [dim])[..|shape|] == shape;
  }

  lemma TakeSelects(shape: Shape, dim: nat, sel: seq<Select>, places: seq<nat>)
    requires Selects(shape, sel) && forall p :: 0 <= p < |places| ==> places[p] < dim
    ensures Selects(shape + [dim], sel + [Take(places)])
  {
  }

  /** What both selections make of an index: the same place, clipped to A. */
  predicate Alike(a: Shape, sa: seq<Select>, b: Shape, sb: seq<Select>, idx: Index) {
    && Selects(a, sa) && Selects(b, sb) && InBounds(SelectedShape(sb), idx)
    && ClipFits(SelectedShape(sa), idx) && ClipFits(a, Selected(b, sb, idx))
    && Selected(a, sa, Clipped(SelectedShape(sa), idx)) == Clipped(a, Selected(b, sb, idx))
  }

  lemma PickedAlike(a: Shape, sa: seq<Select>, b: Shape, sb: seq<Select>, item: Item, m: nat, n: nat, idx: Index)
    requires item.Int? && InRange(item, n) && m > 0 && (m == 1 || m == n) && Alike(a, sa, b, sb, idx)
    ensures Alike(a + [m], sa + [LeadSelect(item, m)], b + [n], sb + [SelectOne(item, n)], idx)
  {
    hide SelectedShape, Selected, Clipped, InBounds, Selects;
    var p := PlaceOf(item.i, n);
    PicksAlike(item.i, m, n);
    SelectedPickSnoc(b, n, sb, p, idx);
    SelectedPickSnoc(a, m, sa, item.i % m, Clipped(SelectedShape(sa), idx));
    ClippedSnoc(a, m, Selected(b, sb, idx), p);
  }

  lemma TakenAlike(a: Shape, sa: seq<Select>, b: Shape, sb: seq<Select>, item: Item, m: nat, n: nat, idx: Index, i: nat)
    requires !item.Int? && (m == 1 || m == n) && Kept(item, m, n) && i < |SelectOne(item, n).places|
             && Alike(a, sa, b, sb, idx)
    ensures Alike(a + [m], sa + [LeadSelect(item, m)], b + [n], sb + [SelectOne(item, n)], idx + [i])
  {
    hide SelectedShape, Selected, Clipped, InBounds, Selects, Places;
    var places, c := SelectOne(item, n).places, if m == 1 then 0 else i;
    TakeSelects(b, n, sb, places);
    SelectedIndexSnoc(b, n, sb, places, idx, i);
    SelectedSnoc(sa, Take(All(m)));
    ClippedSnoc(SelectedShape(sa), m, idx, i);
    TakeSelects(a, m, sa, All(m));
    SelectedIndexSnoc(a, m, sa, All(m), Clipped(SelectedShape(sa), idx), c);
    ClippedSnoc(a, m, Selected(b, sb, idx), places[i]);
  }

  /** Selecting on the leading axes of A commutes with clipping to them, where every axis is selected alike. */
  lemma {:induction false} LeadsAlike(items: seq<Item>, a: Shape, b: Shape, idx: Index)
    requires LeadsFit(items, a, b) && LeadsKept(items, a, b) && InBounds(SelectedShape(SelectAll(items, b)), idx)
    ensures Alike(a, LeadsSelection(items, a), b, SelectAll(items, b), idx)
    decreases |a|
  {
    hide SelectedShape, LeadsSelection, SelectAll, InBounds, Kept, InRange, Alike, SelectOne, LeadSelect;
    if a == [] {
      NoLeadsAlike(items, a, b, idx);
    } else {
      var d := |a| - 1;
      LeadsSnoc(items, a, b);
      KeptSnoc(items, a, b);
      var sa, sb := LeadsSelection(items[..d], a[..d]), SelectAll(items[..d], b[..d]);
      SelectedSnoc(sb, SelectOne(items[d], b[d]));
      SelectsOne(items[d], b[d]);
      assert a == a[..d] + [a[d]] && b == b[..d] + [b[d]];
      if items[d].Int? {
        assert SelectedShape(sb) + [] == SelectedShape(sb);
        LeadsAlike(items[..d], a[..d], b[..d], idx);
        PickedAlike(a[..d], sa, b[..d], sb, items[d], a[d], b[d], idx);
      } else {
        var n := |idx| - 1;
        SplitBounds(SelectedShape(sb), |SelectOne(items[d], b[d]).places|, idx);
        LeadsAlike(items[..d], a[..d], b[..d], idx[..n]);
        TakenAlike(a[..d], sa, b[..d], sb, items[d], a[d], b[d], idx[..n], idx[n]);
      }
    }
  }

  lemma SelectsOne(item: Item, n: nat)
    requires InRange(item, n)
    ensures if item.Int? then SelectOne(item, n).Pick? else SelectOne(item, n).Take?
  {
  }

  lemma SplitBounds(shape: Shape, n: nat, idx: Index)
    requires InBounds(shape + [n], idx)
    ensures idx != [] && InBounds(shape, idx[..|idx| - 1]) && idx[|idx| - 1] < n
            && idx == idx[..|idx| - 1] + [idx[|idx| - 1]]
  {
    assert forall d :: 0 <= d < |shape| ==> (shape + [n])[d] == shape[d];
    assert (shape + [n])[|shape|] == n;
  }

  lemma NoLeadsAlike(items: seq<Item>, a: Shape, b: Shape, idx: Index)
    requires LeadsFit(items, a, b) && a == [] && InBounds(SelectedShape(SelectAll(items, b)), idx)
    ensures Alike(a, LeadsSelection(items, a), b, SelectAll(items, b), idx)
  {
    NoLeads(items, a, b);
  }

  // ---------- The whole tuple

  predicate LastTwoCut(items: seq<Item>) {
    |items| >= 2 && !items[|items| - 1].Int? && !items[|items| - 2].Int?
  }

  /** The columns the last subscript takes. */
  function Columns(l: Lora, items: seq<Item>): (places: seq<nat>)
    requires TupleInRange(l, items) && !items[|items| - 1].Int?
  {
    SelectOne(items[|items| - 1], RowSize(l)).places
  }

  /** The rows the subscript before it takes. */
  function Rows(l: Lora, items: seq<Item>): (places: seq<nat>)
    requires TupleInRange(l, items) && !items[|items| - 2].Int?
  {
    SelectOne(items[|items| - 2], RowShape(l)[|items| - 2]).places
  }

  function LeadsOf(l: Lora, items: seq<Item>): (sel: seq<Select>)
    requires TupleInRange(l, items)
    ensures Selects(Leads(l.B), sel)
  {
    assert forall d :: 0 <= d < |items| - 2 ==>
      Leads(l.B)[d] == RowShape(l)[d] && Front(items)[d] == items[..|items| - 1][d];
    SelectAll(Front(items), Leads(l.B))
  }

  lemma SelectionParts(l: Lora, items: seq<Item>)
    requires TupleInRange(l, items) && LastTwoCut(items)
    ensures Selection(l, items) == LeadsOf(l, items) + [Take(Rows(l, items))] + [Take(Columns(l, items))]
    ensures SelectionB(l, items) == LeadsOf(l, items) + [Take(Rows(l, items))] + [Take(All(Rank(l)))]
  {
    hide Places, All;
    var n := |items| - 2;
    var x, y := SelectAll(items[..n + 1], RowShape(l)), LeadsOf(l, items) + [Take(Rows(l, items))];
    assert |x| == |y|;
    forall d | 0 <= d <= n ensures x[d] == y[d] {
      if d < n {
        assert Leads(l.B)[d] == RowShape(l)[d] && Front(items)[d] == items[..n + 1][d];
      }
    }
  }

  lemma ShapeOfParts(sel: seq<Select>, x: seq<nat>, y: seq<nat>)
    ensures SelectedShape(sel + [Take(x)] + [Take(y)]) == SelectedShape(sel) + [|x|] + [|y|]
  {
    SelectedSnoc(sel + [Take(x)], Take(y));
    SelectedSnoc(sel, Take(x));
  }

  /** The shapes of a tuple's result whose last two subscripts are slices. */
  lemma TupleShape(l: Lora, items: seq<Item>, m: Lora)
    requires |items| == |l.A.shape| && GetTuple(l, items) == Ok(m) && LastTwoCut(items)
    ensures TupleInRange(l, items) && LeadsCountable(Front(items), Leads(l.A))
    ensures Rank(m) == Rank(l) && LoraShape(m) == SelectedShape(Selection(l, items))
    ensures m == Lora(SelectFrom(l.A, SelectionA(l, items)), SelectFrom(l.B, SelectionB(l, items)))
    ensures m.A.shape == SelectedShape(LeadsSelection(Front(items), Leads(l.A))) + [Rank(l)] + [|Columns(l, items)|]
    ensures m.B.shape == SelectedShape(LeadsOf(l, items)) + [|Rows(l, items)|] + [Rank(l)]
    ensures |LeadsOf(l, items)| == |Leads(l.A)|
  {
    hide SelectedShape, SelectAll, LeadsSelection, SelectionB, Selection, SelectFrom, LeadsOf, Places;
    SelectionParts(l, items);
    ShapeOfParts(LeadsOf(l, items), Rows(l, items), Columns(l, items));
    ShapeOfParts(LeadsOf(l, items), Rows(l, items), All(Rank(l)));
    ShapeOfParts(LeadsSelection(Front(items), Leads(l.A)), All(Rank(l)), Columns(l, items));
  }

  /** The leading axes of the pair, as the lemmas on leading axes take them. */
  lemma TupleLeads(l: Lora, items: seq<Item>)
    requires TupleInRange(l, items) && LeadsCountable(Front(items), Leads(l.A)) && Broadcasts(l)
    ensures LeadsFit(Front(items), Leads(l.A), Leads(l.B)) && LeadsOf(l, items) == SelectAll(Front(items), Leads(l.B))
  {
    hide SelectAll, InRange;
    assert forall d :: 0 <= d < |items| - 2 ==>
      Leads(l.B)[d] == RowShape(l)[d] && Front(items)[d] == items[..|items| - 1][d];
  }

  /** The product has the shape that the result reports exactly when every leading axis was selected alike. */
  lemma TupleBroadcasts(l: Lora, items: seq<Item>, m: Lora)
    requires |items| == |l.A.shape| && Broadcasts(l) && GetTuple(l, items) == Ok(m) && LastTwoCut(items)
    ensures Broadcasts(m) <==> LeadsKept(Front(items), Leads(l.A), Leads(l.B))
  {
    hide SelectedShape, SelectAll, LeadsSelection, SelectionA, SelectionB, Selection, SelectFrom, LeadsKept, LeadsFit,
         LeadsOf, GetTuple;
    TupleShape(l, items, m);
    TupleLeads(l, items);
    KeptIffSpreads(Front(items), Leads(l.A), Leads(l.B));
    var x, y := SelectedShape(LeadsSelection(Front(items), Leads(l.A))), SelectedShape(LeadsOf(l, items));
    assert Leads(m.A) == x && Leads(m.B) == y;
  }

  lemma SplitTwo(shape: Shape, m: nat, n: nat, idx: Index) returns (lead: Index, i: nat, j: nat)
    requires InBounds(shape + [m] + [n], idx)
    ensures idx == lead + [i] + [j] && InBounds(shape, lead) && i < m && j < n
  {
    hide InBounds;
    SplitBounds(shape + [m], n, idx);
    var front := idx[..|idx| - 1];
    SplitBounds(shape, m, front);
    lead, i, j := front[..|front| - 1], front[|front| - 1], idx[|idx| - 1];
  }

  lemma ShapeParts(l: Lora)
    ensures LoraShape(l) == Leads(l.B) + [RowShape(l)[|l.B.shape| - 2]] + [RowSize(l)]
    ensures l.B.shape == Leads(l.B) + [RowShape(l)[|l.B.shape| - 2]] + [Rank(l)]
    ensures l.A.shape == Leads(l.A) + [Rank(l)] + [RowSize(l)]
  {
  }

  /** The index of the weight that an index of the result stands for. */
  lemma TupleIndex(l: Lora, items: seq<Item>, lead: Index, i: nat, j: nat)
    requires TupleInRange(l, items) && LastTwoCut(items) && InBounds(SelectedShape(LeadsOf(l, items)), lead)
    requires i < |Rows(l, items)| && j < |Columns(l, items)|
    ensures InBounds(SelectedShape(Selection(l, items)), lead + [i] + [j])
    ensures Selected(LoraShape(l), Selection(l, items), lead + [i] + [j])
            == Selected(Leads(l.B), LeadsOf(l, items), lead) + [Rows(l, items)[i]] + [Columns(l, items)[j]]
  {
    hide SelectAll, SelectedShape, Selected, Selection, LeadsOf, Rows, Columns, InBounds, LoraShape;
    SelectionParts(l, items);
    PlacesFit(l, items);
    ShapeParts(l);
    SelectedTwo(Leads(l.B), RowShape(l)[|items| - 2], RowSize(l),
                LeadsOf(l, items), Rows(l, items), Columns(l, items), lead, i, j);
  }

  lemma TupleIndexB(l: Lora, items: seq<Item>, lead: Index, i: nat, k: nat)
    requires TupleInRange(l, items) && LastTwoCut(items) && InBounds(SelectedShape(LeadsOf(l, items)), lead)
    requires i < |Rows(l, items)| && k < Rank(l)
    ensures InBounds(SelectedShape(SelectionB(l, items)), lead + [i] + [k])
    ensures Selected(l.B.shape, SelectionB(l, items), lead + [i] + [k])
            == Selected(Leads(l.B), LeadsOf(l, items), lead) + [Rows(l, items)[i]] + [k]
  {
    hide SelectAll, SelectedShape, Selected, SelectionB, LeadsOf, Rows, Columns, InBounds, LoraShape;
    SelectionParts(l, items);
    PlacesFit(l, items);
    ShapeParts(l);
    SelectedTwo(Leads(l.B), RowShape(l)[|items| - 2], Rank(l),
                LeadsOf(l, items), Rows(l, items), All(Rank(l)), lead, i, k);
  }

  lemma TupleIndexA(l: Lora, items: seq<Item>, lead: Index, j: nat, k: nat)
    requires TupleInRange(l, items) && LastTwoCut(items) && LeadsCountable(Front(items), Leads(l.A))
    requires InBounds(SelectedShape(LeadsSelection(Front(items), Leads(l.A))), lead) && j < |Columns(l, items)|
             && k < Rank(l)
    ensures InBounds(SelectedShape(SelectionA(l, items)), lead + [k] + [j])
    ensures Selected(l.A.shape, SelectionA(l, items), lead + [k] + [j])
            == Selected(Leads(l.A), LeadsSelection(Front(items), Leads(l.A)), lead) + [k] + [Columns(l, items)[j]]
  {
    hide SelectedShape, Selected, LeadsSelection, InBounds, LoraShape, Places;
    PlacesFit(l, items);
    ShapeParts(l);
    SelectedTwo(Leads(l.A), Rank(l), RowSize(l),
                LeadsSelection(Front(items), Leads(l.A)), All(Rank(l)), Columns(l, items), lead, k, j);
  }

  lemma IndexParts(l: Lora, lead: Index, i: nat, j: nat, k: nat)
    requires Broadcasts(l) && InBounds(LoraShape(l), lead + [i] + [j]) && k < Rank(l) && ClipFits(Leads(l.A), lead)
    ensures IndexB(l, lead + [i] + [j], k) == lead + [i] + [k]
    ensures IndexA(l, lead + [i] + [j], k) == Clipped(Leads(l.A), lead) + [k] + [j]
  {
    hide Clipped, InBounds;
    var idx := lead + [i] + [j];
    assert idx[..|idx| - 2] == lead && idx[..|idx| - 1] == lead + [i];
  }

  /** One term of the selected product is a term of the product. */
  lemma TupleTerm(l: Lora, items: seq<Item>, m: Lora, lead: Index, i: nat, j: nat, k: nat)
    requires |items| == |l.A.shape| && Broadcasts(l) && Broadcasts(m) && GetTuple(l, items) == Ok(m)
             && LastTwoCut(items)
    requires TupleInRange(l, items) && LeadsCountable(Front(items), Leads(l.A))
             && InBounds(SelectedShape(LeadsOf(l, items)), lead)
    requires Leads(m.A) == SelectedShape(LeadsSelection(Front(items), Leads(l.A)))
    requires m == Lora(SelectFrom(l.A, SelectionA(l, items)), SelectFrom(l.B, SelectionB(l, items)))
    requires i < |Rows(l, items)| && j < |Columns(l, items)| && k < Rank(m) == Rank(l)
    requires InBounds(LoraShape(m), lead + [i] + [j])
    requires Alike(Leads(l.A), LeadsSelection(Front(items), Leads(l.A)), Leads(l.B), LeadsOf(l, items), lead)
    ensures var jdx := Selected(Leads(l.B), LeadsOf(l, items), lead) + [Rows(l, items)[i]] + [Columns(l, items)[j]];
            InBounds(LoraShape(l), jdx) && Term(m, lead + [i] + [j], k) == Term(l, jdx, k)
  {
    hide SelectAll, SelectedShape, Selected, SelectionA, SelectionB, Selection, LeadsSelection, LeadsOf, Rows, Columns,
         InBounds;
    hide LoraShape, SelectFrom, At, IndexA, IndexB, Clipped, Broadcasts, LeadsCountable, InRange, Selects;
    var sa, sb := LeadsSelection(Front(items), Leads(l.A)), LeadsOf(l, items);
    var jlead := Selected(Leads(l.B), sb, lead);
    TupleIndex(l, items, lead, i, j);
    IndexParts(m, lead, i, j, k);
    IndexParts(l, jlead, Rows(l, items)[i], Columns(l, items)[j], k);
    TupleIndexB(l, items, lead, i, k);
    TupleIndexA(l, items, Clipped(SelectedShape(sa), lead), j, k);
    SelectAt(l.A, SelectionA(l, items), IndexA(m, lead + [i] + [j], k));
    SelectAt(l.B, SelectionB(l, items), IndexB(m, lead + [i] + [j], k));
  }

  /** Indexing the pair with a tuple whose last two subscripts are slices indexes the weight it stands for exactly
      when every leading axis is selected alike from both factors; otherwise the factors have no product of the shape
      that the result reports. */
  lemma TupleCommutes(l: Lora, items: seq<Item>, m: Lora)
    requires |items| == |l.A.shape| && Broadcasts(l) && GetTuple(l, items) == Ok(m) && LastTwoCut(items)
    ensures TupleInRange(l, items)
    ensures Broadcasts(m) <==> LeadsKept(Front(items), Leads(l.A), Leads(l.B))
    ensures Broadcasts(m) ==> Merged(m) == SelectFrom(Merged(l), Selection(l, items))
  {
    hide Merged, SelectFrom, Selection, SelectedShape, GetTuple, LeadsKept;
    TupleShape(l, items, m);
    TupleBroadcasts(l, items, m);
    if Broadcasts(m) {
      var t := SelectFrom(Merged(l), Selection(l, items));
      forall idx | InBounds(LoraShape(m), idx) ensures At(Merged(m), idx) == At(t, idx) {
        TupleElement(l, items, m, idx);
      }
      TensorEqual(Merged(m), t);
    }
  }

  lemma TupleElement(l: Lora, items: seq<Item>, m: Lora, idx: Index)
    requires |items| == |l.A.shape| && Broadcasts(l) && Broadcasts(m) && GetTuple(l, items) == Ok(m)
             && LastTwoCut(items)
    requires TupleInRange(l, items) && InBounds(LoraShape(m), idx) && LoraShape(m) == SelectedShape(Selection(l, items))
    requires LeadsKept(Front(items), Leads(l.A), Leads(l.B))
    ensures At(Merged(m), idx) == At(SelectFrom(Merged(l), Selection(l, items)), idx)
  {
    hide Merged, SelectFrom, Selection, SelectedShape, GetTuple, LeadsKept, Term, LeadsOf, Rows, Columns, InBounds, At,
         Selected;
    hide SelectAll, LeadsSelection, SelectionA, SelectionB, Alike, LeadsCountable, LeadsFit, Terms, InRange;
    TupleShape(l, items, m);
    TupleLeads(l, items);
    assert LoraShape(m) == SelectedShape(LeadsOf(l, items)) + [|Rows(l, items)|] + [|Columns(l, items)|];
    var lead, i, j := SplitTwo(SelectedShape(LeadsOf(l, items)), |Rows(l, items)|, |Columns(l, items)|, idx);
    LeadsAlike(Front(items), Leads(l.A), Leads(l.B), lead);
    TupleIndex(l, items, lead, i, j);
    var jdx := Selected(LoraShape(l), Selection(l, items), idx);
    MergedAt(m, idx);
    SelectAt(Merged(l), Selection(l, items), idx);
    MergedAt(l, jdx);
    forall k | 0 <= k < Rank(m) ensures k < Rank(l) && Term(m, idx, k) == Term(l, jdx, k) {
      TupleTerm(l, items, m, lead, i, j, k);
    }
    TermsEqual(m, idx, l, jdx, Rank(m));
  }

  lemma PlacesFit(l: Lora, items: seq<Item>)
    requires TupleInRange(l, items) && LastTwoCut(items)
    ensures forall p :: 0 <= p < |Rows(l, items)| ==> Rows(l, items)[p] < RowShape(l)[|items| - 2]
    ensures forall p :: 0 <= p < |Columns(l, items)| ==> Columns(l, items)[p] < RowSize(l)
  {
  }

  lemma SelectedTwo(shape: Shape, m: nat, n: nat, sel: seq<Select>, x: seq<nat>, y: seq<nat>, idx: Index, i: nat,
                    j: nat)
    requires Selects(shape, sel) && InBounds(SelectedShape(sel), idx) && i < |x| && j < |y|
    requires (forall p :: 0 <= p < |x| ==> x[p] < m) && (forall p :: 0 <= p < |y| ==> y[p] < n)
    ensures Selects(shape + [m] + [n], sel + [Take(x)] + [Take(y)])
    ensures InBounds(SelectedShape(sel + [Take(x)] + [Take(y)]), idx + [i] + [j])
    ensures Selected(shape + [m] + [n], sel + [Take(x)] + [Take(y)], idx + [i] + [j])
            == Selected(shape, sel, idx) + [x[i]] + [y[j]]
  {
    hide Selects, SelectedShape, Selected, InBounds;
    TakeSelects(shape, m, sel, x);
    TakeSelects(shape + [m], n, sel + [Take(x)], y);
    SelectedIndexSnoc(shape, m, sel, x, idx, i);
    SelectedIndexSnoc(shape + [m], n, sel + [Take(x)], y, idx + [i], j);
  }

  // ---------- Integers among the last two subscripts

  /** What a subscript leaves of its axis in the shape. */
  function Left(s: Select): (shape: Shape) {
    if s.Pick? then [] else [|s.places|]
  }

  lemma ShapeOfTwo(sel: seq<Select>, x: Select, y: Select)
    ensures SelectedShape(sel + [x] + [y]) == SelectedShape(sel) + Left(x) + Left(y)
  {
    SelectedSnoc(sel + [x], y);
    SelectedSnoc(sel, x);
  }

  lemma AnySelectionParts(l: Lora, items: seq<Item>)
    requires TupleInRange(l, items)
    ensures var row := SelectOne(items[|items| - 2], RowShape(l)[|items| - 2]);
            var column := SelectOne(items[|items| - 1], RowSize(l));
            && Selection(l, items) == LeadsOf(l, items) + [row] + [column]
            && SelectionB(l, items) == LeadsOf(l, items) + [row] + [Take(All(Rank(l)))]
  {
    hide Places, All, SelectOne;
    var n := |items| - 2;
    var x, y := SelectAll(items[..n + 1], RowShape(l)), LeadsOf(l, items) + [SelectOne(items[n], RowShape(l)[n])];
    assert |x| == |y|;
    forall d | 0 <= d <= n ensures x[d] == y[d] {
      if d < n {
        assert Leads(l.B)[d] == RowShape(l)[d] && Front(items)[d] == items[..n + 1][d];
      }
    }
  }

  /** A tuple with an integer among its last two subscripts is refused, but for one case: both are integers and the
      last leading axis that A keeps happens to be as long as the rank. The result then has an axis too many. */
  lemma IntegersRefused(l: Lora, items: seq<Item>)
    requires Broadcasts(l) && TupleInRange(l, items) && LeadsCountable(Front(items), Leads(l.A)) && !LastTwoCut(items)
    ensures var kept := SelectedShape(LeadsSelection(Front(items), Leads(l.A)));
            GetTuple(l, items).Ok? <==>
              items[|items| - 1].Int? && items[|items| - 2].Int? && kept != [] && kept[|kept| - 1] == Rank(l)
    ensures GetTuple(l, items).Ok?
            ==> LoraShape(GetTuple(l, items).value) == SelectedShape(Selection(l, items)) + [Rank(l)]
  {
    hide SelectedShape, LeadsSelection, SelectAll, SelectionB, Selection, LeadsOf, SelectFrom, Places, LeadsKept,
         LeadsFit;
    var row := SelectOne(items[|items| - 2], RowShape(l)[|items| - 2]);
    var column := SelectOne(items[|items| - 1], RowSize(l));
    AnyShapes(l, items);
    SelectsOne(items[|items| - 2], RowShape(l)[|items| - 2]);
    SelectsOne(items[|items| - 1], RowSize(l));
    LastDims(SelectedShape(LeadsSelection(Front(items), Leads(l.A))), SelectedShape(LeadsOf(l, items)), Rank(l),
             row, column);
  }

  /** The shapes of the factors that a tuple selects, and of the selection of the weight. */
  lemma AnyShapes(l: Lora, items: seq<Item>)
    requires Broadcasts(l) && TupleInRange(l, items) && LeadsCountable(Front(items), Leads(l.A))
    ensures var row := SelectOne(items[|items| - 2], RowShape(l)[|items| - 2]);
            var column := SelectOne(items[|items| - 1], RowSize(l));
            var kept := SelectedShape(LeadsSelection(Front(items), Leads(l.A)));
            var leads := SelectedShape(LeadsOf(l, items));
            && |kept| == |leads|
            && SelectedShape(SelectionA(l, items)) == kept + [Rank(l)] + Left(column)
            && SelectedShape(SelectionB(l, items)) == leads + Left(row) + [Rank(l)]
            && SelectedShape(Selection(l, items)) == leads + Left(row) + Left(column)
  {
    hide SelectedShape, LeadsSelection, SelectAll, SelectionB, Selection, LeadsOf, LeadsKept, LeadsFit, SelectOne;
    var row := SelectOne(items[|items| - 2], RowShape(l)[|items| - 2]);
    var column := SelectOne(items[|items| - 1], RowSize(l));
    var whole := Take(All(Rank(l)));
    AnySelectionParts(l, items);
    ShapeOfTwo(LeadsOf(l, items), row, whole);
    ShapeOfTwo(LeadsOf(l, items), row, column);
    ShapeOfTwo(LeadsSelection(Front(items), Leads(l.A)), whole, column);
    TupleLeads(l, items);
    KeptIffSpreads(Front(items), Leads(l.A), Leads(l.B));
  }

  /** When the shapes of two factors with an integer among the last subscripts still fit each other. */
  lemma LastDims(kept: Shape, leads: Shape, rank: nat, row: Select, column: Select)
    requires |kept| == |leads| && (row.Pick? || column.Pick?)
    ensures var a, b := kept + [rank] + Left(column), leads + Left(row) + [rank];
            |a| == |b| >= 2 && a[|a| - 2] == b[|b| - 1]
            <==> row.Pick? && column.Pick? && kept != [] && kept[|kept| - 1] == rank
    ensures row.Pick? && column.Pick? ==>
              leads + Left(row) + [rank] == leads + Left(row) + Left(column) + [rank]
              && (kept + [rank] + Left(column))[..|kept|] == kept
  {
    if row.Pick? && column.Pick? {
      assert leads + Left(row) + Left(column) == leads;
      assert kept + [rank] + Left(column) == kept + [rank];
    }
  }

  // ---------- Subscripts with an ellipsis

  function Fulls(n: nat): (items: seq<Item>)
    ensures |items| == n && forall i :: 0 <= i < n ==> items[i] == Cut(FULL)
  {
    seq(n, _ => Cut(FULL))
  }

  /** An ellipsis becomes `width` full slices. */
  function Expand(items: seq<Item>, width: nat): (r: seq<Item>) {
    if items == [] then []
    else (if items[0].Ellipsis? then Fulls(width) else [items[0]]) + Expand(items[1..], width)
  }

  /** The subscripts of a tuple, one an axis when there are not too many: a last ellipsis is dropped,
      any other becomes as many full slices as there are other subscripts, and full slices fill up. */
  function AxisItems(items: seq<Item>, n: nat): (r: seq<Item>) {
    if items != [] && items[|items| - 1].Ellipsis? then AxisItems(items[..|items| - 1], n)
    else
      var e := Expand(items, if items == [] then 0 else |items| - 1);
      e + Fulls(if |e| < n then n - |e| else 0)
  }

  /** Indexing with a tuple. A last ellipsis is dropped and the rest tried again, and no tuple may be empty. */
  function GetItems(l: Lora, items: seq<Item>): (r: Result)
    decreases |items|
  {
    if items == [] then Rejected
    else if items[|items| - 1].Ellipsis? then GetItems(l, items[..|items| - 1])
    else
      var n, e := |l.A.shape|, Expand(items, |items| - 1);
      var filled := e + Fulls(if |e| < n then n - |e| else 0);
      if |filled| != n then Rejected else GetTuple(l, filled)
  }

  predicate OnlyEllipses(items: seq<Item>) {
    forall i :: 0 <= i < |items| ==> items[i].Ellipsis?
  }

  /** What the code makes of any tuple: refused when there is nothing but ellipses or a subscript too many, and
      otherwise one subscript an axis. */
  lemma {:induction false} ItemsAreTuple(l: Lora, items: seq<Item>)
    ensures var e := AxisItems(items, |l.A.shape|);
            GetItems(l, items) == if OnlyEllipses(items) || |e| != |l.A.shape| then Rejected else GetTuple(l, e)
    decreases |items|
  {
    hide GetTuple, Expand;
    if items != [] {
      var n := |items| - 1;
      if items[n].Ellipsis? {
        ItemsAreTuple(l, items[..n]);
      }
      assert items == items[..n] + [items[n]];
    }
  }

  /** Indexing the pair with any tuple it accepts and whose last two axes get slices: the product has the shape that the
      result reports exactly when every leading axis is selected alike, and then it is that selection of the weight. */
  lemma ItemsCommute(l: Lora, items: seq<Item>, m: Lora)
    requires Broadcasts(l) && GetItems(l, items) == Ok(m) && LastTwoCut(AxisItems(items, |l.A.shape|))
    ensures TupleInRange(l, AxisItems(items, |l.A.shape|))
    ensures var e := AxisItems(items, |l.A.shape|);
            && (Broadcasts(m) <==> LeadsKept(Front(e), Leads(l.A), Leads(l.B)))
            && (Broadcasts(m) ==> Merged(m) == SelectFrom(Merged(l), Selection(l, e)))
  {
    hide Merged, SelectFrom, Selection, GetTuple, AxisItems, LastTwoCut, LeadsKept;
    ItemsAreTuple(l, items);
    TupleCommutes(l, AxisItems(items, |l.A.shape|), m);
  }

  predicate NoEllipsis(items: seq<Item>) {
    forall i :: 0 <= i < |items| ==> !items[i].Ellipsis?
  }

  lemma {:induction false} ExpandNone(items: seq<Item>, width: nat)
    requires NoEllipsis(items)
    ensures Expand(items, width) == items
  {
    if items != [] {
      ExpandNone(items[1..], width);
    }
  }

  lemma {:induction false} ExpandAppend(a: seq<Item>, b: seq<Item>, width: nat)
    ensures Expand(a + b, width) == Expand(a, width) + Expand(b, width)
  {
    if a == [] {
      assert a + b == b;
    } else {
      assert (a + b)[0] == a[0] && (a + b)[1..] == a[1..] + b;
      ExpandAppend(a[1..], b, width);
    }
  }

  /** What an ellipsis between other subscripts means: as many full slices as there are axes left. */
  function Meant(before: seq<Item>, after: seq<Item>, n: nat): (all: seq<Item>)
    requires |before| + |after| <= n
  {
    before + Fulls(n - |before| - |after|) + after
  }

  /** What the code makes of an ellipsis between other subscripts. */
  lemma ReadEllipsis(before: seq<Item>, after: seq<Item>, n: nat)
    requires NoEllipsis(before) && NoEllipsis(after) && after != []
    ensures var k := |before| + |after|;
            AxisItems(before + [Ellipsis] + after, n)
            == before + Fulls(k) + after + Fulls(if 2 * k < n then n - 2 * k else 0)
  {
    var k := |before| + |after|;
    var items := before + [Ellipsis] + after;
    assert !items[|items| - 1].Ellipsis? by { assert items[|items| - 1] == after[|after| - 1]; }
    ExpandAround(before, after, k);
    hide Expand, NoEllipsis, Fulls;
  }

  /** A trailing ellipsis stands for the axes that are left, as it is meant to. */
  lemma TrailingEllipsis(before: seq<Item>, n: nat)
    requires NoEllipsis(before) && |before| <= n
    ensures AxisItems(before + [Ellipsis], n) == Meant(before, [], n)
  {
    assert (before + [Ellipsis])[..|before|] == before;
    ExpandNone(before, if before == [] then 0 else |before| - 1);
  }

  lemma PlainItems(l: Lora, items: seq<Item>)
    requires items != [] && NoEllipsis(items) && |items| == |l.A.shape|
    ensures GetItems(l, items) == GetTuple(l, items)
  {
    hide GetTuple;
    ExpandNone(items, |items| - 1);
    assert items + Fulls(0) == items;
  }

  lemma ExpandAround(before: seq<Item>, after: seq<Item>, width: nat)
    requires NoEllipsis(before) && NoEllipsis(after)
    ensures Expand(before + [Ellipsis] + after, width) == before + Fulls(width) + after
  {
    ExpandAppend(before + [Ellipsis], after, width);
    ExpandAppend(before, [Ellipsis], width);
    ExpandNone(before, width);
    ExpandNone(after, width);
    assert Expand([Ellipsis], width) == Fulls(width) + Expand([], width);
    hide Expand, NoEllipsis, Fulls;
    assert Fulls(width) + [] == Fulls(width);
  }

  /** With more subscripts beside the ellipsis than half the axes the tuple is refused. */
  lemma EllipsisRefused(l: Lora, before: seq<Item>, after: seq<Item>)
    requires NoEllipsis(before) && NoEllipsis(after) && after != [] && 2 * (|before| + |after|) > |l.A.shape|
    ensures GetItems(l, before + [Ellipsis] + after) == Rejected
  {
    hide AxisItems, GetTuple, GetItems, Fulls, OnlyEllipses, NoEllipsis;
    var items, k := before + [Ellipsis] + after, |before| + |after|;
    ReadEllipsis(before, after, |l.A.shape|);
    ItemsAreTuple(l, items);
    assert |AxisItems(items, |l.A.shape|)| >= 2 * k;
  }

  /** A slice that takes every axis whole, however long it is. */
  predicate AlwaysWhole(item: Item) {
    item.Cut? && (item.s.start == Open || item.s.start == Limit(0)) && item.s.stop == Open && item.s.step == 1
  }

  lemma WholeIsAll(item: Item, n: nat)
    requires AlwaysWhole(item)
    ensures SelectOne(item, n) == Take(All(n))
  {
    StepsAll(0, n);
  }

  lemma {:induction false} StepsAll(start: nat, stop: nat)
    requires start <= stop
    ensures |Steps(start, stop, 1)| == stop - start
    ensures forall p :: 0 <= p < stop - start ==> Steps(start, stop, 1)[p] == start + p
    decreases stop - start
  {
    if start < stop {
      StepsAll(start + 1, stop);
    }
  }

  function Size(b: Bound): (n: nat) {
    if b.Open? then 0 else if b.i < 0 then -b.i else b.i
  }

  /** A length from which on an axis shows whether a subscript takes it whole. */
  function Reach(item: Item): (n: nat) {
    match item
    case Int(i) => 1 + (if i < 0 then -i else i)
    case Cut(s) => 2 + Size(s.start) + Size(s.stop)
    case Ellipsis => 0
  }

  lemma FarEnough(item: Item, n: nat)
    requires !item.Ellipsis? && n >= Reach(item)
    ensures InRange(item, n)
    ensures SelectOne(item, n) == Take(All(n)) <==> AlwaysWhole(item)
  {
    if AlwaysWhole(item) {
      WholeIsAll(item, n);
    } else if item.Cut? && SelectOne(item, n) == Take(All(n)) {
      var s := item.s;
      StartsAt(Clamp(s.start, 0, n), Clamp(s.stop, n, n), s.step);
      assert Places(s, n)[0] == All(n)[0] == 0 && Places(s, n)[1] == All(n)[1] == 1;
      StepsLess(Clamp(s.start, 0, n), Clamp(s.stop, n, n), s.step);
      assert false;
    }
  }

  lemma StartsAt(start: nat, stop: nat, step: Step)
    ensures start < stop ==> Steps(start, stop, step) != [] && Steps(start, stop, step)[0] == start
    ensures |Steps(start, stop, step)| > 1 ==> Steps(start, stop, step)[1] == start + step
  {
  }

  function ReachAll(items: seq<Item>): (n: nat)
    ensures forall i :: 0 <= i < |items| ==> Reach(items[i]) <= n
  {
    if items == [] then 0 else
    var n := ReachAll(items[1..]);
    assert forall i :: 1 <= i < |items| ==> items[i] == items[1..][i - 1];
    if Reach(items[0]) > n then Reach(items[0]) else n
  }

  /** Whether two lists of subscripts select the same from every weight that both fit. */
  ghost predicate SameEverywhere(x: seq<Item>, y: seq<Item>, n: nat) {
    forall shape: Shape :: |shape| == n && AllInRange(x, shape) && AllInRange(y, shape)
      ==> SelectAll(x, shape) == SelectAll(y, shape)
  }

  function Square(n: nat, size: nat): (shape: Shape)
    ensures |shape| == n && forall d :: 0 <= d < n ==> shape[d] == size
  {
    seq(n, _ => size)
  }

  lemma SameAt(x: seq<Item>, y: seq<Item>, n: nat, size: nat, d: nat)
    requires SameEverywhere(x, y, n) && |x| == |y| == n && d < n
    requires forall i :: 0 <= i < n ==> InRange(x[i], size) && InRange(y[i], size)
    ensures SelectOne(x[d], size) == SelectOne(y[d], size)
  {
    hide SelectOne, InRange;
    var shape := Square(n, size);
    assert SelectAll(x, shape)[d] == SelectAll(y, shape)[d];
  }

  /** Behind a common front, subscripts select the same before and after some full slices only if all are whole. */
  lemma {:induction false} ShiftedIsWhole(front: seq<Item>, after: seq<Item>, d: nat, n: nat, q: nat)
    requires d > 0 && n == |front| + |after| + d && q < |after| && NoEllipsis(front) && NoEllipsis(after)
    requires SameEverywhere(front + after + Fulls(d), front + Fulls(d) + after, n)
    ensures AlwaysWhole(after[q])
    decreases q
  {
    hide AlwaysWhole, SelectOne, InRange, SameEverywhere, Reach;
    var x, y := front + after + Fulls(d), front + Fulls(d) + after;
    var size := ReachAll(front) + ReachAll(after) + Reach(Cut(FULL));
    FitAll(front, after, d, size);
    SameAt(x, y, n, size, |front| + q);
    FarEnough(after[q], size);
    if q < d {
      FarEnough(Cut(FULL), size);
      FullIsWhole();
    } else {
      ShiftedIsWhole(front, after, d, n, q - d);
      FarEnough(after[q - d], size);
    }
  }

  lemma FullIsWhole()
    ensures AlwaysWhole(Cut(FULL))
  {
  }

  lemma FitAll(front: seq<Item>, after: seq<Item>, d: nat, size: nat)
    requires NoEllipsis(front) && NoEllipsis(after) && size == ReachAll(front) + ReachAll(after) + Reach(Cut(FULL))
    ensures var x, y := front + after + Fulls(d), front + Fulls(d) + after;
            forall i :: 0 <= i < |front| + |after| + d ==> InRange(x[i], size) && InRange(y[i], size)
  {
    hide SelectOne, InRange, Reach;
    var x, y := front + after + Fulls(d), front + Fulls(d) + after;
    forall i | 0 <= i < |x| ensures InRange(x[i], size) && InRange(y[i], size) {
      FarEnough(x[i], size);
      FarEnough(y[i], size);
    }
  }

  /** The code reads an ellipsis as it is meant, for every weight that the subscripts fit, exactly when it stands for as
      many axes as there are other subscripts, or when everything after it takes its axis whole. */
  lemma EllipsisAsMeant(before: seq<Item>, after: seq<Item>, n: nat)
    requires NoEllipsis(before) && NoEllipsis(after) && after != [] && 2 * (|before| + |after|) <= n
    ensures SameEverywhere(AxisItems(before + [Ellipsis] + after, n), Meant(before, after, n), n)
            <==> n == 2 * (|before| + |after|) || forall i :: 0 <= i < |after| ==> AlwaysWhole(after[i])
  {
    hide AxisItems, SameEverywhere, AlwaysWhole;
    var k := |before| + |after|;
    ReadEllipsis(before, after, n);
    var d, front := n - 2 * k, before + Fulls(k);
    var x, y := front + after + Fulls(d), front + Fulls(d) + after;
    assert Fulls(n - k) == Fulls(k) + Fulls(d);
    assert Meant(before, after, n) == y;
    if n == 2 * k {
      assert x == y;
      SameAsItself(x, n);
    } else if forall i :: 0 <= i < |after| ==> AlwaysWhole(after[i]) {
      WholeAnywhere(front, after, d, n);
    } else if SameEverywhere(x, y, n) {
      forall i | 0 <= i < |after| ensures AlwaysWhole(after[i]) {
        ShiftedIsWhole(front, after, d, n, i);
      }
    }
  }

  lemma SameAsItself(x: seq<Item>, n: nat)
    ensures SameEverywhere(x, x, n)
  {
  }

  lemma WholeAnywhere(front: seq<Item>, after: seq<Item>, d: nat, n: nat)
    requires forall i :: 0 <= i < |after| ==> AlwaysWhole(after[i])
    ensures SameEverywhere(front + after + Fulls(d), front + Fulls(d) + after, n)
  {
    hide AlwaysWhole, SelectOne, InRange;
    FullIsWhole();
    var x, y := front + after + Fulls(d), front + Fulls(d) + after;
    forall shape: Shape | |shape| == n && AllInRange(x, shape) && AllInRange(y, shape)
      ensures SelectAll(x, shape) == SelectAll(y, shape)
    {
      forall i | 0 <= i < n ensures SelectOne(x[i], shape[i]) == SelectOne(y[i], shape[i]) {
        if i >= |front| {
          WholeIsAll(x[i], shape[i]);
          WholeIsAll(y[i], shape[i]);
        }
      }
    }
  }

  /** A slice after an ellipsis, on three axes, cuts the middle axis and not the last. */
  lemma MiddleIsCut(l: Lora, s: Slice)
    requires |l.A.shape| == 3
    ensures GetItems(l, [Ellipsis, Cut(s)]) == GetTuple(l, [Cut(FULL), Cut(s), Cut(FULL)])
    ensures Meant([], [Cut(s)], 3) == [Cut(FULL), Cut(FULL), Cut(s)]
  {
    hide GetTuple, AxisItems;
    ItemsAreTuple(l, [Ellipsis, Cut(s)]);
    ReadEllipsis([], [Cut(s)], 3);
    assert [] + [Ellipsis] + [Cut(s)] == [Ellipsis, Cut(s)];
    assert [] + Fulls(1) + [Cut(s)] + Fulls(1) == [Cut(FULL), Cut(s), Cut(FULL)];
    assert [] + Fulls(2) + [Cut(s)] == [Cut(FULL), Cut(FULL), Cut(s)];
  }

  lemma ProdThree(a: nat, b: nat, c: nat)
    ensures Prod([a, b, c]) == a * b * c
  {
    assert [a, b, c][..2] == [a, b] && [a, b][..1] == [a] && [a][..0] == [];
    assert Prod([a]) == a && Prod([a, b]) == a * b;
  }

  /** A pair that stands for two rows of two, (3, 6) and (4, 8). */
  function SmallPair(): (l: Lora)
    ensures l.A.shape == [1, 1, 2] && l.B.shape == [1, 2, 1]
  {
    ProdThree(1, 1, 2);
    ProdThree(1, 2, 1);
    Lora(Tensor([1, 1, 2], [1.0, 2.0]), Tensor([1, 2, 1], [3.0, 4.0]))
  }

  /** Asked for the first of the last axis, the code gives the first row and both columns. */
  lemma LastAxisNotCut()
    ensures var l, first := SmallPair(), Slice(Open, Limit(1), 1);
            && GetItems(l, [Ellipsis, Cut(first)]).Ok?
            && LoraShape(GetItems(l, [Ellipsis, Cut(first)]).value) == [1, 1, 2]
            && LoraShape(l) == [1, 2, 2]
            && AllInRange(Meant([], [Cut(first)], 3), LoraShape(l))
            && SelectedShape(SelectAll(Meant([], [Cut(first)], 3), LoraShape(l))) == [1, 2, 1]
  {
    hide SmallPair, GetTuple, SelectAll, SelectedShape, Prod, AxisItems, GetItems;
    var l, first := SmallPair(), Slice(Open, Limit(1), 1);
    var read, meant := [Cut(FULL), Cut(first), Cut(FULL)], [Cut(FULL), Cut(FULL), Cut(first)];
    MiddleIsCut(l, first);
    ThreeAxes(l, FULL, first, FULL);
    StepsAll(0, 1);
    StepsAll(0, 2);
    ShapeOfAll(meant, [1, 2, 2]);
  }

  lemma ShapeOfAll(items: seq<Item>, shape: Shape)
    requires |items| == |shape| == 3 && items[0].Cut? && items[1].Cut? && items[2].Cut?
    ensures SelectedShape(SelectAll(items, shape))
            == [|Places(items[0].s, shape[0])|, |Places(items[1].s, shape[1])|, |Places(items[2].s, shape[2])|]
  {
    hide SelectedShape, Places;
    var sel := SelectAll(items, shape);
    assert sel == [] + [sel[0]] + [sel[1]] + [sel[2]];
    SelectedSnoc([] + [sel[0]] + [sel[1]], sel[2]);
    SelectedSnoc([] + [sel[0]], sel[1]);
    SelectedSnoc([], sel[0]);
    assert SelectedShape([]) == [] by { NothingSelected(); }
  }

  lemma NothingSelected()
    ensures SelectedShape([]) == []
  {
  }

  /** Three slices on three axes are always accepted, and cut the three axes of the weight. */
  lemma ThreeAxes(l: Lora, x: Slice, y: Slice, z: Slice)
    requires |l.A.shape| == 3
    ensures GetTuple(l, [Cut(x), Cut(y), Cut(z)]).Ok?
    ensures LoraShape(GetTuple(l, [Cut(x), Cut(y), Cut(z)]).value)
            == [|Places(x, LoraShape(l)[0])|, |Places(y, LoraShape(l)[1])|, |Places(z, LoraShape(l)[2])|]
  {
    hide SelectedShape, Places, SelectAll, LeadsOf, LeadsSelection, SelectFrom;
    var items := [Cut(x), Cut(y), Cut(z)];
    SelectionParts(l, items);
    ShapeOfParts(LeadsSelection(Front(items), Leads(l.A)), All(Rank(l)), Columns(l, items));
    ShapeOfParts(LeadsOf(l, items), Rows(l, items), All(Rank(l)));
    OneLead(l, items, x);
  }

  lemma OneLead(l: Lora, items: seq<Item>, x: Slice)
    requires |l.A.shape| == 3 == |items| && items[0] == Cut(x) && TupleInRange(l, items)
    ensures LeadsCountable(Front(items), Leads(l.A))
    ensures |SelectedShape(LeadsSelection(Front(items), Leads(l.A)))| == 1
    ensures SelectedShape(LeadsOf(l, items)) == [|Places(x, LoraShape(l)[0])|]
  {
    hide SelectedShape, Places, SelectAll;
    var sa, sb := LeadsSelection(Front(items), Leads(l.A)), LeadsOf(l, items);
    assert sa == [] + [sa[0]] && sb == [] + [sb[0]];
    SelectedSnoc([], sa[0]);
    SelectedSnoc([], sb[0]);
    NothingSelected();
  }

  /** Two weights of one element, as a stack leaves them: A has the leading axis in full. */
  function StackedPair(): (l: Lora)
    ensures l.A.shape == [2, 1, 1] && l.B.shape == [2, 1, 1] && Broadcasts(l)
  {
    ProdThree(2, 1, 1);
    Lora(Tensor([2, 1, 1], [1.0, 2.0]), Tensor([2, 1, 1], [3.0, 4.0]))
  }

  /** Asked by a slice for the first of two stacked weights, the code leaves both in A and one in B. */
  lemma HalfIsNotCut()
    ensures var l, items := StackedPair(), [Cut(Slice(Open, Limit(1), 1)), Cut(FULL), Cut(FULL)];
            && GetItems(l, items) == GetTuple(l, items) && GetTuple(l, items).Ok?
            && !Broadcasts(GetTuple(l, items).value)
  {
    hide StackedPair, GetTuple, GetItems, SelectFrom, Selection, SelectionA, SelectionB, Broadcasts;
    var l, first := StackedPair(), Slice(Open, Limit(1), 1);
    var items := [Cut(first), Cut(FULL), Cut(FULL)];
    ThreeAxes(l, first, FULL, FULL);
    PlainItems(l, items);
    TupleCommutes(l, items, GetTuple(l, items).value);
    HalfIsNotKept();
    assert Leads(l.A) == [2] && Leads(l.B) == [2] && Front(items)[0] == Cut(first);
  }

  lemma HalfIsNotKept()
    ensures !Kept(Cut(Slice(Open, Limit(1), 1)), 2, 2)
  {
    StepsAll(0, 1);
  }
}
