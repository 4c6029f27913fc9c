/** The value-head re-layout of convert_qwen4exp.py: heads stored key head by key head become heads
    stored round by round, consistently across every tensor of a linear attention layer. */
module ValueHeads {
  import opened Arithmetic
  import opened Sequences
  import opened Tensors
  import opened Loras
  import opened Sums

  /** The source head of engine head i, for g key heads with r value heads each. */
  function SourceHead(g: nat, r: nat, i: nat): (n: nat)
    requires i < g * r
  {
    HasGroups(g, r);
    NonNegative(i % g, r);
    i % g * r + i / g
  }

  lemma HasGroups(g: nat, r: nat)
    requires g * r > 0
    ensures g > 0
  {
    assert g == 0 ==> g * r == 0;
  }

  function HeadTable(g: nat, r: nat): (p: seq<nat>)
    ensures |p| == g * r && forall i :: 0 <= i < g * r ==> p[i] == SourceHead(g, r, i)
  {
    seq(g * r, i requires 0 <= i < g * r => SourceHead(g, r, i))
  }

  lemma HeadParts(g: nat, r: nat, i: nat)
    requires i < g * r
    ensures g > 0 && r > 0 && i % g < g && i / g < r && i == i / g * g + i % g
    ensures HeadTable(g, r)[i] < g * r && HeadTable(g, r)[i] / r == i % g && HeadTable(g, r)[i] % r == i / g
  {
    assert g * r == r * g;
    DivBound(i, r, g);
    MulBounds(i % g, g, i / g, r);
    DivModUnique(i % g, r, i / g);
  }

  /** The table is a permutation of the heads. */
  lemma HeadTablePermutes(g: nat, r: nat)
    ensures IsPermutation(HeadTable(g, r))
  {
    var p := HeadTable(g, r);
    forall i | 0 <= i < |p| ensures p[i] < |p| && g > 0 && r > 0 && p[i] % r * g + p[i] / r == i {
      HeadParts(g, r, i);
    }
    forall e | 0 <= e < |p| ensures e in p {
      var i := EngineHead(g, r, e);
      assert p[i] == e;
    }
  }

  /** Every source head is the source of some engine head. */
  lemma EngineHead(g: nat, r: nat, e: nat) returns (i: nat)
    requires e < g * r
    ensures i < g * r && SourceHead(g, r, i) == e
  {
    DivBound(e, g, r);
    i := FromParts(g, r, e / r, e % r);
  }

  lemma FromParts(g: nat, r: nat, q: nat, rest: nat) returns (i: nat)
    requires q < g && rest < r
    ensures i < g * r && i % g == q && i / g == rest
  {
    i := rest * g + q;
    MulBounds(rest, r, q, g);
    DivModUnique(rest, g, q);
  }

  /** The numbers 0, 1, 2 and so on, as numpy.arange gives them. */
  function Arange(n: nat): (t: Tensor)
    ensures t.shape == [n] && |t.data| == n && forall i :: 0 <= i < n ==> t.data[i] == i as real
  {
    assert [n][..0] == [] && Prod([n]) == n;
    Tensor([n], seq(n, i requires 0 <= i < n => i as real))
  }

  lemma ProdPair(a: nat, b: nat)
    ensures Prod([a, b]) == a * b && Prod([a]) == a
  {
    assert [a, b][..1] == [a] && [a][..0] == [];
    assert Prod([a]) == Prod([]) * a == a;
    assert Prod([a, b]) == Prod([a]) * b;
  }

  lemma OffsetPair(a: nat, b: nat, i: nat, j: nat)
    requires i < a && j < b
    ensures InBounds([a, b], [i, j]) && Offset([a, b], [i, j]) == i * b + j
  {
    assert [a, b][..1] == [a] && [i, j][..1] == [i] && [a][..0] == [];
    assert Offset([a], [i]) == i;
  }

  /** Entry (a, b) of the transpose of a g by r table of the numbers in order. */
  lemma TransposedEntry(s: Tensor, g: nat, r: nat, a: nat, b: nat)
    requires s.shape == [g, r] && a < r && b < g && IsPermutation([1, 0])
    requires forall j :: 0 <= j < |s.data| ==> s.data[j] == j as real
    ensures a * g + b < |Permute(s, [1, 0]).data| && Permute(s, [1, 0]).data[a * g + b] == (b * r + a) as real
  {
    hide Permute, Offset, IsPermutation;
    TransposedAt(s, a, b);
    OffsetPair(r, g, a, b);
    OffsetPair(g, r, b, a);
    assert PermutedShape([g, r], [1, 0]) == [r, g];
  }

  /** arange(g * r), reshaped to g by r, transposed and flattened, is the table. */
  lemma TableIsTranspose(g: nat, r: nat)
    ensures Prod([g, r]) == g * r && IsPermutation([1, 0])
    ensures var t := Permute(Reshape(Arange(g * r), [g, r]), [1, 0]);
            |t.data| == g * r && forall i :: 0 <= i < g * r ==> t.data[i] == HeadTable(g, r)[i] as real
  {
    hide Permute, Offset, SourceHead;
    ProdPair(g, r);
    ProdPair(g * r, 0);
    ProdPair(r, g);
    var s := Reshape(Arange(g * r), [g, r]);
    assert PermutedShape(s.shape, [1, 0]) == [r, g];
    var t := Permute(s, [1, 0]);
    forall i | 0 <= i < g * r ensures t.data[i] == HeadTable(g, r)[i] as real {
      HeadParts(g, r, i);
      TableEntry(g, r, i);
      TransposedEntry(s, g, r, i / g, i % g);
    }
  }

  lemma TableEntry(g: nat, r: nat, i: nat)
    requires i < g * r && g > 0
    ensures HeadTable(g, r)[i] == i % g * r + i / g
  {
  }

  // ---------- Rows and columns of heads

  /** A list cut into n pieces of the given size, as a reshape does. */
  function Chunks<T>(s: seq<T>, n: nat, size: nat): (c: seq<seq<T>>)
    requires |s| == n * size
    ensures |c| == n
  {
    if n == 0 then [] else
    OneLess(n, size);
    [s[..size]] + Chunks(s[size..], n - 1, size)
  }

  lemma OneLess(n: nat, size: nat)
    requires n > 0
    ensures n * size == (n - 1) * size + size
  {
  }

  /** Piece i is what follows the i pieces before it. */
  lemma {:induction false} ChunkIs<T>(s: seq<T>, n: nat, size: nat, i: nat, start: nat)
    requires |s| == n * size && i < n && start == i * size
    ensures start + size <= |s| && Chunks(s, n, size)[i] == s[start..start + size]
  {
    OneLess(n, size);
    MulLess(i, n, size);
    if i > 0 {
      OneLess(i, size);
      NonNegative(i - 1, size);
      ChunkIs(s[size..], n - 1, size, i - 1, start - size);
      SliceBehind(s, size, start);
    }
  }

  lemma SliceBehind<T>(s: seq<T>, size: nat, start: nat)
    requires size <= start && start + size <= |s|
    ensures s[size..][start - size..start] == s[start..start + size]
  {
  }

  predicate AllOfSize<T>(c: seq<seq<T>>, size: nat) {
    forall i :: 0 <= i < |c| ==> |c[i]| == size
  }

  lemma {:induction false} ChunksOfSize<T>(s: seq<T>, n: nat, size: nat)
    requires |s| == n * size
    ensures AllOfSize(Chunks(s, n, size), size)
  {
    if n > 0 {
      OneLess(n, size);
      ChunksOfSize(s[size..], n - 1, size);
    }
  }

  lemma ChunksFront<T>(s: seq<T>, n: nat, size: nat)
    requires |s| == n * size && n > 0
    ensures |s| >= size && |s[size..]| == (n - 1) * size
    ensures Chunks(s, n, size) == [s[..size]] + Chunks(s[size..], n - 1, size)
  {
    OneLess(n, size);
    NonNegative(n - 1, size);
  }

  /** Joining pieces of equal size and cutting again gives the pieces back. */
  lemma {:induction false} FlattenPieces<T>(c: seq<seq<T>>, size: nat)
    requires AllOfSize(c, size)
    ensures |Flatten(c)| == |c| * size && Chunks(Flatten(c), |c|, size) == c
  {
    if c == [] {
    } else {
      FlattenPieces(c[1..], size);
      FirstPiece(c, size);
    }
  }

  lemma FirstPiece<T>(c: seq<seq<T>>, size: nat)
    requires c != [] && |c[0]| == size && |Flatten(c[1..])| == (|c| - 1) * size
    requires Chunks(Flatten(c[1..]), |c| - 1, size) == c[1..]
    ensures |Flatten(c)| == |c| * size && Chunks(Flatten(c), |c|, size) == c
  {
    hide Chunks;
    OneLess(|c|, size);
    assert Flatten(c) == c[0] + Flatten(c[1..]);
    hide Flatten;
    assert Flatten(c)[..size] == c[0] && Flatten(c)[size..] == Flatten(c[1..]);
    ChunksFront(Flatten(c), |c|, size);
    assert c == [c[0]] + c[1..];
  }

  /** The re-layout of a list of n heads of the given size: cut, reorder, join. */
  function Relayout<T>(s: seq<T>, p: seq<nat>, size: nat): (r: seq<T>)
    requires IsPermutation(p) && |s| == |p| * size
  {
    Flatten(Gather(Chunks(s, |p|, size), p))
  }

  /** Cutting the re-laid list again gives the pieces of the list, reordered. */
  lemma RelayoutChunks<T>(s: seq<T>, p: seq<nat>, size: nat)
    requires IsPermutation(p) && |s| == |p| * size
    ensures |Relayout(s, p, size)| == |s|
    ensures Chunks(Relayout(s, p, size), |p|, size) == Gather(Chunks(s, |p|, size), p)
  {
    ChunksOfSize(s, |p|, size);
    FlattenPieces(Gather(Chunks(s, |p|, size), p), size);
  }

  /** perm_v: the leading rows stay, the rest are the rows of heads. */
  function PermV<T>(rows: seq<T>, lead: nat, p: seq<nat>, size: nat): (r: seq<T>)
    requires IsPermutation(p) && lead <= |rows| && |rows| - lead == |p| * size
  {
    rows[..lead] + Relayout(rows[lead..], p, size)
  }

  lemma PermVParts<T>(rows: seq<T>, lead: nat, p: seq<nat>, size: nat)
    requires IsPermutation(p) && lead <= |rows| && |rows| - lead == |p| * size
    ensures var r := PermV(rows, lead, p, size);
            |r| == |rows| && r[..lead] == rows[..lead]
            && Chunks(r[lead..], |p|, size) == Gather(Chunks(rows[lead..], |p|, size), p)
  {
    RelayoutChunks(rows[lead..], p, size);
    var r := PermV(rows, lead, p, size);
    assert r[..lead] == rows[..lead] && r[lead..] == Relayout(rows[lead..], p, size);
  }

  // ---------- A whole layer

  type Row = seq<real>

  /** The tensors of one linear attention layer, as rows. The query and key rows come first in qkv and
      in the convolution. */
  datatype Layer = Layer(qkv: seq<Row>, conv: seq<Row>, gate: seq<Row>, decay: seq<real>, dtBias: seq<real>,
                         alpha: seq<Row>, beta: seq<Row>, out: seq<Row>)

  predicate Fits(l: Layer, lead: nat, heads: nat, size: nat) {
    && lead + heads * size == |l.qkv| == |l.conv| && |l.gate| == heads * size
    && |l.decay| == |l.dtBias| == |l.alpha| == |l.beta| == heads
    && forall e :: 0 <= e < |l.out| ==> |l.out[e]| == heads * size
  }

  /** The converted layer. The decay is also mapped through a function (the negated exponential). */
  function Converted(l: Layer, lead: nat, p: seq<nat>, size: nat, decayOf: real -> real): (r: Layer)
    requires IsPermutation(p) && Fits(l, lead, |p|, size)
  {
    Layer(PermV(l.qkv, lead, p, size), PermV(l.conv, lead, p, size), Relayout(l.gate, p, size),
          Gather(MapDecay(l.decay, decayOf), p), Gather(l.dtBias, p), Gather(l.alpha, p), Gather(l.beta, p),
          seq(|l.out|, e requires 0 <= e < |l.out| => Relayout(l.out[e], p, size)))
  }

  function MapDecay(s: seq<real>, f: real -> real): (r: seq<real>)
    ensures |r| == |s| && forall i :: 0 <= i < |s| ==> r[i] == f(s[i])
  {
    seq(|s|, i requires 0 <= i < |s| => f(s[i]))
  }

  /** All that one value head computes with: the query and key rows and its key head among them, and its
      own rows and scalars. */
  datatype HeadData = HeadData(shared: seq<Row>, sharedConv: seq<Row>, keyHead: nat, value: seq<Row>, conv: seq<Row>,
                               gate: seq<Row>, decay: real, dtBias: real, alpha: Row, beta: Row)

  function DataOf(l: Layer, lead: nat, heads: nat, size: nat, decay: seq<real>, keyHead: nat, i: nat): (data: HeadData)
    requires Fits(l, lead, heads, size) && |decay| == heads && i < heads
  {
    HeadData(l.qkv[..lead], l.conv[..lead], keyHead, Chunks(l.qkv[lead..], heads, size)[i],
             Chunks(l.conv[lead..], heads, size)[i], Chunks(l.gate, heads, size)[i],
             decay[i], l.dtBias[i], l.alpha[i], l.beta[i])
  }

  /** The contribution of a head to output e: its columns of the output projection against what it computes. */
  function Contribution(columns: Row, head: HeadData, f: (HeadData, nat) -> real, n: nat): (x: real)
    requires n <= |columns|
  {
    if n == 0 then 0.0 else Contribution(columns, head, f, n - 1) + columns[n - 1] * f(head, n - 1)
  }

  /** The contributions of all heads, in the order the layer stores them. */
  function Contributions(l: Layer, lead: nat, heads: nat, size: nat, decay: seq<real>, keyHeads: seq<nat>,
                         f: (HeadData, nat) -> real, e: nat): (c: seq<real>)
    requires Fits(l, lead, heads, size) && |decay| == |keyHeads| == heads && e < |l.out|
    ensures |c| == heads
  {
    ChunksOfSize(l.out[e], heads, size);
    seq(heads, i requires 0 <= i < heads =>
      Contribution(Chunks(l.out[e], heads, size)[i], DataOf(l, lead, heads, size, decay, keyHeads[i], i), f, size))
  }

  /** The key head of each value head: in the checkpoint r in a row share one, in the engine they take turns. */
  function SourceKeyHeads(g: nat, r: nat): (k: seq<nat>)
    ensures |k| == g * r && forall h :: 0 <= h < g * r ==> k[h] == SourceKeyHead(g, r, h)
  {
    seq(g * r, h requires 0 <= h < g * r => SourceKeyHead(g, r, h))
  }

  function SourceKeyHead(g: nat, r: nat, h: nat): (n: nat)
    requires h < g * r
  {
    assert r > 0;
    h / r
  }

  function EngineKeyHeads(g: nat, r: nat): (k: seq<nat>)
    ensures |k| == g * r && forall i :: 0 <= i < g * r ==> k[i] == EngineKeyHead(g, r, i)
  {
    seq(g * r, i requires 0 <= i < g * r => EngineKeyHead(g, r, i))
  }

  function EngineKeyHead(g: nat, r: nat, i: nat): (n: nat)
    requires i < g * r
  {
    assert g > 0;
    i % g
  }

  /** Every engine head uses the key head that its source head used. */
  lemma KeyHeadKept(g: nat, r: nat)
    ensures IsPermutation(HeadTable(g, r)) && EngineKeyHeads(g, r) == Gather(SourceKeyHeads(g, r), HeadTable(g, r))
  {
    HeadTablePermutes(g, r);
    forall i | 0 <= i < g * r ensures EngineKeyHeads(g, r)[i] == Gather(SourceKeyHeads(g, r), HeadTable(g, r))[i] {
      HeadParts(g, r, i);
    }
  }

  lemma ConvertedFits(l: Layer, lead: nat, p: seq<nat>, size: nat, decayOf: real -> real)
    requires IsPermutation(p) && Fits(l, lead, |p|, size)
    ensures Fits(Converted(l, lead, p, size, decayOf), lead, |p|, size)
  {
    hide Relayout, PermV, IsPermutation;
    PermVParts(l.qkv, lead, p, size);
    PermVParts(l.conv, lead, p, size);
    RelayoutChunks(l.gate, p, size);
    var r := Converted(l, lead, p, size, decayOf);
    forall e | 0 <= e < |r.out| ensures |r.out[e]| == |p| * size {
      RelayoutChunks(l.out[e], p, size);
    }
  }

  /** What an engine head computes with is what its source head computed with. */
  lemma DataKept(l: Layer, lead: nat, p: seq<nat>, size: nat, decayOf: real -> real, key: nat, i: nat)
    requires IsPermutation(p) && Fits(l, lead, |p|, size) && i < |p|
    requires Fits(Converted(l, lead, p, size, decayOf), lead, |p|, size)
    ensures var r := Converted(l, lead, p, size, decayOf);
            p[i] < |p| && DataOf(r, lead, |p|, size, r.decay, key, i)
            == DataOf(l, lead, |p|, size, MapDecay(l.decay, decayOf), key, p[i])
  {
    hide Relayout, PermV;
    PermVParts(l.qkv, lead, p, size);
    PermVParts(l.conv, lead, p, size);
    RelayoutChunks(l.gate, p, size);
  }

  /** The re-layout leaves every output of the layer as it was, whatever a head computes from its data. */
  lemma LayerUnchanged(l: Layer, lead: nat, g: nat, r: nat, size: nat, decayOf: real -> real,
                       f: (HeadData, nat) -> real, e: nat)
    requires Fits(l, lead, g * r, size) && e < |l.out|
    ensures IsPermutation(HeadTable(g, r))
    ensures var c := Converted(l, lead, HeadTable(g, r), size, decayOf);
            Fits(c, lead, g * r, size) && |c.out| == |l.out|
            && SumOf(Contributions(c, lead, g * r, size, c.decay, EngineKeyHeads(g, r), f, e))
            == SumOf(Contributions(l, lead, g * r, size, MapDecay(l.decay, decayOf), SourceKeyHeads(g, r), f, e))
  {
    hide Relayout, IsPermutation, Converted, DataOf, Contribution, SumOf, MapDecay;
    var p := HeadTable(g, r);
    KeyHeadKept(g, r);
    ConvertedFits(l, lead, p, size, decayOf);
    var c := Converted(l, lead, p, size, decayOf);
    ContributionsPermuted(l, lead, g, r, size, decayOf, f, e);
    SumPermuted(Contributions(l, lead, g * r, size, MapDecay(l.decay, decayOf), SourceKeyHeads(g, r), f, e), p);
  }

  lemma ContributionsPermuted(l: Layer, lead: nat, g: nat, r: nat, size: nat, decayOf: real -> real,
                              f: (HeadData, nat) -> real, e: nat)
    requires Fits(l, lead, g * r, size) && e < |l.out| && IsPermutation(HeadTable(g, r))
    requires Fits(Converted(l, lead, HeadTable(g, r), size, decayOf), lead, g * r, size)
    ensures var c := Converted(l, lead, HeadTable(g, r), size, decayOf);
            |c.out| == |l.out| && |MapDecay(l.decay, decayOf)| == g * r
            && Contributions(c, lead, g * r, size, c.decay, EngineKeyHeads(g, r), f, e)
            == Gather(Contributions(l, lead, g * r, size, MapDecay(l.decay, decayOf), SourceKeyHeads(g, r), f, e),
                      HeadTable(g, r))
  {
    hide Relayout, PermV, DataOf, Contribution;
    var p := HeadTable(g, r);
    var c := Converted(l, lead, p, size, decayOf);
    RelayoutChunks(l.out[e], p, size);
    KeyHeadKept(g, r);
    var x := Contributions(c, lead, g * r, size, c.decay, EngineKeyHeads(g, r), f, e);
    var y := Gather(Contributions(l, lead, g * r, size, MapDecay(l.decay, decayOf), SourceKeyHeads(g, r), f, e), p);
    forall i | 0 <= i < g * r ensures x[i] == y[i] {
      DataKept(l, lead, p, size, decayOf, EngineKeyHeads(g, r)[i], i);
    }
  }
}
