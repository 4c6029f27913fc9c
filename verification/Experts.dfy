/** The expert buffers of Qwen2MoeModel in convert_hf_to_gguf.py: expert weights arrive one by one, in any order,
    and leave as three stacks per block. */
module Experts {
  import opened Wrappers
  import opened Tensors

  datatype Proj = Down | Gate | Up
  const PROJS := [Down, Gate, Up]

  /** A tensor name: an expert weight, another name that contains "experts", or a name without it. */
  datatype Name = Weight(bid: nat, xid: nat, proj: Proj) | Odd(text: string) | Plain(text: string)

  datatype Error = NoBlock | BadBlock | MissingTensor | Unstackable | Unprocessed(names: set<Name>)

  datatype Arrival = Arrival(name: Name, bid: Option<nat>, data: Tensor)
  datatype Output = Stacked(bid: nat, proj: Proj, data: Tensor) | Passed(name: Name, data: Tensor)

  type Buffer = map<Name, Tensor>
  type Buffers = Option<seq<Buffer>>

  // ---------- One arrival

  predicate Has(buf: Buffer, bid: nat, n: nat, p: Proj) {
    forall x: nat :: x < n ==> Weight(bid, x, p) in buf
  }

  function Datas(buf: Buffer, bid: nat, n: nat, p: Proj): (d: seq<Tensor>)
    requires Has(buf, bid, n, p)
    ensures |d| == n && forall x: nat :: x < n ==> d[x] == buf[Weight(bid, x, p)]
  {
    seq(n, x requires 0 <= x < n => buf[Weight(bid, x, p)])
  }

  function Without(buf: Buffer, bid: nat, n: nat, p: Proj): (r: Buffer) {
    map k | k in buf && !(k.Weight? && k.bid == bid && k.xid < n && k.proj == p) :: buf[k]
  }

  function Taken(n: nat, bid: nat, buf: Buffer, p: Proj): (r: Result<seq<Tensor>, Error>) {
    if Has(buf, bid, n, p) then Ok(Datas(buf, bid, n, p)) else Err(MissingTensor)
  }

  /** Taking the stacks of the given projections out of a buffer. */
  function Emit(n: nat, bid: nat, buf: Buffer, projs: seq<Proj>): (r: Result<(Buffer, seq<Output>), Error>) {
    if projs == [] then Ok((buf, [])) else
    var k := |projs| - 1;
    match Emit(n, bid, buf, projs[..k])
    case Err(e) => Err(e)
    case Ok((rest, outs)) =>
      match Taken(n, bid, rest, projs[k])
      case Err(e) => Err(e)
      case Ok(datas) =>
        if !SameShapes(datas) then Err(Unstackable)
        else Ok((Without(rest, bid, n, projs[k]), outs + [Stacked(bid, projs[k], Stack(datas))]))
  }

  function NoExperts(blocks: nat): (buffers: seq<Buffer>) {
    seq(blocks, _ => map[])
  }

  function Step(n: nat, blocks: nat, s: Buffers, a: Arrival): (r: Result<(Buffers, seq<Output>), Error>) {
    if a.name.Plain? then Ok((s, [Passed(a.name, a.data)]))
    else if a.bid.None? then Err(NoBlock)
    else
      var bufs, b := if s.None? then NoExperts(blocks) else s.value, a.bid.value;
      if b >= |bufs| then Err(BadBlock) else
      var buf := bufs[b][a.name := a.data];
      if |buf| < n * 3 then Ok((Some(bufs[b := buf]), []))
      else match Emit(n, b, buf, PROJS)
        case Err(e) => Err(e)
        case Ok((rest, outs)) => Ok((Some(bufs[b := rest]), outs))
  }

  function Run(n: nat, blocks: nat, arrivals: seq<Arrival>): (r: Result<(Buffers, seq<Output>), Error>) {
    if arrivals == [] then Ok((None, [])) else
    var k := |arrivals| - 1;
    match Run(n, blocks, arrivals[..k])
    case Err(e) => Err(e)
    case Ok((s, outs)) =>
      match Step(n, blocks, s, arrivals[k])
      case Err(e) => Err(e)
      case Ok((s', more)) => Ok((s', outs + more))
  }

  function Leftover(s: Buffers): (names: set<Name>) {
    if s.None? then {} else set b, k | 0 <= b < |s.value| && k in s.value[b] :: k
  }

  function Finish(n: nat, blocks: nat, arrivals: seq<Arrival>): (r: Result<seq<Output>, Error>) {
    match Run(n, blocks, arrivals)
    case Err(e) => Err(e)
    case Ok((s, outs)) => if Leftover(s) == {} then Ok(outs) else Err(Unprocessed(Leftover(s)))
  }

  class Qwen2MoeModel {
    const nExperts: nat
    const blockCount: nat
    var experts: Buffers

    constructor (nExperts: nat, blockCount: nat)
      ensures this.nExperts == nExperts && this.blockCount == blockCount && experts == None
    {
      this.nExperts, this.blockCount, experts := nExperts, blockCount, None;
    }

    /** Takes the weights of one projection out of a buffer, in expert order. */
    method Take(bid: nat, p: Proj) returns (r: Result<seq<Tensor>, Error>)
      requires experts.Some? && bid < |experts.value|
      modifies this`experts
      ensures experts.Some? && |experts.value| == |old(experts).value|
      ensures r == Taken(nExperts, bid, old(experts).value[bid], p)
      ensures r.Ok? ==> experts == Some(old(experts).value[bid := Without(old(experts).value[bid], bid, nExperts, p)])
    {
      ghost var before := experts.value[bid];
      var datas: seq<Tensor> := [];
      var x: nat := 0;
      assert before == Without(before, bid, 0, p) && experts.value == experts.value[bid := before];
      while x < nExperts
        invariant x <= nExperts && Has(before, bid, x, p) && datas == Datas(before, bid, x, p)
        invariant experts == Some(old(experts).value[bid := Without(before, bid, x, p)])
      {
        var name := Weight(bid, x, p);
        if name !in experts.value[bid] {
          return Err(MissingTensor);
        }
        datas := datas + [experts.value[bid][name]];
        var rest: Buffer := experts.value[bid] - {name};
        assert rest == Without(before, bid, x + 1, p);
        assert experts.value[bid := rest] == old(experts).value[bid := rest];
        experts := Some(experts.value[bid := rest]);
        x := x + 1;
      }
      r := Ok(datas);
    }

    /** Takes the merged tensors of one block out of its full buffer. */
    method Drain(bid: nat) returns (r: Result<seq<Output>, Error>)
      requires experts.Some? && bid < |experts.value|
      modifies this`experts
      ensures experts.Some? && |experts.value| == |old(experts).value|
      ensures var e := Emit(nExperts, bid, old(experts).value[bid], PROJS);
              if e.Err? then r == Err(e.error)
              else r == Ok(e.value.1) && experts == Some(old(experts).value[bid := e.value.0])
    {
      hide Taken, Without, SameShapes, Stack;
      var tensors: seq<Output> := [];
      ghost var bufs := experts.value;
      assert bufs == bufs[bid := bufs[bid]];
      var w := 0;
      while w < 3
        invariant 0 <= w <= 3 && experts.Some? && |experts.value| == |bufs|
        invariant Emit(nExperts, bid, bufs[bid], PROJS[..w]) == Ok((experts.value[bid], tensors))
        invariant experts.value == bufs[bid := experts.value[bid]]
      {
        assert PROJS[..w + 1][..w] == PROJS[..w];
        var datas := Take(bid, PROJS[w]);
        if datas.Err? {
          EmitFails(nExperts, bid, bufs[bid], PROJS, w, datas.error);
          return Err(datas.error);
        }
        if !SameShapes(datas.value) {
          EmitFails(nExperts, bid, bufs[bid], PROJS, w, Unstackable);
          return Err(Unstackable);
        }
        tensors := tensors + [Stacked(bid, PROJS[w], Stack(datas.value))];
        w := w + 1;
      }
      assert PROJS[..3] == PROJS;
      r := Ok(tensors);
    }

    method ModifyTensors(data: Tensor, name: Name, bid: Option<nat>) returns (r: Result<seq<Output>, Error>)
      requires experts.Some? ==> |experts.value| == blockCount
      modifies this`experts
      ensures experts.Some? ==> |experts.value| == blockCount
      ensures var s := Step(nExperts, blockCount, old(experts), Arrival(name, bid, data));
              if s.Err? then r == Err(s.error) else r == Ok(s.value.1) && experts == s.value.0
    {
      hide Emit;
      if !name.Plain? {
        if bid.None? {
          return Err(NoBlock);
        }
        if experts.None? {
          experts := Some(NoExperts(blockCount));
        }
        if bid.value >= |experts.value| {
          return Err(BadBlock);
        }
        var buffer: Buffer := experts.value[bid.value][name := data];
        ghost var bufs := experts.value;
        experts := Some(experts.value[bid.value := buffer]);
        if |experts.value[bid.value]| >= nExperts * 3 {
          r := Drain(bid.value);
          assert bufs[bid.value := buffer][bid.value := experts.value[bid.value]]
                 == bufs[bid.value := experts.value[bid.value]];
          return;
        }
        return Ok([]);
      }
      return Ok([Passed(name, data)]);
    }

    method PrepareTensors(arrivals: seq<Arrival>) returns (r: Result<seq<Output>, Error>)
      requires experts == None
      modifies this`experts
      ensures r == Finish(nExperts, blockCount, arrivals)
    {
      hide Run, Step;
      var written: seq<Output> := [];
      var i := 0;
      RunNone(nExperts, blockCount, arrivals);
      while i < |arrivals|
        invariant 0 <= i <= |arrivals|
        invariant experts.Some? ==> |experts.value| == blockCount
        invariant Run(nExperts, blockCount, arrivals[..i]) == Ok((experts, written))
      {
        RunNext(nExperts, blockCount, arrivals, i);
        var a := arrivals[i];
        var outs := ModifyTensors(a.data, a.name, a.bid);
        if outs.Err? {
          RunFails(nExperts, blockCount, arrivals, i + 1);
          return Err(outs.error);
        }
        written := written + outs.value;
        i := i + 1;
      }
      assert arrivals[..i] == arrivals;
      if experts.Some? {
        var left := set b, k | 0 <= b < |experts.value| && k in experts.value[b] :: k;
        if left != {} {
          return Err(Unprocessed(left));
        }
      }
      r := Ok(written);
    }
  }

  lemma RunNone(n: nat, blocks: nat, arrivals: seq<Arrival>)
    ensures Run(n, blocks, arrivals[..0]) == Ok((None, []))
  {
  }

  lemma RunNext(n: nat, blocks: nat, arrivals: seq<Arrival>, i: nat)
    requires i < |arrivals| && Run(n, blocks, arrivals[..i]).Ok?
    ensures var (s, outs) := Run(n, blocks, arrivals[..i]).value;
            Run(n, blocks, arrivals[..i + 1]) ==
            match Step(n, blocks, s, arrivals[i])
            case Err(e) => Err(e)
            case Ok((s', more)) => Ok((s', outs + more))
  {
    hide Step;
    assert arrivals[..i + 1][..i] == arrivals[..i];
  }

  lemma {:induction false} RunFails(n: nat, blocks: nat, arrivals: seq<Arrival>, i: nat)
    requires i <= |arrivals| && Run(n, blocks, arrivals[..i]).Err?
    ensures Run(n, blocks, arrivals) == Run(n, blocks, arrivals[..i])
  {
    if i == |arrivals| {
      assert arrivals[..i] == arrivals;
    } else {
      var k := |arrivals| - 1;
      assert arrivals[..k][..i] == arrivals[..i];
      RunFails(n, blocks, arrivals[..k], i);
    }
  }

  lemma {:induction false} EmitFails(n: nat, bid: nat, buf: Buffer, projs: seq<Proj>, w: nat, e: Error)
    requires w < |projs|
    requires Emit(n, bid, buf, projs[..w + 1]) == Err(e)
    ensures Emit(n, bid, buf, projs) == Err(e)
  {
    var k := |projs| - 1;
    if w == k {
      assert projs[..w + 1] == projs;
    } else {
      assert projs[..k][..w + 1] == projs[..w + 1];
      EmitFails(n, bid, buf, projs[..k], w, e);
    }
  }

  // ---------- Counting a block

  function NamesOfExpert(bid: nat, x: nat): (s: set<Name>)
    ensures |s| == 3
    ensures forall k :: k in s <==> k.Weight? && k.bid == bid && k.xid == x
  {
    assert forall k: Name :: k.Weight? ==> k.proj.Down? || k.proj.Gate? || k.proj.Up?;
    var d, g, u := {Weight(bid, x, Down)}, {Weight(bid, x, Gate)}, {Weight(bid, x, Up)};
    assert |d + g + u| == |d + g| + |u|;
    d + g + u
  }

  function AllNames(bid: nat, n: nat): (s: set<Name>)
    ensures |s| == n * 3
    ensures forall k :: k in s <==> k.Weight? && k.bid == bid && k.xid < n
  {
    if n == 0 then {} else
    var s, t := AllNames(bid, n - 1), NamesOfExpert(bid, n - 1);
    assert s !! t && |s + t| == |s| + |t|;
    s + t
  }

  predicate Full(buf: Buffer, bid: nat, n: nat) {
    Has(buf, bid, n, Down) && Has(buf, bid, n, Gate) && Has(buf, bid, n, Up)
  }

  /** Whether the buffer holds weights of the block only, each of the shape that its projection has there. */
  predicate Fits(buf: Buffer, bid: nat, n: nat, shapeOf: (nat, Proj) -> Shape) {
    forall k :: k in buf ==> k.Weight? && k.bid == bid && k.xid < n && buf[k].shape == shapeOf(bid, k.proj)
  }

  /** Counting decides: a buffer of the block's own weights is full exactly when it holds 3n of them. */
  lemma FullByCount(buf: Buffer, bid: nat, n: nat, shapeOf: (nat, Proj) -> Shape)
    requires Fits(buf, bid, n, shapeOf)
    ensures Full(buf, bid, n) <==> |buf| >= n * 3
  {
    hide AllNames, Full;
    var s, keys := AllNames(bid, n), buf.Keys;
    assert keys <= s && |keys| == |buf|;
    FullIsAll(buf, bid, n);
    if |buf| >= n * 3 {
      SameSize(keys, s);
    }
    if s <= keys {
      assert s == keys;
    }
  }

  lemma SameSize<T>(a: set<T>, b: set<T>)
    requires a <= b && |a| >= |b|
    ensures a == b
  {
    assert |b - a| == |b| - |a|;
    assert b == a + (b - a);
  }

  lemma FullIsAll(buf: Buffer, bid: nat, n: nat)
    ensures Full(buf, bid, n) <==> AllNames(bid, n) <= buf.Keys
  {
    hide AllNames;
    var s := AllNames(bid, n);
    if Full(buf, bid, n) {
      forall k | k in s ensures k in buf.Keys {
        assert k == Weight(bid, k.xid, k.proj);
        match k.proj { case Down => case Gate => case Up => }
      }
    }
    if s <= buf.Keys {
      forall p: Proj ensures Has(buf, bid, n, p) {
        forall x: nat | x < n ensures Weight(bid, x, p) in buf {
          assert Weight(bid, x, p) in s;
        }
      }
    }
  }

  // ---------- A whole run

  /** The stack of one projection of a block, in expert order. */
  function StackFor(buf: Buffer, bid: nat, n: nat, p: Proj): (out: Output)
    requires Has(buf, bid, n, p) && SameShapes(Datas(buf, bid, n, p))
  {
    Stacked(bid, p, Stack(Datas(buf, bid, n, p)))
  }

  lemma ShapesAgree(buf: Buffer, bid: nat, n: nat, p: Proj, shapeOf: (nat, Proj) -> Shape)
    requires Fits(buf, bid, n, shapeOf) && Has(buf, bid, n, p) && n > 0
    ensures SameShapes(Datas(buf, bid, n, p))
  {
    var d := Datas(buf, bid, n, p);
    forall x: nat | x < n ensures d[x].shape == shapeOf(bid, p) {
      assert d[x] == buf[Weight(bid, x, p)];
    }
  }

  /** What a block has emitted once the given weights have arrived: its three stacks, or nothing. */
  function Emitted(buf: Buffer, bid: nat, n: nat, shapeOf: (nat, Proj) -> Shape): (outs: seq<Output>)
    requires Fits(buf, bid, n, shapeOf) && n > 0
  {
    if !Full(buf, bid, n) then [] else
    ShapesAgree(buf, bid, n, Down, shapeOf);
    ShapesAgree(buf, bid, n, Gate, shapeOf);
    ShapesAgree(buf, bid, n, Up, shapeOf);
    [StackFor(buf, bid, n, Down), StackFor(buf, bid, n, Gate), StackFor(buf, bid, n, Up)]
  }

  /** What is still waiting in the block's buffer. */
  function Waiting(buf: Buffer, bid: nat, n: nat): (buffer: Buffer) {
    if Full(buf, bid, n) then map[] else buf
  }

  lemma EmitNext(n: nat, bid: nat, buf: Buffer, projs: seq<Proj>, p: Proj, rest: Buffer, outs: seq<Output>)
    requires Emit(n, bid, buf, projs) == Ok((rest, outs)) && Has(buf, bid, n, p) && SameShapes(Datas(buf, bid, n, p))
    requires forall x: nat :: x < n ==> Weight(bid, x, p) in rest && rest[Weight(bid, x, p)] == buf[Weight(bid, x, p)]
    ensures Emit(n, bid, buf, projs + [p]) == Ok((Without(rest, bid, n, p), outs + [StackFor(buf, bid, n, p)]))
  {
    var all := projs + [p];
    assert all[..|all| - 1] == projs && all[|all| - 1] == p;
    assert Has(rest, bid, n, p);
    assert Datas(rest, bid, n, p) == Datas(buf, bid, n, p);
  }

  /** After the three projections a buffer of the block's own weights is empty. */
  lemma NothingLeft(buf: Buffer, bid: nat, n: nat, shapeOf: (nat, Proj) -> Shape)
    requires Fits(buf, bid, n, shapeOf)
    ensures Without(Without(Without(buf, bid, n, Down), bid, n, Gate), bid, n, Up) == map[]
  {
    assert forall k: Name :: k.Weight? ==> k.proj.Down? || k.proj.Gate? || k.proj.Up?;
  }

  lemma EmitFull(n: nat, bid: nat, buf: Buffer, shapeOf: (nat, Proj) -> Shape)
    requires n > 0 && Fits(buf, bid, n, shapeOf) && Full(buf, bid, n)
    ensures Emit(n, bid, buf, PROJS) == Ok((map[], Emitted(buf, bid, n, shapeOf)))
  {
    hide SameShapes, Stack, Emit, Fits, StackFor;
    ShapesAgree(buf, bid, n, Down, shapeOf);
    ShapesAgree(buf, bid, n, Gate, shapeOf);
    ShapesAgree(buf, bid, n, Up, shapeOf);
    var d, g, u := StackFor(buf, bid, n, Down), StackFor(buf, bid, n, Gate), StackFor(buf, bid, n, Up);
    var b1 := Without(buf, bid, n, Down);
    var b2 := Without(b1, bid, n, Gate);
    EmitNone(n, bid, buf);
    EmitNext(n, bid, buf, [], Down, buf, []);
    assert [] + [Down] == [Down] && [] + [d] == [d];
    EmitNext(n, bid, buf, [Down], Gate, b1, [d]);
    assert [Down] + [Gate] == [Down, Gate] && [d] + [g] == [d, g];
    EmitNext(n, bid, buf, [Down, Gate], Up, b2, [d, g]);
    assert [Down, Gate] + [Up] == PROJS && [d, g] + [u] == [d, g, u];
    NothingLeft(buf, bid, n, shapeOf);
  }

  lemma EmitNone(n: nat, bid: nat, buf: Buffer)
    ensures Emit(n, bid, buf, []) == Ok((buf, []))
  {
  }

  /** The expert weights of block b among the arrivals. */
  function Arrived(arrivals: seq<Arrival>, b: nat): (buf: Buffer) {
    if arrivals == [] then map[] else
    var k := |arrivals| - 1;
    var a, before := arrivals[k], Arrived(arrivals[..k], b);
    if !a.name.Plain? && a.bid == Some(b) then before[a.name := a.data] else before
  }

  predicate Proper(arrivals: seq<Arrival>, n: nat, blocks: nat, shapeOf: (nat, Proj) -> Shape) {
    forall i :: 0 <= i < |arrivals| && !arrivals[i].name.Plain? ==> IsExpert(arrivals[i], n, blocks, shapeOf)
  }

  /** An expert weight of the model, with its own block's number and its projection's shape. */
  predicate IsExpert(a: Arrival, n: nat, blocks: nat, shapeOf: (nat, Proj) -> Shape) {
    a.name.Weight? && a.name.bid < blocks && a.name.xid < n && a.bid == Some(a.name.bid)
    && a.data.shape == shapeOf(a.name.bid, a.name.proj)
  }

  predicate DistinctExperts(arrivals: seq<Arrival>) {
    forall i, j :: 0 <= i < j < |arrivals| && arrivals[i].name == arrivals[j].name ==> arrivals[i].name.Plain?
  }

  lemma {:induction false} ArrivedFits(arrivals: seq<Arrival>, b: nat, n: nat, blocks: nat,
                                       shapeOf: (nat, Proj) -> Shape)
    requires Proper(arrivals, n, blocks, shapeOf)
    ensures Fits(Arrived(arrivals, b), b, n, shapeOf)
  {
    if arrivals != [] {
      ArrivedFits(arrivals[..|arrivals| - 1], b, n, blocks, shapeOf);
    }
  }

  lemma {:induction false} ArrivedNamed(arrivals: seq<Arrival>, b: nat, name: Name) returns (i: nat)
    requires name in Arrived(arrivals, b)
    ensures i < |arrivals| && arrivals[i].name == name && !name.Plain?
  {
    i := |arrivals| - 1;
    if arrivals[i].name.Plain? || arrivals[i].name != name {
      i := ArrivedNamed(arrivals[..i], b, name);
    }
  }

  /** A new expert weight finds its block unfinished. */
  lemma NewIsMissing(arrivals: seq<Arrival>, n: nat, blocks: nat, shapeOf: (nat, Proj) -> Shape)
    requires arrivals != [] && DistinctExperts(arrivals) && Proper(arrivals, n, blocks, shapeOf)
    requires !arrivals[|arrivals| - 1].name.Plain?
    ensures var k := |arrivals| - 1;
            var b := arrivals[k].name.bid;
            arrivals[k].name !in Arrived(arrivals[..k], b) && !Full(Arrived(arrivals[..k], b), b, n)
  {
    var k := |arrivals| - 1;
    var name := arrivals[k].name;
    var before := Arrived(arrivals[..k], name.bid);
    if name in before {
      var i := ArrivedNamed(arrivals[..k], name.bid, name);
      assert false;
    }
    if Full(before, name.bid, n) {
      match name.proj { case Down => case Gate => case Up => }
      assert false;
    }
  }

  /** The stacks of block b among the outputs. */
  function StacksIn(outs: seq<Output>, b: nat): (r: seq<Output>) {
    if outs == [] then [] else
    var k := |outs| - 1;
    StacksIn(outs[..k], b) + (if outs[k].Stacked? && outs[k].bid == b then [outs[k]] else [])
  }

  function PassedIn(outs: seq<Output>): (r: seq<Output>) {
    if outs == [] then [] else
    var k := |outs| - 1;
    PassedIn(outs[..k]) + (if outs[k].Passed? then [outs[k]] else [])
  }

  /** The tensors that are not experts, in the order they came. */
  function Others(arrivals: seq<Arrival>): (r: seq<Output>) {
    if arrivals == [] then [] else
    var k := |arrivals| - 1;
    Others(arrivals[..k]) + (if arrivals[k].name.Plain? then [Passed(arrivals[k].name, arrivals[k].data)] else [])
  }

  lemma InOne(outs: seq<Output>, o: Output, b: nat)
    ensures StacksIn(outs + [o], b) == StacksIn(outs, b) + (if o.Stacked? && o.bid == b then [o] else [])
    ensures PassedIn(outs + [o]) == PassedIn(outs) + (if o.Passed? then [o] else [])
  {
    assert (outs + [o])[..|outs|] == outs;
  }

  /** A block's stacks, appended, show up for that block alone. */
  lemma InStacks(outs: seq<Output>, more: seq<Output>, bid: nat, b: nat)
    requires |more| == 3 && forall i :: 0 <= i < 3 ==> more[i].Stacked? && more[i].bid == bid
    ensures StacksIn(outs + more, b) == StacksIn(outs, b) + (if b == bid then more else [])
    ensures PassedIn(outs + more) == PassedIn(outs)
  {
    hide StacksIn, PassedIn;
    var x, y, z := more[0], more[1], more[2];
    InOne(outs, x, b);
    InOne(outs + [x], y, b);
    InOne(outs + [x] + [y], z, b);
    ThreeMore(outs, more);
    if b == bid {
      ThreeMore(StacksIn(outs, b), more);
    }
  }

  lemma ThreeMore(outs: seq<Output>, more: seq<Output>)
    requires |more| == 3
    ensures outs + more == outs + [more[0]] + [more[1]] + [more[2]]
  {
  }

  predicate BuffersHold(s: Buffers, arrivals: seq<Arrival>, n: nat, blocks: nat) {
    match s
    case None => forall b: nat :: b < blocks ==> Arrived(arrivals, b) == map[]
    case Some(bufs) => |bufs| == blocks && forall b: nat :: b < blocks ==>
      bufs[b] == Waiting(Arrived(arrivals, b), b, n)
  }

  predicate OutputsHold(outs: seq<Output>, arrivals: seq<Arrival>, n: nat, b: nat, shapeOf: (nat, Proj) -> Shape)
    requires n > 0 && Fits(Arrived(arrivals, b), b, n, shapeOf)
  {
    StacksIn(outs, b) == Emitted(Arrived(arrivals, b), b, n, shapeOf) && PassedIn(outs) == Others(arrivals)
  }

  lemma OthersNext(arrivals: seq<Arrival>, outs: seq<Output>)
    requires arrivals != [] && arrivals[|arrivals| - 1].name.Plain?
             && PassedIn(outs) == Others(arrivals[..|arrivals| - 1])
    ensures var a := arrivals[|arrivals| - 1];
            PassedIn(outs + [Passed(a.name, a.data)]) == Others(arrivals)
  {
    InOne(outs, Passed(arrivals[|arrivals| - 1].name, arrivals[|arrivals| - 1].data), 0);
  }

  /** The invariant of a run: after any arrivals, every buffer holds just what its unfinished block has received. */
  lemma {:induction false} RunBuffers(n: nat, blocks: nat, shapeOf: (nat, Proj) -> Shape, arrivals: seq<Arrival>)
    requires n > 0 && Proper(arrivals, n, blocks, shapeOf) && DistinctExperts(arrivals)
    ensures Run(n, blocks, arrivals).Ok? && BuffersHold(Run(n, blocks, arrivals).value.0, arrivals, n, blocks)
  {
    if arrivals != [] {
      var k := |arrivals| - 1;
      RunBuffers(n, blocks, shapeOf, arrivals[..k]);
      var (s, outs) := Run(n, blocks, arrivals[..k]).value;
      if !arrivals[k].name.Plain? {
        StepExpert(n, blocks, shapeOf, arrivals, s);
      }
    }
  }

  /** One expert weight: the block's buffer gains it, or, when it completes the block, the stacks leave. */
  lemma {:induction false} StepExpert(n: nat, blocks: nat, shapeOf: (nat, Proj) -> Shape, arrivals: seq<Arrival>,
                                      s: Buffers)
    requires n > 0 && Proper(arrivals, n, blocks, shapeOf) && DistinctExperts(arrivals) && arrivals != []
    requires !arrivals[|arrivals| - 1].name.Plain? && BuffersHold(s, arrivals[..|arrivals| - 1], n, blocks)
    ensures var a := arrivals[|arrivals| - 1];
            var b := a.name.bid;
            && Fits(Arrived(arrivals, b), b, n, shapeOf)
            && Step(n, blocks, s, a).Ok?
            && Step(n, blocks, s, a).value.1 == Emitted(Arrived(arrivals, b), b, n, shapeOf)
            && BuffersHold(Step(n, blocks, s, a).value.0, arrivals, n, blocks)
  {
    hide Emit, Full, Fits, Emitted, Arrived;
    var k := |arrivals| - 1;
    var a := arrivals[k];
    var b := a.name.bid;
    NewIsMissing(arrivals, n, blocks, shapeOf);
    ArrivedFits(arrivals, b, n, blocks, shapeOf);
    ArrivedNext(arrivals, b);
    var buf := Arrived(arrivals, b);
    FullByCount(buf, b, n, shapeOf);
    if Full(buf, b, n) {
      EmitFull(n, b, buf, shapeOf);
    } else {
      EmittedNone(buf, b, n, shapeOf);
    }
    hide Step, Proper, DistinctExperts;
    BuffersNext(n, blocks, arrivals, s, BuffersOf(s, blocks)[b := Waiting(buf, b, n)]);
  }

  function BuffersOf(s: Buffers, blocks: nat): (buffers: seq<Buffer>) {
    if s.None? then NoExperts(blocks) else s.value
  }

  lemma ArrivedNext(arrivals: seq<Arrival>, b: nat)
    requires arrivals != []
    ensures var a, before := arrivals[|arrivals| - 1], Arrived(arrivals[..|arrivals| - 1], b);
            Arrived(arrivals, b) == if !a.name.Plain? && a.bid == Some(b) then before[a.name := a.data] else before
  {
  }

  lemma BuffersNext(n: nat, blocks: nat, arrivals: seq<Arrival>, s: Buffers, bufs: seq<Buffer>)
    requires arrivals != [] && BuffersHold(s, arrivals[..|arrivals| - 1], n, blocks)
    requires var a := arrivals[|arrivals| - 1];
             && a.name.Weight? && a.bid == Some(a.name.bid) && a.name.bid < blocks && |BuffersOf(s, blocks)| == blocks
             && bufs == BuffersOf(s, blocks)[a.name.bid := Waiting(Arrived(arrivals, a.name.bid), a.name.bid, n)]
    ensures BuffersHold(Some(bufs), arrivals, n, blocks)
  {
    hide Arrived, Full;
    forall b: nat | b < blocks ensures bufs[b] == Waiting(Arrived(arrivals, b), b, n) {
      ArrivedNext(arrivals, b);
    }
  }

  lemma EmittedNone(buf: Buffer, bid: nat, n: nat, shapeOf: (nat, Proj) -> Shape)
    requires n > 0 && Fits(buf, bid, n, shapeOf) && !Full(buf, bid, n)
    ensures Emitted(buf, bid, n, shapeOf) == []
  {
  }

  /** Whatever the order of arrival, a block has emitted its three stacks, each once and in expert order, if all
      its weights have arrived and nothing otherwise; other tensors pass through in order. */
  lemma {:induction false} RunOutputs(n: nat, blocks: nat, shapeOf: (nat, Proj) -> Shape, arrivals: seq<Arrival>,
                                      b: nat)
    requires n > 0 && Proper(arrivals, n, blocks, shapeOf) && DistinctExperts(arrivals) && b < blocks
    ensures Run(n, blocks, arrivals).Ok? && Fits(Arrived(arrivals, b), b, n, shapeOf)
    ensures OutputsHold(Run(n, blocks, arrivals).value.1, arrivals, n, b, shapeOf)
  {
    hide Fits, Full, Emit, Step, Emitted, BuffersHold;
    RunBuffers(n, blocks, shapeOf, arrivals);
    ArrivedFits(arrivals, b, n, blocks, shapeOf);
    if arrivals == [] {
      NothingYet(n, b, shapeOf);
    } else {
      var k := |arrivals| - 1;
      RunOutputs(n, blocks, shapeOf, arrivals[..k], b);
      RunBuffers(n, blocks, shapeOf, arrivals[..k]);
      OutputsNext(n, blocks, shapeOf, arrivals, b);
    }
  }

  lemma OutputsNext(n: nat, blocks: nat, shapeOf: (nat, Proj) -> Shape, arrivals: seq<Arrival>, b: nat)
    requires n > 0 && Proper(arrivals, n, blocks, shapeOf) && DistinctExperts(arrivals) && b < blocks && arrivals != []
    requires var before := arrivals[..|arrivals| - 1];
             && Run(n, blocks, before).Ok? && BuffersHold(Run(n, blocks, before).value.0, before, n, blocks)
             && Fits(Arrived(before, b), b, n, shapeOf)
             && OutputsHold(Run(n, blocks, before).value.1, before, n, b, shapeOf)
    requires Run(n, blocks, arrivals).Ok? && Fits(Arrived(arrivals, b), b, n, shapeOf)
    ensures OutputsHold(Run(n, blocks, arrivals).value.1, arrivals, n, b, shapeOf)
  {
    hide Fits, Emit, BuffersHold, StacksIn, PassedIn, Full, Arrived;
    var k := |arrivals| - 1;
    var a := arrivals[k];
    var (s, outs) := Run(n, blocks, arrivals[..k]).value;
    ArrivedNext(arrivals, b);
    if a.name.Plain? {
      OthersNext(arrivals, outs);
      InOne(outs, Passed(a.name, a.data), b);
    } else {
      hide Step;
      StepExpert(n, blocks, shapeOf, arrivals, s);
      NewIsMissing(arrivals, n, blocks, shapeOf);
      hide Proper, DistinctExperts, Run;
      OutputsExpert(n, shapeOf, arrivals, outs, Emitted(Arrived(arrivals, a.name.bid), a.name.bid, n, shapeOf), b);
    }
  }

  lemma OutputsExpert(n: nat, shapeOf: (nat, Proj) -> Shape, arrivals: seq<Arrival>, outs: seq<Output>,
                      more: seq<Output>, b: nat)
    requires arrivals != [] && n > 0
    requires var before, a := arrivals[..|arrivals| - 1], arrivals[|arrivals| - 1];
             && a.name.Weight? && a.bid == Some(a.name.bid) && !Full(Arrived(before, a.name.bid), a.name.bid, n)
             && Fits(Arrived(before, b), b, n, shapeOf) && OutputsHold(outs, before, n, b, shapeOf)
             && Fits(Arrived(arrivals, a.name.bid), a.name.bid, n, shapeOf)
             && more == Emitted(Arrived(arrivals, a.name.bid), a.name.bid, n, shapeOf)
    requires Fits(Arrived(arrivals, b), b, n, shapeOf)
    ensures OutputsHold(outs + more, arrivals, n, b, shapeOf)
  {
    hide Fits, StacksIn, PassedIn, Full, Arrived;
    var a := arrivals[|arrivals| - 1];
    ArrivedNext(arrivals, b);
    if more == [] {
      assert outs + more == outs;
    } else {
      InStacks(outs, more, a.name.bid, b);
    }
    if a.name.bid == b {
      assert StacksIn(outs, b) == [];
      assert [] + more == more;
    }
  }

  lemma NothingYet(n: nat, b: nat, shapeOf: (nat, Proj) -> Shape)
    requires n > 0
    ensures Fits(map[], b, n, shapeOf) && Emitted(map[], b, n, shapeOf) == []
  {
    var none: Buffer := map[];
    assert Weight(b, 0, Down) !in none;
  }

  /** The weights that arrived for blocks that are not complete. */
  function Stranded(arrivals: seq<Arrival>, n: nat, blocks: nat): (names: set<Name>) {
    set b, k | 0 <= b < blocks && k in Waiting(Arrived(arrivals, b), b, n) :: k
  }

  predicate AllOrNothing(arrivals: seq<Arrival>, n: nat, blocks: nat) {
    forall b: nat :: b < blocks ==> Arrived(arrivals, b) == map[] || Full(Arrived(arrivals, b), b, n)
  }

  /** The conversion succeeds exactly when every block received all of its weights or none of them; otherwise the
      error names just the weights of the incomplete blocks. */
  lemma FinishIff(n: nat, blocks: nat, shapeOf: (nat, Proj) -> Shape, arrivals: seq<Arrival>)
    requires n > 0 && Proper(arrivals, n, blocks, shapeOf) && DistinctExperts(arrivals)
    ensures Finish(n, blocks, arrivals).Ok? <==> AllOrNothing(arrivals, n, blocks)
    ensures Finish(n, blocks, arrivals).Err?
            ==> Finish(n, blocks, arrivals) == Err(Unprocessed(Stranded(arrivals, n, blocks)))
  {
    RunBuffers(n, blocks, shapeOf, arrivals);
    var s := Run(n, blocks, arrivals).value.0;
    LeftoverIs(s, arrivals, n, blocks);
    StrandedIff(arrivals, n, blocks);
  }

  lemma LeftoverIs(s: Buffers, arrivals: seq<Arrival>, n: nat, blocks: nat)
    requires BuffersHold(s, arrivals, n, blocks)
    ensures Leftover(s) == Stranded(arrivals, n, blocks)
  {
    hide Full;
  }

  lemma StrandedIff(arrivals: seq<Arrival>, n: nat, blocks: nat)
    ensures Stranded(arrivals, n, blocks) == {} <==> AllOrNothing(arrivals, n, blocks)
  {
    hide Full;
    forall b: nat | b < blocks && Arrived(arrivals, b) != map[] && !Full(Arrived(arrivals, b), b, n)
      ensures Stranded(arrivals, n, blocks) != {}
    {
      var k :| k in Arrived(arrivals, b);
      assert k in Waiting(Arrived(arrivals, b), b, n);
      assert k in Stranded(arrivals, n, blocks);
    }
  }

  /** A complete checkpoint, in any order, interleaved across blocks: nothing is lost, nothing is left. */
  lemma NothingIsLost(n: nat, blocks: nat, shapeOf: (nat, Proj) -> Shape, arrivals: seq<Arrival>, b: nat)
    requires n > 0 && Proper(arrivals, n, blocks, shapeOf) && DistinctExperts(arrivals) && b < blocks
    requires forall c: nat :: c < blocks ==> Full(Arrived(arrivals, c), c, n)
    ensures Finish(n, blocks, arrivals).Ok?
    ensures forall p :: Has(Arrived(arrivals, b), b, n, p) && SameShapes(Datas(Arrived(arrivals, b), b, n, p))
    ensures var outs, buf := Finish(n, blocks, arrivals).value, Arrived(arrivals, b);
            && StacksIn(outs, b) == [StackFor(buf, b, n, Down), StackFor(buf, b, n, Gate), StackFor(buf, b, n, Up)]
            && PassedIn(outs) == Others(arrivals)
  {
    hide Full, SameShapes, Fits;
    FinishIff(n, blocks, shapeOf, arrivals);
    RunOutputs(n, blocks, shapeOf, arrivals, b);
    FullHas(Arrived(arrivals, b), b, n, shapeOf);
  }

  lemma FullHas(buf: Buffer, b: nat, n: nat, shapeOf: (nat, Proj) -> Shape)
    requires n > 0 && Fits(buf, b, n, shapeOf) && Full(buf, b, n)
    ensures forall p :: Has(buf, b, n, p) && SameShapes(Datas(buf, b, n, p))
  {
    forall p ensures Has(buf, b, n, p) && SameShapes(Datas(buf, b, n, p)) {
      match p { case Down => case Gate => case Up => }
      ShapesAgree(buf, b, n, p, shapeOf);
    }
  }

  /** What arrived for a block is what its arrivals carried. */
  lemma {:induction false} ArrivedHolds(arrivals: seq<Arrival>, n: nat, blocks: nat, shapeOf: (nat, Proj) -> Shape,
                                        i: nat)
    requires Proper(arrivals, n, blocks, shapeOf) && DistinctExperts(arrivals) && i < |arrivals|
             && !arrivals[i].name.Plain?
    ensures var a := arrivals[i];
            a.name in Arrived(arrivals, a.name.bid) && Arrived(arrivals, a.name.bid)[a.name] == a.data
  {
    var k := |arrivals| - 1;
    if i < k {
      ArrivedHolds(arrivals[..k], n, blocks, shapeOf, i);
      assert arrivals[k].name != arrivals[i].name;
    }
  }

  lemma ArrivedWithin(a1: seq<Arrival>, a2: seq<Arrival>, n: nat, blocks: nat, shapeOf: (nat, Proj) -> Shape, b: nat,
                      name: Name)
    requires Proper(a1, n, blocks, shapeOf) && DistinctExperts(a1)
    requires Proper(a2, n, blocks, shapeOf) && DistinctExperts(a2)
    requires forall a :: a in a1 ==> a in a2
    requires name in Arrived(a1, b)
    ensures name in Arrived(a2, b) && Arrived(a2, b)[name] == Arrived(a1, b)[name]
  {
    var i := ArrivedNamed(a1, b, name);
    ArrivedFits(a1, b, n, blocks, shapeOf);
    ArrivedHolds(a1, n, blocks, shapeOf, i);
    assert a1[i] in a2;
    var j :| 0 <= j < |a2| && a2[j] == a1[i];
    ArrivedHolds(a2, n, blocks, shapeOf, j);
  }

  lemma ArrivedSame(a1: seq<Arrival>, a2: seq<Arrival>, n: nat, blocks: nat, shapeOf: (nat, Proj) -> Shape, b: nat)
    requires Proper(a1, n, blocks, shapeOf) && DistinctExperts(a1)
    requires Proper(a2, n, blocks, shapeOf) && DistinctExperts(a2) && forall a :: a in a1 <==> a in a2
    ensures Arrived(a1, b) == Arrived(a2, b)
  {
    hide Proper, DistinctExperts, Arrived;
    forall name | name in Arrived(a1, b)
      ensures name in Arrived(a2, b) && Arrived(a2, b)[name] == Arrived(a1, b)[name] {
      ArrivedWithin(a1, a2, n, blocks, shapeOf, b, name);
    }
    forall name | name in Arrived(a2, b) ensures name in Arrived(a1, b) {
      ArrivedWithin(a2, a1, n, blocks, shapeOf, b, name);
    }
  }

  /** Two orders of the same arrivals give every block the same stacks and end alike. */
  lemma OrderDoesNotMatter(a1: seq<Arrival>, a2: seq<Arrival>, n: nat, blocks: nat, shapeOf: (nat, Proj) -> Shape,
                           b: nat)
    requires n > 0 && Proper(a1, n, blocks, shapeOf) && DistinctExperts(a1) && b < blocks
    requires Proper(a2, n, blocks, shapeOf) && DistinctExperts(a2) && forall a :: a in a1 <==> a in a2
    ensures Run(n, blocks, a1).Ok? && Run(n, blocks, a2).Ok?
    ensures StacksIn(Run(n, blocks, a1).value.1, b) == StacksIn(Run(n, blocks, a2).value.1, b)
    ensures Finish(n, blocks, a1).Ok? <==> Finish(n, blocks, a2).Ok?
    ensures Finish(n, blocks, a1).Err? ==> Finish(n, blocks, a1) == Finish(n, blocks, a2)
  {
    hide Proper, DistinctExperts, Run, Finish, Full, Fits, Emitted, StacksIn, PassedIn, Others, Arrived;
    RunOutputs(n, blocks, shapeOf, a1, b);
    RunOutputs(n, blocks, shapeOf, a2, b);
    FinishIff(n, blocks, shapeOf, a1);
    FinishIff(n, blocks, shapeOf, a2);
    forall c: nat ensures Arrived(a1, c) == Arrived(a2, c) {
      ArrivedSame(a1, a2, n, blocks, shapeOf, c);
    }
    assert Stranded(a1, n, blocks) == Stranded(a2, n, blocks);
  }

  // ---------- Names that are not expected

  /** A weight of an expert of block b. */
  predicate IsOwn(name: Name, b: nat, n: nat) {
    name.Weight? && name.bid == b && name.xid < n
  }

  lemma {:induction false} EmitKeeps(n: nat, bid: nat, buf: Buffer, projs: seq<Proj>, name: Name)
    requires Emit(n, bid, buf, projs).Ok? && name in buf && !IsOwn(name, bid, n)
    ensures name in Emit(n, bid, buf, projs).value.0
  {
    hide Taken, SameShapes, Stack;
    if projs != [] {
      EmitKeeps(n, bid, buf, projs[..|projs| - 1], name);
    }
  }

  predicate IsKept(s: Buffers, a: Arrival, n: nat, blocks: nat) {
    a.name.Plain? || (s.Some? && |s.value| == blocks && a.bid.Some? && a.bid.value < blocks
                      && (IsOwn(a.name, a.bid.value, n) || a.name in s.value[a.bid.value]))
  }

  lemma StepKeeps(n: nat, blocks: nat, s: Buffers, a: Arrival, earlier: Arrival)
    requires Step(n, blocks, s, a).Ok? && (s.Some? ==> |s.value| == blocks)
    requires earlier == a || IsKept(s, earlier, n, blocks)
    ensures IsKept(Step(n, blocks, s, a).value.0, earlier, n, blocks)
    ensures var s' := Step(n, blocks, s, a).value.0; s'.Some? ==> |s'.value| == blocks
  {
    hide Emit;
    if !a.name.Plain? && !earlier.name.Plain? && earlier.bid == a.bid && !IsOwn(earlier.name, a.bid.value, n) {
      var b := a.bid.value;
      var buf := (if s.None? then NoExperts(blocks) else s.value)[b][a.name := a.data];
      if |buf| >= n * 3 {
        EmitKeeps(n, b, buf, PROJS, earlier.name);
      }
    }
  }

  lemma {:induction false} RunKeeps(n: nat, blocks: nat, arrivals: seq<Arrival>)
    requires Run(n, blocks, arrivals).Ok?
    ensures var s := Run(n, blocks, arrivals).value.0;
            && (s.Some? ==> |s.value| == blocks)
            && forall i :: 0 <= i < |arrivals| ==> IsKept(s, arrivals[i], n, blocks)
  {
    hide Step, IsKept;
    if arrivals != [] {
      var k := |arrivals| - 1;
      RunKeeps(n, blocks, arrivals[..k]);
      forall i | 0 <= i < |arrivals|
        ensures var s := Run(n, blocks, arrivals).value.0;
                (s.Some? ==> |s.value| == blocks) && IsKept(s, arrivals[i], n, blocks)
      {
        StepKeeps(n, blocks, Run(n, blocks, arrivals[..k]).value.0, arrivals[k], arrivals[i]);
      }
    }
  }

  /** A conversion that ends well had no expert tensor but weights of its experts, each with its own block's number,
      and that block is one of the model's: any other name is refused at once or reported at the end. */
  lemma SuccessMeansOwn(n: nat, blocks: nat, arrivals: seq<Arrival>)
    requires Finish(n, blocks, arrivals).Ok?
    ensures forall i :: 0 <= i < |arrivals| && !arrivals[i].name.Plain? ==>
              arrivals[i].bid.Some? && arrivals[i].bid.value < blocks
              && IsOwn(arrivals[i].name, arrivals[i].bid.value, n)
  {
    RunKeeps(n, blocks, arrivals);
    var s := Run(n, blocks, arrivals).value.0;
    forall i | 0 <= i < |arrivals| && !arrivals[i].name.Plain?
      ensures arrivals[i].bid.Some? && arrivals[i].bid.value < blocks
              && IsOwn(arrivals[i].name, arrivals[i].bid.value, n)
    {
      assert IsKept(s, arrivals[i], n, blocks);
      assert arrivals[i].name !in Leftover(s);
    }
  }

  /** A block none of whose weights arrive is not noticed: two blocks of one expert, and only the first arrives. */
  lemma MissingBlockUnnoticed(d: Tensor)
    ensures var arrivals := [Arrival(Weight(0, 0, Up), Some(0), d), Arrival(Weight(0, 0, Down), Some(0), d),
                             Arrival(Weight(0, 0, Gate), Some(0), d)];
            Arrived(arrivals, 1) == map[] && Finish(1, 2, arrivals).Ok?
  {
    hide Finish, Arrived;
    var a, b := Arrival(Weight(0, 0, Up), Some(0), d), Arrival(Weight(0, 0, Down), Some(0), d);
    var c := Arrival(Weight(0, 0, Gate), Some(0), d);
    var arrivals := [a, b, c];
    assert arrivals[..2] == [a, b] && [a, b][..1] == [a] && [a][..0] == [];
    forall k: nat ensures Arrived(arrivals, k) == if k == 0 then map[a.name := d, b.name := d, c.name := d] else map[] {
      ArrivedNone(k);
      ArrivedNext([a], k);
      ArrivedNext([a, b], k);
      ArrivedNext(arrivals, k);
    }
    assert Full(Arrived(arrivals, 0), 0, 1);
    FinishIff(1, 2, (_, _) => d.shape, arrivals);
  }

  lemma ArrivedNone(k: nat)
    ensures Arrived([], k) == map[]
  {
  }
}
