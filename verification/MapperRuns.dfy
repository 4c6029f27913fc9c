/** What holds over whole runs of the tool-call mapper. */
module MapperRuns {
  import opened Wrappers
  import opened Json
  import opened Quotes
  import opened Mapper

  // ---------- What every node keeps

  /** A pending call is the current one, has no name and no arguments; a listed current call is the last. */
  predicate Consistent(s: State) {
    && (s.pending.Some? ==> s.current == PendingCall && s.pending.value.name == "" && s.pending.value.arguments == "")
    && (s.current.ListedCall? ==> s.current.index == |s.calls| - 1)
  }

  lemma NextConsistent(s: State, node: Node)
    requires Consistent(s) && Mappable(s, node)
    ensures Consistent(Next(s, node))
  {
    hide NextInCall;
    if !(node.tag in {Reasoning, Content, ToolOpen, ArgOpen, OtherTag}) && s.current != NoCall {
      NextInCallConsistent(s, node);
    }
  }

  lemma NextInCallConsistent(s: State, node: Node)
    requires Consistent(s) && Live(s) && s.current != NoCall
    ensures Consistent(NextInCall(s, node))
  {
    hide TrimEnd, TrimName, TrimValue, Dump, JsonTokens, NetBraces, Repeat, ValuePiece;
    if node.tag == ToolName {
    } else if node.tag == ToolClose {
    } else {
      hide Named, Closed;
    }
  }

  lemma {:induction false} RunConsistent(s: State, nodes: seq<Node>)
    requires Consistent(s) && Safe(s, nodes)
    ensures Consistent(RunNodes(s, nodes))
    decreases |nodes|
  {
    if nodes != [] {
      NextConsistent(s, nodes[0]);
      RunConsistent(Next(s, nodes[0]), nodes[1..]);
    }
  }

  /** No pending call is ever named, so the flush at the end of a run never has anything to list. */
  lemma PendingIsNeverNamed(nodes: seq<Node>)
    requires Safe(INITIAL, nodes)
    ensures var r := RunNodes(INITIAL, nodes);
            (r.pending.Some? ==> r.pending.value.name == "") && Flushed(r) == r
  {
    RunConsistent(INITIAL, nodes);
  }

  // ---------- Which calls a run lists

  /** The last name among the nodes before the next opening. */
  function LastName(nodes: seq<Node>): (name: Option<string>) {
    if nodes == [] || nodes[0].tag == ToolOpen then None
    else
      var later := LastName(nodes[1..]);
      if later.Some? then later
      else if nodes[0].tag == ToolName then Some(TrimEnd(nodes[0].text)) else None
  }

  /** For every opening that sees a name before the next one, the last such name. */
  function NamesGiven(nodes: seq<Node>): (names: seq<string>) {
    if nodes == [] then []
    else
      var later := NamesGiven(nodes[1..]);
      if nodes[0].tag == ToolOpen && LastName(nodes[1..]).Some? then [LastName(nodes[1..]).value] + later else later
  }

  function Names(calls: seq<ToolCall>): (names: seq<string>)
    ensures |names| == |calls|
    ensures forall i :: 0 <= i < |calls| ==> names[i] == calls[i].name
  {
    seq(|calls|, i requires 0 <= i < |calls| => calls[i].name)
  }

  /** The names a state will have listed when the current call takes the given name. */
  ghost function NamesWith(s: State, name: Option<string>): (names: seq<string>)
    requires Consistent(s)
  {
    if name.None? || s.current == NoCall then Names(s.calls)
    else if s.pending.Some? then Names(s.calls) + [name.value]
    else if s.current.ListedCall? then Names(s.calls)[..|s.calls| - 1] + [name.value]
    else Names(s.calls)
  }

  /** Exactly the openings that see a name give a call, in order, under the last name they see. */
  lemma ListedNames(nodes: seq<Node>)
    requires Safe(INITIAL, nodes)
    ensures Names(RunNodes(INITIAL, nodes).calls) == NamesGiven(nodes)
  {
    ListedNamesFrom(INITIAL, nodes);
    assert Names(INITIAL.calls) == [];
  }

  lemma {:induction false} ListedNamesFrom(s: State, nodes: seq<Node>)
    requires Consistent(s) && Safe(s, nodes)
    ensures Names(RunNodes(s, nodes).calls) == NamesWith(s, LastName(nodes)) + NamesGiven(nodes)
    decreases |nodes|
  {
    if nodes != [] {
      var s' := Next(s, nodes[0]);
      NextConsistent(s, nodes[0]);
      ListedNamesFrom(s', nodes[1..]);
      if !Live(s') {
        DeadNamesNothing(s', nodes[1..]);
      }
      NamesAfter(s, nodes[0], LastName(nodes[1..]), LastName(nodes));
    }
  }

  /** A safe run names nothing after a dropped call, until the next opening. */
  lemma {:induction false} DeadNamesNothing(s: State, nodes: seq<Node>)
    requires !Live(s) && Safe(s, nodes)
    ensures LastName(nodes) == None
    decreases |nodes|
  {
    if nodes != [] && nodes[0].tag != ToolOpen {
      DeadNamesNothing(Next(s, nodes[0]), nodes[1..]);
    }
  }

  /** What one node does to the names listed so far. */
  lemma NamesAfter(s: State, node: Node, later: Option<string>, all: Option<string>)
    requires Consistent(s) && Mappable(s, node) && Consistent(Next(s, node))
    requires Live(Next(s, node)) || later == None
    requires all == if node.tag == ToolOpen then None else if later.Some? then later
                    else if node.tag == ToolName then Some(TrimEnd(node.text)) else None
    ensures NamesWith(Next(s, node), later) ==
            NamesWith(s, all) + if node.tag == ToolOpen && later.Some? then [later.value] else []
  {
    hide TrimEnd, NextInCall;
    if node.tag == ToolName && s.current != NoCall {
      NameListsCall(s, node);
    } else if node.tag == ToolClose && s.current != NoCall {
      CloseListsNothing(s, node);
    } else if s.current != NoCall && !(node.tag in {Reasoning, Content, ToolOpen, ArgOpen, OtherTag}) {
      OthersListNothing(s, node);
    }
  }

  lemma NameListsCall(s: State, node: Node)
    requires Consistent(s) && Live(s) && s.current != NoCall && node.tag == ToolName
    ensures var r := Next(s, node);
            r.current.ListedCall? && r.pending == None && Names(r.calls) == NamesWith(s, Some(TrimEnd(node.text)))
  {
    hide TrimEnd;
  }

  lemma CloseListsNothing(s: State, node: Node)
    requires Consistent(s) && Live(s) && s.current != NoCall && node.tag == ToolClose
    ensures var r := Next(s, node);
            Names(r.calls) == Names(s.calls) && r.pending == None && r.current == s.current
  {
    hide JsonTokens, NetBraces, Repeat;
  }

  lemma OthersListNothing(s: State, node: Node)
    requires Consistent(s) && Live(s) && s.current != NoCall
    requires node.tag in {ToolId, ToolArgs, ArgName, ArgValue, ArgStringValue, ArgClose}
    ensures var r := Next(s, node);
            Names(r.calls) == Names(s.calls) && (r.pending.Some? <==> s.pending.Some?) && r.current == s.current
  {
    hide TrimEnd, TrimName, TrimValue, Dump, ValuePiece;
  }

  // ---------- Where the name falls among the argument nodes

  predicate IsArgNode(node: Node) {
    node.tag in {ToolId, ToolArgs, ArgOpen, ArgName, ArgValue, ArgStringValue, ArgClose}
  }

  // ---------- Where arguments go

  /** Arguments have one place at a time: what is put there is what is read, and the last text put there stays. Until
      the call has a name the place is the buffer; afterwards it is the call's own text, and the buffer is not read. */
  lemma ArgsTargetLaws(s: State, text: string, later: string)
    requires Live(s)
    ensures var r := WithArgs(s, text);
            Args(r) == text && WithArgs(s, Args(s)) == s && WithArgs(r, later) == WithArgs(s, later)
    ensures s.current == NoCall || Current(s).name == "" ==> WithArgs(s, text) == s.(argsBuffer := text)
    ensures s.current != NoCall && Current(s).name != "" ==>
              WithArgs(s, text) == WithCurrent(s, Current(s).(arguments := text))
              && Args(s.(argsBuffer := later)) == Args(s)
  {
  }

  predicate WritesArgs(node: Node) {
    IsArgNode(node) && node.tag != ToolId
  }

  /** The state with other arguments, number of arguments and open quote. */
  function WithWritten(s: State, text: string, count: nat, quote: bool): (r: State)
    requires Live(s)
    ensures Live(r) && r.current == s.current
  {
    WithArgs(s.(argCount := count, closingQuotePending := quote), text)
  }

  lemma NodeWritesArgs(s: State, node: Node)
    requires Live(s) && s.current != NoCall && WritesArgs(node)
    ensures var r := Next(s, node);
            Live(r) && r == WithWritten(s, Args(r), r.argCount, r.closingQuotePending)
  {
    hide TrimEnd, TrimName, TrimValue, Dump, ValuePiece;
  }

  /** A run of argument nodes of any length writes in one place: the buffer if the call has no name, and otherwise the
      arguments of that call. Every other call and field is left as it was, the name and the id of the call too. */
  lemma {:induction false} RunWritesArgs(s: State, nodes: seq<Node>)
    requires Live(s) && s.current != NoCall && forall i :: 0 <= i < |nodes| ==> WritesArgs(nodes[i])
    ensures Safe(s, nodes)
    ensures var r := RunNodes(s, nodes);
            Live(r) && r == WithWritten(s, Args(r), r.argCount, r.closingQuotePending)
    decreases |nodes|
  {
    hide Next, WritesArgs;
    if nodes != [] {
      assert WritesArgs(nodes[0]);
      NodeWritesArgs(s, nodes[0]);
      RunWritesArgs(Next(s, nodes[0]), nodes[1..]);
    }
  }

  /** Argument nodes in which no value comes before the first argument name. */
  predicate InOrder(nodes: seq<Node>, named: bool) {
    nodes == [] ||
    (IsArgNode(nodes[0])
     && (nodes[0].tag in {ArgValue, ArgStringValue} ==> named)
     && InOrder(nodes[1..], named || nodes[0].tag == ArgName))
  }

  /** A call is open, has no name yet, and what it was given so far is in the buffer. */
  predicate Unnamed(s: State) {
    Consistent(s) && s.pending.Some? && (s.closingQuotePending ==> s.argsBuffer != "")
  }

  lemma UnnamedLive(s: State, node: Node, name: string)
    requires Unnamed(s)
    ensures Mappable(s, node) && Live(s) && s.current != NoCall && Live(Named(s, name))
  {
  }

  lemma StaysUnnamed(s: State, node: Node)
    requires Unnamed(s) && IsArgNode(node) && (node.tag in {ArgValue, ArgStringValue} ==> s.argsBuffer != "")
    ensures Unnamed(Next(s, node))
    ensures s.argsBuffer != "" || node.tag == ArgName ==> Next(s, node).argsBuffer != ""
  {
    hide TrimEnd, TrimName, TrimValue, Dump, ValuePiece, Closed, Named;
  }

  /** Naming a call before or after an argument node makes no difference. */
  lemma NameCommutes(s: State, node: Node, name: string)
    requires Unnamed(s) && name != "" && IsArgNode(node)
    requires node.tag in {ArgValue, ArgStringValue} ==> s.argsBuffer != ""
    ensures Unnamed(Next(s, node))
    ensures s.argsBuffer != "" || node.tag == ArgName ==> Next(s, node).argsBuffer != ""
    ensures Live(Named(s, name)) && Next(Named(s, name), node) == Named(Next(s, node), name)
  {
    StaysUnnamed(s, node);
    if node.tag in {ArgName, ArgValue, ArgStringValue} {
      NameCommutesAdding(s, node, name);
    } else {
      hide TrimEnd, Closed;
    }
  }

  lemma NameCommutesAdding(s: State, node: Node, name: string)
    requires Unnamed(s) && name != "" && node.tag in {ArgName, ArgValue, ArgStringValue}
    requires node.tag in {ArgValue, ArgStringValue} ==> s.argsBuffer != ""
    ensures Live(Next(s, node)) && Next(s, node).current != NoCall && Live(Named(s, name))
    ensures Next(Named(s, name), node) == Named(Next(s, node), name)
  {
    hide TrimEnd, TrimName, TrimValue, Dump, ValuePiece, Closed;
  }


  /** The name may come anywhere among the argument nodes: naming first gives the same state. */
  lemma {:induction false} NameAnywhere(s: State, nodes: seq<Node>, name: string, named: bool)
    requires Unnamed(s) && name != "" && InOrder(nodes, named) && (named ==> s.argsBuffer != "")
    ensures Safe(s, nodes) && Unnamed(RunNodes(s, nodes)) && Live(RunNodes(s, nodes))
            && RunNodes(s, nodes).current != NoCall
    ensures Live(s) && s.current != NoCall && Safe(Named(s, name), nodes)
    ensures RunNodes(Named(s, name), nodes) == Named(RunNodes(s, nodes), name)
    decreases |nodes|
  {
    hide TrimEnd, Named, Next, Unnamed, Live;
    if nodes == [] {
      UnnamedLive(s, Node(OtherTag, ""), name);
    } else {
      var node := nodes[0];
      UnnamedLive(s, node, name);
      NameCommutes(s, node, name);
      NameAnywhere(Next(s, node), nodes[1..], name, named || node.tag == ArgName);
    }
  }

  lemma {:induction false} RunNodesAppend(s: State, a: seq<Node>, b: seq<Node>)
    requires Safe(s, a) && Safe(RunNodes(s, a), b)
    ensures Safe(s, a + b) && RunNodes(s, a + b) == RunNodes(RunNodes(s, a), b)
    decreases |a|
  {
    hide Next;
    if a == [] {
      assert a + b == b;
    } else {
      assert (a + b)[0] == a[0] && (a + b)[1..] == a[1..] + b;
      RunNodesAppend(Next(s, a[0]), a[1..], b);
    }
  }

  /** A run of argument nodes with the name in front. */
  function NameFirst(name: Node, a: seq<Node>, b: seq<Node>): (run: seq<Node>) {
    [name] + (a + b)
  }

  /** The finished state is the same wherever the name stands among the argument nodes. */
  lemma NamePosition(s: State, name: Node, a: seq<Node>, b: seq<Node>)
    requires Unnamed(s) && s.argsBuffer == "" && name.tag == ToolName && TrimEnd(name.text) != ""
    requires InOrder(a + b, false)
    ensures Safe(s, a + [name] + b) && Safe(s, NameFirst(name, a, b))
    ensures RunNodes(s, a + [name] + b) == RunNodes(s, NameFirst(name, a, b))
  {
    hide TrimEnd, Named, Unnamed;
    var n := TrimEnd(name.text);
    UnnamedLive(s, name, n);
    InOrderSplit(a, b, false);
    NameAnywhere(s, a, n, false);
    NameAnywhere(s, a + b, n, false);
    var u := RunNodes(s, a);
    UnnamedLive(u, name, n);
    OneNode(u, name);
    OneNode(s, name);
    assert Next(u, name) == Named(u, n) && Next(s, name) == Named(s, n);
    SafeSplit(Named(s, n), a, b);
    assert Safe(RunNodes(u, [name]), b);
    RunNodesAppend(s, a, [name]);
    RunNodesAppend(s, a + [name], b);
    RunNodesAppend(Named(s, n), a, b);
    RunNodesAppend(s, [name], a + b);
  }

  lemma OneNode(s: State, node: Node)
    requires Mappable(s, node)
    ensures Safe(s, [node]) && RunNodes(s, [node]) == Next(s, node)
  {
    assert [node][1..] == [];
  }

  lemma {:induction false} InOrderSplit(a: seq<Node>, b: seq<Node>, named: bool)
    requires InOrder(a + b, named)
    ensures InOrder(a, named)
  {
    if a != [] {
      assert (a + b)[0] == a[0] && (a + b)[1..] == a[1..] + b;
      InOrderSplit(a[1..], b, named || a[0].tag == ArgName);
    }
  }

  lemma {:induction false} SafeSplit(s: State, a: seq<Node>, b: seq<Node>)
    requires Safe(s, a + b)
    ensures Safe(s, a) && Safe(RunNodes(s, a), b)
    decreases |a|
  {
    hide Next;
    if a == [] {
      assert a + b == b;
    } else {
      assert (a + b)[0] == a[0] && (a + b)[1..] == a[1..] + b;
      SafeSplit(Next(s, a[0]), a[1..], b);
    }
  }
}
