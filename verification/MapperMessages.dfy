/** What whole runs of the mapper hand over: content, reasoning, the heads of the calls, and calls whose arguments come
    as one JSON text (common/chat-peg-parser.cpp). */
module MapperMessages {
  import opened Wrappers
  import opened Json
  import opened Quotes
  import opened Mapper
  import opened MapperRuns

  // ---------- Content and reasoning

  /** The texts of all nodes with the given tag, one after the other. */
  function TextsOf(nodes: seq<Node>, tag: Tag): (text: string) {
    if nodes == [] then ""
    else (if nodes[0].tag == tag then nodes[0].text else "") + TextsOf(nodes[1..], tag)
  }

  lemma OneText(s: State, node: Node)
    requires Mappable(s, node)
    ensures Next(s, node).content == s.content + if node.tag == Content then node.text else ""
    ensures Next(s, node).reasoning == s.reasoning + if node.tag == Reasoning then node.text else ""
  {
    hide TrimEnd, TrimName, TrimValue, Dump, ValuePiece, JsonTokens, NetBraces, Repeat;
  }

  lemma {:induction false} RunTexts(s: State, nodes: seq<Node>)
    requires Safe(s, nodes)
    ensures RunNodes(s, nodes).content == s.content + TextsOf(nodes, Content)
    ensures RunNodes(s, nodes).reasoning == s.reasoning + TextsOf(nodes, Reasoning)
    decreases |nodes|
  {
    hide Next;
    if nodes != [] {
      OneText(s, nodes[0]);
      RunTexts(Next(s, nodes[0]), nodes[1..]);
    }
  }

  /** A finished run has all content, in order, and all reasoning, unless there is nothing but blanks in it. */
  lemma MessageTexts(nodes: seq<Node>)
    requires Safe(INITIAL, nodes)
    ensures var r := WithoutBlankReasoning(Flushed(RunNodes(INITIAL, nodes)));
            var thoughts := TextsOf(nodes, Reasoning);
            && r.content == TextsOf(nodes, Content)
            && r.reasoning == (if exists i :: 0 <= i < |thoughts| && thoughts[i] !in {' ', '\n', '\r', '\t'}
                               then thoughts
                               else "")
  {
    hide RunNodes, TextsOf;
    RunTexts(INITIAL, nodes);
    PendingIsNeverNamed(nodes);
    var thoughts := TextsOf(nodes, Reasoning);
    assert "" + thoughts == thoughts && "" + TextsOf(nodes, Content) == TextsOf(nodes, Content);
    assert forall i :: 0 <= i < |thoughts| ==> (IsBlankChar(thoughts[i]) <==> thoughts[i] in {' ', '\n', '\r', '\t'});
  }

  // ---------- Names and ids of the calls

  /** The text of an id without the quotes around it, if there are any. */
  function Unquoted(t: string): (id: string)
    ensures t == "\"" + id + "\"" || (id == t && !(|t| >= 2 && t[0] == '"' && t[|t| - 1] == '"'))
  {
    if |t| >= 2 && t[0] == '"' && t[|t| - 1] == '"' then t[1..|t| - 1] else t
  }

  /** The last id among the nodes before the next opening. */
  function LastId(nodes: seq<Node>): (id: Option<string>) {
    if nodes == [] || nodes[0].tag == ToolOpen then None
    else
      var later := LastId(nodes[1..]);
      if later.Some? then later
      else if nodes[0].tag == ToolId then Some(Unquoted(TrimEnd(nodes[0].text))) else None
  }

  function Or(a: Option<string>, b: string): (text: string) {
    if a.Some? then a.value else b
  }

  /** For every opening that sees a name before the next one, the last such name and the last such id. */
  function HeadsGiven(nodes: seq<Node>): (heads: seq<(string, string)>) {
    if nodes == [] then []
    else
      var later := HeadsGiven(nodes[1..]);
      if nodes[0].tag == ToolOpen && LastName(nodes[1..]).Some? then
        [(LastName(nodes[1..]).value, Or(LastId(nodes[1..]), ""))] + later
      else later
  }

  function Heads(calls: seq<ToolCall>): (heads: seq<(string, string)>)
    ensures |heads| == |calls|
    ensures forall i :: 0 <= i < |calls| ==> heads[i] == (calls[i].name, calls[i].id)
  {
    seq(|calls|, i requires 0 <= i < |calls| => (calls[i].name, calls[i].id))
  }

  /** The heads a state will have listed when the current call takes the given name and id. */
  ghost function HeadsWith(s: State, name: Option<string>, id: Option<string>): (heads: seq<(string, string)>)
    requires Consistent(s)
  {
    if s.current == NoCall then Heads(s.calls)
    else if s.pending.Some? then
      Heads(s.calls) + if name.Some? then [(name.value, Or(id, s.pending.value.id))] else []
    else if s.current.ListedCall? then
      var n := |s.calls| - 1;
      Heads(s.calls)[..n] + [(Or(name, s.calls[n].name), Or(id, s.calls[n].id))]
    else Heads(s.calls)
  }

  /** The calls of a run have exactly the names and ids that were given for them, in order. */
  lemma ListedHeads(nodes: seq<Node>)
    requires Safe(INITIAL, nodes)
    ensures Heads(RunNodes(INITIAL, nodes).calls) == HeadsGiven(nodes)
  {
    ListedHeadsFrom(INITIAL, nodes);
    assert Heads(INITIAL.calls) == [];
  }

  lemma {:induction false} ListedHeadsFrom(s: State, nodes: seq<Node>)
    requires Consistent(s) && Safe(s, nodes)
    ensures Heads(RunNodes(s, nodes).calls) == HeadsWith(s, LastName(nodes), LastId(nodes)) + HeadsGiven(nodes)
    decreases |nodes|
  {
    hide Next, Consistent, Live, TrimEnd, Unquoted, Heads;
    if nodes == [] {
      NoHeads(s);
    } else {
      var s' := Next(s, nodes[0]);
      NextConsistent(s, nodes[0]);
      ListedHeadsFrom(s', nodes[1..]);
      if !Live(s') {
        DeadNamesNothing(s', nodes[1..]);
        DeadIdsNothing(s', nodes[1..]);
      }
      HeadsAfter(s, nodes[0], LastName(nodes[1..]), LastName(nodes), LastId(nodes[1..]), LastId(nodes));
    }
  }

  lemma NoHeads(s: State)
    requires Consistent(s)
    ensures HeadsWith(s, None, None) == Heads(s.calls)
  {
  }

  lemma {:induction false} DeadIdsNothing(s: State, nodes: seq<Node>)
    requires !Live(s) && Safe(s, nodes)
    ensures LastId(nodes) == None
    decreases |nodes|
  {
    if nodes != [] && nodes[0].tag != ToolOpen {
      DeadIdsNothing(Next(s, nodes[0]), nodes[1..]);
    }
  }

  /** What one node does to the heads listed so far. */
  lemma HeadsAfter(s: State, node: Node, name: Option<string>, name': Option<string>, id: Option<string>,
                   id': Option<string>)
    requires Consistent(s) && Mappable(s, node) && Consistent(Next(s, node))
    requires Live(Next(s, node)) || (name == None && id == None)
    requires name' == if node.tag == ToolOpen then None else if name.Some? then name
                      else if node.tag == ToolName then Some(TrimEnd(node.text)) else None
    requires id' == if node.tag == ToolOpen then None else if id.Some? then id
                    else if node.tag == ToolId then Some(Unquoted(TrimEnd(node.text))) else None
    ensures HeadsWith(Next(s, node), name, id) ==
            HeadsWith(s, name', id') + if node.tag == ToolOpen && name.Some? then [(name.value, Or(id, ""))] else []
  {
    hide TrimEnd, NextInCall;
    if node.tag in {Reasoning, Content, ToolOpen, ArgOpen, OtherTag} || s.current == NoCall {
    } else if node.tag == ToolName {
      NameHeads(s, node, name, id);
    } else if node.tag == ToolClose {
      CloseHeads(s, node, name, id);
    } else if node.tag == ToolId {
      IdHeads(s, node, name, id);
    } else {
      OtherHeads(s, node, name, id);
    }
  }

  lemma NameHeads(s: State, node: Node, name: Option<string>, id: Option<string>)
    requires Consistent(s) && Live(s) && s.current != NoCall && node.tag == ToolName && Consistent(Next(s, node))
    ensures HeadsWith(Next(s, node), name, id) == HeadsWith(s, Some(Or(name, TrimEnd(node.text))), id)
  {
    hide TrimEnd;
  }

  lemma CloseHeads(s: State, node: Node, name: Option<string>, id: Option<string>)
    requires Consistent(s) && Live(s) && s.current != NoCall && node.tag == ToolClose && Consistent(Next(s, node))
    requires Live(Next(s, node)) || (name == None && id == None)
    ensures HeadsWith(Next(s, node), name, id) == HeadsWith(s, name, id)
  {
    hide JsonTokens, NetBraces, Repeat;
  }

  lemma IdHeads(s: State, node: Node, name: Option<string>, id: Option<string>)
    requires Consistent(s) && Live(s) && s.current != NoCall && node.tag == ToolId && Consistent(Next(s, node))
    ensures HeadsWith(Next(s, node), name, id) == HeadsWith(s, name, Some(Or(id, Unquoted(TrimEnd(node.text)))))
  {
    hide TrimEnd;
  }

  lemma OtherHeads(s: State, node: Node, name: Option<string>, id: Option<string>)
    requires Consistent(s) && Live(s) && s.current != NoCall && Consistent(Next(s, node))
    requires node.tag in {ToolArgs, ArgName, ArgValue, ArgStringValue, ArgClose}
    ensures HeadsWith(Next(s, node), name, id) == HeadsWith(s, name, id)
  {
    hide NextInCall;
    NodeWritesArgs(s, node);
  }

  // ---------- Calls whose arguments come as one text

  /** A name that is not empty, an id or the arguments. */
  predicate IsJsonNode(node: Node) {
    node.tag in {ToolId, ToolArgs} || (node.tag == ToolName && TrimEnd(node.text) != "")
  }

  predicate AllJsonNodes(nodes: seq<Node>) {
    forall i :: 0 <= i < |nodes| ==> IsJsonNode(nodes[i])
  }

  /** The last text among the nodes that starts like an object, without the white space behind it. */
  function LastArgs(nodes: seq<Node>): (args: Option<string>) {
    if nodes == [] then None
    else
      var later, t := LastArgs(nodes[1..]), TrimEnd(nodes[0].text);
      if later.Some? then later
      else if nodes[0].tag == ToolArgs && t != "" && t[0] == '{' then Some(t) else None
  }

  /** What the call that is being read has been given so far. */
  predicate Given(s: State, before: seq<ToolCall>, name: Option<string>, id: string, args: Option<string>) {
    && !s.closingQuotePending && (name.Some? ==> name.value != "") && (args.Some? ==> args.value != "")
    && if name.None? then
         && s.calls == before && s.pending == Some(ToolCall("", id, "")) && s.current == PendingCall
         && s.argsBuffer == Or(args, "")
       else
         && s.calls == before + [ToolCall(name.value, id, Or(args, "{"))] && s.pending == None
         && s.current == ListedCall(|before|) && s.argsBuffer == ""
  }

  /** The later of two, if there is one. */
  function Later(a: Option<string>, b: Option<string>): (r: Option<string>) {
    if b.Some? then b else a
  }

  lemma GiveNode(s: State, node: Node, before: seq<ToolCall>, name: Option<string>, id: string, args: Option<string>)
    requires Given(s, before, name, id, args) && IsJsonNode(node)
    ensures Mappable(s, node)
    ensures Given(Next(s, node), before, Later(name, LastName([node])), Or(LastId([node]), id),
                  Later(args, LastArgs([node])))
  {
    hide TrimEnd;
    assert [node][1..] == [];
    var t := TrimEnd(node.text);
    if name.Some? {
      var n := |before|;
      assert s.calls[n] == ToolCall(name.value, id, Or(args, "{"));
    }
  }

  lemma {:induction false} GiveNodes(s: State, nodes: seq<Node>, before: seq<ToolCall>, name: Option<string>,
                                     id: string,
                                     args: Option<string>)
    requires Given(s, before, name, id, args) && AllJsonNodes(nodes)
    ensures Safe(s, nodes)
    ensures Given(RunNodes(s, nodes), before, Later(name, LastName(nodes)), Or(LastId(nodes), id),
                  Later(args, LastArgs(nodes)))
    decreases |nodes|
  {
    hide Given, Next, Mappable, TrimEnd, Unquoted;
    if nodes != [] {
      var node := nodes[0];
      assert [node][1..] == [] && IsJsonNode(node);
      GiveNode(s, node, before, name, id, args);
      GiveNodes(Next(s, node), nodes[1..], before, Later(name, LastName([node])), Or(LastId([node]), id),
                Later(args, LastArgs([node])));
    }
  }

  /** A text with a brace for each that is open in it. */
  function WithBraces(t: string): (r: string) {
    t + Repeat('}', NetBraces(JsonTokens(t, false)))
  }

  /** A closed text gets no braces, and an opening brace alone gets one. */
  lemma NoBracesDue(t: string)
    ensures Complete(t) ==> WithBraces(t) == t
    ensures WithBraces("{") == "{}"
  {
    if Complete(t) {
      BracesOpen(START, t);
      assert Braces("") == 0;
      assert Repeat('}', 0) == "" && t + "" == t;
    }
    OpenDepth([]);
    MembersTextBack([], ("", ""));
    assert "{" + "" == "{" && Repeat('}', 0) == "";
  }

  lemma CloseGiven(s: State, close: Node, before: seq<ToolCall>, name: Option<string>, id: string, args: Option<string>)
    requires Given(s, before, name, id, args) && close.tag == ToolClose
    ensures Mappable(s, close)
    ensures Next(s, close).calls ==
            if name.None? then before else before + [ToolCall(name.value, id, WithBraces(Or(args, "{")))]
  {
    hide NetBraces, JsonTokens;
    var text := Or(args, "{");
    assert text + "" == text;
  }

  /** A call whose name, id and arguments come in any order and any number of times is listed with the last name, the
      last id and the last arguments, their braces closed; if they are a closed object, with exactly these. Without a
      name it is not listed. */
  lemma JsonCall(s: State, open: Node, nodes: seq<Node>, close: Node)
    requires open.tag == ToolOpen && close.tag == ToolClose && AllJsonNodes(nodes)
    ensures Safe(s, [open] + nodes + [close])
    ensures var text := Or(LastArgs(nodes), "{");
            && RunNodes(s, [open] + nodes + [close]).calls == s.calls +
               (if LastName(nodes).None? then []
                else [ToolCall(LastName(nodes).value, Or(LastId(nodes), ""), WithBraces(text))])
            && (Complete(text) ==> WithBraces(text) == text) && (LastArgs(nodes).None? ==> WithBraces(text) == "{}")
  {
    hide Next, Complete, LastName, LastId, LastArgs, TrimEnd, AllJsonNodes, WithBraces;
    var s1 := Next(s, open);
    assert Given(s1, s.calls, None, "", None) by { OpensGiven(s, open); }
    GiveNodes(s1, nodes, s.calls, None, "", None);
    var s2 := RunNodes(s1, nodes);
    CloseGiven(s2, close, s.calls, LastName(nodes), Or(LastId(nodes), ""), LastArgs(nodes));
    NoBracesDue(Or(LastArgs(nodes), "{"));
    OneNode(s, open);
    OneNode(s2, close);
    RunNodesAppend(s, [open], nodes);
    RunNodesAppend(s, [open] + nodes, [close]);
  }

  lemma OpensGiven(s: State, open: Node)
    requires open.tag == ToolOpen
    ensures Given(Next(s, open), s.calls, None, "", None)
  {
  }

  /** The name and the arguments of a call in either order: the arguments are the text that was given. */
  lemma NameAndArgs(s: State, open: Node, name: Node, args: Node, close: Node, nodes: seq<Node>)
    requires open.tag == ToolOpen && name.tag == ToolName && args.tag == ToolArgs && close.tag == ToolClose
    requires TrimEnd(name.text) != "" && TrimEnd(args.text) != "" && TrimEnd(args.text)[0] == '{'
    requires Complete(TrimEnd(args.text))
    requires nodes == [name, args] || nodes == [args, name]
    ensures Safe(s, [open] + nodes + [close])
    ensures RunNodes(s, [open] + nodes + [close]).calls
            == s.calls + [ToolCall(TrimEnd(name.text), "", TrimEnd(args.text))]
  {
    hide Next, Complete, TrimEnd, WithBraces, Safe, RunNodes, LastName, LastId, LastArgs;
    JsonCall(s, open, nodes, close);
    NothingGiven();
    OneGiven(nodes[0], nodes[1..]);
    OneGiven(nodes[1], []);
    assert nodes == [nodes[0]] + nodes[1..] && nodes[1..] == [nodes[1]] == [nodes[1]] + [];
  }

  lemma NothingGiven()
    ensures LastName([]) == None && LastId([]) == None && LastArgs([]) == None
  {
  }

  lemma OneGiven(node: Node, rest: seq<Node>)
    requires node.tag != ToolOpen
    ensures var t := TrimEnd(node.text);
            && LastName([node] + rest) == Later(if node.tag == ToolName then Some(t) else None, LastName(rest))
            && LastId([node] + rest) == Later(if node.tag == ToolId then Some(Unquoted(t)) else None, LastId(rest))
            && LastArgs([node] + rest) ==
               Later(if node.tag == ToolArgs && t != "" && t[0] == '{' then Some(t) else None, LastArgs(rest))
  {
    hide TrimEnd;
    assert ([node] + rest)[1..] == rest;
  }
}
