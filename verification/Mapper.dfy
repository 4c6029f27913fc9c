/** common_chat_peg_mapper of common/chat-peg-parser.cpp: tool calls assembled from a stream of
    tagged nodes, with their arguments printed as JSON piece by piece. */
module Mapper {
  import opened Wrappers
  import opened Json
  import opened Quotes

  datatype Tag = Reasoning | Content | ToolOpen | ToolClose | ToolName | ToolId | ToolArgs
               | ArgOpen | ArgClose | ArgName | ArgValue | ArgStringValue | OtherTag

  datatype Node = Node(tag: Tag, text: string)

  datatype ToolCall = ToolCall(name: string, id: string, arguments: string)

  /** Which tool call is the current one. */
  datatype Target = NoCall | PendingCall | ListedCall(index: nat)

  datatype State = State(reasoning: string, content: string, calls: seq<ToolCall>,
                         pending: Option<ToolCall>, current: Target,
                         argCount: nat, closingQuotePending: bool, argsBuffer: string)

  const INITIAL := State("", "", [], None, NoCall, 0, false, "")

  predicate IsSpace(c: char) {
    c == ' ' || 9 <= c as int <= 13
  }

  /** Drops at most `max` white space characters from the end. */
  function TrimTrailing(s: string, max: nat): (r: string) {
    if max > 0 && s != "" && IsSpace(s[|s| - 1]) then TrimTrailing(s[..|s| - 1], max - 1) else s
  }

  function TrimLeading(s: string, max: nat): (r: string) {
    if max > 0 && s != "" && IsSpace(s[0]) then TrimLeading(s[1..], max - 1) else s
  }

  function TrimEnd(s: string): (text: string) { TrimTrailing(s, |s|) }

  function TrimName(s: string): (text: string) { TrimEnd(TrimLeading(s, 1)) }

  function TrimValue(s: string): (text: string) { TrimTrailing(TrimLeading(s, 1), 1) }

  predicate Spaces(s: string) {
    forall i :: 0 <= i < |s| ==> IsSpace(s[i])
  }

  /** Only white space is dropped, at most `max` characters of it, and never less than there is up to that. */
  lemma {:induction false} TrimTrailingDrops(s: string, max: nat) returns (z: string)
    ensures s == TrimTrailing(s, max) + z && Spaces(z) && |z| <= max
    ensures |z| == max || TrimTrailing(s, max) == "" || !IsSpace(TrimTrailing(s, max)[|TrimTrailing(s, max)| - 1])
  {
    z := "";
    if max > 0 && s != "" && IsSpace(s[|s| - 1]) {
      var rest := TrimTrailingDrops(s[..|s| - 1], max - 1);
      z := rest + [s[|s| - 1]];
      assert s == s[..|s| - 1] + [s[|s| - 1]];
    }
  }

  lemma TrimLeadingOne(s: string) returns (a: string)
    ensures s == a + TrimLeading(s, 1) && Spaces(a) && |a| <= 1 && (a == "" ==> s == "" || !IsSpace(s[0]))
  {
    a := if s != "" && IsSpace(s[0]) then [s[0]] else "";
  }

  /** A name is taken without one white space character before it and without any after it. */
  lemma TrimNameDrops(s: string) returns (a: string, z: string)
    ensures s == a + TrimName(s) + z && Spaces(a) && Spaces(z) && |a| <= 1 && (a == "" ==> s == "" || !IsSpace(s[0]))
    ensures TrimName(s) == "" || !IsSpace(TrimName(s)[|TrimName(s)| - 1])
  {
    hide TrimTrailing, TrimLeading, Spaces, IsSpace;
    a := TrimLeadingOne(s);
    var t := TrimLeading(s, 1);
    z := TrimTrailingDrops(t, |t|);
    assert a + TrimName(s) + z == a + (TrimName(s) + z);
    if |z| == |t| {
      assert TrimName(s) == "";
    }
  }

  /** A value is taken without one white space character before it and without one after it. */
  lemma TrimValueDrops(s: string) returns (a: string, z: string)
    ensures s == a + TrimValue(s) + z && Spaces(a) && Spaces(z) && |a| <= 1 && |z| <= 1
    ensures a == "" ==> s == "" || !IsSpace(s[0])
    ensures z == "" ==> TrimValue(s) == "" || !IsSpace(TrimValue(s)[|TrimValue(s)| - 1])
  {
    a := TrimLeadingOne(s);
    z := TrimTrailingDrops(TrimLeading(s, 1), 1);
  }

  predicate IsBlankChar(c: char) { c == ' ' || c == '\n' || c == '\r' || c == '\t' }

  predicate IsBlank(s: string) {
    forall i :: 0 <= i < |s| ==> IsBlankChar(s[i])
  }

  /** The current call exists. The source has no defined behaviour for reaching it when it does not. */
  predicate Live(s: State) {
    match s.current
    case NoCall => true
    case PendingCall => s.pending.Some?
    case ListedCall(i) => i < |s.calls|
  }

  function Current(s: State): (c: ToolCall)
    requires Live(s) && s.current != NoCall
  {
    if s.current == PendingCall then s.pending.value else s.calls[s.current.index]
  }

  function WithCurrent(s: State, c: ToolCall): (r: State)
    requires Live(s) && s.current != NoCall
    ensures Live(r) && r.current == s.current && Current(r) == c
  {
    if s.current == PendingCall then s.(pending := Some(c))
    else s.(calls := s.calls[s.current.index := c])
  }

  /** The text that arguments are added to: the buffer, until the call has a name. */
  function Args(s: State): (text: string)
    requires Live(s)
  {
    if s.current != NoCall && Current(s).name != "" then Current(s).arguments else s.argsBuffer
  }

  function WithArgs(s: State, text: string): (r: State)
    requires Live(s)
    ensures Live(r)
  {
    if s.current != NoCall && Current(s).name != "" then WithCurrent(s, Current(s).(arguments := text))
    else s.(argsBuffer := text)
  }

  /** The text a value node adds. */
  function ValuePiece(v: string, isString: bool, closing: bool): (piece: string) {
    if isString then
      if v == "" then "\"" else (if closing then "" else "\"") + Escape(v)
    else if v != "" && (v[0] == '[' || v[0] == '{') then Normalized(v, Outside)
    else v
  }

  function Repeat(c: char, n: int): (s: string)
    decreases n
  {
    if n <= 0 then "" else [c] + Repeat(c, n - 1)
  }

  /** A node may be mapped when the current call is there, or when its tag does not need it. */
  predicate Mappable(s: State, node: Node) {
    Live(s) || node.tag in {Reasoning, Content, ToolOpen, ArgOpen, OtherTag}
  }

  /** The state after one node. */
  function Next(s: State, node: Node): (r: State)
    requires Mappable(s, node)
  {
    match node.tag
    case Reasoning => s.(reasoning := s.reasoning + node.text)
    case Content => s.(content := s.content + node.text)
    case ToolOpen =>
      s.(pending := Some(ToolCall("", "", "")), current := PendingCall, argCount := 0,
         argsBuffer := "", closingQuotePending := false)
    case ArgOpen => s.(closingQuotePending := false)
    case OtherTag => s
    case _ => if s.current == NoCall then s else NextInCall(s, node)
  }

  function NextInCall(s: State, node: Node): (r: State)
    requires Live(s) && s.current != NoCall
  {
    var c := Current(s);
    match node.tag
    case ToolId =>
      var t := TrimEnd(node.text);
      WithCurrent(s, c.(id := if |t| >= 2 && t[0] == '"' && t[|t| - 1] == '"' then t[1..|t| - 1] else t))
    case ToolName => Named(s, TrimEnd(node.text))
    case ToolArgs =>
      var t := TrimEnd(node.text);
      if t != "" && t[0] == '{' then WithArgs(s, t) else s
    case ArgName =>
      var text := if Args(s) == "" then "{" else Args(s);
      WithArgs(s.(argCount := s.argCount + 1),
               text + (if s.argCount > 0 then "," else "") + Dump(TrimName(node.text)) + ":")
    case ArgValue => WithArgs(s, Args(s) + ValuePiece(TrimValue(node.text), false, s.closingQuotePending))
    case ArgStringValue =>
      WithArgs(s.(closingQuotePending := true), Args(s) + ValuePiece(TrimValue(node.text), true, s.closingQuotePending))
    case ArgClose =>
      if s.closingQuotePending then WithArgs(s.(closingQuotePending := false), Args(s) + "\"") else s
    case ToolClose => Closed(s)
    case _ => s
  }

  /** The name arrives: the buffered arguments become the call's, and a pending call is listed. */
  function Named(s: State, name: string): (r: State)
    requires Live(s) && s.current != NoCall
  {
    var c := Current(s);
    var arguments := if s.argsBuffer != "" then s.argsBuffer else if c.arguments == "" then "{" else c.arguments;
    var s' := WithCurrent(s.(argsBuffer := ""), c.(name := name, arguments := arguments));
    if s'.pending.Some? then
      s'.(calls := s'.calls + [s'.pending.value], pending := None, current := ListedCall(|s'.calls|))
    else s'
  }

  /** The call is closed: an open string and open braces are closed, an unnamed call is dropped. */
  function Closed(s: State): (r: State)
    requires Live(s) && s.current != NoCall
  {
    var c := Current(s);
    var flush := c.name == "" && s.argsBuffer != "";
    var text := (if flush then s.argsBuffer else c.arguments) + (if s.closingQuotePending then "\"" else "");
    var arguments := text + Repeat('}', NetBraces(JsonTokens(text, false)));
    var s' := WithCurrent(s.(closingQuotePending := false, argsBuffer := if flush then "" else s.argsBuffer),
                          c.(arguments := arguments));
    if s'.pending.Some? then
      s'.(calls := if c.name != "" then s'.calls + [s'.pending.value] else s'.calls, pending := None)
    else s'
  }

  /** A run that never reaches for a call that is not there. */
  predicate Safe(s: State, nodes: seq<Node>)
    decreases |nodes|
  {
    nodes == [] || (Mappable(s, nodes[0]) && Safe(Next(s, nodes[0]), nodes[1..]))
  }

  function RunNodes(s: State, nodes: seq<Node>): (r: State)
    requires Safe(s, nodes)
    decreases |nodes|
  {
    if nodes == [] then s else RunNodes(Next(s, nodes[0]), nodes[1..])
  }

  /** The end of a run: a named call that is still pending would be listed, and reasoning that is
      only white space is dropped. */
  function Flushed(s: State): (r: State) {
    if s.pending.Some? && s.pending.value.name != "" then
      var c := if s.argsBuffer != "" then s.pending.value.(arguments := s.argsBuffer) else s.pending.value;
      var c' := if s.closingQuotePending && c.arguments != "" then c.(arguments := c.arguments + "\"") else c;
      s.(calls := s.calls + [c'], pending := None)
    else s
  }

  function WithoutBlankReasoning(s: State): (r: State) {
    if IsBlank(s.reasoning) then s.(reasoning := "") else s
  }

  /** Closes the braces that are open at the end of a text. */
  method CloseBraces(text: string) returns (r: string)
    ensures r == text + Repeat('}', NetBraces(JsonTokens(text, false)))
  {
    r := text;
    var d := JsonBraceDepth(text);
    ghost var n := d;
    while d > 0
      invariant r + Repeat('}', d) == text + Repeat('}', n)
    {
      r := r + "}";
      d := d - 1;
    }
  }

  class ChatMapper {
    var reasoning: string
    var content: string
    var calls: seq<ToolCall>
    var pending: Option<ToolCall>
    var current: Target
    var argCount: nat
    var closingQuotePending: bool
    var argsBuffer: string

    ghost function Snapshot(): (r: State)
      reads this
    {
      State(reasoning, content, calls, pending, current, argCount, closingQuotePending, argsBuffer)
    }

    constructor ()
      ensures Snapshot() == INITIAL
    {
      reasoning, content, calls, pending, current := "", "", [], None, NoCall;
      argCount, closingQuotePending, argsBuffer := 0, false, "";
    }

    predicate IsLive()
      reads this
      ensures IsLive() <==> Live(Snapshot())
    {
      match current
      case NoCall => true
      case PendingCall => pending.Some?
      case ListedCall(i) => i < |calls|
    }

    function CurrentCall(): (c: ToolCall)
      reads this
      requires IsLive() && current != NoCall
      ensures c == Current(Snapshot())
    {
      if current == PendingCall then pending.value else calls[current.index]
    }

    function ArgsTarget(): (text: string)
      reads this
      requires IsLive()
      ensures text == Args(Snapshot())
    {
      if current != NoCall && CurrentCall().name != "" then CurrentCall().arguments else argsBuffer
    }

    method SetCurrent(c: ToolCall)
      requires IsLive() && current != NoCall
      modifies this`calls, this`pending
      ensures Snapshot() == WithCurrent(old(Snapshot()), c)
    {
      if current == PendingCall { pending := Some(c); } else { calls := calls[current.index := c]; }
    }

    method SetArgs(text: string)
      requires IsLive()
      modifies this`calls, this`pending, this`argsBuffer
      ensures Snapshot() == WithArgs(old(Snapshot()), text)
    {
      if current != NoCall && CurrentCall().name != "" {
        SetCurrent(CurrentCall().(arguments := text));
      } else {
        argsBuffer := text;
      }
    }

    method Map(node: Node)
      requires Mappable(Snapshot(), node)
      modifies this
      ensures Snapshot() == Next(old(Snapshot()), node)
    {
      match node.tag {
        case Reasoning => reasoning := reasoning + node.text;
        case Content => content := content + node.text;
        case ToolOpen =>
          pending, current, argCount := Some(ToolCall("", "", "")), PendingCall, 0;
          argsBuffer, closingQuotePending := "", false;
        case ArgOpen => closingQuotePending := false;
        case OtherTag =>
        case _ =>
          if current != NoCall { MapInCall(node); }
      }
    }

    method MapInCall(node: Node)
      requires IsLive() && current != NoCall
      modifies this
      ensures Snapshot() == NextInCall(old(Snapshot()), node)
    {
      hide TrimEnd, TrimName, TrimValue, Normalized, Dump, Escape, Named, Closed, IsLive, CurrentCall, ArgsTarget;
      match node.tag {
        case ToolId =>
          var t := TrimEnd(node.text);
          if |t| >= 2 && t[0] == '"' && t[|t| - 1] == '"' { t := t[1..|t| - 1]; }
          SetCurrent(CurrentCall().(id := t));
        case ToolName => SetName(TrimEnd(node.text));
        case ToolArgs =>
          var t := TrimEnd(node.text);
          if t != "" && t[0] == '{' { SetArgs(t); }
        case ArgName =>
          var entry := if argCount > 0 then "," else "";
          entry := entry + Dump(TrimName(node.text)) + ":";
          argCount := argCount + 1;
          var target := ArgsTarget();
          if target == "" { target := "{"; }
          assert target + entry == target + (if argCount > 1 then "," else "") + Dump(TrimName(node.text)) + ":";
          SetArgs(target + entry);
        case ArgValue =>
          var v := TrimValue(node.text);
          if v != "" && (v[0] == '[' || v[0] == '{') { v := NormalizeQuotesToJson(v); }
          SetArgs(ArgsTarget() + v);
        case ArgStringValue =>
          var v := TrimValue(node.text);
          var piece := ValuePiece(v, true, closingQuotePending);
          closingQuotePending := true;
          SetArgs(ArgsTarget() + piece);
        case ArgClose =>
          if closingQuotePending {
            closingQuotePending := false;
            SetArgs(ArgsTarget() + "\"");
          }
        case ToolClose => Close();
        case _ =>
      }
    }

    method SetName(name: string)
      requires IsLive() && current != NoCall
      modifies this
      ensures Snapshot() == Named(old(Snapshot()), name)
    {
      var c := CurrentCall().(name := name);
      if argsBuffer != "" {
        c := c.(arguments := argsBuffer);
        argsBuffer := "";
      } else if c.arguments == "" {
        c := c.(arguments := "{");
      }
      SetCurrent(c);
      if pending.Some? {
        calls := calls + [pending.value];
        pending := None;
        current := ListedCall(|calls| - 1);
      }
    }

    method Close()
      requires IsLive() && current != NoCall
      modifies this
      ensures Snapshot() == Closed(old(Snapshot()))
    {
      hide NetBraces, JsonTokens, Repeat;
      var c := CurrentCall();
      if c.name == "" && argsBuffer != "" {
        c := c.(arguments := argsBuffer);
        argsBuffer := "";
      }
      assert c.arguments + "" == c.arguments;
      if closingQuotePending {
        c := c.(arguments := c.arguments + "\"");
        closingQuotePending := false;
      }
      var text := CloseBraces(c.arguments);
      c := c.(arguments := text);
      SetCurrent(c);
      if pending.Some? {
        if c.name != "" { calls := calls + [pending.value]; }
        pending := None;
      }
    }

    /** Maps every node of a run in order, then flushes. */
    method FromAst(nodes: seq<Node>)
      requires Safe(Snapshot(), nodes)
      modifies this
      ensures Snapshot() == WithoutBlankReasoning(Flushed(RunNodes(old(Snapshot()), nodes)))
    {
      for i := 0 to |nodes|
        invariant Safe(Snapshot(), nodes[i..])
        invariant RunNodes(Snapshot(), nodes[i..]) == RunNodes(old(Snapshot()), nodes)
      {
        assert nodes[i..][0] == nodes[i] && nodes[i..][1..] == nodes[i + 1..];
        Map(nodes[i]);
      }
      if pending.Some? && pending.value.name != "" {
        var c := pending.value;
        if argsBuffer != "" { c := c.(arguments := argsBuffer); }
        if closingQuotePending && c.arguments != "" { c := c.(arguments := c.arguments + "\""); }
        calls := calls + [c];
        pending := None;
      }
      var allWhitespace := true;
      for i := 0 to |reasoning|
        invariant allWhitespace <==> forall j :: 0 <= j < i ==> IsBlankChar(reasoning[j])
      {
        if !IsBlankChar(reasoning[i]) {
          allWhitespace := false;
          break;
        }
      }
      if allWhitespace { reasoning := ""; }
    }
  }
}
