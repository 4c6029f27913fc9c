/** The arguments text of a tagged tool call is what its argument nodes spell, and the JSON object they describe. */
module MapperJson {
  import opened Wrappers
  import opened Json
  import opened JsonValues
  import opened JsonSplices
  import opened Quotes
  import opened Mapper
  import opened MapperRuns
  import opened MapperMessages

  /** One argument as the parser reports it, its value in one piece or more. The closing node may be missing. */
  datatype Arg = Arg(openText: string, name: string, value: string, more: seq<string>, isString: bool, closed: bool,
                     closeText: string)

  function ValueNodes(values: seq<string>, isString: bool): (run: seq<Node>)
    ensures |run| == |values|
  {
    if values == [] then []
    else [Node(if isString then ArgStringValue else ArgValue, values[0])] + ValueNodes(values[1..], isString)
  }

  function ArgNodes(a: Arg): (run: seq<Node>) {
    [Node(ArgOpen, a.openText), Node(ArgName, a.name)]
    + (ValueNodes([a.value] + a.more, a.isString) + if a.closed then [Node(ArgClose, a.closeText)] else [])
  }

  function AllNodes(args: seq<Arg>): (run: seq<Node>) {
    if args == [] then [] else ArgNodes(args[0]) + AllNodes(args[1..])
  }

  // ---------- What is written

  /** The text of a value that is not a string: a container has its quotes normalized, anything else is taken as it
      is. */
  function RawText(value: string): (text: string) {
    var v := TrimValue(value);
    if v != "" && (v[0] == '[' || v[0] == '{') then Normalized(v, Outside) else v
  }

  function RawTexts(values: seq<string>): (text: string) {
    if values == [] then "" else RawText(values[0]) + RawTexts(values[1..])
  }

  /** Further pieces of a string. A piece without text writes a quote. */
  function Pieces(values: seq<string>): (text: string) {
    if values == [] then ""
    else (if TrimValue(values[0]) == "" then "\"" else Escape(TrimValue(values[0]))) + Pieces(values[1..])
  }

  /** An argument as it is written: without its closing quote if it is a string that is not closed. */
  function ArgText(a: Arg): (text: string) {
    Dump(TrimName(a.name)) + ":" +
    if a.isString then "\"" + Escape(TrimValue(a.value)) + Pieces(a.more) + (if a.closed then "\"" else "")
    else RawTexts([a.value] + a.more)
  }

  function ArgsText(args: seq<Arg>, comma: bool): (text: string) {
    if args == [] then "" else (if comma then "," else "") + ArgText(args[0]) + ArgsText(args[1..], true)
  }

  /** Whether the last argument is a string that waits for its closing quote. */
  predicate QuoteDue(args: seq<Arg>) {
    args != [] && args[|args| - 1].isString && !args[|args| - 1].closed
  }

  /** Where the writing of a call stands. */
  datatype Pen = Pen(text: string, count: nat, quote: bool)

  function Print(p: Pen, node: Node): (r: Pen) {
    match node.tag
    case ArgOpen => p.(quote := false)
    case ArgName =>
      Pen(p.text + (if p.count > 0 then "," else "") + Dump(TrimName(node.text)) + ":", p.count + 1, p.quote)
    case ArgValue => p.(text := p.text + RawText(node.text))
    case ArgStringValue => Pen(p.text + ValuePiece(TrimValue(node.text), true, p.quote), p.count, true)
    case ArgClose => Pen(p.text + (if p.quote then "\"" else ""), p.count, false)
    case _ => p
  }

  function PrintAll(p: Pen, nodes: seq<Node>): (r: Pen)
    decreases |nodes|
  {
    if nodes == [] then p else PrintAll(Print(p, nodes[0]), nodes[1..])
  }

  predicate IsTagged(node: Node) {
    node.tag in {ArgOpen, ArgName, ArgValue, ArgStringValue, ArgClose}
  }

  predicate AllTagged(nodes: seq<Node>) {
    forall i :: 0 <= i < |nodes| ==> IsTagged(nodes[i])
  }

  /** The listed call that is being written. */
  predicate Writing(s: State, before: seq<ToolCall>, name: string, id: string, p: Pen) {
    && s.pending == None && s.argsBuffer == "" && name != "" && p.text != ""
    && s.calls == before + [ToolCall(name, id, p.text)] && s.current == ListedCall(|before|)
    && s.argCount == p.count && s.closingQuotePending == p.quote
  }

  /** Every node of an argument writes as the pen does. */
  lemma WriteNode(s: State, node: Node, before: seq<ToolCall>, name: string, id: string, p: Pen)
    requires Writing(s, before, name, id, p) && IsTagged(node)
    ensures Mappable(s, node) && Writing(Next(s, node), before, name, id, Print(p, node))
  {
    hide TrimName, TrimValue, Dump, Normalized;
    var n := |before|;
    assert s.calls[n] == ToolCall(name, id, p.text) && s.calls[n := s.calls[n]] == s.calls && p.text + "" == p.text;
    assert forall t: string :: s.calls[n := ToolCall(name, id, t)] == before + [ToolCall(name, id, t)];
  }

  lemma {:induction false} WriteNodes(s: State, nodes: seq<Node>, before: seq<ToolCall>, name: string, id: string,
                                      p: Pen)
    requires Writing(s, before, name, id, p) && AllTagged(nodes)
    ensures Safe(s, nodes) && Writing(RunNodes(s, nodes), before, name, id, PrintAll(p, nodes))
    decreases |nodes|
  {
    hide Writing, Next, Mappable, Print;
    if nodes != [] {
      assert IsTagged(nodes[0]);
      WriteNode(s, nodes[0], before, name, id, p);
      WriteNodes(Next(s, nodes[0]), nodes[1..], before, name, id, Print(p, nodes[0]));
    }
  }

  lemma {:induction false} PrintAppend(p: Pen, a: seq<Node>, b: seq<Node>)
    ensures PrintAll(p, a + b) == PrintAll(PrintAll(p, a), b)
    decreases |a|
  {
    hide Print;
    if a == [] {
      assert a + b == b;
    } else {
      assert (a + b)[0] == a[0] && (a + b)[1..] == a[1..] + b;
      PrintAppend(Print(p, a[0]), a[1..], b);
    }
  }

  lemma {:induction false} PrintPieces(p: Pen, values: seq<string>)
    requires p.quote
    ensures PrintAll(p, ValueNodes(values, true)) == Pen(p.text + Pieces(values), p.count, true)
    decreases |values|
  {
    hide TrimValue, Escape;
    if values == [] {
      assert p.text + "" == p.text;
    } else {
      var v := TrimValue(values[0]);
      var piece := if v == "" then "\"" else Escape(v);
      assert "" + Escape(v) == Escape(v);
      assert p.text + (piece + Pieces(values[1..])) == (p.text + piece) + Pieces(values[1..]);
      PrintPieces(Pen(p.text + piece, p.count, true), values[1..]);
      assert ValueNodes(values, true)[1..] == ValueNodes(values[1..], true);
    }
  }

  lemma {:induction false} PrintRaw(p: Pen, values: seq<string>)
    ensures PrintAll(p, ValueNodes(values, false)) == p.(text := p.text + RawTexts(values))
    decreases |values|
  {
    hide RawText;
    if values == [] {
      assert p.text + "" == p.text;
    } else {
      var piece := RawText(values[0]);
      assert p.text + (piece + RawTexts(values[1..])) == (p.text + piece) + RawTexts(values[1..]);
      PrintRaw(p.(text := p.text + piece), values[1..]);
      assert ValueNodes(values, false)[1..] == ValueNodes(values[1..], false);
    }
  }

  /** The value of an argument, behind its name. */
  lemma PrintValue(p: Pen, a: Arg)
    requires !p.quote
    ensures PrintAll(p, ValueNodes([a.value] + a.more, a.isString)) ==
            Pen(p.text + OpenValue(a), p.count, a.isString)
  {
    hide TrimValue, Pieces, RawTexts;
    if a.isString {
      var v := TrimValue(a.value);
      var piece := "\"" + Escape(v);
      assert v == "" ==> piece == "\"";
      var nodes := ValueNodes([a.value] + a.more, true);
      assert ([a.value] + a.more)[1..] == a.more && nodes[1..] == ValueNodes(a.more, true);
      assert Print(p, nodes[0]) == Pen(p.text + piece, p.count, true);
      PrintPieces(Pen(p.text + piece, p.count, true), a.more);
      assert (p.text + piece) + Pieces(a.more) == p.text + (piece + Pieces(a.more));
    } else {
      PrintRaw(p, [a.value] + a.more);
    }
  }

  /** The text of an argument's value, its closing quote apart. */
  function OpenValue(a: Arg): (text: string) {
    if a.isString then "\"" + Escape(TrimValue(a.value)) + Pieces(a.more) else RawTexts([a.value] + a.more)
  }

  lemma PrintName(p: Pen, a: Arg)
    ensures PrintAll(p, [Node(ArgOpen, a.openText), Node(ArgName, a.name)]) ==
            Pen(p.text + (if p.count > 0 then "," else "") + Dump(TrimName(a.name)) + ":", p.count + 1, false)
  {
    hide TrimName, Dump;
    var front := [Node(ArgOpen, a.openText), Node(ArgName, a.name)];
    var q := p.(quote := false);
    assert front[1..] == [front[1]] && [front[1]][1..] == [];
    assert PrintAll(q, [front[1]]) == PrintAll(Print(q, front[1]), []) == Print(q, front[1]);
    assert PrintAll(p, front) == PrintAll(q, [front[1]]);
  }

  lemma PrintEnd(p: Pen, a: Arg)
    requires p.quote == a.isString
    ensures PrintAll(p, if a.closed then [Node(ArgClose, a.closeText)] else []) ==
            Pen(p.text + (if a.isString && a.closed then "\"" else ""), p.count, a.isString && !a.closed)
  {
    var node := Node(ArgClose, a.closeText);
    assert [node][1..] == [] && p.text + "" == p.text;
  }

  lemma ArgIs(a: Arg)
    ensures ArgText(a) ==
            Dump(TrimName(a.name)) + ":" + (OpenValue(a) + (if a.isString && a.closed then "\"" else ""))
  {
    hide TrimName, TrimValue, Dump, Escape, Pieces, RawTexts;
    assert OpenValue(a) + "" == OpenValue(a);
  }

  /** The nodes of one argument write its text. */
  lemma WriteArg(p: Pen, a: Arg)
    ensures PrintAll(p, ArgNodes(a)) ==
            Pen(p.text + ((if p.count > 0 then "," else "") + ArgText(a)), p.count + 1, a.isString && !a.closed)
  {
    hide TrimName, Dump, ArgText, OpenValue, PrintAll;
    var front := [Node(ArgOpen, a.openText), Node(ArgName, a.name)];
    var values := ValueNodes([a.value] + a.more, a.isString);
    var end := if a.closed then [Node(ArgClose, a.closeText)] else [];
    var sep, name := if p.count > 0 then "," else "", Dump(TrimName(a.name));
    PrintName(p, a);
    var p1 := Pen(p.text + sep + name + ":", p.count + 1, false);
    PrintAppend(p, front, values + end);
    PrintAppend(p1, values, end);
    PrintValue(p1, a);
    var p2 := Pen(p1.text + OpenValue(a), p1.count, a.isString);
    PrintEnd(p2, a);
    ArgIs(a);
    ArgWritten(p.text, sep, name, OpenValue(a), if a.isString && a.closed then "\"" else "");
  }

  lemma ArgWritten(text: string, sep: string, name: string, value: string, quote: string)
    ensures (text + sep + name + ":" + value) + quote == text + (sep + (name + ":" + (value + quote)))
  {
  }

  /** The nodes of all arguments write their texts, in order. */
  lemma {:induction false} WriteAll(p: Pen, args: seq<Arg>)
    ensures PrintAll(p, AllNodes(args)) ==
            Pen(p.text + ArgsText(args, p.count > 0), p.count + |args|, if args == [] then p.quote else QuoteDue(args))
    decreases |args|
  {
    hide ArgNodes, ArgText;
    if args == [] {
      assert p.text + "" == p.text;
    } else {
      var rest := args[1..];
      var piece := (if p.count > 0 then "," else "") + ArgText(args[0]);
      var p1 := Pen(p.text + piece, p.count + 1, args[0].isString && !args[0].closed);
      WriteArg(p, args[0]);
      PrintAppend(p, ArgNodes(args[0]), AllNodes(rest));
      WriteAll(p1, rest);
      assert p.text + (piece + ArgsText(rest, true)) == (p.text + piece) + ArgsText(rest, true);
      assert rest == [] ==> args[|args| - 1] == args[0] && ArgsText(rest, true) == "";
      assert rest != [] ==> args[|args| - 1] == rest[|rest| - 1];
    }
  }

  lemma {:induction false} ValuesTagged(values: seq<string>, isString: bool)
    ensures AllTagged(ValueNodes(values, isString))
  {
    if values != [] {
      ValuesTagged(values[1..], isString);
    }
  }

  lemma {:induction false} NodesTagged(args: seq<Arg>)
    ensures AllTagged(AllNodes(args))
  {
    if args != [] {
      ValuesTagged([args[0].value] + args[0].more, args[0].isString);
      NodesTagged(args[1..]);
    }
  }

  /** Closing the call writes the quote that is due and closes the braces. */
  lemma CloseCall(s: State, node: Node, before: seq<ToolCall>, name: string, id: string, p: Pen)
    requires Writing(s, before, name, id, p) && node.tag == ToolClose
    ensures Mappable(s, node)
    ensures Next(s, node).calls == before + [ToolCall(name, id, WithBraces(p.text + if p.quote then "\"" else ""))]
  {
    hide NetBraces, JsonTokens, Repeat;
    var n := |before|;
    assert s.calls[n] == ToolCall(name, id, p.text);
    assert forall c: ToolCall :: s.calls[n := c] == before + [c];
  }

  /** The nodes of a call without its closing node, with the name after the first `k` argument nodes. */
  function OpenNodes(open: Node, args: seq<Arg>, name: Node, k: nat): (run: seq<Node>)
    requires k <= |AllNodes(args)|
  {
    [open] + (AllNodes(args)[..k] + [name] + AllNodes(args)[k..])
  }

  function CallNodes(open: Node, args: seq<Arg>, name: Node, k: nat, close: Node): (run: seq<Node>)
    requires k <= |AllNodes(args)|
  {
    OpenNodes(open, args, name, k) + [close]
  }

  /** While a call is being read its arguments are the text of what was given so far, wherever its name stood. */
  lemma OpenCallText(s: State, open: Node, args: seq<Arg>, name: Node, k: nat)
    requires open.tag == ToolOpen && name.tag == ToolName && TrimEnd(name.text) != "" && k <= |AllNodes(args)|
    ensures Safe(s, OpenNodes(open, args, name, k))
    ensures var r := RunNodes(s, OpenNodes(open, args, name, k));
            Writing(r, s.calls, TrimEnd(name.text), "", Pen("{" + ArgsText(args, false), |args|, QuoteDue(args)))
  {
    hide TrimEnd, Writing, ArgsText, QuoteDue, PrintAll;
    var nodes := AllNodes(args);
    var s1 := Next(s, open);
    var n := TrimEnd(name.text);
    var s2 := Named(s1, n);
    assert Writing(s2, s.calls, n, "", Pen("{", 0, false)) by { StartsWriting(s, open, n); }
    NodesTagged(args);
    WriteNodes(s2, nodes, s.calls, n, "", Pen("{", 0, false));
    WriteAll(Pen("{", 0, false), args);
    assert args == [] ==> !QuoteDue(args) by { NothingDue(); }
    NodesInOrder(args);
    assert nodes[..k] + nodes[k..] == nodes;
    NamePosition(s1, name, nodes[..k], nodes[k..]);
    OneNode(s1, name);
    RunNodesAppend(s1, [name], nodes);
    OneNode(s, open);
    RunNodesAppend(s, [open], nodes[..k] + [name] + nodes[k..]);
  }

  lemma NothingDue()
    ensures !QuoteDue([])
  {
  }

  lemma StartsWriting(s: State, open: Node, n: string)
    requires open.tag == ToolOpen && n != ""
    ensures Writing(Named(Next(s, open), n), s.calls, n, "", Pen("{", 0, false))
  {
  }

  /** Closed, the call is listed with that text, the quote that is due and the braces that are open. */
  lemma CallText(s: State, open: Node, args: seq<Arg>, name: Node, k: nat, close: Node)
    requires open.tag == ToolOpen && name.tag == ToolName && close.tag == ToolClose
    requires TrimEnd(name.text) != "" && k <= |AllNodes(args)|
    ensures Safe(s, CallNodes(open, args, name, k, close))
    ensures RunNodes(s, CallNodes(open, args, name, k, close)).calls == s.calls +
            [ToolCall(TrimEnd(name.text), "",
                      WithBraces("{" + ArgsText(args, false) + if QuoteDue(args) then "\"" else ""))]
  {
    hide TrimEnd, Writing, ArgsText, QuoteDue, OpenNodes, WithBraces, Next;
    OpenCallText(s, open, args, name, k);
    var front := OpenNodes(open, args, name, k);
    var r := RunNodes(s, front);
    CloseCall(r, close, s.calls, TrimEnd(name.text), "", Pen("{" + ArgsText(args, false), |args|, QuoteDue(args)));
    OneNode(r, close);
    RunNodesAppend(s, front, [close]);
  }

  lemma {:induction false} ValuesInOrder(values: seq<string>, isString: bool, rest: seq<Node>)
    requires InOrder(rest, true)
    ensures InOrder(ValueNodes(values, isString) + rest, true)
  {
    var nodes := ValueNodes(values, isString);
    if values == [] {
      assert nodes + rest == rest;
    } else {
      assert (nodes + rest)[1..] == nodes[1..] + rest;
      ValuesInOrder(values[1..], isString, rest);
    }
  }

  /** The nodes of arguments are in order: every value has its name before it. */
  lemma {:induction false} NodesInOrder(args: seq<Arg>)
    ensures InOrder(AllNodes(args), false) && InOrder(AllNodes(args), true)
  {
    if args != [] {
      NodesInOrder(args[1..]);
      hide InOrder, AllNodes, ArgNodes;
      NodesOf(args);
      ArgInOrder(args[0], AllNodes(args[1..]));
    }
  }

  lemma ArgInOrder(a: Arg, rest: seq<Node>)
    requires InOrder(rest, true)
    ensures InOrder(ArgNodes(a) + rest, false) && InOrder(ArgNodes(a) + rest, true)
  {
    hide InOrder, ValueNodes;
    var values := ValueNodes([a.value] + a.more, a.isString);
    var end := if a.closed then [Node(ArgClose, a.closeText)] else [];
    if a.closed {
      InFront(end[0], rest, true);
    } else {
      assert end + rest == rest;
    }
    ValuesInOrder([a.value] + a.more, a.isString, end + rest);
    var open, name, behind := Node(ArgOpen, a.openText), Node(ArgName, a.name), values + (end + rest);
    assert ArgNodes(a) + rest == [open] + ([name] + behind);
    InFront(name, behind, false);
    InFront(name, behind, true);
    InFront(open, [name] + behind, false);
    InFront(open, [name] + behind, true);
  }

  lemma NodesOf(args: seq<Arg>)
    requires args != []
    ensures AllNodes(args) == ArgNodes(args[0]) + AllNodes(args[1..])
  {
  }

  lemma InFront(node: Node, rest: seq<Node>, named: bool)
    requires IsArgNode(node) && node.tag !in {ArgValue, ArgStringValue} && InOrder(rest, named || node.tag == ArgName)
    ensures InOrder([node] + rest, named)
  {
    assert ([node] + rest)[1..] == rest;
  }

  // ---------- Calls that are JSON

  /** The text of a string that comes in pieces. */
  function Content(values: seq<string>): (text: string) {
    if values == [] then "" else TrimValue(values[0]) + Content(values[1..])
  }

  /** The text of an argument's value, a string with both quotes. */
  function ValueText(a: Arg): (text: string) {
    if a.isString then Dump(Content([a.value] + a.more)) else RawTexts([a.value] + a.more)
  }

  function Member(a: Arg): (r: (string, string)) { (TrimName(a.name), ValueText(a)) }

  function MembersOf(args: seq<Arg>): (ms: Members)
    ensures |ms| == |args|
  {
    seq(|args|, i requires 0 <= i < |args| => Member(args[i]))
  }

  predicate NoneBlank(values: seq<string>) {
    forall i :: 0 <= i < |values| ==> TrimValue(values[i]) != ""
  }

  /** Values that are not strings are complete, no string has a further piece without text, and a string that is not
      closed comes last. */
  predicate WellFormed(args: seq<Arg>) {
    forall i :: 0 <= i < |args| ==>
      && (args[i].isString ==> NoneBlank(args[i].more))
      && (args[i].isString || Complete(ValueText(args[i])))
      && (args[i].isString && !args[i].closed ==> i == |args| - 1)
  }

  lemma {:induction false} EscapeAppend(a: string, b: string)
    ensures Escape(a + b) == Escape(a) + Escape(b)
    decreases |a|
  {
    hide EscapeChar;
    if a == "" {
      assert a + b == b;
    } else {
      assert (a + b)[0] == a[0] && (a + b)[1..] == a[1..] + b;
      EscapeAppend(a[1..], b);
    }
  }

  lemma {:induction false} PiecesEscape(values: seq<string>)
    requires NoneBlank(values)
    ensures Pieces(values) == Escape(Content(values))
  {
    hide TrimValue;
    if values == [] {
      assert Escape("") == "";
    } else {
      PiecesEscape(values[1..]);
      EscapeAppend(TrimValue(values[0]), Content(values[1..]));
    }
  }

  /** An argument is written as its member, but for the quote that a string may wait for. */
  lemma ArgIsMember(a: Arg)
    requires a.isString ==> NoneBlank(a.more)
    ensures ArgText(a) + (if a.isString && !a.closed then "\"" else "") == MemberText(Member(a))
  {
    hide TrimName, TrimValue, Escape, RawTexts, Pieces, NoneBlank;
    var name, quote := Dump(TrimName(a.name)), if a.isString && !a.closed then "\"" else "";
    if a.isString {
      var v := TrimValue(a.value);
      PiecesEscape(a.more);
      EscapeAppend(v, Content(a.more));
      assert ([a.value] + a.more)[1..] == a.more;
      var text := Escape(v) + Pieces(a.more);
      assert text == Escape(Content([a.value] + a.more));
      Quoted(name, Escape(v), Pieces(a.more), if a.closed then "\"" else "", quote);
    } else {
      assert ArgText(a) + "" == ArgText(a);
    }
  }

  lemma Quoted(name: string, a: string, b: string, q: string, quote: string)
    requires q + quote == "\""
    ensures (name + ":" + ("\"" + a + b + q)) + quote == name + ":" + ("\"" + (a + b) + "\"")
  {
    assert "\"" + a + b == "\"" + (a + b);
    assert (name + ":" + ("\"" + a + b + q)) + quote == name + ":" + ("\"" + a + b + (q + quote));
  }

  lemma {:induction false} ArgsAreMembers(args: seq<Arg>, comma: bool)
    requires WellFormed(args)
    ensures ArgsText(args, comma) + (if QuoteDue(args) then "\"" else "") ==
            (if comma && args != [] then "," else "") + MembersText(MembersOf(args))
    decreases |args|
  {
    hide ArgText, MembersText, MemberText, Member, Complete, ValueText, NoneBlank;
    if args == [] {
      MembersTextBack([], ("", ""));
      assert MembersOf(args) == [];
    } else {
      var a, rest := args[0], args[1..];
      var sep := if comma then "," else "";
      ArgIsMember(a);
      MembersTextFront(Member(a), MembersOf(rest));
      assert MembersOf(args) == [Member(a)] + MembersOf(rest);
      if rest == [] {
        assert args[|args| - 1] == a && ArgsText(rest, true) == "";
        assert sep + ArgText(a) + "" == sep + ArgText(a);
        assert MembersOf(rest) == [];
      } else {
        assert args[|args| - 1] == rest[|rest| - 1];
        assert WellFormed(rest) by {
          assert forall i :: 0 <= i < |rest| ==> rest[i] == args[i + 1];
        }
        ArgsAreMembers(rest, true);
        var due := if QuoteDue(args) then "\"" else "";
        assert ArgText(a) + "" == ArgText(a);
        Separated(sep, ArgText(a), ArgsText(rest, true), due, MembersText(MembersOf(rest)));
      }
    }
  }

  lemma Separated(sep: string, first: string, rest: string, due: string, ms: string)
    requires rest + due == "," + ms
    ensures (sep + first + rest) + due == sep + (first + ("," + ms))
  {
    assert (sep + first + rest) + due == sep + first + (rest + due);
  }

  /** A tool call comes out as one JSON object that reads back as its arguments: trimmed names with the
      texts of their values, in the order they came, wherever the name of the call stood. */
  lemma CallIsJson(s: State, open: Node, args: seq<Arg>, name: Node, k: nat, close: Node)
    requires open.tag == ToolOpen && name.tag == ToolName && close.tag == ToolClose
    requires TrimEnd(name.text) != "" && WellFormed(args) && k <= |AllNodes(args)|
    ensures Safe(s, CallNodes(open, args, name, k, close))
    ensures var r := RunNodes(s, CallNodes(open, args, name, k, close));
            && |r.calls| == |s.calls| + 1 && r.calls[..|s.calls|] == s.calls
            && var call := r.calls[|s.calls|];
            && call.name == TrimEnd(name.text) && call.arguments == "{" + MembersText(MembersOf(args)) + "}"
            && ReadObject(call.arguments) == Some(MembersOf(args))
  {
    hide TrimEnd, WellFormed, MembersText, ReadObject, CallNodes, RunNodes, Safe, ArgsText, WithBraces, QuoteDue;
    CallText(s, open, args, name, k, close);
    ArgsAreMembers(args, false);
    var ms := MembersOf(args);
    var due := if QuoteDue(args) then "\"" else "";
    assert "" + MembersText(ms) == MembersText(ms);
    assert "{" + ArgsText(args, false) + due == "{" + (ArgsText(args, false) + due);
    MembersComplete(args);
    ObjectCloses(ms);
    ReadWritten(ms);
  }

  lemma ObjectCloses(ms: Members)
    requires AllComplete(ms)
    ensures WithBraces("{" + MembersText(ms)) == "{" + MembersText(ms) + "}"
  {
    hide MembersText, NetBraces, JsonTokens, AllComplete;
    OpenDepth(ms);
    assert Repeat('}', 0) == "" && Repeat('}', 1) == "}";
  }

  lemma MembersComplete(args: seq<Arg>)
    requires WellFormed(args)
    ensures AllComplete(MembersOf(args))
  {
    hide Complete, Content, Dump;
    forall i | 0 <= i < |args| ensures Complete(ValueText(args[i])) {
      DumpComplete(Content([args[i].value] + args[i].more));
    }
  }

  /** A string value reads back as the trimmed text it was given. */
  lemma StringReadsBack(a: Arg)
    requires a.isString
    ensures ReadString(ValueText(a)[1..]) == Some((Content([a.value] + a.more), ""))
    ensures a.more == [] ==> Content([a.value] + a.more) == TrimValue(a.value)
  {
    hide TrimValue;
    var v := Content([a.value] + a.more);
    ReadEscaped(v, "");
    assert ValueText(a)[1..] == Escape(v) + "\"" + "";
    assert [a.value][1..] == [] && TrimValue(a.value) + "" == TrimValue(a.value);
    assert a.more == [] ==> [a.value] + a.more == [a.value];
  }

  /** A container is written with its quotes normalized: it is complete exactly when its brackets nest
      and its strings, in either style of quotes, are closed. */
  lemma ContainerComplete(a: Arg)
    requires !a.isString && a.more == [] && TrimValue(a.value) != "" && TrimValue(a.value)[0] in {'[', '{'}
    ensures Complete(ValueText(a)) <==> Nested(QuotedTokens(TrimValue(a.value), Outside), "", false)
  {
    NormalizedComplete(TrimValue(a.value));
    assert [a.value] + a.more == [a.value] && [a.value][1..] == [];
    assert RawTexts([a.value]) == RawText(a.value) + "" == RawText(a.value);
  }

  // ---------- Arguments as values

  /** The arguments whose text is JSON: strings always are. */
  predicate IsRead(a: Arg) {
    a.isString || ReadText(ValueText(a)).Some?
  }

  predicate AreRead(args: seq<Arg>) {
    forall i :: 0 <= i < |args| ==> IsRead(args[i])
  }

  /** What an argument means: its trimmed name, with the trimmed text of a string or the value that its text is. */
  function Meaning(a: Arg): (pair: (string, JsonValue))
    requires IsRead(a)
  {
    (TrimName(a.name), if a.isString then StringValue(Content([a.value] + a.more)) else ReadText(ValueText(a)).value)
  }

  function Meanings(args: seq<Arg>): (pairs: seq<(string, JsonValue)>)
    requires AreRead(args)
  {
    if args == [] then [] else [Meaning(args[0])] + Meanings(args[1..])
  }

  lemma MemberIsRead(a: Arg)
    ensures ReadText(Member(a).1).Some? <==> IsRead(a)
    ensures IsRead(a) ==> (Member(a).0, ReadText(Member(a).1).value) == Meaning(a)
  {
    hide TrimName, Content, Dump, ReadValue;
    if a.isString {
      var v := Content([a.value] + a.more);
      StringReads(v, "");
      assert Dump(v) + "" == Dump(v);
    }
  }

  lemma {:induction false} MembersAreRead(args: seq<Arg>)
    ensures AllRead(MembersOf(args)) <==> AreRead(args)
    ensures AllRead(MembersOf(args)) ==> ReadAll(MembersOf(args)) == Meanings(args)
  {
    hide IsRead, Member, Meaning, ReadText;
    if args != [] {
      var rest := args[1..];
      MemberIsRead(args[0]);
      MembersAreRead(rest);
      assert MembersOf(args)[1..] == MembersOf(rest);
      AllReadFront(MembersOf(args));
      AreReadFront(args);
    }
  }

  lemma AllReadFront(ms: Members)
    requires ms != []
    ensures AllRead(ms) <==> ReadText(ms[0].1).Some? && AllRead(ms[1..])
  {
    hide ReadText;
    assert ms == [ms[0]] + ms[1..];
  }

  lemma AreReadFront(args: seq<Arg>)
    requires args != []
    ensures AreRead(args) <==> IsRead(args[0]) && AreRead(args[1..])
  {
    hide IsRead;
    assert args == [args[0]] + args[1..];
  }

  /** The arguments of a call are a JSON text exactly when every value that is not a string is one, and are then read as
      the object of the trimmed names with these values, in the order they came. */
  lemma CallIsValue(s: State, open: Node, args: seq<Arg>, name: Node, k: nat, close: Node)
    requires open.tag == ToolOpen && name.tag == ToolName && close.tag == ToolClose
    requires TrimEnd(name.text) != "" && WellFormed(args) && k <= |AllNodes(args)|
    ensures Safe(s, CallNodes(open, args, name, k, close))
    ensures var r := RunNodes(s, CallNodes(open, args, name, k, close));
            && |r.calls| == |s.calls| + 1
            && ReadText(r.calls[|s.calls|].arguments) ==
               if AreRead(args) then Some(ObjectValue(Meanings(args))) else None
  {
    hide TrimEnd, WellFormed, MembersText, ReadObject, ReadText, RunNodes, CallNodes, AllNodes, AreRead, Safe;
    CallIsJson(s, open, args, name, k, close);
    MembersComplete(args) by { hide AllComplete; }
    ObjectIsRead(MembersOf(args));
    MembersAreRead(args);
  }
}
