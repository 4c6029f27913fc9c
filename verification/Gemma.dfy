/** gemma4_to_json of common/chat-peg-parser.cpp: the arguments of a Gemma 4 tool call, printed as
    JSON from a syntax tree that grows while the model is still writing. */
module Gemma {
  import opened Wrappers
  import opened Json
  import opened JsonValues
  import opened JsonSplices
  import Mapper

  datatype Rule = Number | Bool | Null | StringContent | StringRule | ArrayRule
                | DictKeyName | DictKey | DictKv | Dict | Value | OtherRule

  datatype Ast = Ast(rule: Rule, text: string, isPartial: bool, children: seq<Ast>)

  function ToJson(a: Ast): (json: string)
    decreases a, 1
  {
    if a.text == "" then ""
    else match a.rule
      case Number | Bool | Null | DictKeyName => a.text
      case StringContent => Escape(a.text)
      case StringRule =>
        "\"" + if a.children == [] then "" else ToJson(a.children[0]) + (if a.isPartial then "" else "\"")
      case ArrayRule => "[" + Joined(a.children, ",") + (if a.isPartial then "" else "]")
      case DictKey =>
        "\"" + (if a.children == [] then "" else Escape(ToJson(a.children[0]))) + (if a.isPartial then "" else "\":")
      case DictKv => Joined(a.children, "")
      case Dict => "{" + Joined(a.children, ",") + (if a.isPartial then "" else "}")
      case Value => if a.children == [] then "" else ToJson(a.children[0])
      case OtherRule => ""
  }

  function Joined(nodes: seq<Ast>, sep: string): (json: string)
    decreases nodes, 0
  {
    if nodes == [] then ""
    else
      var n := |nodes| - 1;
      Joined(nodes[..n], sep) + (if n > 0 then sep else "") + ToJson(nodes[n])
  }

  /** The tree b is the tree a after more text has arrived: texts grow, siblings follow the last child,
      and the last child may itself have grown. What has a closing character grows only while partial. */
  predicate Grows(a: Ast, b: Ast)
    decreases a, 1
  {
    a == b ||
    (a.rule == b.rule && a.text <= b.text &&
     match a.rule
     case StringRule | ArrayRule | DictKey | Dict => a.isPartial && ChildrenGrow(a.children, b.children)
     case DictKv | Value => ChildrenGrow(a.children, b.children)
     case _ => true)
  }

  predicate ChildrenGrow(xs: seq<Ast>, ys: seq<Ast>)
    decreases xs, 0
  {
    xs == [] ||
    (var n := |xs| - 1;
     |xs| <= |ys| && xs[..n] == ys[..n] && Grows(xs[n], ys[n]))
  }

  /** Escaping more text only adds to the escaped text. */
  lemma {:induction false} EscapeGrows(s: string, t: string)
    requires s <= t
    ensures Escape(s) <= Escape(t)
  {
    if s != "" {
      assert s[0] == t[0];
      EscapeGrows(s[1..], t[1..]);
    }
  }

  /** What was printed for a tree is a prefix of what is printed for the tree it grows into. */
  lemma {:induction false} JsonGrows(a: Ast, b: Ast)
    requires Grows(a, b)
    ensures ToJson(a) <= ToJson(b)
    decreases a, 1
  {
    hide Escape;
    if a != b && a.text != "" {
      assert b.text != "";
      match a.rule {
        case StringContent => EscapeGrows(a.text, b.text);
        case StringRule =>
          if a.children != [] {
            JsonGrowsFirst(a.children, b.children);
          }
          GrowsInside("\"", FirstJson(a), "", FirstJson(b), if b.isPartial || b.children == [] then "" else "\"");
        case Value =>
          if a.children != [] {
            JsonGrowsFirst(a.children, b.children);
          }
        case DictKey =>
          if a.children != [] {
            JsonGrowsFirst(a.children, b.children);
            EscapeGrows(ToJson(a.children[0]), ToJson(b.children[0]));
          }
          GrowsInside("\"", EscapedFirst(a), "", EscapedFirst(b), if b.isPartial then "" else "\":");
        case ArrayRule =>
          JoinedGrows(a.children, b.children, ",");
          GrowsInside("[", Joined(a.children, ","), "", Joined(b.children, ","), if b.isPartial then "" else "]");
        case Dict =>
          JoinedGrows(a.children, b.children, ",");
          GrowsInside("{", Joined(a.children, ","), "", Joined(b.children, ","), if b.isPartial then "" else "}");
        case DictKv => JoinedGrows(a.children, b.children, "");
        case _ =>
      }
    }
  }

  function FirstJson(a: Ast): (text: string) {
    if a.children == [] then "" else ToJson(a.children[0])
  }

  function EscapedFirst(a: Ast): (text: string) {
    if a.children == [] then "" else Escape(ToJson(a.children[0]))
  }

  lemma GrowsInside(open: string, x: string, none: string, y: string, close: string)
    requires x <= y && none == ""
    ensures open + x + none <= open + y + close && open + x <= open + y + close
            && open + (x + none) <= open + (y + close)
    ensures open + none <= open + y + close
  {
  }

  lemma {:induction false} JsonGrowsFirst(xs: seq<Ast>, ys: seq<Ast>)
    requires xs != [] && ChildrenGrow(xs, ys)
    ensures ys != [] && ToJson(xs[0]) <= ToJson(ys[0])
    decreases xs, 0
  {
    if |xs| == 1 {
      JsonGrows(xs[0], ys[0]);
    } else {
      assert xs[..|xs| - 1][0] == ys[..|xs| - 1][0];
    }
  }

  lemma {:induction false} JoinedGrows(xs: seq<Ast>, ys: seq<Ast>, sep: string)
    requires ChildrenGrow(xs, ys)
    ensures Joined(xs, sep) <= Joined(ys, sep)
    decreases xs, 0
  {
    if xs != [] {
      var n := |xs| - 1;
      JsonGrows(xs[n], ys[n]);
      assert ys[..n + 1][..n] == ys[..n];
      assert Joined(xs, sep) <= Joined(ys[..n + 1], sep);
      JoinedPrefix(ys, n + 1, sep);
    }
  }

  lemma {:induction false} JoinedPrefix(ys: seq<Ast>, n: nat, sep: string)
    requires n <= |ys|
    ensures Joined(ys[..n], sep) <= Joined(ys, sep)
    decreases |ys|
  {
    if n == |ys| {
      assert ys[..n] == ys;
    } else {
      var m := |ys| - 1;
      assert ys[..m][..n] == ys[..n];
      JoinedPrefix(ys[..m], n, sep);
    }
  }

  /** A stream of trees in which each has grown out of the one before. */
  predicate IsStream(trees: seq<Ast>) {
    forall i :: 0 < i < |trees| ==> Grows(trees[i - 1], trees[i])
  }

  /** Over a whole stream nothing that was printed is ever taken back. */
  lemma {:induction false} StreamIsStable(trees: seq<Ast>, i: nat, j: nat)
    requires IsStream(trees) && i <= j < |trees|
    ensures ToJson(trees[i]) <= ToJson(trees[j])
    decreases j - i
  {
    if i < j {
      StreamIsStable(trees, i, j - 1);
      JsonGrows(trees[j - 1], trees[j]);
    }
  }

  // ---------- A finished tree prints as JSON

  /** A tree the parser has finished, shaped as its grammar says. The text of a scalar takes the white space behind it
      along, and that is whatever isspace takes for white space. */
  ghost predicate Whole(a: Ast)
    decreases a, 1
  {
    && !a.isPartial
    && match a.rule
       case Number => IsNumber(Mapper.TrimEnd(a.text))
       case Bool => Mapper.TrimEnd(a.text) in {"true", "false"}
       case Null => Mapper.TrimEnd(a.text) == "null"
       case StringRule => a.text != "" && |a.children| == 1 && a.children[0].rule == StringContent
       case ArrayRule => a.text != "" && AllWhole(a.children)
       case Dict => a.text != "" && AllWholeMembers(a.children)
       case Value => a.text != "" && |a.children| == 1 && a.children[0].rule != Value && Whole(a.children[0])
       case _ => false
  }

  ghost predicate AllWhole(nodes: seq<Ast>)
    decreases nodes, 0
  {
    forall i :: 0 <= i < |nodes| ==> Whole(nodes[i])
  }

  ghost predicate AllWholeMembers(nodes: seq<Ast>)
    decreases nodes, 0
  {
    forall i :: 0 <= i < |nodes| ==> WholeMember(nodes[i])
  }

  /** A key with its colon, and a whole value. */
  ghost predicate WholeMember(kv: Ast)
    decreases kv, 0
  {
    && kv.rule == DictKv && kv.text != "" && |kv.children| == 2
    && IsKey(kv.children[0]) && Whole(kv.children[1])
  }

  predicate IsKey(key: Ast) {
    key.rule == DictKey && !key.isPartial && key.text != "" && |key.children| == 1
    && key.children[0].rule == DictKeyName
  }

  /** The members of a finished dictionary: key names with the texts of their values. */
  function DictMembers(nodes: seq<Ast>): (ms: Members)
    requires AllWholeMembers(nodes)
    ensures |ms| == |nodes|
  {
    if nodes == [] then []
    else
      var n := |nodes| - 1;
      assert WholeMember(nodes[n]);
      var kv := nodes[n].children;
      DictMembers(nodes[..n]) + [(kv[0].children[0].text, ToJson(kv[1]))]
  }

  /** In the text of a finished tree every bracket and every string is closed again. */
  lemma {:induction false} WholeCloses(a: Ast)
    requires Whole(a)
    ensures Complete(ToJson(a))
    decreases a, 1
  {
    hide IsNumber;
    match a.rule {
      case StringRule =>
        var c := a.children[0];
        assert ToJson(a) == Dump(c.text) by {
          assert ToJson(c) == Escape(c.text);
        }
        DumpComplete(c.text);
      case ArrayRule =>
        ElementsScan(a.children);
        Bracketed('[', ']', Joined(a.children, ","));
      case Dict =>
        DictScan(a.children);
        MembersTextScan(DictMembers(a.children));
        Bracketed('{', '}', Joined(a.children, ","));
      case Value => WholeCloses(a.children[0]);
      case _ => ScalarCloses(a);
    }
  }

  lemma ScalarCloses(a: Ast)
    requires Whole(a) && a.rule in {Number, Bool, Null}
    ensures Complete(a.text)
  {
    hide IsNumber, Run;
    var z := Mapper.TrimTrailingDrops(a.text, |a.text|);
    if a.rule == Number {
      NumberChars(Mapper.TrimEnd(a.text));
    }
    PassedOver(a.text);
  }

  lemma Bracketed(open: char, close: char, body: string)
    requires (open == '[' && close == ']') || (open == '{' && close == '}')
    requires Run(Scan([open], false, false), body) == Scan([open], false, false)
    ensures Complete([open] + body + [close])
  {
    hide Run;
    RunAppend(START, [open] + body, [close]);
    RunAppend(START, [open], body);
    OneChar(START, open);
    OneChar(Scan([open], false, false), close);
    assert [open] + "" == [open] && [open][1..] == "";
  }

  /** Inside an array, whole elements with commas between them leave only the array open. */
  lemma {:induction false} ElementsScan(nodes: seq<Ast>)
    requires AllWhole(nodes)
    ensures Run(Scan("[", false, false), Joined(nodes, ",")) == Scan("[", false, false)
    decreases nodes, 0
  {
    if nodes != [] {
      var n := |nodes| - 1;
      var s, sep, v := Scan("[", false, false), if n > 0 then "," else "", ToJson(nodes[n]);
      ElementsScan(nodes[..n]);
      WholeCloses(nodes[n]);
      ElementScan(Joined(nodes[..n], ","), sep, v);
    }
  }

  lemma ElementScan(front: string, sep: string, v: string)
    requires Run(Scan("[", false, false), front) == Scan("[", false, false)
    requires (sep == "" || sep == ",") && Complete(v)
    ensures Run(Scan("[", false, false), front + sep + v) == Scan("[", false, false)
  {
    hide Run;
    var s := Scan("[", false, false);
    RunAppend(s, front + sep, v);
    RunAppend(s, front, sep);
    OneChar(s, ',');
    assert Run(START, v) == START;
    RunLifted(START, v, "[");
    assert "" + "[" == "[";
  }

  lemma {:induction false} DictScan(nodes: seq<Ast>)
    requires AllWholeMembers(nodes)
    ensures AllComplete(DictMembers(nodes)) && Joined(nodes, ",") == MembersText(DictMembers(nodes))
    decreases nodes, 0
  {
    if nodes != [] {
      var n := |nodes| - 1;
      DictScan(nodes[..n]);
      WholeCloses(nodes[n].children[1]);
      MemberIsText(nodes[n]);
      var m := (nodes[n].children[0].children[0].text, ToJson(nodes[n].children[1]));
      MembersTextBack(DictMembers(nodes[..n]), m);
    }
  }

  lemma KeyIsText(key: Ast)
    requires IsKey(key)
    ensures ToJson(key) == "\"" + Escape(key.children[0].text) + "\":"
  {
    hide Escape;
    var name := key.children[0];
    assert ToJson(name) == name.text;
    assert name.text == "" ==> Escape("") == Escape(name.text);
  }

  lemma MemberIsText(kv: Ast)
    requires WholeMember(kv)
    ensures ToJson(kv) == MemberText((kv.children[0].children[0].text, ToJson(kv.children[1])))
  {
    hide Escape, Whole;
    var cs := kv.children;
    var k, v, name := ToJson(cs[0]), ToJson(cs[1]), Escape(cs[0].children[0].text);
    KeyIsText(cs[0]);
    TwoJoined(cs);
    assert k + v == ("\"" + name + "\"") + ":" + v;
  }

  lemma TwoJoined(cs: seq<Ast>)
    requires |cs| == 2
    ensures Joined(cs, "") == ToJson(cs[0]) + ToJson(cs[1])
  {
    hide ToJson;
    assert cs[..1][..0] == [] && cs[..1][0] == cs[0];
    assert Joined(cs[..1], "") == "" + "" + ToJson(cs[0]);
    assert Joined(cs, "") == Joined(cs[..1], "") + "" + ToJson(cs[1]);
  }

  /** The arguments of a finished call read back as the members of its dictionary, in order. */
  lemma DictReadsBack(a: Ast)
    requires Whole(a) && a.rule == Dict
    ensures ReadObject(ToJson(a)) == Some(DictMembers(a.children))
  {
    DictScan(a.children);
    ReadWritten(DictMembers(a.children));
  }
}
