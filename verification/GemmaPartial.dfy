/** What is printed of a Gemma 4 tool call while it is still being written (common/chat-peg-parser.cpp). */
module GemmaPartial {
  import opened Wrappers
  import opened Json
  import opened JsonValues
  import opened Gemma
  import opened GemmaValues
  import Mapper

  /** A tree as the parser leaves it when the text ends anywhere: a node whose last child is not finished is not
      finished either, and a finished string has its content. */
  predicate Cut(a: Ast)
    decreases a, 1
  {
    && (a.children != [] && a.children[|a.children| - 1].isPartial ==> a.isPartial)
    && (a.rule == StringRule ==> |a.children| <= 1 && (a.children == [] ==> a.isPartial))
    && (a.rule == Value ==> |a.children| <= 1)
    && (a.rule in {ArrayRule, Dict, DictKv, Value} && a.children != [] ==> Cut(a.children[|a.children| - 1]))
  }

  /** The same tree, had the text ended properly where it was cut. */
  function Finish(a: Ast): (b: Ast)
    decreases a, 1
  {
    match a.rule
    case StringRule =>
      Ast(StringRule, a.text, false, if a.children == [] then [Ast(StringContent, "", false, [])] else a.children)
    case ArrayRule | Dict | DictKv | Value => Ast(a.rule, a.text, false, FinishLast(a.children))
    case _ => a.(isPartial := false)
  }

  function FinishLast(nodes: seq<Ast>): (r: seq<Ast>)
    ensures |r| == |nodes|
    decreases nodes, 0
  {
    if nodes == [] then []
    else
      var n := |nodes| - 1;
      nodes[..n] + [Finish(nodes[n])]
  }

  /** The text between what is printed and what would be printed then: a quote, a key's end and brackets. */
  function Missing(a: Ast): (text: string)
    decreases a, 1
  {
    if a.text == "" then ""
    else match a.rule
      case StringRule => if a.isPartial then "\"" else ""
      case ArrayRule => MissingLast(a.children) + if a.isPartial then "]" else ""
      case Dict => MissingLast(a.children) + if a.isPartial then "}" else ""
      case DictKey => if a.isPartial then "\":" else ""
      case DictKv | Value => MissingLast(a.children)
      case _ => ""
  }

  function MissingLast(nodes: seq<Ast>): (text: string)
    decreases nodes, 0
  {
    if nodes == [] then "" else Missing(nodes[|nodes| - 1])
  }

  lemma {:induction false} NothingMissing(a: Ast)
    requires Cut(a) && !a.isPartial
    ensures Missing(a) == ""
    decreases a, 1
  {
    if a.rule in {ArrayRule, Dict, DictKv, Value} && a.children != [] {
      NothingMissing(a.children[|a.children| - 1]);
    }
  }

  /** Everything up to the cut is printed: what is printed for the finished tree is what was printed and the missing
      text, for a cut at any place. */
  lemma {:induction false} MissingText(a: Ast)
    requires Cut(a)
    ensures ToJson(Finish(a)) == ToJson(a) + Missing(a)
    decreases a, 1
  {
    hide Escape;
    var json := ToJson(a);
    assert json + "" == json;
    if a.text != "" {
      match a.rule {
        case StringRule => StringMissing(a);
        case ArrayRule | Dict =>
          LastMissing(a.children, ",");
          BracketMissing(a);
        case DictKv => LastMissing(a.children, "");
        case Value =>
          hide Joined;
          if a.children != [] {
            MissingText(a.children[0]);
          }
        case DictKey => KeyMissing(a);
        case _ =>
      }
    }
  }

  lemma BracketMissing(a: Ast)
    requires a.rule in {ArrayRule, Dict} && Cut(a) && a.text != ""
    requires Joined(FinishLast(a.children), ",") == Joined(a.children, ",") + MissingLast(a.children)
    ensures ToJson(Finish(a)) == ToJson(a) + Missing(a)
  {
    hide Joined, MissingLast, FinishLast;
    if !a.isPartial {
      LastFinished(a.children);
    }
    if a.rule == ArrayRule {
      Closing("[", Joined(a.children, ","), MissingLast(a.children), "]");
    } else {
      Closing("{", Joined(a.children, ","), MissingLast(a.children), "}");
    }
  }

  lemma LastFinished(nodes: seq<Ast>)
    requires nodes != [] ==> Cut(nodes[|nodes| - 1]) && !nodes[|nodes| - 1].isPartial
    ensures MissingLast(nodes) == ""
  {
    if nodes != [] {
      NothingMissing(nodes[|nodes| - 1]);
    }
  }

  lemma Closing(open: string, x: string, missing: string, close: string)
    ensures open + (x + missing) + close == (open + x + "") + (missing + close)
    ensures missing == "" ==> open + (x + missing) + close == (open + x + close) + (missing + "")
  {
  }

  lemma StringMissing(a: Ast)
    requires a.rule == StringRule && Cut(a) && a.text != ""
    ensures ToJson(Finish(a)) == ToJson(a) + Missing(a)
  {
    if a.children != [] {
      var c := ToJson(a.children[0]);
      assert ("\"" + (c + "")) + "\"" == "\"" + (c + "\"");
    }
  }

  lemma KeyMissing(a: Ast)
    requires a.rule == DictKey && a.text != ""
    ensures ToJson(Finish(a)) == ToJson(a) + Missing(a)
  {
    hide Escape;
    var name := if a.children == [] then "" else Escape(ToJson(a.children[0]));
    assert ("\"" + name + "") + "\":" == "\"" + name + "\":";
  }

  lemma {:induction false} LastMissing(nodes: seq<Ast>, sep: string)
    requires nodes != [] ==> Cut(nodes[|nodes| - 1])
    ensures Joined(FinishLast(nodes), sep) == Joined(nodes, sep) + MissingLast(nodes)
    decreases nodes, 0
  {
    hide ToJson, Finish, Missing;
    if nodes != [] {
      var n := |nodes| - 1;
      MissingText(nodes[n]);
      JoinedBack(nodes, sep);
      JoinedBack(FinishLast(nodes), sep);
      assert FinishLast(nodes)[..n] == nodes[..n];
      var front := if n == 0 then "" else Joined(nodes[..n], sep) + sep;
      assert front + (ToJson(nodes[n]) + Missing(nodes[n])) == (front + ToJson(nodes[n])) + Missing(nodes[n]);
    }
  }

  // ---------- What is received so far

  /** A tree that is cut inside a string, an array or a dictionary, or not at all. */
  ghost predicate Begun(a: Ast)
    decreases a, 1
  {
    match a.rule
    case Number => IsNumber(Mapper.TrimEnd(a.text))
    case Bool => Mapper.TrimEnd(a.text) in {"true", "false"}
    case Null => Mapper.TrimEnd(a.text) == "null"
    case StringRule => a.text != "" && |a.children| <= 1 && (a.children != [] ==> a.children[0].rule == StringContent)
    case ArrayRule =>
      a.text != "" && (a.children != [] ==> AllWhole(Front(a.children)) && Begun(a.children[|a.children| - 1]))
    case Dict =>
      a.text != ""
      && (a.children != [] ==> AllWholeMembers(Front(a.children)) && BegunMember(a.children[|a.children| - 1]))
    case Value => a.text != "" && |a.children| == 1 && a.children[0].rule != Value && Begun(a.children[0])
    case _ => false
  }

  /** A key with its colon, and a value that has begun. */
  ghost predicate BegunMember(kv: Ast)
    decreases kv, 0
  {
    && kv.rule == DictKv && kv.text != "" && |kv.children| == 2
    && IsKey(kv.children[0]) && Begun(kv.children[1])
  }

  function Front<T>(nodes: seq<T>): (front: seq<T>)
    requires nodes != []
  {
    nodes[..|nodes| - 1]
  }

  /** The value as far as it has been received. */
  ghost function Received(a: Ast): (v: JsonValue)
    requires Begun(a)
    decreases a, 1
  {
    match a.rule
    case Number => NumberValue(Mapper.TrimEnd(a.text))
    case Bool => BoolValue(Mapper.TrimEnd(a.text) == "true")
    case Null => NullValue
    case StringRule => StringValue(if a.children == [] then "" else a.children[0].text)
    case ArrayRule =>
      ListValue(if a.children == [] then []
                else ValuesOf(Front(a.children)) + [Received(a.children[|a.children| - 1])])
    case Dict =>
      if a.children == [] then ObjectValue([])
      else
        var kv := a.children[|a.children| - 1];
        assert BegunMember(kv);
        ObjectValue(PairsOf(Front(a.children)) + [(kv.children[0].children[0].text, Received(kv.children[1]))])
    case Value => Received(a.children[0])
  }

  lemma {:induction false} FinishIsWhole(a: Ast)
    requires Begun(a)
    ensures Whole(Finish(a))
    decreases a, 1
  {
    hide IsNumber, Mapper.TrimEnd;
    match a.rule {
      case ArrayRule =>
        if a.children != [] {
          FinishIsWhole(a.children[|a.children| - 1]);
        }
      case Dict =>
        if a.children != [] {
          MemberIsWhole(a.children[|a.children| - 1]);
        }
      case Value => FinishIsWhole(a.children[0]);
      case _ =>
    }
  }

  lemma {:induction false} MemberIsWhole(kv: Ast)
    requires BegunMember(kv)
    ensures WholeMember(Finish(kv)) && KeyName(Finish(kv)) == kv.children[0].children[0].text
    ensures Finish(kv).children[1] == Finish(kv.children[1])
    decreases kv, 0
  {
    FinishIsWhole(kv.children[1]);
    assert FinishLast(kv.children) == [kv.children[0], Finish(kv.children[1])];
  }

  lemma {:induction false} ReceivedIs(a: Ast)
    requires Begun(a) && Whole(Finish(a))
    ensures ValueOf(Finish(a)) == Received(a)
    decreases a, 1
  {
    hide IsNumber, Mapper.TrimEnd;
    match a.rule {
      case ArrayRule =>
        if a.children == [] {
          assert FinishLast(a.children) == [];
        } else {
          var n := |a.children| - 1;
          var front, last := a.children[..n], a.children[n];
          FinishIsWhole(last);
          ReceivedIs(last);
          ValuesSnoc(front, Finish(last));
        }
      case Dict =>
        if a.children == [] {
          assert FinishLast(a.children) == [];
        } else {
          var n := |a.children| - 1;
          var front, last := a.children[..n], a.children[n];
          MemberIsWhole(last);
          ReceivedIs(last.children[1]);
          PairsSnoc(front, Finish(last));
        }
      case Value => ReceivedIs(a.children[0]);
      case _ =>
    }
  }

  lemma {:induction false} ValuesSnoc(nodes: seq<Ast>, last: Ast)
    requires AllWhole(nodes) && Whole(last)
    ensures AllWhole(nodes + [last]) && ValuesOf(nodes + [last]) == ValuesOf(nodes) + [ValueOf(last)]
    decreases |nodes|
  {
    hide Whole, ValueOf;
    var all := nodes + [last];
    if nodes == [] {
      assert all[1..] == [] && ValuesOf([]) == [];
    } else {
      assert all[0] == nodes[0] && all[1..] == nodes[1..] + [last];
      ValuesSnoc(nodes[1..], last);
    }
  }

  lemma {:induction false} PairsSnoc(nodes: seq<Ast>, last: Ast)
    requires AllWholeMembers(nodes) && WholeMember(last)
    ensures AllWholeMembers(nodes + [last])
    ensures PairsOf(nodes + [last]) == PairsOf(nodes) + [(KeyName(last), ValueOf(last.children[1]))]
    decreases |nodes|
  {
    hide WholeMember, ValueOf, KeyName;
    var all := nodes + [last];
    if nodes == [] {
      assert all[1..] == [] && PairsOf([]) == [];
    } else {
      assert all[0] == nodes[0] && all[1..] == nodes[1..] + [last];
      PairsSnoc(nodes[1..], last);
    }
  }

  predicate AreClosers(text: string) {
    forall i :: 0 <= i < |text| ==> text[i] in {'"', ']', '}'}
  }

  lemma {:induction false} OnlyClosers(a: Ast)
    requires Begun(a)
    ensures AreClosers(Missing(a))
    decreases a, 1
  {
    match a.rule {
      case ArrayRule =>
        if a.children != [] {
          OnlyClosers(a.children[|a.children| - 1]);
        }
        MoreClosers(MissingLast(a.children), if a.isPartial then "]" else "");
      case Dict =>
        if a.children != [] {
          var kv := a.children[|a.children| - 1];
          assert BegunMember(kv);
          OnlyClosers(kv.children[1]);
          assert Missing(kv) == MissingLast(kv.children) == Missing(kv.children[1]);
        }
        MoreClosers(MissingLast(a.children), if a.isPartial then "}" else "");
      case Value => OnlyClosers(a.children[0]);
      case _ =>
    }
  }

  lemma MoreClosers(inner: string, close: string)
    requires AreClosers(inner) && close in {"", "]", "}"}
    ensures AreClosers(inner + close)
  {
  }

  /** What is printed of a tree that is cut inside a string, an array or a dictionary, with the quote and the brackets
      that are open closed, reads as the value received so far, as long as no white space that is not JSON's is in
      it. */
  lemma PartialReads(a: Ast)
    requires Begun(a) && Cut(a)
    ensures AreClosers(Missing(a))
    ensures Whole(Finish(a))
    ensures ReadText(ToJson(a) + Missing(a)) == if Clean(Finish(a)) then Some(Received(a)) else None
  {
    hide ToJson, Begun, Cut, Finish, Missing, Received, ReadText, Whole, Clean, ValueOf;
    MissingText(a);
    FinishIsWhole(a);
    ReceivedIs(a);
    OnlyClosers(a);
    WholeIsJson(Finish(a));
  }
}
