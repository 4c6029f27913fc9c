/** The arguments of a finished Gemma 4 tool call, read back as JSON values (common/chat-peg-parser.cpp). */
module GemmaValues {
  import opened Wrappers
  import opened Json
  import opened JsonValues
  import opened JsonSplices
  import opened Gemma
  import Mapper

  const VERTICAL_TAB: char := 11 as char
  const FORM_FEED: char := 12 as char

  // ---------- What a finished tree means

  function ValueOf(a: Ast): (v: JsonValue)
    requires Whole(a)
    decreases a, 1
  {
    match a.rule
    case Number => NumberValue(Mapper.TrimEnd(a.text))
    case Bool => BoolValue(Mapper.TrimEnd(a.text) == "true")
    case Null => NullValue
    case StringRule => StringValue(a.children[0].text)
    case ArrayRule => ListValue(ValuesOf(a.children))
    case Dict => ObjectValue(PairsOf(a.children))
    case Value => ValueOf(a.children[0])
  }

  function ValuesOf(nodes: seq<Ast>): (vs: seq<JsonValue>)
    requires AllWhole(nodes)
    decreases nodes, 0
  {
    if nodes == [] then [] else [ValueOf(nodes[0])] + ValuesOf(nodes[1..])
  }

  /** The members of a dictionary: the names as they stand in the keys, with their values. */
  function PairsOf(nodes: seq<Ast>): (ms: seq<(string, JsonValue)>)
    requires AllWholeMembers(nodes)
    decreases nodes, 0
  {
    if nodes == [] then []
    else
      assert WholeMember(nodes[0]);
      [(KeyName(nodes[0]), ValueOf(nodes[0].children[1]))] + PairsOf(nodes[1..])
  }

  function KeyName(kv: Ast): (name: string)
    requires WholeMember(kv)
  {
    kv.children[0].children[0].text
  }

  /** White space that isspace knows and JSON does not. */
  predicate IsOdd(c: char) {
    c == VERTICAL_TAB || c == FORM_FEED
  }

  predicate NoOddSpace(text: string) {
    forall i :: 0 <= i < |text| ==> !IsOdd(text[i])
  }

  /** No vertical tab and no form feed in the text of a number, a truth value or a null. */
  ghost predicate Clean(a: Ast)
    requires Whole(a)
    decreases a, 1
  {
    match a.rule
    case Number | Bool | Null => NoOddSpace(a.text)
    case ArrayRule => AllClean(a.children)
    case Dict => AllPairsClean(a.children)
    case Value => Clean(a.children[0])
    case _ => true
  }

  ghost predicate AllClean(nodes: seq<Ast>)
    requires AllWhole(nodes)
    decreases nodes, 0
  {
    nodes == [] || (Clean(nodes[0]) && AllClean(nodes[1..]))
  }

  ghost predicate AllPairsClean(nodes: seq<Ast>)
    requires AllWholeMembers(nodes)
    decreases nodes, 0
  {
    nodes == [] ||
    (assert WholeMember(nodes[0]);
     Clean(nodes[0].children[1]) && AllPairsClean(nodes[1..]))
  }

  // ---------- Scalars and strings

  /** White space that the reader does not skip. */
  predicate Stuck(t: string) {
    t != "" && IsOdd(t[0])
  }

  /** The value is read up to what follows it, or, when it is not clean, the reader gets stuck. */
  predicate Reads(r: Option<(JsonValue, string)>, v: JsonValue, rest: string, clean: bool) {
    if clean then r == Some((v, rest)) else r.None? || Stuck(r.value.1)
  }

  lemma {:induction false} SpaceBehind(z: string, rest: string)
    requires Mapper.Spaces(z) && Ends(rest)
    ensures if NoOddSpace(z) then SkipSpace(z + rest) == rest else Stuck(SkipSpace(z + rest))
  {
    if z == "" {
      assert z + rest == rest;
    } else {
      assert Mapper.IsSpace(z[0]);
      assert (z + rest)[1..] == z[1..] + rest;
      if !IsOdd(z[0]) {
        assert NoOddSpace(z) <==> NoOddSpace(z[1..]) by {
          assert forall i :: 1 <= i < |z| ==> z[i] == z[1..][i - 1];
        }
        SpaceBehind(z[1..], rest);
      }
    }
  }

  /** A scalar without the white space behind it. */
  lemma BareScalar(a: Ast, tail: string)
    requires Whole(a) && a.rule in {Number, Bool, Null} && !GoesOn(tail)
    ensures var word := Mapper.TrimEnd(a.text);
            word != "" && !IsJsonSpace(word[0]) && NoOddSpace(word) && ReadBare(word + tail) == Some((ValueOf(a), tail))
  {
    hide Mapper.TrimEnd, ReadBare;
    var word := Mapper.TrimEnd(a.text);
    if a.rule == Number {
      NumberChars(word);
      assert forall i :: 0 <= i < |word| ==> IsNumberChar(word[i]);
      BareNumber(word, tail);
    } else {
      BareWord(word, tail);
    }
  }

  lemma ScalarReads(a: Ast, rest: string)
    requires Whole(a) && a.rule in {Number, Bool, Null} && Ends(rest)
    ensures Reads(ReadValue(a.text + rest), ValueOf(a), rest, NoOddSpace(a.text))
  {
    hide Whole, ReadBare, ValueOf, Mapper.TrimEnd;
    var word := Mapper.TrimEnd(a.text);
    var z := SpaceAtEnd(a.text);
    var tail := z + rest;
    assert !GoesOn(tail) by {
      if z != "" {
        assert Mapper.IsSpace(z[0]);
      }
    }
    BareScalar(a, tail);
    assert a.text + rest == word + tail;
    SpaceBehind(z, rest);
    assert NoOddSpace(a.text) <==> NoOddSpace(z) by {
      assert forall i :: 0 <= i < |z| ==> z[i] == a.text[|word| + i];
    }
  }

  lemma SpaceAtEnd(text: string) returns (z: string)
    ensures text == Mapper.TrimEnd(text) + z && Mapper.Spaces(z)
  {
    z := Mapper.TrimTrailingDrops(text, |text|);
  }

  // ---------- Arrays and dictionaries

  lemma {:induction false} StartsValue(a: Ast)
    requires Whole(a)
    ensures ToJson(a) != "" && IsStart(ToJson(a)[0])
    decreases a, 1
  {
    match a.rule {
      case Number | Bool | Null =>
        var z := SpaceAtEnd(a.text);
        hide Mapper.TrimEnd, IsNumber;
        if a.rule == Number {
          NumberChars(Mapper.TrimEnd(a.text));
        }
        assert a.text[0] == Mapper.TrimEnd(a.text)[0];
      case Value => StartsValue(a.children[0]);
      case _ =>
    }
  }

  lemma {:induction false} JoinedFront(nodes: seq<Ast>, sep: string)
    requires nodes != []
    ensures Joined(nodes, sep) == ToJson(nodes[0]) + (if |nodes| == 1 then "" else sep + Joined(nodes[1..], sep))
    decreases |nodes|
  {
    hide ToJson, Joined;
    var n := |nodes| - 1;
    var front, last := nodes[..n], ToJson(nodes[n]);
    JoinedBack(nodes, sep);
    if n == 0 {
      assert front == [];
    } else {
      JoinedFront(front, sep);
      JoinedBack(nodes[1..], sep);
      assert nodes[1..][..n - 1] == front[1..];
      if n == 1 {
        assert front[1..] == [];
      } else {
        Regrouped(ToJson(nodes[0]), sep, Joined(front[1..], sep), last);
      }
    }
  }

  lemma JoinedBack(nodes: seq<Ast>, sep: string)
    ensures Joined([], sep) == ""
    ensures nodes != [] ==>
              var n := |nodes| - 1;
              Joined(nodes, sep) == (if n == 0 then "" else Joined(nodes[..n], sep) + sep) + ToJson(nodes[n])
  {
    hide ToJson;
    assert |nodes| == 1 ==> nodes[..0] == [];
  }

  lemma Regrouped(first: string, sep: string, middle: string, last: string)
    ensures (first + (sep + middle)) + sep + last == first + (sep + (middle + sep + last))
  {
  }

  /** The elements of an array read back, or the array is refused when one of them is not clean. */
  lemma {:induction false} ElementsRead(nodes: seq<Ast>, rest: string)
    requires nodes != [] && AllWhole(nodes)
    ensures ReadElements(Joined(nodes, ",") + "]" + rest)
            == if AllClean(nodes) then Some((ValuesOf(nodes), rest)) else None
    decreases nodes, 0
  {
    hide ToJson, Joined, Whole, ValueOf, Clean, ReadValue;
    var tail := nodes[1..];
    var more := Joined(tail, ",") + "]" + rest;
    var after := if tail == [] then "]" + rest else "," + more;
    JoinedFront(nodes, ",");
    assert Joined(nodes, ",") + "]" + rest == ToJson(nodes[0]) + after;
    TreeReads(nodes[0], after);
    assert after[1..] == if tail == [] then rest else more;
    if tail == [] {
      assert AllClean(tail) && ValuesOf(nodes) == [ValueOf(nodes[0])];
    } else {
      ElementsRead(tail, rest);
    }
  }

  /** The members of a dictionary read back, or it is refused when one of them is not clean. */
  lemma {:induction false} PairsRead(nodes: seq<Ast>, rest: string)
    requires nodes != [] && AllWholeMembers(nodes)
    ensures ReadPairs(Joined(nodes, ",") + "}" + rest)
            == if AllPairsClean(nodes) then Some((PairsOf(nodes), rest)) else None
    decreases nodes, 0
  {
    hide ToJson, Joined, Whole, ValueOf, Clean, ReadValue, ReadName, Dump;
    var kv, tail := nodes[0], nodes[1..];
    assert WholeMember(kv);
    var name, v := KeyName(kv), kv.children[1];
    var more := Joined(tail, ",") + "}" + rest;
    var after := if tail == [] then "}" + rest else "," + more;
    JoinedFront(nodes, ",");
    MemberIsText(kv);
    assert Joined(nodes, ",") + "}" + rest == Dump(name) + ":" + (ToJson(v) + after);
    NameRead(name, ToJson(v) + after);
    TreeReads(v, after);
    assert after[1..] == if tail == [] then rest else more;
    if tail == [] {
      assert AllPairsClean(tail) && PairsOf(nodes) == [(name, ValueOf(v))];
    } else {
      PairsRead(tail, rest);
    }
  }

  lemma FrontRead(t: string)
    requires t != "" && !IsJsonSpace(t[0])
    ensures ReadValue(t) == match ReadBare(t) case None => None case Some((v, rest)) => Some((v, SkipSpace(rest)))
  {
    hide ReadBare;
  }

  lemma ArrayText(a: Ast)
    requires Whole(a) && a.rule == ArrayRule
    ensures ToJson(a) == "[" + Joined(a.children, ",") + "]" && (a.children == [] ==> Joined(a.children, ",") == "")
  {
  }

  lemma DictText(a: Ast)
    requires Whole(a) && a.rule == Dict
    ensures ToJson(a) == "{" + Joined(a.children, ",") + "}" && (a.children == [] ==> Joined(a.children, ",") == "")
  {
  }

  lemma ArrayReads(a: Ast, rest: string)
    requires Whole(a) && a.rule == ArrayRule && Ends(rest)
    requires a.children != [] ==>
               ReadElements(Joined(a.children, ",") + "]" + rest)
               == if AllClean(a.children) then Some((ValuesOf(a.children), rest)) else None
    ensures Reads(ReadValue(ToJson(a) + rest), ValueOf(a), rest, Clean(a))
  {
    hide ReadElements, ReadValue, ReadBare, ToJson, Joined;
    ArrayText(a);
    var body := Joined(a.children, ",") + "]" + rest;
    assert ToJson(a) + rest == "[" + body;
    FrontRead("[" + body);
    NothingSkipped(rest);
    if a.children == [] {
      assert body == "]" + rest && body[1..] == rest;
      ListRead(body);
    } else {
      hide ValuesOf, AllClean;
      JoinedFront(a.children, ",");
      StartsValue(a.children[0]);
      assert body[0] == ToJson(a.children[0])[0];
      ListRead(body);
    }
  }

  lemma DictReads(a: Ast, rest: string)
    requires Whole(a) && a.rule == Dict && Ends(rest)
    requires a.children != [] ==>
               ReadPairs(Joined(a.children, ",") + "}" + rest)
               == if AllPairsClean(a.children) then Some((PairsOf(a.children), rest)) else None
    ensures Reads(ReadValue(ToJson(a) + rest), ValueOf(a), rest, Clean(a))
  {
    hide ReadPairs, ReadValue, ReadBare, ToJson, Joined;
    DictText(a);
    var body := Joined(a.children, ",") + "}" + rest;
    assert ToJson(a) + rest == "{" + body;
    FrontRead("{" + body);
    NothingSkipped(rest);
    if a.children == [] {
      assert body == "}" + rest && body[1..] == rest;
      ObjectRead(body);
    } else {
      hide PairsOf, AllPairsClean;
      JoinedFront(a.children, ",");
      assert WholeMember(a.children[0]);
      MemberIsText(a.children[0]);
      assert body[0] == '"';
      ObjectRead(body);
    }
  }

  /** A finished tree reads back as its value, whatever may follow a value. */
  lemma {:induction false} TreeReads(a: Ast, rest: string)
    requires Whole(a) && Ends(rest)
    ensures Reads(ReadValue(ToJson(a) + rest), ValueOf(a), rest, Clean(a))
    decreases a, 1
  {
    hide ReadValue, ReadElements, ReadPairs;
    match a.rule {
      case StringRule =>
        var c := a.children[0];
        assert ToJson(a) == Dump(c.text) by {
          assert ToJson(c) == Escape(c.text);
        }
        StringReads(c.text, rest);
      case ArrayRule =>
        if a.children != [] {
          ElementsRead(a.children, rest);
        }
        ArrayReads(a, rest);
      case Dict =>
        if a.children != [] {
          PairsRead(a.children, rest);
        }
        DictReads(a, rest);
      case Value => TreeReads(a.children[0], rest);
      case _ => ScalarReads(a, rest);
    }
  }

  /** A finished tree prints as one JSON text that reads back as its value, unless white space that is not JSON's was
      taken along with a scalar; then it prints as none. */
  lemma WholeIsJson(a: Ast)
    requires Whole(a)
    ensures ReadText(ToJson(a)) == if Clean(a) then Some(ValueOf(a)) else None
  {
    hide ReadValue, ToJson, ValueOf, Clean;
    TreeReads(a, "");
    assert ToJson(a) + "" == ToJson(a);
  }

  const TABBED: string := "1" + [VERTICAL_TAB]

  /** The tree of {a:1} with a vertical tab behind the number, which the parser takes for white space. */
  function TabbedNumber(): (a: Ast) {
    var key := Ast(DictKey, "a:", false, [Ast(DictKeyName, "a", false, [])]);
    Ast(Dict, "{a:" + TABBED + "}", false, [Ast(DictKv, "a:" + TABBED, false, [key, TabbedValue()])])
  }

  function TabbedValue(): (a: Ast) {
    Ast(Value, TABBED, false, [Ast(Number, TABBED, false, [])])
  }

  /** The tab is printed with the number, and what is printed is no JSON. */
  lemma TabIsPrinted()
    ensures Whole(TabbedNumber()) && ReadText(ToJson(TabbedNumber())) == None
  {
    hide TabbedValue, Mapper.TrimEnd, IsNumber, ToJson, ReadText;
    var a := TabbedNumber();
    TabbedIsWhole();
    assert WholeMember(a.children[0]);
    WholeIsJson(a);
  }

  lemma TabbedIsWhole()
    ensures Whole(TabbedValue()) && !Clean(TabbedValue())
  {
    hide Mapper.TrimEnd, IsNumber, NoOddSpace;
    TabbedOne();
    assert Whole(TabbedValue().children[0]);
  }

  lemma TabbedOne()
    ensures Mapper.TrimEnd(TABBED) == "1" && IsNumber("1") && !NoOddSpace(TABBED)
  {
    var one := TABBED;
    assert one[..1] == "1";
    assert Mapper.TrimTrailing(one, 2) == Mapper.TrimTrailing("1", 1) == "1";
    var n := Numeral("", "1", "", "");
    assert IsNumeral(n) && Spelled(n) == "1";
    assert IsOdd(one[1]);
  }
}
