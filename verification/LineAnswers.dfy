/** What the keys typed into the line editor give (common/console.cpp). */
module LineAnswers {
  import opened Bytes
  import opened LineEditor

  const ENTER: set<CodePoint> := {0x0D, 0x0A}
  const END_OF_TRANSMISSION: CodePoint := 0x04
  const ESCAPE: CodePoint := 0x1B
  const BRACKET: CodePoint := 0x5B
  const ERASE: set<CodePoint> := {0x08, 0x7F}

  // ---------- Keys and edits

  /** A key that edits the line and does not start an escape sequence. */
  predicate IsEdit(k: Key) {
    k.ch !in ENTER && k.ch !in {END_OF_TRANSMISSION, WEOF, ESCAPE}
  }

  predicate AllEdits(keys: seq<Key>) {
    forall i :: 0 <= i < |keys| ==> IsEdit(keys[i])
  }

  function Edits(keys: seq<Key>): (actions: seq<Action>) {
    if keys == [] then [] else [ActionOf(keys[0])] + Edits(keys[1..])
  }

  lemma EditNext(k: Key, rest: seq<Key>)
    requires IsEdit(k)
    ensures InputOf([k] + rest) == Input([ActionOf(k)] + InputOf(rest).actions, InputOf(rest).ended)
  {
    hide ActionOf;
    assert ([k] + rest)[1..] == rest;
  }

  lemma {:induction false} InputAppend(before: seq<Key>, rest: seq<Key>)
    requires AllEdits(before)
    ensures InputOf(before + rest) == Input(Edits(before) + InputOf(rest).actions, InputOf(rest).ended)
    decreases |before|
  {
    hide ActionOf, InputOf, IsEdit;
    if before == [] {
      assert before + rest == rest && Edits(before) + InputOf(rest).actions == InputOf(rest).actions;
    } else {
      var k, more := before[0], before[1..] + rest;
      assert IsEdit(k) && before + rest == [k] + more;
      InputAppend(before[1..], rest);
      EditNext(k, more);
      assert [ActionOf(k)] + (Edits(before[1..]) + InputOf(rest).actions) == Edits(before) + InputOf(rest).actions;
    }
  }

  lemma {:induction false} RunAppend(a: seq<Action>, b: seq<Action>, c: seq<Action>)
    requires RunEdits(a) == RunEdits(b)
    ensures RunEdits(a + c) == RunEdits(b + c)
    decreases |c|
  {
    hide Apply;
    if c == [] {
      assert a + c == a && b + c == b;
    } else {
      var n := |c| - 1;
      RunAppend(a, b, c[..n]);
      assert (a + c)[..|a + c| - 1] == a + c[..n] && (b + c)[..|b + c| - 1] == b + c[..n];
    }
  }

  /** Keys between that edit nothing make no difference. */
  lemma NoDifference(before: seq<Key>, keys: seq<Key>, rest: seq<Key>, actions: seq<Action>, multiline: bool)
    requires AllEdits(before) && InputOf(keys + rest) == Input(actions + InputOf(rest).actions, InputOf(rest).ended)
    requires RunEdits(Edits(before) + actions) == RunEdits(Edits(before))
    ensures ReadLine(before + keys + rest, multiline) == ReadLine(before + rest, multiline)
  {
    hide RunEdits, InputOf, Closed, HasMore;
    assert before + keys + rest == before + (keys + rest);
    InputAppend(before, keys + rest);
    InputAppend(before, rest);
    var more := InputOf(rest).actions;
    assert Edits(before) + (actions + more) == (Edits(before) + actions) + more;
    RunAppend(Edits(before) + actions, Edits(before), more);
  }

  // ---------- Escape sequences

  /** An escape with the character after it, or with a control sequence up to its final letter or tilde. */
  predicate IsEscapeSequence(keys: seq<Key>) {
    && |keys| >= 2 && keys[0].ch == ESCAPE
    && if keys[1].ch !in {BRACKET, ESCAPE} then |keys| == 2
       else
         && |keys| >= 3 && IsFinal(keys[|keys| - 1].ch)
         && forall i :: 2 <= i < |keys| - 1 ==> keys[i].ch != WEOF && !IsFinal(keys[i].ch)
  }

  predicate IsFinal(ch: CodePoint) {
    'A' as int <= ch <= 'Z' as int || 'a' as int <= ch <= 'z' as int || ch == '~' as int
  }

  lemma {:induction false} CodeSkipped(code: seq<Key>, rest: seq<Key>)
    requires code != [] && IsFinal(code[|code| - 1].ch)
    requires forall i :: 0 <= i < |code| - 1 ==> code[i].ch != WEOF && !IsFinal(code[i].ch)
    ensures AfterCode(code + rest) == rest
    decreases |code|
  {
    assert (code + rest)[0] == code[0] && (code + rest)[1..] == code[1..] + rest;
    if |code| == 1 {
      assert code[1..] + rest == rest;
    } else {
      CodeSkipped(code[1..], rest);
    }
  }

  lemma EscapeInput(code: seq<Key>, rest: seq<Key>)
    requires IsEscapeSequence(code)
    ensures InputOf(code + rest) == Input([Skip] + InputOf(rest).actions, InputOf(rest).ended)
  {
    hide AfterCode, IsFinal;
    var keys := code + rest;
    assert keys[0] == code[0] && keys[1..] == code[1..] + rest && keys[1..][0] == code[1];
    assert keys[1..][1..] == code[2..] + rest;
    assert AfterEscape(keys[1..]) == rest by {
      if code[1].ch in {BRACKET, ESCAPE} {
        CodeSkipped(code[2..], rest);
      } else {
        assert code[2..] + rest == rest;
      }
    }
    hide AfterEscape;
    assert InputOf(keys) == After(Skip, InputOf(rest));
  }

  /** An escape sequence anywhere among the keys leaves the line and the keys behind it as they are. */
  lemma EscapeIgnored(before: seq<Key>, code: seq<Key>, rest: seq<Key>, multiline: bool)
    requires AllEdits(before) && IsEscapeSequence(code)
    ensures ReadLine(before + code + rest, multiline) == ReadLine(before + rest, multiline)
  {
    hide RunEdits, ReadLine, InputOf, IsEscapeSequence;
    EscapeInput(code, rest);
    SkipsNothing(Edits(before));
    NoDifference(before, code, rest, [Skip], multiline);
  }

  lemma SkipsNothing(actions: seq<Action>)
    ensures RunEdits(actions + [Skip]) == RunEdits(actions)
  {
    assert (actions + [Skip])[..|actions|] == actions;
  }

  // ---------- Typing and erasing

  /** A key that types a character. */
  predicate Types(k: Key) {
    IsEdit(k) && k.ch !in ERASE && k.ch <= LAST
  }

  /** A character that is seen, and any number of characters without width behind it, go with one backspace. */
  lemma ErasesTyped(before: seq<Key>, typed: seq<Key>, erase: Key, rest: seq<Key>, multiline: bool)
    requires AllEdits(before) && typed != [] && (forall i :: 0 <= i < |typed| ==> Types(typed[i]))
    requires typed[0].width > 0 && (forall i :: 1 <= i < |typed| ==> typed[i].width <= 0) && erase.ch in ERASE
    ensures ReadLine(before + (typed + [erase]) + rest, multiline) == ReadLine(before + rest, multiline)
  {
    hide RunEdits, ReadLine;
    var keys := typed + [erase];
    InputAppend(keys, rest);
    TypedThenErased(RunEdits(Edits(before)), Edits(before), typed, erase);
    NoDifference(before, keys, rest, Edits(keys), multiline);
  }

  lemma {:induction false} EditsSnoc(keys: seq<Key>, k: Key)
    ensures Edits(keys + [k]) == Edits(keys) + [ActionOf(k)]
    decreases |keys|
  {
    hide ActionOf;
    if keys == [] {
      assert keys + [k] == [k] && [k][1..] == [];
    } else {
      assert (keys + [k])[0] == keys[0] && (keys + [k])[1..] == keys[1..] + [k];
      EditsSnoc(keys[1..], k);
    }
  }

  lemma EraseTyped(f: Editor, ch: CodePoint, width: int)
    requires ch <= LAST
    ensures Erased(Typed(f, ch, width)) == if width > 0 then f else Erased(f)
  {
    hide Utf8, Popped;
    PopUndoesAppend(f.line, ch);
    assert (f.widths + [if width < 0 then 0 else width])[..|f.widths|] == f.widths;
  }

  lemma {:induction false} TypedThenErased(e: Editor, before: seq<Action>, typed: seq<Key>, erase: Key)
    requires e == RunEdits(before) && typed != [] && forall i :: 0 <= i < |typed| ==> Types(typed[i])
    requires typed[0].width > 0 && (forall i :: 1 <= i < |typed| ==> typed[i].width <= 0) && erase.ch in ERASE
    ensures RunEdits(before + Edits(typed + [erase])) == e
    decreases |typed|
  {
    hide Typed, Erased, RunEdits, Edits;
    var n := |typed| - 1;
    var k := typed[n];
    var front := before + Edits(typed[..n]);
    OneMoreTyped(before, typed, erase);
    EraseTyped(RunEdits(front), k.ch, k.width);
    if n == 0 {
      assert front == before by { NoEdits(typed); }
    } else {
      TypedThenErased(e, before, typed[..n], erase);
      EditsSnoc(typed[..n], erase);
      RunNext(front, Erase);
      assert before + Edits(typed[..n] + [erase]) == front + [Erase];
    }
  }

  lemma NoEdits(typed: seq<Key>)
    ensures Edits(typed[..0]) == []
  {
  }

  lemma OneMoreTyped(before: seq<Action>, typed: seq<Key>, erase: Key)
    requires typed != [] && Types(typed[|typed| - 1]) && erase.ch in ERASE
    ensures var k, front := typed[|typed| - 1], before + Edits(typed[..|typed| - 1]);
            RunEdits(before + Edits(typed + [erase])) == Erased(Typed(RunEdits(front), k.ch, k.width))
  {
    hide Typed, Erased, RunEdits, Edits;
    var n := |typed| - 1;
    var k := typed[n];
    var front := before + Edits(typed[..n]);
    EditsSnoc(typed, erase);
    EditsSnoc(typed[..n], k);
    assert typed == typed[..n] + [k];
    RunNext(front, ActionOf(k));
    RunNext(front + [ActionOf(k)], Erase);
    assert before + Edits(typed + [erase]) == front + [ActionOf(k)] + [Erase];
  }

  // ---------- The answer

  /** The line that was typed and how it was ended decide what is handed back, and whether more is to come: a backslash
      at its end asks for the other mode, a slash ends the message, and otherwise the line goes on in multiline mode. */
  predicate IsAnswer(r: (seq<Byte>, bool), text: seq<CodePoint>, ended: bool, multiline: bool) {
    var n := |text| - 1;
    if text != [] && text[n] == '\\' as int then r == (Encoded(text[..n] + [NEWLINE]), !multiline)
    else if text != [] && text[n] == '/' as int then
      r == (if text == [SPACE, SLASH] then [] else Encoded(text[..n]), false)
    else if ended then r == (Encoded(text), false)
    else r == (Encoded(text + [NEWLINE]), multiline)
  }

  /** For every sequence of keys with code points only, edits and escape sequences among them. */
  lemma LineAnswer(keys: seq<Key>, multiline: bool)
    requires AllCodePoints(InputOf(keys).actions)
    ensures var input := InputOf(keys);
            IsAnswer(ReadLine(keys, multiline), Chars(RunCells(input.actions)), input.ended, multiline)
  {
    hide Encoded, RunEdits, RunCells, InputOf, ReadAll;
    var input := InputOf(keys);
    var text := Chars(RunCells(input.actions));
    LineIsText(keys, multiline);
    EmptyText();
    ClosedIs(text, input.ended, multiline);
  }

  lemma ClosedIs(text: seq<CodePoint>, ended: bool, multiline: bool)
    requires Encoded([]) == []
    ensures IsAnswer((Encoded(Closed(text, ended)), HasMore(text, ended, multiline)), text, ended, multiline)
  {
    hide Encoded;
    if text != [] && text[|text| - 1] == SLASH {
      var front := text[..|text| - 1];
      assert text == front + [SLASH];
      assert text == [SPACE, SLASH] <==> front == [SPACE];
    }
  }

  function TextOf(keys: seq<Key>): (text: seq<CodePoint>) {
    seq(|keys|, i requires 0 <= i < |keys| => keys[i].ch)
  }

  lemma OneMoreCell(actions: seq<Action>, k: Key)
    requires Types(k) && AllCodePoints(actions)
    ensures AllCodePoints(actions + [ActionOf(k)])
    ensures Chars(RunCells(actions + [ActionOf(k)])) == Chars(RunCells(actions)) + [k.ch]
  {
    hide RunCells;
    RunNext(actions, ActionOf(k));
  }

  lemma {:induction false} TypedCells(keys: seq<Key>)
    requires forall i :: 0 <= i < |keys| ==> Types(keys[i])
    ensures AllCodePoints(Edits(keys)) && Chars(RunCells(Edits(keys))) == TextOf(keys)
    decreases |keys|
  {
    hide Types, ActionOf, AllCodePoints;
    if keys == [] {
      assert RunCells([]) == [] && AllCodePoints([]) by { NothingTyped(); }
    } else {
      hide RunCells, Edits;
      var n := |keys| - 1;
      var k := keys[n];
      assert keys == keys[..n] + [k] && Types(k);
      TypedCells(keys[..n]);
      EditsSnoc(keys[..n], k);
      OneMoreCell(Edits(keys[..n]), k);
      assert TextOf(keys) == TextOf(keys[..n]) + [k.ch];
    }
  }

  lemma NothingTyped()
    ensures RunCells([]) == [] && AllCodePoints([])
  {
  }

  /** A text typed and ended: with Enter, or by the end of the stream. */
  lemma TypedAnswer(keys: seq<Key>, rest: seq<Key>, multiline: bool)
    requires forall i :: 0 <= i < |keys| ==> Types(keys[i])
    requires rest == [] || rest[0].ch in ENTER + {END_OF_TRANSMISSION, WEOF}
    ensures IsAnswer(ReadLine(keys + rest, multiline), TextOf(keys), rest == [] || rest[0].ch !in ENTER, multiline)
  {
    hide RunEdits, RunCells, ReadLine, Encoded;
    InputAppend(keys, rest);
    TypedCells(keys);
    assert InputOf(rest) == Input([], rest == [] || rest[0].ch !in ENTER);
    assert Edits(keys) + [] == Edits(keys);
    LineAnswer(keys + rest, multiline);
  }
}
