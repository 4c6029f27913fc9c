/** The line editor of common/console.cpp: the bytes of the line and the widths of its characters, edited together.
    UTF-8 is RFC 3629, section 3. */
module LineEditor {
  import opened Bytes
  import opened Wrappers

  /** What getchar32 returns: any 32-bit value; the largest one says that the stream has ended. */
  type CodePoint = c: nat | c < 0x1_0000_0000

  const WEOF: CodePoint := 0xFFFF_FFFF
  const LAST: CodePoint := 0x10_FFFF
  const BACKSLASH: Byte := 0x5C
  const SLASH: Byte := 0x2F
  const NEWLINE: Byte := 0x0A
  const SPACE: Byte := 0x20

  // ---------- UTF-8

  /** The bytes that append_utf8 adds: none for a number that is no code point. */
  function Utf8(ch: CodePoint): (b: seq<Byte>)
    ensures |b| <= 4 && (b == [] <==> ch > LAST)
  {
    if ch <= 0x7F then [ch]
    else if ch <= 0x7FF then [0xC0 + ch / 64, 0x80 + ch % 64]
    else if ch <= 0xFFFF then [0xE0 + ch / 0x1000, 0x80 + ch / 64 % 64, 0x80 + ch % 64]
    else if ch <= LAST then [0xF0 + ch / 0x4_0000, 0x80 + ch / 0x1000 % 64, 0x80 + ch / 64 % 64, 0x80 + ch % 64]
    else []
  }

  predicate IsContinuation(b: Byte) {
    0x80 <= b < 0xC0
  }

  /** What a byte holds over the marker of its kind. */
  function Bits(b: Byte, marker: nat): (n: nat)
    requires marker <= b
  {
    b - marker
  }

  predicate IsSurrogate(ch: CodePoint) {
    0xD800 <= ch <= 0xDFFF
  }

  /** Reading one character as RFC 3629 demands: shortest form, no surrogates, nothing past the last code point. */
  function ReadOne(b: seq<Byte>): (r: Option<(CodePoint, seq<Byte>)>)
    ensures r.Some? ==> |r.value.1| < |b|
  {
    if b == [] then None
    else if b[0] < 0x80 then Some((b[0], b[1..]))
    else if 0xC2 <= b[0] < 0xE0 && |b| >= 2 && IsContinuation(b[1]) then
      Some((Bits(b[0], 0xC0) * 64 + Bits(b[1], 0x80), b[2..]))
    else if 0xE0 <= b[0] < 0xF0 && |b| >= 3 && IsContinuation(b[1]) && IsContinuation(b[2]) then
      var ch := Bits(b[0], 0xE0) * 0x1000 + Bits(b[1], 0x80) * 64 + Bits(b[2], 0x80);
      if ch < 0x800 || IsSurrogate(ch) then None else Some((ch, b[3..]))
    else if 0xF0 <= b[0] < 0xF5 && |b| >= 4 && IsContinuation(b[1]) && IsContinuation(b[2]) && IsContinuation(b[3]) then
      var ch := Bits(b[0], 0xF0) * 0x4_0000 + Bits(b[1], 0x80) * 0x1000 + Bits(b[2], 0x80) * 64 + Bits(b[3], 0x80);
      if ch < 0x1_0000 || ch > LAST then None else Some((ch, b[4..]))
    else None
  }

  function ReadAll(b: seq<Byte>): (r: Option<seq<CodePoint>>)
    decreases |b|
  {
    if b == [] then Some([]) else
    match ReadOne(b)
    case None => None
    case Some((ch, rest)) => match ReadAll(rest) case None => None case Some(t) => Some([ch] + t)
  }

  function Encoded(text: seq<CodePoint>): (b: seq<Byte>) {
    if text == [] then [] else Encoded(text[..|text| - 1]) + Utf8(text[|text| - 1])
  }

  lemma Sextets(ch: nat)
    requires ch < 0x20_0000
    ensures ch / 0x1000 * 0x1000 + ch / 64 % 64 * 64 + ch % 64 == ch
    ensures ch / 0x4_0000 * 0x4_0000 + ch / 0x1000 % 64 * 0x1000 + ch / 64 % 64 * 64 + ch % 64 == ch
  {
    var p := ch / 64;
    var q := p / 64;
    assert ch / 0x1000 == q && ch / 0x4_0000 == q / 64;
  }

  /** The appended bytes read back as the code point, whatever follows, unless it is a surrogate. */
  lemma Utf8ReadsBack(ch: CodePoint, rest: seq<Byte>)
    requires ch <= LAST
    ensures ReadOne(Utf8(ch) + rest) == if IsSurrogate(ch) then None else Some((ch, rest))
  {
    Sextets(ch);
    var b := Utf8(ch) + rest;
    assert b[|Utf8(ch)|..] == rest;
  }

  predicate Scalars(text: seq<CodePoint>) {
    forall i :: 0 <= i < |text| ==> text[i] <= LAST && !IsSurrogate(text[i])
  }

  lemma {:induction false} EncodedFront(text: seq<CodePoint>)
    requires text != []
    ensures Encoded(text) == Utf8(text[0]) + Encoded(text[1..])
  {
    hide Utf8;
    var n := |text| - 1;
    if n == 0 {
      assert Encoded(text[..0]) == [] && Encoded(text[1..]) == [];
    } else {
      EncodedFront(text[..n]);
      assert text[..n][1..] == text[1..][..n - 1] && text[1..][n - 1] == text[n];
      assert Utf8(text[0]) + Encoded(text[1..][..n - 1]) + Utf8(text[n])
             == Utf8(text[0]) + (Encoded(text[1..][..n - 1]) + Utf8(text[n]));
    }
  }

  /** An encoded text reads back whole. */
  lemma {:induction false} EncodedReadsBack(text: seq<CodePoint>)
    requires Scalars(text)
    ensures ReadAll(Encoded(text)) == Some(text)
  {
    hide Utf8, ReadOne;
    if text != [] {
      EncodedFront(text);
      EncodedReadsBack(text[1..]);
      Utf8ReadsBack(text[0], Encoded(text[1..]));
      assert Encoded(text) != [];
      assert text == [text[0]] + text[1..];
    }
  }

  // ---------- Removing the last character

  /** Going back over at most three continuation bytes, and not past the front. */
  function StartOfLast(line: seq<Byte>, pos: nat, tries: nat): (p: nat)
    requires pos < |line|
    ensures p <= pos
  {
    if tries == 0 || pos == 0 || !IsContinuation(line[pos]) then pos else StartOfLast(line, pos - 1, tries - 1)
  }

  function Popped(line: seq<Byte>): (r: seq<Byte>)
    ensures line != [] ==> |r| < |line|
  {
    if line == [] then [] else line[..StartOfLast(line, |line| - 1, 3)]
  }

  lemma Utf8Shape(ch: CodePoint)
    requires ch <= LAST
    ensures var b := Utf8(ch);
            1 <= |b| <= 4 && !IsContinuation(b[0]) && forall i :: 1 <= i < |b| ==> IsContinuation(b[i])
  {
  }

  /** Removing undoes appending: the whole last character goes, and nothing before it. */
  lemma PopUndoesAppend(line: seq<Byte>, ch: CodePoint)
    requires ch <= LAST
    ensures Popped(line + Utf8(ch)) == line
  {
    hide Utf8;
    Utf8Shape(ch);
    var b := Utf8(ch);
    var all := line + b;
    var n := |line|;
    assert forall i :: 0 <= i < |b| ==> all[n + i] == b[i];
    assert StartOfLast(all, n, 4 - |b|) == n;
    if |b| >= 2 {
      assert StartOfLast(all, n + 1, 5 - |b|) == n;
    }
    if |b| >= 3 {
      assert StartOfLast(all, n + 2, 6 - |b|) == n;
    }
    assert all[..n] == line;
  }

  class Buffer {
    var bytes: seq<Byte>

    constructor ()
      ensures bytes == []
    {
      bytes := [];
    }

    method AppendUtf8(ch: CodePoint)
      modifies this
      ensures bytes == old(bytes) + Utf8(ch)
    {
      if ch <= 0x7F {
        bytes := bytes + [ch];
      } else if ch <= 0x7FF {
        bytes := bytes + [0xC0 + ch / 64];
        bytes := bytes + [0x80 + ch % 64];
      } else if ch <= 0xFFFF {
        bytes := bytes + [0xE0 + ch / 0x1000];
        bytes := bytes + [0x80 + ch / 64 % 64];
        bytes := bytes + [0x80 + ch % 64];
      } else if ch <= LAST {
        bytes := bytes + [0xF0 + ch / 0x4_0000];
        bytes := bytes + [0x80 + ch / 0x1000 % 64];
        bytes := bytes + [0x80 + ch / 64 % 64];
        bytes := bytes + [0x80 + ch % 64];
      }
    }

    method PopBackUtf8Char()
      modifies this
      ensures bytes == Popped(old(bytes))
    {
      if bytes == [] {
        return;
      }
      var pos := |bytes| - 1;
      var i := 0;
      while i < 3 && pos > 0 && IsContinuation(bytes[pos])
        invariant 0 <= i <= 3 && 0 <= pos < |bytes| && bytes == old(bytes)
        invariant StartOfLast(bytes, pos, 3 - i) == StartOfLast(bytes, |bytes| - 1, 3)
      {
        i := i + 1;
        pos := pos - 1;
      }
      bytes := bytes[..pos];
    }
  }

  // ---------- The editing state

  /** The bytes of the line and the width of each character typed into it. */
  datatype Editor = Editor(line: seq<Byte>, widths: seq<nat>)

  datatype Action = Type(ch: CodePoint, width: int) | Erase | Skip

  function Typed(e: Editor, ch: CodePoint, width: int): (next: Editor) {
    Editor(e.line + Utf8(ch), e.widths + [if width < 0 then 0 else width])
  }

  /** Backspace: one width and one character, and again while the width was zero and any is left. */
  function Erased(e: Editor): (r: Editor)
    decreases |e.widths|
  {
    if e.widths == [] then e else
    var n := |e.widths| - 1;
    var next := Editor(Popped(e.line), e.widths[..n]);
    if e.widths[n] == 0 then Erased(next) else next
  }

  function Apply(e: Editor, a: Action): (next: Editor) {
    match a
    case Type(ch, width) => Typed(e, ch, width)
    case Erase => Erased(e)
    case Skip => e
  }

  function RunEdits(actions: seq<Action>): (e: Editor) {
    if actions == [] then Editor([], []) else Apply(RunEdits(actions[..|actions| - 1]), actions[|actions| - 1])
  }

  /** What the user has in mind: the characters on the line, each with its width. */
  datatype Cell = Cell(ch: CodePoint, width: nat)

  function ErasedCells(cells: seq<Cell>): (r: seq<Cell>)
    ensures |r| <= |cells|
  {
    if cells == [] then [] else
    var n := |cells| - 1;
    if cells[n].width == 0 then ErasedCells(cells[..n]) else cells[..n]
  }

  function ApplyCells(cells: seq<Cell>, a: Action): (left: seq<Cell>) {
    match a
    case Type(ch, width) => cells + [Cell(ch, if width < 0 then 0 else width)]
    case Erase => ErasedCells(cells)
    case Skip => cells
  }

  function RunCells(actions: seq<Action>): (cells: seq<Cell>) {
    if actions == [] then [] else ApplyCells(RunCells(actions[..|actions| - 1]), actions[|actions| - 1])
  }

  /** Backspace takes the zero-width characters at the end and the one visible character before them. */
  lemma {:induction false} ErasedCellsAre(cells: seq<Cell>)
    requires cells != []
    ensures var k := |ErasedCells(cells)|;
            k < |cells| && ErasedCells(cells) == cells[..k]
            && (forall i :: k < i < |cells| ==> cells[i].width == 0)
            && (cells[k].width > 0 || k == 0)
  {
    var n := |cells| - 1;
    if cells[n].width == 0 && n > 0 {
      ErasedCellsAre(cells[..n]);
    }
  }

  function Chars(cells: seq<Cell>): (text: seq<CodePoint>)
    ensures |text| == |cells| && forall i :: 0 <= i < |cells| ==> text[i] == cells[i].ch
  {
    seq(|cells|, i requires 0 <= i < |cells| => cells[i].ch)
  }

  function Widths(cells: seq<Cell>): (w: seq<nat>)
    ensures |w| == |cells| && forall i :: 0 <= i < |cells| ==> w[i] == cells[i].width
  {
    seq(|cells|, i requires 0 <= i < |cells| => cells[i].width)
  }

  /** The line is the encoding of the cells, and each has its width. */
  predicate InStep(e: Editor, cells: seq<Cell>) {
    e.line == Encoded(Chars(cells)) && e.widths == Widths(cells)
  }

  predicate CodePoints(cells: seq<Cell>) {
    forall i :: 0 <= i < |cells| ==> cells[i].ch <= LAST
  }

  /** Taking the last cell off keeps line and widths in step exactly when the cell is a code point or nothing is
      left to be taken in its place. */
  lemma PopInStep(e: Editor, cells: seq<Cell>)
    requires cells != [] && InStep(e, cells)
    ensures var n := |cells| - 1;
            InStep(Editor(Popped(e.line), e.widths[..n]), cells[..n])
            <==> cells[n].ch <= LAST || Encoded(Chars(cells[..n])) == []
  {
    hide Utf8, Popped;
    var n := |cells| - 1;
    var ch := cells[n].ch;
    assert Chars(cells)[..n] == Chars(cells[..n]) && Widths(cells)[..n] == Widths(cells[..n]);
    var line := Encoded(Chars(cells[..n]));
    assert e.line == line + Utf8(ch);
    if ch <= LAST {
      PopUndoesAppend(line, ch);
    } else {
      assert line + [] == line;
      PopShrinks(line);
    }
  }

  lemma PopShrinks(line: seq<Byte>)
    ensures Popped(line) == line <==> line == []
  {
  }

  lemma {:induction false} ErasedInStep(e: Editor, cells: seq<Cell>)
    requires InStep(e, cells) && CodePoints(cells)
    ensures InStep(Erased(e), ErasedCells(cells)) && CodePoints(ErasedCells(cells))
    decreases |cells|
  {
    hide Encoded, Popped;
    if cells != [] {
      var n := |cells| - 1;
      PopInStep(e, cells);
      if cells[n].width == 0 {
        ErasedInStep(Editor(Popped(e.line), e.widths[..n]), cells[..n]);
      }
    }
  }

  lemma TypedInStep(e: Editor, cells: seq<Cell>, ch: CodePoint, width: int)
    requires InStep(e, cells)
    ensures InStep(Typed(e, ch, width), cells + [Cell(ch, if width < 0 then 0 else width)])
  {
    hide Utf8;
    var more := cells + [Cell(ch, if width < 0 then 0 else width)];
    assert Chars(more)[..|cells|] == Chars(cells) && Widths(more) == Widths(cells) + [if width < 0 then 0 else width];
  }

  /** Removing the last character again and again. */
  function Pops(line: seq<Byte>, m: nat): (r: seq<Byte>)
    ensures |r| <= |line|
  {
    if m == 0 then line else Pops(Popped(line), m - 1)
  }

  /** A backspace takes one width and one character for each cell that goes. */
  lemma {:induction false} ErasedIsPops(e: Editor, cells: seq<Cell>)
    requires e.widths == Widths(cells)
    ensures var k := |ErasedCells(cells)|;
            k <= |cells| && ErasedCells(cells) == cells[..k]
            && Erased(e) == Editor(Pops(e.line, |cells| - k), Widths(cells[..k]))
    decreases |cells|
  {
    hide Popped;
    if cells == [] {
      assert cells[..0] == cells;
    } else {
      var n := |cells| - 1;
      var next := Editor(Popped(e.line), e.widths[..n]);
      assert next.widths == Widths(cells[..n]);
      if cells[n].width == 0 {
        ErasedIsPops(next, cells[..n]);
        var k := |ErasedCells(cells)|;
        assert cells[..n][..k] == cells[..k];
      } else {
        assert Pops(next.line, 0) == next.line;
      }
    }
  }

  predicate NoCodePoint(text: seq<CodePoint>) {
    forall i :: 0 <= i < |text| ==> text[i] > LAST
  }

  lemma {:induction false} EncodedEmpty(text: seq<CodePoint>)
    ensures Encoded(text) == [] <==> NoCodePoint(text)
  {
    hide Utf8;
    if text != [] {
      EncodedEmpty(text[..|text| - 1]);
    }
  }

  /** Removing more characters than stand behind the first k leaves less than those, unless they have no bytes. */
  lemma {:induction false} PopsTooMany(text: seq<CodePoint>, k: nat, m: nat)
    requires k <= |text| < m + k
    ensures |Pops(Encoded(text), m)| < |Encoded(text[..k])| || Pops(Encoded(text), m) == Encoded(text[..k]) == []
    decreases |text|
  {
    hide Utf8, Popped, NoCodePoint;
    if |text| == k {
      assert text[..k] == text;
      PopsShrink(Encoded(text), m);
    } else {
      PopsNext(text, m);
      var front := text[..|text| - 1];
      assert front[..k] == text[..k];
      PopsTooMany(front, k, if text[|text| - 1] <= LAST then m - 1 else m);
    }
  }

  lemma {:induction false} PopsShrink(line: seq<Byte>, m: nat)
    requires m > 0
    ensures |Pops(line, m)| < |line| || Pops(line, m) == line == []
  {
    hide StartOfLast;
    if m > 1 {
      PopsShrink(Popped(line), m - 1);
    }
  }

  /** The last number of the text goes with its bytes, or has none and the character before it goes instead. */
  lemma PopsNext(text: seq<CodePoint>, m: nat)
    requires text != [] && m > 0
    ensures var n := |text| - 1;
            Pops(Encoded(text), m) == Pops(Encoded(text[..n]), if text[n] <= LAST then m - 1 else m)
  {
    hide Utf8, Popped;
    var n := |text| - 1;
    if text[n] <= LAST {
      PopUndoesAppend(Encoded(text[..n]), text[n]);
    } else {
      assert Encoded(text[..n]) + [] == Encoded(text[..n]);
    }
  }

  lemma {:induction false} PopsMany(text: seq<CodePoint>, k: nat)
    requires k <= |text|
    ensures Pops(Encoded(text), |text| - k) == Encoded(text[..k])
            <==> (forall i :: k <= i < |text| ==> text[i] <= LAST) || NoCodePoint(text[..k])
  {
    hide Encoded, Popped, NoCodePoint;
    EncodedEmpty(text[..k]);
    if |text| == k {
      assert text[..k] == text;
    } else {
      var n := |text| - 1;
      PopsNext(text, |text| - k);
      assert text[..n][..k] == text[..k];
      if text[n] <= LAST {
        PopsMany(text[..n], k);
      } else {
        PopsTooMany(text[..n], k, |text| - k);
      }
    }
  }

  /** Each cell that a backspace takes is a code point, or the cells that stay have no bytes. */
  predicate TakesWhole(cells: seq<Cell>) {
    var k := |ErasedCells(cells)|;
    (forall i :: k <= i < |cells| ==> cells[i].ch <= LAST) || (forall i :: 0 <= i < k ==> cells[i].ch > LAST)
  }

  /** A backspace keeps line and widths in step exactly when it takes code points only, or leaves no bytes. */
  lemma EraseInStep(e: Editor, cells: seq<Cell>)
    requires InStep(e, cells)
    ensures InStep(Erased(e), ErasedCells(cells)) <==> TakesWhole(cells)
  {
    hide Encoded, Erased, ErasedCells, Pops;
    var k := |ErasedCells(cells)|;
    ErasedIsPops(e, cells);
    assert Chars(cells)[..k] == Chars(cells[..k]);
    PopsMany(Chars(cells), k);
  }

  predicate AllCodePoints(actions: seq<Action>) {
    forall i :: 0 <= i < |actions| && actions[i].Type? ==> actions[i].ch <= LAST
  }

  /** Through every run of typed code points, escapes and backspaces the line stays the encoding of what is on it,
      with one width for each character. */
  lemma {:induction false} StaysInStep(actions: seq<Action>)
    requires AllCodePoints(actions)
    ensures InStep(RunEdits(actions), RunCells(actions)) && CodePoints(RunCells(actions))
  {
    hide Encoded;
    if actions == [] {
      Nothing();
    } else {
      var n := |actions| - 1;
      StaysInStep(actions[..n]);
      match actions[n] {
        case Type(ch, width) => TypedInStep(RunEdits(actions[..n]), RunCells(actions[..n]), ch, width);
        case Erase => ErasedInStep(RunEdits(actions[..n]), RunCells(actions[..n]));
        case Skip =>
      }
    }
  }

  lemma Nothing()
    ensures InStep(Editor([], []), []) && CodePoints([])
  {
  }

  /** Line and widths agree with what is on the line after each edit of the run. */
  predicate InStepThroughout(actions: seq<Action>) {
    forall i :: 0 <= i <= |actions| ==> InStep(RunEdits(actions[..i]), RunCells(actions[..i]))
  }

  predicate EachTakesWhole(actions: seq<Action>) {
    forall i :: 0 <= i < |actions| && actions[i].Erase? ==> TakesWhole(RunCells(actions[..i]))
  }

  lemma EditInStep(e: Editor, cells: seq<Cell>, a: Action)
    requires InStep(e, cells)
    ensures InStep(Apply(e, a), ApplyCells(cells, a)) <==> (a.Erase? ==> TakesWhole(cells))
  {
    hide InStep, TakesWhole, Erased, ErasedCells;
    match a
    case Type(ch, width) => TypedInStep(e, cells, ch, width);
    case Erase => EraseInStep(e, cells);
    case Skip =>
  }

  /** Whatever is typed, a run is in step after every edit exactly when each backspace in it takes code points only, or
      leaves no bytes. */
  lemma {:induction false} InStepIff(actions: seq<Action>)
    ensures InStepThroughout(actions) <==> EachTakesWhole(actions)
  {
    hide InStep, TakesWhole, Apply, ApplyCells;
    var n := |actions| - 1;
    if actions == [] {
      Nothing();
      assert actions[..0] == [];
      assert RunEdits([]) == Editor([], []) && RunCells([]) == [];
    } else {
      var front := actions[..n];
      InStepIff(front);
      assert forall i :: 0 <= i <= n ==> front[..i] == actions[..i];
      assert actions[..n + 1] == actions;
      assert InStepThroughout(actions) <==> InStepThroughout(front) && InStep(RunEdits(actions), RunCells(actions));
      assert EachTakesWhole(actions) <==> EachTakesWhole(front) && (actions[n].Erase? ==> TakesWhole(RunCells(front)));
      if InStepThroughout(front) {
        assert front[..n] == front;
        EditInStep(RunEdits(front), RunCells(front), actions[n]);
      }
    }
  }

  /** A number that is no code point leaves a width without bytes; the backspace meant for it takes the character
      before. */
  lemma OutOfStep(width: int)
    requires width > 0
    ensures var actions := [Type(0x61, 1), Type(LAST + 1, width), Erase];
            RunCells(actions) == [Cell(0x61, 1)] && RunEdits(actions) == Editor([], [1])
            && !InStep(RunEdits(actions), RunCells(actions))
  {
    hide RunEdits, RunCells, Encoded;
    var a, b := [Type(0x61, 1)], [Type(0x61, 1), Type(LAST + 1, width)];
    RunNext([], a[0]);
    RunNext(a, b[1]);
    RunNext(b, Erase);
    assert [] + [a[0]] == a && a + [b[1]] == b && b + [Erase] == [Type(0x61, 1), Type(LAST + 1, width), Erase];
    assert [1, width][..1] == [1] && [0x61][..0] == [];
    EncodedOne(0x61);
    assert Chars([Cell(0x61, 1)]) == [0x61];
  }

  lemma RunNext(actions: seq<Action>, a: Action)
    ensures RunEdits(actions + [a]) == Apply(RunEdits(actions), a)
            && RunCells(actions + [a]) == ApplyCells(RunCells(actions), a)
    ensures actions == [] ==> RunEdits(actions) == Editor([], []) && RunCells(actions) == []
  {
    assert (actions + [a])[..|actions|] == actions;
  }

  lemma EncodedOne(ch: CodePoint)
    ensures Encoded([ch]) == Utf8(ch)
  {
    assert [ch][..0] == [] && Encoded([]) == [];
  }

  // ---------- The keys

  /** A value from the input and the width that the terminal would report if it were displayed. */
  datatype Key = Key(ch: CodePoint, width: int)

  predicate EndsSequence(ch: CodePoint) {
    0x41 <= ch <= 0x5A || 0x61 <= ch <= 0x7A || ch == 0x7E
  }

  /** What is left after the rest of a control sequence. */
  function AfterCode(keys: seq<Key>): (rest: seq<Key>)
    ensures |rest| <= |keys| && rest == keys[|keys| - |rest|..]
  {
    if keys == [] then []
    else if keys[0].ch == WEOF || EndsSequence(keys[0].ch) then keys[1..]
    else AfterCode(keys[1..])
  }

  /** What is left after an escape. */
  function AfterEscape(keys: seq<Key>): (rest: seq<Key>)
    ensures |rest| <= |keys| && rest == keys[|keys| - |rest|..]
  {
    if keys == [] then [] else if keys[0].ch == 0x5B || keys[0].ch == 0x1B then AfterCode(keys[1..]) else keys[1..]
  }

  datatype Input = Input(actions: seq<Action>, ended: bool)

  /** The edits that the keys make up to the end of the line or of the stream. */
  function InputOf(keys: seq<Key>): (input: Input)
    decreases |keys|
  {
    if keys == [] then Input([], true) else
    var ch := keys[0].ch;
    if ch == 0x0D || ch == 0x0A then Input([], false)
    else if ch == WEOF || ch == 0x04 then Input([], true)
    else After(ActionOf(keys[0]), InputOf(AfterEdit(keys)))
  }

  function ActionOf(k: Key): (a: Action) {
    if k.ch == 0x1B then Skip else if k.ch == 0x08 || k.ch == 0x7F then Erase else Type(k.ch, k.width)
  }

  function AfterEdit(keys: seq<Key>): (rest: seq<Key>)
    requires keys != []
    ensures |rest| < |keys|
  {
    if keys[0].ch == 0x1B then AfterEscape(keys[1..]) else keys[1..]
  }

  predicate EndsInput(keys: seq<Key>) {
    keys == [] || keys[0].ch in {0x0D, 0x0A, WEOF, 0x04}
  }

  /** An edit that is done moves from what is to come to what is done. */
  lemma InputNext(keys: seq<Key>, done: seq<Action>, input: Input)
    requires input == Input(done + InputOf(keys).actions, InputOf(keys).ended)
    ensures EndsInput(keys) ==>
              input == Input(done, keys == [] || keys[0].ch == WEOF || keys[0].ch == 0x04)
    ensures !EndsInput(keys) ==>
              var next := InputOf(AfterEdit(keys));
              input == Input((done + [ActionOf(keys[0])]) + next.actions, next.ended)
  {
    hide AfterEdit, ActionOf;
    if EndsInput(keys) {
      assert done + [] == done;
    } else {
      var next := InputOf(AfterEdit(keys)).actions;
      assert done + ([ActionOf(keys[0])] + next) == (done + [ActionOf(keys[0])]) + next;
    }
  }

  function After(a: Action, input: Input): (r: Input) {
    Input([a] + input.actions, input.ended)
  }

  predicate IsSpecial(b: CodePoint) {
    b == BACKSLASH || b == SLASH
  }

  predicate EndsSpecial(line: seq<CodePoint>) {
    line != [] && IsSpecial(line[|line| - 1])
  }

  /** What the line becomes when the input is over: a backslash at the end asks for the opposite of the mode, a slash
      ends the message, and otherwise a newline is added unless the stream ended. The same on characters and on
      bytes. */
  function Closed(line: seq<CodePoint>, ended: bool): (r: seq<CodePoint>) {
    if EndsSpecial(line) then
      var front := line[..|line| - 1];
      if line[|line| - 1] == BACKSLASH then front + [NEWLINE] else if front == [SPACE] then [] else front
    else if ended then line else line + [NEWLINE]
  }

  function HasMore(line: seq<CodePoint>, ended: bool, multiline: bool): (more: bool) {
    if EndsSpecial(line) then line[|line| - 1] == BACKSLASH && !multiline else !ended && multiline
  }

  /** The line and the answer for the given keys. */
  function ReadLine(keys: seq<Key>, multiline: bool): (r: (seq<Byte>, bool)) {
    var input := InputOf(keys);
    var typed := RunEdits(input.actions).line;
    (Closed(typed, input.ended), HasMore(typed, input.ended, multiline))
  }

  class Console {
    var keys: seq<Key>

    constructor (keys: seq<Key>)
      ensures this.keys == keys
    {
      this.keys := keys;
    }

    /** The next value of the input; at its end, the value that says so. */
    method GetChar32() returns (k: Key)
      modifies this
      ensures if old(keys) == [] then k.ch == WEOF && keys == [] else k == old(keys)[0] && keys == old(keys)[1..]
    {
      if keys == [] {
        return Key(WEOF, 0);
      }
      k := keys[0];
      keys := keys[1..];
    }

    method SkipEscape()
      modifies this
      ensures keys == AfterEscape(old(keys))
    {
      var code := GetChar32();
      if code.ch == 0x5B || code.ch == 0x1B {
        code := GetChar32();
        while code.ch != WEOF && !EndsSequence(code.ch)
          invariant AfterEscape(old(keys)) == if code.ch == WEOF || EndsSequence(code.ch) then keys else AfterCode(keys)
          decreases |keys| + (if code.ch == WEOF then 0 else 1)
        {
          code := GetChar32();
        }
      }
    }

    method EraseBack(line: Buffer, widths: seq<nat>) returns (left: seq<nat>)
      modifies line
      ensures Editor(line.bytes, left) == Erased(Editor(old(line.bytes), widths))
    {
      left := widths;
      if left != [] {
        var count := 0;
        var again := true;
        while again
          invariant again ==> left != [] && Erased(Editor(line.bytes, left)) == Erased(Editor(old(line.bytes), widths))
          invariant !again ==> Editor(line.bytes, left) == Erased(Editor(old(line.bytes), widths))
          decreases |left| + (if again then 1 else 0)
        {
          count := left[|left| - 1];
          left := left[..|left| - 1];
          line.PopBackUtf8Char();
          again := count == 0 && left != [];
        }
      }
    }

    /** Closes the line: the special character at its end is not part of it. */
    method CloseLine(line: Buffer, isSpecialChar: bool, endOfStream: bool, multiline: bool) returns (hasMore: bool)
      requires isSpecialChar <==> EndsSpecial(line.bytes)
      modifies line
      ensures line.bytes == Closed(old(line.bytes), endOfStream)
              && hasMore == HasMore(old(line.bytes), endOfStream, multiline)
    {
      hasMore := multiline;
      if isSpecialChar {
        var last := line.bytes[|line.bytes| - 1];
        line.bytes := line.bytes[..|line.bytes| - 1];
        if last == BACKSLASH {
          line.bytes := line.bytes + [NEWLINE];
          hasMore := !hasMore;
        } else {
          if |line.bytes| == 1 && line.bytes[0] == SPACE {
            line.bytes := [];
          }
          hasMore := false;
        }
      } else {
        if endOfStream {
          hasMore := false;
        } else {
          line.bytes := line.bytes + [NEWLINE];
        }
      }
    }

    /** One edit of the line: an escape sequence, a backspace or a character. */
    method Edit(line: Buffer, widths: seq<nat>, k: Key) returns (left: seq<nat>)
      modifies this, line
      ensures keys == if k.ch == 0x1B then AfterEscape(old(keys)) else old(keys)
      ensures Editor(line.bytes, left) == Apply(Editor(old(line.bytes), widths), ActionOf(k))
    {
      hide Erased, Utf8, AfterEscape;
      left := widths;
      if k.ch == 0x1B {
        SkipEscape();
      } else if k.ch == 0x08 || k.ch == 0x7F {
        left := EraseBack(line, widths);
      } else {
        line.AppendUtf8(k.ch);
        var width := k.width;
        if width < 0 {
          width := 0;
        }
        left := left + [width];
      }
    }

    method ReadlineAdvanced(line: Buffer, multiline: bool) returns (hasMore: bool)
      modifies this, line
      ensures (line.bytes, hasMore) == ReadLine(old(keys), multiline)
    {
      hide RunEdits, Apply, AfterEscape, InputOf, Closed, HasMore, ActionOf;
      line.bytes := [];
      var widths: seq<nat> := [];
      var isSpecialChar := false;
      var endOfStream := false;
      ghost var done: seq<Action> := [];
      ghost var input := InputOf(keys);
      RunNext([], Skip);
      assert input.actions == done + input.actions;
      var reading := true;
      while reading
        invariant Editor(line.bytes, widths) == RunEdits(done)
        invariant isSpecialChar <==> EndsSpecial(line.bytes)
        invariant !endOfStream || !reading
        invariant reading ==> input == Input(done + InputOf(keys).actions, InputOf(keys).ended)
        invariant !reading ==> input == Input(done, endOfStream)
        decreases |keys| + (if reading then 1 else 0)
      {
        InputNext(keys, done, input);
        var k := GetChar32();
        if k.ch == 0x0D || k.ch == 0x0A {
          reading := false;
        } else if k.ch == WEOF || k.ch == 0x04 {
          endOfStream := true;
          reading := false;
        } else {
          isSpecialChar := false;
          widths := Edit(line, widths, k);
          RunNext(done, ActionOf(k));
          done := done + [ActionOf(k)];
          if line.bytes != [] && IsSpecial(line.bytes[|line.bytes| - 1]) {
            isSpecialChar := true;
          }
        }
      }
      hasMore := CloseLine(line, isSpecialChar, endOfStream, multiline);
    }
  }

  // ---------- What the caller gets

  lemma LastByte(ch: CodePoint)
    requires ch <= LAST
    ensures Utf8(ch)[|Utf8(ch)| - 1] == ch || (ch > 0x7F && IsContinuation(Utf8(ch)[|Utf8(ch)| - 1]))
    ensures ch <= 0x7F <==> Utf8(ch) == [ch]
  {
  }

  /** A plain byte at the end of the bytes is a plain character at the end of the text. */
  lemma LastOf(text: seq<CodePoint>)
    requires text != [] && forall i :: 0 <= i < |text| ==> text[i] <= LAST
    ensures var n, b := |text| - 1, Encoded(text);
            && b != []
            && (text[n] <= 0x7F ==> b[|b| - 1] == text[n] && b[..|b| - 1] == Encoded(text[..n]))
            && (text[n] > 0x7F ==> b[|b| - 1] > 0x7F)
  {
    hide Utf8;
    var n := |text| - 1;
    var front, last := Encoded(text[..n]), Utf8(text[n]);
    LastByte(text[n]);
    assert Encoded(text) == front + last;
    hide Encoded;
    assert (front + last)[|front + last| - 1] == last[|last| - 1];
    if text[n] <= 0x7F {
      assert (front + last)[..|front|] == front;
    }
  }

  lemma OnlySpace(text: seq<CodePoint>)
    requires forall i :: 0 <= i < |text| ==> text[i] <= LAST
    ensures Encoded(text) == [SPACE] <==> text == [SPACE]
  {
    hide Encoded;
    EmptyText();
    EncodedOne(SPACE);
    if text != [] && Encoded(text) == [SPACE] {
      LastOf(text);
      var front := text[..|text| - 1];
      assert [SPACE][..0] == [];
      if front != [] {
        LastOf(front);
      }
      assert text == front + [SPACE];
    }
  }

  lemma SameEnd(text: seq<CodePoint>)
    requires forall i :: 0 <= i < |text| ==> text[i] <= LAST
    ensures EndsSpecial(Encoded(text)) <==> EndsSpecial(text)
    ensures EndsSpecial(text) ==> var b, n := Encoded(text), |text| - 1;
              b[|b| - 1] == text[n] && b[..|b| - 1] == Encoded(text[..n])
  {
    hide Encoded;
    if text == [] {
      EmptyText();
    } else {
      LastOf(text);
    }
  }

  /** Closing the bytes is closing the characters. */
  lemma ClosedText(text: seq<CodePoint>, ended: bool, multiline: bool)
    requires forall i :: 0 <= i < |text| ==> text[i] <= LAST
    ensures Closed(Encoded(text), ended) == Encoded(Closed(text, ended))
    ensures HasMore(Encoded(text), ended, multiline) == HasMore(text, ended, multiline)
  {
    hide Encoded, IsSpecial;
    SameEnd(text);
    if EndsSpecial(text) {
      var front := text[..|text| - 1];
      EmptyText();
      OnlySpace(front);
      Newline(front);
    } else {
      Newline(text);
    }
  }

  lemma EmptyText()
    ensures Encoded([]) == []
  {
  }

  lemma Newline(text: seq<CodePoint>)
    ensures Encoded(text + [NEWLINE]) == Encoded(text) + [NEWLINE]
  {
    assert (text + [NEWLINE])[..|text|] == text;
  }

  /** The line that is handed back is the encoding of the characters on screen, closed, and reads back as them. */
  lemma LineIsText(keys: seq<Key>, multiline: bool)
    requires AllCodePoints(InputOf(keys).actions)
    ensures var input := InputOf(keys);
            var text := Chars(RunCells(input.actions));
            && Closed(RunEdits(input.actions).line, input.ended) == Encoded(Closed(text, input.ended))
            && HasMore(RunEdits(input.actions).line, input.ended, multiline) == HasMore(text, input.ended, multiline)
            && (Scalars(text) ==> ReadAll(Encoded(Closed(text, input.ended))) == Some(Closed(text, input.ended)))
  {
    hide Encoded, RunEdits, RunCells, InputOf, ReadAll;
    var input := InputOf(keys);
    StaysInStep(input.actions);
    var text := Chars(RunCells(input.actions));
    ClosedText(text, input.ended, multiline);
    if Scalars(text) {
      EncodedReadsBack(Closed(text, input.ended));
    }
  }
}
