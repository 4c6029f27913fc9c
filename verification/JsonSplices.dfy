/** Reading a JSON value depends on its own text only: what stands behind it can be exchanged. */
module JsonSplices {
  import opened Wrappers
  import opened Json
  import opened JsonValues

  /** What may follow a value inside a text, or nothing. */
  predicate Ends(rest: string) {
    rest == "" || rest[0] in {',', ']', '}'}
  }

  // ---------- White space

  predicate AllJsonSpace(w: string) {
    forall i :: 0 <= i < |w| ==> IsJsonSpace(w[i])
  }

  lemma {:induction false} Skipped(t: string) returns (w: string)
    ensures t == w + SkipSpace(t) && AllJsonSpace(w) && (SkipSpace(t) == "" || !IsJsonSpace(SkipSpace(t)[0]))
  {
    w := "";
    if t != "" && IsJsonSpace(t[0]) {
      var more := Skipped(t[1..]);
      w := [t[0]] + more;
      assert t == [t[0]] + t[1..];
    }
  }

  lemma {:induction false} SkipAll(w: string, rest: string)
    requires AllJsonSpace(w) && (rest == "" || !IsJsonSpace(rest[0]))
    ensures SkipSpace(w + rest) == rest
  {
    if w == "" {
      assert w + rest == rest;
    } else {
      assert (w + rest)[1..] == w[1..] + rest;
      SkipAll(w[1..], rest);
    }
  }

  lemma {:induction false} SpaceScan(s: Scan, w: string)
    requires AllJsonSpace(w) && s.Scan? && !s.quoted && !s.escaped
    ensures Run(s, w) == s
  {
    if w != "" {
      SpaceScan(s, w[1..]);
    }
  }

  // ---------- Strings

  /** What is read of a string, up to its closing quote, reads the same before anything else. */
  lemma {:induction false} StringSplice(t: string, other: string, open: string) returns (c: string)
    requires ReadString(t).Some?
    ensures t == c + ReadString(t).value.1 && ReadString(c + other) == Some((ReadString(t).value.0, other))
    ensures Run(Scan(open, true, false), c) == Scan(open, false, false)
    decreases |t|
  {
    var q := Scan(open, true, false);
    if t[0] == '"' {
      c := [t[0]];
      assert t == c + t[1..] && (c + other)[1..] == other;
      OneChar(q, '"');
    } else {
      var n := CharacterLength(t);
      hide ReadString, IsCharacter, Run;
      SameCharacter(t, n, "");
      var more := StringSplice(t[n..], other, open);
      c := t[..n] + more;
      OneMoreCharacter(t, n, more, other, open);
    }
  }

  lemma OneMoreCharacter(t: string, n: nat, more: string, other: string, open: string)
    requires IsCharacter(t, n) && ReadString(t[n..]).Some? && t[n..] == more + ReadString(t[n..]).value.1
    requires ReadString(more + other) == Some((ReadString(t[n..]).value.0, other))
    requires Run(Scan(open, true, false), more) == Scan(open, false, false)
    ensures var c := t[..n] + more;
            && ReadString(t).Some? && t == c + ReadString(t).value.1
            && ReadString(c + other) == Some((ReadString(t).value.0, other))
            && Run(Scan(open, true, false), c) == Scan(open, false, false)
  {
    hide ReadString, IsCharacter, Run;
    SameCharacter(t, n, more + other);
    assert t == t[..n] + t[n..];
    assert (t[..n] + more) + other == t[..n] + (more + other);
    CharacterScan(t, n, open);
    RunAppend(Scan(open, true, false), t[..n], more);
  }

  lemma CharacterLength(t: string) returns (n: nat)
    requires ReadString(t).Some? && t[0] != '"'
    ensures n > 0 && IsCharacter(t, n)
  {
    n := if t[0] != '\\' then 1 else if t[1] == 'u' then 6 else 2;
  }

  /** The characters that one character of a string is written with. */
  predicate IsCharacter(t: string, n: nat) {
    && n <= |t| && t != "" && t[0] != '"' && t[0] as int >= 32
    && if t[0] != '\\' then n == 1
       else if |t| > 1 && t[1] == 'u' then n == 6 && ReadHex(t[2..]).Some?
       else n == 2 && Unescaped(t[1]).Some?
  }

  lemma SameCharacter(t: string, n: nat, other: string)
    requires IsCharacter(t, n)
    ensures n <= |t|
    ensures var c := if t[0] != '\\' then t[0]
                     else if t[1] == 'u' then ReadHex(t[2..]).value else Unescaped(t[1]).value;
            && ReadString(t) == Prepend(c, ReadString(t[n..]))
            && ReadString(t[..n] + other) == Prepend(c, ReadString(other))
  {
    hide Unescaped;
    var s := t[..n] + other;
    assert s[n..] == other && s[0] == t[0] && (n > 1 ==> s[1] == t[1]);
    if n == 6 {
      assert s[2] == t[2] && s[3] == t[3] && s[4] == t[4] && s[5] == t[5];
      SameHex(s[2..], t[2..]);
    }
  }

  lemma SameHex(a: string, b: string)
    requires |a| >= 4 && |b| >= 4 && a[0] == b[0] && a[1] == b[1] && a[2] == b[2] && a[3] == b[3]
    ensures ReadHex(a) == ReadHex(b)
  {
    hide HexValue;
  }

  lemma CharacterScan(t: string, n: nat, open: string)
    requires IsCharacter(t, n)
    ensures Run(Scan(open, true, false), t[..n]) == Scan(open, true, false)
  {
    var q := Scan(open, true, false);
    if n == 6 {
      assert forall i :: 0 <= i < 4 ==> HexValue(t[2..][i]) != 16;
      assert forall i :: 0 <= i < 4 ==> t[..6][2..][i] == t[2..][i];
      PlainRun(q, t[..6][2..]);
      assert t[..6] == ['\\', t[1]] + t[..6][2..];
      RunPair(q, t[1]);
      RunAppend(q, ['\\', t[1]], t[..6][2..]);
    } else if n == 2 {
      assert t[..2] == ['\\', t[1]];
      RunPair(q, t[1]);
    } else {
      assert t[..1] == [t[0]];
      OneChar(q, t[0]);
    }
  }

  // ---------- Numbers

  lemma {:induction false} DigitsRead(t: string)
    ensures forall i :: 0 <= i < DigitsLength(t) ==> IsDigit(t[i])
  {
    if t != "" && IsDigit(t[0]) {
      DigitsRead(t[1..]);
      assert forall i :: 1 <= i < DigitsLength(t) ==> t[i] == t[1..][i - 1];
    }
  }

  lemma WholeRead(t: string)
    requires WholeLength(t) > 0
    ensures var w := t[..WholeLength(t)]; w == "0" || (IsDigits(w) && w[0] != '0')
  {
    DigitsRead(t);
  }

  lemma FracRead(t: string)
    ensures var f := t[..FracLength(t)]; f == "" || (f[0] == '.' && IsDigits(f[1..]))
  {
    if FracLength(t) > 0 {
      DigitsRead(t[1..]);
    }
  }

  lemma ExpRead(t: string)
    ensures var e := t[..ExpLength(t)]; e == "" || IsExponent(e)
  {
    var n := ExpLength(t);
    if n > 0 {
      var k := if t[1] == '+' || t[1] == '-' then 2 else 1;
      DigitsRead(t[k..]);
      assert t[..n][k..] == t[k..][..n - k];
    }
  }

  lemma ScaleRead(t: string) returns (frac: string, exp: string)
    ensures t[..ScaleLength(t)] == frac + exp
    ensures (frac == "" || (frac[0] == '.' && IsDigits(frac[1..]))) && (exp == "" || IsExponent(exp))
  {
    hide FracLength, ExpLength, IsExponent;
    FracRead(t);
    ExpRead(t[FracLength(t)..]);
    frac, exp := t[..FracLength(t)], t[FracLength(t)..][..ExpLength(t[FracLength(t)..])];
  }

  lemma UnsignedRead(t: string) returns (whole: string, frac: string, exp: string)
    requires UnsignedLength(t) > 0
    ensures t[..UnsignedLength(t)] == whole + (frac + exp) && IsNumeral(Numeral("", whole, frac, exp))
  {
    hide WholeLength, ScaleLength, IsExponent;
    var w := WholeLength(t);
    WholeRead(t);
    whole := t[..w];
    frac, exp := ScaleRead(t[w..]);
    assert t[..w + ScaleLength(t[w..])] == t[..w] + t[w..][..ScaleLength(t[w..])];
  }

  /** What the reader takes for a number is one. */
  lemma NumberRead(t: string)
    requires NumberLength(t) > 0
    ensures IsNumber(t[..NumberLength(t)])
  {
    hide UnsignedLength, IsExponent;
    var i := if t[0] == '-' then 1 else 0;
    var whole, frac, exp := UnsignedRead(t[i..]);
    var n := Numeral(if i == 1 then "-" else "", whole, frac, exp);
    var u := UnsignedLength(t[i..]);
    assert t[..i + u] == n.minus + t[i..][..u];
    assert IsNumeral(n) && t[..NumberLength(t)] == Spelled(n);
  }

  // ---------- Values

  /** A character that a scan outside strings passes over. */
  predicate IsPassed(c: char) {
    c !in {'"', '{', '}', '[', ']', ','}
  }

  lemma {:induction false} PassedOver(t: string)
    requires forall i :: 0 <= i < |t| ==> IsPassed(t[i])
    ensures Run(START, t) == START
  {
    if t != "" {
      PassedOver(t[1..]);
    }
  }

  /** A number, read the same before anything that cannot make it longer. */
  lemma NumberSplice(t: string, other: string) returns (c: string)
    requires t != "" && (t[0] == '-' || IsDigit(t[0])) && NumberLength(t) > 0 && !GoesOn(other)
    ensures c == t[..NumberLength(t)] && ReadBare(c + other) == Some((NumberValue(c), other)) && Run(START, c) == START
  {
    hide NumberLength, IsNumeral, Spelled, ReadBare, Run;
    c := t[..NumberLength(t)];
    NumberRead(t);
    BareNumber(c, other);
    NumberChars(c);
    assert forall i :: 0 <= i < |c| ==> IsNumberChar(c[i]);
    PassedOver(c);
  }

  lemma BareNumber(word: string, tail: string)
    requires IsNumber(word) && !GoesOn(tail)
    ensures ReadBare(word + tail) == Some((NumberValue(word), tail))
  {
    hide NumberLength, ReadBare, IsNumeral, Spelled, StartsWith;
    NumberChars(word);
    var n: Numeral :| IsNumeral(n) && word == Spelled(n);
    NumberEnd(n, tail);
    NumberAt(word + tail, word, tail);
  }

  lemma NumberAt(t: string, word: string, tail: string)
    requires t == word + tail && NumberLength(t) == |word| > 0 && (word[0] == '-' || IsDigit(word[0]))
    ensures ReadBare(t) == Some((NumberValue(word), tail))
  {
    hide NumberLength, StartsWith;
    assert t[0] == word[0];
    NoWord(t);
    assert t[..|word|] == word && t[|word|..] == tail;
  }

  lemma NoWord(t: string)
    requires t != "" && (t[0] == '-' || IsDigit(t[0]))
    ensures !StartsWith(t, "null") && !StartsWith(t, "true") && !StartsWith(t, "false")
  {
    assert |t| >= 4 ==> t[..4][0] == t[0];
    assert |t| >= 5 ==> t[..5][0] == t[0];
  }

  lemma BareWord(word: string, tail: string)
    requires word in {"true", "false", "null"}
    ensures ReadBare(word + tail) == Some((if word == "null" then NullValue else BoolValue(word == "true"), tail))
  {
    var t := word + tail;
    assert t[..|word|] == word && t[|word|..] == tail && t[0] == word[0];
    assert StartsWith(t, word);
    assert word != "null" ==> t[..4][0] != 'n';
    assert word == "false" ==> t[..4][0] != 't';
  }

  const IN_LIST: Scan := Scan("[", false, false)
  const IN_OBJECT: Scan := Scan("{", false, false)

  lemma ListRead(body: string)
    ensures ReadBare("[" + body) ==
            if BeginsWith(SkipSpace(body), ']') then Some((ListValue([]), SkipSpace(body)[1..]))
            else match ReadElements(body) case None => None case Some((vs, rest)) => Some((ListValue(vs), rest))
  {
    hide ReadElements;
    assert ("[" + body)[1..] == body;
  }

  lemma ObjectRead(body: string)
    ensures ReadBare("{" + body) ==
            if BeginsWith(SkipSpace(body), '}') then Some((ObjectValue([]), SkipSpace(body)[1..]))
            else match ReadPairs(body) case None => None case Some((ms, rest)) => Some((ObjectValue(ms), rest))
  {
    hide ReadPairs;
    assert ("{" + body)[1..] == body;
  }

  /** What a value starts with. */
  predicate IsStart(c: char) {
    c in {'"', '[', '{', '-', 't', 'f', 'n'} || IsDigit(c)
  }

  lemma BareStarts(t: string)
    requires ReadBare(t).Some?
    ensures t != "" && IsStart(t[0])
  {
    hide ReadElements, ReadPairs, ReadString, SkipSpace, NumberLength;
    assert |t| >= 4 ==> t[..4][0] == t[0];
    assert |t| >= 5 ==> t[..5][0] == t[0];
    if t[0] != '"' && t[0] != '[' && t[0] != '{' && NumberLength(t) > 0 {
      NumberStarts(t);
    }
  }

  /** Nothing that is read as a value starts with a closing bracket. */
  lemma NotClosing(t: string)
    requires ReadElements(t).Some? || ReadPairs(t).Some?
    ensures SkipSpace(t) != "" && SkipSpace(t)[0] != ']' && SkipSpace(t)[0] != '}'
  {
    hide ReadBare, ReadString, SkipSpace;
    if ReadElements(t).Some? {
      BareStarts(SkipSpace(t));
    } else {
      assert ReadName(t).Some?;
    }
  }

  /** Scanning on inside an open bracket, and closing it. */
  lemma ScanClosed(open: char, close: char, body: string)
    requires (open == '[' && close == ']') || (open == '{' && close == '}')
    requires Run(Scan([open], false, false), body) == START
    ensures Run(START, [open] + body) == START
  {
    hide Run;
    RunAppend(START, [open], body);
    OneChar(START, open);
    assert [open] + "" == [open];
  }

  lemma ScanBefore(open: string, a: string, b: string)
    requires Run(START, a) == START && |open| == 1
    ensures Run(Scan(open, false, false), a + b) == Run(Scan(open, false, false), b)
  {
    hide Run;
    RunLifted(START, a, open);
    assert "" + open == open;
    RunAppend(Scan(open, false, false), a, b);
  }

  lemma ScanOne(s: Scan, c: char, more: string)
    ensures Run(s, [c] + more) == Run(Step(s, c), more)
  {
    assert ([c] + more)[1..] == more;
  }

  lemma EmptySplice(open: char, close: char, t: string, other: string) returns (c: string)
    requires (open == '[' && close == ']') || (open == '{' && close == '}')
    requires t != "" && t[0] == open && BeginsWith(SkipSpace(t[1..]), close)
    ensures c != "" && c[0] == open && t == c + SkipSpace(t[1..])[1..] && Run(START, c) == START
    ensures SkipSpace((c + other)[1..]) == [close] + other
  {
    hide Run, SkipSpace, AllJsonSpace;
    var w := Skipped(t[1..]);
    var rest := SkipSpace(t[1..]);
    assert t == [open] + t[1..] && rest == [close] + rest[1..];
    c := [open] + (w + [close]);
    assert (c + other)[1..] == w + ([close] + other);
    SkipAll(w, [close] + other);
    EmptyScan(open, close, w);
  }

  lemma EmptyScan(open: char, close: char, w: string)
    requires (open == '[' && close == ']') || (open == '{' && close == '}')
    requires AllJsonSpace(w)
    ensures Run(START, [open] + (w + [close])) == START
  {
    hide Run;
    var s := Scan([open], false, false);
    SpaceScan(s, w);
    RunAppend(s, w, [close]);
    OneChar(s, close);
    assert [open][1..] == "";
    ScanClosed(open, close, w + [close]);
  }

  /** What is read of a bare value reads the same before anything that cannot make it longer. */
  lemma {:induction false} BareSplice(t: string, other: string) returns (c: string)
    requires ReadBare(t).Some? && !GoesOn(other)
    ensures c != "" && c[0] == t[0] && t == c + ReadBare(t).value.1
    ensures ReadBare(c + other) == Some((ReadBare(t).value.0, other)) && Run(START, c) == START
    decreases |t|, 0
  {
    hide Run, ReadElements, ReadPairs, ReadString, SkipSpace, NumberLength;
    assert t == [t[0]] + t[1..];
    if t[0] == '"' {
      var m := StringSplice(t[1..], other, "");
      c := "\"" + m;
      assert (c + other)[1..] == m + other;
      ScanOne(START, '"', m);
    } else if t[0] == '[' {
      ListRead(t[1..]);
      if BeginsWith(SkipSpace(t[1..]), ']') {
        c := EmptySplice('[', ']', t, other);
        assert (c + other)[0] == '[' && ("]" + other)[1..] == other;
      } else {
        var m := ElementsSplice(t[1..], other);
        c := "[" + m;
        NotClosing(m + other);
        assert c + other == "[" + (m + other);
        ListRead(m + other);
        ScanClosed('[', ']', m);
      }
    } else if t[0] == '{' {
      ObjectRead(t[1..]);
      if BeginsWith(SkipSpace(t[1..]), '}') {
        c := EmptySplice('{', '}', t, other);
        assert (c + other)[0] == '{' && ("}" + other)[1..] == other;
      } else {
        var m := PairsSplice(t[1..], other);
        c := "{" + m;
        NotClosing(m + other);
        assert c + other == "{" + (m + other);
        ObjectRead(m + other);
        ScanClosed('{', '}', m);
      }
    } else if StartsWith(t, "null") || StartsWith(t, "true") || StartsWith(t, "false") {
      c := if StartsWith(t, "null") then "null" else if StartsWith(t, "true") then "true" else "false";
      WordSplice(t, c, other);
    } else {
      NumberStarts(t);
      c := NumberSplice(t, other);
    }
  }

  lemma WordSplice(t: string, word: string, other: string)
    requires word in {"true", "false", "null"} && StartsWith(t, word)
    ensures t[0] == word[0] && t == word + t[|word|..] && Run(START, word) == START
    ensures ReadBare(word + other) == Some((if word == "null" then NullValue else BoolValue(word == "true"), other))
  {
    hide Run;
    assert t[..|word|][0] == t[0];
    BareWord(word, other);
    PassedOver(word);
  }

  lemma NumberStarts(t: string)
    requires NumberLength(t) > 0
    ensures t[0] == '-' || IsDigit(t[0])
  {
  }

  /** What is read of a value, with the white space around it, reads the same before anything that may follow one. */
  lemma {:induction false} ValueSplice(t: string, other: string) returns (c: string)
    requires ReadValue(t).Some? && Ends(other)
    ensures c != "" && t == c + ReadValue(t).value.1 && ReadValue(c + other) == Some((ReadValue(t).value.0, other))
    ensures Run(START, c) == START
    decreases |t|, 1
  {
    hide Run, ReadBare, SkipSpace;
    var w1 := Skipped(t);
    var b := SkipSpace(t);
    var w2 := Skipped(ReadBare(b).value.1);
    var behind := w2 + other;
    assert !GoesOn(behind) by {
      assert w2 != "" ==> IsJsonSpace(w2[0]);
    }
    BareStarts(b);
    var m := BareSplice(b, behind);
    c := w1 + (m + w2);
    assert c + other == w1 + (m + behind);
    SkipAll(w1, m + behind);
    SkipAll(w2, other);
    SpaceScan(START, w1);
    SpaceScan(START, w2);
    RunAppend(START, w1, m + w2);
    RunAppend(START, m, w2);
  }

  lemma {:induction false} ElementsSplice(t: string, other: string) returns (c: string)
    requires ReadElements(t).Some?
    ensures t == c + ReadElements(t).value.1 && ReadElements(c + other) == Some((ReadElements(t).value.0, other))
    ensures Run(IN_LIST, c) == START
    decreases |t|, 2
  {
    hide Run, ReadValue;
    var r := ReadValue(t).value.1;
    assert r == [r[0]] + r[1..];
    if r[0] == ']' {
      var m := ValueSplice(t, "]" + other);
      c := m + "]";
      assert c + other == m + ("]" + other) && ("]" + other)[1..] == other;
      ScanBefore("[", m, "]");
      OneChar(IN_LIST, ']');
    } else {
      var more := ElementsSplice(r[1..], other);
      var behind := "," + (more + other);
      var m := ValueSplice(t, behind);
      c := m + ("," + more);
      assert c + other == m + behind && behind[1..] == more + other;
      ScanBefore("[", m, "," + more);
      ScanOne(IN_LIST, ',', more);
    }
  }

  lemma NameSplice(t: string, other: string) returns (c: string)
    requires ReadName(t).Some?
    ensures t == c + ReadName(t).value.1 && ReadName(c + other) == Some((ReadName(t).value.0, other))
    ensures Run(IN_OBJECT, c) == IN_OBJECT
  {
    hide Run, ReadString, SkipSpace;
    var w1 := Skipped(t);
    var s := SkipSpace(t);
    var r := ReadString(s[1..]).value.1;
    var w2 := Skipped(r);
    var after := SkipSpace(r);
    assert s == "\"" + s[1..] && after == ":" + after[1..];
    var behind := w2 + (":" + other);
    var m := StringSplice(s[1..], behind, "{");
    c := w1 + ("\"" + (m + (w2 + ":")));
    var tail := "\"" + (m + behind);
    assert c + other == w1 + tail && tail[1..] == m + behind;
    SkipAll(w1, tail);
    SkipAll(w2, ":" + other);
    assert (":" + other)[1..] == other;
    NameScan(w1, m, w2);
  }

  lemma NameScan(w1: string, m: string, w2: string)
    requires AllJsonSpace(w1) && AllJsonSpace(w2) && Run(Scan("{", true, false), m) == IN_OBJECT
    ensures Run(IN_OBJECT, w1 + ("\"" + (m + (w2 + ":")))) == IN_OBJECT
  {
    hide Run;
    SpaceScan(IN_OBJECT, w1);
    SpaceScan(IN_OBJECT, w2);
    RunAppend(IN_OBJECT, w1, "\"" + (m + (w2 + ":")));
    ScanOne(IN_OBJECT, '"', m + (w2 + ":"));
    RunAppend(Scan("{", true, false), m, w2 + ":");
    RunAppend(IN_OBJECT, w2, ":");
    OneChar(IN_OBJECT, ':');
  }

  lemma MemberScan(name: string, m: string, end: string)
    requires Run(IN_OBJECT, name) == IN_OBJECT && Run(START, m) == START
    ensures Run(IN_OBJECT, name + (m + end)) == Run(IN_OBJECT, end)
  {
    hide Run;
    RunAppend(IN_OBJECT, name, m + end);
    ScanBefore("{", m, end);
  }

  lemma {:induction false} PairsSplice(t: string, other: string) returns (c: string)
    requires ReadPairs(t).Some?
    ensures t == c + ReadPairs(t).value.1 && ReadPairs(c + other) == Some((ReadPairs(t).value.0, other))
    ensures Run(IN_OBJECT, c) == START
    decreases |t|, 2
  {
    hide Run, ReadValue, ReadName;
    var after := ReadName(t).value.1;
    var r := ReadValue(after).value.1;
    assert r == [r[0]] + r[1..];
    if r[0] == '}' {
      var m := ValueSplice(after, "}" + other);
      var name := NameSplice(t, m + ("}" + other));
      c := name + (m + "}");
      assert c + other == name + (m + ("}" + other)) && ("}" + other)[1..] == other;
      MemberScan(name, m, "}");
      OneChar(IN_OBJECT, '}');
    } else {
      var more := PairsSplice(r[1..], other);
      var behind := "," + (more + other);
      var m := ValueSplice(after, behind);
      var name := NameSplice(t, m + behind);
      c := name + (m + ("," + more));
      assert c + other == name + (m + behind) && behind[1..] == more + other;
      MemberScan(name, m, "," + more);
      ScanOne(IN_OBJECT, ',', more);
    }
  }

  // ---------- Written values and objects

  lemma NothingSkipped(rest: string)
    requires Ends(rest)
    ensures SkipSpace(rest) == rest
  {
  }

  /** Text written for a string reads as that string. */
  lemma StringReads(s: string, rest: string)
    requires Ends(rest)
    ensures ReadValue(Dump(s) + rest) == Some((StringValue(s), rest))
  {
    hide ReadString, Escape;
    var t := Dump(s) + rest;
    assert t[0] == '"' && t[1..] == Escape(s) + "\"" + rest;
    ReadEscaped(s, rest);
    NothingSkipped(rest);
  }

  lemma NameRead(name: string, after: string)
    ensures ReadName(Dump(name) + ":" + after) == Some((name, after))
  {
    hide ReadString, Escape;
    var t := Dump(name) + ":" + after;
    assert t[0] == '"' && t[1..] == Escape(name) + "\"" + (":" + after);
    ReadEscaped(name, ":" + after);
    assert (":" + after)[1..] == after;
  }

  /** A closed text in front of a comma or a closing bracket: it is read as it is by itself, or the reader does not get
      to what is behind it. */
  lemma CompleteRead(v: string, after: string)
    requires Complete(v) && after != "" && (after[0] == ',' || after[0] == '}')
    ensures match ReadText(v)
            case Some(x) => ReadValue(v + after) == Some((x, after))
            case None =>
              var r := ReadValue(v + after);
              r.None? || r.value.1 == "" || (r.value.1[0] != ',' && r.value.1[0] != '}')
  {
    hide ReadValue, Run, ReadText;
    TextIsValue(v);
    if ReadText(v).Some? {
      var c := ValueSplice(v, after);
      assert c + "" == c;
    } else if ReadValue(v + after).Some? {
      var rest := ReadValue(v + after).value.1;
      var c := ValueSplice(v + after, "");
      assert c + "" == c;
      assert c != v;
      if |c| < |v| {
        var d := v[|c|..];
        assert v + after == c + rest;
        assert (v + after)[..|c|] == c && v[..|c|] == c;
        assert v == c + d;
        assert rest == (v + after)[|c|..] == d + after;
        RunAppend(START, c, d);
        StopsAt(d);
      } else {
        var d := c[|v|..];
        assert v + after == c + rest;
        assert (v + after)[..|v|] == v && c[..|v|] == v;
        assert c == v + d;
        assert d != "" by { assert d == "" ==> c == v; }
        assert d[0] == c[|v|] == (v + after)[|v|] == after[0];
        RunAppend(START, v, d);
        StopsAt(d);
      }
    }
  }

  lemma TextIsValue(v: string)
    ensures match ReadText(v)
            case Some(x) => ReadValue(v) == Some((x, ""))
            case None => ReadValue(v).None? || ReadValue(v).value.1 != ""
  {
    hide ReadValue;
  }

  lemma StopsAt(d: string)
    requires d != "" && Run(START, d) == START
    ensures d[0] != ',' && d[0] != '}' && d[0] != ']'
  {
    if d[0] in {',', '}', ']'} {
      RunStopped(d[1..]);
    }
  }

  predicate AllRead(ms: Members) {
    forall i :: 0 <= i < |ms| ==> ReadText(ms[i].1).Some?
  }

  /** The members with the values that their texts are read as. */
  function ReadAll(ms: Members): (pairs: seq<(string, JsonValue)>)
    requires AllRead(ms)
  {
    if ms == [] then [] else [(ms[0].0, ReadText(ms[0].1).value)] + ReadAll(ms[1..])
  }

  /** The members of an object read back as the values of their texts, or not at all if one of these is no JSON. */
  lemma {:induction false} MembersRead(ms: Members, rest: string)
    requires ms != [] && AllComplete(ms)
    ensures ReadPairs(MembersText(ms) + "}" + rest)
            == if AllRead(ms) then Some((ReadAll(ms), rest)) else None
    decreases |ms|
  {
    hide MembersText, Complete, ReadValue, ReadText, ReadName, Dump;
    var m, tail := ms[0], ms[1..];
    assert ms == [m] + tail;
    var more := MembersText(tail) + "}" + rest;
    var after := if tail == [] then "}" + rest else "," + more;
    MembersTextFront(m, tail);
    assert MembersText(ms) + "}" + rest == Dump(m.0) + ":" + (m.1 + after);
    NameRead(m.0, m.1 + after);
    CompleteRead(m.1, after);
    assert after[1..] == if tail == [] then rest else more;
    assert AllRead(ms) <==> ReadText(m.1).Some? && AllRead(tail);
    if tail == [] {
      assert AllRead(tail) && (AllRead(ms) ==> ReadAll(ms) == [(m.0, ReadText(m.1).value)]);
    } else {
      MembersRead(tail, rest);
    }
  }

  /** An object as it is written is a JSON text exactly when the texts of its values are, and is then read as the names
      with these values. */
  lemma ObjectIsRead(ms: Members)
    requires AllComplete(ms)
    ensures ReadText("{" + MembersText(ms) + "}") == if AllRead(ms) then Some(ObjectValue(ReadAll(ms))) else None
  {
    hide ReadPairs, ReadBare, MembersText, Complete;
    var body := MembersText(ms) + "}";
    assert "{" + MembersText(ms) + "}" == "{" + body;
    if ms == [] {
      MembersTextBack([], ("", ""));
      assert body == "}" && body[1..] == "";
    } else {
      hide AllRead, ReadAll;
      MembersTextQuote(ms);
      MembersRead(ms, "");
      assert body + "" == body && body[0] == '"';
    }
    ObjectRead(body);
  }
}
