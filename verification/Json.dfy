/** JSON texts as RFC 8259 defines them: strings (section 7) written and read, and objects
    (section 4) read as names with the text of their values. */
module Json {
  import opened Wrappers
  import opened Quotes


  function HexDigit(n: nat): (c: char)
    requires n < 16
    ensures '0' <= c <= '9' || 'a' <= c <= 'f'
  {
    "0123456789abcdef"[n]
  }

  function HexValue(c: char): (n: nat)
    ensures n <= 16
  {
    if '0' <= c <= '9' then c as int - '0' as int
    else if 'a' <= c <= 'f' then c as int - 'a' as int + 10
    else if 'A' <= c <= 'F' then c as int - 'A' as int + 10
    else 16
  }

  /** A character as a JSON writer puts it into a string. */
  function EscapeChar(c: char): (s: string)
    ensures s != ""
  {
    if c == '"' then "\\\""
    else if c == '\\' then "\\\\"
    else if c as int == 8 then "\\b"
    else if c as int == 12 then "\\f"
    else if c == '\n' then "\\n"
    else if c == '\r' then "\\r"
    else if c == '\t' then "\\t"
    else if c as int < 32 then "\\u00" + [HexDigit(c as int / 16), HexDigit(c as int % 16)]
    else [c]
  }

  /** The inside of the JSON string for s. */
  function Escape(s: string): (r: string) {
    if s == "" then "" else EscapeChar(s[0]) + Escape(s[1..])
  }

  function Dump(s: string): (text: string) {
    "\"" + Escape(s) + "\""
  }

  /** What the character after a backslash stands for, unless it starts a hexadecimal escape. */
  function Unescaped(c: char): (r: Option<char>) {
    if c == '"' || c == '\\' || c == '/' then Some(c)
    else if c == 'b' then Some(8 as char)
    else if c == 'f' then Some(12 as char)
    else if c == 'n' then Some('\n')
    else if c == 'r' then Some('\r')
    else if c == 't' then Some('\t')
    else None
  }

  /** Four hexadecimal digits, as the character they name. Surrogates are not read. */
  function ReadHex(t: string): (r: Option<char>) {
    if |t| < 4 || exists i :: 0 <= i < 4 && HexValue(t[i]) == 16 then None
    else
      var n := ((HexValue(t[0]) * 16 + HexValue(t[1])) * 16 + HexValue(t[2])) * 16 + HexValue(t[3]);
      if 0xD800 <= n < 0xE000 then None else Some(n as char)
  }

  /** Reads the characters of a string up to its closing quote; also returns what follows the quote. */
  function ReadString(t: string): (r: Option<(string, string)>)
    ensures r.Some? ==> |r.value.1| < |t|
  {
    if t == "" || t[0] as int < 32 then None
    else if t[0] == '"' then Some(("", t[1..]))
    else if t[0] != '\\' then Prepend(t[0], ReadString(t[1..]))
    else if |t| == 1 then None
    else if t[1] == 'u' then
      var c := ReadHex(t[2..]);
      if c.None? then None else Prepend(c.value, ReadString(t[6..]))
    else if Unescaped(t[1]).None? then None
    else Prepend(Unescaped(t[1]).value, ReadString(t[2..]))
  }

  function Prepend(c: char, r: Option<(string, string)>): (longer: Option<(string, string)>) {
    if r.None? then None else Some(([c] + r.value.0, r.value.1))
  }

  /** A string is read back from the text written for it, whatever follows. */
  lemma {:induction false} ReadEscaped(s: string, rest: string)
    ensures ReadString(Escape(s) + "\"" + rest) == Some((s, rest))
  {
    var t := Escape(s) + "\"" + rest;
    if s == "" {
      assert t == "\"" + rest && t[1..] == rest;
    } else {
      var e, t' := EscapeChar(s[0]), Escape(s[1..]) + "\"" + rest;
      assert t == e + t';
      ReadEscaped(s[1..], rest);
      ReadEscapedChar(s[0], t');
      assert s == [s[0]] + s[1..];
    }
  }

  lemma ReadEscapedChar(c: char, rest: string)
    ensures ReadString(EscapeChar(c) + rest) == Prepend(c, ReadString(rest))
  {
    var e, t := EscapeChar(c), EscapeChar(c) + rest;
    assert t[|e|..] == rest;
    if |e| == 6 {
      assert t[2..][..4] == e[2..];
      HexRoundTrip(c, t[2..]);
      assert t[6..] == rest;
    } else if |e| == 2 {
      assert t[2..] == rest;
    } else {
      assert t[1..] == rest;
    }
  }

  lemma HexRoundTrip(c: char, t: string)
    requires c as int < 32 && |t| >= 4 && t[..4] == "00" + [HexDigit(c as int / 16), HexDigit(c as int % 16)]
    ensures ReadHex(t) == Some(c)
  {
    assert t[0] == '0' && t[1] == '0' && t[2] == HexDigit(c as int / 16) && t[3] == HexDigit(c as int % 16);
    assert forall n: nat | n < 16 :: HexValue(HexDigit(n)) == n;
  }

  /** Where a reader stands inside a value: the brackets that are open, innermost first, and
      whether it is in a string. Stop stands for a character that cannot belong to the value. */
  datatype Scan = Scan(open: string, quoted: bool, escaped: bool) | Stop

  const START := Scan("", false, false)

  function Opener(c: char): (r: char) {
    if c == '}' then '{' else '['
  }

  function Step(s: Scan, c: char): (r: Scan) {
    if s.Stop? then Stop
    else if s.escaped then s.(escaped := false)
    else if s.quoted then s.(escaped := c == '\\', quoted := c != '"')
    else if c == '"' then s.(quoted := true)
    else if c == '{' || c == '[' then s.(open := [c] + s.open)
    else if c == '}' || c == ']' then
      if s.open != "" && s.open[0] == Opener(c) then s.(open := s.open[1..]) else Stop
    else if c == ',' && s.open == "" then Stop
    else s
  }

  function Run(s: Scan, t: string): (r: Scan)
    decreases |t|
  {
    if t == "" then s else Run(Step(s, t[0]), t[1..])
  }

  /** A closed text, as every value is: not empty, brackets nested, strings closed, no comma at its top. */
  predicate Complete(v: string) {
    v != "" && Run(START, v) == START
  }

  /** How much of t the value that is being read takes. */
  function ValueLength(s: Scan, t: string): (n: nat)
    ensures n <= |t|
    decreases |t|
  {
    if t == "" || Step(s, t[0]).Stop? then 0 else 1 + ValueLength(Step(s, t[0]), t[1..])
  }

  type Members = seq<(string, string)>

  /** An object, read as its names with the texts of their values. */
  function ReadObject(t: string): (r: Option<Members>) {
    if t == "{}" then Some([])
    else if t != "" && t[0] == '{' then ReadMembers(t[1..])
    else None
  }

  function ReadMembers(t: string): (r: Option<Members>)
    decreases |t|
  {
    if t == "" || t[0] != '"' then None
    else
      var name := ReadString(t[1..]);
      if name.None? || name.value.1 == "" || name.value.1[0] != ':' then None
      else
        var v := name.value.1[1..];
        var n := ValueLength(START, v);
        if !Complete(v[..n]) || n == |v| then None
        else if v[n..] == "}" then Some([(name.value.0, v[..n])])
        else if v[n] != ',' then None
        else
          var rest := ReadMembers(v[n + 1..]);
          if rest.None? then None else Some([(name.value.0, v[..n])] + rest.value)
  }

  function MemberText(m: (string, string)): (text: string) {
    Dump(m.0) + ":" + m.1
  }

  /** The members of an object as text, one after the other. */
  function MembersText(ms: Members): (t: string) {
    if ms == [] then ""
    else
      var n := |ms| - 1;
      MembersText(ms[..n]) + (if n > 0 then "," else "") + MemberText(ms[n])
  }

  lemma MembersTextBack(ms: Members, m: (string, string))
    ensures MembersText(ms + [m]) == MembersText(ms) + (if ms == [] then "" else ",") + MemberText(m)
    ensures MembersText([]) == ""
  {
    assert (ms + [m])[..|ms|] == ms;
  }

  lemma {:induction false} MembersTextFront(m: (string, string), rest: Members)
    ensures MembersText([m] + rest) == MemberText(m) + (if rest == [] then "" else "," + MembersText(rest))
    decreases |rest|
  {
    hide MemberText, MembersText;
    if rest == [] {
      MembersTextBack([], m);
      assert [m] + rest == [] + [m];
    } else {
      var front, last := rest[..|rest| - 1], rest[|rest| - 1];
      assert rest == front + [last];
      assert [m] + rest == ([m] + front) + [last];
      MembersTextFront(m, front);
      MembersTextBack([m] + front, last);
      MembersTextBack(front, last);
      assert MemberText(m) + "" + "," + MemberText(last) == MemberText(m) + ("," + ("" + "" + MemberText(last)));
      assert MemberText(m) + ("," + MembersText(front)) + "," + MemberText(last)
          == MemberText(m) + ("," + (MembersText(front) + "," + MemberText(last)));
    }
  }

  lemma {:induction false} RunAppend(s: Scan, a: string, b: string)
    ensures Run(s, a + b) == Run(Run(s, a), b)
    decreases |a|
  {
    if a == "" {
      assert a + b == b;
    } else {
      assert (a + b)[0] == a[0] && (a + b)[1..] == a[1..] + b;
      RunAppend(Step(s, a[0]), a[1..], b);
    }
  }

  lemma {:induction false} RunStopped(t: string)
    ensures Run(Stop, t) == Stop
  {
    if t != "" {
      RunStopped(t[1..]);
    }
  }

  /** A value that is read to its end is exactly what is taken, when a stopping character follows. */
  lemma {:induction false} ValueLengthIs(s: Scan, v: string, rest: string)
    requires Run(s, v) == START && rest != "" && Step(START, rest[0]).Stop?
    ensures ValueLength(s, v + rest) == |v|
    decreases |v|
  {
    if v == "" {
      assert v + rest == rest;
    } else {
      assert (v + rest)[0] == v[0] && (v + rest)[1..] == v[1..] + rest;
      if Step(s, v[0]).Stop? {
        RunStopped(v[1..]);
        assert false;
      }
      ValueLengthIs(Step(s, v[0]), v[1..], rest);
    }
  }

  predicate AllComplete(ms: Members) {
    forall i :: 0 <= i < |ms| ==> Complete(ms[i].1)
  }

  /** An object is read back from the text written for it. */
  lemma ReadWritten(ms: Members)
    requires AllComplete(ms)
    ensures ReadObject("{" + MembersText(ms) + "}") == Some(ms)
  {
    hide MembersText, ReadMembers, AllComplete;
    var t := "{" + MembersText(ms) + "}";
    if ms == [] {
      MembersTextBack([], ("", ""));
      assert t == "{}";
    } else {
      assert t[1..] == MembersText(ms) + "}";
      ReadWrittenMembers(ms);
      MembersTextQuote(ms);
      assert t[1] == '"';
    }
  }

  lemma MembersTextQuote(ms: Members)
    requires ms != []
    ensures MembersText(ms) != "" && MembersText(ms)[0] == '"'
  {
    hide MembersText;
    MembersTextFront(ms[0], ms[1..]);
    assert ms == [ms[0]] + ms[1..];
  }

  lemma {:induction false} ReadWrittenMembers(ms: Members)
    requires ms != [] && AllComplete(ms)
    ensures ReadMembers(MembersText(ms) + "}") == Some(ms)
    decreases |ms|
  {
    hide MembersText, ReadMembers, MemberText;
    var m, rest := ms[0], ms[1..];
    assert ms == [m] + rest;
    MembersTextFront(m, rest);
    if rest == [] {
      assert ms == [m];
      assert MembersText(ms) + "}" == MemberText(m) + "}";
      ReadMember(m, "}");
    } else {
      var after := "," + MembersText(rest) + "}";
      assert MembersText(ms) + "}" == MemberText(m) + after;
      assert after[1..] == MembersText(rest) + "}";
      ReadMember(m, after);
      ReadWrittenMembers(rest);
    }
  }

  /** Reading one member, up to the comma or brace after it. */
  lemma ReadMember(m: (string, string), after: string)
    requires Complete(m.1) && after != "" && (after[0] == ',' || after == "}")
    ensures ReadMembers(MemberText(m) + after) ==
            if after == "}" then Some([m])
            else var rest := ReadMembers(after[1..]);
                 if rest.None? then None else Some([m] + rest.value)
  {
    hide Complete, ReadString, Escape, ValueLength, ReadMembers;
    var t := MemberText(m) + after;
    var v := m.1 + after;
    assert t[0] == '"' && t[1..] == Escape(m.0) + "\"" + (":" + v);
    ReadEscaped(m.0, ":" + v);
    CompleteLength(m.1, after);
    assert v[..|m.1|] == m.1 && v[|m.1|..] == after && v[|m.1| + 1..] == after[1..];
    ReadMembersStep(t, m.0, v, |m.1|);
  }

  lemma CompleteLength(v: string, after: string)
    requires Complete(v) && after != "" && (after[0] == ',' || after == "}")
    ensures ValueLength(START, v + after) == |v|
  {
    ValueLengthIs(START, v, after);
  }

  lemma ReadMembersStep(t: string, name: string, v: string, n: nat)
    requires t != "" && t[0] == '"' && ReadString(t[1..]) == Some((name, ":" + v))
    requires ValueLength(START, v) == n < |v| && Complete(v[..n]) && (v[n] == ',' || v[n..] == "}")
    ensures ReadMembers(t) ==
            if v[n..] == "}" then Some([(name, v[..n])])
            else var rest := ReadMembers(v[n + 1..]);
                 if rest.None? then None else Some([(name, v[..n])] + rest.value)
  {
    hide Complete, ReadString, ValueLength;
    assert (":" + v)[1..] == v;
  }

  /** Text written for a string is one value. */
  lemma DumpComplete(s: string)
    ensures Complete(Dump(s))
  {
    RunEscaped("", s);
    var d := Dump(s);
    assert d == ("\"" + Escape(s)) + "\"";
    RunAppend(START, "\"" + Escape(s), "\"");
    RunAppend(START, "\"", Escape(s));
  }

  /** The inside of a written string never closes it. */
  lemma {:induction false} RunEscaped(open: string, s: string)
    ensures Run(Scan(open, true, false), Escape(s)) == Scan(open, true, false)
  {
    if s != "" {
      RunAppend(Scan(open, true, false), EscapeChar(s[0]), Escape(s[1..]));
      RunEscapedChar(open, s[0]);
      RunEscaped(open, s[1..]);
    }
  }

  lemma RunEscapedChar(open: string, c: char)
    ensures Run(Scan(open, true, false), EscapeChar(c)) == Scan(open, true, false)
  {
    var e, q := EscapeChar(c), Scan(open, true, false);
    if |e| == 6 {
      PlainRun(q, e[2..]);
      RunAppend(q, e[..2], e[2..]);
      assert e == e[..2] + e[2..] && e[..2] == ['\\', 'u'];
      assert Run(q, ['\\', 'u']) == q by { RunPair(q, 'u'); }
    } else if |e| == 2 {
      RunPair(q, e[1]);
      assert e == ['\\', e[1]];
    } else {
      PlainRun(q, e);
    }
  }

  lemma RunPair(q: Scan, c: char)
    requires q.Scan? && q.quoted && !q.escaped
    ensures Run(q, ['\\', c]) == q
  {
    assert ['\\', c][1..] == [c] && [c][1..] == "";
    assert Run(Step(q, '\\'), [c]) == Run(q, "");
  }

  lemma {:induction false} PlainRun(q: Scan, t: string)
    requires q.Scan? && q.quoted && !q.escaped
    requires forall i :: 0 <= i < |t| ==> t[i] != '"' && t[i] != '\\'
    ensures Run(q, t) == q
  {
    if t != "" {
      PlainRun(q, t[1..]);
    }
  }

  /** Reading inside further open brackets goes the same way. */
  lemma {:induction false} RunLifted(s: Scan, t: string, base: string)
    requires s.Scan? && Run(s, t).Scan?
    ensures Run(s.(open := s.open + base), t) == (var r := Run(s, t); r.(open := r.open + base))
    decreases |t|
  {
    if t != "" {
      var s' := Step(s, t[0]);
      if s'.Stop? {
        RunStopped(t[1..]);
        assert false;
      }
      StepLifted(s, t[0], base);
      RunLifted(s', t[1..], base);
    }
  }

  lemma StepLifted(s: Scan, c: char, base: string)
    requires s.Scan? && Step(s, c).Scan?
    ensures Step(s.(open := s.open + base), c) == (var r := Step(s, c); r.(open := r.open + base))
  {
    assert [c] + s.open + base == [c] + (s.open + base);
    if s.open != "" {
      assert (s.open + base)[1..] == s.open[1..] + base;
    }
  }

  function Braces(open: string): (n: nat) {
    if open == "" then 0 else (if open[0] == '{' then 1 else 0) + Braces(open[1..])
  }

  /** The brackets left open account for the braces that were read. */
  lemma {:induction false} BracesOpen(s: Scan, t: string)
    requires s.Scan? && Run(s, t).Scan? && (s.escaped ==> s.quoted)
    ensures NetBraces(JsonTokens(if s.escaped then "\\" + t else t, s.quoted))
            == Braces(Run(s, t).open) - Braces(s.open)
    decreases |t|
  {
    if t != "" {
      var s' := Step(s, t[0]);
      if s'.Stop? {
        RunStopped(t[1..]);
        assert false;
      }
      BracesOpen(s', t[1..]);
      assert "\\" + t[1..] == (if t[0] == '\\' then t else "\\" + t[1..]);
      assert s.escaped ==> ("\\" + t)[2..] == t[1..];
    }
  }

  /** Tokens whose brackets outside strings nest, whose strings are closed, and that have no comma
      at their top: what a complete value is, whichever quotes its text uses. */
  predicate Nested(tokens: seq<Token>, open: string, inside: bool) {
    if tokens == [] then open == "" && !inside
    else
      var rest := tokens[1..];
      match tokens[0]
      case Out(c) =>
        if c == '{' || c == '[' then Nested(rest, [c] + open, inside)
        else if c == '}' || c == ']' then open != "" && open[0] == Opener(c) && Nested(rest, open[1..], inside)
        else (c == ',' ==> open != "") && Nested(rest, open, inside)
      case Begin => Nested(rest, open, true)
      case End => Nested(rest, open, false)
      case Stray => false
      case _ => Nested(rest, open, inside)
  }

  lemma {:induction false} NestedIffScanned(t: string, open: string, inside: bool)
    ensures Run(Scan(open, inside, false), t) == START <==> Nested(JsonTokens(t, inside), open, inside)
    decreases |t|
  {
    if t != "" {
      var s := Step(Scan(open, inside, false), t[0]);
      if s.Stop? {
        RunStopped(t[1..]);
      } else if !s.escaped {
        NestedIffScanned(t[1..], s.open, s.quoted);
      } else if |t| > 1 {
        assert t[1..][1..] == t[2..];
        NestedIffScanned(t[2..], open, true);
      }
    }
  }

  /** A value written with either style of quotes is complete once its quotes are normalized. */
  lemma NormalizedComplete(v: string)
    requires v != ""
    ensures Complete(Normalized(v, Outside)) <==> Nested(QuotedTokens(v, Outside), "", false)
  {
    NormalizedKeepsTokens(v, Outside);
    NestedIffScanned(Normalized(v, Outside), "", false);
  }

  /** Brackets and quotes in the text of members are all closed again. */
  lemma {:induction false} MembersTextScan(ms: Members)
    requires AllComplete(ms)
    ensures Run(Scan("{", false, false), MembersText(ms)) == Scan("{", false, false)
  {
    if ms == [] {
    } else {
      hide *;
      var n := |ms| - 1;
      var brace, front, m := Scan("{", false, false), ms[..n], ms[n];
      assert ms == front + [m] && AllComplete(front) && Complete(m.1) by { CompleteParts(ms); }
      MembersTextScan(front);
      var sep := if n > 0 then "," else "";
      var piece := sep + Dump(m.0) + ":" + m.1;
      MembersTextPiece(front, m, sep, piece);
      RunAppend(brace, MembersText(front), piece);
      PieceScan(sep, m);
    }
  }

  lemma CompleteParts(ms: Members)
    requires ms != [] && AllComplete(ms)
    ensures var n := |ms| - 1; ms == ms[..n] + [ms[n]] && AllComplete(ms[..n]) && Complete(ms[n].1)
  {
    hide Complete;
  }

  lemma MembersTextPiece(front: Members, m: (string, string), sep: string, piece: string)
    requires sep == (if |front| > 0 then "," else "") && piece == sep + Dump(m.0) + ":" + m.1
    ensures MembersText(front + [m]) == MembersText(front) + piece
  {
    hide Dump, MembersText;
    MembersTextBack(front, m);
    assert sep == if front == [] then "" else ",";
    Concat(MembersText(front), sep, Dump(m.0), m.1);
  }

  lemma Concat(a: string, b: string, c: string, d: string)
    ensures a + b + (c + ":" + d) == a + (b + c + ":" + d)
  {
  }

  lemma PieceScan(sep: string, m: (string, string))
    requires Complete(m.1) && (sep == "" || sep == ",")
    ensures Run(Scan("{", false, false), sep + Dump(m.0) + ":" + m.1) == Scan("{", false, false)
  {
    hide Dump, MembersText;
    var brace := Scan("{", false, false);
    DumpComplete(m.0);
    RunLifted(START, Dump(m.0), "{");
    RunLifted(START, m.1, "{");
    assert "" + "{" == "{";
    assert Run(brace, sep) == brace by { OneChar(brace, ','); }
    assert Run(brace, ":") == brace by { OneChar(brace, ':'); }
    RunAppend(brace, sep + Dump(m.0) + ":", m.1);
    RunAppend(brace, sep + Dump(m.0), ":");
    RunAppend(brace, sep, Dump(m.0));
  }

  lemma OneChar(s: Scan, c: char)
    ensures Run(s, [c]) == Step(s, c) && Run(s, "") == s
  {
    assert [c][1..] == "";
  }

  /** The brace depth of an arguments text that is still open is one. */
  lemma OpenDepth(ms: Members)
    requires AllComplete(ms)
    ensures NetBraces(JsonTokens("{" + MembersText(ms), false)) == 1
  {
    hide MembersText, AllComplete;
    var t := "{" + MembersText(ms);
    MembersTextScan(ms);
    assert Run(START, t) == Scan("{", false, false) by {
      RunAppend(START, "{", MembersText(ms));
      OneChar(START, '{');
      assert ['{'] + "" == "{";
    }
    BracesOpen(START, t);
    assert Braces("{") == 1 by {
      assert "{"[1..] == "";
    }
  }
}
