/** normalize_quotes_to_json and json_brace_depth of common/chat-peg-parser.cpp. */
module Quotes {

  /** What a text says, character by character: characters outside strings, the two ends of a
      string, and its contents. A pair is a backslash with the character it escapes, kept as it
      is. An escaped double quote is the double quote it stands for. A stray is a backslash with
      nothing after it. */
  datatype Token = Out(c: char) | Begin | Plain(c: char) | Pair(c: char) | Stray | End

  datatype Mode = Outside | Double | Single

  /** Reads a text in which only double quotes delimit strings, as JSON does. */
  function JsonTokens(s: string, inside: bool): (tokens: seq<Token>) {
    if s == "" then []
    else if !inside then
      if s[0] == '"' then [Begin] + JsonTokens(s[1..], true)
      else [Out(s[0])] + JsonTokens(s[1..], false)
    else if s[0] == '"' then [End] + JsonTokens(s[1..], false)
    else if s[0] != '\\' then [Plain(s[0])] + JsonTokens(s[1..], true)
    else if |s| == 1 then [Stray]
    else [if s[1] == '"' then Plain('"') else Pair(s[1])] + JsonTokens(s[2..], true)
  }

  /** Reads a text in which single quotes delimit strings too. */
  function QuotedTokens(s: string, mode: Mode): (tokens: seq<Token>) {
    if s == "" then []
    else match mode
      case Outside =>
        if s[0] == '"' then [Begin] + QuotedTokens(s[1..], Double)
        else if s[0] == '\'' then [Begin] + QuotedTokens(s[1..], Single)
        else [Out(s[0])] + QuotedTokens(s[1..], Outside)
      case Double =>
        if s[0] == '"' then [End] + QuotedTokens(s[1..], Outside)
        else if s[0] != '\\' then [Plain(s[0])] + QuotedTokens(s[1..], Double)
        else if |s| == 1 then [Stray]
        else [if s[1] == '"' then Plain('"') else Pair(s[1])] + QuotedTokens(s[2..], Double)
      case Single =>
        if s[0] == '\'' then [End] + QuotedTokens(s[1..], Outside)
        else if s[0] != '\\' then [Plain(s[0])] + QuotedTokens(s[1..], Single)
        else if |s| == 1 then [Stray]
        else [if s[1] == '\'' || s[1] == '"' then Plain(s[1]) else Pair(s[1])] + QuotedTokens(s[2..], Single)
  }

  /** The output for s when the scanner is in the given mode. */
  function Normalized(s: string, mode: Mode): (r: string) {
    if s == "" then ""
    else if s[0] == '\\' && |s| > 1 then
      if mode == Outside then "\\" + Normalized(s[1..], mode)
      else if mode == Single && s[1] == '\'' then "'" + Normalized(s[2..], mode)
      else s[..2] + Normalized(s[2..], mode)
    else if s[0] == '"' then
      if mode == Single then "\\\"" + Normalized(s[1..], mode)
      else "\"" + Normalized(s[1..], if mode == Double then Outside else Double)
    else if s[0] == '\'' && mode != Double then
      "\"" + Normalized(s[1..], if mode == Single then Outside else Single)
    else [s[0]] + Normalized(s[1..], mode)
  }

  /** How far one step of the scanner goes, and what it writes. */
  lemma NormalizedStep(before: string, s: string, i: nat, mode: Mode)
    requires i < |s|
    ensures var c, all := s[i], before + Normalized(s[i..], mode);
            if c == '\\' && i + 1 < |s| && mode != Outside then
              var rest := Normalized(s[i + 2..], mode);
              if mode == Single && s[i + 1] == '\'' then all == before + "'" + rest
              else if mode == Single && s[i + 1] == '"' then all == before + "\\\"" + rest
              else all == before + [c] + [s[i + 1]] + rest
            else if c == '"' && mode == Single then all == before + "\\\"" + Normalized(s[i + 1..], mode)
            else if c == '"' then
              all == before + [c] + Normalized(s[i + 1..], if mode == Double then Outside else Double)
            else if c == '\'' && mode != Double then
              all == before + "\"" + Normalized(s[i + 1..], if mode == Single then Outside else Single)
            else all == before + [c] + Normalized(s[i + 1..], mode)
  {
    NormalizedAt(s, i, mode);
    hide Normalized;
    var c := s[i];
    if c == '\\' && i + 1 < |s| && mode != Outside {
      var rest := Normalized(s[i + 2..], mode);
      if mode == Single && s[i + 1] == '\'' {
        Joined(before, "'", rest);
      } else if mode == Single && s[i + 1] == '"' {
        Joined(before, "\\\"", rest);
      } else {
        Joined(before, [c] + [s[i + 1]], rest);
        Joined(before, [c], [s[i + 1]]);
      }
    } else if c == '"' && mode == Single {
      Joined(before, "\\\"", Normalized(s[i + 1..], mode));
    } else if c == '"' {
      Joined(before, [c], Normalized(s[i + 1..], if mode == Double then Outside else Double));
    } else if c == '\'' && mode != Double {
      Joined(before, "\"", Normalized(s[i + 1..], if mode == Single then Outside else Single));
    } else {
      Joined(before, [c], Normalized(s[i + 1..], mode));
    }
  }

  lemma Joined(a: string, b: string, c: string)
    ensures a + (b + c) == a + b + c
  {
  }

  lemma NormalizedAt(s: string, i: nat, mode: Mode)
    requires i < |s|
    ensures var c, all := s[i], Normalized(s[i..], mode);
            if c == '\\' && i + 1 < |s| && mode != Outside then
              var rest := Normalized(s[i + 2..], mode);
              if mode == Single && s[i + 1] == '\'' then all == "'" + rest
              else if mode == Single && s[i + 1] == '"' then all == "\\\"" + rest
              else all == [c] + [s[i + 1]] + rest
            else if c == '"' && mode == Single then all == "\\\"" + Normalized(s[i + 1..], mode)
            else if c == '"' then all == [c] + Normalized(s[i + 1..], if mode == Double then Outside else Double)
            else if c == '\'' && mode != Double then
              all == "\"" + Normalized(s[i + 1..], if mode == Single then Outside else Single)
            else all == [c] + Normalized(s[i + 1..], mode)
  {
    var rest := s[i..];
    assert rest[0] == s[i] && rest[1..] == s[i + 1..];
    assert i + 1 < |s| ==> rest[1] == s[i + 1] && rest[..2] == [s[i]] + [s[i + 1]] && rest[2..] == s[i + 2..];
  }

  lemma NormalizedEnds(s: string, mode: Mode)
    ensures s[0..] == s && s[|s|..] == "" && Normalized("", mode) == ""
  {
  }

  method NormalizeQuotesToJson(input: string) returns (result: string)
    ensures result == Normalized(input, Outside)
    ensures JsonTokens(result, false) == QuotedTokens(input, Outside)
  {
    hide *;
    result := "";
    var inSingle, inDouble := false, false;
    var i := 0;
    NormalizedEnds(input, Outside);
    while i < |input|
      invariant 0 <= i <= |input| && !(inSingle && inDouble)
      invariant result + Normalized(input[i..], if inSingle then Single else if inDouble then Double else Outside)
             == Normalized(input, Outside)
    {
      var c := input[i];
      NormalizedStep(result, input, i, if inSingle then Single else if inDouble then Double else Outside);
      if c == '\\' && i + 1 < |input| {
        var next := input[i + 1];
        if inSingle && next == '\'' {
          result := result + "'";
          i := i + 1;
        } else if inSingle && next == '"' {
          result := result + "\\\"";
          i := i + 1;
        } else if inSingle || inDouble {
          result := result + [c] + [next];
          i := i + 1;
        } else {
          result := result + [c];
        }
      } else if c == '"' {
        if inSingle {
          result := result + "\\\"";
        } else {
          inDouble := !inDouble;
          result := result + [c];
        }
      } else if c == '\'' {
        if inDouble {
          result := result + [c];
        } else if inSingle {
          inSingle := false;
          result := result + "\"";
        } else {
          inSingle := true;
          result := result + "\"";
        }
      } else {
        result := result + [c];
      }
      i := i + 1;
    }
    NormalizedEnds(input, if inSingle then Single else if inDouble then Double else Outside);
    NormalizedKeepsTokens(input, Outside);
  }

  /** Normalizing keeps every character outside strings and the contents of every string. */
  lemma {:induction false} NormalizedKeepsTokens(s: string, mode: Mode)
    ensures JsonTokens(Normalized(s, mode), mode != Outside) == QuotedTokens(s, mode)
    decreases |s|
  {
    if s != "" {
      var r := Normalized(s, mode);
      var n := if s[0] == '\\' && |s| > 1 && mode != Outside then 2 else 1;
      forall m: Mode { NormalizedKeepsTokens(s[n..], m); }
    }
  }

  /** The JSON text that says what the tokens say. */
  function Print(tokens: seq<Token>): (s: string) {
    if tokens == [] then ""
    else (match tokens[0]
          case Out(c) => [c]
          case Begin => "\""
          case End => "\""
          case Stray => "\\"
          case Plain(c) => if c == '"' then "\\\"" else [c]
          case Pair(c) => ['\\', c]) + Print(tokens[1..])
  }

  /** Nothing is lost in reading: a text is determined by its tokens. */
  lemma {:induction false} PrintTokens(s: string, inside: bool)
    ensures Print(JsonTokens(s, inside)) == s
    decreases |s|
  {
    if s != "" {
      var n := if inside && s[0] == '\\' && |s| > 1 then 2 else 1;
      forall b { PrintTokens(s[n..], b); }
      assert s == s[..n] + s[n..];
      assert s[..n] == if n == 2 then [s[0], s[1]] else [s[0]];
    }
  }

  /** So the normalized text is the only one that says in JSON what the input says. */
  lemma NormalizedIsUnique(input: string, output: string)
    ensures output == Normalized(input, Outside) <==> JsonTokens(output, false) == QuotedTokens(input, Outside)
  {
    NormalizedKeepsTokens(input, Outside);
    PrintTokens(output, false);
    PrintTokens(Normalized(input, Outside), false);
  }

  /** No single quote stands outside the strings of a text. */
  predicate NoApostropheOutside(s: string) {
    forall t :: t in JsonTokens(s, false) ==> t != Out('\'')
  }

  /** Normalization leaves alone exactly the texts without a single quote outside strings. */
  lemma NormalizedFixed(s: string)
    ensures Normalized(s, Outside) == s <==> NoApostropheOutside(s)
  {
    if NoApostropheOutside(s) {
      SameReading(s, false);
      NormalizedIsUnique(s, s);
    }
    NormalizedHasNoApostrophe(s, Outside);
    NormalizedKeepsTokens(s, Outside);
  }

  lemma {:induction false} SameReading(s: string, inside: bool)
    requires forall t :: t in JsonTokens(s, inside) ==> t != Out('\'')
    ensures QuotedTokens(s, if inside then Double else Outside) == JsonTokens(s, inside)
    decreases |s|
  {
    if s != "" {
      var tokens := JsonTokens(s, inside);
      assert tokens[0] in tokens;
      if inside && s[0] == '\\' {
        if |s| > 1 {
          assert forall t :: t in JsonTokens(s[2..], true) ==> t in tokens;
          SameReading(s[2..], true);
        }
      } else {
        var inside' := if s[0] == '"' then !inside else inside;
        assert forall t :: t in JsonTokens(s[1..], inside') ==> t in tokens;
        SameReading(s[1..], inside');
      }
    }
  }

  lemma {:induction false} NormalizedHasNoApostrophe(s: string, mode: Mode)
    ensures forall t :: t in QuotedTokens(s, mode) ==> t != Out('\'')
    decreases |s|
  {
    if s != "" {
      var n := if s[0] == '\\' && |s| > 1 && mode != Outside then 2 else 1;
      forall m: Mode { NormalizedHasNoApostrophe(s[n..], m); }
    }
  }

  /** Normalizing twice is normalizing once. */
  lemma NormalizedTwice(s: string)
    ensures Normalized(Normalized(s, Outside), Outside) == Normalized(s, Outside)
  {
    NormalizedKeepsTokens(s, Outside);
    NormalizedHasNoApostrophe(s, Outside);
    NormalizedFixed(Normalized(s, Outside));
  }

  /** Opening minus closing braces outside strings. */
  function NetBraces(tokens: seq<Token>): (n: int) {
    if tokens == [] then 0
    else (if tokens[0] == Out('{') then 1 else if tokens[0] == Out('}') then -1 else 0) + NetBraces(tokens[1..])
  }

  method JsonBraceDepth(s: string) returns (depth: int)
    ensures depth == NetBraces(JsonTokens(s, false))
  {
    depth := 0;
    var inString, escaped := false, false;
    for i := 0 to |s|
      invariant escaped ==> inString && i > 0 && s[i - 1] == '\\'
      invariant depth + NetBraces(JsonTokens(s[if escaped then i - 1 else i..], inString))
                == NetBraces(JsonTokens(s, false))
    {
      var c := s[i];
      ghost var rest := s[if escaped then i - 1 else i..];
      assert rest[if escaped then 1 else 0] == c;
      assert rest[1..] == s[if escaped then i else i + 1..];
      assert escaped ==> rest[2..] == s[i + 1..];
      if escaped {
        escaped := false;
      } else if c == '\\' && inString {
        escaped := true;
      } else if c == '"' {
        inString := !inString;
      } else if !inString {
        if c == '{' {
          depth := depth + 1;
        } else if c == '}' {
          depth := depth - 1;
        }
      }
    }
  }

  /** The brace depth of a normalized text is the net count of braces outside both kinds of strings. */
  lemma NormalizedBraces(s: string)
    ensures NetBraces(JsonTokens(Normalized(s, Outside), false)) == NetBraces(QuotedTokens(s, Outside))
  {
    NormalizedKeepsTokens(s, Outside);
  }
}
