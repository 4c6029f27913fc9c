/** JSON texts as RFC 8259 defines them, read as values: white space (section 2), values (section 3), objects
    (section 4), arrays (section 5), numbers (section 6) and strings (section 7). */
module JsonValues {
  import opened Wrappers
  import opened Json

  /** A number is kept as it is spelled, and the members of an object in their order. */
  datatype JsonValue = NullValue | BoolValue(b: bool) | NumberValue(spelling: string) | StringValue(text: string)
                 | ListValue(elements: seq<JsonValue>) | ObjectValue(members: seq<(string, JsonValue)>)

  // ---------- White space

  predicate IsJsonSpace(c: char) {
    c == ' ' || c == '\t' || c == '\n' || c == '\r'
  }

  function SkipSpace(t: string): (rest: string)
    ensures |rest| <= |t|
  {
    if t != "" && IsJsonSpace(t[0]) then SkipSpace(t[1..]) else t
  }

  // ---------- Numbers

  predicate IsDigit(c: char) {
    '0' <= c <= '9'
  }

  predicate IsDigits(s: string) {
    s != "" && forall i :: 0 <= i < |s| ==> IsDigit(s[i])
  }

  /** The parts of a number, as the grammar of section 6 names them. */
  datatype Numeral = Numeral(minus: string, whole: string, frac: string, exp: string)

  predicate IsExponent(s: string) {
    |s| >= 2 && (s[0] == 'e' || s[0] == 'E')
    && (IsDigits(s[1..]) || ((s[1] == '+' || s[1] == '-') && IsDigits(s[2..])))
  }

  predicate IsNumeral(n: Numeral) {
    && n.minus in {"", "-"}
    && (n.whole == "0" || (IsDigits(n.whole) && n.whole[0] != '0'))
    && (n.frac == "" || (n.frac[0] == '.' && IsDigits(n.frac[1..])))
    && (n.exp == "" || IsExponent(n.exp))
  }

  function Spelled(n: Numeral): (s: string) {
    n.minus + (n.whole + (n.frac + n.exp))
  }

  ghost predicate IsNumber(s: string) {
    exists n: Numeral :: IsNumeral(n) && s == Spelled(n)
  }

  function DigitsLength(t: string): (n: nat)
    ensures n <= |t|
  {
    if t != "" && IsDigit(t[0]) then 1 + DigitsLength(t[1..]) else 0
  }

  function WholeLength(t: string): (n: nat)
    ensures n <= |t|
  {
    if t != "" && t[0] == '0' then 1 else DigitsLength(t)
  }

  function FracLength(t: string): (n: nat)
    ensures n <= |t|
  {
    if t == "" || t[0] != '.' || DigitsLength(t[1..]) == 0 then 0 else 1 + DigitsLength(t[1..])
  }

  function ExpLength(t: string): (n: nat)
    ensures n <= |t|
  {
    if |t| < 2 || (t[0] != 'e' && t[0] != 'E') then 0
    else
      var sign := if t[1] == '+' || t[1] == '-' then 1 else 0;
      var d := DigitsLength(t[1 + sign..]);
      if d == 0 then 0 else 1 + sign + d
  }

  function ScaleLength(t: string): (n: nat)
    ensures n <= |t|
  {
    FracLength(t) + ExpLength(t[FracLength(t)..])
  }

  function UnsignedLength(t: string): (n: nat)
    ensures n <= |t|
  {
    if WholeLength(t) == 0 then 0 else WholeLength(t) + ScaleLength(t[WholeLength(t)..])
  }

  /** How much of the text is its longest number; nothing when it starts with none. */
  function NumberLength(t: string): (n: nat)
    ensures n <= |t|
  {
    if t == "" || t[0] != '-' then UnsignedLength(t)
    else if UnsignedLength(t[1..]) == 0 then 0
    else 1 + UnsignedLength(t[1..])
  }

  // ---------- Values

  /** A value and what follows it, white space on both sides skipped. */
  function ReadValue(t: string): (r: Option<(JsonValue, string)>)
    ensures r.Some? ==> |r.value.1| < |t|
    decreases |t|, 1
  {
    match ReadBare(SkipSpace(t))
    case None => None
    case Some((v, rest)) => Some((v, SkipSpace(rest)))
  }

  function ReadBare(t: string): (r: Option<(JsonValue, string)>)
    ensures r.Some? ==> |r.value.1| < |t|
    decreases |t|, 0
  {
    if t == "" then None
    else if t[0] == '"' then
      match ReadString(t[1..])
      case None => None
      case Some((s, rest)) => Some((StringValue(s), rest))
    else if t[0] == '[' then
      if BeginsWith(SkipSpace(t[1..]), ']') then Some((ListValue([]), SkipSpace(t[1..])[1..]))
      else
        match ReadElements(t[1..])
        case None => None
        case Some((vs, rest)) => Some((ListValue(vs), rest))
    else if t[0] == '{' then
      if BeginsWith(SkipSpace(t[1..]), '}') then Some((ObjectValue([]), SkipSpace(t[1..])[1..]))
      else
        match ReadPairs(t[1..])
        case None => None
        case Some((ms, rest)) => Some((ObjectValue(ms), rest))
    else if StartsWith(t, "null") then Some((NullValue, t[4..]))
    else if StartsWith(t, "true") then Some((BoolValue(true), t[4..]))
    else if StartsWith(t, "false") then Some((BoolValue(false), t[5..]))
    else if NumberLength(t) == 0 then None
    else Some((NumberValue(t[..NumberLength(t)]), t[NumberLength(t)..]))
  }

  predicate BeginsWith(t: string, c: char) {
    t != "" && t[0] == c
  }

  predicate StartsWith(t: string, p: string) {
    |t| >= |p| && t[..|p|] == p
  }

  /** The elements of an array that is not empty, up to its closing bracket. */
  function ReadElements(t: string): (r: Option<(seq<JsonValue>, string)>)
    ensures r.Some? ==> |r.value.1| < |t|
    decreases |t|, 2
  {
    match ReadValue(t)
    case None => None
    case Some((v, rest)) =>
      if rest == "" then None
      else if rest[0] == ']' then Some(([v], rest[1..]))
      else if rest[0] != ',' then None
      else
        match ReadElements(rest[1..])
        case None => None
        case Some((vs, end)) => Some(([v] + vs, end))
  }

  /** The members of an object that is not empty, up to its closing brace. */
  function ReadPairs(t: string): (r: Option<(seq<(string, JsonValue)>, string)>)
    ensures r.Some? ==> |r.value.1| < |t|
    decreases |t|, 2
  {
    match ReadName(t)
    case None => None
    case Some((name, after)) =>
      match ReadValue(after)
      case None => None
      case Some((v, rest)) =>
        if rest == "" then None
        else if rest[0] == '}' then Some(([(name, v)], rest[1..]))
        else if rest[0] != ',' then None
        else
          match ReadPairs(rest[1..])
          case None => None
          case Some((ms, end)) => Some(([(name, v)] + ms, end))
  }

  /** The name of a member and its colon. */
  function ReadName(t: string): (r: Option<(string, string)>)
    ensures r.Some? ==> |r.value.1| < |t|
  {
    var s := SkipSpace(t);
    if s == "" || s[0] != '"' then None
    else
      match ReadString(s[1..])
      case None => None
      case Some((name, rest)) =>
        var after := SkipSpace(rest);
        if after == "" || after[0] != ':' then None else Some((name, after[1..]))
  }

  /** A whole text, read as one value. */
  function ReadText(t: string): (r: Option<JsonValue>) {
    match ReadValue(t)
    case None => None
    case Some((v, rest)) => if rest == "" then Some(v) else None
  }

  // ---------- What is written is read

  lemma {:induction false} DigitsEnd(d: string, rest: string)
    requires forall i :: 0 <= i < |d| ==> IsDigit(d[i])
    requires rest == "" || !IsDigit(rest[0])
    ensures DigitsLength(d + rest) == |d|
  {
    if d == "" {
      assert d + rest == rest;
    } else {
      assert (d + rest)[1..] == d[1..] + rest;
      DigitsEnd(d[1..], rest);
    }
  }

  predicate IsNumberChar(c: char) {
    IsDigit(c) || c in {'.', 'e', 'E', '+', '-'}
  }

  /** Whether a text goes on with a character that could make a number before it longer. */
  predicate GoesOn(rest: string) {
    rest != "" && IsNumberChar(rest[0])
  }

  lemma ExpEnd(exp: string, rest: string)
    requires (exp == "" || IsExponent(exp)) && !GoesOn(rest)
    ensures ExpLength(exp + rest) == |exp|
  {
    var t := exp + rest;
    if exp == "" {
      assert t == rest;
    } else {
      assert t[1..] == exp[1..] + rest && t[2..] == exp[2..] + rest;
      if IsDigits(exp[1..]) {
        DigitsEnd(exp[1..], rest);
      } else {
        DigitsEnd(exp[2..], rest);
      }
    }
  }

  lemma FracEnd(frac: string, tail: string)
    requires frac == "" || (frac[0] == '.' && IsDigits(frac[1..]))
    requires tail == "" || (!IsDigit(tail[0]) && tail[0] != '.')
    ensures FracLength(frac + tail) == |frac|
  {
    if frac == "" {
      assert frac + tail == tail;
    } else {
      assert (frac + tail)[1..] == frac[1..] + tail;
      DigitsEnd(frac[1..], tail);
    }
  }

  lemma WholeEnd(whole: string, tail: string)
    requires whole == "0" || (IsDigits(whole) && whole[0] != '0')
    requires tail == "" || !IsDigit(tail[0])
    ensures WholeLength(whole + tail) == |whole|
  {
    DigitsEnd(whole, tail);
  }

  lemma ScaleEnd(frac: string, exp: string, rest: string)
    requires frac == "" || (frac[0] == '.' && IsDigits(frac[1..]))
    requires (exp == "" || IsExponent(exp)) && !GoesOn(rest)
    ensures ScaleLength((frac + exp) + rest) == |frac + exp|
  {
    hide FracLength, ExpLength, IsExponent, IsDigits, GoesOn;
    ExpStart(exp, rest);
    FracEnd(frac, exp + rest);
    ExpEnd(exp, rest);
    var t := (frac + exp) + rest;
    assert t == frac + (exp + rest) && t[|frac|..] == exp + rest;
  }

  lemma ExpStart(exp: string, rest: string)
    requires (exp == "" || IsExponent(exp)) && !GoesOn(rest)
    ensures var t := exp + rest; t == "" || (!IsDigit(t[0]) && t[0] != '.')
  {
  }

  lemma UnsignedEnd(whole: string, scale: string, rest: string)
    requires whole == "0" || (IsDigits(whole) && whole[0] != '0')
    requires ScaleLength(scale + rest) == |scale| && (scale + rest == "" || !IsDigit((scale + rest)[0]))
    ensures UnsignedLength((whole + scale) + rest) == |whole + scale| > 0
  {
    hide WholeLength, ScaleLength;
    WholeEnd(whole, scale + rest);
    var t := (whole + scale) + rest;
    assert t == whole + (scale + rest) && t[|whole|..] == scale + rest;
  }

  lemma SignedEnd(minus: string, unsigned: string, rest: string)
    requires minus in {"", "-"} && unsigned != "" && IsDigit(unsigned[0])
    requires UnsignedLength(unsigned + rest) == |unsigned|
    ensures NumberLength((minus + unsigned) + rest) == |minus + unsigned|
  {
    hide UnsignedLength;
    var t := (minus + unsigned) + rest;
    assert t == minus + (unsigned + rest);
    if minus == "" {
      assert t == unsigned + rest;
    } else {
      assert t[1..] == unsigned + rest;
    }
  }

  /** A number is read whole when what follows cannot make it longer. */
  lemma NumberEnd(n: Numeral, rest: string)
    requires IsNumeral(n) && !GoesOn(rest)
    ensures NumberLength(Spelled(n) + rest) == |Spelled(n)| > 0
  {
    hide ScaleLength, UnsignedLength, NumberLength, IsExponent;
    var scale := n.frac + n.exp;
    ScaleEnd(n.frac, n.exp, rest);
    ScaleStart(n.frac, n.exp, rest);
    UnsignedEnd(n.whole, scale, rest);
    SignedEnd(n.minus, n.whole + scale, rest);
  }

  lemma ScaleStart(frac: string, exp: string, rest: string)
    requires frac == "" || (frac[0] == '.' && IsDigits(frac[1..]))
    requires (exp == "" || IsExponent(exp)) && !GoesOn(rest)
    ensures var t := (frac + exp) + rest; t == "" || !IsDigit(t[0])
  {
    hide IsExponent;
    ExpStart(exp, rest);
    if frac == "" {
      assert (frac + exp) + rest == exp + rest;
    }
  }

  predicate AllNumberChars(s: string) {
    forall i :: 0 <= i < |s| ==> IsNumberChar(s[i])
  }

  lemma DigitChars(s: string, k: nat)
    requires k <= |s| && (forall i :: 0 <= i < k ==> IsNumberChar(s[i])) && IsDigits(s[k..])
    ensures AllNumberChars(s)
  {
    assert forall i :: k <= i < |s| ==> s[i] == s[k..][i - k];
  }

  lemma NumeralChars(n: Numeral)
    requires IsNumeral(n)
    ensures AllNumberChars(n.minus) && AllNumberChars(n.whole) && AllNumberChars(n.frac) && AllNumberChars(n.exp)
  {
    if n.frac != "" {
      DigitChars(n.frac, 1);
    }
    if n.exp != "" {
      DigitChars(n.exp, if IsDigits(n.exp[1..]) then 1 else 2);
    }
  }

  /** A number starts with a digit or a minus, and has no other characters than those of numbers. */
  lemma NumberChars(s: string)
    requires IsNumber(s)
    ensures s != "" && (s[0] == '-' || IsDigit(s[0])) && AllNumberChars(s)
  {
    var n: Numeral :| IsNumeral(n) && s == Spelled(n);
    NumeralChars(n);
    hide IsExponent, IsNumberChar;
    assert n.whole != "" && (n.minus == "" ==> s[0] == n.whole[0]);
  }
}
