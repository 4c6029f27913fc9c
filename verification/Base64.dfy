/** common/base64.hpp: the encoder, the decoder with its alphabet detection, and decoding in place, against the
    24-bit groups of RFC 4648, sections 4 and 5. Shifts and masks are written as arithmetic on bytes. */
module Base64 {
  import opened Bytes
  import opened Wrappers
  import opened Arithmetic

  type Sextet = x: nat | x < 64

  datatype Alphabet = Auto | Standard | UrlFilenameSafe
  datatype Behavior = Moderate | Loose

  datatype Error = InvalidCharacter

  const PAD: char := '='
  const UPPER := "ABCDEFGHIJKLMNOPQRSTUVWXYZ"
  const LOWER := "abcdefghijklmnopqrstuvwxyz"
  const DIGITS := "0123456789"
  const STANDARD_SYMBOLS := UPPER + LOWER + DIGITS + "+/"
  const URL_SYMBOLS := UPPER + LOWER + DIGITS + "-_"

  function SymbolsOf(url: bool): (s: string)
    ensures |s| == 64
  {
    if url then URL_SYMBOLS else STANDARD_SYMBOLS
  }

  // ---------- The groups of the standard

  /** Four sextets are the digits of a 24-bit group, most significant first. */
  function Digits(group: nat): (s: seq<Sextet>)
    requires group < 0x100_0000
    ensures |s| == 4
  {
    [(group / 0x4_0000), (group / 0x1000 % 64), (group / 64 % 64), (group % 64)]
  }

  function GroupOf(a: Byte, b: Byte, c: Byte): (n: nat)
    ensures n < 0x100_0000
  {
    a * 0x1_0000 + b * 0x100 + c
  }

  function SextetCount(n: nat): (k: nat) {
    (n * 8 + 5) / 6
  }

  /** The sextets of a byte string: four for each three bytes, two or three for the rest, filled with zero bits. */
  function Sextets(data: seq<Byte>): (s: seq<Sextet>)
    ensures |s| == SextetCount(|data|)
  {
    if |data| == 0 then []
    else if |data| == 1 then Digits(GroupOf(data[0], 0, 0))[..2]
    else if |data| == 2 then Digits(GroupOf(data[0], data[1], 0))[..3]
    else Digits(GroupOf(data[0], data[1], data[2])) + Sextets(data[3..])
  }

  function Padding(n: nat): (p: string) {
    if n % 3 == 0 then "" else if n % 3 == 1 then "==" else "="
  }

  function Spelled(s: seq<Sextet>, url: bool): (text: string)
    ensures |text| == |s| && forall i :: 0 <= i < |s| ==> text[i] == SymbolsOf(url)[s[i]]
  {
    seq(|s|, i requires 0 <= i < |s| => SymbolsOf(url)[s[i]])
  }

  function Encoding(data: seq<Byte>, url: bool): (text: string) {
    Spelled(Sextets(data), url) + Padding(|data|)
  }

  function RequiredEncodeSize(size: nat): (n: nat)
    ensures (n - 4) * 3 < size * 4 <= n * 3 && n % 4 == 0
  {
    (size / 3 + (if size % 3 != 0 then 1 else 0)) * 4
  }

  function MaxDecodeSize(size: nat): (n: nat)
    ensures (n - 3) * 4 < size * 3 <= n * 4 && n % 3 == 0
  {
    (size / 4 + (if size % 4 != 0 then 1 else 0)) * 3
  }

  lemma EncodingSize(data: seq<Byte>, url: bool)
    ensures |Encoding(data, url)| == RequiredEncodeSize(|data|)
  {
  }

  function Joined(a: Sextet, b: Sextet, c: Sextet, d: Sextet): (n: nat)
    ensures n < 0x100_0000
  {
    a * 0x4_0000 + b * 0x1000 + c * 64 + d
  }

  function ThreeBytes(group: nat): (b: seq<Byte>)
    requires group < 0x100_0000
    ensures |b| == 3
  {
    [(group / 0x1_0000), (group / 256 % 256), (group % 256)]
  }

  /** The bytes that sextets stand for: three for each four, and what whole bytes the rest holds. */
  function Decoded(s: seq<Sextet>): (data: seq<Byte>)
    ensures |data| == |s| * 6 / 8
  {
    if |s| < 2 then []
    else if |s| == 2 then ThreeBytes(Joined(s[0], s[1], 0, 0))[..1]
    else if |s| == 3 then ThreeBytes(Joined(s[0], s[1], s[2], 0))[..2]
    else ThreeBytes(Joined(s[0], s[1], s[2], s[3])) + Decoded(s[4..])
  }

  lemma DigitsSum(n: nat)
    requires n < 0x100_0000
    ensures n / 0x4_0000 * 0x4_0000 + n / 0x1000 % 64 * 0x1000 + n / 64 % 64 * 64 + n % 64 == n
  {
    var p := n / 64;
    var q := p / 64;
    assert n / 0x1000 == q && n / 0x4_0000 == q / 64;
  }

  lemma DigitsJoined(n: nat)
    requires n < 0x100_0000
    ensures var s := Digits(n); Joined(s[0], s[1], s[2], s[3]) == n
  {
    DigitsSum(n);
  }

  lemma LowDigits(a: Byte, b: Byte)
    ensures Digits(GroupOf(a, b, 0))[3] == 0 && Digits(GroupOf(a, 0, 0))[3] == 0 && Digits(GroupOf(a, 0, 0))[2] == 0
  {
    MultipleOf64(GroupOf(a, b, 0), a * 1024 + b * 4);
    MultipleOf64(GroupOf(a, 0, 0), a * 1024);
    MultipleOf64(a * 1024, a * 16);
  }

  lemma MultipleOf64(n: nat, k: nat)
    requires n == k * 64
    ensures n % 64 == 0 && n / 64 == k
  {
  }

  lemma GroupParts(a: Byte, b: Byte, c: Byte)
    ensures ThreeBytes(GroupOf(a, b, c)) == [a, b, c]
  {
    DivModUnique(a * 256 + b, 256, c);
    DivModUnique(a, 256, b);
    DivModUnique(a, 0x1_0000, b * 256 + c);
  }

  lemma GroupBytes(a: Byte, b: Byte, c: Byte)
    ensures Decoded(Digits(GroupOf(a, b, c))) == [a, b, c]
    ensures Decoded(Digits(GroupOf(a, b, 0))[..3]) == [a, b]
    ensures Decoded(Digits(GroupOf(a, 0, 0))[..2]) == [a]
  {
    hide Digits, GroupOf, Joined, ThreeBytes;
    GroupParts(a, b, c);
    GroupParts(a, b, 0);
    GroupParts(a, 0, 0);
    DigitsJoined(GroupOf(a, b, c));
    DigitsJoined(GroupOf(a, b, 0));
    DigitsJoined(GroupOf(a, 0, 0));
    LowDigits(a, b);
    assert Digits(GroupOf(a, b, c))[4..] == [];
  }

  lemma BytesNextGroup(four: seq<Sextet>, rest: seq<Sextet>)
    requires |four| == 4
    ensures Decoded(four + rest) == Decoded(four) + Decoded(rest)
  {
    var s := four + rest;
    assert s[4..] == rest && four[4..] == [];
    assert Decoded([]) == [];
    assert s[0] == four[0] && s[1] == four[1] && s[2] == four[2] && s[3] == four[3];
  }

  lemma {:induction false} BytesOfSextets(data: seq<Byte>)
    ensures Decoded(Sextets(data)) == data
  {
    hide Decoded, Digits, GroupOf;
    if |data| >= 3 {
      BytesOfSextets(data[3..]);
      GroupBytes(data[0], data[1], data[2]);
      BytesNextGroup(Digits(GroupOf(data[0], data[1], data[2])), Sextets(data[3..]));
      assert data == [data[0], data[1], data[2]] + data[3..];
    } else if |data| == 2 {
      GroupBytes(data[0], data[1], 0);
    } else if |data| == 1 {
      GroupBytes(data[0], 0, 0);
    }
  }

  // ---------- One symbol

  /** The value of a symbol and the alphabet from there on. */
  function ValueOf(alphabet: Alphabet, c: char): (r: Result<(Sextet, Alphabet), Error>)
    ensures r.Err? ==> r.error == InvalidCharacter
  {
    if 'A' <= c <= 'Z' then Ok(((c as int - 'A' as int), alphabet))
    else if 'a' <= c <= 'z' then Ok(((c as int - 'a' as int + 26), alphabet))
    else if '0' <= c <= '9' then Ok(((c as int - '0' as int + 52), alphabet))
    else match alphabet
      case Standard => if c == '+' then Ok((62, alphabet)) else if c == '/' then Ok((63, alphabet))
        else Err(InvalidCharacter)
      case UrlFilenameSafe => if c == '-' then Ok((62, alphabet)) else if c == '_' then Ok((63, alphabet))
        else Err(InvalidCharacter)
      case Auto =>
        if c == '+' then Ok((62, Standard)) else if c == '/' then Ok((63, Standard))
        else if c == '-' then Ok((62, UrlFilenameSafe)) else if c == '_' then Ok((63, UrlFilenameSafe))
        else Err(InvalidCharacter)
  }

  function Named(url: bool): (a: Alphabet) {
    if url then UrlFilenameSafe else Standard
  }

  /** The values of a text without padding, from a given alphabet on. */
  function Values(text: string, alphabet: Alphabet): (r: Result<(seq<Sextet>, Alphabet), Error>)
    ensures r.Ok? ==> |r.value.0| == |text|
    ensures r.Err? ==> r.error == InvalidCharacter
  {
    if text == [] then Ok(([], alphabet)) else
    var k := |text| - 1;
    match Values(text[..k], alphabet)
    case Err(e) => Err(e)
    case Ok((s, a)) =>
      match ValueOf(a, text[k])
      case Err(e) => Err(e)
      case Ok((v, a')) => Ok((s + [v], a'))
  }

  /** The length of the text before the padding. */
  function Unpadded(text: string): (n: nat)
    ensures n <= |text| && (forall i :: 0 <= i < n ==> text[i] != PAD) && (n < |text| ==> text[n] == PAD)
  {
    if text == [] || text[0] == PAD then 0 else 1 + Unpadded(text[1..])
  }

  predicate OnlyPads(text: string) {
    forall i :: 0 <= i < |text| ==> text[i] == PAD
  }

  function Decoding(text: string, alphabet: Alphabet, behavior: Behavior): (r: Result<seq<Byte>, Error>) {
    match Values(text[..Unpadded(text)], alphabet)
    case Err(e) => Err(e)
    case Ok((s, _)) =>
      if behavior == Loose || OnlyPads(text[Unpadded(text)..]) then Ok(Decoded(s)) else Err(InvalidCharacter)
  }

  /** What decoding writes for k symbols fits the size that the caller is told to reserve. */
  lemma DecodingSize(text: string, alphabet: Alphabet, behavior: Behavior)
    requires Decoding(text, alphabet, behavior).Ok?
    ensures |Decoding(text, alphabet, behavior).value| == Unpadded(text) * 6 / 8 <= MaxDecodeSize(|text|)
  {
  }

  // ---------- Round trip

  lemma Upper(v: nat)
    requires v < 26
    ensures UPPER[v] as int == 'A' as int + v
  {
  }

  lemma Lower(v: nat)
    requires v < 26
    ensures LOWER[v] as int == 'a' as int + v
  {
  }

  lemma Digit(v: nat)
    requires v < 10
    ensures DIGITS[v] as int == '0' as int + v
  {
  }

  lemma SymbolAt(url: bool, v: nat)
    requires v < 64
    ensures SymbolsOf(url)[v] == if v < 26 then UPPER[v] else if v < 52 then LOWER[v - 26]
            else if v < 62 then DIGITS[v - 52]
                                 else if v == 62 then (if url then '-' else '+') else (if url then '_' else '/')
  {
  }

  lemma LetterValue(alphabet: Alphabet, c: char, v: Sextet)
    requires (v < 26 && c == UPPER[v]) || (26 <= v < 52 && c == LOWER[v - 26]) || (52 <= v < 62 && c == DIGITS[v - 52])
    ensures ValueOf(alphabet, c) == Ok((v, alphabet)) && c != PAD
  {
    if v < 26 {
      Upper(v);
    } else if v < 52 {
      Lower(v - 26);
    } else {
      Digit(v - 52);
    }
  }

  lemma SymbolValues(url: bool, v: Sextet)
    ensures ValueOf(Named(url), SymbolsOf(url)[v]) == Ok((v, Named(url)))
    ensures ValueOf(Auto, SymbolsOf(url)[v]) == Ok((v, if v < 62 then Auto else Named(url)))
    ensures SymbolsOf(url)[v] != PAD
  {
    SymbolAt(url, v);
    hide SymbolsOf;
    if v < 62 {
      hide ValueOf;
      LetterValue(Auto, SymbolsOf(url)[v], v);
      LetterValue(Named(url), SymbolsOf(url)[v], v);
    }
  }

  /** A spelled text reads back under its own alphabet and under detection, which ends at most at its own alphabet. */
  lemma {:induction false} SpelledReadsBack(s: seq<Sextet>, url: bool, alphabet: Alphabet)
    requires alphabet == Auto || alphabet == Named(url)
    ensures Values(Spelled(s, url), alphabet).Ok? && Values(Spelled(s, url), alphabet).value.0 == s
    ensures Values(Spelled(s, url), alphabet).value.1 in {Auto, Named(url)}
  {
    hide ValueOf, SymbolsOf;
    if s != [] {
      var k := |s| - 1;
      SpelledReadsBack(s[..k], url, alphabet);
      assert Spelled(s, url)[..k] == Spelled(s[..k], url);
      SymbolValues(url, s[k]);
      assert s == s[..k] + [s[k]];
    }
  }

  lemma {:induction false} UnpaddedIs(text: string, n: nat)
    requires n <= |text| && (forall i :: 0 <= i < n ==> text[i] != PAD) && (n < |text| ==> text[n] == PAD)
    ensures Unpadded(text) == n
  {
  }

  /** Decoding what was encoded gives the bytes back, for either alphabet, named or detected, in either behavior,
      with the padding in place or with any part of it stripped. */
  lemma RoundTrip(data: seq<Byte>, url: bool, alphabet: Alphabet, behavior: Behavior, stripped: nat)
    requires alphabet == Auto || alphabet == Named(url)
    requires stripped <= |Padding(|data|)|
    ensures |Padding(|data|)| <= |Encoding(data, url)|
    ensures Decoding(Encoding(data, url)[..|Encoding(data, url)| - stripped], alphabet, behavior) == Ok(data)
  {
    hide Values, Decoded, Sextets, Unpadded, Spelled;
    var spelled, pads := Spelled(Sextets(data), url), Padding(|data|);
    var text := Encoding(data, url)[..|Encoding(data, url)| - stripped];
    assert text == spelled + pads[..|pads| - stripped];
    NoPads(Sextets(data), url);
    UnpaddedIs(text, |spelled|);
    assert text[..|spelled|] == spelled && text[|spelled|..] == pads[..|pads| - stripped];
    SpelledReadsBack(Sextets(data), url, alphabet);
    BytesOfSextets(data);
  }

  lemma NoPads(s: seq<Sextet>, url: bool)
    ensures forall i :: 0 <= i < |s| ==> Spelled(s, url)[i] != PAD
  {
    hide SymbolsOf;
    forall i | 0 <= i < |s| ensures Spelled(s, url)[i] != PAD {
      SymbolValues(url, s[i]);
    }
  }

  predicate SameSextets(r: Result<(seq<Sextet>, Alphabet), Error>, q: Result<(seq<Sextet>, Alphabet), Error>) {
    r.Ok? && q.Ok? && r.value.0 == q.value.0
  }

  /** Detection accepts exactly the texts that one of the two alphabets accepts, with the same values; a text that
      mixes the two is refused. */
  lemma {:induction false} Detection(text: string)
    ensures Values(text, Auto).Ok? <==> Values(text, Standard).Ok? || Values(text, UrlFilenameSafe).Ok?
    ensures Values(text, Auto).Ok? ==> match Values(text, Auto).value.1
              case Auto =>
                && SameSextets(Values(text, Auto), Values(text, Standard))
                && SameSextets(Values(text, Auto), Values(text, UrlFilenameSafe))
              case Standard =>
                SameSextets(Values(text, Auto), Values(text, Standard)) && Values(text, UrlFilenameSafe).Err?
              case UrlFilenameSafe =>
                SameSextets(Values(text, Auto), Values(text, UrlFilenameSafe)) && Values(text, Standard).Err?
    ensures Values(text, Standard).Ok? ==> Values(text, Standard).value.1 == Standard
    ensures Values(text, UrlFilenameSafe).Ok? ==> Values(text, UrlFilenameSafe).value.1 == UrlFilenameSafe
  {
    if text != [] {
      Detection(text[..|text| - 1]);
    }
  }

  // ---------- The encoder

  /** The first six bits of a byte. */
  function Top(a: Byte): (digit: Sextet) {
    a / 4
  }

  /** Its last two bits and the first four of the next. */
  function Middle(a: Byte, b: Byte): (digit: Sextet) {
    a % 4 * 16 + b / 16
  }

  /** The last four bits of a byte and the first two of the next. */
  function Low(b: Byte, c: Byte): (digit: Sextet) {
    b % 16 * 4 + c / 64
  }

  /** The last six bits of a byte. */
  function Rest(c: Byte): (digit: Sextet) {
    c % 64
  }

  /** The four digits of a group by shifts and masks of its bytes. */
  lemma ShiftsAndMasks(a: Byte, b: Byte, c: Byte)
    ensures Digits(GroupOf(a, b, c)) == [Top(a), Middle(a, b), Low(b, c), Rest(c)]
  {
    Quarters(a, b, c);
  }

  lemma Quarters(a: nat, b: nat, c: nat)
    requires a < 256 && b < 256 && c < 256
    ensures var n := a * 0x1_0000 + b * 0x100 + c;
            && n / 0x4_0000 == a / 4 && n / 0x1000 % 64 == a % 4 * 16 + b / 16
            && n / 64 % 64 == b % 16 * 4 + c / 64 && n % 64 == c % 64
  {
    DivModUnique(a * 1024 + b * 4 + c / 64, 64, c % 64);
    DivModUnique(a * 16 + b / 16, 64, b % 16 * 4 + c / 64);
    DivModUnique(a * 16 + b / 16, 0x1000, b % 16 * 0x100 + c);
    DivModUnique(a / 4, 64, a % 4 * 16 + b / 16);
    DivModUnique(a / 4, 0x4_0000, a % 4 * 0x1_0000 + b * 0x100 + c);
  }

  lemma EncodingLast(data: seq<Byte>, url: bool)
    requires |data| in {1, 2}
    ensures var alpha, a, b := SymbolsOf(url), data[0], if |data| == 1 then 0 else data[1];
            Encoding(data, url) == if |data| == 1 then [alpha[Top(a)], alpha[Middle(a, 0)], PAD, PAD]
                                   else [alpha[Top(a)], alpha[Middle(a, b)], alpha[Low(b, 0)], PAD]
  {
    hide SymbolsOf, Digits, GroupOf;
    ShiftsAndMasks(data[0], if |data| == 1 then 0 else data[1], 0);
  }

  lemma SpelledAppend(s: seq<Sextet>, t: seq<Sextet>, url: bool)
    ensures Spelled(s + t, url) == Spelled(s, url) + Spelled(t, url)
  {
    hide SymbolsOf;
  }

  lemma SpelledFour(four: seq<Sextet>, url: bool)
    requires |four| == 4
    ensures var alpha := SymbolsOf(url);
            Spelled(four, url) == [alpha[four[0]], alpha[four[1]], alpha[four[2]], alpha[four[3]]]
  {
    hide SymbolsOf;
  }

  lemma SextetsNext(data: seq<Byte>, url: bool)
    requires |data| >= 3
    ensures Encoding(data, url) == Spelled(Digits(GroupOf(data[0], data[1], data[2])), url) + Encoding(data[3..], url)
  {
    hide SymbolsOf, Digits, GroupOf, Spelled, Padding, Sextets;
    var four, rest := Digits(GroupOf(data[0], data[1], data[2])), Sextets(data[3..]);
    FullGroupFirst(data);
    PaddingNext(|data|);
    SpelledAppend(four, rest, url);
    Associative(Spelled(four, url), Spelled(rest, url), Padding(|data|));
  }

  lemma FullGroupFirst(data: seq<Byte>)
    requires |data| >= 3
    ensures Sextets(data) == Digits(GroupOf(data[0], data[1], data[2])) + Sextets(data[3..])
  {
    hide Digits, GroupOf, SextetCount;
  }

  lemma PaddingNext(n: nat)
    requires n >= 3
    ensures Padding(n - 3) == Padding(n)
  {
    assert (n - 3) % 3 == n % 3;
  }

  lemma Associative(a: string, b: string, c: string)
    ensures a + b + c == a + (b + c)
  {
  }

  lemma EncodingNext(data: seq<Byte>, url: bool)
    requires |data| >= 3
    ensures var alpha, a, b, c := SymbolsOf(url), data[0], data[1], data[2];
            Encoding(data, url) == [alpha[Top(a)], alpha[Middle(a, b)], alpha[Low(b, c)], alpha[Rest(c)]]
                                   + Encoding(data[3..], url)
  {
    hide SymbolsOf, Digits, GroupOf, Spelled, Encoding;
    ShiftsAndMasks(data[0], data[1], data[2]);
    SpelledFour(Digits(GroupOf(data[0], data[1], data[2])), url);
    SextetsNext(data, url);
  }

  lemma FourAppended(before: string, a: char, b: char, c: char, d: char, rest: string)
    ensures before + [a] + [b] + [c] + [d] + rest == before + ([a, b, c, d] + rest)
    ensures rest == "" ==> before + [a] + [b] + [c] + [d] == before + [a, b, c, d]
  {
  }

  method Encode(data: seq<Byte>, alphabet: Alphabet) returns (out: string)
    ensures out == Encoding(data, alphabet == UrlFilenameSafe)
    ensures |out| == RequiredEncodeSize(|data|)
  {
    hide *;
    ghost var url := alphabet == UrlFilenameSafe;
    ghost var whole := Encoding(data, url);
    EncodingSize(data, url);
    var alpha := SymbolsOf(alphabet == UrlFilenameSafe);
    out := "";
    var i := 0;
    assert data[0..] == data && out + whole == whole;
    while i < |data|
      invariant 0 <= i <= |data| && whole == out + Encoding(data[i..], url)
    {
      ghost var rest, before := data[i..], out;
      if |rest| >= 3 {
        EncodingNext(rest, url);
        assert rest[3..] == data[i + 3..] && [rest[0], rest[1], rest[2]] == [data[i], data[i + 1], data[i + 2]];
      } else {
        EncodingLast(rest, url);
      }
      var i0 := data[i];
      i := i + 1;
      out := out + [alpha[Top(i0)]];
      if i == |data| {
        out := out + [alpha[Middle(i0, 0)]];
        out := out + [PAD];
        out := out + [PAD];
        FourAppended(before, alpha[Top(i0)], alpha[Middle(i0, 0)], PAD, PAD, "");
        return;
      }
      var i1 := data[i];
      i := i + 1;
      out := out + [alpha[Middle(i0, i1)]];
      if i == |data| {
        out := out + [alpha[Low(i1, 0)]];
        out := out + [PAD];
        FourAppended(before, alpha[Top(i0)], alpha[Middle(i0, i1)], alpha[Low(i1, 0)], PAD, "");
        return;
      }
      var i2 := data[i];
      i := i + 1;
      out := out + [alpha[Low(i1, i2)]];
      out := out + [alpha[Rest(i2)]];
      FourAppended(before, alpha[Top(i0)], alpha[Middle(i0, i1)], alpha[Low(i1, i2)], alpha[Rest(i2)],
                   Encoding(data[i..], url));
    }
    NothingToEncode(url);
    assert data[i..] == [];
  }

  lemma NothingToEncode(url: bool)
    ensures Encoding([], url) == ""
  {
  }

  // ---------- The decoder

  /** How many bits of the last sextet are still to be written. */
  function Held(k: nat): (bits: nat) {
    match k % 4
    case 0 => 0
    case 1 => 6
    case 2 => 4
    case 3 => 2
  }

  lemma FitsByte(last: Sextet, part: Sextet)
    ensures last * 4 % 256 + part / 16 < 256 && last * 16 % 256 + part / 4 < 256 && last * 64 % 256 + part < 256
  {
    DivModUnique(last / 16, 256, last % 16 * 16);
    DivModUnique(last / 4, 256, last % 4 * 64);
    DivModUnique(0, 256, last * 4);
  }

  /** The last sextet, shifted left to make room for the first bits of the next, and cut to a byte. */
  function ShiftedIn(last: Sextet, bits: nat, part: Sextet): (b: Byte)
    requires bits == 2 || bits == 4 || bits == 6
  {
    FitsByte(last, part);
    if bits == 6 then (last * 4 % 256 + part / 16)
    else if bits == 4 then (last * 16 % 256 + part / 4)
    else (last * 64 % 256 + part)
  }

  lemma SecondByte(a: nat, p: nat)
    requires a < 64 && p < 64
    ensures (a * 0x4_0000 + p * 0x1000) / 0x1_0000 == a * 4 % 256 + p / 16
  {
    DivModUnique(a * 4 + p / 16, 0x1_0000, p % 16 * 0x1000);
  }

  lemma ThirdByte(a: nat, b: nat, p: nat)
    requires a < 64 && b < 64 && p < 64
    ensures var n := a * 0x4_0000 + b * 0x1000 + p * 64;
            n / 0x1_0000 == (a * 0x4_0000 + b * 0x1000) / 0x1_0000 && n / 256 % 256 == b * 16 % 256 + p / 4
  {
    ThirdParts(a, b / 16, b % 16, p / 4, p % 4);
  }

  /** The same with the second and the third sextet taken apart. */
  lemma ThirdParts(a: nat, b1: nat, b0: nat, p1: nat, p0: nat)
    requires b1 < 4 && b0 < 16 && p1 < 16 && p0 < 4
    ensures var b, p := b1 * 16 + b0, p1 * 4 + p0;
            var n := a * 0x4_0000 + b * 0x1000 + p * 64;
            n / 0x1_0000 == (a * 0x4_0000 + b * 0x1000) / 0x1_0000 && n / 256 % 256 == b * 16 % 256 + p1
  {
    DivModUnique(a * 4 + b1, 0x1_0000, b0 * 0x1000 + p1 * 256 + p0 * 64);
    DivModUnique(a * 4 + b1, 0x1_0000, b0 * 0x1000);
    DivModUnique(a * 1024 + b1 * 256 + b0 * 16 + p1, 256, p0 * 64);
    DivModUnique(a * 4 + b1, 256, b0 * 16 + p1);
    DivModUnique(b1, 256, b0 * 16);
  }

  lemma FourthByte(a: nat, b: nat, c: nat, p: nat)
    requires a < 64 && b < 64 && c < 64 && p < 64
    ensures var m, n := a * 0x4_0000 + b * 0x1000 + c * 64, a * 0x4_0000 + b * 0x1000 + c * 64 + p;
            n / 256 == m / 256 && n / 0x1_0000 == m / 0x1_0000 && n % 256 == c * 64 % 256 + p
  {
    var q := a * 1024 + b * 16 + c / 4;
    DivModUnique(q, 256, c % 4 * 64 + p);
    DivModUnique(q, 256, c % 4 * 64);
    var r := b % 16 * 0x1000 + c * 64;
    DivModUnique(a * 4 + b / 16, 0x1_0000, r + p);
    DivModUnique(a * 4 + b / 16, 0x1_0000, r);
  }

  lemma SecondSextet(a: Sextet, p: Sextet)
    ensures ThreeBytes(Joined(a, p, 0, 0))[0] == ShiftedIn(a, 6, p)
  {
    SecondByte(a, p);
  }

  lemma ThirdSextet(a: Sextet, b: Sextet, p: Sextet)
    ensures var m, n := ThreeBytes(Joined(a, b, 0, 0)), ThreeBytes(Joined(a, b, p, 0));
            n[0] == m[0] && n[1] == ShiftedIn(b, 4, p)
  {
    ThirdByte(a, b, p);
  }

  lemma FourthSextet(a: Sextet, b: Sextet, c: Sextet, p: Sextet)
    ensures var m, n := ThreeBytes(Joined(a, b, c, 0)), ThreeBytes(Joined(a, b, c, p));
            n[0] == m[0] && n[1] == m[1] && n[2] == ShiftedIn(c, 2, p)
  {
    FourthByte(a, b, c, p);
  }

  lemma BytesOfFew(s: seq<Sextet>)
    requires |s| <= 4
    ensures Decoded(s) == if |s| < 2 then [] else ThreeBytes(Joined(s[0], s[1], if |s| == 2 then 0 else s[2],
                                                                  if |s| <= 3 then 0 else s[3]))[..|s| - 1]
  {
    hide ThreeBytes, Joined;
    if |s| == 4 {
      assert s[4..] == [];
    }
  }

  lemma BytesNextFew(s: seq<Sextet>, part: Sextet)
    requires |s| < 4
    ensures Decoded(s + [part]) == Decoded(s) + (if |s| == 0 then [] else [ShiftedIn(s[|s| - 1], Held(|s|), part)])
  {
    hide *;
    HeldFew();
    Listed(s, part);
    if |s| == 3 {
      NextFourth(s[0], s[1], s[2], part);
    } else if |s| == 2 {
      NextThird(s[0], s[1], part);
    } else if |s| == 1 {
      NextSecond(s[0], part);
    } else {
      BytesOfFew([]);
      BytesOfFew([part]);
    }
  }

  lemma Listed(s: seq<Sextet>, part: Sextet)
    requires |s| < 4
    ensures |s| == 0 ==> s == [] && s + [part] == [part]
    ensures |s| == 1 ==> s == [s[0]] && s + [part] == [s[0], part]
    ensures |s| == 2 ==> s == [s[0], s[1]] && s + [part] == [s[0], s[1], part]
    ensures |s| == 3 ==> s == [s[0], s[1], s[2]] && s + [part] == [s[0], s[1], s[2], part]
  {
  }

  lemma NextFourth(a: Sextet, b: Sextet, c: Sextet, p: Sextet)
    ensures Decoded([a, b, c, p]) == Decoded([a, b, c]) + [ShiftedIn(c, 2, p)]
  {
    hide *;
    BytesOfFew([a, b, c]);
    BytesOfFew([a, b, c, p]);
    FourthSextet(a, b, c, p);
  }

  lemma NextThird(a: Sextet, b: Sextet, p: Sextet)
    ensures Decoded([a, b, p]) == Decoded([a, b]) + [ShiftedIn(b, 4, p)]
  {
    hide *;
    BytesOfFew([a, b]);
    BytesOfFew([a, b, p]);
    ThirdSextet(a, b, p);
  }

  lemma NextSecond(a: Sextet, p: Sextet)
    ensures Decoded([a, p]) == Decoded([a]) + [ShiftedIn(a, 6, p)]
  {
    hide *;
    BytesOfFew([a]);
    BytesOfFew([a, p]);
    SecondSextet(a, p);
  }

  lemma HeldFew()
    ensures Held(1) == 6 && Held(2) == 4 && Held(3) == 2
  {
  }

  lemma FirstFour(s: seq<Sextet>, part: Sextet)
    requires |s| >= 4
    ensures s == s[..4] + s[4..] && s + [part] == s[..4] + (s[4..] + [part])
    ensures |s[4..]| % 4 == |s| % 4 && (|s| > 4 ==> s[4..][|s| - 5] == s[|s| - 1])
  {
  }

  /** One more sextet completes one more byte, unless it starts a group. */
  lemma {:induction false} BytesNext(s: seq<Sextet>, part: Sextet)
    ensures Decoded(s + [part]) == Decoded(s) + (if |s| % 4 == 0 then [] else [ShiftedIn(s[|s| - 1], Held(|s|), part)])
  {
    hide ShiftedIn, Decoded;
    if |s| < 4 {
      BytesNextFew(s, part);
    } else {
      FirstFour(s, part);
      BytesNext(s[4..], part);
      BytesNextGroup(s[..4], s[4..]);
      BytesNextGroup(s[..4], s[4..] + [part]);
    }
  }

  // ---------- Decoding to a new buffer and in place

  /** The state of the decoder after reading the sextets s: the bytes are written, and `last` holds the rest. */
  predicate Keeps(s: seq<Sextet>, last: Sextet, bits: nat, out: seq<Byte>) {
    bits == Held(|s|) && (s != [] ==> last == s[|s| - 1]) && out == Decoded(s)
  }

  lemma KeepsNext(s: seq<Sextet>, last: Sextet, bits: nat, out: seq<Byte>, part: Sextet)
    requires Keeps(s, last, bits, out)
    ensures bits + 6 >= 8 ==>
              (bits == 2 || bits == 4 || bits == 6)
              && Keeps(s + [part], part, bits - 2, out + [ShiftedIn(last, bits, part)])
    ensures bits + 6 < 8 ==> Keeps(s + [part], part, bits + 6, out)
  {
    hide ShiftedIn, Decoded, Held;
    BytesNext(s, part);
    HeldNext(|s|);
    assert out + [] == out && (s + [part])[|s|] == part;
  }

  lemma HeldNext(k: nat)
    ensures Held(k + 1) == if k % 4 == 0 then 6 else Held(k) - 2
    ensures if k % 4 == 0 then Held(k) == 0 else Held(k) in {2, 4, 6}
  {
    var q := k / 4;
    assert (k + 1) % 4 == if k % 4 == 3 then 0 else k % 4 + 1;
  }

  lemma ValuesNext(text: string, k: nat, alphabet: Alphabet)
    requires k < |text| && Values(text[..k], alphabet).Ok?
    ensures var (s, a) := Values(text[..k], alphabet).value;
            Values(text[..k + 1], alphabet) == match ValueOf(a, text[k])
              case Err(e) => Err(e)
              case Ok((v, a')) => Ok((s + [v], a'))
  {
    assert text[..k + 1][..k] == text[..k];
  }

  lemma {:induction false} ValuesFail(text: string, k: nat, alphabet: Alphabet)
    requires k <= |text| && Values(text[..k], alphabet).Err?
    ensures Values(text, alphabet).Err?
  {
    if k == |text| {
      assert text[..k] == text;
    } else {
      assert text[..|text| - 1][..k] == text[..k];
      ValuesFail(text[..|text| - 1], k, alphabet);
    }
  }

  /** A symbol that is refused before the padding refuses the text. */
  lemma DecodingFails(text: string, k: nat, alphabet: Alphabet, behavior: Behavior)
    requires k <= Unpadded(text) && Values(text[..k], alphabet).Err?
    ensures Decoding(text, alphabet, behavior) == Err(InvalidCharacter)
  {
    assert text[..Unpadded(text)][..k] == text[..k];
    ValuesFail(text[..Unpadded(text)], k, alphabet);
  }

  lemma BeforePads(text: string, k: nat)
    requires k < |text| && forall i :: 0 <= i < k ==> text[i] != PAD
    ensures if text[k] == PAD then Unpadded(text) == k else k + 1 <= Unpadded(text)
  {
    if text[k] == PAD {
      UnpaddedIs(text, k);
    }
  }

  /** The first i characters are read, `padded` if the last of them ended the symbols. */
  predicate Reading(text: string, alphabet0: Alphabet, i: nat, padded: bool, s: seq<Sextet>, alphabet: Alphabet) {
    && (if padded then 0 < i <= |text| && Unpadded(text) == i - 1 else i <= Unpadded(text))
    && Values(text[..if padded then i - 1 else i], alphabet0) == Ok((s, alphabet))
  }

  lemma ReadNext(text: string, alphabet0: Alphabet, i: nat, s: seq<Sextet>, alphabet: Alphabet, behavior: Behavior)
    requires Reading(text, alphabet0, i, false, s, alphabet) && i < |text|
    ensures text[i] == PAD ==> Reading(text, alphabet0, i + 1, true, s, alphabet)
    ensures text[i] != PAD ==> match ValueOf(alphabet, text[i])
              case Err(_) => Decoding(text, alphabet0, behavior) == Err(InvalidCharacter)
              case Ok((v, a)) => Reading(text, alphabet0, i + 1, false, s + [v], a)
  {
    hide ValueOf, Values, Unpadded, Decoding;
    BeforePads(text, i);
    if text[i] != PAD {
      ValuesNext(text, i, alphabet0);
      if ValueOf(alphabet, text[i]).Err? {
        DecodingFails(text, i + 1, alphabet0, behavior);
      }
    }
  }

  lemma PadsAfter(text: string, n: nat, i: nat)
    requires n <= i <= |text| && forall k :: n <= k < i ==> text[k] == PAD
    ensures OnlyPads(text[n..]) <==> forall k :: i <= k < |text| ==> text[k] == PAD
  {
    assert forall k :: n <= k < |text| ==> text[k] == text[n..][k - n];
  }

  /** What remains to be seen after the symbols is the padding. */
  lemma ReadDone(text: string, alphabet0: Alphabet, i: nat, padded: bool, s: seq<Sextet>, alphabet: Alphabet,
                 behavior: Behavior)
    requires Reading(text, alphabet0, i, padded, s, alphabet) && (padded || i == |text|)
    ensures i <= |text|
    ensures Decoding(text, alphabet0, behavior) ==
            if behavior == Loose || forall k :: i <= k < |text| ==> text[k] == PAD
                                                   then Ok(Decoded(s)) else Err(InvalidCharacter)
  {
    hide ValueOf, Values, Decoded, Unpadded;
    PadsAfter(text, Unpadded(text), i);
  }

  method Decode(text: string, alphabet0: Alphabet, behavior: Behavior) returns (r: Result<seq<Byte>, Error>)
    ensures r == Decoding(text, alphabet0, behavior)
  {
    hide *;
    var alphabet, last, bits, out, i := alphabet0, 0, 0 as nat, [], 0;
    ghost var s: seq<Sextet> := [];
    Start(text, alphabet0);
    var padded := false;
    while i < |text| && !padded
      invariant 0 <= i <= |text| && Reading(text, alphabet0, i, padded, s, alphabet) && Keeps(s, last, bits, out)
      decreases |text| - i
    {
      var c := text[i];
      ReadNext(text, alphabet0, i, s, alphabet, behavior);
      i := i + 1;
      if c == PAD {
        padded := true;
      } else {
        var part := ValueOf(alphabet, c);
        if part.Err? {
          return Err(InvalidCharacter);
        }
        KeepsNext(s, last, bits, out, part.value.0);
        if bits + 6 >= 8 {
          out := out + [ShiftedIn(last, bits, part.value.0)];
          bits := bits - 2;
        } else {
          bits := bits + 6;
        }
        last, alphabet := part.value.0, part.value.1;
        s := s + [last];
      }
    }
    ReadDone(text, alphabet0, i, padded, s, alphabet, behavior);
    if behavior != Loose {
      ghost var after := i;
      while i < |text|
        invariant after <= i <= |text| && forall k :: after <= k < i ==> text[k] == PAD
      {
        if text[i] != PAD {
          return Err(InvalidCharacter);
        }
        i := i + 1;
      }
    }
    Finished(s, last, bits, out);
    r := Ok(out);
  }

  lemma Start(text: string, alphabet: Alphabet)
    ensures Reading(text, alphabet, 0, false, [], alphabet) && Keeps([], 0, 0, [])
  {
    assert text[..0] == [];
  }

  lemma Finished(s: seq<Sextet>, last: Sextet, bits: nat, out: seq<Byte>)
    requires Keeps(s, last, bits, out)
    ensures out == Decoded(s) && |out| <= |s|
  {
  }

  function Chars(data: seq<Byte>): (text: string)
    ensures |text| == |data| && forall i :: 0 <= i < |data| ==> text[i] == data[i] as char
  {
    seq(|data|, i requires 0 <= i < |data| => data[i] as char)
  }

  /** Decoding with the output over the input: what it leaves in the front of the buffer is the decoding of what was
      there, and beyond that front no place is written. */
  method DecodeInPlace(buf: array<char>, size: nat, alphabet0: Alphabet, behavior: Behavior)
    returns (r: Result<nat, Error>)
    requires size <= buf.Length
    modifies buf
    ensures var d := Decoding(old(buf[..size]), alphabet0, behavior);
            if d.Err? then r == Err(d.error)
            else r == Ok(|d.value|) && |d.value| <= size && buf[..|d.value|] == Chars(d.value)
                 && forall k :: |d.value| <= k < buf.Length ==> buf[k] == old(buf[k])
    ensures forall k :: size <= k < buf.Length ==> buf[k] == old(buf[k])
  {
    hide *;
    ghost var text := buf[..size];
    var alphabet, last, bits, i, o := alphabet0, 0, 0 as nat, 0, 0;
    ghost var s: seq<Sextet>, out: seq<Byte> := [], [];
    Start(text, alphabet0);
    var padded := false;
    while i < size && !padded
      invariant 0 <= i <= size && Reading(text, alphabet0, i, padded, s, alphabet) && Keeps(s, last, bits, out)
      invariant o == |out| <= |s| <= i && buf[..o] == Chars(out)
      invariant forall k :: o <= k < buf.Length ==> buf[k] == old(buf[k])
      decreases size - i
    {
      var c := buf[i];
      assert c == text[i];
      ReadNext(text, alphabet0, i, s, alphabet, behavior);
      i := i + 1;
      if c == PAD {
        padded := true;
      } else {
        var part := ValueOf(alphabet, c);
        if part.Err? {
          return Err(InvalidCharacter);
        }
        KeepsNext(s, last, bits, out, part.value.0);
        if bits + 6 >= 8 {
          WriteAt(buf, o, out, ShiftedIn(last, bits, part.value.0));
          out := out + [ShiftedIn(last, bits, part.value.0)];
          o := o + 1;
          bits := bits - 2;
        } else {
          bits := bits + 6;
        }
        last, alphabet := part.value.0, part.value.1;
        s := s + [last];
      }
    }
    ReadDone(text, alphabet0, i, padded, s, alphabet, behavior);
    if behavior != Loose {
      ghost var after := i;
      while i < size
        invariant after <= i <= size && forall k :: after <= k < i ==> text[k] == PAD
      {
        assert buf[i] == text[i];
        if buf[i] != PAD {
          return Err(InvalidCharacter);
        }
        i := i + 1;
      }
    }
    Finished(s, last, bits, out);
    r := Ok(o);
  }

  method WriteAt(buf: array<char>, o: nat, ghost out: seq<Byte>, b: Byte)
    requires o < buf.Length && o == |out| && buf[..o] == Chars(out)
    modifies buf
    ensures buf[..o + 1] == Chars(out + [b])
    ensures forall k :: o < k < buf.Length ==> buf[k] == old(buf[k])
  {
    buf[o] := b as char;
    assert buf[..o + 1] == buf[..o] + [buf[o]];
  }
}
