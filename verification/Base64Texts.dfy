/** What a Base64 text says, symbol by symbol: the tables and bit groups of RFC 4648, sections 4 and 5, and the texts
    that common/base64.hpp accepts. */
module Base64Texts {
  import opened Bytes
  import opened Base64

  // ---------- The symbols

  /** The tables of the standard. */
  lemma SymbolTable(url: bool, v: Sextet)
    ensures SymbolsOf(url)[v] as int ==
            if v < 26 then 'A' as int + v
            else if v < 52 then 'a' as int + (v - 26)
            else if v < 62 then '0' as int + (v - 52)
            else if v == 62 then (if url then '-' else '+') as int
            else (if url then '_' else '/') as int
  {
    hide *;
    SymbolAt(url, v);
    if v < 26 {
      Upper(v);
    } else if v < 52 {
      Lower(v - 26);
    } else if v < 62 {
      Digit(v - 52);
    }
  }

  /** An alphabet has a value for its own symbols and for no other character. */
  lemma OnlySymbols(url: bool, c: char)
    ensures ValueOf(Named(url), c).Ok? <==> c in SymbolsOf(url)
  {
    hide SymbolsOf;
    if ValueOf(Named(url), c).Ok? {
      var v := ValueOf(Named(url), c).value.0;
      SymbolTable(url, v);
      assert SymbolsOf(url)[v] == c;
    }
    if c in SymbolsOf(url) {
      var v :| 0 <= v < 64 && SymbolsOf(url)[v] == c;
      SymbolValues(url, v);
    }
  }

  predicate AllSymbols(text: string, url: bool) {
    forall i :: 0 <= i < |text| ==> text[i] in SymbolsOf(url)
  }

  lemma {:induction false} SymbolsAreRead(text: string, url: bool)
    ensures Values(text, Named(url)).Ok? <==> AllSymbols(text, url)
    ensures Values(text, Named(url)).Ok? ==> Values(text, Named(url)).value.1 == Named(url)
    decreases |text|
  {
    hide ValueOf, SymbolsOf;
    Detection(text);
    if text != [] {
      var k := |text| - 1;
      SymbolsAreRead(text[..k], url);
      OnlySymbols(url, text[k]);
      assert text == text[..k] + [text[k]];
    }
  }

  /** Accepted is what has the symbols of one alphabet, of the named one if it is named, up to the first padding, and
      unless decoding is loose nothing but padding from there on. */
  lemma AcceptedIff(text: string, n: nat, alphabet: Alphabet, behavior: Behavior)
    requires n <= |text| && (forall i :: 0 <= i < n ==> text[i] != '=') && (n < |text| ==> text[n] == '=')
    ensures Decoding(text, alphabet, behavior).Ok? <==>
              && ((alphabet != UrlFilenameSafe && AllSymbols(text[..n], false))
                  || (alphabet != Standard && AllSymbols(text[..n], true)))
              && (behavior == Loose || forall i :: n <= i < |text| ==> text[i] == '=')
  {
    hide Values, AllSymbols, Decoded;
    UnpaddedIs(text, n);
    SymbolsAreRead(text[..n], false);
    SymbolsAreRead(text[..n], true);
    Detection(text[..n]);
    PadsAfter(text, n, n);
  }

  // ---------- The bits

  /** A sextet and the first two bits of the next. */
  function HighByte(a: Sextet, b: Sextet): (byte: Byte) {
    a * 4 + b / 16
  }

  /** The last four bits of a sextet and the first four of the next. */
  function MiddleByte(b: Sextet, c: Sextet): (byte: Byte) {
    b % 16 * 16 + c / 4
  }

  /** The last two bits of a sextet and the next one. */
  function LowByte(c: Sextet, d: Sextet): (byte: Byte) {
    c % 4 * 64 + d
  }

  /** Byte i of what sextets stand for has the bits of the two sextets it lies across. */
  lemma DecodedAt(s: seq<Sextet>, i: nat)
    requires i < |s| * 6 / 8
    ensures var k := i / 3 * 4;
            Decoded(s)[i] == if i % 3 == 0 then HighByte(s[k], s[k + 1])
                             else if i % 3 == 1 then MiddleByte(s[k + 1], s[k + 2])
                             else LowByte(s[k + 2], s[k + 3])
  {
    hide *;
    DecodedIn(s, i / 3, i % 3);
  }

  lemma {:induction false} DecodedIn(s: seq<Sextet>, group: nat, r: nat)
    requires r < 3 && group * 3 + r < |s| * 6 / 8
    ensures var k := group * 4;
            Decoded(s)[group * 3 + r] == if r == 0 then HighByte(s[k], s[k + 1])
                                         else if r == 1 then MiddleByte(s[k + 1], s[k + 2])
                                         else LowByte(s[k + 2], s[k + 3])
    decreases group
  {
    hide *;
    if group == 0 {
      FirstBytes(s);
    } else {
      DecodedIn(s[4..], group - 1, r);
      BytesNextGroup(s[..4], s[4..]);
      assert s == s[..4] + s[4..];
    }
  }

  lemma FirstBytes(s: seq<Sextet>)
    requires |s| >= 2
    ensures Decoded(s)[0] == HighByte(s[0], s[1])
    ensures |s| >= 3 ==> Decoded(s)[1] == MiddleByte(s[1], s[2])
    ensures |s| >= 4 ==> Decoded(s)[2] == LowByte(s[2], s[3])
  {
    hide HighByte, MiddleByte, LowByte, ThreeBytes, Joined;
    GroupAt(s[0], s[1], if |s| == 2 then 0 else s[2], if |s| <= 3 then 0 else s[3]);
  }

  lemma GroupAt(a: Sextet, b: Sextet, c: Sextet, d: Sextet)
    ensures ThreeBytes(Joined(a, b, c, d)) == [HighByte(a, b), MiddleByte(b, c), LowByte(c, d)]
  {
    hide *;
    SameGroup(a, b, c, d);
    GroupParts(HighByte(a, b), MiddleByte(b, c), LowByte(c, d));
  }

  /** The bytes make the same group as the sextets. */
  lemma SameGroup(a: Sextet, b: Sextet, c: Sextet, d: Sextet)
    ensures GroupOf(HighByte(a, b), MiddleByte(b, c), LowByte(c, d)) == Joined(a, b, c, d)
  {
    var b1, b0, c1, c0 := b / 16, b % 16, c / 4, c % 4;
    assert b == b1 * 16 + b0 && c == c1 * 4 + c0;
    GroupSum(a, b1, b0, c1, c0, d);
  }

  lemma GroupSum(a: nat, b1: nat, b0: nat, c1: nat, c0: nat, d: nat)
    ensures (a * 4 + b1) * 0x1_0000 + (b0 * 16 + c1) * 0x100 + (c0 * 64 + d)
            == a * 0x4_0000 + (b1 * 16 + b0) * 0x1000 + (c1 * 4 + c0) * 64 + d
  {
  }

  function ByteAt(data: seq<Byte>, i: nat): (b: Byte) {
    if i < |data| then data[i] else 0
  }

  /** Sextet k of a byte string has the bits of the bytes it lies across, zero bits behind the last byte. */
  lemma SextetAt(data: seq<Byte>, k: nat)
    requires k < |Sextets(data)|
    ensures var i := k / 4 * 3;
            Sextets(data)[k] ==
            if k % 4 == 0 then ByteAt(data, i) / 4
            else if k % 4 == 1 then ByteAt(data, i) % 4 * 16 + ByteAt(data, i + 1) / 16
            else if k % 4 == 2 then ByteAt(data, i + 1) % 16 * 4 + ByteAt(data, i + 2) / 64
            else ByteAt(data, i + 2) % 64
  {
    hide Sextets, ByteAt;
    SextetIn(data, k / 4, k % 4);
  }

  lemma {:induction false} SextetIn(data: seq<Byte>, group: nat, r: nat)
    requires r < 4 && group * 4 + r < |Sextets(data)|
    ensures var i := group * 3;
            Sextets(data)[group * 4 + r]
            == DigitsOf(ByteAt(data, i), ByteAt(data, i + 1), ByteAt(data, i + 2))[r]
    decreases group
  {
    hide Digits, GroupOf, DigitsOf;
    FirstGroup(data);
    if group > 0 {
      var rest := data[3..];
      assert |Sextets(data)| > 4;
      SextetIn(rest, group - 1, r);
      assert forall j: nat :: ByteAt(rest, j) == ByteAt(data, j + 3);
      hide ByteAt;
      assert Sextets(data) == Sextets(data)[..4] + Sextets(rest);
    }
  }

  function DigitsOf(a: Byte, b: Byte, c: Byte): (s: seq<Sextet>)
    ensures |s| == 4
  {
    [Top(a), Middle(a, b), Low(b, c), Rest(c)]
  }

  lemma FirstGroup(data: seq<Byte>)
    ensures var n := if |data| < 3 then |Sextets(data)| else 4;
            && n <= 4 && n <= |Sextets(data)|
            && Sextets(data)[..n] == DigitsOf(ByteAt(data, 0), ByteAt(data, 1), ByteAt(data, 2))[..n]
    ensures |data| >= 3 ==> Sextets(data) == Sextets(data)[..4] + Sextets(data[3..])
    ensures |data| < 3 ==> |Sextets(data)| <= 3
  {
    hide Digits, GroupOf, Top, Middle, Low, Rest;
    ShiftsAndMasks(ByteAt(data, 0), ByteAt(data, 1), ByteAt(data, 2));
  }
}
