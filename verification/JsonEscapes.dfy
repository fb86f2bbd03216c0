/** What a JSON string literal stands for, by section 7 of RFC 8259 alone: hexadecimal digits by their place in the
    alphabet, short escapes by a table, surrogates by dividing the code point. */
module JsonEscapes {
  import opened Bytes
  import opened Utf8
  import opened Arith
  import opened JsonString

  const LOWER: seq<byte> := [0x30, 0x31, 0x32, 0x33, 0x34, 0x35, 0x36, 0x37, 0x38, 0x39, 0x61, 0x62, 0x63, 0x64, 0x65,
                             0x66]
  const UPPER: seq<byte> := [0x30, 0x31, 0x32, 0x33, 0x34, 0x35, 0x36, 0x37, 0x38, 0x39, 0x41, 0x42, 0x43, 0x44, 0x45,
                             0x46]

  predicate DigitOf(c: byte, d: nat) {
    d < 16 && (c == LOWER[d] || c == UPPER[d])
  }

  /** Four hexadecimal digits, of either case each, that spell `v`. */
  predicate HexOf(h: seq<byte>, v: nat) {
    |h| == 4 && v < 0x1_0000 && DigitOf(h[0], v / 0x1000) && DigitOf(h[1], v / 0x100 % 0x10)
      && DigitOf(h[2], v / 0x10 % 0x10) && DigitOf(h[3], v % 0x10)
  }

  /** \uXXXX for the code unit `v`. */
  predicate UnitOf(raw: seq<byte>, v: nat) {
    |raw| == 6 && raw[0] == 0x5C && raw[1] == 0x75 && HexOf(raw[2..], v)
  }

  /** The two-character escapes: quotation mark, reverse solidus, solidus, b, f, n, r, t. */
  const SHORT: seq<(byte, byte)> := [(0x22, 0x22), (0x5C, 0x5C), (0x2F, 0x2F), (0x62, 0x08), (0x66, 0x0C), (0x6E, 0x0A),
                                     (0x72, 0x0D), (0x74, 0x09)]

  function HighOf(cp: scalar): nat
    requires cp >= 0x1_0000
  {
    0xD800 + (cp - 0x1_0000) / 0x400
  }

  function LowOf(cp: scalar): nat
    requires cp >= 0x1_0000
  {
    0xDC00 + (cp - 0x1_0000) % 0x400
  }

  predicate Spells(raw: seq<byte>, cp: scalar) {
    assert IsScalar(cp);
    if cp < 0x1_0000 then UnitOf(raw, cp)
    else |raw| == 12 && UnitOf(raw[..6], HighOf(cp)) && UnitOf(raw[6..], LowOf(cp))
  }

  /** One character or escape of a literal, and the bytes it stands for. */
  ghost predicate Stands(raw: seq<byte>, text: seq<byte>) {
    || (|raw| == 1 && raw[0] >= 0x20 && raw[0] != 0x22 && raw[0] != 0x5C && text == raw)
    || (|raw| == 2 && raw[0] == 0x5C && |text| == 1 && (raw[1], text[0]) in SHORT)
    || (exists cp: scalar :: Spells(raw, cp) && text == EncodeScalar(cp))
  }

  /** The inside of a literal, and the text it stands for. */
  ghost predicate Means(raw: seq<byte>, text: seq<byte>)
    decreases |raw|
  {
    if raw == [] then text == []
    else exists n, m :: 0 < n <= |raw| && 0 <= m <= |text| && MeansFrom(raw, text, n, m)
  }

  ghost predicate MeansFrom(raw: seq<byte>, text: seq<byte>, n: nat, m: nat)
    requires 0 < n <= |raw| && m <= |text|
    decreases |raw|, 0
  {
    Stands(raw[..n], text[..m]) && Means(raw[n..], text[m..])
  }

  // ---- hexadecimal digits ----

  lemma DigitIs(c: byte, d: nat)
    ensures DigitOf(c, d) <==> HexDigit(c) == Some(d)
  {
    if DigitOf(c, d) {
      assert d < 16;
    }
    if HexDigit(c) == Some(d) {
      assert LOWER[d] == c || UPPER[d] == c;
    }
  }

  lemma FourDigits(a: nat, b: nat, c: nat, d: nat, v: nat)
    requires a < 16 && b < 16 && c < 16 && d < 16
    ensures v == ((a * 16 + b) * 16 + c) * 16 + d
            <==> v < 0x1_0000 && a == v / 0x1000 && b == v / 0x100 % 0x10 && c == v / 0x10 % 0x10 && d == v % 0x10
  {
    var x := v / 16;
    var y := x / 16;
    DivMod(v, 16);
    DivMod(x, 16);
    DivMod(y, 16);
    DivUnique(v, 0x100, y, x % 16 * 16 + v % 16);
    DivUnique(v, 0x1000, y / 16, y % 16 * 0x100 + x % 16 * 16 + v % 16);
    if v == ((a * 16 + b) * 16 + c) * 16 + d {
      DivUnique(v, 16, (a * 16 + b) * 16 + c, d);
      DivUnique(x, 16, a * 16 + b, c);
      DivUnique(y, 16, a, b);
    }
  }

  lemma HexValueOfFour(h: seq<byte>)
    requires |h| == 4 && AllHex(h)
    ensures var a, b, c, d := HexDigit(h[0]), HexDigit(h[1]), HexDigit(h[2]), HexDigit(h[3]);
            a.Some? && b.Some? && c.Some? && d.Some?
            && HexValue(h) == ((a.value * 16 + b.value) * 16 + c.value) * 16 + d.value
  {
    assert h[0] in h && h[1] in h && h[2] in h && h[3] in h;
    var x, y, z := h[..3], h[..2], h[..1];
    assert x[..2] == y && y[..1] == z && z[..0] == [];
    assert HexValue(z) == HexDigit(h[0]).value;
    assert HexValue(y) == HexDigit(h[0]).value * 16 + HexDigit(h[1]).value;
  }

  /** Digits accepted are digits of the alphabet, and their value is the number they spell. */
  lemma HexIs(h: seq<byte>, v: nat)
    ensures HexOf(h, v) <==> |h| == 4 && AllHex(h) && HexValue(h) == v
  {
    hide HexDigit, HexValue, DigitOf;
    if |h| == 4 {
      DigitIs(h[0], v / 0x1000);
      DigitIs(h[1], v / 0x100 % 0x10);
      DigitIs(h[2], v / 0x10 % 0x10);
      DigitIs(h[3], v % 0x10);
      if HexOf(h, v) {
        assert forall c | c in h :: c == h[0] || c == h[1] || c == h[2] || c == h[3];
      }
      if AllHex(h) {
        HexValueOfFour(h);
        FourDigits(HexDigit(h[0]).value, HexDigit(h[1]).value, HexDigit(h[2]).value, HexDigit(h[3]).value, v);
      }
    }
  }

  // ---- pieces ----

  lemma SurrogatesOf(cp: scalar)
    requires cp >= 0x1_0000
    ensures High(HighOf(cp)) && Low(LowOf(cp)) && Combined(HighOf(cp), LowOf(cp)) == cp
  {
    assert IsScalar(cp);
  }

  lemma SurrogatesIn(hi: nat, lo: nat)
    requires High(hi) && Low(lo)
    ensures IsScalar(Combined(hi, lo)) && HighOf(Combined(hi, lo)) == hi && LowOf(Combined(hi, lo)) == lo
  {
  }

  lemma ShortIs(c: byte, b: byte)
    ensures (c, b) in SHORT <==> Unescaped(c) == Some(b)
  {
    if Unescaped(c) == Some(b) {
      var k := if c == 0x22 then 0 else if c == 0x5C then 1 else if c == 0x2F then 2 else if c == 0x62 then 3
               else if c == 0x66 then 4 else if c == 0x6E then 5 else if c == 0x72 then 6 else 7;
      assert SHORT[k] == (c, b);
    }
  }

  lemma PieceStands(p: Piece)
    requires PieceOk(p)
    ensures PieceText(p) != [] && Stands(PieceText(p), PieceValue(p))
  {
    hide HexValue, AllHex, EncodeScalar, HexOf, Combined, Unescaped;
    match p
    case Clean(b) =>
    case Short(c) => ShortIs(c, Unescaped(c).value);
    case Hex(h) =>
      HexValueBound(h);
      HexIs(h, HexValue(h));
      var cp: scalar := HexValue(h);
      assert PieceText(p)[2..] == h;
      assert Spells(PieceText(p), cp);
    case Pair(hi, lo) =>
      HexIs(hi, HexValue(hi));
      HexIs(lo, HexValue(lo));
      SurrogatesIn(HexValue(hi), HexValue(lo));
      var cp: scalar := Combined(HexValue(hi), HexValue(lo));
      var raw := PieceText(p);
      assert raw[..6][2..] == hi && raw[6..][2..] == lo;
      assert cp >= 0x1_0000;
      assert Spells(raw, cp);
  }

  lemma UnitBytes(raw: seq<byte>, v: nat) returns (h: seq<byte>)
    requires UnitOf(raw, v)
    ensures raw == [BACKSLASH, LETTER_U] + h && |h| == 4 && AllHex(h) && HexValue(h) == v
  {
    hide HexOf, AllHex, HexValue;
    h := raw[2..];
    HexIs(h, v);
  }

  lemma StandsForPiece(raw: seq<byte>, text: seq<byte>) returns (p: Piece)
    requires Stands(raw, text)
    ensures PieceOk(p) && PieceText(p) == raw && PieceValue(p) == text
  {
    hide HexValue, AllHex, EncodeScalar, HexOf, Combined, Unescaped, UnitOf;
    if |raw| == 1 && raw[0] >= 0x20 && raw[0] != 0x22 && raw[0] != 0x5C && text == raw {
      p := Clean(raw[0]);
    } else if |raw| == 2 && raw[0] == 0x5C && |text| == 1 && (raw[1], text[0]) in SHORT {
      ShortIs(raw[1], text[0]);
      p := Short(raw[1]);
    } else {
      var cp: scalar :| Spells(raw, cp) && text == EncodeScalar(cp);
      assert IsScalar(cp);
      if cp < 0x1_0000 {
        var h := UnitBytes(raw, cp);
        p := Hex(h);
      } else {
        SurrogatesOf(cp);
        var hi := UnitBytes(raw[..6], HighOf(cp));
        var lo := UnitBytes(raw[6..], LowOf(cp));
        p := Pair(hi, lo);
        assert raw == raw[..6] + raw[6..];
      }
    }
  }

  lemma NothingMeans()
    ensures Means([], [])
  {
  }

  lemma MeansStep(raw: seq<byte>, text: seq<byte>, n: nat, m: nat)
    requires 0 < n <= |raw| && m <= |text| && Stands(raw[..n], text[..m]) && Means(raw[n..], text[m..])
    ensures Means(raw, text)
  {
    hide Stands;
    assert MeansFrom(raw, text, n, m);
  }

  lemma {:induction false} PiecesMean(ps: seq<Piece>)
    requires PiecesOk(ps)
    ensures Means(PiecesText(ps), PiecesValue(ps))
    decreases |ps|
  {
    hide PieceOk, PieceText, PieceValue, Stands, Means;
    if ps == [] {
      NothingMeans();
    } else {
      PieceStands(ps[0]);
      PiecesMean(ps[1..]);
      var raw, text, n, m := PiecesText(ps), PiecesValue(ps), |PieceText(ps[0])|, |PieceValue(ps[0])|;
      assert raw[..n] == PieceText(ps[0]) && raw[n..] == PiecesText(ps[1..]);
      assert text[..m] == PieceValue(ps[0]) && text[m..] == PiecesValue(ps[1..]);
      MeansStep(raw, text, n, m);
    }
  }

  lemma {:induction false} PiecesOfMeaning(raw: seq<byte>, text: seq<byte>) returns (ps: seq<Piece>)
    requires Means(raw, text)
    ensures PiecesOk(ps) && PiecesText(ps) == raw && PiecesValue(ps) == text
    decreases |raw|
  {
    hide PieceOk, PieceText, PieceValue, Stands;
    if raw == [] {
      ps := [];
    } else {
      var n, m :| 0 < n <= |raw| && 0 <= m <= |text| && MeansFrom(raw, text, n, m);
      var p := StandsForPiece(raw[..n], text[..m]);
      var rest := PiecesOfMeaning(raw[n..], text[m..]);
      ps := [p] + rest;
      assert ps[1..] == rest && raw == raw[..n] + raw[n..] && text == text[..m] + text[m..];
    }
  }

  // ---- the laws ----

  /** parse_string accepts exactly the literals of RFC 8259 (with validation: in UTF-8), for the text they stand for. */
  lemma LiteralExact(validate: bool, input: seq<byte>, open: nat, text: seq<byte>, end: nat)
    requires open < |input| && input[open] == QUOTE
    ensures ParseString(validate, input, open) == String(text, end)
            <==> open + 2 <= end <= |input| && input[end - 1] == QUOTE && Means(input[open + 1..end - 1], text)
                 && (validate ==> WellFormed(input[open + 1..end - 1]))
  {
    hide Means, PiecesOk, PiecesText, PiecesValue, WellFormed, ParseString;
    StringExact(validate, input, open, text, end);
    if open + 2 <= end <= |input| {
      var raw := input[open + 1..end - 1];
      if ps :| PiecesOk(ps) && input[open + 1..end] == PiecesText(ps) + [QUOTE] && PiecesValue(ps) == text {
        var s := input[open + 1..end];
        assert s[|s| - 1] == QUOTE && s[..|s| - 1] == PiecesText(ps);
        assert raw == s[..|s| - 1];
        PiecesMean(ps);
      }
      if input[end - 1] == QUOTE && Means(raw, text) {
        var ps := PiecesOfMeaning(raw, text);
        assert input[open + 1..end] == raw + [QUOTE];
      }
    }
  }

  lemma MeansOne(raw: seq<byte>, text: seq<byte>)
    requires raw != [] && Stands(raw, text)
    ensures Means(raw, text)
  {
    hide Stands;
    assert raw[..|raw|] == raw && text[..|text|] == text && raw[|raw|..] == [] && text[|text|..] == [];
    assert MeansFrom(raw, text, |raw|, |text|);
  }

  /** Every spelling of every code point by \u escapes, a surrogate pair above 0xFFFF, is read as that character. */
  lemma EscapedScalar(validate: bool, cp: scalar, raw: seq<byte>)
    requires Spells(raw, cp)
    ensures ParseString(validate, [QUOTE] + raw + [QUOTE], 0) == String(EncodeScalar(cp), |raw| + 2)
  {
    hide Means, WellFormed, EncodeScalar, ParseString;
    var input := [QUOTE] + raw + [QUOTE];
    assert input[1..|raw| + 1] == raw && input[|raw| + 1] == QUOTE;
    assert Stands(raw, EncodeScalar(cp));
    MeansOne(raw, EncodeScalar(cp));
    var p := StandsForPiece(raw, EncodeScalar(cp));
    assert raw[0] == BACKSLASH;
    EscapePieceShape(p);
    AsciiWellFormed(raw);
    LiteralExact(validate, input, 0, EncodeScalar(cp), |raw| + 2);
  }

  lemma PairSpells(hi: seq<byte>, lo: seq<byte>, cp: scalar)
    requires cp >= 0x1_0000 && HexOf(hi, HighOf(cp)) && HexOf(lo, LowOf(cp))
    ensures Spells([0x5C, 0x75] + hi + ([0x5C, 0x75] + lo), cp)
  {
    hide DigitOf;
    var raw := [0x5C, 0x75] + hi + ([0x5C, 0x75] + lo);
    assert raw[..6][2..] == hi && raw[6..][2..] == lo;
  }

  lemma HexDigits4(h: seq<byte>, v: nat, a: nat, b: nat, c: nat, d: nat)
    requires |h| == 4 && DigitOf(h[0], a) && DigitOf(h[1], b) && DigitOf(h[2], c) && DigitOf(h[3], d)
    requires v == ((a * 16 + b) * 16 + c) * 16 + d
    ensures HexOf(h, v)
  {
    FourDigits(a, b, c, d, v);
  }

  lemma EmojiParts()
    ensures HexOf([0x44, 0x38, 0x33, 0x44], HighOf(0x1_F600)) && HexOf([0x64, 0x65, 0x30, 0x30], LowOf(0x1_F600))
    ensures EncodeScalar(0x1_F600) == [0xF0, 0x9F, 0x98, 0x80]
  {
    hide HexOf;
    HexDigits4([0x44, 0x38, 0x33, 0x44], HighOf(0x1_F600), 13, 8, 3, 13);
    HexDigits4([0x64, 0x65, 0x30, 0x30], LowOf(0x1_F600), 13, 14, 0, 0);
  }

  /** \uD83D\ude00 is U+1F600: F0 9F 98 80. */
  lemma EmojiRead()
    ensures var hi: seq<byte>, lo: seq<byte> := [0x44, 0x38, 0x33, 0x44], [0x64, 0x65, 0x30, 0x30];
            ParseString(true, [QUOTE] + ([0x5C, 0x75] + hi + ([0x5C, 0x75] + lo)) + [QUOTE], 0)
              == String([0xF0, 0x9F, 0x98, 0x80], 14)
  {
    hide ParseString, Spells, HexOf, EncodeScalar;
    var hi: seq<byte>, lo: seq<byte> := [0x44, 0x38, 0x33, 0x44], [0x64, 0x65, 0x30, 0x30];
    EmojiParts();
    PairSpells(hi, lo, 0x1_F600);
    EscapedScalar(true, 0x1_F600, [0x5C, 0x75] + hi + ([0x5C, 0x75] + lo));
  }

  // ---- what is written ----

  function WrittenAs(c: byte): seq<byte> {
    if NeedsEscape(c) then EscapeText(c) else [c]
  }

  /** write_string spells an ASCII character as shortly as the grammar allows; where that is a \u escape, in upper
      case. */
  lemma WrittenShortest(c: byte, raw: seq<byte>)
    requires c < 0x80 && Stands(raw, [c])
    ensures |WrittenAs(c)| <= |raw| && Stands(WrittenAs(c), [c])
    ensures |WrittenAs(c)| == 6 ==> WrittenAs(c) == [0x5C, 0x75, 0x30, 0x30, UPPER[c / 16], UPPER[c % 16]]
  {
    hide HexOf, EncodeScalar, HexValue, AllHex, Spells, Combined, Unescaped;
    EscapePieceIs(c);
    PieceStands(EscapePiece(c));
    var p := StandsForPiece(raw, [c]);
    ShortLength(p, c);
  }

  lemma ShortLength(p: Piece, c: byte)
    requires PieceOk(p) && PieceValue(p) == [c]
    ensures |WrittenAs(c)| <= |PieceText(p)|
  {
    hide HexOf, EncodeScalar, HexValue, AllHex, Combined;
  }
}
