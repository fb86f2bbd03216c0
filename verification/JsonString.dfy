/** JSON strings: escaping, parsing, and the grammar of section 7 of RFC 8259. */
module JsonString {
  import opened Bytes
  import opened Utf8

  const QUOTE: byte := 0x22
  const BACKSLASH: byte := 0x5C
  const LETTER_U: byte := 0x75

  datatype Errc =
    | UnexpectedToken | UnterminatedString | InvalidEscape | InvalidUtf8 | InvalidNumber
    | DepthExceeded | Truncated | OutOfRange | TrailingContent

  datatype Error = Error(code: Errc, offset: nat)

  // ---- escapes ----

  /** The byte a two-character escape stands for. */
  function Unescaped(c: byte): Option<byte> {
    if c == QUOTE || c == BACKSLASH || c == 0x2F then Some(c)
    else if c == 0x62 then Some(8)          // b
    else if c == 0x66 then Some(12)         // f
    else if c == 0x6E then Some(10)         // n
    else if c == 0x72 then Some(13)         // r
    else if c == 0x74 then Some(9)          // t
    else None
  }

  function HexDigit(c: byte): (d: Option<nat>)
    ensures d.Some? ==> d.value < 16
  {
    if 0x30 <= c <= 0x39 then Some(c - 0x30)
    else if 0x61 <= c <= 0x66 then Some(c - 0x61 + 10)
    else if 0x41 <= c <= 0x46 then Some(c - 0x41 + 10)
    else None
  }

  predicate AllHex(h: seq<byte>) {
    forall c | c in h :: HexDigit(c).Some?
  }

  function HexValue(h: seq<byte>): nat
    requires AllHex(h)
  {
    if h == [] then 0 else assert HexDigit(h[|h| - 1]).Some?; HexValue(h[..|h| - 1]) * 16 + HexDigit(h[|h| - 1]).value
  }

  lemma {:induction false} HexValueBound(h: seq<byte>)
    requires AllHex(h) && |h| == 4
    ensures HexValue(h) < 0x1_0000
  {
    var a, b, c := h[..3], h[..2], h[..1];
    assert h[..3][..2] == b && h[..2][..1] == c && c[..0] == [] && HexDigit(h[0]).Some? && HexDigit(h[1]).Some?
           && HexDigit(h[2]).Some?;
    assert HexValue(c) < 16;
    assert HexValue(b) < 256;
    assert HexValue(a) < 4096;
  }

  function Hex4(input: seq<byte>, at: nat): (r: Option<nat>)
    ensures r.Some? ==> at + 4 <= |input| && r.value < 0x1_0000
  {
    if at + 4 <= |input| && AllHex(input[at..at + 4]) then
      HexValueBound(input[at..at + 4]);
      Some(HexValue(input[at..at + 4]))
    else None
  }

  predicate High(u: int) {
    0xD800 <= u <= 0xDBFF
  }

  predicate Low(u: int) {
    0xDC00 <= u <= 0xDFFF
  }

  function Combined(hi: nat, lo: nat): (cp: nat)
    requires High(hi) && Low(lo)
    ensures 0x1_0000 <= cp < 0x11_0000
  {
    0x1_0000 + (hi - 0xD800) * 0x400 + (lo - 0xDC00)
  }

  // ---- parsing ----

  datatype PieceAt = BadPiece(error: Error) | EndQuote | PieceAt(value: seq<byte>, end: nat)

  /** One character or escape of the literal opened at `open`, or its closing quote. */
  function NextPiece(input: seq<byte>, open: nat, i: nat): (r: PieceAt)
    ensures r.PieceAt? ==> i < r.end <= |input|
    ensures r.EndQuote? ==> i < |input|
  {
    if i >= |input| then BadPiece(Error(UnterminatedString, open))
    else if input[i] == QUOTE then EndQuote
    else if input[i] < 0x20 then BadPiece(Error(UnexpectedToken, i))
    else if input[i] != BACKSLASH then PieceAt([input[i]], i + 1)
    else if i + 1 >= |input| then BadPiece(Error(UnterminatedString, open))
    else if input[i + 1] == LETTER_U then UnicodePiece(input, i)
    else
      match Unescaped(input[i + 1])
      case None => BadPiece(Error(InvalidEscape, i))
      case Some(c) => PieceAt([c], i + 2)
  }

  /** A \u escape at `i`, or the surrogate pair it begins. */
  function UnicodePiece(input: seq<byte>, i: nat): (r: PieceAt)
    requires i + 1 < |input|
    ensures r.PieceAt? ==> i < r.end <= |input|
    ensures !r.EndQuote?
  {
    match Hex4(input, i + 2)
    case None => BadPiece(Error(InvalidEscape, i))
    case Some(code) =>
      if High(code) then
        if i + 11 < |input| && input[i + 6] == BACKSLASH && input[i + 7] == LETTER_U then
          var lo := Hex4(input, i + 8);
          if lo.Some? && Low(lo.value) then PieceAt(EncodeScalar(Combined(code, lo.value)), i + 12)
          else BadPiece(Error(InvalidEscape, i))
        else BadPiece(Error(InvalidEscape, i))
      else if Low(code) then BadPiece(Error(InvalidEscape, i))
      else PieceAt(EncodeScalar(code), i + 6)
  }

  datatype StringResult = NoString(error: Error) | String(text: seq<byte>, end: nat)

  /** The rest of a literal, `done` being the text unescaped so far. */
  function ParseFrom(validate: bool, input: seq<byte>, open: nat, i: nat, done: seq<byte>): (r: StringResult)
    requires open < i <= |input|
    ensures r.String? ==> i < r.end <= |input|
    decreases |input| - i
  {
    match NextPiece(input, open, i)
    case BadPiece(e) => NoString(e)
    case EndQuote =>
      var raw := input[open + 1..i];
      if validate && !WellFormed(raw) then NoString(Error(InvalidUtf8, open + 1 + FirstBad(raw)))
         else String(done, i + 1)
    case PieceAt(v, end) => ParseFrom(validate, input, open, end, done + v)
  }

  /** parse_string, at an opening quote. */
  function ParseString(validate: bool, input: seq<byte>, open: nat): (r: StringResult)
    requires open < |input|
    ensures r.String? ==> open < r.end <= |input|
  {
    ParseFrom(validate, input, open, open + 1, [])
  }

  // ---- the grammar ----

  datatype Piece = Clean(b: byte) | Short(c: byte) | Hex(h: seq<byte>) | Pair(hi: seq<byte>, lo: seq<byte>)

  predicate PieceOk(p: Piece) {
    match p
    case Clean(b) => b >= 0x20 && b != QUOTE && b != BACKSLASH
    case Short(c) => Unescaped(c).Some?
    case Hex(h) => |h| == 4 && AllHex(h) && !High(HexValue(h)) && !Low(HexValue(h))
    case Pair(hi, lo) => |hi| == 4 && |lo| == 4 && AllHex(hi) && AllHex(lo) && High(HexValue(hi)) && Low(HexValue(lo))
  }

  function PieceText(p: Piece): seq<byte> {
    match p
    case Clean(b) => [b]
    case Short(c) => [BACKSLASH, c]
    case Hex(h) => [BACKSLASH, LETTER_U] + h
    case Pair(hi, lo) => [BACKSLASH, LETTER_U] + hi + ([BACKSLASH, LETTER_U] + lo)
  }

  function PieceValue(p: Piece): seq<byte>
    requires PieceOk(p)
  {
    match p
    case Clean(b) => [b]
    case Short(c) => [Unescaped(c).value]
    case Hex(h) => HexValueBound(h); EncodeScalar(HexValue(h))
    case Pair(hi, lo) => EncodeScalar(Combined(HexValue(hi), HexValue(lo)))
  }

  predicate PiecesOk(ps: seq<Piece>) {
    ps == [] || (PieceOk(ps[0]) && PiecesOk(ps[1..]))
  }

  function PiecesText(ps: seq<Piece>): seq<byte> {
    if ps == [] then [] else PieceText(ps[0]) + PiecesText(ps[1..])
  }

  function PiecesValue(ps: seq<Piece>): seq<byte>
    requires PiecesOk(ps)
  {
    if ps == [] then [] else PieceValue(ps[0]) + PiecesValue(ps[1..])
  }

  lemma HexAt(input: seq<byte>, at: nat, h: seq<byte>)
    requires At(input, at, h) && |h| == 4 && AllHex(h)
    ensures Hex4(input, at) == Some(HexValue(h))
  {
  }

  lemma EscapeAt(input: seq<byte>, i: nat, c: byte, rest: seq<byte>)
    requires At(input, i, [BACKSLASH, c] + rest)
    ensures i + 1 < |input| && input[i] == BACKSLASH && input[i + 1] == c && At(input, i + 2, rest)
  {
    AtConcat(input, i, [BACKSLASH, c], rest);
    assert input[i..i + 2][0] == input[i] && input[i..i + 2][1] == input[i + 1];
  }

  /** Every piece of the grammar is taken whole, for its value. */
  lemma PieceScanned(input: seq<byte>, open: nat, i: nat, p: Piece)
    requires PieceOk(p) && At(input, i, PieceText(p))
    ensures NextPiece(input, open, i) == PieceAt(PieceValue(p), i + |PieceText(p)|)
  {
    hide HexValue, AllHex, EncodeScalar, Hex4, At;
    match p
    case Clean(b) => FirstAt(input, i, [b]);
    case Short(c) =>
      assert [BACKSLASH, c] + [] == [BACKSLASH, c];
      EscapeAt(input, i, c, []);
    case Hex(h) =>
      EscapeAt(input, i, LETTER_U, h);
      HexAt(input, i + 2, h);
    case Pair(hi, lo) =>
      var rest := [BACKSLASH, LETTER_U] + lo;
      assert PieceText(p) == [BACKSLASH, LETTER_U] + (hi + rest);
      EscapeAt(input, i, LETTER_U, hi + rest);
      AtConcat(input, i + 2, hi, rest);
      EscapeAt(input, i + 6, LETTER_U, lo);
      HexAt(input, i + 2, hi);
      HexAt(input, i + 8, lo);
  }

  /** Whatever is taken is a piece of the grammar. */
  lemma PieceFound(input: seq<byte>, open: nat, i: nat) returns (p: Piece)
    requires NextPiece(input, open, i).PieceAt?
    ensures var r := NextPiece(input, open, i);
            PieceOk(p) && PieceText(p) == input[i..r.end] && PieceValue(p) == r.value
  {
    hide HexValue, AllHex, EncodeScalar;
    var r := NextPiece(input, open, i);
    if input[i] != BACKSLASH {
      p := Clean(input[i]);
    } else if input[i + 1] != LETTER_U {
      p := Short(input[i + 1]);
    } else if r.end == i + 6 {
      p := Hex(input[i + 2..i + 6]);
      assert input[i..i + 6] == input[i..i + 2] + input[i + 2..i + 6];
    } else {
      p := Pair(input[i + 2..i + 6], input[i + 8..i + 12]);
      assert input[i..i + 2] == [BACKSLASH, LETTER_U] && input[i + 6..i + 8] == [BACKSLASH, LETTER_U];
      assert input[i..i + 12] == input[i..i + 2] + input[i + 2..i + 6] + (input[i + 6..i + 8] + input[i + 8..i + 12]);
    }
  }

  lemma {:induction false} PiecesScanned(validate: bool, input: seq<byte>, open: nat, i: nat, done: seq<byte>,
                                         ps: seq<Piece>)
    requires PiecesOk(ps) && open < i && At(input, i, PiecesText(ps) + [QUOTE])
    requires validate ==> i + |PiecesText(ps)| <= |input| && WellFormed(input[open + 1..i + |PiecesText(ps)|])
    ensures i <= |input| && ParseFrom(validate, input, open, i, done)
            == String(done + PiecesValue(ps), i + |PiecesText(ps)| + 1)
    decreases |ps|
  {
    hide PieceOk, PieceText, PieceValue, WellFormed, NextPiece, At;
    if ps == [] {
      assert PiecesText(ps) + [QUOTE] == [QUOTE];
      FirstAt(input, i, [QUOTE]);
      QuoteIsEnd(input, open, i);
      assert done + [] == done;
    } else {
      var rest := PiecesText(ps[1..]) + [QUOTE];
      assert PiecesText(ps) + [QUOTE] == PieceText(ps[0]) + rest;
      AtConcat(input, i, PieceText(ps[0]), rest);
      PieceScanned(input, open, i, ps[0]);
      var v := PieceValue(ps[0]);
      PiecesScanned(validate, input, open, i + |PieceText(ps[0])|, done + v, ps[1..]);
      assert done + v + PiecesValue(ps[1..]) == done + (v + PiecesValue(ps[1..]));
    }
  }

  lemma QuoteIsEnd(input: seq<byte>, open: nat, i: nat)
    requires i < |input| && input[i] == QUOTE
    ensures NextPiece(input, open, i) == EndQuote
  {
  }

  lemma EndIsQuote(input: seq<byte>, open: nat, i: nat)
    requires NextPiece(input, open, i).EndQuote?
    ensures i < |input| && input[i] == QUOTE
  {
  }

  lemma {:induction false} PiecesFound(validate: bool, input: seq<byte>, open: nat, i: nat, done: seq<byte>)
    returns (ps: seq<Piece>)
    requires open < i <= |input| && ParseFrom(validate, input, open, i, done).String?
    ensures var r := ParseFrom(validate, input, open, i, done);
            && PiecesOk(ps) && input[i..r.end] == PiecesText(ps) + [QUOTE] && r.text == done + PiecesValue(ps)
            && (validate ==> WellFormed(input[open + 1..r.end - 1]))
    decreases |input| - i
  {
    hide PieceOk, PieceText, PieceValue, WellFormed, NextPiece;
    var r := ParseFrom(validate, input, open, i, done);
    var n := NextPiece(input, open, i);
    if n.EndQuote? {
      ps := [];
      EndIsQuote(input, open, i);
      assert done + [] == done;
    } else {
      var p := PieceFound(input, open, i);
      var rest := PiecesFound(validate, input, open, n.end, done + n.value);
      ps := [p] + rest;
      assert ps[1..] == rest;
      assert input[i..r.end] == input[i..n.end] + input[n.end..r.end];
      assert done + n.value + PiecesValue(rest) == done + (n.value + PiecesValue(rest));
    }
  }

  /** parse_string accepts exactly the literals of the grammar (with validation: in UTF-8), for the text they stand
      for. */
  lemma StringExact(validate: bool, input: seq<byte>, open: nat, text: seq<byte>, end: nat)
    requires open < |input| && input[open] == QUOTE
    ensures ParseString(validate, input, open) == String(text, end)
            <==> open + 2 <= end <= |input|
                 && (exists ps ::
                       PiecesOk(ps) && input[open + 1..end] == PiecesText(ps) + [QUOTE] && PiecesValue(ps) == text)
                 && (validate ==> WellFormed(input[open + 1..end - 1]))
  {
    hide PiecesOk, PiecesText, PiecesValue, ParseFrom, WellFormed;
    if ParseString(validate, input, open) == String(text, end) {
      var ps := PiecesFound(validate, input, open, open + 1, []);
      assert [] + PiecesValue(ps) == PiecesValue(ps);
    }
    if open + 2 <= end <= |input| && (validate ==> WellFormed(input[open + 1..end - 1])) {
      if ps :| PiecesOk(ps) && input[open + 1..end] == PiecesText(ps) + [QUOTE] && PiecesValue(ps) == text {
        PiecesScanned(validate, input, open, open + 1, [], ps);
        assert [] + PiecesValue(ps) == PiecesValue(ps);
      }
    }
  }

  // ---- unescaped text is UTF-8 ----

  lemma ScalarWellFormed(cp: scalar)
    ensures WellFormed(EncodeScalar(cp))
  {
    assert EncodeScalars([cp]) == EncodeScalar(cp) + EncodeScalars([]);
    ScalarsWellFormed([cp]);
  }

  lemma HexAscii()
    ensures forall h :: AllHex(h) ==> Ascii(h)
  {
    forall h, i | AllHex(h) && 0 <= i < |h|
      ensures h[i] < 0x80
    {
      assert h[i] in h;
    }
  }

  /** An escape: ASCII in the literal, a whole character in the text. */
  lemma EscapePieceShape(p: Piece)
    requires PieceOk(p) && !p.Clean?
    ensures WellFormed(PieceValue(p)) && |PieceText(p)| > 0 && PieceText(p)[0] == BACKSLASH
    ensures Ascii(PieceText(p))
  {
    hide WellFormed, EncodeScalar, HexValue;
    HexAscii();
    match p
    case Short(c) => AsciiWellFormed([Unescaped(c).value]);
    case Hex(h) =>
      HexValueBound(h);
      ScalarWellFormed(HexValue(h));
    case Pair(hi, lo) => ScalarWellFormed(Combined(HexValue(hi), HexValue(lo)));
  }

  /** If the literal is UTF-8, so is the text; `run` holds the bytes of an unfinished run. */
  lemma {:induction false} TextWellFormed(run: seq<byte>, ps: seq<Piece>)
    requires PiecesOk(ps) && WellFormed(run + PiecesText(ps))
    ensures WellFormed(run + PiecesValue(ps))
    decreases |ps|
  {
    hide WellFormed, PieceOk, PieceText, PieceValue;
    if ps == [] {
    } else if ps[0].Clean? {
      var b := ps[0].b;
      CleanPiece(b);
      assert run + PiecesText(ps) == run + [b] + PiecesText(ps[1..]);
      TextWellFormed(run + [b], ps[1..]);
      assert run + PiecesValue(ps) == run + [b] + PiecesValue(ps[1..]);
    } else {
      var raw, v, rest := PieceText(ps[0]), PieceValue(ps[0]), PiecesText(ps[1..]);
      EscapePieceShape(ps[0]);
      assert run + PiecesText(ps) == run + [raw[0]] + (raw[1..] + rest);
      AsciiSplit(run, raw[0], raw[1..] + rest);
      AsciiWellFormed(raw[1..]);
      WellFormedConcat(raw[1..], rest);
      assert [] + rest == rest && [] + PiecesValue(ps[1..]) == PiecesValue(ps[1..]);
      TextWellFormed([], ps[1..]);
      WellFormedConcat(v, PiecesValue(ps[1..]));
      WellFormedConcat(run, PiecesValue(ps));
    }
  }

  lemma CleanPiece(b: byte)
    ensures PieceText(Clean(b)) == [b]
    ensures PieceOk(Clean(b)) ==> PieceValue(Clean(b)) == [b]
  {
  }

  /** Only the raw literal is validated, yet the text of every accepted literal is UTF-8. */
  lemma ParsedTextWellFormed(input: seq<byte>, open: nat)
    requires open < |input| && ParseString(true, input, open).String?
    ensures WellFormed(ParseString(true, input, open).text)
  {
    hide WellFormed, PiecesOk, PiecesText, PiecesValue, ParseFrom;
    var r := ParseString(true, input, open);
    var ps := PiecesFound(true, input, open, open + 1, []);
    assert input[open + 1..r.end - 1] == input[open + 1..r.end][..r.end - 1 - (open + 1)] == PiecesText(ps);
    assert [] + PiecesText(ps) == PiecesText(ps);
    TextWellFormed([], ps);
  }

  // ---- writing ----

  predicate NeedsEscape(c: byte) {
    c < 0x20 || c == QUOTE || c == BACKSLASH
  }

  function HexUpper(d: nat): byte
    requires d < 16
  {
    if d < 10 then 0x30 + d else 0x41 + d - 10
  }

  /** put_escape. */
  function EscapeText(c: byte): seq<byte> {
    if c == QUOTE || c == BACKSLASH then [BACKSLASH, c]
    else if c == 8 then [BACKSLASH, 0x62]
    else if c == 12 then [BACKSLASH, 0x66]
    else if c == 10 then [BACKSLASH, 0x6E]
    else if c == 13 then [BACKSLASH, 0x72]
    else if c == 9 then [BACKSLASH, 0x74]
    else [BACKSLASH, LETTER_U, 0x30, 0x30, HexUpper(c / 16), HexUpper(c % 16)]
  }

  function Escaped(s: seq<byte>): seq<byte> {
    if s == [] then [] else (if NeedsEscape(s[0]) then EscapeText(s[0]) else [s[0]]) + Escaped(s[1..])
  }

  /** write_string, of a valid string. */
  function Quoted(s: seq<byte>): (r: seq<byte>)
    ensures |r| >= 2 && r[0] == QUOTE
  {
    [QUOTE] + (Escaped(s) + [QUOTE])
  }

  lemma {:induction false} EscapedConcat(a: seq<byte>, b: seq<byte>)
    ensures Escaped(a + b) == Escaped(a) + Escaped(b)
    decreases |a|
  {
    hide EscapeText;
    if a == [] {
      assert a + b == b;
    } else {
      assert (a + b)[1..] == a[1..] + b;
      EscapedConcat(a[1..], b);
    }
  }

  lemma {:induction false} CleanRun(s: seq<byte>)
    requires forall c | c in s :: !NeedsEscape(c)
    ensures Escaped(s) == s
    decreases |s|
  {
    if s != [] {
      assert s[0] in s;
      CleanRun(s[1..]);
    }
  }

  /** What is written up to `i`, when the clean run since `run` is still to be copied. */
  lemma RunExtends(s: seq<byte>, run: nat, i: nat)
    requires run <= i < |s| && forall k :: run <= k < i ==> !NeedsEscape(s[k])
    ensures Escaped(s[..i]) == Escaped(s[..run]) + s[run..i]
    ensures NeedsEscape(s[i]) ==> Escaped(s[..i + 1]) == Escaped(s[..run]) + s[run..i] + EscapeText(s[i])
  {
    hide EscapeText;
    assert s[..i] == s[..run] + s[run..i];
    EscapedConcat(s[..run], s[run..i]);
    CleanRun(s[run..i]);
    assert s[..i + 1] == s[..i] + [s[i]];
    EscapedConcat(s[..i], [s[i]]);
    assert [s[i]][1..] == [];
  }

  datatype WriteResult = Malformed(at: nat) | Written(out: seq<byte>)

  /** write_string: runs of clean bytes are copied in one go. */
  method WriteString(validate: bool, out: seq<byte>, s: seq<byte>) returns (r: WriteResult)
    ensures r == if validate && !WellFormed(s) then Malformed(FirstBad(s)) else Written(out + Quoted(s))
  {
    hide EscapeText, NeedsEscape, WellFormed, Escaped;
    if validate {
      var bad := ValidateUtf8(s);
      if bad.Some? {
        return Malformed(bad.value);
      }
    }
    var body: seq<byte> := [];
    var run := 0;
    NothingEscaped(s);
    for i := 0 to |s|
      invariant 0 <= run <= i && body == Escaped(s[..run])
      invariant forall k :: run <= k < i ==> !NeedsEscape(s[k])
    {
      if NeedsEscape(s[i]) {
        RunExtends(s, run, i);
        body := body + s[run..i] + EscapeText(s[i]);
        run := i + 1;
      }
    }
    LastRun(s, run);
    body := body + s[run..];
    r := Written(out + ([QUOTE] + (body + [QUOTE])));
  }

  lemma NothingEscaped(s: seq<byte>)
    ensures Escaped(s[..0]) == []
  {
  }

  lemma LastRun(s: seq<byte>, run: nat)
    requires run <= |s| && forall k :: run <= k < |s| ==> !NeedsEscape(s[k])
    ensures Escaped(s) == Escaped(s[..run]) + s[run..]
  {
    assert s == s[..run] + s[run..];
    EscapedConcat(s[..run], s[run..]);
    CleanRun(s[run..]);
  }

  // ---- parsing what was written ----

  /** The pieces of an escaped string. */
  function EscapePiece(c: byte): Piece {
    if !NeedsEscape(c) then Clean(c)
    else if c == QUOTE || c == BACKSLASH then Short(c)
    else if c == 8 then Short(0x62)
    else if c == 12 then Short(0x66)
    else if c == 10 then Short(0x6E)
    else if c == 13 then Short(0x72)
    else if c == 9 then Short(0x74)
    else Hex([0x30, 0x30, HexUpper(c / 16), HexUpper(c % 16)])
  }

  function EscapePieces(s: seq<byte>): seq<Piece> {
    if s == [] then [] else [EscapePiece(s[0])] + EscapePieces(s[1..])
  }

  lemma HexOfByte(c: byte)
    requires c < 0x20
    ensures var h := [0x30, 0x30, HexUpper(c / 16), HexUpper(c % 16)]; AllHex(h) && HexValue(h) == c
  {
    var h: seq<byte> := [0x30, 0x30, HexUpper(c / 16), HexUpper(c % 16)];
    assert h[..3] == [0x30, 0x30, HexUpper(c / 16)] && h[..3][..2] == [0x30, 0x30] && h[..3][..2][..1] == [0x30]
           && h[..3][..2][..1][..0] == [];
    assert HexValue([0x30]) == 0;
    assert HexValue([0x30, 0x30]) == 0;
    assert HexValue(h[..3]) == c / 16;
  }

  lemma EscapePieceIs(c: byte)
    ensures PieceOk(EscapePiece(c)) && PieceValue(EscapePiece(c)) == [c]
    ensures PieceText(EscapePiece(c)) == if NeedsEscape(c) then EscapeText(c) else [c]
  {
    hide HexValue;
    if c < 0x20 {
      HexOfByte(c);
    }
  }

  lemma {:induction false} EscapePiecesAre(s: seq<byte>)
    ensures PiecesOk(EscapePieces(s)) && PiecesText(EscapePieces(s)) == Escaped(s) && PiecesValue(EscapePieces(s)) == s
    decreases |s|
  {
    hide PieceOk, PieceText, PieceValue, EscapePiece, EscapeText;
    if s != [] {
      EscapePieceIs(s[0]);
      EscapePiecesAre(s[1..]);
      var ps := EscapePieces(s);
      assert ps[1..] == EscapePieces(s[1..]) && s == [s[0]] + s[1..];
    }
  }

  /** Escaping keeps UTF-8. */
  lemma {:induction false} EscapedWellFormed(run: seq<byte>, s: seq<byte>)
    requires WellFormed(run + s)
    ensures WellFormed(run + Escaped(s))
    decreases |s|
  {
    hide WellFormed, EscapeText;
    if s == [] {
    } else if !NeedsEscape(s[0]) {
      assert run + s == run + [s[0]] + s[1..];
      EscapedWellFormed(run + [s[0]], s[1..]);
      assert run + Escaped(s) == run + [s[0]] + Escaped(s[1..]);
    } else {
      assert run + s == run + [s[0]] + s[1..];
      AsciiSplit(run, s[0], s[1..]);
      assert [] + s[1..] == s[1..] && [] + Escaped(s[1..]) == Escaped(s[1..]);
      EscapedWellFormed([], s[1..]);
      EscapeAscii(s[0]);
      AsciiWellFormed(EscapeText(s[0]));
      WellFormedConcat(EscapeText(s[0]), Escaped(s[1..]));
      WellFormedConcat(run, Escaped(s));
    }
  }

  lemma EscapeAscii(c: byte)
    requires NeedsEscape(c)
    ensures Ascii(EscapeText(c))
  {
  }

  /** Parsing what write_string wrote gives the string back, in any surroundings. */
  lemma StringRoundTrip(validate: bool, input: seq<byte>, open: nat, s: seq<byte>)
    requires At(input, open, Quoted(s)) && (validate ==> WellFormed(s))
    ensures open < |input| && input[open] == QUOTE
            && ParseString(validate, input, open) == String(s, open + |Quoted(s)|)
  {
    hide WellFormed, Escaped, PiecesOk, PiecesText, PiecesValue, At;
    var ps := EscapePieces(s);
    EscapePiecesAre(s);
    AtConcat(input, open, [QUOTE], Escaped(s) + [QUOTE]);
    FirstAt(input, open, Quoted(s));
    AtConcat(input, open + 1, Escaped(s), [QUOTE]);
    if validate {
      assert [] + s == s && [] + Escaped(s) == Escaped(s);
      EscapedWellFormed([], s);
      SpanAt(input, open + 1, Escaped(s));
    }
    PiecesScanned(validate, input, open, open + 1, [], ps);
    assert [] + s == s;
  }

  // ---- the loops of the parser ----

  /** hex4. */
  method Hex4At(input: seq<byte>, at: nat) returns (r: Option<nat>)
    ensures r == Hex4(input, at)
  {
    if at + 4 > |input| {
      return None;
    }
    var v := 0;
    var h := input[at..at + 4];
    for k := 0 to 4
      invariant AllHex(h[..k]) && v == HexValue(h[..k])
    {
      var d := HexDigit(h[k]);
      if d.None? {
        assert h[k] in h;
        return None;
      }
      assert h[..k + 1][..k] == h[..k] && h[..k + 1][k] == h[k];
      v := v * 16 + d.value;
    }
    assert h[..4] == h;
    return Some(v);
  }

  /** The \u branch of parse_escaped_string. */
  method UnicodeEscape(input: seq<byte>, i: nat) returns (r: PieceAt)
    requires i + 1 < |input|
    ensures r == UnicodePiece(input, i)
  {
    hide Hex4;
    var cp := Hex4At(input, i + 2);
    if cp.None? {
      return BadPiece(Error(InvalidEscape, i));
    }
    var code, consumed := cp.value, 6;
    if High(code) {
      if i + 11 < |input| && input[i + 6] == BACKSLASH && input[i + 7] == LETTER_U {
        var lo := Hex4At(input, i + 8);
        if lo.Some? && Low(lo.value) {
          code, consumed := Combined(code, lo.value), 12;
        } else {
          return BadPiece(Error(InvalidEscape, i));
        }
      } else {
        return BadPiece(Error(InvalidEscape, i));
      }
    } else if Low(code) {
      return BadPiece(Error(InvalidEscape, i));
    }
    return PieceAt(EncodeScalar(code), i + consumed);
  }

  method CloseLiteral(validate: bool, input: seq<byte>, open: nat, i: nat, text: seq<byte>) returns (r: StringResult)
    requires open < i < |input| && input[i] == QUOTE
    ensures r == ParseFrom(validate, input, open, i, text)
  {
    hide WellFormed, FirstBad;
    if validate {
      var bad := ValidateUtf8(input[open + 1..i]);
      if bad.Some? {
        return NoString(Error(InvalidUtf8, open + 1 + bad.value));
      }
    }
    return String(text, i + 1);
  }

  lemma CleanByte(validate: bool, input: seq<byte>, open: nat, run: nat, i: nat, done: seq<byte>)
    requires open < run <= i < |input| && !NeedsEscape(input[i])
    ensures ParseFrom(validate, input, open, i, done + input[run..i])
            == ParseFrom(validate, input, open, i + 1, done + input[run..i + 1])
  {
    hide UnicodePiece;
    assert done + input[run..i] + [input[i]] == done + input[run..i + 1];
  }

  /** parse_escaped_string: clean runs are flushed into the scratch buffer before every escape. */
  method ParseEscaped(validate: bool, input: seq<byte>, open: nat, firstEscape: nat) returns (r: StringResult)
    requires open < firstEscape < |input|
    ensures r == ParseFrom(validate, input, open, firstEscape, input[open + 1..firstEscape])
  {
    hide WellFormed, UnicodePiece, ParseFrom;
    var scratch := input[open + 1..firstEscape];
    var i, run := firstEscape, firstEscape;
    ghost var goal := ParseFrom(validate, input, open, i, scratch);
    assert scratch + input[run..i] == scratch;
    while i < |input|
      invariant open < run <= i <= |input|
      invariant goal == ParseFrom(validate, input, open, i, scratch + input[run..i])
    {
      var c := input[i];
      if c == QUOTE {
        r := CloseLiteral(validate, input, open, i, scratch + input[run..i]);
        return;
      }
      if c < 0x20 {
        Stuck(validate, input, open, i, scratch + input[run..i]);
        return NoString(Error(UnexpectedToken, i));
      }
      if c != BACKSLASH {
        CleanByte(validate, input, open, run, i, scratch);
        i := i + 1;
        continue;
      }
      scratch := scratch + input[run..i];
      var piece;
      if i + 1 >= |input| {
        piece := BadPiece(Error(UnterminatedString, open));
      } else if input[i + 1] == LETTER_U {
        piece := UnicodeEscape(input, i);
      } else {
        var e := Unescaped(input[i + 1]);
        piece := if e.Some? then PieceAt([e.value], i + 2) else BadPiece(Error(InvalidEscape, i));
      }
      assert piece == NextPiece(input, open, i);
      EscapeTaken(validate, input, open, i, scratch);
      if piece.BadPiece? {
        return NoString(piece.error);
      }
      scratch, i, run := scratch + piece.value, piece.end, piece.end;
      assert scratch + input[run..i] == scratch;
    }
    Stuck(validate, input, open, i, scratch + input[run..i]);
    return NoString(Error(UnterminatedString, open));
  }

  lemma Stuck(validate: bool, input: seq<byte>, open: nat, i: nat, done: seq<byte>)
    requires open < i <= |input| && NextPiece(input, open, i).BadPiece?
    ensures ParseFrom(validate, input, open, i, done) == NoString(NextPiece(input, open, i).error)
  {
    hide NextPiece;
  }

  lemma EscapeTaken(validate: bool, input: seq<byte>, open: nat, i: nat, done: seq<byte>)
    requires open < i <= |input| && !NextPiece(input, open, i).EndQuote?
    ensures var p := NextPiece(input, open, i);
            ParseFrom(validate, input, open, i, done)
            == if p.BadPiece? then NoString(p.error) else ParseFrom(validate, input, open, p.end, done + p.value)
  {
    hide NextPiece;
  }

  /** parse_string: a literal without escapes is taken as it is; the first escape switches to the slow form. */
  method ParseStringAt(validate: bool, input: seq<byte>, open: nat) returns (r: StringResult)
    requires open < |input|
    ensures r == ParseString(validate, input, open)
  {
    hide WellFormed, UnicodePiece, ParseFrom;
    var i := open + 1;
    assert input[open + 1..i] == [];
    while i < |input|
      invariant open < i <= |input|
      invariant ParseString(validate, input, open) == ParseFrom(validate, input, open, i, input[open + 1..i])
    {
      var c := input[i];
      if c == QUOTE {
        r := CloseLiteral(validate, input, open, i, input[open + 1..i]);
        return;
      }
      if c == BACKSLASH {
        r := ParseEscaped(validate, input, open, i);
        return;
      }
      if c < 0x20 {
        Stuck(validate, input, open, i, input[open + 1..i]);
        return NoString(Error(UnexpectedToken, i));
      }
      CleanByte(validate, input, open, open + 1, i, []);
      assert [] + input[open + 1..i] == input[open + 1..i] && [] + input[open + 1..i + 1] == input[open + 1..i + 1];
      i := i + 1;
    }
    Stuck(validate, input, open, i, input[open + 1..i]);
    return NoString(Error(UnterminatedString, open));
  }
}
