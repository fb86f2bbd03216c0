/** Typed arrays (section 2 of RFC 8746): tags, byte orders, sign extension, range checks and float conversion. */
module TypedArrays {
  import opened Bytes
  import opened Utf8
  import opened Arith
  import opened Floats
  import opened Rounding

  // ---- tags ----

  /** An element type by width in bytes, signedness and whether it is a float. */
  datatype Elem = Elem(isFloat: bool, isSigned: bool, size: nat)

  predicate IsElem(e: Elem) {
    if e.isFloat then !e.isSigned && (e.size == 4 || e.size == 8)
       else e.size == 1 || e.size == 2 || e.size == 4 || e.size == 8
  }

  /** typed_array_tag, on a machine of either byte order. */
  function TagOf(e: Elem, little: bool): nat
    requires IsElem(e)
  {
    if e.isFloat then if e.size == 4 then (if little then 85 else 81) else if little then 86 else 82
    else if e.isSigned then
      if e.size == 1 then 72 else if e.size == 2 then (if little then 77 else 73)
         else if e.size == 4 then (if little then 78 else 74)
      else if little then 79 else 75
    else if e.size == 1 then 64 else if e.size == 2 then (if little then 69 else 65)
         else if e.size == 4 then (if little then 70 else 66)
    else if little then 71 else 67
  }

  predicate IsTag(tag: nat) {
    64 <= tag <= 87 && tag != 76
  }

  function PowerOfTwo(code: nat): nat {
    if code == 0 then 1 else if code == 1 then 2 else if code == 2 then 4 else 8
  }

  /** The arithmetic of typed_array_into on a tag: float from 80 on, bit 2 for the byte order, two bits for the width.
      */
  function Described(tag: nat): (Elem, bool)
    requires IsTag(tag)
  {
    var isFloat := tag >= 80;
    var little := if isFloat then tag >= 84 else tag / 4 % 2 == 1;
    var code := if isFloat then tag - (if little then 84 else 80) else tag % 4;
    var size := if isFloat then 2 * PowerOfTwo(code) else PowerOfTwo(code);
    (Elem(isFloat, !isFloat && tag >= 72, size), little)
  }

  /** A tag gives back width, kind and signedness, and the byte order wherever there is one. */
  lemma TagDescribes(e: Elem, little: bool)
    requires IsElem(e)
    ensures IsTag(TagOf(e, little))
    ensures var (d, l) := Described(TagOf(e, little)); d == e && (e.size > 1 ==> l == little)
  {
  }

  /** Tags of different element types differ, and so do the two byte orders of one. */
  lemma TagsDistinct(e: Elem, l: bool, e': Elem, l': bool)
    requires IsElem(e) && IsElem(e') && TagOf(e, l) == TagOf(e', l')
    ensures e == e' && (e.size > 1 ==> l == l')
  {
    TagDescribes(e, l);
    TagDescribes(e', l');
  }

  // ---- words ----

  function Le(n: nat, v: nat): (r: seq<byte>)
    ensures |r| == n
  {
    if n == 0 then [] else [v % 256] + Le(n - 1, v / 256)
  }

  function FromLe(s: seq<byte>): (v: nat)
    ensures v < Pow256(|s|)
  {
    if s == [] then 0 else s[0] + 256 * FromLe(s[1..])
  }

  lemma {:induction false} FromLeOfLe(n: nat, v: nat)
    requires v < Pow256(n)
    ensures FromLe(Le(n, v)) == v
  {
    if n > 0 {
      FromLeOfLe(n - 1, v / 256);
      assert Le(n, v)[1..] == Le(n - 1, v / 256);
    }
  }

  function Word(little: bool, s: seq<byte>): (w: nat)
    ensures w < Pow256(|s|)
  {
    if little then FromLe(s) else FromBe(s)
  }

  function WordBytes(little: bool, n: nat, v: nat): (r: seq<byte>)
    ensures |r| == n
  {
    if little then Le(n, v) else Be(n, v)
  }

  lemma WordRoundTrip(little: bool, n: nat, v: nat)
    requires v < Pow256(n)
    ensures Word(little, WordBytes(little, n, v)) == v
  {
    if little {
      FromLeOfLe(n, v);
    } else {
      FromBeOfBe(n, v);
    }
  }

  lemma {:induction false} LeSnoc(s: seq<byte>, b: byte)
    ensures FromLe(s + [b]) == FromLe(s) + b * Pow256(|s|)
    decreases |s|
  {
    if s == [] {
      assert ([] + [b])[1..] == [] && FromLe([b]) == b;
    } else {
      LeSnoc(s[1..], b);
      assert (s + [b])[1..] == s[1..] + [b];
      Scale(b, Pow256(|s| - 1));
    }
  }

  lemma Scale(b: int, p: int)
    ensures 256 * (b * p) == b * (256 * p)
  {
  }

  lemma BeShift(s: seq<byte>, b: byte, k: nat)
    ensures FromBe(s + [b]) * Pow256(k) == FromBe(s) * Pow256(k + 1) + b * Pow256(k)
  {
    hide FromBe, Pow256;
    FromBeSnoc(s, b);
    PowNext(k);
    var x, p := FromBe(s), Pow256(k);
    assert (x * 256 + b) * p == x * (256 * p) + b * p;
  }

  lemma PowNext(k: nat)
    ensures Pow256(k + 1) == 256 * Pow256(k)
  {
  }

  /** read_word: byte by byte into place. */
  method ReadWord(s: seq<byte>, little: bool) returns (w: nat)
    ensures w == Word(little, s)
  {
    hide FromLe, FromBe, Pow256;
    w := 0;
    var n := |s|;
    NoWord();
    assert s[..0] == [];
    for b := 0 to n
      invariant w == if little then FromLe(s[..b]) else FromBe(s[..b]) * Pow256(n - b)
    {
      assert s[..b + 1] == s[..b] + [s[b]];
      LeSnoc(s[..b], s[b]);
      BeShift(s[..b], s[b], n - b - 1);
      w := w + s[b] * Pow256(if little then b else n - 1 - b);
    }
    assert s[..n] == s;
    assert Pow256(0) == 1 by { Pow256Values(); }
  }

  lemma NoWord()
    ensures FromLe([]) == 0 && FromBe([]) == 0
  {
  }

  // ---- two's complement ----

  /** The number an `n`-byte word stands for, as a signed integer. */
  function Signed(n: nat, w: nat): int {
    if 2 * w >= Pow256(n) then w - Pow256(n) else w
  }

  function Unsigned(n: nat, v: int): int {
    if v < 0 then v + Pow256(n) else v
  }

  predicate Fits(e: Elem, v: int) {
    if e.isSigned then 0 - Pow256(e.size) <= 2 * v < Pow256(e.size) else 0 <= v < Pow256(e.size)
  }

  lemma SignedRoundTrip(e: Elem, v: int)
    requires Fits(e, v)
    ensures 0 <= Unsigned(e.size, v) < Pow256(e.size)
    ensures (if e.isSigned then Signed(e.size, Unsigned(e.size, v)) else Unsigned(e.size, v)) == v
  {
  }

  /** Bitwise or. */
  function Or(a: nat, b: nat): nat
    decreases a + b
  {
    if a == 0 then b else if b == 0 then a else Or(a / 2, b / 2) * 2 + (if a % 2 == 1 || b % 2 == 1 then 1 else 0)
  }

  /** Bits that do not meet are added. */
  lemma {:induction false} OrDisjoint(a: nat, b: nat, k: nat)
    requires a < Pow2(k) && b % Pow2(k) == 0
    ensures Or(a, b) == a + b
    decreases k
  {
    if a > 0 && b > 0 {
      Halves(b, k);
      OrDisjoint(a / 2, b / 2, k - 1);
    }
  }

  lemma Halves(b: nat, k: nat)
    requires k > 0 && b % Pow2(k) == 0
    ensures b % 2 == 0 && b / 2 % Pow2(k - 1) == 0
  {
    DivMod(b, Pow2(k));
    var q, p := b / Pow2(k), Pow2(k - 1);
    assert b == 2 * (q * p);
    MulDiv(q, p);
  }

  /** The bits above an `n`-byte word: the complement of a shifted sign bit less one, all in 64 bits. At eight bytes
      the shift wraps to zero. */
  function HighBits(n: nat): nat
    requires n > 0
  {
    var signBit := Pow256(n) / 2;
    var shifted := signBit * 2 % TWO64;
    TWO64 - 1 - (shifted + TWO64 - 1) % TWO64
  }

  /** The sign extension of the source, in 64 bits: fill with ones above the word, then reinterpret. */
  function SignExtended(n: nat, w: nat): int
    requires n > 0
  {
    var filled := if w / (Pow256(n) / 2) % 2 == 1 then Or(w, HighBits(n)) else w;
    if filled >= TWO63 then filled - TWO64 else filled
  }

  lemma HighBitsAre(n: nat)
    requires n == 1 || n == 2 || n == 4 || n == 8
    ensures HighBits(n) == TWO64 - Pow256(n)
  {
    hide Pow256;
    Pow256Values();
  }

  lemma HighBitsDisjoint(n: nat, w: nat)
    requires (n == 1 || n == 2 || n == 4 || n == 8) && w < Pow256(n)
    ensures Or(w, HighBits(n)) == w + HighBits(n)
  {
    hide Pow256, Pow2, Or;
    HighBitsAre(n);
    Pow256Values();
    ByteWeights();
    OrDisjoint(w, HighBits(n), 8 * n);
  }

  lemma ByteWeights()
    ensures Pow2(8) == 0x100 && Pow2(16) == 0x1_0000 && Pow2(32) == 0x1_0000_0000 && Pow2(64) == TWO64
  {
    assert Pow2(4) == 16;
    Pow2Add(4, 4);
    Pow2Add(8, 8);
    Pow2Add(16, 16);
    Pow2Add(32, 32);
  }

  /** Sign extension is two's complement, at every width. */
  lemma SignExtensionExact(n: nat, w: nat)
    requires (n == 1 || n == 2 || n == 4 || n == 8) && w < Pow256(n)
    ensures SignExtended(n, w) == Signed(n, w)
  {
    hide Pow256, Or, HighBits;
    HighBitsAre(n);
    HighBitsDisjoint(n, w);
    Pow256Values();
    var half := Pow256(n) / 2;
    if 2 * w >= Pow256(n) {
      DivUnique(w, half, 1, w - half);
    } else {
      DivUnique(w, half, 0, w);
    }
  }

  // ---- elements ----

  /** An element: an integer, or the value of a float. */
  datatype Cell = Whole(i: int) | Real(d: Double)

  function FormatFor(size: nat): Format {
    if size == 2 then HALF else if size == 4 then SINGLE else DOUBLE
  }

  /** A value an element of this type holds; NaN has many patterns and is left to the reader. */
  predicate Storable(e: Elem, c: Cell) {
    if e.isFloat then c.Real? && !c.d.NaN? && Pattern(FormatFor(e.size), c.d).Some? else c.Whole? && Fits(e, c.i)
  }

  /** The bits of an element in memory. */
  function BitsOf(e: Elem, c: Cell): nat
    requires Storable(e, c)
  {
    if e.isFloat then Pattern(FormatFor(e.size), c.d).value
    else
      SignedRoundTrip(e, c.i);
      Unsigned(e.size, c.i)
  }

  /** The element a word stands for. */
  function CellOf(e: Elem, w: nat): Cell {
    if e.isFloat then Real(Value(FormatFor(e.size), w)) else if e.isSigned then Whole(Signed(e.size, w)) else Whole(w)
  }

  lemma FloatWidths(e: Elem)
    requires e.isFloat && (e.size == 2 || e.size == 4 || e.size == 8)
    ensures 2 * Patterns(FormatFor(e.size)) == Pow256(e.size)
  {
    hide Pow256, Patterns;
    FormWidths();
    Pow256Values();
  }

  lemma BitsRoundTrip(e: Elem, c: Cell)
    requires IsElem(e) && Storable(e, c)
    ensures BitsOf(e, c) < Pow256(e.size) && CellOf(e, BitsOf(e, c)) == c
  {
    hide Pow256, Value, Pattern;
    if e.isFloat {
      FloatWidths(e);
      PatternValue(FormatFor(e.size), c.d);
    } else {
      SignedRoundTrip(e, c.i);
    }
  }

  // ---- arrays ----

  function Cells(e: Elem, little: bool, s: seq<byte>): (r: seq<Cell>)
    requires e.size > 0
    ensures |r| == |s| / e.size
    decreases |s|
  {
    if |s| < e.size then []
    else
      Chop(|s|, e.size);
      [CellOf(e, Word(little, s[..e.size]))] + Cells(e, little, s[e.size..])
  }

  lemma Chop(n: nat, d: nat)
    requires 0 < d <= n
    ensures n / d == (n - d) / d + 1 && n % d == (n - d) % d
  {
    DivMod(n - d, d);
    var q, r := (n - d) / d, (n - d) % d;
    assert n == (q + 1) * d + r;
    DivUnique(n, d, q + 1, r);
  }

  predicate AllStorable(e: Elem, vs: seq<Cell>) {
    forall i :: 0 <= i < |vs| ==> Storable(e, vs[i])
  }

  /** memcpy out of a machine's memory: each element in its byte order, one after the other. */
  function Memory(e: Elem, little: bool, vs: seq<Cell>): seq<byte>
    requires AllStorable(e, vs)
  {
    if vs == [] then [] else WordBytes(little, e.size, BitsOf(e, vs[0])) + Memory(e, little, vs[1..])
  }

  /** Writing elements and reading them as an array of the same description gives them back. */
  lemma {:induction false} CellsOfMemory(e: Elem, little: bool, vs: seq<Cell>)
    requires IsElem(e) && AllStorable(e, vs)
    ensures Cells(e, little, Memory(e, little, vs)) == vs && |Memory(e, little, vs)| % e.size == 0
    decreases |vs|
  {
    hide BitsOf, CellOf, WordBytes, Word, Storable;
    if vs != [] {
      BitsRoundTrip(e, vs[0]);
      var w := BitsOf(e, vs[0]);
      var head, rest := WordBytes(little, e.size, w), Memory(e, little, vs[1..]);
      WordRoundTrip(little, e.size, w);
      var m := Memory(e, little, vs);
      assert m[..e.size] == head && m[e.size..] == rest;
      CellsOfMemory(e, little, vs[1..]);
      Chop(|m|, e.size);
      assert vs == [vs[0]] + vs[1..];
    }
  }

  // ---- conversion into the target's type ----

  datatype ReadErrc = MalformedItem | TypeMismatch | OutOfRange

  datatype Converted = Bad(code: ReadErrc) | Good(cell: Cell)

  /** An integer as a float: exact where it can be, else rounded to nearest, ties to even. */
  function IntToFloat(f: Format, i: int): Double
    requires f.emax > 1
  {
    Cast(f, Fin(i < 0, (if i < 0 then -i else i) * Pow2(1074)))
  }

  /** static_cast into an element of type `e`, after the checks. */
  function Convert(e: Elem, c: Cell): Converted {
    match c
    case Whole(i) =>
      if e.isFloat then Good(Real(IntToFloat(FormatFor(e.size), i))) else if Fits(e, i) then Good(c)
         else Bad(OutOfRange)
    case Real(d) =>
      if !e.isFloat then Bad(TypeMismatch) else Good(Real(if e.size == 4 then Cast(SINGLE, d) else d))
  }

  datatype ReadArray = Refused(code: ReadErrc) | Elements(values: seq<Cell>)

  /** Element by element, up to the first that does not convert. */
  function ConvertAll(e: Elem, cs: seq<Cell>): ReadArray {
    if cs == [] then Elements([])
    else
      match Convert(e, cs[0])
      case Bad(code) => Refused(code)
      case Good(c) =>
        match ConvertAll(e, cs[1..])
        case Refused(code) => Refused(code)
        case Elements(vs) => Elements([c] + vs)
  }

  /** A cell an array of `d` may hold after reading: any value of the type, NaN included. */
  predicate Held(d: Elem, c: Cell) {
    if d.isFloat then c.Real? && (!c.d.NaN? ==> Pattern(FormatFor(d.size), c.d).Some?) else c.Whole? && Fits(d, c.i)
  }

  lemma WordHeld(d: Elem, w: nat)
    requires w < Pow256(d.size) && (if d.isFloat then d.size == 2 || d.size == 4 || d.size == 8 else IsElem(d))
    ensures Held(d, CellOf(d, w))
  {
    hide Pow256, Value, Pattern;
    if d.isFloat {
      FloatWidths(d);
      if !Value(FormatFor(d.size), w).NaN? {
        PatternOfValue(FormatFor(d.size), w);
      }
    }
  }

  /** A half is a single. */
  lemma HalfIsSingle(mag: nat)
    requires Fields(HALF, mag).Some?
    ensures Fields(SINGLE, mag).Some?
  {
    hide Pow2, Log2, Fields;
    FieldsIsGrid(HALF, mag);
    FieldsIsGrid(SINGLE, mag);
    if mag >= Pow2(948) && mag < Pow2(1060) && Log2(mag) >= 1060 {
      Pow2Monotone(1060, Log2(mag));
    }
    UlpFloor(SINGLE, mag);
    if mag >= Pow2(1060) {
      Pow2Monotone(948, 1060);
    }
    Pow2Divides(mag, UlpBits(SINGLE, mag), UlpBits(HALF, mag));
    Pow2Monotone(10 + 30 + 1050, 23 + 254 + 925);
  }

  /** Values of a float type are kept in a float type that is as wide or wider. */
  lemma WidenKeeps(d: Elem, e: Elem, c: Cell)
    requires IsElem(e) && e.isFloat && d.isFloat && (d.size == 2 || d.size == 4 || d.size == 8) && d.size <= e.size
             && Held(d, c)
    ensures Convert(e, c) == Good(c)
  {
    hide Pow2, Log2, Fields, RoundTo, Pattern;
    if e.size == 4 && !c.d.NaN? {
      PatternIsFields(FormatFor(d.size), c.d);
      PatternIsFields(SINGLE, c.d);
      if d.size == 2 && c.d.Fin? {
        HalfIsSingle(c.d.mag);
      }
      CastExact(SINGLE, c.d);
    }
  }

  lemma PatternIsFields(f: Format, d: Double)
    requires !d.NaN?
    ensures Pattern(f, d).Some? <==> d.Inf? || Fields(f, d.mag).Some?
  {
  }

  /** Elements of the target's own type need no conversion. */
  lemma OwnKeeps(e: Elem, c: Cell)
    requires IsElem(e) && Held(e, c)
    ensures Convert(e, c) == Good(c)
  {
    if e.isFloat {
      WidenKeeps(e, e, c);
    }
  }

  predicate AllKept(e: Elem, cs: seq<Cell>) {
    forall i :: 0 <= i < |cs| ==> Convert(e, cs[i]) == Good(cs[i])
  }

  lemma {:induction false} KeptAll(e: Elem, cs: seq<Cell>)
    requires AllKept(e, cs)
    ensures ConvertAll(e, cs) == Elements(cs)
    decreases |cs|
  {
    hide Convert;
    if cs != [] {
      KeptAll(e, cs[1..]);
      assert cs == [cs[0]] + cs[1..];
    }
  }

  lemma {:induction false} CellsHeld(d: Elem, little: bool, s: seq<byte>)
    requires if d.isFloat then d.size == 2 || d.size == 4 || d.size == 8 else IsElem(d)
    ensures forall i :: 0 <= i < |Cells(d, little, s)| ==> Held(d, Cells(d, little, s)[i])
    decreases |s|
  {
    hide Held, CellOf, Word;
    if |s| >= d.size {
      WordHeld(d, Word(little, s[..d.size]));
      CellsHeld(d, little, s[d.size..]);
    }
  }

  /** Whatever a machine's memory holds is what the conversion of its words gives: the copy needs no check. */
  lemma CopyIsConversion(e: Elem, little: bool, s: seq<byte>)
    requires IsElem(e)
    ensures ConvertAll(e, Cells(e, little, s)) == Elements(Cells(e, little, s))
  {
    hide Held, Convert, Cells;
    var cs := Cells(e, little, s);
    CellsHeld(e, little, s);
    forall i | 0 <= i < |cs|
      ensures Convert(e, cs[i]) == Good(cs[i])
    {
      OwnKeeps(e, cs[i]);
    }
    KeptAll(e, cs);
  }

  /** Arrays of halves and singles keep every value in a wider float target. */
  lemma WiderTargetKeeps(d: Elem, e: Elem, little: bool, s: seq<byte>)
    requires IsElem(e) && e.isFloat && d.isFloat && (d.size == 2 || d.size == 4 || d.size == 8) && d.size <= e.size
    ensures ConvertAll(e, Cells(d, little, s)) == Elements(Cells(d, little, s))
  {
    hide Held, Convert, Cells;
    var cs := Cells(d, little, s);
    CellsHeld(d, little, s);
    forall i | 0 <= i < |cs|
      ensures Convert(e, cs[i]) == Good(cs[i])
    {
      WidenKeeps(d, e, cs[i]);
    }
    KeptAll(e, cs);
  }

  /** An integer within the mantissa of a float type is kept exactly. */
  lemma SmallIntsKept(f: Format, i: int)
    requires (f == SINGLE || f == DOUBLE) && -(Pow2(f.mbits + 1) as int) < i < Pow2(f.mbits + 1)
    ensures IntToFloat(f, i) == Fin(i < 0, (if i < 0 then -i else i) * Pow2(1074))
  {
    hide Pow2, RoundTo;
    SmallMagKept(f, if i < 0 then -i else i);
  }

  lemma SmallMagKept(f: Format, n: nat)
    requires (f == SINGLE || f == DOUBLE) && n < Pow2(f.mbits + 1)
    ensures RoundTo(f, n * Pow2(1074)) == Some(n * Pow2(1074))
  {
    hide Pow2, Log2, RoundTo, Fields, UlpBits, Limit;
    var unit := Pow2(1074);
    MulDiv(n, unit);
    SmallMagBound(f, n, unit);
    var mag: nat := n * unit;
    UlpWithin(f, mag);
    Pow2Divides(mag, UlpBits(f, mag), 1074);
    FieldsIsGrid(f, mag);
    RoundToExact(f, mag);
  }

  lemma SmallMagBound(f: Format, n: nat, unit: nat)
    requires n < Pow2(f.mbits + 1) && unit == Pow2(1074)
    ensures n * unit < Pow2(f.mbits + 1 + 1074)
  {
    hide Pow2;
    Pow2Add(f.mbits + 1, 1074);
    MulMonotone(n + 1, Pow2(f.mbits + 1), unit);
    Distribute(n, 1, unit);
  }

  lemma UlpWithin(f: Format, mag: nat)
    requires (f == SINGLE || f == DOUBLE) && mag < Pow2(f.mbits + 1 + 1074)
    ensures 0 <= UlpBits(f, mag) <= 1074 && mag < Limit(f)
  {
    hide Pow2, Log2;
    UlpFloor(f, mag);
    if UlpBits(f, mag) > 1074 {
      Pow2Monotone(f.mbits + 1 + 1074, f.mbits + UlpBits(f, mag));
    }
    Pow2Monotone(f.mbits + 1 + 1074, f.mbits + (f.emax - 1 + f.shift));
  }

  // ---- reading into a target ----

  /** What an array under `tag` means to a target of type `e`, of any length or of a fixed one. */
  function Meaning(tag: nat, s: seq<byte>, e: Elem, fixed: Option<nat>): ReadArray
    requires IsTag(tag) && IsElem(e)
  {
    var (d, little) := Described(tag);
    if d.size == 16 then Refused(TypeMismatch)
    else if |s| % d.size != 0 then Refused(MalformedItem)
    else if fixed.Some? && fixed.value != |s| / d.size then Refused(TypeMismatch)
    else ConvertAll(e, Cells(d, little, s))
  }

  lemma Sizes(tag: nat)
    requires IsTag(tag)
    ensures var (d, _) := Described(tag);
            if d.isFloat then d.size == 2 || d.size == 4 || d.size == 8 || d.size == 16 else IsElem(d)
  {
  }

  /** typed_array_into on a machine of byte order `native`: a copy when the representation is the machine's own,
      else word by word with conversions. */
  method ReadInto(tag: nat, s: seq<byte>, e: Elem, fixed: Option<nat>, native: bool) returns (r: ReadArray)
    requires IsTag(tag) && IsElem(e)
    ensures r == Meaning(tag, s, e, fixed)
  {
    hide Cells, Described, ConvertAll;
    Sizes(tag);
    var (d, little) := Described(tag);
    if d.size == 16 {
      return Refused(TypeMismatch);
    }
    if |s| % d.size != 0 {
      return Refused(MalformedItem);
    }
    if fixed.Some? && fixed.value != |s| / d.size {
      return Refused(TypeMismatch);
    }
    if d == e && little == native {
      CopyIsConversion(e, native, s);
      return Elements(Cells(e, native, s));
    }
    r := WordByWord(d, little, s, e);
  }

  /** The element of a word, as the source computes it. */
  method ReadCell(d: Elem, little: bool, s: seq<byte>) returns (c: Cell)
    requires |s| == d.size && (if d.isFloat then d.size == 2 || d.size == 4 || d.size == 8 else IsElem(d))
    ensures c == CellOf(d, Word(little, s))
  {
    hide Word, Pow256, Value, SignExtended, Signed;
    var w := ReadWord(s, little);
    if d.isFloat {
      if d.size == 2 {
        Pow256Values();
        FromHalfValue(w);
        return Real(FromHalf(w));
      }
      return Real(Value(FormatFor(d.size), w));
    }
    if d.isSigned {
      SignExtensionExact(d.size, w);
      return Whole(SignExtended(d.size, w));
    }
    return Whole(w);
  }

  /** The loop over words. */
  method WordByWord(d: Elem, little: bool, s: seq<byte>, e: Elem) returns (r: ReadArray)
    requires (if d.isFloat then d.size == 2 || d.size == 4 || d.size == 8 else IsElem(d)) && |s| % d.size == 0
    ensures r == ConvertAll(e, Cells(d, little, s))
  {
    hide Cells, CellOf, Convert, ConvertAll;
    var out: seq<Cell> := [];
    var i := 0;
    assert s[0..] == s;
    NothingDone(ConvertAll(e, Cells(d, little, s)));
    while i < |s|
      invariant 0 <= i <= |s| && (|s| - i) % d.size == 0
      invariant ConvertAll(e, Cells(d, little, s)) == After(out, ConvertAll(e, Cells(d, little, s[i..])))
    {
      NextCell(d, little, s, i, e, out);
      var c := ReadCell(d, little, s[i..i + d.size]);
      var v := Convert(e, c);
      if v.Bad? {
        return Refused(v.code);
      }
      out := out + [v.cell];
      i := i + d.size;
    }
    NoCells(d, little, e, s[i..]);
    return Elements(out);
  }

  /** What was converted before, in front of the rest. */
  function After(out: seq<Cell>, r: ReadArray): ReadArray {
    if r.Refused? then r else Elements(out + r.values)
  }

  lemma NothingDone(r: ReadArray)
    ensures After([], r) == r
  {
  }

  lemma NoCells(d: Elem, little: bool, e: Elem, s: seq<byte>)
    requires d.size > 0 && s == []
    ensures ConvertAll(e, Cells(d, little, s)) == Elements([])
    ensures forall out :: After(out, Elements([])) == Elements(out)
  {
    forall out: seq<Cell>
      ensures After(out, Elements([])) == Elements(out)
    {
      assert out + [] == out;
    }
  }

  lemma NextCell(d: Elem, little: bool, s: seq<byte>, i: nat, e: Elem, out: seq<Cell>)
    requires d.size > 0 && i < |s| && (|s| - i) % d.size == 0
    ensures i + d.size <= |s| && (|s| - i - d.size) % d.size == 0
    ensures var v := Convert(e, CellOf(d, Word(little, s[i..i + d.size])));
            After(out, ConvertAll(e, Cells(d, little, s[i..])))
            == if v.Bad? then Refused(v.code)
              else After(out + [v.cell], ConvertAll(e, Cells(d, little, s[i + d.size..])))
  {
    hide CellOf, Convert, Word;
    var n := |s| - i;
    if n < d.size {
      DivUnique(n, d.size, 0, n);
    }
    Chop(n, d.size);
    var c, rest := CellOf(d, Word(little, s[i..i + d.size])), Cells(d, little, s[i + d.size..]);
    assert s[i..][..d.size] == s[i..i + d.size] && s[i..][d.size..] == s[i + d.size..];
    assert Cells(d, little, s[i..]) == [c] + rest;
    ConvertFirst(e, c, rest, out);
  }

  lemma ConvertFirst(e: Elem, c: Cell, rest: seq<Cell>, out: seq<Cell>)
    ensures var v := Convert(e, c);
            After(out, ConvertAll(e, [c] + rest)) == if v.Bad? then Refused(v.code)
              else After(out + [v.cell], ConvertAll(e, rest))
  {
    hide Convert;
    assert ([c] + rest)[1..] == rest;
    var v := Convert(e, c);
    if v.Good? && ConvertAll(e, rest).Elements? {
      assert out + ([v.cell] + ConvertAll(e, rest).values) == out + [v.cell] + ConvertAll(e, rest).values;
    }
  }

  // ---- what the conversions promise ----

  /** An integer target takes an array of integers exactly when every number fits, and then keeps every number. */
  lemma {:induction false} IntegersChecked(e: Elem, cs: seq<Cell>)
    requires !e.isFloat && forall i :: 0 <= i < |cs| ==> cs[i].Whole?
    ensures ConvertAll(e, cs)
         == if forall i :: 0 <= i < |cs| ==> Fits(e, cs[i].i) then Elements(cs) else Refused(OutOfRange)
    decreases |cs|
  {
    hide Fits;
    if cs != [] {
      var t := cs[1..];
      IntegersChecked(e, t);
      assert cs == [cs[0]] + t;
      assert (forall i :: 0 <= i < |cs| ==> Fits(e, cs[i].i))
             <==> Fits(e, cs[0].i) && (forall i :: 0 <= i < |t| ==> Fits(e, t[i].i)) by {
        if Fits(e, cs[0].i) && (forall i :: 0 <= i < |t| ==> Fits(e, t[i].i)) {
          forall i | 0 <= i < |cs|
            ensures Fits(e, cs[i].i)
          {
            assert i > 0 ==> cs[i] == t[i - 1];
          }
        }
        if forall i :: 0 <= i < |cs| ==> Fits(e, cs[i].i) {
          forall i | 0 <= i < |t|
            ensures Fits(e, t[i].i)
          {
            assert t[i] == cs[i + 1];
          }
        }
      }
    }
  }

  /** Written on one machine and read into the same type on another of either byte order: the same elements. */
  lemma ArrayRoundTrip(e: Elem, writer: bool, vs: seq<Cell>)
    requires IsElem(e) && AllStorable(e, vs)
    ensures IsTag(TagOf(e, writer)) && Meaning(TagOf(e, writer), Memory(e, writer, vs), e, None) == Elements(vs)
  {
    hide Storable, Memory, Cells, Described, ConvertAll;
    TagDescribes(e, writer);
    var (d, little) := Described(TagOf(e, writer));
    if e.size == 1 {
      OneByte(e, writer, little, vs);
    }
    CellsOfMemory(e, little, vs);
    CopyIsConversion(e, little, Memory(e, little, vs));
  }

  /** Bytes have no byte order. */
  lemma {:induction false} OneByte(e: Elem, a: bool, b: bool, vs: seq<Cell>)
    requires IsElem(e) && e.size == 1 && AllStorable(e, vs)
    ensures Memory(e, a, vs) == Memory(e, b, vs)
    decreases |vs|
  {
    hide Storable, BitsOf;
    if vs != [] {
      var w := BitsOf(e, vs[0]);
      assert Le(1, w) == [w % 256] && Be(1, w) == [w % 256];
      OneByte(e, a, b, vs[1..]);
    }
  }
}
