/** Half, single and double precision floats and CBOR's preferred width (section 4.1 of RFC 8949). */
module Floats {
  import opened Arith
  import opened Utf8

  // ---- powers of two ----

  function Pow2(n: nat): (r: nat)
    ensures r > 0
  {
    if n == 0 then 1 else 2 * Pow2(n - 1)
  }

  lemma {:induction false} Pow2Add(a: nat, b: nat)
    ensures Pow2(a + b) == Pow2(a) * Pow2(b)
    decreases b
  {
    if b > 0 {
      Pow2Add(a, b - 1);
      assert Pow2(a + b) == 2 * Pow2(a + b - 1);
    }
  }

  lemma {:induction false} Pow2Monotone(a: nat, b: nat)
    requires a <= b
    ensures Pow2(a) <= Pow2(b)
    ensures a < b ==> Pow2(a) < Pow2(b)
    decreases b
  {
    if a < b {
      Pow2Monotone(a, b - 1);
    }
  }

  predicate IsLog2(n: nat, k: nat) {
    Pow2(k) <= n < Pow2(k + 1)
  }

  /** Position of the highest set bit. */
  function Log2(n: nat): (k: nat)
    requires n > 0
    ensures Pow2(k) <= n < Pow2(k + 1)
  {
    HasOneLog2(n);
    var k: nat :| k <= n && IsLog2(n, k);
    k
  }

  lemma {:induction false} HighestBit(n: nat) returns (k: nat)
    requires n > 0
    ensures k <= n && IsLog2(n, k)
  {
    if n == 1 {
      k := 0;
    } else {
      k := HighestBit(n / 2);
      k := k + 1;
    }
  }

  lemma OneLog2(n: nat, k: nat, k': nat)
    requires IsLog2(n, k) && IsLog2(n, k')
    ensures k == k'
  {
    if k < k' {
      Pow2Monotone(k + 1, k');
    } else if k' < k {
      Pow2Monotone(k' + 1, k);
    }
  }

  lemma HasOneLog2(n: nat)
    requires n > 0
    ensures exists k: nat :: k <= n && IsLog2(n, k)
    ensures forall k: nat, k': nat :: IsLog2(n, k) && IsLog2(n, k') ==> k == k'
  {
    var _ := HighestBit(n);
    forall k: nat, k': nat | IsLog2(n, k) && IsLog2(n, k')
      ensures k == k'
    {
      OneLog2(n, k, k');
    }
  }

  lemma Log2Unique(n: nat, k: nat)
    requires n > 0 && Pow2(k) <= n < Pow2(k + 1)
    ensures Log2(n) == k
  {
    OneLog2(n, k, Log2(n));
  }

  // ---- values and formats ----

  /** A double's value: a finite magnitude counts units of 2^-1074, the smallest double. */
  datatype Double = NaN | Inf(neg: bool) | Fin(neg: bool, mag: nat)

  /** An IEEE 754 binary format: mantissa bits, all-ones exponent, and the weight of its last subnormal bit. */
  datatype Format = Format(mbits: nat, emax: nat, shift: nat)

  /** Magnitude of exponent field `e` and mantissa field `m`. */
  function Mag(f: Format, e: nat, m: nat): nat {
    if e == 0 then m * Pow2(f.shift) else (m + Pow2(f.mbits)) * Pow2(e - 1 + f.shift)
  }

  /** The fields that hold `mag` exactly, if the format has them. */
  function Fields(f: Format, mag: nat): Option<(nat, nat)> {
    if mag < Pow2(f.mbits + f.shift) then
      if mag % Pow2(f.shift) == 0 then Some((0, mag / Pow2(f.shift))) else None
    else
      var k := Log2(mag) - f.mbits;
      if k < f.shift then None
      else if mag % Pow2(k) != 0 || k - f.shift + 1 >= f.emax then None
      else
        LeadingBit(mag, f.mbits);
        Some((k - f.shift + 1, mag / Pow2(k) - Pow2(f.mbits)))
  }

  /** With its last `Log2(mag) - b` bits cut off, a magnitude keeps `b + 1` bits. */
  lemma LeadingBit(mag: nat, b: nat)
    requires mag > 0 && Log2(mag) >= b
    ensures Pow2(b) <= mag / Pow2(Log2(mag) - b) < 2 * Pow2(b)
  {
    var k := Log2(mag) - b;
    Pow2Add(b, k);
    Pow2Add(b + 1, k);
    QuotientAbove(mag, Pow2(k), Pow2(b));
    QuotientBelow(mag, Pow2(k), Pow2(b + 1));
  }

  lemma MagLog2(f: Format, e: nat, m: nat)
    requires 0 < e && m < Pow2(f.mbits)
    ensures Mag(f, e, m) > 0 && Log2(Mag(f, e, m)) == f.mbits + (e - 1 + f.shift)
  {
    hide Log2;
    var p, q := Pow2(f.mbits), Pow2(e - 1 + f.shift);
    Pow2Add(f.mbits, e - 1 + f.shift);
    MulMonotone(p, m + p, q);
    MulMonotone(m + p, 2 * p - 1, q);
    assert (2 * p - 1) * q == 2 * (p * q) - q;
    Log2Unique(Mag(f, e, m), f.mbits + (e - 1 + f.shift));
  }

  lemma SubnormalMag(f: Format, m: nat)
    requires m < Pow2(f.mbits)
    ensures m * Pow2(f.shift) < Pow2(f.mbits + f.shift)
  {
    Pow2Add(f.mbits, f.shift);
    MulMonotone(m, Pow2(f.mbits) - 1, Pow2(f.shift));
    assert (Pow2(f.mbits) - 1) * Pow2(f.shift) == Pow2(f.mbits) * Pow2(f.shift) - Pow2(f.shift);
  }

  /** `Fields` inverts `Mag` on every finite pattern. */
  lemma FieldsOfMag(f: Format, e: nat, m: nat)
    requires e < f.emax && m < Pow2(f.mbits)
    ensures Fields(f, Mag(f, e, m)) == Some((e, m))
  {
    if e == 0 {
      SubnormalMag(f, m);
      MulDiv(m, Pow2(f.shift));
    } else {
      MagLog2(f, e, m);
      var mag := Mag(f, e, m);
      Pow2Monotone(f.mbits + f.shift, Log2(mag));
      NormalFields(f, mag, e, m + Pow2(f.mbits));
    }
  }

  lemma NormalFields(f: Format, mag: nat, e: nat, s: nat)
    requires 0 < e < f.emax && mag >= Pow2(f.mbits + f.shift) && s >= Pow2(f.mbits)
    requires Log2(mag) == f.mbits + (e - 1 + f.shift) && mag == s * Pow2(e - 1 + f.shift)
    ensures Fields(f, mag) == Some((e, s - Pow2(f.mbits)))
  {
    MulDiv(s, Pow2(e - 1 + f.shift));
  }

  /** `Fields` only answers with fields that spell the magnitude. */
  lemma MagOfFields(f: Format, mag: nat)
    requires Fields(f, mag).Some? && 0 < f.emax
    ensures var (e, m) := Fields(f, mag).value; e < f.emax && m < Pow2(f.mbits) && Mag(f, e, m) == mag
  {
    if mag < Pow2(f.mbits + f.shift) {
      Pow2Add(f.mbits, f.shift);
      QuotientBelow(mag, Pow2(f.shift), Pow2(f.mbits));
      DivMod(mag, Pow2(f.shift));
    } else {
      var k := Log2(mag) - f.mbits;
      LeadingBit(mag, f.mbits);
      DivMod(mag, Pow2(k));
    }
  }

  // ---- bit patterns ----

  const HALF := Format(10, 31, 1050)
  const SINGLE := Format(23, 255, 925)
  const DOUBLE := Format(52, 2047, 0)

  /** Number of patterns with one sign. */
  function Patterns(f: Format): nat {
    (f.emax + 1) * Pow2(f.mbits)
  }

  function Raw(f: Format, neg: bool, e: nat, m: nat): nat {
    (if neg then Patterns(f) else 0) + e * Pow2(f.mbits) + m
  }

  function Assemble(neg: bool, e: nat, m: nat, f: Format): Double {
    if e < f.emax then Fin(neg, Mag(f, e, m)) else if m == 0 then Inf(neg) else NaN
  }

  /** The value of a bit pattern. */
  function Value(f: Format, raw: nat): Double {
    var p := Pow2(f.mbits);
    Assemble(raw / p / (f.emax + 1) % 2 == 1, raw / p % (f.emax + 1), raw % p, f)
  }

  lemma PatternFields(f: Format, neg: bool, e: nat, m: nat)
    requires e <= f.emax && m < Pow2(f.mbits)
    ensures var raw, p := Raw(f, neg, e, m), Pow2(f.mbits);
            raw % p == m && raw / p % (f.emax + 1) == e && (raw / p / (f.emax + 1) % 2 == 1 <==> neg)
    ensures Raw(f, neg, e, m) < 2 * Patterns(f)
  {
    var raw, p := Raw(f, neg, e, m), Pow2(f.mbits);
    var s := if neg then 1 else 0;
    var hi := s * (f.emax + 1) + e;
    assert raw == hi * p + m;
    DivUnique(raw, p, hi, m);
    DivUnique(hi, f.emax + 1, s, e);
    MulMonotone(e, f.emax, p);
    assert (f.emax + 1) * p == f.emax * p + p;
  }

  lemma SplitPattern(raw: nat, p: nat, c: nat)
    requires p > 0 && c > 0 && raw < 2 * (c * p)
    ensures raw == (if raw / p / c % 2 == 1 then c * p else 0) + raw / p % c * p + raw % p
  {
    Distribute(c, c, p);
    QuotientBelow(raw, p, c + c);
    DivMod(raw, p);
    SplitSign(raw / p, c, p);
  }

  lemma SplitSign(hi: nat, c: nat, p: nat)
    requires c > 0 && hi < c + c
    ensures hi * p == (if hi / c % 2 == 1 then c * p else 0) + hi % c * p
  {
    if hi < c {
      DivUnique(hi, c, 0, hi);
    } else {
      DivUnique(hi, c, 1, hi - c);
      Distribute(c, hi - c, p);
    }
  }

  lemma PatternOfFields(f: Format, raw: nat)
    requires raw < 2 * Patterns(f)
    ensures var p := Pow2(f.mbits);
            Raw(f, raw / p / (f.emax + 1) % 2 == 1, raw / p % (f.emax + 1), raw % p) == raw
  {
    SplitPattern(raw, Pow2(f.mbits), f.emax + 1);
  }

  lemma ValueOfRaw(f: Format, neg: bool, e: nat, m: nat)
    requires e <= f.emax && m < Pow2(f.mbits)
    ensures Value(f, Raw(f, neg, e, m)) == Assemble(neg, e, m, f)
  {
    PatternFields(f, neg, e, m);
  }

  /** Some pattern of the format has exactly this value. */
  ghost predicate Representable(f: Format, d: Double) {
    exists raw: nat :: raw < 2 * Patterns(f) && Value(f, raw) == d
  }

  /** The pattern of a value the format holds; NaN is the caller's to choose. */
  function Pattern(f: Format, d: Double): Option<nat>
    requires !d.NaN?
  {
    match d
    case Inf(neg) => Some(Raw(f, neg, f.emax, 0))
    case Fin(neg, mag) =>
      match Fields(f, mag)
      case Some(fields) => Some(Raw(f, neg, fields.0, fields.1))
      case None => None
  }

  lemma PatternValue(f: Format, d: Double)
    requires !d.NaN? && Pattern(f, d).Some? && 0 < f.emax
    ensures Pattern(f, d).value < 2 * Patterns(f) && Value(f, Pattern(f, d).value) == d
  {
    match d
    case Inf(neg) =>
      PatternFields(f, neg, f.emax, 0);
      ValueOfRaw(f, neg, f.emax, 0);
    case Fin(neg, mag) =>
      MagOfFields(f, mag);
      var (e, m) := Fields(f, mag).value;
      PatternFields(f, neg, e, m);
      ValueOfRaw(f, neg, e, m);
  }

  /** Every pattern but a NaN is the pattern of its value. */
  lemma PatternOfValue(f: Format, raw: nat)
    requires raw < 2 * Patterns(f) && !Value(f, raw).NaN?
    ensures Pattern(f, Value(f, raw)) == Some(raw)
  {
    hide Pow2, Log2;
    PatternOfFields(f, raw);
    var p := Pow2(f.mbits);
    var e, m := raw / p % (f.emax + 1), raw % p;
    DivMod(raw, p);
    DivMod(raw / p, f.emax + 1);
    if e < f.emax {
      FieldsOfMag(f, e, m);
    }
  }

  lemma RepresentableIffPattern(f: Format, d: Double)
    requires !d.NaN? && 0 < f.emax
    ensures Representable(f, d) <==> Pattern(f, d).Some?
  {
    if Pattern(f, d).Some? {
      PatternValue(f, d);
    }
    if raw: nat :| raw < 2 * Patterns(f) && Value(f, raw) == d {
      PatternOfValue(f, raw);
    }
  }

  // ---- the conversions of the codec ----

  /** from_half: `ldexp` of the mantissa fields. */
  function FromHalf(h: nat): Double
    requires h < 0x1_0000
  {
    var neg, exp, mant := h / 0x8000 % 2 == 1, h / 0x400 % 32, h % 0x400;
    if exp == 0 then Fin(neg, mant * Pow2(1074 - 24))
    else if exp == 31 then if mant != 0 then NaN else Inf(neg)
    else Fin(neg, (mant + 1024) * Pow2(1074 + exp - 25))
  }

  /** to_half: exact conversion or nothing; NaN becomes the canonical quiet NaN. */
  function ToHalf(d: Double): Option<nat> {
    match d
    case NaN => Some(0x7E00)
    case Inf(neg) => Some((if neg then 0x8000 else 0) + 0x7C00)
    case Fin(neg, mag) =>
      var sign := if neg then 0x8000 else 0;
      if mag == 0 then Some(sign)
      else if mag > 65504 * Pow2(1074) then None
      else
        var exp := Log2(mag) - 1074 + 1;   // mag = frac * 2^exp with frac in [1/2, 1)
        var e := exp - 1 + 15;
        if e >= 1 then
          var unit := Pow2(Log2(mag) - 10);   // frac * 2048 == mag / unit
          if mag % unit != 0 then None else Some(WithMantissa(sign + e * 1024 - 1024, mag / unit))
        else
          var unit := Pow2(1074 - 24);
          if mag % unit != 0 || mag / unit >= 1024 then None else Some(WithMantissa(sign, mag / unit))
  }

  function WithMantissa(high: nat, mantissa: nat): nat {
    high + mantissa
  }

  /** Nearest multiple of `q`, ties to the even one. */
  function RoundEven(n: nat, q: nat): nat
    requires q > 0
  {
    var lo, rem := n / q, n % q;
    if 2 * rem > q || (2 * rem == q && lo % 2 == 1) then (lo + 1) * q else lo * q
  }

  /** Weight of the last place a magnitude has in a format, as a power of two. */
  function UlpBits(f: Format, mag: nat): int {
    if mag < Pow2(f.mbits + f.shift) then f.shift else Log2(mag) - f.mbits
  }

  /** The first magnitude beyond the largest finite one. */
  function Limit(f: Format): nat
    requires f.emax > 0
  {
    Pow2(f.mbits + (f.emax - 1 + f.shift))
  }

  /** A finite magnitude cast to a format: rounded to nearest, ties to even, or None for an overflow to infinity. */
  function RoundTo(f: Format, mag: nat): Option<nat>
    requires f.emax > 1
  {
    var k := UlpBits(f, mag);
    if k < 0 then None
    else
      var r := RoundEven(mag, Pow2(k));
      if r >= Limit(f) then None else Some(r)
  }

  /** fits_single: the double survives a cast to float and back. */
  predicate FitsSingle(d: Double) {
    match d
    case NaN => true
    case Inf(_) => true
    case Fin(_, mag) => RoundTo(SINGLE, mag) == Some(mag)
  }

  lemma HalfConstants()
    ensures Pow2(10) == 1024 && Patterns(HALF) == 0x8000
  {
    assert Pow2(5) == 32;
    Pow2Add(5, 5);
  }

  lemma FromHalfValue(h: nat)
    requires h < 0x1_0000
    ensures FromHalf(h) == Value(HALF, h)
  {
    HalfConstants();
    assert h / 0x8000 == h / 0x400 / 32;
  }

  lemma HalfRange(mag: nat)
    requires mag > 0 && Log2(mag) >= 1060
    requires mag % Pow2(Log2(mag) - 10) == 0
    ensures mag > 65504 * Pow2(1074) <==> Log2(mag) > 1089
  {
    var k := Log2(mag) - 10;
    HalfConstants();
    LeadingBit(mag, 10);
    DivMod(mag, Pow2(k));
    var q := mag / Pow2(k);
    assert Pow2(5) == 32;
    Pow2Add(1074, 5);
    Pow2Add(10, k);
    if Log2(mag) <= 1089 {
      Pow2Monotone(k, 1079);
      MulMonotone(q, 2047, Pow2(k));
      assert mag <= 2047 * Pow2(k) <= 2047 * Pow2(1079);
    } else {
      Pow2Monotone(1080, k);
      assert Pow2(1080) == 2 * Pow2(1079);
      assert mag >= 1024 * Pow2(k) >= 2048 * Pow2(1079);
    }
  }

  lemma SmallMagnitude(mag: nat)
    requires 0 < mag
    ensures mag < Pow2(1060) <==> Log2(mag) < 1060
    ensures mag < Pow2(1060) ==> mag <= 65504 * Pow2(1074)
  {
    if Log2(mag) < 1060 {
      Pow2Monotone(Log2(mag) + 1, 1060);
    } else {
      Pow2Monotone(1060, Log2(mag));
    }
    Pow2Monotone(1060, 1074);
  }

  lemma SubnormalFields(f: Format, mag: nat)
    requires mag < Pow2(f.mbits + f.shift)
    ensures Fields(f, mag) == if mag % Pow2(f.shift) == 0 then Some((0, mag / Pow2(f.shift))) else None
    ensures mag / Pow2(f.shift) < Pow2(f.mbits)
  {
    Pow2Add(f.mbits, f.shift);
    QuotientBelow(mag, Pow2(f.shift), Pow2(f.mbits));
  }

  lemma SubnormalHalf(neg: bool, mag: nat)
    requires 0 < mag < Pow2(1060)
    ensures ToHalf(Fin(neg, mag)) == Pattern(HALF, Fin(neg, mag))
  {
    hide Pow2, Log2;
    HalfConstants();
    SmallMagnitude(mag);
    SubnormalFields(HALF, mag);
  }

  lemma NormalHalf(neg: bool, mag: nat)
    requires mag >= Pow2(1060)
    ensures ToHalf(Fin(neg, mag)) == Pattern(HALF, Fin(neg, mag))
  {
    hide Pow2, Log2;
    HalfConstants();
    SmallMagnitude(mag);
    LeadingBit(mag, 10);
    var unit := Pow2(Log2(mag) - 10);
    if mag % unit == 0 {
      HalfRange(mag);
      assert Fields(HALF, mag) == if Log2(mag) > 1089 then None else Some((Log2(mag) - 1059, mag / unit - 1024));
    } else {
      assert Fields(HALF, mag) == None;
    }
  }

  /** to_half finds the half with the value of the double, whenever there is one. */
  lemma ToHalfIsPattern(d: Double)
    requires !d.NaN?
    ensures ToHalf(d) == Pattern(HALF, d)
  {
    match d
    case Inf(_) =>
      HalfConstants();
    case Fin(neg, mag) =>
      if mag == 0 {
        MulDiv(0, Pow2(1050));
      } else if mag < Pow2(1060) {
        SubnormalHalf(neg, mag);
      } else {
        NormalHalf(neg, mag);
      }
  }

  lemma RoundEvenExact(n: nat, q: nat)
    requires q > 0
    ensures RoundEven(n, q) == n <==> n % q == 0
  {
    DivMod(n, q);
    assert (n / q + 1) * q == n / q * q + q;
  }

  /** Rounding leaves exactly the magnitudes alone that the format has. */
  lemma RoundToExact(f: Format, mag: nat)
    requires f.emax > 1
    ensures RoundTo(f, mag) == Some(mag) <==> Fields(f, mag).Some?
  {
    hide Pow2, Log2, RoundEven;
    var small, top := f.mbits + f.shift, f.mbits + (f.emax - 1 + f.shift);
    if mag < Pow2(small) {
      RoundEvenExact(mag, Pow2(f.shift));
      Pow2Monotone(small, top);
    } else {
      if Log2(mag) < small {
        Pow2Monotone(Log2(mag) + 1, small);
      }
      RoundEvenExact(mag, Pow2(Log2(mag) - f.mbits));
      if Log2(mag) < top {
        Pow2Monotone(Log2(mag) + 1, top);
      } else {
        Pow2Monotone(top, Log2(mag));
      }
    }
  }

  /** fits_single answers whether some single has the value of the double. */
  lemma FitsSingleIsPattern(d: Double)
    requires !d.NaN?
    ensures FitsSingle(d) <==> Pattern(SINGLE, d).Some?
  {
    if d.Fin? {
      RoundToExact(SINGLE, d.mag);
    }
  }

  // ---- the preferred width ----

  /** A float item: additional information 25, 26 or 27 and the raw bits of that width. */
  datatype FloatForm = FloatForm(ai: nat, raw: nat)

  function FormatOf(ai: nat): Format {
    if ai == 25 then HALF else if ai == 26 then SINGLE else DOUBLE
  }

  /** The double a float item carries. */
  function Widen(w: FloatForm): Double
    requires w.ai == 25 ==> w.raw < 0x1_0000
  {
    if w.ai == 25 then FromHalf(w.raw) else Value(FormatOf(w.ai), w.raw)
  }

  predicate IsForm(w: FloatForm) {
    25 <= w.ai <= 27 && w.raw < 2 * Patterns(FormatOf(w.ai))
  }

  lemma FormWidths()
    ensures 2 * Patterns(HALF) == 0x1_0000 && 2 * Patterns(SINGLE) == 0x1_0000_0000
    ensures 2 * Patterns(DOUBLE) == 0x1_0000_0000_0000_0000
  {
    HalfConstants();
    Pow2Add(10, 10);
    assert Pow2(3) == 8;
    Pow2Add(20, 3);
    Pow2Add(20, 20);
    Pow2Add(40, 10);
    assert Pow2(2) == 4;
    Pow2Add(50, 2);
  }

  /** A value some double has. */
  predicate IsDouble(d: Double) {
    d.NaN? || Pattern(DOUBLE, d).Some?
  }

  /** write_real at the preferred width. */
  function Preferred(d: Double): FloatForm {
    if ToHalf(d).Some? then FloatForm(25, ToHalf(d).value)
    else if FitsSingle(d) then
      FitsSingleIsPattern(d);
      FloatForm(26, Pattern(SINGLE, d).value)
    else FloatForm(27, if IsDouble(d) then Pattern(DOUBLE, d).value else 0)
  }

  /** check_preferred_float. */
  predicate IsPreferred(d: Double, w: FloatForm) {
    if d.NaN? then w.ai == 25 && w.raw == 0x7E00
    else w.ai == (if ToHalf(d).Some? then 25 else if FitsSingle(d) then 26 else 27)
  }

  lemma PreferredIsForm(d: Double)
    requires IsDouble(d)
    ensures IsForm(Preferred(d))
  {
    HalfConstants();
    if !d.NaN? {
      ToHalfIsPattern(d);
      FitsSingleIsPattern(d);
      PatternValue(FormatOf(Preferred(d).ai), d);
    }
  }

  /** Reading what was written gives the same double: value, sign of zero, infinities and the one NaN. */
  lemma WidenPreferred(d: Double)
    requires IsDouble(d)
    ensures IsForm(Preferred(d)) && Preferred(d).raw < 2 * Patterns(FormatOf(Preferred(d).ai))
    ensures (HalfConstants(); Widen(Preferred(d)) == d)
  {
    PreferredIsForm(d);
    HalfConstants();
    if !d.NaN? {
      ToHalfIsPattern(d);
      FitsSingleIsPattern(d);
      PatternValue(FormatOf(Preferred(d).ai), d);
      if Preferred(d).ai == 25 {
        FromHalfValue(Preferred(d).raw);
      }
    }
  }

  /** The width chosen is the narrowest that holds the value exactly. */
  lemma PreferredNarrowest(d: Double)
    requires IsDouble(d) && !d.NaN?
    ensures Preferred(d).ai == 25 <==> Representable(HALF, d)
    ensures Preferred(d).ai == 26 <==> !Representable(HALF, d) && Representable(SINGLE, d)
  {
    ToHalfIsPattern(d);
    FitsSingleIsPattern(d);
    RepresentableIffPattern(HALF, d);
    RepresentableIffPattern(SINGLE, d);
  }

  /** to_half inverts from_half on every pattern that is not a NaN. */
  lemma ToHalfFromHalf(h: nat)
    requires h < 0x1_0000 && !FromHalf(h).NaN?
    ensures ToHalf(FromHalf(h)) == Some(h)
  {
    HalfConstants();
    FromHalfValue(h);
    PatternOfValue(HALF, h);
    ToHalfIsPattern(FromHalf(h));
  }

  lemma WidenIsDouble(w: FloatForm)
    requires IsForm(w)
    ensures w.ai == 25 ==> w.raw < 0x1_0000
    ensures IsDouble(Widen(w))
  {
    HalfConstants();
    if w.ai == 27 {
      if !Widen(w).NaN? {
        PatternOfValue(DOUBLE, w.raw);
      }
    } else {
      if w.ai == 25 {
        FromHalfValue(w.raw);
      }
      if Widen(w).Fin? {
        PatternOfValue(FormatOf(w.ai), w.raw);
        NarrowIsDouble(FormatOf(w.ai), Widen(w).mag);
      }
    }
  }

  lemma {:induction false} Pow2Divides(n: nat, a: nat, b: nat)
    requires a <= b && n % Pow2(b) == 0
    ensures n % Pow2(a) == 0
  {
    Pow2Add(a, b - a);
    DivMod(n, Pow2(b));
    var q := n / Pow2(b);
    assert n == q * Pow2(b - a) * Pow2(a);
    MulDiv(q * Pow2(b - a), Pow2(a));
  }

  lemma Pow2Zero()
    ensures Pow2(0) == 1
  {
  }

  lemma NarrowIsDouble(f: Format, mag: nat)
    requires f == HALF || f == SINGLE
    requires Fields(f, mag).Some?
    ensures Fields(DOUBLE, mag).Some?
  {
    hide Log2, Pow2;
    Pow2Zero();
    if mag >= Pow2(52) {
      var k := Log2(mag) - 52;
      if Log2(mag) < 52 {
        Pow2Monotone(Log2(mag) + 1, 52);
      }
      if mag < Pow2(f.mbits + f.shift) {
        if Log2(mag) >= f.mbits + f.shift {
          Pow2Monotone(f.mbits + f.shift, Log2(mag));
        }
        Pow2Divides(mag, k, f.shift);
      } else {
        Pow2Divides(mag, k, Log2(mag) - f.mbits);
      }
    }
  }

  /** The strict check accepts exactly the forms the writer emits. */
  lemma IsPreferredExact(w: FloatForm)
    requires IsForm(w)
    ensures w.ai == 25 ==> w.raw < 0x1_0000
    ensures IsDouble(Widen(w))
    ensures IsPreferred(Widen(w), w) <==> Preferred(Widen(w)) == w
  {
    WidenIsDouble(w);
    var d := Widen(w);
    if !d.NaN? {
      if w.ai == 25 {
        FromHalfValue(w.raw);
      }
      PatternOfValue(FormatOf(w.ai), w.raw);
      ToHalfIsPattern(d);
      FitsSingleIsPattern(d);
    }
  }
}
