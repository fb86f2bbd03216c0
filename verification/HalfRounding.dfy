/** The pinned half width: to_half_rounded against correct rounding. */
module HalfRounding {
  import opened Arith
  import opened Utf8
  import opened Floats
  import opened Rounding

  /** Correct rounding to a half: to nearest, ties to even, beyond the largest to infinity. */
  function HalfOf(d: Double): nat
    requires !d.NaN?
  {
    CastHasPattern(d);
    Pattern(HALF, Cast(HALF, d)).value
  }

  lemma CastHasPattern(d: Double)
    requires !d.NaN?
    ensures !Cast(HALF, d).NaN? && Pattern(HALF, Cast(HALF, d)).Some?
  {
    if d.Fin? && RoundTo(HALF, d.mag).Some? {
      RoundToIs(HALF, d.mag);
      RoundedOnGrid(HALF, d.mag);
      FieldsIsGrid(HALF, Rounded(HALF, d.mag));
    }
  }

  function SignBit(neg: bool): nat {
    if neg then 0x8000 else 0
  }

  /** Whole units in a number, and what is left. */
  function Units(n: nat, u: nat): nat
    requires u > 0
  {
    DivMod(n, u);
    n / u
  }

  function Left(n: nat, u: nat): (r: nat)
    requires u > 0
    ensures r < u
  {
    DivMod(n, u);
    n % u
  }

  lemma UnitsAndLeft(n: nat, u: nat)
    requires u > 0
    ensures n == Units(n, u) * u + Left(n, u)
  {
    DivMod(n, u);
  }

  /** The integer nearest to `n / q`, ties to even. */
  function NearestInt(n: nat, q: nat): nat
    requires q > 0
  {
    var lo, rem := Units(n, q), Left(n, q);
    if 2 * rem > q || (2 * rem == q && lo % 2 == 1) then lo + 1 else lo
  }

  lemma NearestIntIs(n: nat, q: nat)
    requires q > 0
    ensures RoundEven(n, q) == NearestInt(n, q) * q
  {
  }

  /** ldexp(a, 24). */
  function Up24(mag: nat): nat {
    mag * Pow2(24)
  }

  /** ldexp(a, 24) + 1024.0: the sum of two doubles is rounded, in 53 bits. */
  function BiasedSum(mag: nat): nat {
    var sum := RoundTo(DOUBLE, Up24(mag) + 1024 * Pow2(1074));
    if sum.Some? then sum.value else 0
  }

  /** to_half_rounded. */
  function ToHalfRounded(d: Double): nat {
    if ToHalf(d).Some? then ToHalf(d).value
    else
      var sign, mag := SignBit(d.neg), d.mag;
      if mag >= 65520 * Pow2(1074) then sign + 0x7C00
      else
        var e := Log2(mag) - 1074 + 15;
        if e >= 1 then
          var mant := NearestInt(mag, Pow2(Log2(mag) - 10));
          if mant >= 2048 then if e + 1 >= 31 then sign + 0x7C00 else sign + (e + 1) * 1024 + (mant - 1024) % 1024
          else sign + e * 1024 + mant % 1024
        else
          var mant := NearestInt(BiasedSum(mag), Pow2(1074)) - 1024;
          if mant >= 1024 then sign + 1024 + (mant - 1024) % 1024 else sign + mant % 1024
  }

  // ---- at magnitudes of 2^-14 and more ----

  lemma TwoTo5()
    ensures Pow2(5) == 32 && Pow2(10) == 1024
  {
    HalfConstants();
    assert Pow2(5) == 32;
  }

  /** The half with mantissa `s` in the binade of weight `u`. */
  lemma NormalPattern(neg: bool, u: nat, s: nat)
    requires 1050 <= u <= 1079 && 1024 <= s <= 2048 && (s == 2048 ==> u < 1079)
    ensures Pattern(HALF, Fin(neg, s * Pow2(u))) == Some(SignBit(neg) + (u - 1049) * 1024 + (s - 1024))
  {
    hide Pow2, Log2, Fields;
    TwoTo5();
    if s < 2048 {
      NormalFieldsAt(u, s);
    } else {
      Pow2Step(u);
      NormalFieldsAt(u + 1, 1024);
    }
  }

  lemma Pow2Step(u: nat)
    ensures Pow2(u + 1) == 2 * Pow2(u) && 2048 * Pow2(u) == 1024 * Pow2(u + 1)
  {
  }

  lemma NormalFieldsAt(u: nat, s: nat)
    requires 1050 <= u <= 1079 && 1024 <= s < 2048
    ensures Fields(HALF, s * Pow2(u)) == Some((u - 1049, s - 1024))
  {
    hide Pow2, Log2, Fields;
    TwoTo5();
    Pow2Add(10, u);
    Pow2Step(10);
    Pow2Add(11, u);
    MulMonotone(1024, s, Pow2(u));
    MulMonotone(s + 1, 2048, Pow2(u));
    Distribute(s, 1, Pow2(u));
    Log2Unique(s * Pow2(u), 10 + u);
    Pow2Monotone(1060, 10 + u);
    NormalFields(HALF, s * Pow2(u), u - 1049, s);
  }

  /** The nearest integer of a quotient between `lo` and `hi`. */
  lemma NearestIntBounds(n: nat, q: nat, lo: nat, hi: nat)
    requires q > 0 && lo * q <= n < hi * q
    ensures lo <= NearestInt(n, q) <= hi
  {
    QuotientAbove(n, q, lo);
    QuotientBelow(n, q, hi);
  }

  /** In the last binade, overflow begins at 65520. */
  lemma LastBinade(mag: nat)
    requires Pow2(1089) <= mag < Pow2(1090)
    ensures NearestInt(mag, Pow2(1079)) == 2048 <==> mag >= 65520 * Pow2(1074)
  {
    hide Pow2;
    TwoTo5();
    Pow2Add(5, 1074);
    Pow2Add(10, 1079);
    Pow2Step(10);
    Pow2Add(11, 1079);
    var q := Pow2(1079);
    DivMod(mag, q);
    QuotientBelow(mag, q, 2048);
    var lo := mag / q;
    if lo == 2047 {
      assert mag >= 65520 * Pow2(1074) <==> 2 * (mag % q) >= q;
    } else {
      MulMonotone(lo + 1, 2047, q);
      Distribute(lo, 1, q);
    }
  }

  lemma BigMagnitudes(mag: nat)
    requires mag > 0
    ensures Log2(mag) >= 1090 ==> mag >= 65520 * Pow2(1074) && mag >= Pow2(1090)
    ensures Log2(mag) < 1089 ==> mag < 65520 * Pow2(1074)
    ensures Log2(mag) < 1090 ==> mag < Pow2(1090)
  {
    hide Pow2;
    TwoTo5();
    Pow2Add(10, 1074);
    Pow2Add(5, 1084);
    Pow2Step(1089);
    Pow2Step(1088);
    if Log2(mag) >= 1090 {
      Pow2Monotone(1090, Log2(mag));
    } else {
      Pow2Monotone(Log2(mag) + 1, 1090);
      if Log2(mag) < 1089 {
        Pow2Monotone(Log2(mag) + 1, 1089);
      }
    }
  }

  /** The cast of a normal magnitude, by its mantissa. */
  lemma NormalCast(mag: nat)
    requires mag >= Pow2(1060)
    ensures mag > 0 && Log2(mag) >= 1060
    ensures var u := Log2(mag) - 10;
            var s := NearestInt(mag, Pow2(u));
            && 1024 <= s <= 2048
            && RoundTo(HALF, mag) == if s * Pow2(u) >= Pow2(1090) then None else Some(s * Pow2(u))
  {
    hide Pow2, Log2;
    if Log2(mag) < 1060 {
      Pow2Monotone(Log2(mag) + 1, 1060);
    }
    var u := Log2(mag) - 10;
    NearestIntIs(mag, Pow2(u));
    TwoTo5();
    Pow2Add(10, u);
    Pow2Step(10);
    Pow2Add(11, u);
    NearestIntBounds(mag, Pow2(u), 1024, 2048);
  }

  /** At magnitudes of 2^-14 and more, to_half_rounded rounds correctly. */
  lemma NormalRounded(neg: bool, mag: nat)
    requires mag >= Pow2(1060)
    ensures ToHalfRounded(Fin(neg, mag)) == HalfOf(Fin(neg, mag))
  {
    hide Pow2, Log2, ToHalf, NearestInt, Pattern, RoundTo;
    var d := Fin(neg, mag);
    if ToHalf(d).Some? {
      ExactHalf(d);
      return;
    }
    NormalCast(mag);
    BigMagnitudes(mag);
    TwoTo5();
    var u := Log2(mag) - 10;
    var s := NearestInt(mag, Pow2(u));
    Pow2Add(10, u);
    Pow2Step(10);
    Pow2Add(11, u);
    MulMonotone(1024, s, Pow2(u));
    MulMonotone(s, 2048, Pow2(u));
    if Log2(mag) >= 1090 {
      Pow2Monotone(1090, 10 + u);
      InfinitePattern(neg);
    } else {
      if Log2(mag) == 1089 {
        LastBinade(mag);
      } else {
        Pow2Monotone(11 + u, 1089);
        Pow2Monotone(1089, 1090);
      }
      if s == 2048 && u == 1079 {
        InfinitePattern(neg);
      } else {
        Below1090(u, s);
        NormalPattern(neg, u, s);
      }
    }
  }

  lemma Below1090(u: nat, s: nat)
    requires u <= 1079 && s <= 2048 && (s == 2048 ==> u < 1079)
    ensures s * Pow2(u) < Pow2(1090)
  {
    hide Pow2;
    TwoTo5();
    Pow2Step(10);
    Pow2Add(11, u);
    if s == 2048 {
      Pow2Monotone(11 + u, 1090);
    } else {
      MulMonotone(s, 2047, Pow2(u));
      Distribute(2047, 1, Pow2(u));
      Pow2Monotone(11 + u, 1090);
      if u < 1079 {
        Pow2Monotone(11 + u, 1089);
      }
    }
  }

  lemma InfinitePattern(neg: bool)
    ensures Pattern(HALF, Inf(neg)) == Some(SignBit(neg) + 0x7C00)
  {
    HalfConstants();
  }

  lemma ExactHalf(d: Double)
    requires !d.NaN? && ToHalf(d).Some?
    ensures HalfOf(d) == ToHalf(d).value
  {
    ToHalfIsPattern(d);
    CastExact(HALF, d);
  }

  // ---- below 2^-14 ----

  /** `r` is `rem`, in units of which `h` is the half, brought to multiples of `q`: it is the half unit exactly when
      `rem` is within `q / 2` of it, and on the same side of it otherwise. */
  predicate Hits(rem: nat, h: nat, q: nat, r: nat) {
    && rem < 2 * h && r <= 2 * h
    && (rem < h ==> r <= h && (r == h <==> 2 * (h - rem) <= q))
    && (rem > h ==> r >= h && (r == h <==> 2 * (rem - h) <= q))
    && (rem == h ==> r == h)
  }

  function Whole(w: nat, u: nat, r: nat): nat {
    w * u + r
  }

  lemma HalfwayRounds(rem: nat, h: nat, c: nat, q: nat)
    requires q > 0 && c > 0 && c % 2 == 0 && h == c * q && rem < 2 * h
    ensures Hits(rem, h, q, RoundEven(rem, q))
  {
    DivMod(rem, q);
    var lo, x := rem / q, rem % q;
    assert 2 * h == (2 * c) * q;
    QuotientBelow(rem, q, 2 * c);
    Distribute(lo, 1, q);
    MulMonotone(lo + 1, 2 * c, q);
    if rem < h {
      QuotientBelow(rem, q, c);
      MulMonotone(lo + 1, c, q);
      if lo < c - 1 {
        MulMonotone(lo + 2, c, q);
        Distribute(lo, 2, q);
      }
    } else {
      QuotientAbove(rem, q, c);
      MulMonotone(c, lo, q);
      if lo > c {
        MulMonotone(c + 1, lo, q);
        Distribute(c, 1, q);
      }
    }
  }

  /** A whole number of units more, of even weight in `q`, is rounded along. */
  lemma RoundedAlong(w: nat, rem: nat, q: nat)
    requires q > 0 && w % (2 * q) == 0
    ensures RoundEven(w + rem, q) == w + RoundEven(rem, q)
  {
    DivMod(w, 2 * q);
    DivMod(rem, q);
    var t := w / (2 * q);
    var lo, x := rem / q, rem % q;
    assert w == (2 * t) * q;
    Distribute(2 * t, lo, q);
    assert w + rem == (2 * t + lo) * q + x;
    DivUnique(w + rem, q, 2 * t + lo, x);
    Distribute(2 * t, lo + 1, q);
    assert (2 * t + lo) % 2 == lo % 2;
  }

  /** Bringing the rest to multiples of `q` first makes a tie that is none, and the even side is the wrong one. */
  predicate WrongTie(w: nat, rem: nat, h: nat, q: nat) {
    if rem > h then 2 * (rem - h) <= q && w % 2 == 0 else rem < h && 2 * (h - rem) <= q && w % 2 == 1
  }

  /** The magnitude in units of 2^-24 lies within 2^-43 of a tie, but is none, and the even side is the wrong one. */
  predicate DoubleRounds(mag: nat) {
    var x, u := Up24(mag), Pow2(1074);
    WrongTie(Units(x, u), Left(x, u), Pow2(1073), Pow2(1032))
  }

  lemma TinyScaled(mag: nat)
    requires mag < Pow2(1060)
    ensures Up24(mag) < 1024 * Pow2(1074)
  {
    hide Pow2;
    TwoTo5();
    Pow2Add(1060, 24);
    Pow2Add(10, 1074);
    MulMonotone(mag + 1, Pow2(1060), Pow2(24));
    Distribute(mag, 1, Pow2(24));
  }

  lemma TinySame(mag: nat)
    ensures NearestInt(mag, Pow2(1050)) == NearestInt(Up24(mag), Pow2(1074))
  {
    hide Pow2, NearestInt;
    Pow2Add(1050, 24);
    ScaledNearest(mag, Pow2(1050), Pow2(24));
  }

  lemma ScaledNearest(n: nat, p: nat, s: nat)
    requires p > 0 && s > 0 && p * s > 0
    ensures NearestInt(n, p) == NearestInt(n * s, p * s)
  {
    DivMod(n, p);
    var lo, rem := n / p, n % p;
    Distribute(lo * p, rem, s);
    assert n * s == lo * (p * s) + rem * s;
    MulMonotone(rem + 1, p, s);
    Distribute(rem, 1, s);
    DivUnique(n * s, p * s, lo, rem * s);
    Scaled(rem, p, s);
  }

  lemma Scaled(rem: nat, p: nat, s: nat)
    requires s > 0
    ensures 2 * (rem * s) > p * s <==> 2 * rem > p
    ensures 2 * (rem * s) == p * s <==> 2 * rem == p
  {
    assert 2 * (rem * s) == (2 * rem) * s;
    if 2 * rem > p {
      MulMonotone(p + 1, 2 * rem, s);
      Distribute(p, 1, s);
    } else if 2 * rem < p {
      MulMonotone(2 * rem + 1, p, s);
      Distribute(2 * rem, 1, s);
    }
  }

  lemma SumWeights()
    ensures Pow2(1074) == 2 * Pow2(1073) && Pow2(1073) == Pow2(41) * Pow2(1032) && Pow2(41) % 2 == 0
    ensures 1024 * Pow2(1074) == Pow2(1084) && 2048 * Pow2(1074) == Pow2(1085)
  {
    hide Pow2;
    TwoTo5();
    Pow2Step(1073);
    Pow2Add(41, 1032);
    EvenPow2(41);
    Pow2Add(10, 1074);
    Pow2Step(10);
    Pow2Add(11, 1074);
  }

  lemma SumSplits(x: nat, u: nat)
    requires u > 0 && x < 1024 * u
    ensures x + 1024 * u == Whole(Units(x, u) + 1024, u, Left(x, u)) && Units(x, u) < 1024
    ensures 1024 * u <= x + 1024 * u < 2048 * u
  {
    UnitsAndLeft(x, u);
    QuotientBelow(x, u, 1024);
    Distribute(Units(x, u), 1024, u);
  }

  lemma SumRounds(sum: nat, w: nat, rem: nat)
    requires Pow2(1084) <= sum < Pow2(1085) && w < 2048 && rem < Pow2(1074) && sum == Whole(w, Pow2(1074), rem)
    ensures RoundTo(DOUBLE, sum) == Some(Whole(w, Pow2(1074), RoundEven(rem, Pow2(1032))))
  {
    hide Pow2, Log2, RoundEven;
    var u, q := Pow2(1074), Pow2(1032);
    SumWeights();
    UlpAtSum(sum);
    WholeUnits(w);
    RoundedAlong(w * u, rem, q);
    HalfwayRounds(rem, Pow2(1073), Pow2(41), q);
    MulMonotone(w + 1, 2048, u);
    Distribute(w, 1, u);
    LimitOfDouble();
  }

  /** The biased sum in terms of whole units and what is left. */
  lemma BiasedSumIs(mag: nat)
    requires mag < Pow2(1060)
    ensures var x, u := Up24(mag), Pow2(1074);
            BiasedSum(mag) == Whole(Units(x, u) + 1024, u, RoundEven(Left(x, u), Pow2(1032))) && Units(x, u) < 1024
  {
    hide Pow2, Log2, RoundEven, RoundTo, Up24, Whole, Units, Left;
    var x, u := Up24(mag), Pow2(1074);
    TinyScaled(mag);
    SumWeights();
    SumSplits(x, u);
    SumRounds(x + 1024 * u, Units(x, u) + 1024, Left(x, u));
  }

  lemma LimitOfDouble()
    ensures Limit(DOUBLE) > Pow2(1085)
  {
    hide Pow2;
    Pow2Monotone(1085, 52 + 2046);
  }

  lemma UlpAtSum(sum: nat)
    requires Pow2(1084) <= sum < Pow2(1085)
    ensures UlpBits(DOUBLE, sum) == 1032
  {
    hide Pow2, Log2;
    UlpAt(DOUBLE, sum, 1032);
  }

  lemma WholeUnits(n: nat)
    ensures n * Pow2(1074) % (2 * Pow2(1032)) == 0
  {
    hide Pow2;
    SumWeights();
    var q := Pow2(1032);
    assert n * Pow2(1074) == (n * Pow2(41)) * (2 * q);
    MulDiv(n * Pow2(41), 2 * q);
  }

  function Correct(w: nat, rem: nat, h: nat): nat {
    if rem > h || (rem == h && w % 2 == 1) then w + 1 else w
  }

  /** Rounding whole units and the rounded rest, against rounding them and the rest itself. */
  lemma SecondRounding(w: nat, rem: nat, r: nat, h: nat, q: nat)
    requires h > 0 && Hits(rem, h, q, r)
    ensures w <= NearestInt(Whole(w, 2 * h, r), 2 * h) <= w + 1
    ensures NearestInt(Whole(w, 2 * h, r), 2 * h) == Correct(w, rem, h) <==> !WrongTie(w, rem, h, q)
  {
    var b := Whole(w, 2 * h, r);
    if r == 2 * h {
      Distribute(w, 1, 2 * h);
      DivUnique(b, 2 * h, w + 1, 0);
    } else {
      DivUnique(b, 2 * h, w, r);
    }
  }

  /** The mantissa the code computes is the correct one unless the addition rounds onto a wrong tie. */
  lemma TinyMantissa(mag: nat)
    requires mag < Pow2(1060)
    ensures var m := NearestInt(mag, Pow2(1050));
            m <= 1024 && 1024 <= NearestInt(BiasedSum(mag), Pow2(1074)) <= 2048
            && (NearestInt(BiasedSum(mag), Pow2(1074)) - 1024 == m <==> !DoubleRounds(mag))
  {
    hide Pow2, RoundEven, BiasedSum, NearestInt, Hits, Whole, Correct, WrongTie, Units, Left;
    var x, h, q := Up24(mag), Pow2(1073), Pow2(1032);
    var lo, rem := Units(x, Pow2(1074)), Left(x, Pow2(1074));
    TinySame(mag);
    SumWeights();
    BiasedSumIs(mag);
    HalfwayRounds(rem, h, Pow2(41), q);
    SecondRounding(lo + 1024, rem, RoundEven(rem, q), h, q);
    NearestIs(x, h);
    ParityKept(lo, rem, h, q);
  }

  lemma NearestIs(x: nat, h: nat)
    requires h > 0
    ensures NearestInt(x, 2 * h) == Correct(Units(x, 2 * h), Left(x, 2 * h), h)
  {
  }

  lemma ParityKept(lo: nat, rem: nat, h: nat, q: nat)
    requires lo < 1024
    ensures Correct(lo + 1024, rem, h) == Correct(lo, rem, h) + 1024 && Correct(lo, rem, h) <= 1024
    ensures WrongTie(lo + 1024, rem, h, q) <==> WrongTie(lo, rem, h, q)
  {
  }

  /** The cast of a subnormal half, by its mantissa. */
  lemma TinyCast(neg: bool, mag: nat)
    requires mag < Pow2(1060)
    ensures var m := NearestInt(mag, Pow2(1050)); m <= 1024 && HalfOf(Fin(neg, mag)) == SignBit(neg) + m
  {
    hide Pow2, Log2, NearestInt, Fields, Raw;
    var m := NearestInt(mag, Pow2(1050));
    TwoTo5();
    Pow2Add(10, 1050);
    NearestIntIs(mag, Pow2(1050));
    NearestIntBounds(mag, Pow2(1050), 0, 1024);
    MulMonotone(m, 1024, Pow2(1050));
    Pow2Monotone(1060, 1090);
    assert RoundTo(HALF, mag) == Some(m * Pow2(1050));
    if m < 1024 {
      MulMonotone(m + 1, 1024, Pow2(1050));
      Distribute(m, 1, Pow2(1050));
      SubnormalFields(HALF, m * Pow2(1050));
      MulDiv(m, Pow2(1050));
      SmallRaw(neg, m);
    } else {
      NormalPattern(neg, 1050, 1024);
    }
  }

  lemma SmallRaw(neg: bool, m: nat)
    ensures Raw(HALF, neg, 0, m) == SignBit(neg) + m
  {
    HalfConstants();
  }

  /** Below 2^-14, to_half_rounded rounds correctly if and only if the addition does not round onto a wrong tie. */
  lemma TinyRounded(neg: bool, mag: nat)
    requires mag < Pow2(1060)
    ensures ToHalfRounded(Fin(neg, mag)) == HalfOf(Fin(neg, mag)) <==> !DoubleRounds(mag)
  {
    hide Pow2, Log2, ToHalf, NearestInt, Pattern, RoundTo, DoubleRounds;
    var d := Fin(neg, mag);
    TinyCast(neg, mag);
    TinyMantissa(mag);
    if ToHalf(d).Some? {
      ExactHalf(d);
      ExactNeverDoubles(neg, mag);
    } else {
      ZeroIsExact(neg);
      SmallLog(mag);
    }
  }

  lemma ZeroIsExact(neg: bool)
    ensures ToHalf(Fin(neg, 0)).Some?
  {
  }

  lemma SmallLog(mag: nat)
    requires 0 < mag < Pow2(1060)
    ensures Log2(mag) < 1060 && mag < 65520 * Pow2(1074)
  {
    SmallMagnitude(mag);
  }

  lemma ExactNeverDoubles(neg: bool, mag: nat)
    requires mag < Pow2(1060) && ToHalf(Fin(neg, mag)).Some?
    ensures !DoubleRounds(mag)
  {
    hide Pow2, Log2, ToHalf;
    ToHalfIsPattern(Fin(neg, mag));
    HalfConstants();
    SubnormalFields(HALF, mag);
    var p, s := Pow2(1050), Pow2(24);
    DivMod(mag, p);
    Pow2Add(1050, 24);
    var lo := mag / p;
    assert mag * s == lo * (p * s);
    MulDiv(lo, p * s);
    SumWeights();
    MulMonotone(2, Pow2(41), Pow2(1032));
    Pow2Monotone(1, 41);
    Pow2One();
  }

  lemma Pow2One()
    ensures Pow2(1) == 2
  {
  }

  // ---- the theorem ----

  /** to_half_rounded answers with the nearest half, ties to even, if and only if the double is not one of those below
      2^-14 whose biased sum rounds onto a wrong tie. */
  lemma RoundedExact(d: Double)
    requires !d.NaN?
    ensures ToHalfRounded(d) == HalfOf(d) <==> !(d.Fin? && d.mag < Pow2(1060) && DoubleRounds(d.mag))
  {
    hide Pow2, Log2, ToHalfRounded, HalfOf, DoubleRounds, ToHalf;
    match d
    case Inf(neg) => InfiniteRounded(neg);
    case Fin(neg, mag) =>
      if mag >= Pow2(1060) {
        NormalRounded(neg, mag);
      } else {
        TinyRounded(neg, mag);
      }
  }

  lemma InfiniteRounded(neg: bool)
    ensures ToHalfRounded(Inf(neg)) == HalfOf(Inf(neg))
  {
    InfinitePattern(neg);
  }

  /** A magnitude a double has, a little above the middle between the halves 0 and 2^-24. */
  function NearTie(): nat {
    Pow2(1049) + Pow2(997)
  }

  lemma NearTieIsDouble()
    ensures IsDouble(Fin(false, NearTie()))
  {
    hide Pow2, Log2;
    Pow2Monotone(997, 1049);
    Pow2Monotone(52, 1049);
    Pow2Step(1049);
    Log2Unique(NearTie(), 1049);
    Pow2Add(52, 997);
    Pow2Zero();
    MulDiv(Pow2(52) + 1, Pow2(997));
    Distribute(Pow2(52), 1, Pow2(997));
  }

  lemma NearTieDoubles()
    ensures DoubleRounds(NearTie()) && NearTie() < Pow2(1060)
  {
    hide Pow2;
    Pow2Monotone(997, 1049);
    Pow2Step(1049);
    Pow2Monotone(1050, 1060);
    Pow2Add(1049, 24);
    Pow2Add(997, 24);
    Distribute(Pow2(1049), Pow2(997), Pow2(24));
    SumWeights();
    Pow2Monotone(1021, 1022);
    Pow2Monotone(1022, 1032);
    Pow2Monotone(1032, 1073);
    Pow2Step(1021);
    var x := Up24(NearTie());
    assert x == Pow2(1073) + Pow2(1021);
    DivUnique(x, Pow2(1074), 0, x);
  }

  /** to_half_rounded(2^-25 + 2^-77) is not the nearest half. */
  lemma NearTieRounded()
    ensures var d := Fin(false, NearTie()); IsDouble(d) && ToHalfRounded(d) != HalfOf(d)
  {
    hide Pow2, IsDouble, ToHalfRounded, HalfOf, DoubleRounds, NearTie;
    NearTieIsDouble();
    NearTieDoubles();
    RoundedExact(Fin(false, NearTie()));
  }
}
