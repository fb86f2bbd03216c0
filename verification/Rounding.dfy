/** Rounding to a narrower format: nearest, ties to even; and the pinned half width. */
module Rounding {
  import opened Arith
  import opened Utf8
  import opened Floats

  function Distance(a: nat, b: nat): nat {
    if a < b then b - a else a - b
  }

  // ---- nearest multiples ----

  lemma NearMultiples(n: nat, q: nat)
    requires q > 0
    ensures Distance(n, n / q * q) == n % q && Distance(n, (n / q + 1) * q) == q - n % q
  {
    DivMod(n, q);
    Distribute(n / q, 1, q);
  }

  lemma FarMultiples(n: nat, q: nat, t: nat)
    requires q > 0
    ensures t < n / q ==> Distance(n, t * q) >= n % q + q
    ensures t > n / q + 1 ==> Distance(n, t * q) >= q - n % q + q
  {
    DivMod(n, q);
    var lo := n / q;
    Distribute(lo, 1, q);
    Distribute(lo + 1, 1, q);
    if t < lo {
      MulMonotone(t + 1, lo, q);
      Distribute(t, 1, q);
    } else if t > lo + 1 {
      MulMonotone(lo + 2, t, q);
    }
  }

  lemma Pick(rem: nat, q: nat, lo: nat, up: bool, d: nat, low: bool, high: bool)
    requires rem < q && (up <==> 2 * rem > q || (2 * rem == q && lo % 2 == 1))
    requires (low && d == rem) || (high && d == q - rem) || d >= rem + q || d >= q - rem + q
    ensures var best := if up then q - rem else rem;
            best <= d && (best == d && !(if up then high else low) ==> (if up then lo + 1 else lo) % 2 == 0)
  {
  }

  lemma RoundEvenIs(n: nat, q: nat)
    requires q > 0
    ensures var lo, rem := n / q, n % q;
            var up := 2 * rem > q || (2 * rem == q && lo % 2 == 1);
            RoundEven(n, q) == (if up then lo + 1 else lo) * q && RoundEven(n, q) % q == 0
            && RoundEven(n, q) / q == (if up then lo + 1 else lo)
            && Distance(n, RoundEven(n, q)) == (if up then q - rem else rem)
  {
    MulDiv(n / q, q);
    MulDiv(n / q + 1, q);
    NearMultiples(n, q);
  }

  /** RoundEven answers with the nearest multiple, and with the even one of two. */
  lemma NearestMultiple(n: nat, q: nat, t: nat)
    requires q > 0
    ensures var r := RoundEven(n, q);
            && r % q == 0 && Distance(n, r) <= Distance(n, t * q)
            && (Distance(n, r) == Distance(n, t * q) && t * q != r ==> r / q % 2 == 0)
  {
    hide Distance, RoundEven;
    DivMod(n, q);
    RoundEvenIs(n, q);
    var lo, rem := n / q, n % q;
    var up := 2 * rem > q || (2 * rem == q && lo % 2 == 1);
    NearMultiples(n, q);
    FarMultiples(n, q, t);
    Pick(rem, q, lo, up, Distance(n, t * q), t == lo, t == lo + 1);
  }

  lemma RoundEvenBounds(n: nat, q: nat, lo: nat, hi: nat)
    requires q > 0 && lo * q <= n < hi * q
    ensures lo * q <= RoundEven(n, q) <= hi * q
  {
    DivMod(n, q);
    QuotientAbove(n, q, lo);
    QuotientBelow(n, q, hi);
    MulMonotone(lo, n / q, q);
    MulMonotone(n / q + 1, hi, q);
    MulMonotone(n / q, n / q + 1, q);
  }

  // ---- nearest magnitudes of a format ----

  /** Magnitudes a format would have with exponents without end. */
  predicate OnGrid(f: Format, mag: nat) {
    var k := UlpBits(f, mag);
    k >= 0 && mag % Pow2(k) == 0
  }

  lemma UlpFloor(f: Format, mag: nat)
    ensures UlpBits(f, mag) >= f.shift
    ensures mag >= Pow2(f.mbits + f.shift) ==> Pow2(f.mbits + UlpBits(f, mag)) <= mag
    ensures mag < Pow2(f.mbits + 1 + UlpBits(f, mag))
  {
    hide Pow2;
    if mag >= Pow2(f.mbits + f.shift) {
      if Log2(mag) < f.mbits + f.shift {
        Pow2Monotone(Log2(mag) + 1, f.mbits + f.shift);
      }
    } else {
      Pow2Monotone(f.mbits + f.shift, f.mbits + 1 + f.shift);
    }
  }

  lemma UlpAt(f: Format, mag: nat, k: nat)
    requires k >= f.shift && Pow2(f.mbits + k) <= mag < Pow2(f.mbits + 1 + k)
    ensures UlpBits(f, mag) == k
  {
    hide Pow2, Log2;
    Pow2Monotone(f.mbits + f.shift, f.mbits + k);
    OneLog2(mag, f.mbits + k, Log2(mag));
  }

  /** The magnitudes of a format are those of its grid below the limit. */
  lemma FieldsIsGrid(f: Format, mag: nat)
    requires f.emax > 1
    ensures Fields(f, mag).Some? <==> OnGrid(f, mag) && mag < Limit(f)
  {
    hide Pow2, Log2;
    var small, top := f.mbits + f.shift, f.mbits + (f.emax - 1 + f.shift);
    UlpFloor(f, mag);
    if mag < Pow2(small) {
      Pow2Monotone(small, top);
    } else if Log2(mag) < top {
      Pow2Monotone(Log2(mag) + 1, top);
    } else {
      Pow2Monotone(top, Log2(mag));
    }
  }

  function Rounded(f: Format, mag: nat): nat {
    UlpFloor(f, mag);
    RoundEven(mag, Pow2(UlpBits(f, mag)))
  }

  /** The last place of a rounded magnitude is even. */
  predicate IsEven(f: Format, r: nat) {
    UlpFloor(f, r);
    r / Pow2(UlpBits(f, r)) % 2 == 0
  }

  /** A rounded magnitude is on the grid; its last place is that of the magnitude, unless it carried into the next. */
  lemma RoundedOnGrid(f: Format, mag: nat)
    requires f.mbits > 0
    ensures var k, r := UlpBits(f, mag), Rounded(f, mag);
            k >= 0 && OnGrid(f, r) && (r / Pow2(k) % 2 == 0 ==> IsEven(f, r))
            && (mag >= Pow2(f.mbits + f.shift) ==> r >= Pow2(f.mbits + k))
  {
    hide Pow2, Log2, RoundEven;
    UlpFloor(f, mag);
    var k := UlpBits(f, mag);
    var q, r, top := Pow2(k), Rounded(f, mag), f.mbits + 1 + k;
    NearestMultiple(mag, q, 0);
    Pow2Add(f.mbits, k);
    Pow2Add(f.mbits + 1, k);
    RoundEvenBounds(mag, q, if mag >= Pow2(f.mbits + f.shift) then Pow2(f.mbits) else 0, Pow2(f.mbits + 1));
    if r == Pow2(top) {
      Carried(f, k);
    } else if r >= Pow2(f.mbits + k) {
      UlpAt(f, r, k);
    } else {
      BelowGrid(f, mag, r);
    }
  }

  lemma BelowGrid(f: Format, mag: nat, r: nat)
    requires mag < Pow2(f.mbits + f.shift) && r < Pow2(f.mbits + UlpBits(f, mag))
    ensures UlpBits(f, r) == UlpBits(f, mag)
  {
  }

  lemma Carried(f: Format, k: nat)
    requires k >= f.shift && f.mbits > 0
    ensures var r := Pow2(f.mbits + 1 + k); UlpBits(f, r) == k + 1 && OnGrid(f, r) && IsEven(f, r)
  {
    hide Pow2, Log2;
    var r := Pow2(f.mbits + 1 + k);
    Pow2Monotone(f.mbits + 1 + k, f.mbits + 1 + (k + 1));
    UlpAt(f, r, k + 1);
    Pow2Add(f.mbits, k + 1);
    MulDiv(Pow2(f.mbits), Pow2(k + 1));
    EvenPow2(f.mbits);
  }

  lemma EvenPow2(n: nat)
    requires n > 0
    ensures Pow2(n) % 2 == 0
  {
  }

  /** No magnitude of the grid is nearer than the rounded one; of two equally near ones it is the even one. */
  lemma RoundNearest(f: Format, mag: nat, m: nat)
    requires f.mbits > 0 && OnGrid(f, m)
    ensures var r := Rounded(f, mag);
            && OnGrid(f, r) && Distance(mag, r) <= Distance(mag, m)
            && (Distance(mag, r) == Distance(mag, m) && m != r ==> IsEven(f, r))
  {
    hide Pow2, Log2, RoundEven, IsEven, UlpBits, Distance, Rounded, OnGrid;
    UlpFloor(f, m);
    RoundedOnGrid(f, mag);
    if UlpBits(f, m) >= UlpBits(f, mag) {
      NearestSameGrid(f, mag, m);
    } else {
      NearestLowerGrid(f, mag, m);
    }
  }

  lemma NearestSameGrid(f: Format, mag: nat, m: nat)
    requires UlpBits(f, mag) >= 0 && OnGrid(f, m) && UlpBits(f, m) >= UlpBits(f, mag)
    ensures var r := Rounded(f, mag);
            Distance(mag, r) <= Distance(mag, m)
            && (Distance(mag, r) == Distance(mag, m) && m != r ==> r / Pow2(UlpBits(f, mag)) % 2 == 0)
  {
    hide Pow2, Log2, RoundEven, UlpBits, Distance;
    var k := UlpBits(f, mag);
    Pow2Divides(m, k, UlpBits(f, m));
    DivMod(m, Pow2(k));
    NearestMultiple(mag, Pow2(k), m / Pow2(k));
  }

  /** A magnitude of a lower binade: the start of the binade of `mag` is between them. */
  lemma NearestLowerGrid(f: Format, mag: nat, m: nat)
    requires 0 <= UlpBits(f, m) < UlpBits(f, mag)
    ensures Distance(mag, Rounded(f, mag)) < Distance(mag, m)
  {
    hide Pow2, Log2, RoundEven, UlpBits;
    UlpFloor(f, mag);
    UlpFloor(f, m);
    LowerIsBelow(f, mag, m);
    var k := UlpBits(f, mag);
    Pow2Monotone(f.mbits + 1 + UlpBits(f, m), f.mbits + k);
    Pow2Add(f.mbits, k);
    NearestMultiple(mag, Pow2(k), Pow2(f.mbits));
  }

  lemma LowerIsBelow(f: Format, mag: nat, m: nat)
    requires UlpBits(f, m) < UlpBits(f, mag)
    ensures mag >= Pow2(f.mbits + f.shift)
  {
    UlpFloor(f, m);
  }

  /** A cast to a format, exact or not. */
  function Cast(f: Format, d: Double): Double
    requires f.emax > 1
  {
    match d
    case NaN => NaN
    case Inf(neg) => Inf(neg)
    case Fin(neg, mag) => if RoundTo(f, mag).Some? then Fin(neg, RoundTo(f, mag).value) else Inf(neg)
  }

  lemma RoundToIs(f: Format, mag: nat)
    requires f.emax > 1
    ensures RoundTo(f, mag) == if Rounded(f, mag) >= Limit(f) then None else Some(Rounded(f, mag))
  {
    UlpFloor(f, mag);
  }

  /** A cast gives a value of the format; no other value of the format is nearer, and the even one of two is taken.
      Only what rounds to the limit or beyond becomes infinite. */
  lemma CastNearest(f: Format, neg: bool, mag: nat, m: nat)
    requires f.mbits > 0 && f.emax > 1 && Fields(f, m).Some?
    ensures match Cast(f, Fin(neg, mag))
            case Fin(s, r) => s == neg && Fields(f, r).Some? && Distance(mag, r) <= Distance(mag, m)
                              && (Distance(mag, r) == Distance(mag, m) && m != r ==> IsEven(f, r))
            case Inf(s) => s == neg && Distance(mag, Limit(f)) <= Distance(mag, m)
            case NaN => false
  {
    hide Pow2, Log2, RoundEven, IsEven, Fields, RoundTo, Rounded, OnGrid;
    RoundToIs(f, mag);
    FieldsIsGrid(f, m);
    RoundNearest(f, mag, m);
    FieldsIsGrid(f, Rounded(f, mag));
    LimitOnGrid(f);
    RoundNearest(f, mag, Limit(f));
  }

  lemma LimitOnGrid(f: Format)
    requires f.emax > 1
    ensures OnGrid(f, Limit(f))
  {
    hide Pow2, Log2;
    var k := f.emax - 1 + f.shift;
    Pow2Monotone(f.mbits + k, f.mbits + 1 + k);
    UlpAt(f, Limit(f), k);
    Pow2Add(f.mbits, k);
    MulDiv(Pow2(f.mbits), Pow2(k));
  }

  /** What a format has is cast to itself. */
  lemma CastExact(f: Format, d: Double)
    requires f.emax > 1 && !d.NaN?
    ensures Cast(f, d) == d <==> Pattern(f, d).Some?
  {
    if d.Fin? {
      RoundToExact(f, d.mag);
    }
  }
}
