/** JSON numbers: scanning, exact 64-bit integers, and the grammar of section 6 of RFC 8259. */
module JsonNumber {
  import opened Bytes
  import opened Utf8

  const MINUS: byte := 0x2D
  const PLUS: byte := 0x2B
  const DOT: byte := 0x2E
  const ZERO: byte := 0x30

  predicate Digit(b: byte) {
    0x30 <= b <= 0x39
  }

  predicate DigitAt(s: seq<byte>, i: nat) {
    i < |s| && Digit(s[i])
  }

  predicate AllDigits(ds: seq<byte>) {
    forall b | b in ds :: Digit(b)
  }

  /** First index from `i` on that holds no digit. */
  function DigitsEnd(s: seq<byte>, i: nat): (r: nat)
    requires i <= |s|
    ensures i <= r <= |s| && !DigitAt(s, r)
    ensures forall k :: i <= k < r ==> Digit(s[k])
    decreases |s| - i
  {
    if DigitAt(s, i) then DigitsEnd(s, i + 1) else i
  }

  // ---- the scanner ----

  /** A zero, or digits without a leading zero. */
  function IntEnd(s: seq<byte>, i: nat): (r: Option<nat>)
    ensures r.Some? ==> i < r.value <= |s|
  {
    if !DigitAt(s, i) then None
    else if s[i] == ZERO then if DigitAt(s, i + 1) then None else Some(i + 1)
    else Some(DigitsEnd(s, i + 1))
  }

  function FracEnd(s: seq<byte>, i: nat): (r: Option<nat>)
    requires i <= |s|
    ensures r.Some? ==> i <= r.value <= |s|
  {
    if i < |s| && s[i] == DOT then if DigitAt(s, i + 1) then Some(DigitsEnd(s, i + 1)) else None
    else Some(i)
  }

  predicate IsE(b: byte) {
    b == 0x65 || b == 0x45
  }

  function SignEnd(s: seq<byte>, i: nat): nat {
    if i < |s| && (s[i] == PLUS || s[i] == MINUS) then i + 1 else i
  }

  function ExpEnd(s: seq<byte>, i: nat): (r: Option<nat>)
    requires i <= |s|
    ensures r.Some? ==> i <= r.value <= |s|
  {
    if i < |s| && IsE(s[i]) then
      var j := SignEnd(s, i + 1);
      if DigitAt(s, j) then Some(DigitsEnd(s, j)) else None
    else Some(i)
  }

  /** Ends of the integer part and of the whole number. */
  datatype Extents = NoExtents | Extents(whole: nat, end: nat)

  function IntStart(s: seq<byte>, pos: nat): nat {
    if pos < |s| && s[pos] == MINUS then pos + 1 else pos
  }

  function ScanExtents(s: seq<byte>, pos: nat): (r: Extents)
    ensures r.Extents? ==> IntStart(s, pos) < r.whole <= r.end <= |s|
  {
    match IntEnd(s, IntStart(s, pos))
    case None => NoExtents
    case Some(i) =>
      match FracEnd(s, i)
      case None => NoExtents
      case Some(f) =>
        match ExpEnd(s, f)
        case None => NoExtents
        case Some(e) => Extents(i, e)
  }

  /** The number a sequence of digits spells. */
  function DecValue(ds: seq<byte>): nat
    requires AllDigits(ds)
  {
    if ds == [] then 0 else assert Digit(ds[|ds| - 1]); DecValue(ds[..|ds| - 1]) * 10 + (ds[|ds| - 1] - ZERO)
  }

  lemma ExtentDigits(s: seq<byte>, pos: nat)
    requires ScanExtents(s, pos).Extents?
    ensures AllDigits(s[IntStart(s, pos)..ScanExtents(s, pos).whole])
  {
  }

  datatype Scan = BadNumber(outOfRange: bool) | IntScan(end: nat, i: int) | RealScan(end: nat)

  /** scan_number. `overflows` says which literals are too large for a double: the library's conversion. */
  function ScanNumber(overflows: seq<byte> -> bool, s: seq<byte>, pos: nat): (r: Scan)
    requires pos <= |s|
    ensures !r.BadNumber? ==> pos < r.end <= |s|
    ensures r.IntScan? ==> -TWO63 <= r.i < TWO64
  {
    match ScanExtents(s, pos)
    case NoExtents => BadNumber(false)
    case Extents(whole, end) =>
      ExtentDigits(s, pos);
      var neg := s[pos] == MINUS;
      var v: int := DecValue(s[IntStart(s, pos)..whole]);
      if whole == end && v < TWO64 && (neg ==> v <= TWO63) then IntScan(end, if neg then -v else v)
      else if overflows(s[pos..end]) then BadNumber(true)
      else RealScan(end)
  }

  // ---- the loops ----

  method SkipDigits(s: seq<byte>, start: nat) returns (i: nat)
    requires start <= |s|
    ensures i == DigitsEnd(s, start)
  {
    i := start;
    while i < |s| && Digit(s[i])
      invariant start <= i <= |s| && DigitsEnd(s, i) == DigitsEnd(s, start)
    {
      i := i + 1;
    }
  }

  lemma {:induction false} DecValueGrows(ds: seq<byte>, k: nat)
    requires AllDigits(ds) && k <= |ds|
    ensures AllDigits(ds[..k]) && DecValue(ds[..k]) <= DecValue(ds)
    decreases |ds|
  {
    if k == |ds| {
      assert ds[..k] == ds;
    } else {
      DecValueGrows(ds[..|ds| - 1], k);
      assert Digit(ds[|ds| - 1]);
      assert ds[..|ds| - 1][..k] == ds[..k];
    }
  }

  /** The accumulator in 64 bits: overflow is noticed exactly when the value does not fit. */
  method Accumulate(digits: seq<byte>) returns (v: nat, overflow: bool)
    requires AllDigits(digits)
    ensures overflow <==> DecValue(digits) >= TWO64
    ensures !overflow ==> v == DecValue(digits)
  {
    v, overflow := 0, false;
    for i := 0 to |digits|
      invariant AllDigits(digits[..i]) && v == DecValue(digits[..i]) && v < TWO64 && !overflow
    {
      assert digits[..i + 1][..i] == digits[..i] && digits[i] in digits;
      var d := digits[i] - ZERO;
      DecValueGrows(digits, i + 1);
      if v > (TWO64 - 1 - d) / 10 {
        overflow := true;
        return;
      }
      v := v * 10 + d;
    }
    assert digits[..|digits|] == digits;
  }

  method ScanInt(s: seq<byte>, i: nat) returns (r: Option<nat>)
    ensures r == IntEnd(s, i)
  {
    if i >= |s| || !Digit(s[i]) {
      return None;
    }
    if s[i] == ZERO {
      if i + 1 < |s| && Digit(s[i + 1]) {
        return None;
      }
      return Some(i + 1);
    }
    var e := SkipDigits(s, i + 1);
    return Some(e);
  }

  method ScanFrac(s: seq<byte>, i: nat) returns (r: Option<nat>)
    requires i <= |s|
    ensures r == FracEnd(s, i)
  {
    if i >= |s| || s[i] != DOT {
      return Some(i);
    }
    if i + 1 >= |s| || !Digit(s[i + 1]) {
      return None;
    }
    var e := SkipDigits(s, i + 1);
    return Some(e);
  }

  method ScanExp(s: seq<byte>, i: nat) returns (r: Option<nat>)
    requires i <= |s|
    ensures r == ExpEnd(s, i)
  {
    if i >= |s| || !IsE(s[i]) {
      return Some(i);
    }
    var j := i + 1;
    if j < |s| && (s[j] == PLUS || s[j] == MINUS) {
      j := j + 1;
    }
    if j >= |s| || !Digit(s[j]) {
      return None;
    }
    var e := SkipDigits(s, j);
    return Some(e);
  }

  method ScanExtentsAt(s: seq<byte>, pos: nat) returns (r: Extents)
    requires pos <= |s|
    ensures r == ScanExtents(s, pos)
  {
    hide IntEnd, FracEnd, ExpEnd;
    var i := pos;
    if i < |s| && s[i] == MINUS {
      i := i + 1;
    }
    var whole := ScanInt(s, i);
    if whole.None? {
      return NoExtents;
    }
    var frac := ScanFrac(s, whole.value);
    if frac.None? {
      return NoExtents;
    }
    var end := ScanExp(s, frac.value);
    if end.None? {
      return NoExtents;
    }
    return Extents(whole.value, end.value);
  }

  method ScanNumberAt(overflows: seq<byte> -> bool, s: seq<byte>, pos: nat) returns (r: Scan)
    requires pos <= |s|
    ensures r == ScanNumber(overflows, s, pos)
  {
    hide ScanExtents, DecValue;
    var ext := ScanExtentsAt(s, pos);
    if ext.NoExtents? {
      return BadNumber(false);
    }
    var end, neg := ext.end, s[pos] == MINUS;
    if ext.whole == end {
      ExtentDigits(s, pos);
      var v: int, overflow := Accumulate(s[IntStart(s, pos)..end]);
      if !overflow && (neg ==> v <= TWO63) {
        return IntScan(end, if neg then -v else v);
      }
    }
    if overflows(s[pos..end]) {
      return BadNumber(true);
    }
    return RealScan(end);
  }

  // ---- integers written and read ----

  /** to_chars of an integer. */
  function Dec(n: nat): (ds: seq<byte>)
    ensures AllDigits(ds) && ds != []
  {
    if n < 10 then [ZERO + n] else Dec(n / 10) + [ZERO + n % 10]
  }

  function DecInt(i: int): seq<byte> {
    if i < 0 then [MINUS] + Dec(-i) else Dec(i)
  }

  lemma {:induction false} DecValueOfDec(n: nat)
    ensures DecValue(Dec(n)) == n
    decreases n
  {
    if n >= 10 {
      DecValueOfDec(n / 10);
      var ds := Dec(n);
      assert ds[..|ds| - 1] == Dec(n / 10);
    } else {
      var ds := Dec(n);
      assert ds[..0] == [] && ds[0] == ZERO + n;
    }
  }

  lemma {:induction false} DecLeading(n: nat)
    ensures n > 0 ==> Dec(n)[0] != ZERO
    ensures n == 0 ==> Dec(n) == [ZERO]
    decreases n
  {
    if n >= 10 {
      DecLeading(n / 10);
    }
  }

  /** Nothing that could continue a number follows. */
  predicate Stops(s: seq<byte>, e: nat) {
    e < |s| ==> !Digit(s[e]) && s[e] != DOT && !IsE(s[e])
  }

  lemma {:induction false} DigitsThrough(s: seq<byte>, i: nat, e: nat)
    requires i <= e <= |s| && !DigitAt(s, e) && forall k :: i <= k < e ==> Digit(s[k])
    ensures DigitsEnd(s, i) == e
    decreases e - i
  {
    if i < e {
      DigitsThrough(s, i + 1, e);
    }
  }

  lemma IntEndOf(s: seq<byte>, i: nat, ds: seq<byte>)
    requires At(s, i, ds) && AllDigits(ds) && ds != [] && (ds[0] == ZERO ==> |ds| == 1) && !DigitAt(s, i + |ds|)
    ensures IntEnd(s, i) == Some(i + |ds|)
  {
    var e := i + |ds|;
    forall k | i <= k < e
      ensures Digit(s[k])
    {
      assert s[k] == ds[k - i];
    }
    assert s[i] == ds[0];
    DigitsThrough(s, i, e);
    DigitsThrough(s, i + 1, e);
  }

  /** A 64-bit integer written in decimal is scanned as that integer, whatever follows it, if the number stops there. */
  lemma ScanDec(overflows: seq<byte> -> bool, s: seq<byte>, pos: nat, i: int)
    requires -TWO63 <= i < TWO64 && At(s, pos, DecInt(i)) && Stops(s, pos + |DecInt(i)|)
    ensures ScanNumber(overflows, s, pos) == IntScan(pos + |DecInt(i)|, i)
  {
    hide Dec, DecValue, DigitsEnd, IntEnd, IntStart, ScanNumber;
    var ds := Dec(if i < 0 then -i else i);
    var start := if i < 0 then pos + 1 else pos;
    DecLeading(if i < 0 then -i else i);
    DecValueOfDec(if i < 0 then -i else i);
    DecStarts(s, pos, i, ds);
    IntEndOf(s, start, ds);
    DecScanned(overflows, s, pos, i, start, ds);
  }

  /** Where the digits of an integer start. */
  lemma DecStarts(s: seq<byte>, pos: nat, i: int, ds: seq<byte>)
    requires ds != [] && AllDigits(ds) && At(s, pos, if i < 0 then [MINUS] + ds else ds)
    ensures var start := if i < 0 then pos + 1 else pos;
            && At(s, start, ds) && pos < |s| && start + |ds| <= |s| && s[start..start + |ds|] == ds
            && IntStart(s, pos) == start && (s[pos] == MINUS <==> i < 0)
  {
    if i < 0 {
      AtConcat(s, pos, [MINUS], ds);
      assert s[pos..pos + 1][0] == s[pos];
    } else {
      assert s[pos] == ds[0] && Digit(ds[0]);
    }
  }

  lemma DecScanned(overflows: seq<byte> -> bool, s: seq<byte>, pos: nat, i: int, start: nat, ds: seq<byte>)
    requires -TWO63 <= i < TWO64 && pos < |s| && start + |ds| <= |s| && s[start..start + |ds|] == ds
    requires IntStart(s, pos) == start && IntEnd(s, start) == Some(start + |ds|) && Stops(s, start + |ds|)
    requires (s[pos] == MINUS <==> i < 0) && AllDigits(ds) && DecValue(ds) == if i < 0 then -i else i
    ensures ScanNumber(overflows, s, pos) == IntScan(start + |ds|, i)
  {
    hide DecValue, DigitsEnd, IntEnd, IntStart, AllDigits;
  }

  // ---- the grammar of numbers ----

  datatype Exponent = NoExp | Exp(e: byte, sign: seq<byte>, digits: seq<byte>)

  /** A number by its parts; an empty fraction is no fraction. */
  datatype Num = Num(neg: bool, whole: seq<byte>, frac: seq<byte>, exp: Exponent)

  predicate ExpOk(x: Exponent) {
    x.Exp? ==>
      IsE(x.e) && (x.sign == [] || x.sign == [PLUS] || x.sign == [MINUS]) && x.digits != [] && AllDigits(x.digits)
  }

  predicate NumOk(n: Num) {
    && n.whole != [] && AllDigits(n.whole) && (n.whole[0] == ZERO ==> |n.whole| == 1)
    && AllDigits(n.frac) && ExpOk(n.exp)
  }

  function FracText(frac: seq<byte>): seq<byte> {
    if frac == [] then [] else [DOT] + frac
  }

  function ExpText(x: Exponent): seq<byte> {
    if x.NoExp? then [] else [x.e] + (x.sign + x.digits)
  }

  function NumText(n: Num): seq<byte> {
    (if n.neg then [MINUS] else []) + (n.whole + (FracText(n.frac) + ExpText(n.exp)))
  }

  lemma DigitRun(s: seq<byte>, i: nat, ds: seq<byte>)
    requires At(s, i, ds) && AllDigits(ds) && !DigitAt(s, i + |ds|)
    ensures DigitsEnd(s, i) == i + |ds|
  {
    forall k | i <= k < i + |ds|
      ensures Digit(s[k])
    {
      assert s[k] == ds[k - i];
    }
    DigitsThrough(s, i, i + |ds|);
  }

  lemma FirstOf(s: seq<byte>, i: nat, a: byte, rest: seq<byte>)
    requires At(s, i, [a] + rest)
    ensures i < |s| && s[i] == a && At(s, i + 1, rest)
  {
    AtConcat(s, i, [a], rest);
    assert s[i] == s[i..i + 1][0];
  }

  lemma FracScanned(s: seq<byte>, i: nat, frac: seq<byte>, exp: Exponent)
    requires AllDigits(frac) && ExpOk(exp) && At(s, i, FracText(frac) + ExpText(exp))
             && Stops(s, i + |FracText(frac) + ExpText(exp)|)
    ensures FracEnd(s, i) == Some(i + |FracText(frac)|) && !DigitAt(s, i)
    ensures At(s, i + |FracText(frac)|, ExpText(exp)) && !DigitAt(s, i + |FracText(frac)|)
  {
    hide DigitsEnd;
    var j := i + |FracText(frac)|;
    AtConcat(s, i, FracText(frac), ExpText(exp));
    if exp.Exp? {
      FirstOf(s, j, exp.e, exp.sign + exp.digits);
    }
    if frac != [] {
      FirstOf(s, i, DOT, frac);
      DigitRun(s, i + 1, frac);
      assert s[i + 1] == frac[0];
    }
  }

  lemma ExpScanned(s: seq<byte>, i: nat, x: Exponent)
    requires ExpOk(x) && At(s, i, ExpText(x)) && Stops(s, i + |ExpText(x)|)
    ensures ExpEnd(s, i) == Some(i + |ExpText(x)|)
  {
    hide ExpEnd, At, AllDigits, Stops;
    if x.NoExp? {
      NoExpEnds(s, i);
    } else {
      FirstOf(s, i, x.e, x.sign + x.digits);
      DigitsScanned(s, i, x.sign, x.digits);
    }
  }

  lemma DigitsScanned(s: seq<byte>, i: nat, sign: seq<byte>, digits: seq<byte>)
    requires i < |s| && IsE(s[i]) && At(s, i + 1, sign + digits) && Stops(s, i + 1 + |sign + digits|)
    requires sign in {[], [PLUS], [MINUS]} && digits != [] && AllDigits(digits)
    ensures ExpEnd(s, i) == Some(i + 1 + |sign + digits|)
  {
    hide ExpEnd, At, AllDigits, DigitsEnd, SignEnd;
    AtConcat(s, i + 1, sign, digits);
    var j := i + 1 + |sign|;
    SignScanned(s, i + 1, sign, digits);
    DigitRun(s, j, digits);
    ExpEnds(s, i, j, j + |digits|);
  }

  lemma NoExpEnds(s: seq<byte>, i: nat)
    requires At(s, i, []) && Stops(s, i)
    ensures ExpEnd(s, i) == Some(i)
  {
  }

  lemma ExpEnds(s: seq<byte>, i: nat, j: nat, e: nat)
    requires i < |s| && IsE(s[i]) && SignEnd(s, i + 1) == j && DigitAt(s, j) && DigitsEnd(s, j) == e
    ensures ExpEnd(s, i) == Some(e)
  {
    hide SignEnd, DigitAt, DigitsEnd;
  }

  lemma SignScanned(s: seq<byte>, i: nat, sign: seq<byte>, digits: seq<byte>)
    requires At(s, i, sign) && At(s, i + |sign|, digits) && digits != [] && AllDigits(digits)
    requires sign in {[], [PLUS], [MINUS]}
    ensures SignEnd(s, i) == i + |sign| && DigitAt(s, i + |sign|)
  {
    hide At;
    FirstAt(s, i + |sign|, digits);
    assert Digit(digits[0]);
    if sign != [] {
      FirstAt(s, i, sign);
    }
  }

  /** Every number of the grammar that stops is scanned to its end. */
  lemma NumScanned(s: seq<byte>, pos: nat, n: Num)
    requires NumOk(n) && At(s, pos, NumText(n)) && Stops(s, pos + |NumText(n)|)
    ensures ScanExtents(s, pos).Extents? && ScanExtents(s, pos).end == pos + |NumText(n)|
  {
    hide IntEnd, FracEnd, ExpEnd, FracText, ExpText, At;
    var minus := if n.neg then [MINUS] else [];
    var tail := FracText(n.frac) + ExpText(n.exp);
    AtConcat(s, pos, minus, n.whole + tail);
    var i := pos + |minus|;
    AtConcat(s, i, n.whole, tail);
    FirstAt(s, i, n.whole);
    assert Digit(n.whole[0]);
    if n.neg {
      FirstAt(s, pos, minus);
    }
    assert IntStart(s, pos) == i;
    FracScanned(s, i + |n.whole|, n.frac, n.exp);
    IntEndOf(s, i, n.whole);
    ExpScanned(s, i + |n.whole| + |FracText(n.frac)|, n.exp);
  }

  lemma RunDigits(s: seq<byte>, i: nat)
    requires i <= |s|
    ensures AllDigits(s[i..DigitsEnd(s, i)])
  {
    hide DigitsEnd;
  }

  lemma FracFound(s: seq<byte>, i: nat) returns (frac: seq<byte>)
    requires i <= |s| && FracEnd(s, i).Some?
    ensures AllDigits(frac) && FracText(frac) == s[i..FracEnd(s, i).value]
  {
    if i < |s| && s[i] == DOT {
      RunDigits(s, i + 1);
      frac := s[i + 1..FracEnd(s, i).value];
    } else {
      frac := [];
    }
  }

  lemma ExpFound(s: seq<byte>, i: nat) returns (x: Exponent)
    requires i <= |s| && ExpEnd(s, i).Some?
    ensures ExpOk(x) && ExpText(x) == s[i..ExpEnd(s, i).value]
  {
    if i < |s| && IsE(s[i]) {
      var j, e := SignEnd(s, i + 1), ExpEnd(s, i).value;
      RunDigits(s, j);
      x := Exp(s[i], s[i + 1..j], s[j..e]);
      assert s[i..e] == [s[i]] + (s[i + 1..j] + s[j..e]);
    } else {
      x := NoExp;
    }
  }

  lemma WholeFound(s: seq<byte>, i: nat)
    requires IntEnd(s, i).Some?
    ensures var w := s[i..IntEnd(s, i).value]; w != [] && AllDigits(w) && (w[0] == ZERO ==> |w| == 1)
  {
  }

  lemma Parts(s: seq<byte>, a: nat, b: nat, c: nat, d: nat, e: nat)
    requires a <= b <= c <= d <= e <= |s|
    ensures s[a..e] == s[a..b] + (s[b..c] + (s[c..d] + s[d..e]))
  {
    assert s[c..e] == s[c..d] + s[d..e];
    assert s[b..e] == s[b..c] + s[c..e];
    assert s[a..e] == s[a..b] + s[b..e];
  }

  /** Whatever is scanned is a number of the grammar. */
  lemma NumFound(s: seq<byte>, pos: nat) returns (n: Num)
    requires pos <= |s| && ScanExtents(s, pos).Extents?
    ensures NumOk(n) && NumText(n) == s[pos..ScanExtents(s, pos).end]
  {
    hide IntEnd, FracEnd, ExpEnd, FracText, ExpText;
    var i := IntStart(s, pos);
    var w, e := ScanExtents(s, pos).whole, ScanExtents(s, pos).end;
    WholeFound(s, i);
    var frac := FracFound(s, w);
    var f := FracEnd(s, w).value;
    var x := ExpFound(s, f);
    n := Num(i > pos, s[i..w], frac, x);
    Parts(s, pos, i, w, f, e);
    assert s[pos..i] == if i > pos then [MINUS] else [];
  }

  /** scan_number accepts exactly the numbers of section 6 of RFC 8259, wherever the number stops. */
  lemma ScanIsGrammar(s: seq<byte>, pos: nat, end: nat)
    requires pos <= end <= |s| && Stops(s, end)
    ensures (ScanExtents(s, pos).Extents? && ScanExtents(s, pos).end == end)
            <==> exists n :: NumOk(n) && NumText(n) == s[pos..end]
  {
    hide ScanExtents, NumOk, NumText, Stops;
    if ScanExtents(s, pos).Extents? && ScanExtents(s, pos).end == end {
      var _ := NumFound(s, pos);
    }
    if n :| NumOk(n) && NumText(n) == s[pos..end] {
      NumScanned(s, pos, n);
    }
  }
}
