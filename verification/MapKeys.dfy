/** Text keys of maps with integer keys: exactly the decimal spellings of the integers of the type. */
module MapKeys {
  import opened Bytes
  import opened SkipSpec
  import opened BuildSpec
  import N = JsonNumber

  /** An optional minus sign, for signed types only, and digits that spell `i`. */
  ghost predicate Spelled(signed: bool, s: seq<byte>, i: int) {
    exists neg: bool, ds :: SpelledBy(signed, s, i, neg, ds)
  }

  predicate SpelledBy(signed: bool, s: seq<byte>, i: int, neg: bool, ds: seq<byte>) {
    ds != [] && N.AllDigits(ds) && (neg ==> signed) && s == (if neg then [N.MINUS] else []) + ds
      && i == (if neg then -(N.DecValue(ds) as int) else N.DecValue(ds))
  }

  /** The digits in front of `s`, behind others: as many as there are, and the number they all spell. */
  lemma {:induction false} DigitsSpell(pre: seq<byte>, s: seq<byte>)
    requires N.AllDigits(pre)
    ensures var (n, v) := Digits(s, N.DecValue(pre));
            && N.AllDigits(s[..n]) && (n < |s| ==> !N.Digit(s[n]))
            && N.AllDigits(pre + s[..n]) && v == N.DecValue(pre + s[..n])
    decreases |s|
  {
    if s != [] && N.Digit(s[0]) {
      var next := pre + [s[0]];
      assert next[..|next| - 1] == pre;
      DigitsSpell(next, s[1..]);
      var (n, v) := Digits(s[1..], N.DecValue(next));
      assert s[..n + 1] == [s[0]] + s[1..][..n] && pre + s[..n + 1] == next + s[1..][..n];
    } else {
      assert pre + s[..0] == pre;
    }
  }

  lemma PrefixDigits(s: seq<byte>, n: nat)
    requires n <= |s| && N.AllDigits(s[..n])
    ensures forall k :: 0 <= k < n ==> N.Digit(s[k])
  {
    forall k | 0 <= k < n
      ensures N.Digit(s[k])
    {
      assert s[..n][k] == s[k] && s[..n][k] in s[..n];
    }
  }

  /** Digits that end where no digit follows are all the digits in front. */
  lemma DigitsEndThere(s: seq<byte>, n: nat)
    requires n <= |s| && N.AllDigits(s[..n]) && (n < |s| ==> !N.Digit(s[n]))
    ensures Digits(s, 0) == (n, N.DecValue(s[..n]))
  {
    hide Digits;
    DigitsSpell([], s);
    var (m, v) := Digits(s, 0);
    PrefixDigits(s, n);
    PrefixDigits(s, m);
    assert m == n;
    assert [] + s[..m] == s[..m];
  }

  /** What parse_integral_key makes of a spelling with something else behind it. */
  lemma SpellingTaken(t: IntType, s: seq<byte>, off: nat, k: nat, i: int, neg: bool, ds: seq<byte>)
    requires k <= |s| && SpelledBy(t.Signed?, s[..k], i, neg, ds) && (k < |s| ==> !N.Digit(s[k]))
    ensures ParseKey(t, s, off)
            == if !t.Has(i) then Missed(Error(OutOfRange, off))
               else if k < |s| then Missed(Error(TypeMismatch, off)) else Got(i, 0)
  {
    hide Digits, N.DecValue;
    assert s[0] == s[..k][0];
    assert N.Digit(ds[0]);
    var digits := if neg then s[1..] else s;
    assert digits[..|ds|] == ds;
    DigitsEndThere(digits, |ds|);
  }

  /** Anything that begins like an integer of the type begins with a spelling that no digit follows. */
  lemma SpellingFound(t: IntType, s: seq<byte>, off: nat) returns (k: nat, i: int, neg: bool, ds: seq<byte>)
    requires ParseKey(t, s, off) != Missed(Error(TypeMismatch, off))
    ensures k <= |s| && SpelledBy(t.Signed?, s[..k], i, neg, ds) && (k < |s| ==> !N.Digit(s[k]))
  {
    hide Digits, N.DecValue;
    neg := t.Signed? && s != [] && s[0] == 0x2D;
    var digits := if neg then s[1..] else s;
    DigitsSpell([], digits);
    N0();
    var (n, v) := Digits(digits, 0);
    ds := digits[..n];
    assert [] + ds == ds;
    k := if neg then n + 1 else n;
    i := if neg then -(N.DecValue(ds) as int) else N.DecValue(ds);
    assert s[..k] == (if neg then [N.MINUS] else []) + ds;
  }

  lemma N0()
    ensures N.DecValue([]) == 0
  {
  }

  /** A text key is read as `i` exactly when it spells `i` and the type has it. */
  lemma KeyExact(t: IntType, s: seq<byte>, off: nat, i: int)
    ensures ParseKey(t, s, off) == Got(i, 0) <==> t.Has(i) && Spelled(t.Signed?, s, i)
  {
    hide ParseKey;
    assert s[..|s|] == s;
    if ParseKey(t, s, off) == Got(i, 0) {
      var k, j, neg, ds := SpellingFound(t, s, off);
      SpellingTaken(t, s, off, k, j, neg, ds);
    }
    if t.Has(i) && Spelled(t.Signed?, s, i) {
      var neg, ds :| SpelledBy(t.Signed?, s, i, neg, ds);
      SpellingTaken(t, s, off, |s|, i, neg, ds);
    }
  }

  /** It is out of range exactly when the number in front does not fit, whatever follows it. */
  lemma KeyOutOfRange(t: IntType, s: seq<byte>, off: nat)
    ensures ParseKey(t, s, off) == Missed(Error(OutOfRange, off))
            <==> exists k, i :: 0 <= k <= |s| && Spelled(t.Signed?, s[..k], i) && !t.Has(i)
                                && (k < |s| ==> !N.Digit(s[k]))
    ensures ParseKey(t, s, off).Missed? ==> ParseKey(t, s, off).error.code in {OutOfRange, TypeMismatch}
  {
    hide Digits;
    if ParseKey(t, s, off) == Missed(Error(OutOfRange, off)) {
      var k, i, neg, ds := SpellingFound(t, s, off);
      SpellingTaken(t, s, off, k, i, neg, ds);
      assert Spelled(t.Signed?, s[..k], i);
    }
    if k, i :| 0 <= k <= |s| && Spelled(t.Signed?, s[..k], i) && !t.Has(i) && (k < |s| ==> !N.Digit(s[k])) {
      var neg, ds :| SpelledBy(t.Signed?, s[..k], i, neg, ds);
      SpellingTaken(t, s, off, k, i, neg, ds);
    }
  }

  /** Every integer of the type is read back from its decimal spelling. */
  lemma KeyOfDecimal(t: IntType, i: int, off: nat)
    requires t.Has(i)
    ensures ParseKey(t, N.DecInt(i), off) == Got(i, 0)
  {
    hide ParseKey;
    var n := if i < 0 then -i else i;
    N.DecValueOfDec(n);
    assert SpelledBy(t.Signed?, N.DecInt(i), i, i < 0, N.Dec(n));
    KeyExact(t, N.DecInt(i), off, i);
  }
}
