/** Base64 in both alphabets (sections 4 and 5 of RFC 4648) and hexadecimal: digit groups against a bit accumulator. */
module Base64 {
  import opened Bytes
  import opened Utf8
  import opened Arith

  const PAD: byte := 0x3D

  // ---- the alphabets ----

  newtype digit64 = d: int | 0 <= d < 64

  function Char(url: bool, d: digit64): byte {
    var v := d as int;
    if v < 26 then 0x41 + v
    else if v < 52 then 0x61 + v - 26
    else if v < 62 then 0x30 + v - 52
    else if v == 62 then if url then 0x2D else 0x2B
    else if url then 0x5F else 0x2F
  }

  function CharValue(url: bool, c: byte): Option<digit64> {
    if 0x41 <= c <= 0x5A then Some((c - 0x41) as digit64)
    else if 0x61 <= c <= 0x7A then Some((c - 0x61 + 26) as digit64)
    else if 0x30 <= c <= 0x39 then Some((c - 0x30 + 52) as digit64)
    else if c == (if url then 0x2D else 0x2B) then Some(62)
    else if c == (if url then 0x5F else 0x2F) then Some(63)
    else None
  }

  lemma CharRoundTrip(url: bool, d: digit64)
    ensures CharValue(url, Char(url, d)) == Some(d) && Char(url, d) != PAD
  {
  }

  function Chars(url: bool, ds: seq<digit64>): (r: seq<byte>)
    ensures |r| == |ds| && forall i :: 0 <= i < |ds| ==> r[i] == Char(url, ds[i])
  {
    seq(|ds|, i requires 0 <= i < |ds| => Char(url, ds[i]))
  }

  predicate InAlphabet(url: bool, s: seq<byte>) {
    forall i :: 0 <= i < |s| ==> CharValue(url, s[i]).Some?
  }

  function Values(url: bool, s: seq<byte>): (r: seq<digit64>)
    requires InAlphabet(url, s)
    ensures |r| == |s| && forall i :: 0 <= i < |s| ==> r[i] == CharValue(url, s[i]).value
  {
    seq(|s|, i requires 0 <= i < |s| => CharValue(url, s[i]).value)
  }

  // ---- digits as a number ----

  /** The number the digits spell, most significant first. */
  function Value64(ds: seq<digit64>): nat {
    if ds == [] then 0 else Value64(ds[..|ds| - 1]) * 64 + ds[|ds| - 1] as int
  }

  lemma ValueSnoc(ds: seq<digit64>, d: digit64)
    ensures Value64(ds + [d]) == Value64(ds) * 64 + d as int
  {
    assert (ds + [d])[..|ds + [d]| - 1] == ds;
  }

  /** 2 to the number of bits left over after `n` digits. */
  function Spare(n: nat): (p: nat)
    ensures p > 0
  {
    if n % 4 == 0 then 1 else if n % 4 == 1 then 64 else if n % 4 == 2 then 16 else 4
  }

  // ---- encoding ----

  /** Four digits for three bytes. */
  function Group3(a: byte, b: byte, c: byte): (r: seq<digit64>)
    ensures |r| == 4
  {
    [(a / 4) as digit64, (a % 4 * 16 + b / 16) as digit64, (b % 16 * 4 + c / 64) as digit64, (c % 64) as digit64]
  }

  function Word(a: byte, b: byte, c: byte): nat {
    a as int * 0x1_0000 + b as int * 0x100 + c as int
  }

  /** Four digits shifted out of a 24-bit word. */
  function WordDigits(v: nat): (r: seq<digit64>)
    ensures |r| == 4
  {
    [(v / 0x4_0000 % 64) as digit64, (v / 0x1000 % 64) as digit64, (v / 64 % 64) as digit64, (v % 64) as digit64]
  }

  lemma WordIsGroup(a: byte, b: byte, c: byte)
    ensures WordDigits(Word(a, b, c)) == Group3(a, b, c)
  {
    var v := Word(a, b, c);
    var a1, a2, b1, b2, c1, c2 := a / 4, a % 4, b / 16, b % 16, c / 64, c % 64;
    DivUnique(v, 64, a * 0x400 + b * 4 + c1, c2);
    DivUnique(v, 0x1000, a * 16 + b1, b2 * 0x100 + c);
    DivUnique(v, 0x4_0000, a1, a2 * 0x1_0000 + b * 0x100 + c);
    DivUnique(a * 0x400 + b * 4 + c1, 64, a * 16 + b1, b2 * 4 + c1);
    DivUnique(a * 16 + b1, 64, a1, a2 * 16 + b1);
  }

  /** The digits of a byte sequence: whole groups of three, then two digits for one byte left or three for two. */
  function Digits(s: seq<byte>): seq<digit64> {
    if |s| >= 3 then Group3(s[0], s[1], s[2]) + Digits(s[3..])
    else if |s| == 2 then Group3(s[0], s[1], 0)[..3]
    else if |s| == 1 then Group3(s[0], 0, 0)[..2]
    else []
  }

  /** Bytes behind the last whole group. */
  function Rest(s: seq<byte>): (n: nat)
    ensures n < 3
  {
    if |s| >= 3 then Rest(s[3..]) else |s|
  }

  function Padding(url: bool, rest: nat): seq<byte> {
    if url || rest == 0 then [] else if rest == 1 then [PAD, PAD] else [PAD]
  }

  function Encode(url: bool, s: seq<byte>): seq<byte> {
    Chars(url, Digits(s)) + Padding(url, Rest(s))
  }

  lemma GroupValue(ds: seq<digit64>, a: byte, b: byte, c: byte)
    ensures Value64(ds + Group3(a, b, c)) == Value64(ds) * 0x100_0000 + a * 0x1_0000 + b * 0x100 + c
    ensures Value64(ds + Group3(a, b, c)[..3]) == Value64(ds) * 0x4_0000 + a * 0x400 + b * 4 + c / 64
    ensures Value64(ds + Group3(a, b, c)[..2]) == Value64(ds) * 0x1000 + a * 16 + b / 16
  {
    hide Value64;
    var g := Group3(a, b, c);
    var d1, d2, d3 := ds + [g[0]], ds + [g[0]] + [g[1]], ds + [g[0]] + [g[1]] + [g[2]];
    ValueSnoc(ds, g[0]);
    ValueSnoc(d1, g[1]);
    ValueSnoc(d2, g[2]);
    ValueSnoc(d3, g[3]);
    assert ds + g[..2] == d2 && ds + g[..3] == d3 && ds + g == d3 + [g[3]];
  }

  lemma FromBe3(s: seq<byte>, a: byte, b: byte, c: byte)
    ensures FromBe(s + [a, b, c]) == FromBe(s) * 0x100_0000 + a * 0x1_0000 + b * 0x100 + c
    ensures FromBe(s + [a, b]) == FromBe(s) * 0x1_0000 + a * 0x100 + b
  {
    hide FromBe;
    FromBeSnoc(s, a);
    FromBeSnoc(s + [a], b);
    FromBeSnoc(s + [a] + [b], c);
    assert s + [a, b] == s + [a] + [b] && s + [a, b, c] == s + [a] + [b] + [c];
  }

  /** Behind digits that spell `pre`, the digits of `s` spell `pre + s`, with zero bits behind. */
  lemma {:induction false} DigitsValue(ds: seq<digit64>, pre: seq<byte>, s: seq<byte>)
    requires Value64(ds) == FromBe(pre)
    ensures Value64(ds + Digits(s)) == FromBe(pre + s) * Spare(|Digits(s)|)
    decreases |s|
  {
    hide Value64, FromBe, Group3, Spare;
    DigitsLength(s);
    SpareOf(0);
    if |s| >= 3 {
      var g, t := Group3(s[0], s[1], s[2]), s[3..];
      var p := pre + [s[0], s[1], s[2]];
      GroupValue(ds, s[0], s[1], s[2]);
      FromBe3(pre, s[0], s[1], s[2]);
      DigitsValue(ds + g, p, t);
      assert ds + Digits(s) == ds + g + Digits(t) && pre + s == p + t;
      SpareCycle(|Digits(t)|);
    } else if |s| == 2 {
      GroupValue(ds, s[0], s[1], 0);
      FromBe3(pre, s[0], s[1], 0);
      assert s == [s[0], s[1]];
    } else if |s| == 1 {
      GroupValue(ds, s[0], 0, 0);
      FromBeSnoc(pre, s[0]);
      assert s == [s[0]];
    } else {
      assert ds + [] == ds && pre + s == pre;
    }
  }

  lemma SpareCycle(n: nat)
    ensures Spare(n + 4) == Spare(n)
  {
  }

  lemma {:induction false} DigitsLength(s: seq<byte>)
    ensures |Digits(s)| * 6 / 8 == |s| && |Digits(s)| % 4 != 1
    decreases |s|
  {
    hide Group3;
    if |s| >= 3 {
      DigitsLength(s[3..]);
      var n := |Digits(s[3..])|;
      SixMore(n);
    }
  }

  lemma SixMore(n: nat)
    ensures (n + 4) * 6 / 8 == n * 6 / 8 + 3 && (n + 4) % 4 == n % 4
  {
    SixBits(n);
    SixBits(n + 4);
  }

  lemma SpareOf(k: nat)
    ensures Spare(k * 4) == 1 && Spare(k * 4 + 1) == 64 && Spare(k * 4 + 2) == 16 && Spare(k * 4 + 3) == 4
  {
  }

  lemma NothingValue()
    ensures Value64([]) == 0 && FromBe([]) == 0
  {
  }

  /** base64_encode: three bytes at a time. */
  method EncodeAt(url: bool, s: seq<byte>) returns (r: seq<byte>)
    ensures r == Encode(url, s)
  {
    hide Group3, WordDigits, Digits, Word, Rest;
    var i := 0;
    var ds: seq<digit64> := [];
    assert s[0..] == s && [] + Digits(s) == Digits(s);
    while i + 3 <= |s|
      invariant 0 <= i <= |s| && Digits(s) == ds + Digits(s[i..]) && Rest(s) == Rest(s[i..])
    {
      WordIsGroup(s[i], s[i + 1], s[i + 2]);
      NextGroup(s, i, ds);
      ds := ds + WordDigits(Word(s[i], s[i + 1], s[i + 2]));
      i := i + 3;
    }
    LastGroup(s, i, ds);
    if i + 1 == |s| {
      WordIsGroup(s[i], 0, 0);
      ds := ds + WordDigits(Word(s[i], 0, 0))[..2];
    } else if i + 2 == |s| {
      WordIsGroup(s[i], s[i + 1], 0);
      ds := ds + WordDigits(Word(s[i], s[i + 1], 0))[..3];
    }
    r := Chars(url, ds) + Padding(url, |s| - i);
  }

  lemma NextGroup(s: seq<byte>, i: nat, ds: seq<digit64>)
    requires i + 3 <= |s|
    ensures ds + Digits(s[i..]) == ds + Group3(s[i], s[i + 1], s[i + 2]) + Digits(s[i + 3..])
            && Rest(s[i..]) == Rest(s[i + 3..])
  {
    hide Group3;
    assert s[i..][3..] == s[i + 3..];
  }

  lemma LastGroup(s: seq<byte>, i: nat, ds: seq<digit64>)
    requires i <= |s| < i + 3
    ensures Rest(s[i..]) == |s| - i
    ensures ds + Digits(s[i..])
            == if i + 1 == |s| then ds + Group3(s[i], 0, 0)[..2] else if i + 2 == |s|
              then ds + Group3(s[i], s[i + 1], 0)[..3] else ds
  {
    hide Group3;
  }

  // ---- decoding ----

  function Stripped(s: seq<byte>): seq<byte> {
    if s != [] && s[|s| - 1] == PAD then Stripped(s[..|s| - 1]) else s
  }

  /** The bytes digits stand for: as many whole bytes as there are, the bits left over dropped. */
  function Decoded(ds: seq<digit64>): (r: seq<byte>)
    ensures |r| == |ds| * 6 / 8
  {
    Be(|ds| * 6 / 8, Value64(ds) / Spare(|ds|))
  }

  /** What base64_decode answers: nothing, or the bytes. */
  function Decode(url: bool, s: seq<byte>): Option<seq<byte>> {
    var t := Stripped(s);
    if |t| % 4 == 1 || !InAlphabet(url, t) then None else Some(Decoded(Values(url, t)))
  }

  /** 2 to the power of a bit count the accumulator can hold between two digits. */
  function Shift(bits: nat): (p: nat)
    ensures p > 0
  {
    if bits == 0 then 1 else if bits == 2 then 4 else if bits == 4 then 16 else 64
  }

  lemma SixBits(n: nat)
    ensures n * 6 % 8 == (if n % 4 == 0 then 0 else 8 - n % 4 * 2)
    ensures n * 6 / 8 == n / 4 * 3 + (if n % 4 == 0 then 0 else n % 4 - 1)
  {
    var q, r := n / 4, n % 4;
    if r == 0 {
      DivUnique(n * 6, 8, q * 3, 0);
    } else {
      DivUnique(n * 6, 8, q * 3 + r - 1, 8 - r * 2);
    }
  }

  lemma BitsLeft(n: nat)
    ensures Shift(n * 6 % 8) == Spare(n)
    ensures (n + 1) * 6 % 8 == if n % 4 == 0 then 6 else n * 6 % 8 - 2
    ensures (n + 1) * 6 / 8 == n * 6 / 8 + if n % 4 == 0 then 0 else 1
    ensures n * 6 % 8 == 0 <==> n % 4 == 0
  {
    SixBits(n);
    SixBits(n + 1);
  }

  lemma Modulo(x: nat, m: nat, k: nat)
    requires (m == 64 && k == 0x400_0000) || (m == 1024 && k == 0x40_0000) || (m == 4096 && k == 0x10_0000)
             || (m == 256 && k == 0x100_0000)
    ensures x % TWO32 % m == x % m
  {
    var q := x / TWO32;
    assert x == q * k * m + x % TWO32;
    Multiple(x % TWO32, q * k, m);
  }

  lemma Multiple(y: nat, q: nat, m: nat)
    requires m > 0
    ensures (q * m + y) % m == y % m
  {
    var d, r := y / m, y % m;
    assert q * m + y == (q + d) * m + r;
    DivUnique(q * m + y, m, q + d, r);
  }

  /** One digit more: bits shifted out of the 32-bit accumulator are dead, live ones are kept. */
  lemma Accumulated(value: nat, be: nat, acc: nat, n: nat, v: digit64)
    requires value == be * Spare(n) + acc % Spare(n)
    ensures var next, value' := (acc * 64 + v as int) % TWO32, value * 64 + v as int;
            if n % 4 == 0 then value' == be * Spare(n + 1) + next % Spare(n + 1)
            else value' == (be * 256 + next / Spare(n + 1) % 256) * Spare(n + 1) + next % Spare(n + 1)
  {
    hide Spare;
    var x := acc * 64 + v as int;
    SpareOf(n / 4);
    SpareOf(n / 4 + 1);
    if n % 4 == 0 {
      Modulo(x, 64, 0x400_0000);
      DivUnique(x, 64, acc, v as int);
    } else if n % 4 == 1 {
      Modulo(x, 4096, 0x10_0000);
      TopByte(value, be, acc, v, 64, 16);
    } else if n % 4 == 2 {
      Modulo(x, 1024, 0x40_0000);
      TopByte(value, be, acc, v, 16, 4);
    } else {
      Modulo(x, 256, 0x100_0000);
      TopByte(value, be, acc, v, 4, 1);
    }
  }

  lemma TopByte(value: nat, be: nat, acc: nat, v: digit64, s: nat, p: nat)
    requires (s == 64 && p == 16) || (s == 16 && p == 4) || (s == 4 && p == 1)
    requires (acc * 64 + v as int) % TWO32 % (256 * p) == (acc * 64 + v as int) % (256 * p)
    requires value == be * s + acc % s
    ensures var next := (acc * 64 + v as int) % TWO32;
            value * 64 + v as int == (be * 256 + next / p % 256) * p + next % p
  {
    var next, y := (acc * 64 + v as int) % TWO32, acc % s * 64 + v as int;
    LiveBits(acc, v, s, p);
    assert y == y / p * p + y % p;
    assert (be * 256 + y / p) * p == be * 256 * p + y / p * p;
  }

  /** With `s` live values in the accumulator and a digit added, the top byte and the bits below it. */
  lemma LiveBits(acc: nat, v: digit64, s: nat, p: nat)
    requires (s == 64 && p == 16) || (s == 16 && p == 4) || (s == 4 && p == 1)
    requires (acc * 64 + v as int) % TWO32 % (256 * p) == (acc * 64 + v as int) % (256 * p)
    ensures var next, y := (acc * 64 + v as int) % TWO32, acc % s * 64 + v as int;
            next / p % 256 == y / p && next % p == y % p
  {
    var x, y := acc * 64 + v as int, acc % s * 64 + v as int;
    var next := x % TWO32;
    if p == 16 {
      DivUnique(x, 4096, acc / 64, y);
      DivUnique(next, 16, next / 4096 * 256 + y / 16, y % 16);
      DivUnique(next / 16, 256, next / 4096, y / 16);
    } else if p == 4 {
      DivUnique(x, 1024, acc / 16, y);
      DivUnique(next, 4, next / 1024 * 256 + y / 4, y % 4);
      DivUnique(next / 4, 256, next / 1024, y / 4);
    } else {
      DivUnique(x, 256, acc / 4, y);
    }
  }

  /** The bytes put out and the accumulator after `i` digits. */
  ghost predicate Taken(ds: seq<digit64>, i: nat, out: seq<byte>, acc: nat)
    requires i <= |ds|
  {
    |out| == i * 6 / 8 && Value64(ds[..i]) == FromBe(out) * Spare(i) + acc % Spare(i)
  }

  lemma NothingTaken(ds: seq<digit64>)
    ensures Taken(ds, 0, [], 0)
  {
    hide Value64, FromBe, Spare;
    NothingValue();
    assert ds[..0] == [];
  }

  lemma TakeDigit(ds: seq<digit64>, i: nat, out: seq<byte>, acc: nat)
    requires i < |ds| && Taken(ds, i, out, acc)
    ensures var next := (acc * 64 + ds[i] as int) % TWO32;
            Taken(ds, i + 1, if i % 4 == 0 then out else out + [next / Shift((i + 1) * 6 % 8) % 256], next)
  {
    hide Value64, FromBe, Spare, Shift;
    var next := (acc * 64 + ds[i] as int) % TWO32;
    Accumulated(Value64(ds[..i]), FromBe(out), acc, i, ds[i]);
    ValueSnoc(ds[..i], ds[i]);
    assert ds[..i + 1] == ds[..i] + [ds[i]];
    BitsLeft(i);
    BitsLeft(i + 1);
    FromBeSnoc(out, next / Spare(i + 1) % 256);
  }

  lemma AllTaken(ds: seq<digit64>, out: seq<byte>, acc: nat)
    requires Taken(ds, |ds|, out, acc)
    ensures out == Decoded(ds)
  {
    hide Value64, FromBe, Spare;
    assert ds[..|ds|] == ds;
    DivUnique(Value64(ds), Spare(|ds|), FromBe(out), acc % Spare(|ds|));
    BeOfFromBe(out);
  }

  /** The loop of base64_decode: six bits in, eight bits out. */
  method DecodeDigits(ds: seq<digit64>) returns (out: seq<byte>)
    ensures out == Decoded(ds)
  {
    hide Value64, FromBe, Spare, Shift, Taken;
    out := [];
    var acc, bits := 0, 0;
    NothingTaken(ds);
    for i := 0 to |ds|
      invariant acc >= 0 && bits == i * 6 % 8 && Taken(ds, i, out, acc)
    {
      TakeDigit(ds, i, out, acc);
      BitsLeft(i);
      acc := (acc * 64 + ds[i] as int) % TWO32;
      bits := bits + 6;
      if bits >= 8 {
        bits := bits - 8;
        out := out + [acc / Shift(bits) % 256];
      }
    }
    AllTaken(ds, out, acc);
  }

  /** base64_decode. */
  method DecodeAt(url: bool, s: seq<byte>) returns (r: Option<seq<byte>>)
    ensures r == Decode(url, s)
  {
    hide Decoded;
    var t := s;
    while t != [] && t[|t| - 1] == PAD
      invariant Stripped(t) == Stripped(s)
    {
      t := t[..|t| - 1];
    }
    if |t| % 4 == 1 {
      return None;
    }
    var ds: seq<digit64> := [];
    for i := 0 to |t|
      invariant |ds| == i && forall k :: 0 <= k < i ==> CharValue(url, t[k]) == Some(ds[k])
    {
      var v := CharValue(url, t[i]);
      if v.None? {
        return None;
      }
      ds := ds + [v.value];
    }
    assert ds == Values(url, t);
    var out := DecodeDigits(ds);
    return Some(out);
  }

  // ---- the round trip ----

  lemma {:induction false} StripPadding(url: bool, ds: seq<digit64>, n: nat)
    ensures Stripped(Chars(url, ds) + Padding(url, n)) == Chars(url, ds)
  {
    var c := Chars(url, ds);
    if ds != [] {
      CharRoundTrip(url, ds[|ds| - 1]);
    }
    assert Stripped(c) == c;
    assert (c + [PAD])[..|c|] == c && Stripped(c + [PAD]) == c;
    assert (c + [PAD, PAD])[..|c| + 1] == c + [PAD];
    assert c + [] == c;
  }

  lemma CharsValues(url: bool, ds: seq<digit64>)
    ensures InAlphabet(url, Chars(url, ds)) && Values(url, Chars(url, ds)) == ds
  {
    forall i | 0 <= i < |ds|
      ensures CharValue(url, Chars(url, ds)[i]) == Some(ds[i])
    {
      CharRoundTrip(url, ds[i]);
    }
  }

  /** Decoding an encoding gives the bytes back, in either alphabet. */
  lemma RoundTrip(url: bool, s: seq<byte>)
    ensures Decode(url, Encode(url, s)) == Some(s)
  {
    hide Digits, Value64, FromBe, Chars, Values, Spare;
    var ds := Digits(s);
    StripPadding(url, ds, Rest(s));
    CharsValues(url, ds);
    NothingValue();
    DigitsValue([], [], s);
    assert [] + ds == ds && [] + s == s;
    DigitsLength(s);
    DivUnique(Value64(ds), Spare(|ds|), FromBe(s), 0);
    BeOfFromBe(s);
  }

  /** Hence encoding is injective. */
  lemma EncodeInjective(url: bool, s: seq<byte>, t: seq<byte>)
    requires Encode(url, s) == Encode(url, t)
    ensures s == t
  {
    hide Decode, Encode;
    RoundTrip(url, s);
    RoundTrip(url, t);
  }

  // ---- the shape of an encoding ----

  const CAPITALS: string := "ABCDEFGHIJKLMNOPQRSTUVWXYZ"
  const SMALL: string := "abcdefghijklmnopqrstuvwxyz"
  const NUMERALS: string := "0123456789"

  /** The alphabets of sections 4 and 5 of RFC 4648. */
  function Alphabet(url: bool): (a: string)
    ensures |a| == 64
  {
    CAPITALS + SMALL + NUMERALS + (if url then "-_" else "+/")
  }

  /** Digit `d` is written as the character at place `d` of its alphabet, and only that character is read as `d`. */
  lemma AlphabetIs(url: bool, d: digit64, c: byte)
    ensures Char(url, d) == Alphabet(url)[d as int] as int
    ensures CharValue(url, c) == Some(d) <==> c == Alphabet(url)[d as int] as int
  {
    var k := d as int;
    assert forall i :: 0 <= i < 26 ==> CAPITALS[i] as int == 0x41 + i && SMALL[i] as int == 0x61 + i;
    assert forall i :: 0 <= i < 10 ==> NUMERALS[i] as int == 0x30 + i;
    var a := Alphabet(url);
    assert k < 26 ==> a[k] == CAPITALS[k];
    assert 26 <= k < 52 ==> a[k] == SMALL[k - 26];
    assert 52 <= k < 62 ==> a[k] == NUMERALS[k - 52];
    assert a[62] == (if url then '-' else '+') && a[63] == (if url then '_' else '/');
    CharRoundTrip(url, d);
  }

  /** Bytes behind the last whole group, counted without cutting groups off. */
  lemma {:induction false} RestIs(s: seq<byte>)
    ensures Rest(s) == |s| % 3 && |Digits(s)| == (|s| * 4 + 2) / 3
    decreases |s|
  {
    hide Group3;
    if |s| >= 3 {
      RestIs(s[3..]);
    }
  }

  /** The standard form is padded to a multiple of four characters, one per two bytes left over and two per one; the
      url form has no padding and no more characters than the bits need. Padding stands at the end only. */
  lemma EncodedShape(url: bool, s: seq<byte>)
    ensures var r := Encode(url, s);
            var pads := if url then 0 else (3 - |s| % 3) % 3;
            && |r| - pads == (|s| * 8 + 5) / 6 && (!url ==> |r| == (|s| + 2) / 3 * 4)
            && (forall i :: 0 <= i < |r| ==> (r[i] == PAD <==> i >= |r| - pads))
  {
    hide Digits, Rest, Chars, Char;
    RestIs(s);
    var ds := Digits(s);
    var q, k := |s| / 3, |s| % 3;
    assert |s| == q * 3 + k;
    DivUnique(|s| * 4 + 2, 3, q * 4 + (if k == 0 then 0 else k + 1), if k == 0 then 2 else k - 1);
    DivUnique(|s| * 8 + 5, 6, q * 4 + (if k == 0 then 0 else k + 1), if k == 0 then 5 else if k == 1 then 1 else 3);
    var c := Chars(url, ds);
    forall i | 0 <= i < |c|
      ensures c[i] != PAD
    {
      CharRoundTrip(url, ds[i]);
    }
  }

  // ---- hexadecimal ----

  function HexChar(d: nat): byte
    requires d < 16
  {
    if d < 10 then 0x30 + d else 0x61 + d - 10
  }

  function HexNibble(c: byte): (r: Option<nat>)
    ensures r.Some? ==> r.value < 16
  {
    if 0x30 <= c <= 0x39 then Some(c - 0x30)
    else if 0x61 <= c <= 0x66 then Some(c - 0x61 + 10)
    else if 0x41 <= c <= 0x46 then Some(c - 0x41 + 10)
    else None
  }

  function HexEncode(s: seq<byte>): seq<byte> {
    if s == [] then [] else [HexChar(s[0] / 16), HexChar(s[0] % 16)] + HexEncode(s[1..])
  }

  function HexDecode(s: seq<byte>): Option<seq<byte>> {
    if s == [] then Some([])
    else if |s| == 1 then None
    else
      var hi, lo, rest := HexNibble(s[0]), HexNibble(s[1]), HexDecode(s[2..]);
      if hi.None? || lo.None? || rest.None? then None else Some([hi.value * 16 + lo.value] + rest.value)
  }

  lemma {:induction false} HexRoundTrip(s: seq<byte>)
    ensures HexDecode(HexEncode(s)) == Some(s)
    decreases |s|
  {
    if s != [] {
      HexRoundTrip(s[1..]);
      assert HexEncode(s)[2..] == HexEncode(s[1..]);
      assert s == [s[0]] + s[1..] && s[0] / 16 * 16 + s[0] % 16 == s[0];
    }
  }

  /** The alphabet of section 8 of RFC 4648, written in lower case and read in either. */
  lemma HexAlphabet(d: nat, c: byte)
    requires d < 16
    ensures HexChar(d) == "0123456789abcdef"[d] as int
    ensures HexNibble(c) == Some(d) <==> c == "0123456789abcdef"[d] as int || c == "0123456789ABCDEF"[d] as int
  {
    var lower, upper := "0123456789abcdef", "0123456789ABCDEF";
    assert lower[d] as int == HexChar(d);
    assert upper[d] as int == if d < 10 then 0x30 + d else 0x41 + d - 10;
  }

  lemma {:induction false} HexPrefix(s: seq<byte>, i: nat, done: seq<byte>)
    requires i % 2 == 0 && i + 2 <= |s|
    ensures HexDecode(s[i..]).Some?
            <==> HexNibble(s[i]).Some? && HexNibble(s[i + 1]).Some? && HexDecode(s[i + 2..]).Some?
    ensures HexDecode(s[i..]).Some? ==>
              done + HexDecode(s[i..]).value
                == done + [HexNibble(s[i]).value * 16 + HexNibble(s[i + 1]).value] + HexDecode(s[i + 2..]).value
  {
    assert s[i..][2..] == s[i + 2..];
  }

  lemma {:induction false} HexOdd(s: seq<byte>)
    ensures |s| % 2 == 1 ==> HexDecode(s).None?
    decreases |s|
  {
    if |s| > 1 {
      HexOdd(s[2..]);
    }
  }

  /** hex_decode. */
  method HexDecodeAt(s: seq<byte>) returns (r: Option<seq<byte>>)
    ensures r == HexDecode(s)
  {
    hide HexDecode;
    HexOdd(s);
    if |s| % 2 == 1 {
      return None;
    }
    var out: seq<byte> := [];
    var i := 0;
    assert s[0..] == s;
    while i < |s|
      invariant 0 <= i <= |s| && i % 2 == 0
      invariant HexDecode(s).Some? <==> HexDecode(s[i..]).Some?
      invariant HexDecode(s).Some? ==> HexDecode(s).value == out + HexDecode(s[i..]).value
    {
      HexPrefix(s, i, out);
      var hi, lo := HexNibble(s[i]), HexNibble(s[i + 1]);
      if hi.None? || lo.None? {
        return None;
      }
      out := out + [hi.value * 16 + lo.value];
      i := i + 2;
    }
    HexNothing(s, i);
    assert out + [] == out;
    return Some(out);
  }

  lemma HexNothing(s: seq<byte>, i: nat)
    requires i == |s|
    ensures HexDecode(s[i..]) == Some([])
  {
  }
}
