/** UTF-8 validation against the encodings of section 4 of RFC 3629. */
module Utf8 {
  import opened Bytes

  datatype Option<+T> = None | Some(value: T)

  // ---- the reference: scalar values and their encodings ----

  predicate IsScalar(cp: int) {
    0 <= cp < 0xD800 || 0xE000 <= cp < 0x11_0000
  }

  type scalar = cp: int | IsScalar(cp)

  function EncodeScalar(cp: scalar): (s: seq<byte>)
    ensures 1 <= |s| <= 4
  {
    assert IsScalar(cp);
    if cp < 0x80 then [cp]
    else if cp < 0x800 then [0xC0 + cp / 64, 0x80 + cp % 64]
    else if cp < 0x1_0000 then [0xE0 + cp / 4096, 0x80 + cp / 64 % 64, 0x80 + cp % 64]
    else [0xF0 + cp / 0x4_0000, 0x80 + cp / 4096 % 64, 0x80 + cp / 64 % 64, 0x80 + cp % 64]
  }

  function EncodeScalars(cps: seq<scalar>): seq<byte> {
    if cps == [] then [] else EncodeScalar(cps[0]) + EncodeScalars(cps[1..])
  }

  // ---- well-formedness, byte by byte ----

  predicate Continuation(s: seq<byte>, k: nat) {
    k < |s| && 0x80 <= s[k] < 0xC0
  }

  /** Length of the well-formed character at the front of `s`, or 0. */
  function CharLen(s: seq<byte>): (n: nat)
    ensures n <= 4 && n <= |s|
  {
    if s == [] then 0
    else if s[0] < 0x80 then 1
    else if 0xC2 <= s[0] <= 0xDF then
      if Continuation(s, 1) then 2 else 0
    else if 0xE0 <= s[0] <= 0xEF then
      if !Continuation(s, 1) || !Continuation(s, 2) then 0
      else if s[0] == 0xE0 && s[1] < 0xA0 then 0
      else if s[0] == 0xED && s[1] >= 0xA0 then 0
      else 3
    else if 0xF0 <= s[0] <= 0xF4 then
      if !Continuation(s, 1) || !Continuation(s, 2) || !Continuation(s, 3) then 0
      else if s[0] == 0xF0 && s[1] < 0x90 then 0
      else if s[0] == 0xF4 && s[1] >= 0x90 then 0
      else 4
    else 0
  }

  predicate WellFormed(s: seq<byte>)
    decreases |s|
  {
    s == [] || (CharLen(s) > 0 && WellFormed(s[CharLen(s)..]))
  }

  /** Offset of the first malformed character. */
  function FirstBad(s: seq<byte>): nat
    decreases |s|
  {
    if s == [] || CharLen(s) == 0 then 0 else CharLen(s) + FirstBad(s[CharLen(s)..])
  }

  // ---- the two agree ----

  lemma EncodeScalarLen(cp: scalar, rest: seq<byte>)
    ensures CharLen(EncodeScalar(cp) + rest) == |EncodeScalar(cp)|
  {
    assert IsScalar(cp);
  }

  /** The number the payload bits of a one- to four-byte character spell. */
  function Payload(s: seq<byte>): int
    requires 1 <= |s| <= 4
  {
    var a: int := s[0];
    if |s| == 1 then a
    else
      var b: int := s[1] as int - 0x80;
      if |s| == 2 then (a - 0xC0) * 64 + b
      else
        var c: int := s[2] as int - 0x80;
        if |s| == 3 then ((a - 0xE0) * 64 + b) * 64 + c
        else
          var d: int := s[3] as int - 0x80;
          (((a - 0xF0) * 64 + b) * 64 + c) * 64 + d
  }

  lemma PayloadOfScalar(cp: scalar)
    ensures Payload(EncodeScalar(cp)) == cp
  {
    assert cp / 4096 == cp / 64 / 64 && cp / 0x4_0000 == cp / 64 / 64 / 64;
  }

  /** The scalar at the front of a string with a well-formed first character. */
  lemma FirstScalar(s: seq<byte>) returns (cp: scalar)
    requires CharLen(s) > 0
    ensures EncodeScalar(cp) == s[..CharLen(s)]
  {
    var c := s[..CharLen(s)];
    assert s == c + s[CharLen(s)..];
    CharLenCut(c, s[CharLen(s)..]);
    ScalarOfPayload(c);
    cp := Payload(c);
  }

  lemma ThreeBytes(c: seq<byte>)
    requires |c| == 3 && CharLen(c) == 3
    ensures IsScalar(Payload(c)) && EncodeScalar(Payload(c)) == c
  {
    PayloadDigits(0, c[0] - 0xE0, c[1] - 0x80, c[2] - 0x80);
  }

  lemma FourBytes(c: seq<byte>)
    requires |c| == 4 && CharLen(c) == 4
    ensures IsScalar(Payload(c)) && EncodeScalar(Payload(c)) == c
  {
    PayloadDigits(c[0] - 0xF0, c[1] - 0x80, c[2] - 0x80, c[3] - 0x80);
  }

  lemma ScalarOfPayload(c: seq<byte>)
    requires |c| > 0 && CharLen(c) == |c|
    ensures IsScalar(Payload(c)) && EncodeScalar(Payload(c)) == c
  {
    if |c| == 2 {
      PayloadDigits(0, 0, c[0] - 0xC0, c[1] - 0x80);
    } else if |c| == 3 {
      ThreeBytes(c);
    } else if |c| == 4 {
      FourBytes(c);
    }
  }

  lemma PayloadDigits(a: nat, b: nat, c: nat, d: nat)
    requires b < 64 && c < 64 && d < 64
    ensures var cp := ((a * 64 + b) * 64 + c) * 64 + d;
            cp % 64 == d && cp / 64 % 64 == c && cp / 4096 % 64 == b && cp / 0x4_0000 == a
            && cp / 64 == (a * 64 + b) * 64 + c && cp / 4096 == a * 64 + b
  {
    var x := a * 64 + b;
    var y := x * 64 + c;
    var cp := y * 64 + d;
    assert cp / 64 == y && y / 64 == x && x / 64 == a;
    assert cp / 4096 == cp / 64 / 64 && cp / 0x4_0000 == cp / 64 / 64 / 64;
  }

  lemma {:induction false} Scalars(s: seq<byte>) returns (cps: seq<scalar>)
    requires WellFormed(s)
    ensures EncodeScalars(cps) == s
    decreases |s|
  {
    hide CharLen, EncodeScalar;
    if s == [] {
      cps := [];
    } else {
      var n := CharLen(s);
      var cp := FirstScalar(s);
      var rest := Scalars(s[n..]);
      cps := [cp] + rest;
      assert cps[0] == cp && cps[1..] == rest;
      assert EncodeScalars(cps) == EncodeScalar(cp) + EncodeScalars(rest);
      assert s == s[..n] + s[n..];
    }
  }

  lemma {:induction false} ScalarsWellFormed(cps: seq<scalar>)
    ensures WellFormed(EncodeScalars(cps))
    decreases |cps|
  {
    if cps != [] {
      var c, rest := EncodeScalar(cps[0]), EncodeScalars(cps[1..]);
      EncodeScalarLen(cps[0], rest);
      assert (c + rest)[|c|..] == rest;
      ScalarsWellFormed(cps[1..]);
    }
  }

  /** No two scalar sequences share an encoding. */
  lemma {:induction false} EncodeScalarsInjective(a: seq<scalar>, b: seq<scalar>)
    requires EncodeScalars(a) == EncodeScalars(b)
    ensures a == b
    decreases |a|
  {
    if a != [] && b != [] {
      var x, y := EncodeScalar(a[0]), EncodeScalar(b[0]);
      EncodeScalarLen(a[0], EncodeScalars(a[1..]));
      EncodeScalarLen(b[0], EncodeScalars(b[1..]));
      var s := EncodeScalars(a);
      assert x == s[..|x|] == s[..|y|] == y;
      PayloadOfScalar(a[0]);
      PayloadOfScalar(b[0]);
      assert EncodeScalars(a[1..]) == s[|x|..] == EncodeScalars(b[1..]);
      EncodeScalarsInjective(a[1..], b[1..]);
      assert a == [a[0]] + a[1..] && b == [b[0]] + b[1..];
    }
  }

  /** Well-formed strings are exactly the concatenations of scalar encodings. */
  lemma WellFormedIsScalars(s: seq<byte>)
    ensures WellFormed(s) <==> exists cps: seq<scalar> :: EncodeScalars(cps) == s
  {
    if WellFormed(s) {
      var _ := Scalars(s);
    }
    if cps: seq<scalar> :| EncodeScalars(cps) == s {
      ScalarsWellFormed(cps);
    }
  }

  /** Encodings sort like the scalar values, whatever follows them. With the set of well-formed strings that leaves no
      other choice of bytes for any scalar. */
  lemma ScalarOrder(a: scalar, b: scalar, x: seq<byte>, y: seq<byte>)
    requires a < b
    ensures Less(EncodeScalar(a) + x, EncodeScalar(b) + y)
  {
    var p, q := EncodeScalar(a), EncodeScalar(b);
    assert IsScalar(a) && IsScalar(b);
    if |p| == |q| {
      PayloadOrder(a, b);
      LessEqualLength(p, x, q, y);
    } else {
      assert (p + x)[0] == p[0] && (q + y)[0] == q[0];
      assert p[0] < q[0];
    }
  }

  lemma PayloadOrder(a: scalar, b: scalar)
    requires a < b && |EncodeScalar(a)| == |EncodeScalar(b)|
    ensures EncodeScalar(a) != EncodeScalar(b) && Less(EncodeScalar(a), EncodeScalar(b))
  {
    var p, q := EncodeScalar(a), EncodeScalar(b);
    PayloadOfScalar(a);
    PayloadOfScalar(b);
    PayloadLess(p, q);
  }

  lemma {:induction false} PayloadLess(p: seq<byte>, q: seq<byte>)
    requires 1 <= |p| == |q| <= 4 && Payload(p) < Payload(q)
    requires forall k :: 0 < k < |p| ==> 0x80 <= p[k] < 0xC0 && 0x80 <= q[k] < 0xC0
    ensures Less(p, q)
  {
    var k := if p[0] != q[0] then 0 else if |p| > 1 && p[1] != q[1] then 1
             else if |p| > 2 && p[2] != q[2] then 2 else 3;
    assert p == p[..k] + p[k..] && q == q[..k] + q[k..] && p[..k] == q[..k];
    LessPrefix(p[..k], p[k..], q[k..]);
  }

  // ---- concatenation ----

  /** The length of a character depends on its own bytes only. */
  lemma CharLenPrefix(a: seq<byte>, b: seq<byte>)
    requires CharLen(a) > 0
    ensures CharLen(a + b) == CharLen(a)
  {
  }

  lemma CharLenCut(a: seq<byte>, b: seq<byte>)
    requires 0 < CharLen(a + b) <= |a|
    ensures CharLen(a) == CharLen(a + b)
  {
    assert forall k | 0 <= k < |a| :: (a + b)[k] == a[k];
  }

  /** After a well-formed string, the rest decides. */
  lemma {:induction false} WellFormedConcat(a: seq<byte>, b: seq<byte>)
    requires WellFormed(a)
    ensures WellFormed(a + b) <==> WellFormed(b)
    decreases |a|
  {
    if a == [] {
      assert a + b == b;
    } else {
      var n := CharLen(a);
      CharLenPrefix(a, b);
      assert (a + b)[n..] == a[n..] + b;
      WellFormedConcat(a[n..], b);
    }
  }

  /** A well-formed string may be cut in front of any ASCII byte. */
  lemma {:induction false} AsciiSplit(a: seq<byte>, c: byte, b: seq<byte>)
    requires c < 0x80 && WellFormed(a + [c] + b)
    ensures WellFormed(a) && WellFormed(b)
    decreases |a|
  {
    var s := a + [c] + b;
    if a == [] {
      assert s[0] == c && s[1..] == b;
    } else {
      var n := CharLen(s);
      assert s[|a|] == c;
      assert n <= |a|;
      assert s == a + ([c] + b);
      CharLenCut(a, [c] + b);
      assert s[n..] == a[n..] + [c] + b;
      AsciiSplit(a[n..], c, b);
    }
  }

  /** `FirstBad` cuts a malformed string behind its longest well-formed part. */
  lemma {:induction false} FirstBadIsFirst(s: seq<byte>)
    requires !WellFormed(s)
    ensures FirstBad(s) < |s| && WellFormed(s[..FirstBad(s)]) && CharLen(s[FirstBad(s)..]) == 0
    decreases |s|
  {
    hide CharLen;
    var n := CharLen(s);
    if n > 0 {
      FirstBadIsFirst(s[n..]);
      var k := FirstBad(s[n..]);
      assert s[n..][k..] == s[n + k..];
      var c := s[..n];
      assert s == c + s[n..];
      CharLenCut(c, s[n..]);
      assert c[n..] == [];
      WellFormedConcat(c, s[n..][..k]);
      assert s[..n + k] == c + s[n..][..k];
    }
  }

  /** validate_utf8: None when `s` is well formed, else the offset of the first bad character. */
  method ValidateUtf8(s: seq<byte>) returns (bad: Option<nat>)
    ensures bad == if WellFormed(s) then None else Some(FirstBad(s))
  {
    var i, n := 0, |s|;
    assert s[0..] == s;
    while i < n
      invariant 0 <= i <= n
      invariant (WellFormed(s) <==> WellFormed(s[i..])) && FirstBad(s) == i + FirstBad(s[i..])
    {
      var c := s[i];
      var k: nat;
      if c < 0x80 {
        k := 1;
      } else if 0xC2 <= c <= 0xDF {
        if !(i + 1 < n && 0x80 <= s[i + 1] < 0xC0) { return Some(i); }
        k := 2;
      } else if 0xE0 <= c <= 0xEF {
        if !(i + 1 < n && 0x80 <= s[i + 1] < 0xC0) || !(i + 2 < n && 0x80 <= s[i + 2] < 0xC0) { return Some(i); }
        if c == 0xE0 && s[i + 1] < 0xA0 { return Some(i); }
        if c == 0xED && s[i + 1] >= 0xA0 { return Some(i); }
        k := 3;
      } else if 0xF0 <= c <= 0xF4 {
        if !(i + 1 < n && 0x80 <= s[i + 1] < 0xC0) || !(i + 2 < n && 0x80 <= s[i + 2] < 0xC0)
           || !(i + 3 < n && 0x80 <= s[i + 3] < 0xC0) { return Some(i); }
        if c == 0xF0 && s[i + 1] < 0x90 { return Some(i); }
        if c == 0xF4 && s[i + 1] >= 0x90 { return Some(i); }
        k := 4;
      } else {
        return Some(i);
      }
      Advance(s, i, k);
      i := i + k;
    }
    assert s[n..] == [];
    return None;
  }

  lemma Advance(s: seq<byte>, i: nat, k: nat)
    requires i < |s| && k > 0 && CharLen(s[i..]) == k
    ensures i + k <= |s| && (WellFormed(s[i..]) <==> WellFormed(s[i + k..]))
    ensures FirstBad(s[i..]) == k + FirstBad(s[i + k..])
  {
    assert s[i..][k..] == s[i + k..];
  }

  predicate Ascii(s: seq<byte>) {
    forall i :: 0 <= i < |s| ==> s[i] < 0x80
  }

  lemma {:induction false} AsciiWellFormed(s: seq<byte>)
    requires Ascii(s)
    ensures WellFormed(s)
    decreases |s|
  {
    if s != [] {
      assert s[CharLen(s)..] == s[1..];
      AsciiWellFormed(s[1..]);
    }
  }
}
