/** Byte strings: the lexicographic order the codecs sort keys by, and big-endian integers. */
module Bytes {

  type byte = x: int | 0 <= x < 256

  const TWO63: int := 0x8000_0000_0000_0000
  const TWO32: int := 0x1_0000_0000
  const TWO64: int := 0x1_0000_0000_0000_0000

  // ---- lexicographic order (std::lexicographical_compare on unsigned bytes) ----

  predicate Less(a: seq<byte>, b: seq<byte>)
    decreases |a|
  {
    if b == [] then false
    else if a == [] then true
    else if a[0] != b[0] then a[0] < b[0]
    else Less(a[1..], b[1..])
  }

  lemma {:induction false} LessIrreflexive(a: seq<byte>)
    ensures !Less(a, a)
    decreases |a|
  {
    if a != [] {
      LessIrreflexive(a[1..]);
    }
  }

  lemma {:induction false} LessTransitive(a: seq<byte>, b: seq<byte>, c: seq<byte>)
    requires Less(a, b) && Less(b, c)
    ensures Less(a, c)
    decreases |a|
  {
    if a != [] && a[0] == b[0] && b[0] == c[0] {
      LessTransitive(a[1..], b[1..], c[1..]);
    }
  }

  lemma {:induction false} LessTotal(a: seq<byte>, b: seq<byte>)
    ensures Less(a, b) || a == b || Less(b, a)
    decreases |a|
  {
    if a != [] && b != [] && a[0] == b[0] {
      LessTotal(a[1..], b[1..]);
      assert a == [a[0]] + a[1..] && b == [b[0]] + b[1..];
    }
  }

  /** A common prefix does not influence the order. */
  lemma {:induction false} LessPrefix(p: seq<byte>, a: seq<byte>, b: seq<byte>)
    ensures Less(p + a, p + b) <==> Less(a, b)
    decreases |p|
  {
    if p == [] {
      assert p + a == a && p + b == b;
    } else {
      LessPrefix(p[1..], a, b);
      assert (p + a)[1..] == p[1..] + a && (p + b)[1..] == p[1..] + b;
    }
  }

  /** Strings of equal length are ordered by themselves, whatever follows them. */
  lemma {:induction false} LessEqualLength(a: seq<byte>, x: seq<byte>, b: seq<byte>, y: seq<byte>)
    requires |a| == |b| && a != b
    ensures Less(a + x, b + y) <==> Less(a, b)
    decreases |a|
  {
    assert (a + x)[0] == a[0] && (b + y)[0] == b[0];
    if a[0] == b[0] {
      assert a == [a[0]] + a[1..] && b == [b[0]] + b[1..];
      assert (a + x)[1..] == a[1..] + x && (b + y)[1..] == b[1..] + y;
      LessEqualLength(a[1..], x, b[1..], y);
    }
  }

  // ---- big-endian integers ----

  function Pow256(n: nat): (r: nat)
    ensures r > 0
  {
    if n == 0 then 1 else 256 * Pow256(n - 1)
  }

  /** The low `n` bytes of `v`, most significant first. */
  function Be(n: nat, v: nat): (r: seq<byte>)
    ensures |r| == n
  {
    if n == 0 then [] else Be(n - 1, v / 256) + [v % 256]
  }

  function FromBe(s: seq<byte>): (v: nat)
    ensures v < Pow256(|s|)
  {
    if s == [] then 0 else FromBe(s[..|s| - 1]) * 256 + s[|s| - 1]
  }

  lemma FromBeSnoc(s: seq<byte>, b: byte)
    ensures FromBe(s + [b]) == FromBe(s) * 256 + b
  {
    assert (s + [b])[..|s + [b]| - 1] == s;
  }

  lemma {:induction false} FromBeOfBe(n: nat, v: nat)
    requires v < Pow256(n)
    ensures FromBe(Be(n, v)) == v
  {
    if n > 0 {
      FromBeOfBe(n - 1, v / 256);
      assert Be(n, v)[..n - 1] == Be(n - 1, v / 256);
    }
  }

  lemma {:induction false} BeOfFromBe(s: seq<byte>)
    ensures Be(|s|, FromBe(s)) == s
    decreases |s|
  {
    if s != [] {
      var front := s[..|s| - 1];
      BeOfFromBe(front);
      assert FromBe(s) / 256 == FromBe(front) && FromBe(s) % 256 == s[|s| - 1];
      assert s == front + [s[|s| - 1]];
    }
  }

  /** Big-endian bytes of one width sort like the numbers. */
  lemma {:induction false} BeOrder(n: nat, a: nat, b: nat)
    requires a < b < Pow256(n)
    ensures Less(Be(n, a), Be(n, b))
  {
    if n > 0 {
      var x, y := Be(n - 1, a / 256), Be(n - 1, b / 256);
      if a / 256 == b / 256 {
        LessPrefix(x, [a % 256], [b % 256]);
      } else {
        BeOrder(n - 1, a / 256, b / 256);
        LessIrreflexive(x);
        LessEqualLength(x, [a % 256], y, [b % 256]);
      }
    }
  }

  lemma Pow256Values()
    ensures Pow256(0) == 1 && Pow256(1) == 0x100 && Pow256(2) == 0x1_0000
    ensures Pow256(4) == 0x1_0000_0000 && Pow256(8) == TWO64
  {
    assert Pow256(3) == 0x100_0000;
    assert Pow256(5) == 0x100_0000_0000;
    assert Pow256(6) == 0x1_0000_0000_0000;
    assert Pow256(7) == 0x100_0000_0000_0000;
  }

  // ---- subsequences ----

  /** `s` occurs in `input` at `pos`. */
  predicate At(input: seq<byte>, pos: nat, s: seq<byte>)
  {
    pos + |s| <= |input| && input[pos..pos + |s|] == s
  }

  lemma AtConcat(input: seq<byte>, pos: nat, a: seq<byte>, b: seq<byte>)
    ensures At(input, pos, a + b) <==> At(input, pos, a) && At(input, pos + |a|, b)
  {
    if At(input, pos, a + b) {
      assert input[pos..pos + |a|] == (a + b)[..|a|] == a;
      assert input[pos + |a|..pos + |a| + |b|] == (a + b)[|a|..] == b;
    }
    if At(input, pos, a) && At(input, pos + |a|, b) {
      assert input[pos..pos + |a| + |b|] == input[pos..pos + |a|] + input[pos + |a|..pos + |a| + |b|];
    }
  }

  lemma FirstAt(input: seq<byte>, pos: nat, s: seq<byte>)
    requires At(input, pos, s) && s != []
    ensures pos < |input| && input[pos] == s[0]
  {
    assert input[pos] == input[pos..pos + |s|][0];
  }

  lemma SpanAt(input: seq<byte>, pos: nat, s: seq<byte>)
    requires At(input, pos, s)
    ensures pos + |s| <= |input| && input[pos..pos + |s|] == s
  {
  }
}
