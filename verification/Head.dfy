/** CBOR item heads (section 3 of RFC 8949): major type, additional information, argument. */
module Head {
  import opened Bytes

  type major = m: nat | m < 8

  const UINT: major := 0
  const NINT: major := 1
  const BYTES: major := 2
  const TEXT: major := 3
  const ARRAY: major := 4
  const MAP: major := 5
  const TAG: major := 6
  const SIMPLE: major := 7

  const BREAK: byte := 0xFF

  /** The additional information of the shortest head for argument `v`. */
  function ShortestAi(v: nat): nat {
    if v < 24 then v else if v <= 0xFF then 24 else if v <= 0xFFFF then 25 else if v <= 0xFFFF_FFFF then 26 else 27
  }

  /** Argument bytes that follow an initial byte with additional information `ai`. */
  function ArgWidth(ai: nat): nat {
    if ai < 24 then 0 else if ai == 24 then 1 else if ai == 25 then 2 else if ai == 26 then 4 else 8
  }

  function InitialByte(m: major, ai: nat): byte
    requires ai < 32
  {
    m * 32 + ai
  }

  /** The head with additional information `ai` (below 28) and argument `v`. */
  function HeadBytes(m: major, ai: nat, v: nat): (h: seq<byte>)
    requires ai < 28
    ensures |h| == 1 + ArgWidth(ai)
  {
    [InitialByte(m, ai)] + Be(ArgWidth(ai), v)
  }

  /** The shortest head for major type `m` and argument `v`. */
  function ShortHead(m: major, v: nat): (h: seq<byte>)
    ensures 1 <= |h| <= 9
  {
    HeadBytes(m, ShortestAi(v), v)
  }

  datatype ParsedHead = ParsedHead(mt: major, ai: nat, value: nat, indefinite: bool, length: nat, reserved: bool,
                                   isBreak: bool) {
    /** No smaller additional information could have carried the argument. */
    predicate Shortest() {
      if indefinite || isBreak || reserved then false
      else if mt == SIMPLE && ai >= 25 then true
      else if ai < 24 then true
      else if ai == 24 then value >= 24
      else if ai == 25 then value > 0xFF
      else if ai == 26 then value > 0xFFFF
      else value > 0xFFFF_FFFF
    }

    /** A complete head carrying an argument: not truncated, reserved, indefinite or a break. */
    predicate Plain() {
      length > 0 && !reserved && !isBreak && !indefinite
    }
  }

  /** The head at `input[pos]`; length 0 means truncated. */
  function ParseHead(input: seq<byte>, pos: nat): (h: ParsedHead)
    ensures pos + h.length <= |input| || h.length == 0
    ensures h.length > 0 ==> pos < |input|
    ensures h.length > 0 ==> h.mt == input[pos] / 32 && h.ai == input[pos] % 32 && (h.isBreak <==> input[pos] == BREAK)
    ensures h.Plain() ==> h.ai < 28 && h.length == 1 + ArgWidth(h.ai) && h.value < TWO64
    ensures h.Plain() ==> if h.ai < 24 then h.value == h.ai else h.value < Pow256(ArgWidth(h.ai))
    ensures h.indefinite ==> h.length == 1
  {
    if pos >= |input| then ParsedHead(UINT, 0, 0, false, 0, false, false)
    else
      var ib := input[pos];
      var mt, ai := ib / 32, ib % 32;
      if ib == BREAK then ParsedHead(mt, ai, 0, false, 1, false, true)
      else if ai < 24 then ParsedHead(mt, ai, ai, false, 1, false, false)
      else if ai == 31 then ParsedHead(mt, ai, 0, true, 1, mt == UINT || mt == NINT || mt == TAG, false)
      else if ai >= 28 then ParsedHead(mt, ai, 0, false, 1, true, false)
      else
        var n := ArgWidth(ai);
        if pos + 1 + n > |input| then ParsedHead(mt, ai, 0, false, 0, false, false)
        else
          Pow256Values();
          ParsedHead(mt, ai, FromBe(input[pos + 1..pos + 1 + n]), false, 1 + n, false, false)
  }

  /** make_head: the argument is shifted out byte by byte. */
  method MakeHead(m: major, v: nat) returns (h: seq<byte>)
    requires v < TWO64
    ensures h == ShortHead(m, v)
  {
    var ai := ShortestAi(v);
    h := [InitialByte(m, ai)];
    var n := ArgWidth(ai);
    var tail: seq<byte> := [];
    var x := v;
    for i := 0 to n
      invariant Be(n, v) == Be(n - i, x) + tail
    {
      tail := [x % 256] + tail;
      x := x / 256;
    }
    h := h + tail;
  }

  /** parse_head: the argument is accumulated most significant byte first. */
  method ParseHeadAt(input: seq<byte>, pos: nat) returns (h: ParsedHead)
    ensures h == ParseHead(input, pos)
  {
    if pos >= |input| {
      return ParsedHead(UINT, 0, 0, false, 0, false, false);
    }
    var ib := input[pos];
    var mt, ai := ib / 32, ib % 32;
    if ib == BREAK {
      return ParsedHead(mt, ai, 0, false, 1, false, true);
    }
    if ai < 24 {
      return ParsedHead(mt, ai, ai, false, 1, false, false);
    }
    if ai == 31 {
      return ParsedHead(mt, ai, 0, true, 1, mt == UINT || mt == NINT || mt == TAG, false);
    }
    if ai >= 28 {
      return ParsedHead(mt, ai, 0, false, 1, true, false);
    }
    var n := ArgWidth(ai);
    if pos + 1 + n > |input| {
      return ParsedHead(mt, ai, 0, false, 0, false, false);
    }
    var v: nat := 0;
    for i := 0 to n
      invariant v == FromBe(input[pos + 1..pos + 1 + i])
    {
      var s := input[pos + 1..pos + 1 + i + 1];
      assert s[..|s| - 1] == input[pos + 1..pos + 1 + i];
      v := v * 256 + input[pos + 1 + i];
    }
    h := ParsedHead(mt, ai, v, false, 1 + n, false, false);
  }

  // ---- heads written are heads read ----

  lemma ParseHeadBytes(input: seq<byte>, pos: nat, m: major, ai: nat, v: nat)
    requires ai < 28 && (if ai < 24 then v == ai else v < Pow256(ArgWidth(ai)))
    requires At(input, pos, HeadBytes(m, ai, v))
    ensures ParseHead(input, pos) == ParsedHead(m, ai, v, false, 1 + ArgWidth(ai), false, false)
  {
    hide Be, FromBe, Pow256;
    AtConcat(input, pos, [InitialByte(m, ai)], Be(ArgWidth(ai), v));
    assert input[pos..pos + 1][0] == InitialByte(m, ai);
    if ai >= 24 {
      FromBeOfBe(ArgWidth(ai), v);
    }
  }

  /** Reading a shortest head gives back its type and argument, in its shortest form. */
  lemma ParseShortHead(input: seq<byte>, pos: nat, m: major, v: nat)
    requires v < TWO64
    requires At(input, pos, ShortHead(m, v))
    ensures ParseHead(input, pos) == ParsedHead(m, ShortestAi(v), v, false, |ShortHead(m, v)|, false, false)
    ensures m != SIMPLE ==> ParseHead(input, pos).Shortest()
  {
    hide Be, FromBe, Pow256, ParseHead;
    Pow256Values();
    ParseHeadBytes(input, pos, m, ShortestAi(v), v);
  }

  lemma InitialByteSplit(b: byte)
    ensures InitialByte(b / 32, b % 32) == b
  {
  }

  lemma ArgumentBytes(arg: seq<byte>, n: nat, ai: nat)
    requires |arg| == n == ArgWidth(ai)
    ensures Be(n, if n == 0 then ai else FromBe(arg)) == arg
  {
    if n > 0 {
      BeOfFromBe(arg);
    }
  }

  /** A plain head is made of the bytes its fields describe. */
  lemma PlainHeadBytes(input: seq<byte>, pos: nat)
    requires ParseHead(input, pos).Plain()
    ensures var h := ParseHead(input, pos); At(input, pos, HeadBytes(h.mt, h.ai, h.value))
  {
    hide Be, FromBe, Pow256;
    var b := input[pos];
    var ai := b % 32;
    var n := ArgWidth(ai);
    var arg := input[pos + 1..pos + 1 + n];
    InitialByteSplit(b);
    ArgumentBytes(arg, n, ai);
    assert input[pos..pos + 1] == [b];
    AtConcat(input, pos, [b], arg);
  }

  /** The determinism check is exact: a plain head passes it if and only if it is the head the writer makes. */
  lemma ShortestIsShortHead(input: seq<byte>, pos: nat)
    requires ParseHead(input, pos).Plain() && ParseHead(input, pos).mt != SIMPLE
    ensures var h := ParseHead(input, pos); h.Shortest() <==> At(input, pos, ShortHead(h.mt, h.value))
  {
    hide Be, FromBe, Pow256;
    var h := ParseHead(input, pos);
    PlainHeadBytes(input, pos);
    Pow256Values();
    if h.Shortest() {
      assert h.ai == ShortestAi(h.value);
    }
    if At(input, pos, ShortHead(h.mt, h.value)) {
      ParseShortHead(input, pos, h.mt, h.value);
    }
  }

  /** Shortest heads form a prefix code: two of them at one place are the same head. */
  lemma ShortHeadsPrefixFree(m: major, v: nat, m': major, v': nat, x: seq<byte>, y: seq<byte>)
    requires v < TWO64 && v' < TWO64
    requires ShortHead(m, v) + x == ShortHead(m', v') + y
    ensures m == m' && v == v' && x == y
  {
    hide Be, FromBe, Pow256, ParseHead;
    var s := ShortHead(m, v) + x;
    var a, b := ShortHead(m, v), ShortHead(m', v');
    assert s[0..|a|] == a && s[0..|b|] == b;
    assert At(s, 0, a) && At(s, 0, b);
    ParseShortHead(s, 0, m, v);
    ParseShortHead(s, 0, m', v');
    assert x == s[|a|..] && y == s[|b|..];
  }

  // ---- order of shortest heads ----

  /** Among shortest heads, a smaller major type sorts first; within one type the arguments decide. */
  lemma ShortHeadOrder(m: major, v: nat, m': major, v': nat, x: seq<byte>, y: seq<byte>)
    requires v < TWO64 && v' < TWO64
    requires m < m' || (m == m' && v < v')
    ensures Less(ShortHead(m, v) + x, ShortHead(m', v') + y)
  {
    var ai, ai' := ShortestAi(v), ShortestAi(v');
    if m == m' && ai == ai' {
      SameWidthOrder(m, ai, v, v', x, y);
    } else {
      assert (ShortHead(m, v) + x)[0] == InitialByte(m, ai) && (ShortHead(m', v') + y)[0] == InitialByte(m', ai');
    }
  }

  lemma SameWidthOrder(m: major, ai: nat, v: nat, v': nat, x: seq<byte>, y: seq<byte>)
    requires ai < 28 && v < v' && ShortestAi(v) == ai == ShortestAi(v') && v' < TWO64
    ensures Less(HeadBytes(m, ai, v) + x, HeadBytes(m, ai, v') + y)
  {
    hide Be, FromBe, Pow256, Less;
    var n, p := ArgWidth(ai), [InitialByte(m, ai)];
    var a, b := Be(n, v), Be(n, v');
    Pow256Values();
    BeOrder(n, v, v');
    LessIrreflexive(a);
    LessEqualLength(a, x, b, y);
    LessPrefix(p, a + x, b + y);
    assert p + a + x == p + (a + x) && p + b + y == p + (b + y);
  }
}
