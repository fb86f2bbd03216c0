/** Canonical order of integer and text map keys (section 4.2.1 of RFC 8949). */
module KeyOrder {
  import opened Bytes
  import opened Head

  /** A struct or map key as the codec lowers it: an int64 or a text string. */
  datatype Key = IntKey(i: int) | TextKey(text: seq<byte>) {
    predicate Valid() {
      match this
      case IntKey(i) => -TWO63 <= i < TWO63
      case TextKey(text) => |text| < TWO64
    }
  }

  /** encode_int_key and encode_text_key. */
  function EncodeKey(k: Key): seq<byte>
    requires k.Valid()
  {
    match k
    case IntKey(i) => if i >= 0 then ShortHead(UINT, i) else ShortHead(NINT, -1 - i)
    case TextKey(text) => ShortHead(TEXT, |text|) + text
  }

  /** Non-negative integers ascending, then negative ones from -1 downwards, then text by length and then bytes. */
  predicate Before(a: Key, b: Key) {
    match (a, b)
    case (IntKey(i), IntKey(j)) => if i >= 0 then j < 0 || i < j else j < i
    case (IntKey(_), TextKey(_)) => true
    case (TextKey(_), IntKey(_)) => false
    case (TextKey(s), TextKey(t)) => |s| < |t| || (|s| == |t| && Less(s, t))
  }

  lemma BeforeTotal(a: Key, b: Key)
    ensures Before(a, b) || a == b || Before(b, a)
  {
    if a.TextKey? && b.TextKey? {
      LessTotal(a.text, b.text);
    }
  }

  lemma BeforeEncodesLess(a: Key, b: Key)
    requires a.Valid() && b.Valid() && Before(a, b)
    ensures Less(EncodeKey(a), EncodeKey(b))
  {
    match (a, b)
    case (IntKey(i), IntKey(j)) =>
      var m, v := if i >= 0 then UINT else NINT, if i >= 0 then i else -1 - i;
      var m', v' := if j >= 0 then UINT else NINT, if j >= 0 then j else -1 - j;
      ShortHeadOrder(m, v, m', v', [], []);
      assert ShortHead(m, v) + [] == ShortHead(m, v) && ShortHead(m', v') + [] == ShortHead(m', v');
    case (IntKey(i), TextKey(t)) =>
      var m, v := if i >= 0 then UINT else NINT, if i >= 0 then i else -1 - i;
      ShortHeadOrder(m, v, TEXT, |t|, [], t);
      assert ShortHead(m, v) + [] == ShortHead(m, v);
    case (TextKey(s), TextKey(t)) =>
      if |s| == |t| {
        LessPrefix(ShortHead(TEXT, |s|), s, t);
      } else {
        ShortHeadOrder(TEXT, |s|, TEXT, |t|, s, t);
      }
  }

  /** The bytewise order of encoded keys is exactly `Before`: total, strict, and blind to nothing. */
  lemma EncodedOrderIsKeyOrder(a: Key, b: Key)
    requires a.Valid() && b.Valid()
    ensures Less(EncodeKey(a), EncodeKey(b)) <==> Before(a, b)
    ensures EncodeKey(a) == EncodeKey(b) <==> a == b
    ensures (if Before(a, b) then 1 else 0) + (if a == b then 1 else 0) + (if Before(b, a) then 1 else 0) == 1
  {
    BeforeTotal(a, b);
    LessIrreflexive(EncodeKey(a));
    LessIrreflexive(EncodeKey(b));
    if Before(a, b) {
      BeforeEncodesLess(a, b);
    }
    if Before(b, a) {
      BeforeEncodesLess(b, a);
    }
    if Less(EncodeKey(a), EncodeKey(b)) && Less(EncodeKey(b), EncodeKey(a)) {
      LessTransitive(EncodeKey(a), EncodeKey(b), EncodeKey(a));
    }
    if a.TextKey? {
      LessIrreflexive(a.text);
    }
  }

  /** An encoded key is never a proper prefix of another: the key code is self-delimiting. */
  lemma KeysPrefixFree(a: Key, b: Key, x: seq<byte>, y: seq<byte>)
    requires a.Valid() && b.Valid() && EncodeKey(a) + x == EncodeKey(b) + y
    ensures a == b && x == y
  {
    var m, v, s := Parts(a);
    var m', v', t := Parts(b);
    SelfDelimiting(m, v, s, x, m', v', t, y);
    EncodedOrderIsKeyOrder(a, b);
  }

  lemma SelfDelimiting(m: major, v: nat, s: seq<byte>, x: seq<byte>, m': major, v': nat, t: seq<byte>, y: seq<byte>)
    requires v < TWO64 && |s| == (if m == TEXT then v else 0)
    requires v' < TWO64 && |t| == (if m' == TEXT then v' else 0)
    requires ShortHead(m, v) + s + x == ShortHead(m', v') + t + y
    ensures m == m' && v == v' && s == t && x == y
  {
    assert ShortHead(m, v) + s + x == ShortHead(m, v) + (s + x);
    assert ShortHead(m', v') + t + y == ShortHead(m', v') + (t + y);
    ShortHeadsPrefixFree(m, v, m', v', s + x, t + y);
    assert s == (s + x)[..|s|] && t == (t + y)[..|t|];
    assert x == (s + x)[|s|..] && y == (t + y)[|t|..];
  }

  /** Head type, head argument and payload of a key. */
  lemma Parts(k: Key) returns (m: major, v: nat, s: seq<byte>)
    requires k.Valid()
    ensures v < TWO64 && EncodeKey(k) == ShortHead(m, v) + s
    ensures |s| == if m == TEXT then v else 0
  {
    match k
    case IntKey(i) =>
      m, v, s := if i >= 0 then UINT else NINT, if i >= 0 then i else -1 - i, [];
    case TextKey(text) =>
      m, v, s := TEXT, |text|, text;
  }
}
