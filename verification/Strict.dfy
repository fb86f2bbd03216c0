/** Strict validation accepts exactly the canonical encodings (section 4.2.1 of RFC 8949). */
module Strict {
  import opened Bytes
  import opened Head
  import opened Utf8
  import opened Floats
  import opened Item
  import opened SkipSpec
  import opened Walks

  // ---- canonical encodings are accepted ----

  /** A shortest head followed by `rest` is read as that head, with `rest` behind it. */
  lemma HeadThen(input: seq<byte>, pos: nat, m: major, v: nat, rest: seq<byte>)
    requires v < TWO64 && At(input, pos, ShortHead(m, v) + rest)
    ensures ParseHead(input, pos) == ParsedHead(m, ShortestAi(v), v, false, |ShortHead(m, v)|, false, false)
    ensures At(input, pos + |ShortHead(m, v)|, rest)
    ensures m != SIMPLE ==> ParseHead(input, pos).Shortest()
  {
    AtConcat(input, pos, ShortHead(m, v), rest);
    ParseShortHead(input, pos, m, v);
  }

  lemma SkipScalarEnc(o: Options, input: seq<byte>, pos: nat, depth: nat, t: Item)
    requires Valid(t) && At(input, pos, Enc(t))
    requires t.UInt? || t.NInt? || t.Simple?
    ensures SkipItem(o, input, pos, depth) == Done(pos + |Enc(t)|, false)
  {
    hide HeadBytes, SkipLevel, ParseHead, ReadString, IsPreferred, Widen;
    match t
    case UInt(arg) => ParseShortHead(input, pos, UINT, arg);
    case NInt(arg) => ParseShortHead(input, pos, NINT, arg);
    case Simple(code) => ParseShortHead(input, pos, SIMPLE, code);
  }

  lemma SkipStringEnc(o: Options, input: seq<byte>, pos: nat, depth: nat, t: Item)
    requires Valid(t) && At(input, pos, Enc(t)) && (t.ByteString? || t.TextString?)
    ensures SkipItem(o, input, pos, depth) == Done(pos + |Enc(t)|, false)
  {
    hide ShortHead, SkipLevel, ParseHead, WellFormed, IsPreferred, Widen;
    if t.ByteString? {
      HeadThen(input, pos, BYTES, |t.bytes|, t.bytes);
    } else {
      HeadThen(input, pos, TEXT, |t.text|, t.text);
    }
  }

  lemma SkipFloatEnc(o: Options, input: seq<byte>, pos: nat, depth: nat, d: Double)
    requires IsDouble(d) && At(input, pos, Enc(Float(d)))
    ensures SkipItem(o, input, pos, depth) == Done(pos + |Enc(Float(d))|, false)
  {
    hide Preferred, Widen, IsPreferred, IsDouble, Be, FromBe;
    var w := Preferred(d);
    PreferredIsForm(d);
    WidenPreferred(d);
    IsPreferredExact(w);
    Pow256Values();
    FormWidths();
    ParseHeadBytes(input, pos, SIMPLE, w.ai, w.raw);
  }

  /** An item that does not start with a break. */
  lemma EncNotBreak(t: Item)
    requires Valid(t)
    ensures Enc(t)[0] != BREAK
  {
    if t.Float? {
      PreferredIsForm(t.value);
    }
  }

  /** A container whose members pass, passes. */
  lemma SkipContainerEnc(o: Options, input: seq<byte>, pos: nat, depth: nat, m: major, n: nat, body: seq<byte>)
    requires (m == ARRAY && n < TWO64) || (m == MAP && n < TWO63)
    requires depth < o.maxDepth && At(input, pos, ShortHead(m, n) + body) && (n == 0 ==> body == [])
    requires var h := ParseHead(input, pos);
             n > 0 ==> pos + h.length <= |input|
                       && SkipLevel(o, input, pos + h.length, depth + 1, OpenLevel(h))
                         == Done(pos + h.length + |body|, false)
    ensures SkipItem(o, input, pos, depth) == Done(pos + |ShortHead(m, n) + body|, false)
  {
    hide SkipLevel;
    HeadThen(input, pos, m, n, body);
  }

  lemma SkipTagEnc(o: Options, input: seq<byte>, pos: nat, depth: nat, tag: nat, content: Item)
    requires tag < TWO64 && Valid(content) && At(input, pos, ShortHead(TAG, tag) + Enc(content))
    requires var next := pos + |ShortHead(TAG, tag)|;
             next <= |input| ==> SkipItem(o, input, next, depth) == Done(next + |Enc(content)|, false)
    ensures SkipItem(o, input, pos, depth) == Done(pos + |ShortHead(TAG, tag) + Enc(content)|, false)
  {
    hide Enc, SkipLevel, SkipScalar, ParseHead, ShortHead;
    HeadThen(input, pos, TAG, tag, Enc(content));
    assert Enc(content) + [] == Enc(content);
    NotBreakAt(input, pos + |ShortHead(TAG, tag)|, content, []);
  }

  /** Every encoding passes the validator, in strict mode whenever its maps are in canonical order. */
  lemma {:induction false} SkipEnc(o: Options, input: seq<byte>, pos: nat, depth: nat, t: Item)
    requires Valid(t) && At(input, pos, Enc(t)) && Fits(t, o.maxDepth - depth)
    requires o.requireDeterministic ==> Canonical(t)
    ensures SkipItem(o, input, pos, depth) == Done(pos + |Enc(t)|, false)
    decreases t, 2
  {
    hide SkipItem, SkipLevel, ParseHead, Less;
    match t
    case Array(items) => SkipArrayEnc(o, input, pos, depth, items);
    case Map(entries) => SkipMapEnc(o, input, pos, depth, entries);
    case Tag(tag, content) =>
      HeadThen(input, pos, TAG, tag, Enc(content));
      SkipEnc(o, input, pos + |ShortHead(TAG, tag)|, depth, content);
      SkipTagEnc(o, input, pos, depth, tag, content);
    case Float(d) => SkipFloatEnc(o, input, pos, depth, d);
    case ByteString(_) => SkipStringEnc(o, input, pos, depth, t);
    case TextString(_) => SkipStringEnc(o, input, pos, depth, t);
    case _ => SkipScalarEnc(o, input, pos, depth, t);
  }

  lemma {:induction false} SkipArrayEnc(o: Options, input: seq<byte>, pos: nat, depth: nat, items: Items)
    requires items.Length() < TWO64 && ValidItems(items)
             && At(input, pos, ShortHead(ARRAY, items.Length()) + EncItems(items))
    requires depth < o.maxDepth && FitItems(items, o.maxDepth - depth - 1)
    requires o.requireDeterministic ==> CanonicalItems(items)
    ensures SkipItem(o, input, pos, depth) == Done(pos + |ShortHead(ARRAY, items.Length()) + EncItems(items)|, false)
    decreases items, 1
  {
    hide SkipItem, SkipLevel, ParseHead, ShortHead, At;
    HeadThen(input, pos, ARRAY, items.Length(), EncItems(items));
    if items.Items? {
      var h := ParseHead(input, pos);
      SkipItemsEnc(o, input, pos + h.length, depth + 1, items, OpenLevel(h));
    }
    SkipContainerEnc(o, input, pos, depth, ARRAY, items.Length(), EncItems(items));
  }

  lemma {:induction false} SkipMapEnc(o: Options, input: seq<byte>, pos: nat, depth: nat, entries: Entries)
    requires entries.Length() < TWO63 && ValidEntries(entries)
             && At(input, pos, ShortHead(MAP, entries.Length()) + EncEntries(entries))
    requires depth < o.maxDepth && FitEntries(entries, o.maxDepth - depth - 1)
    requires o.requireDeterministic ==> CanonicalEntries(entries) && Increasing(entries)
    ensures SkipItem(o, input, pos, depth)
            == Done(pos + |ShortHead(MAP, entries.Length()) + EncEntries(entries)|, false)
    decreases entries, 1
  {
    hide SkipItem, SkipLevel, ParseHead, ShortHead, At;
    HeadThen(input, pos, MAP, entries.Length(), EncEntries(entries));
    if entries.Entries? {
      var h := ParseHead(input, pos);
      SkipEntriesEnc(o, input, pos + h.length, depth + 1, entries, OpenLevel(h));
    }
    SkipContainerEnc(o, input, pos, depth, MAP, entries.Length(), EncEntries(entries));
  }

  lemma NotBreakAt(input: seq<byte>, pos: nat, t: Item, rest: seq<byte>)
    requires Valid(t) && At(input, pos, Enc(t) + rest)
    ensures At(input, pos, Enc(t)) && At(input, pos + |Enc(t)|, rest) && pos < |input| && input[pos] != BREAK
  {
    AtConcat(input, pos, Enc(t), rest);
    EncNotBreak(t);
    assert input[pos] == input[pos..pos + |Enc(t)|][0];
  }

  /** One item of a container, once it is known to pass. */
  lemma LevelStep(o: Options, input: seq<byte>, pos: nat, depth: nat, lv: Level, p: nat, w: bool)
    requires pos < |input| && input[pos] != BREAK && lv.Ok(pos)
    requires SkipItem(o, input, pos, depth) == Done(p, w)
    ensures var step := AfterItem(o, input, p, AtItem(o, lv, pos));
            SkipLevel(o, input, pos, depth, lv)
            == if step.Bad? then Fail(step.error) else if step.Complete? then Done(p, w)
               else OrWrapped(w, SkipLevel(o, input, p, depth, step.level))
  {
  }

  lemma AfterArrayItem(o: Options, input: seq<byte>, pos: nat, p: nat, lv: Level, left: nat)
    requires pos <= p <= |input| && lv.Ok(pos) && !lv.isMap && lv.remaining == Some(left) && 0 < left
    ensures AfterItem(o, input, p, AtItem(o, lv, pos)) == if left == 1 then Complete
            else More(lv.(remaining := Some(left - 1)))
  {
  }

  lemma {:induction false} SkipItemsEnc(o: Options, input: seq<byte>, pos: nat, depth: nat, s: Items, lv: Level)
    requires s.Items? && ValidItems(s) && At(input, pos, EncItems(s)) && FitItems(s, o.maxDepth - depth)
    requires o.requireDeterministic ==> CanonicalItems(s)
    requires lv.Ok(pos) && !lv.isMap && lv.remaining == Some(s.Length())
    ensures SkipLevel(o, input, pos, depth, lv) == Done(pos + |EncItems(s)|, false)
    decreases s, 0
  {
    hide SkipItem, SkipLevel, AfterItem, AtItem, Enc, Valid, Fits, Canonical, ParseHead, At;
    NotBreakAt(input, pos, s.head, EncItems(s.tail));
    SkipEnc(o, input, pos, depth, s.head);
    var p := pos + |Enc(s.head)|;
    LevelStep(o, input, pos, depth, lv, p, false);
    AfterArrayItem(o, input, pos, p, lv, s.Length());
    if s.tail.Items? {
      SkipItemsEnc(o, input, p, depth, s.tail, lv.(remaining := Some(s.Length() - 1)));
    }
  }

  /** The level waits for a key; the last key, if any, was `prev`. */
  ghost predicate AwaitsKey(input: seq<byte>, lv: Level, left: nat, prev: Option<seq<byte>>) {
    && lv.isMap && lv.keyNext && !lv.inKey && lv.remaining == Some(2 * left)
    && lv.havePrev == prev.Some?
    && (lv.havePrev ==> lv.prevStart <= lv.prevEnd <= |input| && input[lv.prevStart..lv.prevEnd] == prev.value)
  }

  ghost predicate InOrder(prev: Option<seq<byte>>, s: Entries) {
    if prev.Some? then Above(prev.value, s) else Increasing(s)
  }

  /** What a level is after the key at `pos..p` and after the value behind it. */
  lemma AfterKey(o: Options, input: seq<byte>, pos: nat, p: nat, lv: Level, left: nat, prev: Option<seq<byte>>)
    requires pos <= p <= |input| && lv.Ok(pos) && 0 < left < TWO63 && lv.isMap && lv.keyNext
             && lv.remaining == Some(2 * left)
    requires o.requireDeterministic ==> AwaitsKey(input, lv, left, prev)
    requires o.requireDeterministic && prev.Some? ==> Less(prev.value, input[pos..p])
    ensures AfterItem(o, input, p, AtItem(o, lv, pos)).More?
    ensures var mid := AfterItem(o, input, p, AtItem(o, lv, pos)).level;
            mid.Ok(p) && mid.isMap && !mid.keyNext && mid.remaining == Some(2 * left - 1) && AtItem(o, mid, p) == mid
    ensures var mid := AfterItem(o, input, p, AtItem(o, lv, pos)).level;
            o.requireDeterministic ==> !mid.inKey && mid.havePrev && mid.prevStart == pos && mid.prevEnd == p
  {
    if o.requireDeterministic && prev.Some? {
      LessIrreflexive(prev.value);
      if Less(input[pos..p], prev.value) {
        LessTransitive(prev.value, input[pos..p], prev.value);
      }
    }
  }

  lemma AfterValue(o: Options, input: seq<byte>, q: nat, mid: Level, left: nat)
    requires q <= |input| && mid.Ok(q) && mid.isMap && !mid.keyNext && mid.remaining == Some(2 * left - 1)
             && 0 < left < TWO63
    ensures AfterItem(o, input, q, mid) == if left == 1 then Complete
            else More(mid.(keyNext := true, remaining := Some(2 * (left - 1))))
  {
  }

  lemma {:induction false} SkipEntriesEnc(o: Options, input: seq<byte>, pos: nat, depth: nat, s: Entries, lv: Level,
                                          prev: Option<seq<byte>> := None)
    requires s.Entries? && ValidEntries(s) && At(input, pos, EncEntries(s)) && FitEntries(s, o.maxDepth - depth)
    requires o.requireDeterministic
             ==> CanonicalEntries(s) && InOrder(prev, s) && AwaitsKey(input, lv, s.Length(), prev)
    requires lv.Ok(pos) && lv.isMap && lv.keyNext && s.Length() < TWO63 && lv.remaining == Some(2 * s.Length())
    ensures SkipLevel(o, input, pos, depth, lv) == Done(pos + |EncEntries(s)|, false)
    decreases s, 0
  {
    hide SkipItem, SkipLevel, AfterItem, Enc, Valid, Fits, Canonical, ParseHead, Less;
    NotBreakAt(input, pos, s.key, Enc(s.val) + EncEntries(s.rest));
    SkipEnc(o, input, pos, depth, s.key);
    var p := pos + |Enc(s.key)|;
    LevelStep(o, input, pos, depth, lv, p, false);
    AfterKey(o, input, pos, p, lv, s.Length(), prev);
    var mid := AfterItem(o, input, p, AtItem(o, lv, pos)).level;
    NotBreakAt(input, p, s.val, EncEntries(s.rest));
    SkipEnc(o, input, p, depth, s.val);
    var q := p + |Enc(s.val)|;
    LevelStep(o, input, p, depth, mid, q, false);
    AfterValue(o, input, q, mid, s.Length());
    if s.rest.Entries? {
      var next := AfterItem(o, input, q, mid).level;
      SkipEntriesEnc(o, input, q, depth, s.rest, next, Some(Enc(s.key)));
    }
  }

  // ---- what is accepted is a canonical encoding ----

  predicate IsStrict(o: Options) {
    o.requireDeterministic && o.validateUtf8
  }

  /** `t` is the canonical encoding found at `pos..end`, inside `depth` containers. */
  ghost predicate CanonicalAt(o: Options, input: seq<byte>, pos: nat, depth: nat, end: nat, t: Item) {
    && Valid(t) && Canonical(t) && Fits(t, o.maxDepth - depth)
    && At(input, pos, Enc(t)) && end == pos + |Enc(t)|
  }

  /** An accepted container member lets its container go on. */
  lemma LevelUnstep(o: Options, input: seq<byte>, pos: nat, depth: nat, lv: Level, end: nat) returns (p: nat)
    requires pos <= |input| && lv.Ok(pos) && lv.remaining.Some?
    requires SkipLevel(o, input, pos, depth, lv) == Done(end, false)
    ensures pos < p <= |input| && SkipItem(o, input, pos, depth) == Done(p, false)
    ensures AtItem(o, lv, pos).Ok(p) && (o.requireDeterministic && lv.isMap && lv.keyNext ==> AtItem(o, lv, pos).inKey)
    ensures var step := AfterItem(o, input, p, AtItem(o, lv, pos));
            (step.Complete? && p == end)
              || (step.More? && SkipLevel(o, input, p, depth, step.level) == Done(end, false))
  {
    p := SkipItem(o, input, pos, depth).pos;
  }

  lemma StrictString(o: Options, input: seq<byte>, pos: nat, end: nat) returns (t: Item)
    requires IsStrict(o) && ParseHead(input, pos).Plain() && ParseHead(input, pos).Shortest()
    requires ParseHead(input, pos).mt == BYTES || ParseHead(input, pos).mt == TEXT
    requires SkipScalar(o, input, pos) == Done(end, false)
    ensures Valid(t) && (t.ByteString? || t.TextString?) && At(input, pos, Enc(t)) && end == pos + |Enc(t)|
  {
    hide ShortHead, ParseHead, WellFormed, FirstBad, IsPreferred, Widen, ReadChunks;
    var h := ParseHead(input, pos);
    ShortestIsShortHead(input, pos);
    var s := input[pos + h.length..pos + h.length + h.value];
    AtConcat(input, pos, ShortHead(h.mt, h.value), s);
    ParseShortHead(input, pos, h.mt, h.value);
    t := if h.mt == BYTES then ByteString(s) else TextString(s);
  }

  lemma StrictSimple(o: Options, input: seq<byte>, pos: nat, end: nat) returns (t: Item)
    requires IsStrict(o) && ParseHead(input, pos).Plain() && ParseHead(input, pos).mt == SIMPLE
    requires SkipScalar(o, input, pos) == Done(end, false)
    ensures Valid(t) && (t.Simple? || t.Float?) && At(input, pos, Enc(t)) && end == pos + |Enc(t)|
  {
    hide Be, FromBe, Preferred, Widen, IsPreferred, IsDouble;
    var h := ParseHead(input, pos);
    PlainHeadBytes(input, pos);
    if h.ai >= 25 {
      FloatHead(input, pos);
      var w := FloatForm(h.ai, h.value);
      IsPreferredExact(w);
      t := Float(Widen(w));
    } else {
      Pow256Values();
      t := Simple(h.value);
    }
  }

  lemma StrictScalar(o: Options, input: seq<byte>, pos: nat, end: nat) returns (t: Item)
    requires IsStrict(o) && HeadError(o, ParseHead(input, pos), pos).None?
    requires var m := ParseHead(input, pos).mt; m != ARRAY && m != MAP && m != TAG
    requires SkipScalar(o, input, pos) == Done(end, false)
    ensures Valid(t) && At(input, pos, Enc(t)) && end == pos + |Enc(t)|
    ensures !t.Array? && !t.Map? && !t.Tag?
  {
    hide Be, FromBe;
    var h := ParseHead(input, pos);
    if h.mt == SIMPLE {
      t := StrictSimple(o, input, pos, end);
    } else if h.mt == BYTES || h.mt == TEXT {
      t := StrictString(o, input, pos, end);
    } else {
      ShortestIsShortHead(input, pos);
      ParseShortHead(input, pos, h.mt, h.value);
      t := if h.mt == UINT then UInt(h.value) else NInt(h.value);
    }
  }

  /** Strict validation accepts nothing but canonical encodings within the depth limit. */
  lemma {:induction false} StrictItem(o: Options, input: seq<byte>, pos: nat, depth: nat, end: nat) returns (t: Item)
    requires pos <= |input| && IsStrict(o) && SkipItem(o, input, pos, depth) == Done(end, false)
    ensures CanonicalAt(o, input, pos, depth, end, t)
    decreases |input| - pos, 0
  {
    hide SkipScalar, SkipLevel, ParseHead, ShortHead, At;
    var h := ParseHead(input, pos);
    if h.mt == TAG {
      var content := StrictItem(o, input, pos + h.length, depth, end);
      PrefixHead(input, pos, Enc(content));
      t := Tag(h.value, content);
      assert Enc(t) == ShortHead(h.mt, h.value) + Enc(content);
      assert Valid(t) && Canonical(t) && Fits(t, o.maxDepth - depth) && At(input, pos, Enc(t));
    } else if h.mt == ARRAY {
      var s := NoItems;
      AtNothing(input, pos + h.length);
      if h.value > 0 {
        s := StrictItems(o, input, pos + h.length, depth + 1, OpenLevel(h), h.value, end);
      }
      PrefixHead(input, pos, EncItems(s));
      t := Array(s);
      assert Enc(t) == ShortHead(h.mt, h.value) + EncItems(s);
      assert Valid(t) && Canonical(t) && Fits(t, o.maxDepth - depth) && At(input, pos, Enc(t));
    } else if h.mt == MAP {
      var s := NoEntries;
      AtNothing(input, pos + h.length);
      if h.value > 0 {
        s := StrictEntries(o, input, pos + h.length, depth + 1, OpenLevel(h), h.value, None, end);
      }
      PrefixHead(input, pos, EncEntries(s));
      t := Map(s);
      assert Enc(t) == ShortHead(h.mt, h.value) + EncEntries(s);
      assert Valid(t) && Canonical(t) && Fits(t, o.maxDepth - depth) && At(input, pos, Enc(t));
    } else {
      t := StrictScalar(o, input, pos, end);
    }
  }

  /** An accepted head with `rest` behind it is the shortest head with `rest` behind it. */
  lemma PrefixHead(input: seq<byte>, pos: nat, rest: seq<byte>)
    requires ParseHead(input, pos).Plain() && ParseHead(input, pos).mt != SIMPLE && ParseHead(input, pos).Shortest()
    requires At(input, pos + ParseHead(input, pos).length, rest)
    ensures var h := ParseHead(input, pos);
            |ShortHead(h.mt, h.value)| == h.length && At(input, pos, ShortHead(h.mt, h.value) + rest)
  {
    hide ParseHead, ShortHead;
    var h := ParseHead(input, pos);
    ShortestIsShortHead(input, pos);
    ParseShortHead(input, pos, h.mt, h.value);
    AtConcat(input, pos, ShortHead(h.mt, h.value), rest);
  }

  lemma {:induction false} StrictItems(o: Options, input: seq<byte>, pos: nat, depth: nat, lv: Level, left: nat,
                                       end: nat) returns (s: Items)
    requires pos <= |input| && IsStrict(o) && lv.Ok(pos) && !lv.isMap && lv.remaining == Some(left) && 0 < left
    requires SkipLevel(o, input, pos, depth, lv) == Done(end, false)
    ensures s.Length() == left && ValidItems(s) && CanonicalItems(s) && FitItems(s, o.maxDepth - depth)
    ensures At(input, pos, EncItems(s)) && end == pos + |EncItems(s)|
    decreases |input| - pos, 1
  {
    hide SkipItem, SkipLevel, AfterItem, Enc, Valid, Fits, Canonical, At;
    var p := LevelUnstep(o, input, pos, depth, lv, end);
    var head := StrictItem(o, input, pos, depth, p);
    AfterArrayItem(o, input, pos, p, lv, left);
    var tail := NoItems;
    if left > 1 {
      tail := StrictItems(o, input, p, depth, lv.(remaining := Some(left - 1)), left - 1, end);
    }
    AtConcat(input, pos, Enc(head), EncItems(tail));
    AtNothing(input, end);
    s := Items(head, tail);
  }

  /** A key that does not stop the validator is above the one before it. */
  lemma KeyAccepted(o: Options, input: seq<byte>, pos: nat, p: nat, lv: Level, left: nat, prev: Option<seq<byte>>)
    requires o.requireDeterministic && pos <= p <= |input| && lv.Ok(pos) && AwaitsKey(input, lv, left, prev)
    requires !AfterItem(o, input, p, AtItem(o, lv, pos)).Bad?
    ensures prev.Some? ==> Less(prev.value, input[pos..p])
  {
    if prev.Some? {
      LessTotal(prev.value, input[pos..p]);
    }
  }

  lemma {:induction false} StrictEntries(o: Options, input: seq<byte>, pos: nat, depth: nat, lv: Level, left: nat,
                                         prev: Option<seq<byte>>, end: nat) returns (s: Entries)
    requires pos <= |input| && IsStrict(o) && lv.Ok(pos) && AwaitsKey(input, lv, left, prev) && 0 < left < TWO63
    requires SkipLevel(o, input, pos, depth, lv) == Done(end, false)
    ensures s.Length() == left && ValidEntries(s) && CanonicalEntries(s) && FitEntries(s, o.maxDepth - depth)
            && InOrder(prev, s)
    ensures At(input, pos, EncEntries(s)) && end == pos + |EncEntries(s)|
    decreases |input| - pos, 1
  {
    hide SkipItem, SkipLevel, AfterItem, AtItem, Enc, Valid, Fits, Canonical, Less;
    var p := LevelUnstep(o, input, pos, depth, lv, end);
    var key := StrictItem(o, input, pos, depth, p);
    KeyAccepted(o, input, pos, p, lv, left, prev);
    AfterKey(o, input, pos, p, lv, left, prev);
    var mid := AfterItem(o, input, p, AtItem(o, lv, pos)).level;
    var q := LevelUnstep(o, input, p, depth, mid, end);
    var val := StrictItem(o, input, p, depth, q);
    AfterValue(o, input, q, mid, left);
    var rest := NoEntries;
    if left > 1 {
      var next := AfterItem(o, input, q, mid).level;
      rest := StrictEntries(o, input, q, depth, next, left - 1, Some(Enc(key)), end);
    }
    AtNothing(input, end);
    AtConcat(input, p, Enc(val), EncEntries(rest));
    AtConcat(input, pos, Enc(key), Enc(val) + EncEntries(rest));
    assert input[pos..p] == Enc(key);
    s := Entries(key, val, rest);
    assert Above(Enc(key), rest);
  }

  lemma AtNothing(input: seq<byte>, pos: nat)
    requires pos <= |input|
    ensures At(input, pos, [])
  {
  }

  // ---- the tree is unique ----

  /** Head type and argument of an item that is not a float. */
  function HeadOf(t: Item): (major, nat)
    requires !t.Float?
  {
    match t
    case UInt(arg) => (UINT, arg)
    case NInt(arg) => (NINT, arg)
    case ByteString(bytes) => (BYTES, |bytes|)
    case TextString(text) => (TEXT, |text|)
    case Array(items) => (ARRAY, items.Length())
    case Map(entries) => (MAP, entries.Length())
    case Tag(tag, _) => (TAG, tag)
    case Simple(code) => (SIMPLE, code)
  }

  /** The bytes behind the head. */
  function Body(t: Item): seq<byte> {
    match t
    case ByteString(bytes) => bytes
    case TextString(text) => text
    case Array(items) => EncItems(items)
    case Map(entries) => EncEntries(entries)
    case Tag(_, content) => Enc(content)
    case _ => []
  }

  lemma EncIsHeadAndBody(input: seq<byte>, pos: nat, t: Item)
    requires Valid(t) && At(input, pos, Enc(t)) && !t.Float?
    ensures var (m, v) := HeadOf(t);
            v < TWO64 && ParseHead(input, pos)
              == ParsedHead(m, ShortestAi(v), v, false, |ShortHead(m, v)|, false, false)
            && At(input, pos + |ShortHead(m, v)|, Body(t))
  {
    hide ParseHead, ShortHead, At;
    var (m, v) := HeadOf(t);
    assert ShortHead(m, v) + [] == ShortHead(m, v);
    HeadThen(input, pos, m, v, Body(t));
  }

  lemma FloatAt(input: seq<byte>, pos: nat, d: Double)
    requires IsDouble(d) && At(input, pos, Enc(Float(d)))
    ensures var w := Preferred(d);
            25 <= w.ai && ParseHead(input, pos)
              == ParsedHead(SIMPLE, w.ai, w.raw, false, 1 + ArgWidth(w.ai), false, false)
  {
    hide Preferred, Be, FromBe, ParseHead;
    PreferredIsForm(d);
    Pow256Values();
    FormWidths();
    ParseHeadBytes(input, pos, SIMPLE, Preferred(d).ai, Preferred(d).raw);
  }

  lemma FloatUnique(input: seq<byte>, pos: nat, t: Item, t': Item)
    requires Valid(t) && Valid(t') && At(input, pos, Enc(t)) && At(input, pos, Enc(t')) && t.Float?
    ensures t == t'
  {
    hide Preferred, ParseHead, At, Widen, Enc, IsDouble;
    FloatAt(input, pos, t.value);
    if t'.Float? {
      FloatAt(input, pos, t'.value);
      WidenPreferred(t.value);
      WidenPreferred(t'.value);
    } else {
      EncIsHeadAndBody(input, pos, t');
    }
  }

  lemma SameHead(input: seq<byte>, pos: nat, t: Item, t': Item) returns (p: nat)
    requires Valid(t) && Valid(t') && At(input, pos, Enc(t)) && At(input, pos, Enc(t')) && !t.Float? && !t'.Float?
    ensures HeadOf(t) == HeadOf(t') && At(input, p, Body(t)) && At(input, p, Body(t'))
  {
    hide ParseHead, ShortHead, Enc, Body, At, Valid;
    EncIsHeadAndBody(input, pos, t);
    EncIsHeadAndBody(input, pos, t');
    p := pos + |ShortHead(HeadOf(t).0, HeadOf(t).1)|;
  }

  /** No two valid items are encoded at one place. */
  lemma {:induction false} EncUnique(input: seq<byte>, pos: nat, t: Item, t': Item)
    requires Valid(t) && Valid(t') && At(input, pos, Enc(t)) && At(input, pos, Enc(t'))
    ensures t == t'
    decreases t
  {
    hide Enc, EncItems, EncEntries, WellFormed, IsDouble;
    if t.Float? {
      FloatUnique(input, pos, t, t');
    } else if t'.Float? {
      FloatUnique(input, pos, t', t);
    } else {
      var p := SameHead(input, pos, t, t');
      match t
      case Array(items) => EncItemsUnique(input, p, items, t'.items);
      case Map(entries) => EncEntriesUnique(input, p, entries, t'.entries);
      case Tag(_, content) => EncUnique(input, p, content, t'.content);
      case _ =>
    }
  }

  lemma {:induction false} EncItemsUnique(input: seq<byte>, pos: nat, s: Items, s': Items)
    requires ValidItems(s) && ValidItems(s') && s.Length() == s'.Length()
    requires At(input, pos, EncItems(s)) && At(input, pos, EncItems(s'))
    ensures s == s'
    decreases s
  {
    hide Enc, Valid, At;
    if s.Items? {
      AtConcat(input, pos, Enc(s.head), EncItems(s.tail));
      AtConcat(input, pos, Enc(s'.head), EncItems(s'.tail));
      EncUnique(input, pos, s.head, s'.head);
      EncItemsUnique(input, pos + |Enc(s.head)|, s.tail, s'.tail);
    }
  }

  lemma {:induction false} EncEntriesUnique(input: seq<byte>, pos: nat, s: Entries, s': Entries)
    requires ValidEntries(s) && ValidEntries(s') && s.Length() == s'.Length()
    requires At(input, pos, EncEntries(s)) && At(input, pos, EncEntries(s'))
    ensures s == s'
    decreases s
  {
    hide Enc, Valid, At;
    if s.Entries? {
      AtConcat(input, pos, Enc(s.key), Enc(s.val) + EncEntries(s.rest));
      AtConcat(input, pos, Enc(s'.key), Enc(s'.val) + EncEntries(s'.rest));
      EncUnique(input, pos, s.key, s'.key);
      var p := pos + |Enc(s.key)|;
      AtConcat(input, p, Enc(s.val), EncEntries(s.rest));
      AtConcat(input, p, Enc(s'.val), EncEntries(s'.rest));
      EncUnique(input, p, s.val, s'.val);
      EncEntriesUnique(input, p + |Enc(s.val)|, s.rest, s'.rest);
    }
  }

  // ---- the theorem ----

  /** Strict validation accepts a span exactly when it is the canonical encoding of a tree within the
      depth limit, no map head met on the way claiming 2^63 entries or more; and the tree is unique. */
  lemma StrictExact(o: Options, input: seq<byte>, pos: nat, depth: nat, end: nat)
    requires IsStrict(o) && pos <= |input|
    ensures var r := SkipItem(o, input, pos, depth);
            r.Done? && r.pos == end && !Meets(HugeMap, o, input, pos, depth) <==>
            exists t :: CanonicalAt(o, input, pos, depth, end, t)
    ensures forall t, t' ::
              CanonicalAt(o, input, pos, depth, end, t) && CanonicalAt(o, input, pos, depth, end, t') ==> t == t'
  {
    hide SkipItem, Enc, Valid, Canonical, Fits, At, Meets;
    if SkipItem(o, input, pos, depth).Done? {
      WrappedIsMet(o, input, pos, depth);
    }
    if SkipItem(o, input, pos, depth) == Done(end, false) {
      var t := StrictItem(o, input, pos, depth, end);
    }
    if t :| CanonicalAt(o, input, pos, depth, end, t) {
      SkipEnc(o, input, pos, depth, t);
    }
    forall t, t' | CanonicalAt(o, input, pos, depth, end, t) && CanonicalAt(o, input, pos, depth, end, t')
      ensures t == t'
    {
      EncUnique(input, pos, t, t');
    }
  }

  /** An accepted span is canonical if and only if no map head met on the way claims 2^63 entries or more. */
  lemma AcceptedIsCanonicalUnlessWrapped(o: Options, input: seq<byte>, pos: nat, depth: nat)
    requires IsStrict(o) && pos <= |input| && SkipItem(o, input, pos, depth).Done?
    ensures var end := SkipItem(o, input, pos, depth).pos;
            !Meets(HugeMap, o, input, pos, depth) <==> exists t :: CanonicalAt(o, input, pos, depth, end, t)
  {
    hide SkipItem, Meets;
    StrictExact(o, input, pos, depth, SkipItem(o, input, pos, depth).pos);
  }

  /** On an input in which no position looks like such a head, acceptance is canonicity. */
  lemma StrictExactOnPlainInput(o: Options, input: seq<byte>, pos: nat, depth: nat, end: nat)
    requires IsStrict(o) && pos <= |input| && Nowhere(HugeMap, o, input)
    ensures (SkipItem(o, input, pos, depth).Done? && SkipItem(o, input, pos, depth).pos == end)
            <==> exists t :: CanonicalAt(o, input, pos, depth, end, t)
  {
    hide SkipItem, Meets, Nowhere;
    StrictExact(o, input, pos, depth, end);
    NowhereNotMet(HugeMap, o, input, pos, depth);
  }

  lemma BeStep(s: seq<byte>, k: nat)
    requires k < |s|
    ensures FromBe(s[..k + 1]) == FromBe(s[..k]) * 256 + s[k]
  {
    assert s[..k + 1][..k] == s[..k];
  }

  lemma HugeArgument(s: seq<byte>)
    requires s == [0x80, 0, 0, 0, 0, 0, 0, 1]
    ensures FromBe(s) == TWO63 + 1
  {
    hide FromBe;
    assert s[..0] == [] && s[..8] == s;
    BeNothing();
    BeStep(s, 0);
    BeStep(s, 1);
    BeStep(s, 2);
    BeStep(s, 3);
    BeStep(s, 4);
    BeStep(s, 5);
    BeStep(s, 6);
    BeStep(s, 7);
  }

  lemma BeNothing()
    ensures FromBe([]) == 0
  {
  }

  lemma HugeHead(input: seq<byte>)
    requires input == [0xBB, 0x80, 0, 0, 0, 0, 0, 0, 1, 0, 0]
    ensures ParseHead(input, 0) == ParsedHead(MAP, 27, TWO63 + 1, false, 9, false, false)
  {
    hide FromBe;
    assert input[1..9] == [0x80, 0, 0, 0, 0, 0, 0, 1];
    HugeArgument(input[1..9]);
  }

  lemma ZeroItem(o: Options, input: seq<byte>, pos: nat, depth: nat)
    requires pos < |input| && input[pos] == 0
    ensures SkipItem(o, input, pos, depth) == Done(pos + 1, false)
  {
  }

  lemma HugeOpens(o: Options, input: seq<byte>)
    requires o.maxDepth > 0 && |input| >= 9
             && ParseHead(input, 0) == ParsedHead(MAP, 27, TWO63 + 1, false, 9, false, false)
    ensures SkipItem(o, input, 0, 0) == OrWrapped(true, SkipLevel(o, input, 9, 1, OpenLevel(ParseHead(input, 0))))
  {
    hide SkipLevel, SkipScalar, ParseHead;
  }

  /** A map level that waits for two items, with a zero for the key and a zero for the value. */
  lemma TwoZeros(o: Options, input: seq<byte>, pos: nat, depth: nat, lv: Level)
    requires pos + 2 <= |input| && input[pos] == 0 && input[pos + 1] == 0
    requires lv == Level(true, Some(2), true, 0, 0, 0, false, false)
    ensures SkipLevel(o, input, pos, depth, lv) == Done(pos + 2, false)
  {
    hide SkipLevel, SkipItem, Less;
    ZeroItem(o, input, pos, depth);
    ZeroItem(o, input, pos + 1, depth);
    LevelStep(o, input, pos, depth, lv, pos + 1, false);
    var mid := AfterItem(o, input, pos + 1, AtItem(o, lv, pos)).level;
    LevelStep(o, input, pos + 1, depth, mid, pos + 2, false);
  }

  /** The doubled count of this map wraps to two items: eleven bytes that no tree encodes are accepted. */
  lemma WrappedCountAccepted(o: Options, input: seq<byte>)
    requires o.maxDepth > 0 && input == [0xBB, 0x80, 0, 0, 0, 0, 0, 0, 1, 0, 0]
    ensures SkipItem(o, input, 0, 0) == Done(11, true)
    ensures IsStrict(o) ==> !exists t :: CanonicalAt(o, input, 0, 0, 11, t)
  {
    hide ParseHead, SkipLevel, SkipItem, CanonicalAt, Meets;
    HugeHead(input);
    HugeOpens(o, input);
    TwoZeros(o, input, 9, 1, OpenLevel(ParseHead(input, 0)));
    if IsStrict(o) {
      StrictExact(o, input, 0, 0, 11);
      WrappedIsMet(o, input, 0, 0);
    }
  }
}
