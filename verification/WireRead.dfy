/** The lenient reader and the validator against all encodings of an item: what they accept and what it is read as. */
module WireRead {
  import opened Bytes
  import opened Head
  import opened Utf8
  import opened Floats
  import opened Item
  import opened SkipSpec
  import opened ReadSpec
  import opened Wires
  import opened EndToEnd

  // ---- chunks ----

  lemma ChunkTaken(o: Options, input: seq<byte>, pos: nat, text: bool, c: ChunkWire, rest: seq<byte>)
    requires ChunkFits(o, text, c) && At(input, pos, AnyHead(StringType(text), c.ai, |c.span|) + (c.span + rest))
    ensures var next := pos + |AnyHead(StringType(text), c.ai, |c.span|)| + |c.span|;
            ChunkAt(o, input, pos, StringType(text)) == Chunk(c.span, next) && At(input, next, rest)
  {
    hide AnyHead, WellFormed, FirstBad, ParseHead, HeadFits;
    var m := StringType(text);
    var n := pos + |AnyHead(m, c.ai, |c.span|)|;
    if HeadFits(c.ai, |c.span|) {
      HeadRead(input, pos, m, c.ai, |c.span|, c.span + rest);
    } else {
      ReservedRead(input, pos, m, c.ai, c.span + rest);
    }
    AtConcat(input, n, c.span, rest);
    SpanAt(input, n, c.span);
    AnyHeadStarts(m, c.ai, |c.span|);
    AtConcat(input, pos, AnyHead(m, c.ai, |c.span|), c.span + rest);
    FirstAt(input, pos, AnyHead(m, c.ai, |c.span|));
  }

  lemma {:induction false} ChunksTaken(o: Options, input: seq<byte>, pos: nat, text: bool, cs: seq<ChunkWire>,
                                       scratch: seq<byte>)
    requires ChunksFit(o, text, cs) && At(input, pos, CodedChunks(StringType(text), cs))
    ensures pos <= |input| && ReadChunks(o, input, pos, StringType(text), scratch)
            == String(scratch + Spans(cs), pos + |CodedChunks(StringType(text), cs)|)
    ensures TextFits(o, text, Spans(cs))
    decreases |cs|
  {
    hide ChunkFits, ChunkAt, AnyHead, WellFormed, At;
    var m := StringType(text);
    if cs == [] {
      FirstAt(input, pos, [BREAK]);
      BreakIsLast(o, input, pos, m);
      assert scratch + [] == scratch;
      NothingFits(o, text);
    } else {
      var rest := CodedChunks(m, cs[1..]);
      ChunkTaken(o, input, pos, text, cs[0], rest);
      var next := pos + |AnyHead(m, cs[0].ai, |cs[0].span|)| + |cs[0].span|;
      ChunksTaken(o, input, next, text, cs[1..], scratch + cs[0].span);
      assert scratch + cs[0].span + Spans(cs[1..]) == scratch + (cs[0].span + Spans(cs[1..]));
      FitsConcat(o, text, cs[0], Spans(cs[1..]));
    }
  }

  lemma BreakIsLast(o: Options, input: seq<byte>, pos: nat, m: major)
    requires pos < |input| && input[pos] == BREAK
    ensures ChunkAt(o, input, pos, m) == LastChunk
  {
  }

  lemma NothingFits(o: Options, text: bool)
    ensures TextFits(o, text, [])
  {
  }

  lemma FitsConcat(o: Options, text: bool, c: ChunkWire, rest: seq<byte>)
    requires ChunkFits(o, text, c) && TextFits(o, text, rest)
    ensures TextFits(o, text, c.span + rest)
  {
    hide WellFormed;
    if text && o.validateUtf8 {
      WellFormedConcat(c.span, rest);
    }
  }

  lemma {:induction false} ChunksFound(o: Options, input: seq<byte>, pos: nat, text: bool, scratch: seq<byte>)
    returns (cs: seq<ChunkWire>)
    requires pos <= |input| && ReadChunks(o, input, pos, StringType(text), scratch).String?
    ensures var r := ReadChunks(o, input, pos, StringType(text), scratch);
            && ChunksFit(o, text, cs) && At(input, pos, CodedChunks(StringType(text), cs))
            && r == String(scratch + Spans(cs), pos + |CodedChunks(StringType(text), cs)|)
    decreases |input| - pos
  {
    hide ChunkFits, ChunkAt, AnyHead, At;
    var m := StringType(text);
    var c := ChunkAt(o, input, pos, m);
    if c.LastChunk? {
      cs := [];
      LastIsBreak(o, input, pos, m);
      assert scratch + [] == scratch;
    } else {
      var first := ChunkFound(o, input, pos, text);
      var rest := ChunksFound(o, input, c.end, text, scratch + c.span);
      cs := [first] + rest;
      assert cs[1..] == rest;
      var head := AnyHead(m, first.ai, |first.span|);
      AtConcat(input, pos + |head|, first.span, CodedChunks(m, rest));
      AtConcat(input, pos, head, first.span + CodedChunks(m, rest));
      assert scratch + c.span + Spans(rest) == scratch + (c.span + Spans(rest));
    }
  }

  lemma LastIsBreak(o: Options, input: seq<byte>, pos: nat, m: major)
    requires ChunkAt(o, input, pos, m).LastChunk?
    ensures At(input, pos, [BREAK])
  {
  }

  lemma ChunkFound(o: Options, input: seq<byte>, pos: nat, text: bool) returns (c: ChunkWire)
    requires ChunkAt(o, input, pos, StringType(text)).Chunk?
    ensures var r := ChunkAt(o, input, pos, StringType(text));
            var head := AnyHead(StringType(text), c.ai, |c.span|);
            && ChunkFits(o, text, c) && c.span == r.span && At(input, pos, head) && At(input, pos + |head|, c.span)
            && r.end == pos + |head| + |c.span|
  {
    hide WellFormed, FirstBad, Pow256, FromBe, Be, HeadBytes;
    var h := ParseHead(input, pos);
    c := ChunkWire(h.ai, ChunkAt(o, input, pos, StringType(text)).span);
    HeadIs(input, pos);
  }

  /** A head that is no break, and not of indefinite length, is `AnyHead` of its fields. */
  lemma HeadIs(input: seq<byte>, pos: nat)
    requires var h := ParseHead(input, pos); h.length > 0 && !h.isBreak && !h.indefinite
    ensures var h := ParseHead(input, pos);
            && At(input, pos, AnyHead(h.mt, h.ai, h.value)) && h.length == |AnyHead(h.mt, h.ai, h.value)|
            && (h.reserved <==> 28 <= h.ai <= 30) && (h.reserved ==> h.value == 0)
            && (!h.reserved ==> HeadFits(h.ai, h.value))
  {
    hide Pow256, FromBe, Be;
    var h := ParseHead(input, pos);
    if h.reserved {
      InitialByteSplit(input[pos]);
      assert input[pos..pos + 1] == [input[pos]];
    } else {
      PlainHeadBytes(input, pos);
    }
  }

  /** A head of indefinite length. */
  lemma OpenIs(input: seq<byte>, pos: nat)
    requires ParseHead(input, pos).length > 0 && ParseHead(input, pos).indefinite
    ensures var h := ParseHead(input, pos);
            At(input, pos, AnyHead(h.mt, 31, 0)) && h.length == 1 == |AnyHead(h.mt, 31, 0)| && h.value == 0
              && pos < |input|
    ensures !ParseHead(input, pos).reserved && !ParseHead(input, pos).isBreak ==>
              BYTES <= ParseHead(input, pos).mt <= MAP
  {
    hide FromBe;
    InitialByteSplit(input[pos]);
    assert input[pos..pos + 1] == [input[pos]];
  }

  // ---- every encoding is read ----

  predicate Reads(r: ReadResult, t: Item, end: nat) {
    r.Read? && r.item == t && r.pos == end
  }

  lemma LenientHead(o: Options, input: seq<byte>, pos: nat)
    requires !o.requireDeterministic && pos < |input|
    requires var h := ParseHead(input, pos);
             h.length > 0 && !h.isBreak && !h.reserved && h.mt != TAG && !(h.mt == SIMPLE && h.ai == 24 && h.value < 32)
    ensures HeadError(o, ParseHead(input, pos), pos).None?
    ensures ItemHead(o, input, pos) == HeadAt(pos, ParseHead(input, pos), false)
  {
    hide ParseHead;
  }

  lemma ReadScalarWire(o: Options, input: seq<byte>, pos: nat, depth: nat, w: Wire)
    requires !o.requireDeterministic && Formed(o, w, o.maxDepth - depth) && Welcome(o, w) && At(input, pos, Coded(w))
    requires w.WInt? || w.WSimple?
    ensures Reads(ReadItem(o, input, pos, depth), Plain(TreeOf(w)), pos + |Coded(w)|)
  {
    hide HeadBytes, ReadSeq, ReadMap, Reject, ParseHead, ReadString, HeadFits;
    assert Coded(w) + [] == Coded(w);
    match w
    case WInt(neg, ai, arg) => HeadRead(input, pos, if neg then NINT else UINT, ai, arg, []);
    case WSimple(code) =>
      SimpleFits(code);
      HeadRead(input, pos, SIMPLE, ShortestAi(code), code, []);
  }

  lemma SimpleFits(code: nat)
    requires code < 256
    ensures HeadFits(ShortestAi(code), code) && AnyHead(SIMPLE, ShortestAi(code), code) == ShortHead(SIMPLE, code)
    ensures ShortestAi(code) <= 24 && (ShortestAi(code) == 24 <==> code >= 24)
  {
    Pow256Values();
  }

  lemma ReadFloatWire(o: Options, input: seq<byte>, pos: nat, depth: nat, ai: nat, raw: nat)
    requires !o.requireDeterministic && FloatFits(ai, raw) && At(input, pos, AnyHead(SIMPLE, ai, raw))
    ensures Reads(ReadItem(o, input, pos, depth), FloatTree(ai, raw), pos + |AnyHead(SIMPLE, ai, raw)|)
  {
    hide Widen, IsPreferred, ReadSeq, ReadMap, Reject, ParseHead, ReadString, AnyHead, Pow256;
    assert AnyHead(SIMPLE, ai, raw) + [] == AnyHead(SIMPLE, ai, raw);
    HeadRead(input, pos, SIMPLE, ai, raw, []);
  }

  lemma ReadStringWire(o: Options, input: seq<byte>, pos: nat, depth: nat, w: Wire)
    requires !o.requireDeterministic && Formed(o, w, o.maxDepth - depth) && At(input, pos, Coded(w))
    requires w.WString? || w.WChunks?
    ensures Reads(ReadItem(o, input, pos, depth), TreeOf(w), pos + |Coded(w)|)
  {
    hide AnyHead, ReadSeq, ReadMap, Reject, ParseHead, WellFormed, FirstBad, ReadChunks, CodedChunks, Spans, ChunksFit,
         HeadFits;
    var m := StringType(w.text);
    if w.WString? {
      HeadRead(input, pos, m, w.ai, |w.span|, w.span);
      SpanAt(input, pos + |AnyHead(m, w.ai, |w.span|)|, w.span);
      LenientHead(o, input, pos);
    } else {
      OpenRead(input, pos, m, CodedChunks(m, w.chunks));
      ChunksTaken(o, input, pos + 1, w.text, w.chunks, []);
      assert [] + Spans(w.chunks) == Spans(w.chunks);
      LenientHead(o, input, pos);
    }
  }

  lemma ReadTagWire(o: Options, input: seq<byte>, pos: nat, depth: nat, ai: nat, tag: nat, content: Wire, t: Item)
    requires HeadFits(ai, tag) && o.ignoreUnknownTags && At(input, pos, AnyHead(TAG, ai, tag) + Coded(content))
    requires var next := pos + |AnyHead(TAG, ai, tag)|;
             next <= |input| && Reads(ReadItem(o, input, next, depth), t, next + |Coded(content)|)
    ensures Reads(ReadItem(o, input, pos, depth), t, pos + |AnyHead(TAG, ai, tag) + Coded(content)|)
  {
    hide Coded, AnyHead, ReadAt, Reject, ParseHead, PeekKind, HeadFits;
    HeadRead(input, pos, TAG, ai, tag, Coded(content));
    var next := pos + |AnyHead(TAG, ai, tag)|;
    var inner := ItemHead(o, input, next);
    assert inner.HeadAt?;
    LooseAdds(o, input, inner.at, depth, inner.loose);
    LooseAdds(o, input, inner.at, depth, ItemHead(o, input, pos).loose);
  }

  function Remaining(form: Form, n: nat): Option<nat> {
    if form.Counted? then Some(n) else None
  }

  lemma ReadContainerWire(o: Options, input: seq<byte>, pos: nat, depth: nat, m: major, form: Form, n: nat,
                          body: seq<byte>)
    requires !o.requireDeterministic && (m == ARRAY || m == MAP) && FormFits(form, n) && depth < o.maxDepth
    requires At(input, pos, FormHead(m, form, n) + body)
    ensures var next := pos + |FormHead(m, form, n)|;
            At(input, next, body) && next <= |input|
    ensures var next := pos + |FormHead(m, form, n)|;
            m == ARRAY ==> var r := ReadSeq(o, input, next, depth + 1, Remaining(form, n));
            ReadItem(o, input, pos, depth) == if r.NotReadItems? then NotRead(r.error)
              else Read(Array(r.items), r.pos, r.loose)
    ensures var next := pos + |FormHead(m, form, n)|;
            m == MAP ==> var r := ReadMap(o, input, next, depth + 1, Remaining(form, n), None);
            ReadItem(o, input, pos, depth) == if r.NotReadEntries? then NotRead(r.error)
              else Read(Map(r.entries), r.pos, r.loose)
  {
    hide ReadSeq, ReadMap, ReadScalar, ParseHead, FormHead, Reject, FormFits;
    FormRead(input, pos, m, form, n, body);
    LenientHead(o, input, pos);
  }

  /** Every well-formed encoding the policies welcome is read as its item, up to its end. */
  lemma {:induction false} ReadWire(o: Options, input: seq<byte>, pos: nat, depth: nat, w: Wire)
    requires !o.requireDeterministic && Formed(o, w, o.maxDepth - depth) && Welcome(o, w) && At(input, pos, Coded(w))
    ensures Reads(ReadItem(o, input, pos, depth), Plain(TreeOf(w)), pos + |Coded(w)|)
    decreases w, 2
  {
    hide ReadItem, ReadSeq, ReadMap, ParseHead, AnyHead, FormHead, At, HeadFits, FormFits, FloatFits, Pow256;
    match w
    case WArray(form, items) =>
      var next := pos + |FormHead(ARRAY, form, items.Length())|;
      ReadContainerWire(o, input, pos, depth, ARRAY, form, items.Length(), CodedItems(items) + FormEnd(form));
      ReadItemsWire(o, input, next, depth + 1, form, items);
    case WMap(form, entries) =>
      var next := pos + |FormHead(MAP, form, entries.Length())|;
      ReadContainerWire(o, input, pos, depth, MAP, form, entries.Length(), CodedEntries(entries) + FormEnd(form));
      ReadEntriesWire(o, input, next, depth + 1, form, entries);
    case WTag(ai, tag, content) =>
      HeadRead(input, pos, TAG, ai, tag, Coded(content));
      SpanAt(input, pos + |AnyHead(TAG, ai, tag)|, Coded(content));
      ReadWire(o, input, pos + |AnyHead(TAG, ai, tag)|, depth, content);
      ReadTagWire(o, input, pos, depth, ai, tag, content, Plain(TreeOf(content)));
    case WFloat(ai, raw) => ReadFloatWire(o, input, pos, depth, ai, raw);
    case WString(_, _, _) => ReadStringWire(o, input, pos, depth, w);
    case WChunks(_, _) => ReadStringWire(o, input, pos, depth, w);
    case _ => ReadScalarWire(o, input, pos, depth, w);
  }

  lemma EndRead(o: Options, input: seq<byte>, pos: nat, depth: nat, form: Form)
    requires At(input, pos, FormEnd(form))
    ensures pos <= |input| && CursorNext(input, pos, Remaining(form, 0)) == CursorEnd(pos + |FormEnd(form)|)
  {
    if form.Open? {
      FirstAt(input, pos, [BREAK]);
    }
  }

  lemma NextRead(input: seq<byte>, pos: nat, form: Form, n: nat)
    requires pos < |input| && input[pos] != BREAK && n > 0
    ensures CursorNext(input, pos, Remaining(form, n)) == CursorItem(Remaining(form, n - 1))
  {
  }

  lemma SeqEnds(o: Options, input: seq<byte>, pos: nat, depth: nat, remaining: Option<nat>)
    requires pos <= |input| && CursorNext(input, pos, remaining).CursorEnd?
    ensures ReadSeq(o, input, pos, depth, remaining)
            == ReadItems(NoItems, CursorNext(input, pos, remaining).pos, false)
  {
  }

  lemma SeqGoesOn(o: Options, input: seq<byte>, pos: nat, depth: nat, remaining: Option<nat>)
    requires pos <= |input| && CursorNext(input, pos, remaining).CursorItem? && ReadItem(o, input, pos, depth).Read?
    ensures var t := ReadItem(o, input, pos, depth);
            var rest := ReadSeq(o, input, t.pos, depth, CursorNext(input, pos, remaining).remaining);
            ReadSeq(o, input, pos, depth, remaining)
              == if rest.NotReadItems? then rest
                 else ReadItems(Items(t.item, rest.items), rest.pos, t.loose || rest.loose)
  {
    hide ReadItem, CursorNext;
  }

  lemma MapEnds(o: Options, input: seq<byte>, pos: nat, depth: nat, remaining: Option<nat>)
    requires pos <= |input| && CursorNext(input, pos, remaining).CursorEnd?
    ensures ReadMap(o, input, pos, depth, remaining, None)
            == ReadEntries(NoEntries, CursorNext(input, pos, remaining).pos, false)
  {
  }

  lemma MapGoesOn(o: Options, input: seq<byte>, pos: nat, depth: nat, remaining: Option<nat>)
    requires !o.requireDeterministic && pos <= |input| && CursorNext(input, pos, remaining).CursorItem?
    requires ReadItem(o, input, pos, depth).Read?
    requires ReadItem(o, input, ReadItem(o, input, pos, depth).pos, depth).Read?
    ensures var k := ReadItem(o, input, pos, depth);
            var v := ReadItem(o, input, k.pos, depth);
            var rest := ReadMap(o, input, v.pos, depth, CursorNext(input, pos, remaining).remaining, None);
            ReadMap(o, input, pos, depth, remaining, None)
              == if rest.NotReadEntries? then rest
                 else ReadEntries(Entries(k.item, v.item, rest.entries), rest.pos, k.loose || v.loose || rest.loose)
  {
    hide ReadItem, CursorNext;
  }

  lemma {:induction false} ReadItemsWire(o: Options, input: seq<byte>, pos: nat, depth: nat, form: Form, s: WireItems)
    requires !o.requireDeterministic && FormedItems(o, s, o.maxDepth - depth) && WelcomeItems(o, s)
    requires At(input, pos, CodedItems(s) + FormEnd(form))
    ensures pos <= |input|
    ensures var r := ReadSeq(o, input, pos, depth, Remaining(form, s.Length()));
            r.ReadItems? && r.items == PlainItems(WireTrees(s)) && r.pos == pos + |CodedItems(s) + FormEnd(form)|
    decreases s, 0
  {
    hide ReadItem, ReadSeq, Coded, Formed, Plain, TreeOf, Welcome, CursorNext, FormEnd;
    if s.Wires? {
      var rest := CodedItems(s.tail) + FormEnd(form);
      assert CodedItems(s) + FormEnd(form) == Coded(s.head) + rest;
      NotBreakAt(o, input, pos, s.head, o.maxDepth - depth, rest);
      ReadWire(o, input, pos, depth, s.head);
      NextRead(input, pos, form, s.Length());
      ReadItemsWire(o, input, pos + |Coded(s.head)|, depth, form, s.tail);
      SeqGoesOn(o, input, pos, depth, Remaining(form, s.Length()));
    } else {
      assert CodedItems(s) + FormEnd(form) == FormEnd(form);
      EndRead(o, input, pos, depth, form);
      SeqEnds(o, input, pos, depth, Remaining(form, 0));
    }
  }

  lemma {:induction false} ReadEntriesWire(o: Options, input: seq<byte>, pos: nat, depth: nat, form: Form,
                                           s: WireEntries)
    requires !o.requireDeterministic && FormedEntries(o, s, o.maxDepth - depth) && WelcomeEntries(o, s)
    requires At(input, pos, CodedEntries(s) + FormEnd(form))
    ensures pos <= |input|
    ensures var r := ReadMap(o, input, pos, depth, Remaining(form, s.Length()), None);
            r.ReadEntries? && r.entries == PlainEntries(PairTrees(s))
              && r.pos == pos + |CodedEntries(s) + FormEnd(form)|
    decreases s, 0
  {
    hide ReadItem, ReadMap, Coded, Formed, Plain, TreeOf, Welcome, CursorNext, FormEnd;
    if s.Pairs? {
      var rest := CodedEntries(s.rest) + FormEnd(form);
      assert CodedEntries(s) + FormEnd(form) == Coded(s.key) + (Coded(s.val) + rest);
      NotBreakAt(o, input, pos, s.key, o.maxDepth - depth, Coded(s.val) + rest);
      ReadWire(o, input, pos, depth, s.key);
      var p := pos + |Coded(s.key)|;
      NotBreakAt(o, input, p, s.val, o.maxDepth - depth, rest);
      ReadWire(o, input, p, depth, s.val);
      NextRead(input, pos, form, s.Length());
      ReadEntriesWire(o, input, p + |Coded(s.val)|, depth, form, s.rest);
      MapGoesOn(o, input, pos, depth, Remaining(form, s.Length()));
    } else {
      assert CodedEntries(s) + FormEnd(form) == FormEnd(form);
      EndRead(o, input, pos, depth, form);
      MapEnds(o, input, pos, depth, Remaining(form, 0));
    }
  }

  // ---- what is read is an encoding ----

  /** `w` is a well-formed encoding at `pos..end`, inside `depth` containers. */
  ghost predicate WireAt(o: Options, input: seq<byte>, pos: nat, depth: nat, w: Wire, end: nat) {
    Formed(o, w, o.maxDepth - depth) && At(input, pos, Coded(w)) && end == pos + |Coded(w)|
  }

  ghost predicate ItemsAt(o: Options, input: seq<byte>, pos: nat, depth: nat, form: Form, s: WireItems, end: nat) {
    FormedItems(o, s, o.maxDepth - depth) && At(input, pos, CodedItems(s) + FormEnd(form))
      && end == pos + |CodedItems(s) + FormEnd(form)|
  }

  ghost predicate EntriesAt(o: Options, input: seq<byte>, pos: nat, depth: nat, form: Form, s: WireEntries, end: nat) {
    FormedEntries(o, s, o.maxDepth - depth) && At(input, pos, CodedEntries(s) + FormEnd(form))
      && end == pos + |CodedEntries(s) + FormEnd(form)|
  }

  lemma SimpleFound(o: Options, input: seq<byte>, at: nat, depth: nat) returns (w: Wire)
    requires !o.requireDeterministic && at < |input| && ItemHead(o, input, at).HeadAt?
    requires var h := ParseHead(input, at); h.mt == UINT || h.mt == NINT || h.mt == SIMPLE
    requires HeadError(o, ParseHead(input, at), at).None? && ReadAt(o, input, at, depth, false).Read?
    requires ItemHead(o, input, at).at == at
    ensures var r := ReadAt(o, input, at, depth, false);
            WireAt(o, input, at, depth, w, r.pos) && Welcome(o, w) && r.item == Plain(TreeOf(w))
  {
    hide HeadBytes, ReadSeq, ReadMap, Reject, Widen, IsPreferred, ReadString, WellFormed, Pow256, FromBe, Be, Reject;
    var h := ParseHead(input, at);
    NoOpenScalar(input, at);
    HeadIs(input, at);
    if h.mt != SIMPLE {
      w := WInt(h.mt == NINT, h.ai, h.value);
    } else if h.ai >= 25 {
      w := WFloat(h.ai, h.value);
    } else {
      w := WSimple(h.value);
      SmallSimple(h.ai, h.value);
    }
  }

  /** Integers, simple values and floats have no indefinite length. */
  lemma NoOpenScalar(input: seq<byte>, at: nat)
    requires var h := ParseHead(input, at);
             h.length > 0 && !h.isBreak && !h.reserved && (h.mt == UINT || h.mt == NINT || h.mt == SIMPLE)
    ensures !ParseHead(input, at).indefinite
  {
  }

  lemma SmallSimple(ai: nat, v: nat)
    requires HeadFits(ai, v) && ai < 25 && (ai == 24 ==> v >= 32)
    ensures AnyHead(SIMPLE, ai, v) == ShortHead(SIMPLE, v) && (v < 24 || 32 <= v < 256)
  {
    Pow256Values();
  }

  /** What the reader makes of the head of a string. */
  lemma StringIs(o: Options, input: seq<byte>, at: nat, depth: nat)
    requires !o.requireDeterministic && at < |input|
    requires ParseHead(input, at).mt == BYTES || ParseHead(input, at).mt == TEXT
    requires HeadError(o, ParseHead(input, at), at).None? && ReadAt(o, input, at, depth, false).Read?
    ensures var h, r := ParseHead(input, at), ReadAt(o, input, at, depth, false);
            var s := ReadString(o, input, at, h);
            && s.String? && r.item == StringItem(h.mt == TEXT, s.bytes) && r.pos == s.end
            && TextFits(o, h.mt == TEXT, s.bytes)
  {
    hide ParseHead, WellFormed, FirstBad, ReadString, ReadSeq, ReadMap;
  }

  lemma ChunkedFound(o: Options, input: seq<byte>, at: nat, depth: nat) returns (w: Wire)
    requires !o.requireDeterministic && at < |input| && ParseHead(input, at).indefinite
    requires ParseHead(input, at).mt == BYTES || ParseHead(input, at).mt == TEXT
    requires ParseHead(input, at).length > 0 && ReadString(o, input, at, ParseHead(input, at)).String?
    ensures var r := ReadString(o, input, at, ParseHead(input, at));
            WireAt(o, input, at, depth, w, r.end) && w.WChunks? && w.text == (ParseHead(input, at).mt == TEXT)
            && Spans(w.chunks) == r.bytes
  {
    hide AnyHead, ParseHead, ReadChunks, CodedChunks, ChunksFit, Spans, At;
    var h := ParseHead(input, at);
    OpenIs(input, at);
    var cs := ChunksFound(o, input, at + 1, h.mt == TEXT, []);
    w := WChunks(h.mt == TEXT, cs);
    assert [] + Spans(cs) == Spans(cs);
    AtConcat(input, at, AnyHead(h.mt, 31, 0), CodedChunks(h.mt, cs));
  }

  lemma SpanFound(o: Options, input: seq<byte>, at: nat, depth: nat) returns (w: Wire)
    requires at < |input| && !ParseHead(input, at).indefinite && HeadError(o, ParseHead(input, at), at).None?
    requires ParseHead(input, at).mt == BYTES || ParseHead(input, at).mt == TEXT
    requires var r := ReadString(o, input, at, ParseHead(input, at));
             r.String? && TextFits(o, ParseHead(input, at).mt == TEXT, r.bytes)
    ensures var r := ReadString(o, input, at, ParseHead(input, at));
            WireAt(o, input, at, depth, w, r.end) && w.WString? && w.text == (ParseHead(input, at).mt == TEXT)
            && w.span == r.bytes
  {
    hide AnyHead, ParseHead, HeadFits, WellFormed;
    var h := ParseHead(input, at);
    HeadIs(input, at);
    var span := input[at + h.length..at + h.length + h.value];
    w := WString(h.mt == TEXT, h.ai, span);
    AtConcat(input, at, AnyHead(h.mt, h.ai, h.value), span);
  }

  lemma StringFound(o: Options, input: seq<byte>, at: nat, depth: nat) returns (w: Wire)
    requires !o.requireDeterministic && at < |input|
    requires ParseHead(input, at).mt == BYTES || ParseHead(input, at).mt == TEXT
    requires HeadError(o, ParseHead(input, at), at).None? && ReadAt(o, input, at, depth, false).Read?
    ensures var r := ReadAt(o, input, at, depth, false);
            WireAt(o, input, at, depth, w, r.pos) && Welcome(o, w) && r.item == Plain(TreeOf(w))
  {
    hide ParseHead, ReadAt, ReadString, WireAt, Spans, WellFormed;
    StringIs(o, input, at, depth);
    if ParseHead(input, at).indefinite {
      w := ChunkedFound(o, input, at, depth);
    } else {
      w := SpanFound(o, input, at, depth);
    }
  }

  lemma TagFound(o: Options, input: seq<byte>, pos: nat, depth: nat, inner: Wire) returns (w: Wire)
    requires !o.requireDeterministic && pos <= |input| && ParseHead(input, pos).mt == TAG
    requires ReadItem(o, input, pos, depth).Read?
    requires var next := pos + ParseHead(input, pos).length;
             var r := ReadItem(o, input, next, depth);
             r.Read? ==>
               WireAt(o, input, next, depth, inner, r.pos) && Welcome(o, inner) && r.item == Plain(TreeOf(inner))
    ensures var r := ReadItem(o, input, pos, depth);
            WireAt(o, input, pos, depth, w, r.pos) && Welcome(o, w) && r.item == Plain(TreeOf(w))
  {
    hide ReadAt, Reject, ParseHead, PeekKind, AnyHead, Coded, Formed, Welcome, TreeOf, Plain;
    var h := ParseHead(input, pos);
    HeadChecked(o, input, pos, depth);
    HeadIs(input, pos);
    w := WTag(h.ai, h.value, inner);
    var next := pos + h.length;
    var head := ItemHead(o, input, next);
    LooseAdds(o, input, head.at, depth, head.loose);
    LooseAdds(o, input, head.at, depth, ItemHead(o, input, pos).loose);
    AtConcat(input, pos, AnyHead(TAG, h.ai, h.value), Coded(inner));
    TagParts(o, w, o.maxDepth - depth);
  }

  lemma TagParts(o: Options, w: Wire, room: int)
    requires w.WTag?
    ensures Formed(o, w, room) <==> HeadFits(w.ai, w.tag) && Formed(o, w.content, room)
    ensures Coded(w) == AnyHead(TAG, w.ai, w.tag) + Coded(w.content)
    ensures Welcome(o, w) <==> o.ignoreUnknownTags && Welcome(o, w.content)
    ensures Plain(TreeOf(w)) == Plain(TreeOf(w.content))
  {
  }

  lemma HeadChecked(o: Options, input: seq<byte>, pos: nat, depth: nat)
    requires pos <= |input| && ReadItem(o, input, pos, depth).Read?
    ensures var h := ParseHead(input, pos);
            && h.length > 0 && !h.isBreak && !h.reserved && ItemHead(o, input, pos).HeadAt?
            && (h.mt == TAG ==> o.ignoreUnknownTags && !h.indefinite && ItemHead(o, input, pos + h.length).HeadAt?
                                && ItemHead(o, input, pos + h.length).at == ItemHead(o, input, pos).at)
            && (h.mt != TAG ==> ItemHead(o, input, pos) == HeadAt(pos, h, false))
  {
    hide ReadAt, Reject;
  }

  /** Every item that is read has a well-formed encoding of it there. */
  lemma {:induction false} WireFound(o: Options, input: seq<byte>, pos: nat, depth: nat) returns (w: Wire)
    requires !o.requireDeterministic && pos <= |input| && ReadItem(o, input, pos, depth).Read?
    ensures var r := ReadItem(o, input, pos, depth);
            WireAt(o, input, pos, depth, w, r.pos) && Welcome(o, w) && r.item == Plain(TreeOf(w))
    decreases |input| - pos, 1
  {
    hide ReadAt, WireAt, Welcome, TreeOf, Plain, Reject, ParseHead;
    HeadChecked(o, input, pos, depth);
    var h := ParseHead(input, pos);
    if h.mt == TAG {
      var next := pos + h.length;
      var inner: Wire := WSimple(0);
      if ReadItem(o, input, next, depth).Read? {
        inner := WireFound(o, input, next, depth);
      }
      w := TagFound(o, input, pos, depth, inner);
    } else {
      w := WireFoundAt(o, input, pos, depth);
    }
  }

  lemma {:induction false} WireFoundAt(o: Options, input: seq<byte>, at: nat, depth: nat) returns (w: Wire)
    requires !o.requireDeterministic && at < |input|
    requires ItemHead(o, input, at) == HeadAt(at, ParseHead(input, at), false)
    requires HeadError(o, ParseHead(input, at), at).None? && ReadAt(o, input, at, depth, false).Read?
    ensures var r := ReadAt(o, input, at, depth, false);
            WireAt(o, input, at, depth, w, r.pos) && Welcome(o, w) && r.item == Plain(TreeOf(w))
    decreases |input| - at, 0
  {
    hide ReadSeq, ReadMap, ReadScalar, Reject, ItemHead, AnyHead, FormHead, FormEnd, ParseHead, HeadFits,
         CodedItems, CodedEntries, FormedItems, FormedEntries, WelcomeItems, WelcomeEntries, WireTrees, PairTrees, At;
    var h := ParseHead(input, at);
    if h.mt == ARRAY || h.mt == MAP {
      var form := FormFound(input, at);
      var next, n := at + h.length, if h.indefinite then None else Some(h.value);
      if h.mt == ARRAY {
        var items := ItemsFound(o, input, next, depth + 1, n, form);
        w := WArray(form, items);
        AtConcat(input, at, FormHead(ARRAY, form, items.Length()), CodedItems(items) + FormEnd(form));
      } else {
        var entries := EntriesFound(o, input, next, depth + 1, n, form);
        w := WMap(form, entries);
        AtConcat(input, at, FormHead(MAP, form, entries.Length()), CodedEntries(entries) + FormEnd(form));
      }
    } else if h.mt == BYTES || h.mt == TEXT {
      w := StringFound(o, input, at, depth);
    } else {
      w := SimpleFound(o, input, at, depth);
    }
  }

  lemma FormFound(input: seq<byte>, at: nat) returns (form: Form)
    requires var h := ParseHead(input, at); h.length > 0 && !h.isBreak && !h.reserved && (h.mt == ARRAY || h.mt == MAP)
    ensures var h := ParseHead(input, at);
            && At(input, at, FormHead(h.mt, form, h.value)) && h.length == |FormHead(h.mt, form, h.value)|
            && form.Open? == h.indefinite && FormFits(form, h.value)
    ensures form.Open? ==>
              forall n :: FormHead(ParseHead(input, at).mt, form, n) == FormHead(ParseHead(input, at).mt, form, 0)
    ensures ParseHead(input, at).indefinite ==> ParseHead(input, at).value == 0
  {
    hide ParseHead, AnyHead, HeadFits;
    if ParseHead(input, at).indefinite {
      OpenIs(input, at);
      form := Open;
    } else {
      HeadIs(input, at);
      form := Counted(ParseHead(input, at).ai);
    }
  }

  lemma EndFound(input: seq<byte>, pos: nat, remaining: Option<nat>, form: Form)
    requires pos <= |input| && CursorNext(input, pos, remaining).CursorEnd? && remaining.None? == form.Open?
    ensures At(input, pos, FormEnd(form)) && CursorNext(input, pos, remaining).pos == pos + |FormEnd(form)|
    ensures remaining.Some? ==> remaining.value == 0
  {
  }

  lemma ItemsJoin(o: Options, input: seq<byte>, pos: nat, depth: nat, form: Form, head: Wire, p: nat, tail: WireItems,
                  end: nat)
    requires WireAt(o, input, pos, depth, head, p) && ItemsAt(o, input, p, depth, form, tail, end)
    ensures ItemsAt(o, input, pos, depth, form, Wires(head, tail), end)
  {
    hide Coded, Formed, FormEnd, At;
    AtConcat(input, pos, Coded(head), CodedItems(tail) + FormEnd(form));
    assert CodedItems(Wires(head, tail)) + FormEnd(form) == Coded(head) + (CodedItems(tail) + FormEnd(form));
  }

  lemma EntriesJoin(o: Options, input: seq<byte>, pos: nat, depth: nat, form: Form, key: Wire, p: nat, val: Wire,
                    q: nat, rest: WireEntries, end: nat)
    requires WireAt(o, input, pos, depth, key, p) && WireAt(o, input, p, depth, val, q)
             && EntriesAt(o, input, q, depth, form, rest, end)
    ensures EntriesAt(o, input, pos, depth, form, Pairs(key, val, rest), end)
  {
    hide Coded, Formed, FormEnd, At;
    AtConcat(input, p, Coded(val), CodedEntries(rest) + FormEnd(form));
    AtConcat(input, pos, Coded(key), Coded(val) + (CodedEntries(rest) + FormEnd(form)));
    assert CodedEntries(Pairs(key, val, rest)) + FormEnd(form)
        == Coded(key) + (Coded(val) + (CodedEntries(rest) + FormEnd(form)));
  }

  lemma {:induction false} ItemsFound(o: Options, input: seq<byte>, pos: nat, depth: nat, remaining: Option<nat>,
                                      form: Form) returns (s: WireItems)
    requires !o.requireDeterministic && pos <= |input| && ReadSeq(o, input, pos, depth, remaining).ReadItems?
    requires remaining.None? == form.Open?
    ensures var r := ReadSeq(o, input, pos, depth, remaining);
            ItemsAt(o, input, pos, depth, form, s, r.pos) && WelcomeItems(o, s) && r.items == PlainItems(WireTrees(s))
    ensures remaining.Some? ==> s.Length() == remaining.value
    decreases |input| - pos, 2
  {
    hide ReadItem, Coded, Formed, Welcome, TreeOf, Plain, CursorNext, FormEnd, WireAt;
    var next := CursorNext(input, pos, remaining);
    if next.CursorEnd? {
      EndFound(input, pos, remaining, form);
      s := NoWires;
      assert [] + FormEnd(form) == FormEnd(form);
    } else {
      Counting(input, pos, remaining);
      var head := WireFound(o, input, pos, depth);
      var p := ReadItem(o, input, pos, depth).pos;
      var tail := ItemsFound(o, input, p, depth, next.remaining, form);
      s := Wires(head, tail);
      ItemsJoin(o, input, pos, depth, form, head, p, tail, ReadSeq(o, input, p, depth, next.remaining).pos);
    }
  }

  lemma Counting(input: seq<byte>, pos: nat, remaining: Option<nat>)
    requires pos <= |input| && CursorNext(input, pos, remaining).CursorItem?
    ensures CursorNext(input, pos, remaining).remaining
            == if remaining.Some? then Some(remaining.value - 1) else None
    ensures remaining.Some? ==> remaining.value > 0
  {
  }

  lemma {:induction false} EntriesFound(o: Options, input: seq<byte>, pos: nat, depth: nat, remaining: Option<nat>,
                                        form: Form) returns (s: WireEntries)
    requires !o.requireDeterministic && pos <= |input| && ReadMap(o, input, pos, depth, remaining, None).ReadEntries?
    requires remaining.None? == form.Open?
    ensures var r := ReadMap(o, input, pos, depth, remaining, None);
            EntriesAt(o, input, pos, depth, form, s, r.pos) && WelcomeEntries(o, s)
              && r.entries == PlainEntries(PairTrees(s))
    ensures remaining.Some? ==> s.Length() == remaining.value
    decreases |input| - pos, 2
  {
    hide ReadItem, Coded, Formed, Welcome, TreeOf, Plain, CursorNext, FormEnd, WireAt;
    var next := CursorNext(input, pos, remaining);
    if next.CursorEnd? {
      EndFound(input, pos, remaining, form);
      s := NoPairs;
      assert [] + FormEnd(form) == FormEnd(form);
    } else {
      Counting(input, pos, remaining);
      var key := WireFound(o, input, pos, depth);
      var p := ReadItem(o, input, pos, depth).pos;
      var val := WireFound(o, input, p, depth);
      var q := ReadItem(o, input, p, depth).pos;
      var rest := EntriesFound(o, input, q, depth, next.remaining, form);
      s := Pairs(key, val, rest);
      EntriesJoin(o, input, pos, depth, form, key, p, val, q, rest,
                  ReadMap(o, input, q, depth, next.remaining, None).pos);
    }
  }
}
