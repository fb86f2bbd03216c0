/** In lenient mode typed decoding answers what the item means, whatever it is encoded as: the scalars. */
module MeaningRead {
  import opened Bytes
  import opened Head
  import opened Utf8
  import opened SkipSpec
  import opened ReadSpec
  import opened BuildSpec
  import opened Wires
  import opened WireRead
  import opened WireExact
  import opened Meanings

  // ---- the head of an item behind its tags ----

  /** The encoding without the tags in front, unless one of them is refused. */
  function CoreWire(o: Options, w: Wire): (r: Option<Wire>)
    ensures r.Some? ==> !r.value.WTag?
    ensures Core(o, TreeOf(w)) == if r.Some? then Some(TreeOf(r.value)) else None
  {
    if !w.WTag? then Some(w) else if o.ignoreUnknownTags then CoreWire(o, w.content) else None
  }

  /** What the head of an encoding says. */
  ghost predicate HeadSays(w: Wire, h: ParsedHead) {
    && h.mt == HeadType(w) && h.length > 0 && !h.isBreak && !h.reserved
    && (w.WInt? ==> h.value == w.arg && h.length == |Coded(w)|)
    && (w.WSimple? ==> h.ai == ShortestAi(w.code) && h.value == w.code && h.length == |Coded(w)|)
    && (w.WFloat? ==> 25 <= h.ai <= 27)
    && (w.WArray? ==> h.indefinite == w.form.Open? && (w.form.Counted? ==> h.value == w.items.Length()))
    && (w.WMap? ==> h.indefinite == w.form.Open? && (w.form.Counted? ==> h.value == w.entries.Length()))
  }

  lemma HeadHere(o: Options, input: seq<byte>, pos: nat, w: Wire, room: int)
    requires !o.requireDeterministic && Formed(o, w, room) && At(input, pos, Coded(w)) && !w.WTag?
    ensures pos < |input| && HeadSays(w, ParseHead(input, pos))
    ensures ItemHead(o, input, pos) == HeadAt(pos, ParseHead(input, pos), false)
    ensures HeadError(o, ParseHead(input, pos), pos).None?
  {
    hide ParseHead, AnyHead, FormHead, HeadFits, FormFits, Pow256, CodedItems, CodedEntries, CodedChunks, ItemHead,
         FormedItems, FormedEntries, HeadError, ChunksFit, WellFormed;
    WireHead(o, input, pos, w, room);
    LenientHead(o, input, pos);
  }

  /** `at` is where the encoding at `pos` starts behind its tags, if they are let pass. */
  ghost predicate CoreAt(o: Options, input: seq<byte>, pos: nat, w: Wire, room: int, at: nat) {
    var v := CoreWire(o, w);
    var h := ItemHead(o, input, pos);
    if v.None? then h.NoHead? && h.error.code.TagMismatch?
    else
      && Formed(o, v.value, room) && pos <= at < |input| && At(input, at, Coded(v.value))
      && at + |Coded(v.value)| == pos + |Coded(w)| && HeadSays(v.value, ParseHead(input, at))
      && HeadError(o, ParseHead(input, at), at).None? && h.HeadAt? && h.at == at
  }

  lemma TagPassed(o: Options, input: seq<byte>, pos: nat, ai: nat, tag: nat, content: Wire, room: int, at: nat)
    requires HeadFits(ai, tag) && At(input, pos, AnyHead(TAG, ai, tag) + Coded(content))
    requires o.ignoreUnknownTags ==> CoreAt(o, input, pos + |AnyHead(TAG, ai, tag)|, content, room, at)
    ensures CoreAt(o, input, pos, WTag(ai, tag, content), room, at) && pos < |input|
    ensures PeekKind(o, input, pos)
            == if o.ignoreUnknownTags then PeekKind(o, input, pos + |AnyHead(TAG, ai, tag)|) else KTag
  {
    hide ParseHead, AnyHead, HeadFits, HeadError, HeadSays, Formed;
    HeadRead(input, pos, TAG, ai, tag, Coded(content));
  }

  /** Behind the tags: the head and the kind of an encoding, or the refusal of a tag. */
  lemma {:induction false} HeadBehind(o: Options, input: seq<byte>, pos: nat, w: Wire, room: int) returns (at: nat)
    requires !o.requireDeterministic && Formed(o, w, room) && At(input, pos, Coded(w))
    ensures pos < |input| && PeekKind(o, input, pos) == KindOf(o, TreeOf(w)) && CoreAt(o, input, pos, w, room, at)
    decreases w
  {
    hide ParseHead, AnyHead, HeadFits, HeadError, HeadSays, PeekKind, ItemHead, CoreAt;
    at := pos;
    if w.WTag? {
      AtConcat(input, pos, AnyHead(TAG, w.ai, w.tag), Coded(w.content));
      if o.ignoreUnknownTags {
        at := HeadBehind(o, input, pos + |AnyHead(TAG, w.ai, w.tag)|, w.content, room);
      }
      TagPassed(o, input, pos, w.ai, w.tag, w.content, room, at);
    } else {
      HeadHere(o, input, pos, w, room);
      KindHere(o, input, pos, w, room);
      UntaggedCore(o, input, pos, w, room);
    }
  }

  lemma UntaggedCore(o: Options, input: seq<byte>, pos: nat, w: Wire, room: int)
    requires !w.WTag? && Formed(o, w, room) && At(input, pos, Coded(w)) && pos < |input|
    requires HeadSays(w, ParseHead(input, pos)) && HeadError(o, ParseHead(input, pos), pos).None?
    requires ItemHead(o, input, pos) == HeadAt(pos, ParseHead(input, pos), false)
    ensures CoreAt(o, input, pos, w, room, pos)
  {
    hide ParseHead, HeadError, HeadSays, Formed, Coded, ItemHead;
  }

  lemma KindHere(o: Options, input: seq<byte>, pos: nat, w: Wire, room: int)
    requires Formed(o, w, room) && !w.WTag? && HeadSays(w, ParseHead(input, pos))
    ensures PeekKind(o, input, pos) == KindOf(o, TreeOf(w))
  {
    hide ParseHead, AnyHead, HeadFits, FormFits, Pow256, CodedItems, CodedEntries, CodedChunks, FormedItems,
         FormedEntries, WireTrees, PairTrees;
  }

  // ---- scalars ----

  /** A typed call of the reader answers what is in the item. */
  predicate Tells<T(==)>(g: Got<T>, s: Seen<T>, end: nat) {
    if s.Not? then g.Missed? && g.error.code == s.code else g == Got(s.value, end)
  }

  lemma StringFormed(o: Options, w: Wire, room: int, other: int)
    requires Formed(o, w, room) && (w.WString? || w.WChunks?)
    ensures Formed(o, w, other)
  {
  }

  lemma StringTold(o: Options, input: seq<byte>, at: nat, w: Wire, room: int)
    requires !o.requireDeterministic && Formed(o, w, room) && At(input, at, Coded(w)) && at < |input|
    requires w.WString? || w.WChunks?
    requires HeadSays(w, ParseHead(input, at)) && HeadError(o, ParseHead(input, at), at).None?
    requires ItemHead(o, input, at) == HeadAt(at, ParseHead(input, at), false)
    ensures ReadScalar(o, input, at, false) == Read(TreeOf(w), at + |Coded(w)|, false)
  {
    hide ParseHead, HeadError, Coded, ItemHead, ReadScalar, Reject, WellFormed, ReadSeq, ReadMap, ChunksFit, Spans,
         Formed;
    StringFormed(o, w, room, o.maxDepth);
    ReadStringWire(o, input, at, 0, w);
  }

  lemma ItemHeadThere(o: Options, input: seq<byte>, pos: nat)
    requires ItemHead(o, input, pos).HeadAt?
    ensures var h := ItemHead(o, input, pos);
            ItemHead(o, input, h.at) == HeadAt(h.at, ParseHead(input, h.at), false)
  {
    hide ParseHead;
  }

  lemma TextTold(o: Options, input: seq<byte>, pos: nat, w: Wire, room: int)
    requires !o.requireDeterministic && Formed(o, w, room) && At(input, pos, Coded(w))
    ensures pos < |input| && Tells(ExpectText(o, input, pos), TextIn(o, TreeOf(w)), pos + |Coded(w)|)
  {
    hide ParseHead, HeadError, Coded, ItemHead, ReadScalar, Formed, PeekKind, WireTrees, PairTrees, At;
    var at := HeadBehind(o, input, pos, w, room);
    var v := CoreWire(o, w);
    if v.Some? && HeadType(v.value) == TEXT {
      ItemHeadThere(o, input, pos);
      StringTold(o, input, at, v.value, room);
    }
  }

  lemma BytesTold(o: Options, input: seq<byte>, pos: nat, w: Wire, room: int)
    requires !o.requireDeterministic && Formed(o, w, room) && At(input, pos, Coded(w))
    ensures pos < |input| && Tells(ExpectBytes(o, input, pos), BytesIn(o, TreeOf(w)), pos + |Coded(w)|)
  {
    hide ParseHead, HeadError, Coded, ItemHead, ReadScalar, Formed, PeekKind, WireTrees, PairTrees, At;
    var at := HeadBehind(o, input, pos, w, room);
    var v := CoreWire(o, w);
    if v.Some? && HeadType(v.value) == BYTES {
      ItemHeadThere(o, input, pos);
      StringTold(o, input, at, v.value, room);
    }
  }

  lemma IntsTold(o: Options, input: seq<byte>, pos: nat, w: Wire, room: int)
    requires !o.requireDeterministic && Formed(o, w, room) && At(input, pos, Coded(w))
    ensures pos < |input| && Tells(ExpectUInt(o, input, pos), UIntIn(o, TreeOf(w)), pos + |Coded(w)|)
    ensures Tells(ExpectSInt(o, input, pos), SIntIn(o, TreeOf(w)), pos + |Coded(w)|)
  {
    hide ParseHead, HeadError, Coded, ItemHead, Formed, PeekKind, WireTrees, PairTrees, At;
    var at := HeadBehind(o, input, pos, w, room);
  }

  lemma SimpleTold(o: Options, input: seq<byte>, pos: nat, w: Wire, room: int, a: nat, b: nat)
    requires !o.requireDeterministic && Formed(o, w, room) && At(input, pos, Coded(w)) && a < 24 && b < 24
    ensures pos < |input| && Tells(ExpectSimple(o, input, pos, a, b), SimpleIn(o, TreeOf(w), a, b), pos + |Coded(w)|)
  {
    hide ParseHead, HeadError, Coded, ItemHead, PeekKind, FormedItems, FormedEntries, ChunksFit, WellFormed,
         HeadFits, FormFits, WireTrees, PairTrees, At;
    var at := HeadBehind(o, input, pos, w, room);
  }

  lemma KindTold(o: Options, input: seq<byte>, pos: nat, w: Wire, room: int)
    requires !o.requireDeterministic && Formed(o, w, room) && At(input, pos, Coded(w))
    ensures pos < |input| && PeekKind(o, input, pos) == KindOf(o, TreeOf(w))
  {
    hide *;
    var at := HeadBehind(o, input, pos, w, room);
  }

  /** Where the contents of a container start, or why it is none. */
  lemma ContainerTold(o: Options, input: seq<byte>, pos: nat, depth: nat, w: Wire, m: major)
    requires !o.requireDeterministic && Formed(o, w, o.maxDepth - depth) && At(input, pos, Coded(w))
    requires m == ARRAY || m == MAP
    ensures pos < |input|
    ensures var r, x := OpenContainer(o, input, pos, depth, m), CoreWire(o, w);
            if x.None? then r.NotOpened? && r.error.code.TagMismatch?
            else if HeadType(x.value) != m then r.NotOpened? && r.error.code.TypeMismatch?
            else
              && r.Opened? && depth < o.maxDepth
              && (if m == ARRAY
                  then FormedItems(o, x.value.items, o.maxDepth - depth - 1)
                       && r.remaining == Remaining(x.value.form, x.value.items.Length())
                       && At(input, r.pos, CodedItems(x.value.items) + FormEnd(x.value.form))
                       && r.pos + |CodedItems(x.value.items) + FormEnd(x.value.form)| == pos + |Coded(w)|
                  else FormedEntries(o, x.value.entries, o.maxDepth - depth - 1)
                       && r.remaining == Remaining(x.value.form, x.value.entries.Length())
                       && At(input, r.pos, CodedEntries(x.value.entries) + FormEnd(x.value.form))
                       && r.pos + |CodedEntries(x.value.entries) + FormEnd(x.value.form)| == pos + |Coded(w)|)
  {
    hide ParseHead, HeadError, ItemHead, PeekKind, CodedItems, CodedEntries, FormEnd, FormHead, FormFits,
         FormedItems, FormedEntries, WellFormed, ChunksFit, At;
    var at := HeadBehind(o, input, pos, w, o.maxDepth - depth);
    var x := CoreWire(o, w);
    if x.Some? && HeadType(x.value) == m {
      BodyAt(o, input, at, x.value, o.maxDepth - depth);
    }
  }

  lemma BodyAt(o: Options, input: seq<byte>, pos: nat, w: Wire, room: int)
    requires Formed(o, w, room) && At(input, pos, Coded(w)) && (w.WArray? || w.WMap?)
    ensures var h := ParseHead(input, pos);
            var body := if w.WArray? then CodedItems(w.items) + FormEnd(w.form)
                        else CodedEntries(w.entries) + FormEnd(w.form);
            At(input, pos + h.length, body) && pos + h.length + |body| == pos + |Coded(w)|
  {
    hide ParseHead, CodedItems, CodedEntries, FormEnd, FormHead, FormFits, FormedItems, FormedEntries, At;
    if w.WArray? {
      FormRead(input, pos, ARRAY, w.form, w.items.Length(), CodedItems(w.items) + FormEnd(w.form));
    } else {
      FormRead(input, pos, MAP, w.form, w.entries.Length(), CodedEntries(w.entries) + FormEnd(w.form));
    }
  }
}
