/** Lenient acceptance, on both readers, is having a well-formed encoding there; and that encoding is unique. */
module WireExact {
  import opened Bytes
  import opened Head
  import opened Utf8
  import opened Item
  import opened SkipSpec
  import opened ReadSpec
  import opened Wires
  import opened WireRead
  import Agreement
  import Walks
  import EndToEnd

  // ---- one encoding at one place ----

  /** The head of an encoding and what stands behind it. */
  function HeadType(w: Wire): major {
    match w
    case WInt(neg, _, _) => if neg then NINT else UINT
    case WString(text, _, _) => StringType(text)
    case WChunks(text, _) => StringType(text)
    case WArray(_, _) => ARRAY
    case WMap(_, _) => MAP
    case WTag(_, _, _) => TAG
    case _ => SIMPLE
  }

  function HeadInfo(w: Wire): nat {
    match w
    case WInt(_, ai, _) => ai
    case WString(_, ai, _) => ai
    case WChunks(_, _) => 31
    case WArray(form, _) => if form.Counted? then form.ai else 31
    case WMap(form, _) => if form.Counted? then form.ai else 31
    case WTag(ai, _, _) => ai
    case WSimple(code) => ShortestAi(code)
    case WFloat(ai, _) => ai
  }

  function HeadArgument(w: Wire): nat {
    match w
    case WInt(_, _, arg) => arg
    case WString(_, _, span) => |span|
    case WChunks(_, _) => 0
    case WArray(form, items) => if form.Counted? then items.Length() else 0
    case WMap(form, entries) => if form.Counted? then entries.Length() else 0
    case WTag(_, tag, _) => tag
    case WSimple(code) => code
    case WFloat(_, raw) => raw
  }

  function BehindHead(w: Wire): seq<byte> {
    match w
    case WString(_, _, span) => span
    case WChunks(text, cs) => CodedChunks(StringType(text), cs)
    case WArray(form, items) => CodedItems(items) + FormEnd(form)
    case WMap(form, entries) => CodedEntries(entries) + FormEnd(form)
    case WTag(_, _, content) => Coded(content)
    case _ => []
  }

  lemma WireHead(o: Options, input: seq<byte>, pos: nat, w: Wire, room: int)
    requires Formed(o, w, room) && At(input, pos, Coded(w))
    ensures var h := ParseHead(input, pos);
            && h.length > 0 && h.mt == HeadType(w) && h.ai == HeadInfo(w) && h.value == HeadArgument(w)
            && h.indefinite == (w.WChunks? || (w.WArray? && w.form.Open?) || (w.WMap? && w.form.Open?))
            && At(input, pos + h.length, BehindHead(w)) && pos + h.length + |BehindHead(w)| == pos + |Coded(w)|
            && !h.isBreak && !h.reserved
  {
    hide AnyHead, FormHead, FormFits, HeadFits, ParseHead, CodedChunks, CodedItems, CodedEntries, FormEnd, ChunksFit,
         FormedItems, FormedEntries, WellFormed, ShortHead, ShortestAi, Pow256;
    match w
    case WChunks(text, cs) => OpenRead(input, pos, StringType(text), BehindHead(w));
    case WArray(form, items) => FormRead(input, pos, ARRAY, form, items.Length(), BehindHead(w));
    case WMap(form, entries) => FormRead(input, pos, MAP, form, entries.Length(), BehindHead(w));
    case WSimple(code) =>
      SimpleFits(code);
      assert Coded(w) + [] == Coded(w);
      HeadRead(input, pos, SIMPLE, ShortestAi(code), code, []);
    case WFloat(ai, raw) =>
      assert Coded(w) + [] == Coded(w);
      FloatHeadFits(ai, raw);
      HeadRead(input, pos, SIMPLE, ai, raw, []);
    case WInt(neg, ai, arg) =>
      assert Coded(w) + [] == Coded(w);
      HeadRead(input, pos, HeadType(w), ai, arg, []);
    case _ => HeadRead(input, pos, HeadType(w), HeadInfo(w), HeadArgument(w), BehindHead(w));
  }

  lemma FloatHeadFits(ai: nat, raw: nat)
    requires FloatFits(ai, raw)
    ensures HeadFits(ai, raw)
  {
  }

  /** Two heads in one place make the same kind of encoding. */
  lemma SameKind(o: Options, input: seq<byte>, pos: nat, a: Wire, b: Wire, ra: int, rb: int)
    requires Formed(o, a, ra) && Formed(o, b, rb) && At(input, pos, Coded(a)) && At(input, pos, Coded(b))
    ensures HeadType(a) == HeadType(b) && HeadInfo(a) == HeadInfo(b) && HeadArgument(a) == HeadArgument(b)
    ensures a.WInt? == b.WInt? && a.WString? == b.WString? && a.WChunks? == b.WChunks? && a.WArray? == b.WArray?
            && a.WMap? == b.WMap? && a.WTag? == b.WTag? && a.WSimple? == b.WSimple? && a.WFloat? == b.WFloat?
    ensures a.WInt? || a.WString? || a.WSimple? || a.WFloat? ==> a == b
    ensures a.WArray? ==> a.form == b.form
    ensures a.WMap? ==> a.form == b.form
    ensures a.WChunks? ==> a.text == b.text
    ensures a.WTag? ==> a.ai == b.ai && a.tag == b.tag
    ensures var p := pos + ParseHead(input, pos).length; At(input, p, BehindHead(a)) && At(input, p, BehindHead(b))
  {
    hide Coded, ParseHead, CodedChunks, CodedItems, CodedEntries, FormEnd, ChunksFit, FormedItems, FormedEntries,
         WellFormed, Pow256;
    WireHead(o, input, pos, a, ra);
    WireHead(o, input, pos, b, rb);
    if a.WString? && b.WString? {
      var p := pos + ParseHead(input, pos).length;
      SpanAt(input, p, a.span);
      SpanAt(input, p, b.span);
    }
  }

  lemma {:induction false} ChunksUnique(o: Options, input: seq<byte>, pos: nat, text: bool, a: seq<ChunkWire>,
                                        b: seq<ChunkWire>)
    requires ChunksFit(o, text, a) && ChunksFit(o, text, b)
    requires At(input, pos, CodedChunks(StringType(text), a)) && At(input, pos, CodedChunks(StringType(text), b))
    ensures a == b
    decreases |a|
  {
    hide ChunkFits, AnyHead, At;
    var m := StringType(text);
    if a == [] || b == [] {
      FirstAt(input, pos, CodedChunks(m, a));
      FirstAt(input, pos, CodedChunks(m, b));
      if a != [] {
        ChunkStarts(m, a[0].ai, |a[0].span|);
      }
      if b != [] {
        ChunkStarts(m, b[0].ai, |b[0].span|);
      }
    } else {
      ChunkHead(o, input, pos, text, a[0], CodedChunks(m, a[1..]));
      ChunkHead(o, input, pos, text, b[0], CodedChunks(m, b[1..]));
      var p := pos + ParseHead(input, pos).length;
      SpanAt(input, p, a[0].span);
      SpanAt(input, p, b[0].span);
      ChunksUnique(o, input, p + |a[0].span|, text, a[1..], b[1..]);
      assert a == [a[0]] + a[1..] && b == [b[0]] + b[1..];
    }
  }

  lemma ChunkStarts(m: major, ai: nat, v: nat)
    requires m == BYTES || m == TEXT
    ensures AnyHead(m, ai, v)[0] != BREAK
  {
  }

  lemma ChunkHead(o: Options, input: seq<byte>, pos: nat, text: bool, c: ChunkWire, rest: seq<byte>)
    requires ChunkFits(o, text, c) && At(input, pos, AnyHead(StringType(text), c.ai, |c.span|) + (c.span + rest))
    ensures var h := ParseHead(input, pos);
            h.ai == c.ai && h.value == |c.span| && At(input, pos + h.length, c.span)
              && At(input, pos + h.length + |c.span|, rest)
  {
    hide AnyHead, ParseHead, WellFormed, HeadFits;
    if HeadFits(c.ai, |c.span|) {
      HeadRead(input, pos, StringType(text), c.ai, |c.span|, c.span + rest);
    } else {
      ReservedRead(input, pos, StringType(text), c.ai, c.span + rest);
    }
    AtConcat(input, pos + ParseHead(input, pos).length, c.span, rest);
  }

  /** No two well-formed encodings stand at one place. */
  lemma {:induction false} WireUnique(o: Options, input: seq<byte>, pos: nat, a: Wire, b: Wire, ra: int, rb: int)
    requires Formed(o, a, ra) && Formed(o, b, rb) && At(input, pos, Coded(a)) && At(input, pos, Coded(b))
    ensures a == b
    decreases a, 1
  {
    hide Coded, ParseHead, At, CodedChunks, CodedItems, CodedEntries, HeadFits, FormFits;
    SameKind(o, input, pos, a, b, ra, rb);
    var p := pos + ParseHead(input, pos).length;
    match a
    case WChunks(text, cs) => ChunksUnique(o, input, p, text, cs, b.chunks);
    case WArray(form, items) => ItemsUnique(o, input, p, form, items, b.items, ra - 1, rb - 1);
    case WMap(form, entries) => EntriesUnique(o, input, p, form, entries, b.entries, ra - 1, rb - 1);
    case WTag(_, _, content) => WireUnique(o, input, p, content, b.content, ra, rb);
    case _ =>
  }

  /** Where an item stands, a container of indefinite length does not end. */
  lemma EndOrItem(o: Options, input: seq<byte>, pos: nat, form: Form, w: Wire, room: int, rest: seq<byte>)
    requires form.Open? && Formed(o, w, room) && At(input, pos, Coded(w) + rest)
    ensures !At(input, pos, FormEnd(form))
  {
    hide Coded, Formed;
    NotBreakAt(o, input, pos, w, room, rest);
    assert input[pos..pos + 1][0] == input[pos];
  }

  lemma {:induction false} ItemsUnique(o: Options, input: seq<byte>, pos: nat, form: Form, s: WireItems, t: WireItems,
                                       rs: int, rt: int)
    requires FormedItems(o, s, rs) && FormedItems(o, t, rt) && (form.Counted? ==> s.Length() == t.Length())
    requires At(input, pos, CodedItems(s) + FormEnd(form)) && At(input, pos, CodedItems(t) + FormEnd(form))
    ensures s == t
    decreases s, 0
  {
    hide Coded, Formed, FormEnd, At;
    ItemsParts(s, form);
    ItemsParts(t, form);
    if s.NoWires? || t.NoWires? {
      if s.Wires? {
        EndOrItem(o, input, pos, form, s.head, rs, CodedItems(s.tail) + FormEnd(form));
      }
      if t.Wires? {
        EndOrItem(o, input, pos, form, t.head, rt, CodedItems(t.tail) + FormEnd(form));
      }
    } else {
      AtConcat(input, pos, Coded(s.head), CodedItems(s.tail) + FormEnd(form));
      AtConcat(input, pos, Coded(t.head), CodedItems(t.tail) + FormEnd(form));
      WireUnique(o, input, pos, s.head, t.head, rs, rt);
      ItemsUnique(o, input, pos + |Coded(s.head)|, form, s.tail, t.tail, rs, rt);
    }
  }

  lemma ItemsParts(s: WireItems, form: Form)
    ensures CodedItems(s) + FormEnd(form)
            == if s.NoWires? then FormEnd(form) else Coded(s.head) + (CodedItems(s.tail) + FormEnd(form))
  {
    hide Coded, FormEnd;
  }

  lemma EntriesParts(s: WireEntries, form: Form)
    ensures CodedEntries(s) + FormEnd(form)
            == if s.NoPairs? then FormEnd(form)
               else Coded(s.key) + (Coded(s.val) + (CodedEntries(s.rest) + FormEnd(form)))
  {
    hide Coded, FormEnd;
  }

  lemma {:induction false} EntriesUnique(o: Options, input: seq<byte>, pos: nat, form: Form, s: WireEntries,
                                         t: WireEntries, rs: int, rt: int)
    requires FormedEntries(o, s, rs) && FormedEntries(o, t, rt) && (form.Counted? ==> s.Length() == t.Length())
    requires At(input, pos, CodedEntries(s) + FormEnd(form)) && At(input, pos, CodedEntries(t) + FormEnd(form))
    ensures s == t
    decreases s, 0
  {
    hide Coded, Formed, FormEnd, At;
    EntriesParts(s, form);
    EntriesParts(t, form);
    if s.NoPairs? || t.NoPairs? {
      if s.Pairs? {
        EndOrItem(o, input, pos, form, s.key, rs, Coded(s.val) + (CodedEntries(s.rest) + FormEnd(form)));
      }
      if t.Pairs? {
        EndOrItem(o, input, pos, form, t.key, rt, Coded(t.val) + (CodedEntries(t.rest) + FormEnd(form)));
      }
    } else {
      var p := pos + |Coded(s.key)|;
      AtConcat(input, pos, Coded(s.key), Coded(s.val) + (CodedEntries(s.rest) + FormEnd(form)));
      AtConcat(input, pos, Coded(t.key), Coded(t.val) + (CodedEntries(t.rest) + FormEnd(form)));
      WireUnique(o, input, pos, s.key, t.key, rs, rt);
      AtConcat(input, p, Coded(s.val), CodedEntries(s.rest) + FormEnd(form));
      AtConcat(input, p, Coded(t.val), CodedEntries(t.rest) + FormEnd(form));
      WireUnique(o, input, p, s.val, t.val, rs, rt);
      EntriesUnique(o, input, p + |Coded(s.val)|, form, s.rest, t.rest, rs, rt);
    }
  }

  // ---- the reader ----

  /** In lenient mode a generic value is read as `t` up to `end` if and only if a well-formed encoding the policies
      welcome stands there, of an item that is `t` without its tags and with null for undefined. */
  lemma LenientExact(o: Options, input: seq<byte>, pos: nat, depth: nat, t: Item, end: nat)
    requires !o.requireDeterministic && pos <= |input|
    ensures Reads(ReadItem(o, input, pos, depth), t, end)
            <==> exists w :: WireAt(o, input, pos, depth, w, end) && Welcome(o, w) && EndToEnd.Plain(TreeOf(w)) == t
    ensures forall w, w', e, e' ::
              WireAt(o, input, pos, depth, w, e) && WireAt(o, input, pos, depth, w', e') ==> w == w' && e == e'
  {
    hide ReadItem, Formed, Welcome, Coded, TreeOf, EndToEnd.Plain, At;
    if Reads(ReadItem(o, input, pos, depth), t, end) {
      var w := WireFound(o, input, pos, depth);
    }
    if w :| WireAt(o, input, pos, depth, w, end) && Welcome(o, w) && EndToEnd.Plain(TreeOf(w)) == t {
      ReadWire(o, input, pos, depth, w);
    }
    forall w, w', e, e' | WireAt(o, input, pos, depth, w, e) && WireAt(o, input, pos, depth, w', e')
      ensures w == w' && e == e'
    {
      WireUnique(o, input, pos, w, w', o.maxDepth - depth, o.maxDepth - depth);
    }
  }

  /** Two encodings of one item, wherever they stand, are read alike. */
  lemma SameTreeReadAlike(o: Options, input: seq<byte>, pos: nat, w: Wire, input': seq<byte>, pos': nat, w': Wire,
                          depth: nat)
    requires !o.requireDeterministic && Formed(o, w, o.maxDepth - depth) && Formed(o, w', o.maxDepth - depth)
    requires Welcome(o, w) && Welcome(o, w') && At(input, pos, Coded(w)) && At(input', pos', Coded(w'))
    requires TreeOf(w) == TreeOf(w')
    ensures pos <= |input| && pos' <= |input'|
    ensures var r, r' := ReadItem(o, input, pos, depth), ReadItem(o, input', pos', depth);
            && r.Read? && r'.Read? && r.item == r'.item
            && r.pos == pos + |Coded(w)| && r'.pos == pos' + |Coded(w')|
  {
    hide ReadItem, Formed, Welcome, Coded, TreeOf;
    ReadWire(o, input, pos, depth, w);
    ReadWire(o, input', pos', depth, w');
  }

  // ---- the validator ----

  function Open(o: Options): Options {
    o.(ignoreUnknownTags := true, undefinedAsNull := true)
  }

  lemma {:induction false} SkipIgnoresPolicies(o: Options, input: seq<byte>, pos: nat, depth: nat)
    requires pos <= |input|
    ensures SkipItem(o, input, pos, depth) == SkipItem(Open(o), input, pos, depth)
    decreases |input| - pos, 0
  {
    hide SkipLevel, ParseHead, WellFormed, ReadString;
    var h := ParseHead(input, pos);
    if HeadError(o, h, pos).None? {
      if h.mt == TAG {
        if pos + h.length <= |input| {
          SkipIgnoresPolicies(o, input, pos + h.length, depth);
        }
      } else if h.mt == ARRAY || h.mt == MAP {
        LevelIgnoresPolicies(o, input, pos + h.length, depth + 1, OpenLevel(h));
      } else {
        ScalarIgnoresPolicies(o, input, pos);
      }
    }
  }

  lemma ScalarIgnoresPolicies(o: Options, input: seq<byte>, pos: nat)
    requires var h := ParseHead(input, pos);
             h.length > 0 && !h.isBreak && !h.reserved && h.mt != ARRAY && h.mt != MAP && h.mt != TAG
    ensures SkipScalar(o, input, pos) == SkipScalar(Open(o), input, pos)
  {
    hide ParseHead, WellFormed, FirstBad, ReadChunks;
    if ParseHead(input, pos).indefinite {
      ChunksIgnorePolicies(o, input, pos + ParseHead(input, pos).length, ParseHead(input, pos).mt, []);
    }
  }

  lemma {:induction false} ChunksIgnorePolicies(o: Options, input: seq<byte>, pos: nat, mt: major, scratch: seq<byte>)
    requires pos <= |input|
    ensures ReadChunks(o, input, pos, mt, scratch) == ReadChunks(Open(o), input, pos, mt, scratch)
    decreases |input| - pos
  {
    hide ParseHead, WellFormed, FirstBad;
    var c := ChunkAt(o, input, pos, mt);
    if c.Chunk? {
      ChunksIgnorePolicies(o, input, c.end, mt, scratch + c.span);
    }
  }

  lemma {:induction false} LevelIgnoresPolicies(o: Options, input: seq<byte>, pos: nat, depth: nat, lv: Level)
    requires pos <= |input| && lv.Ok(pos)
    ensures SkipLevel(o, input, pos, depth, lv) == SkipLevel(Open(o), input, pos, depth, lv)
    decreases |input| - pos, 1
  {
    hide SkipItem, ParseHead;
    SkipIgnoresPolicies(o, input, pos, depth);
    var r := SkipItem(o, input, pos, depth);
    if r.Done? {
      StepIgnoresPolicies(o, input, pos, r.pos, lv);
      var step := AfterItem(o, input, r.pos, AtItem(o, lv, pos));
      if step.More? {
        LevelIgnoresPolicies(o, input, r.pos, depth, step.level);
      }
    }
  }

  lemma StepIgnoresPolicies(o: Options, input: seq<byte>, pos: nat, p: nat, lv: Level)
    requires pos <= p <= |input| && lv.Ok(pos)
    ensures AtItem(o, lv, pos) == AtItem(Open(o), lv, pos) && AtItem(o, lv, pos).Ok(p)
    ensures o.requireDeterministic && AtItem(o, lv, pos).isMap && AtItem(o, lv, pos).keyNext
            ==> AtItem(o, lv, pos).inKey
    ensures AfterItem(o, input, p, AtItem(o, lv, pos)) == AfterItem(Open(o), input, p, AtItem(Open(o), lv, pos))
  {
    hide Less;
  }

  lemma {:induction false} AllWelcome(o: Options, w: Wire)
    ensures Welcome(Open(o), w)
    decreases w, 1
  {
    match w
    case WArray(_, items) => AllItemsWelcome(o, items);
    case WMap(_, entries) => AllEntriesWelcome(o, entries);
    case WTag(_, _, content) => AllWelcome(o, content);
    case _ =>
  }

  lemma {:induction false} AllItemsWelcome(o: Options, s: WireItems)
    ensures WelcomeItems(Open(o), s)
    decreases s, 0
  {
    if s.Wires? {
      AllWelcome(o, s.head);
      AllItemsWelcome(o, s.tail);
    }
  }

  lemma {:induction false} AllEntriesWelcome(o: Options, s: WireEntries)
    ensures WelcomeEntries(Open(o), s)
    decreases s, 0
  {
    if s.Pairs? {
      AllWelcome(o, s.key);
      AllWelcome(o, s.val);
      AllEntriesWelcome(o, s.rest);
    }
  }

  lemma {:induction false} FormedAnyway(o: Options, w: Wire, room: int)
    ensures Formed(o, w, room) <==> Formed(Open(o), w, room)
    decreases w, 1
  {
    hide HeadFits, WellFormed, Pow256;
    match w
    case WArray(_, items) => ItemsFormedAnyway(o, items, room - 1);
    case WMap(_, entries) => EntriesFormedAnyway(o, entries, room - 1);
    case WTag(_, _, content) => FormedAnyway(o, content, room);
    case WChunks(text, cs) => ChunksFitAnyway(o, text, cs);
    case _ =>
  }

  lemma {:induction false} ChunksFitAnyway(o: Options, text: bool, cs: seq<ChunkWire>)
    ensures ChunksFit(o, text, cs) <==> ChunksFit(Open(o), text, cs)
    decreases |cs|
  {
    hide HeadFits, WellFormed;
    if cs != [] {
      ChunksFitAnyway(o, text, cs[1..]);
    }
  }

  lemma {:induction false} ItemsFormedAnyway(o: Options, s: WireItems, room: int)
    ensures FormedItems(o, s, room) <==> FormedItems(Open(o), s, room)
    decreases s, 0
  {
    hide Formed;
    if s.Wires? {
      FormedAnyway(o, s.head, room);
      ItemsFormedAnyway(o, s.tail, room);
    }
  }

  lemma {:induction false} EntriesFormedAnyway(o: Options, s: WireEntries, room: int)
    ensures FormedEntries(o, s, room) <==> FormedEntries(Open(o), s, room)
    decreases s, 0
  {
    hide Formed;
    if s.Pairs? {
      FormedAnyway(o, s.key, room);
      FormedAnyway(o, s.val, room);
      EntriesFormedAnyway(o, s.rest, room);
    }
  }

  lemma {:induction false} NothingUnwelcome(o: Options, input: seq<byte>, pos: nat, depth: nat)
    requires pos <= |input|
    ensures !Walks.Meets(Walks.Unwelcome, Open(o), input, pos, depth)
  {
    hide Walks.Meets, ParseHead;
    assert Walks.Nowhere(Walks.Unwelcome, Open(o), input);
    Walks.NowhereNotMet(Walks.Unwelcome, Open(o), input, pos, depth);
  }

  /** The validator passes a well-formed encoding and ends behind it. */
  lemma SkipWire(o: Options, input: seq<byte>, pos: nat, depth: nat, w: Wire)
    requires !o.requireDeterministic && pos <= |input| && |input| < TWO64
    requires Formed(o, w, o.maxDepth - depth) && At(input, pos, Coded(w))
    ensures SkipItem(o, input, pos, depth) == Done(pos + |Coded(w)|, false)
  {
    hide ReadItem, SkipItem, Formed, Welcome, Coded, TreeOf, EndToEnd.Plain, At, Walks.Meets;
    SkipIgnoresPolicies(o, input, pos, depth);
    Agreement.ItemsAgree(Open(o), input, pos, depth);
    FormedAnyway(o, w, o.maxDepth - depth);
    AllWelcome(o, w);
    ReadWire(Open(o), input, pos, depth, w);
  }

  /** What it passes without wrapping a count is one. */
  lemma SkippedIsWire(o: Options, input: seq<byte>, pos: nat, depth: nat) returns (w: Wire)
    requires !o.requireDeterministic && pos <= |input| && |input| < TWO64
    requires SkipItem(o, input, pos, depth).Done? && !SkipItem(o, input, pos, depth).wrapped
    ensures WireAt(o, input, pos, depth, w, SkipItem(o, input, pos, depth).pos)
  {
    hide ReadItem, SkipItem, Formed, Welcome, Coded, TreeOf, EndToEnd.Plain, At, Walks.Meets;
    SkipIgnoresPolicies(o, input, pos, depth);
    NothingUnwelcome(o, input, pos, depth);
    Agreement.ItemsAgree(Open(o), input, pos, depth);
    w := WireFound(Open(o), input, pos, depth);
    FormedAnyway(o, w, o.maxDepth - depth);
  }

  /** In lenient mode the validator accepts exactly the well-formed encodings, up to their ends, whatever the policies
      on tags and undefined, and but for maps that claim 2^63 entries or more. */
  lemma SkipExact(o: Options, input: seq<byte>, pos: nat, depth: nat, end: nat)
    requires !o.requireDeterministic && pos <= |input| && |input| < TWO64
    ensures (SkipItem(o, input, pos, depth).Done? && SkipItem(o, input, pos, depth).pos == end
             && !Walks.Meets(Walks.HugeMap, o, input, pos, depth))
            <==> exists w :: WireAt(o, input, pos, depth, w, end)
  {
    hide SkipItem, Formed, Coded, At, Walks.Meets;
    if SkipItem(o, input, pos, depth).Done? {
      Walks.WrappedIsMet(o, input, pos, depth);
      if !SkipItem(o, input, pos, depth).wrapped {
        var w := SkippedIsWire(o, input, pos, depth);
      }
    }
    if w :| WireAt(o, input, pos, depth, w, end) {
      SkipWire(o, input, pos, depth, w);
      Walks.WrappedIsMet(o, input, pos, depth);
    }
  }

  // ---- the encodings of RFC 8949 ----

  /** 9F 01 02 FF is [1, 2]. */
  lemma OpenArrayRead(o: Options)
    requires !o.requireDeterministic && o.maxDepth > 0
    ensures Reads(ReadItem(o, [0x9F, 0x01, 0x02, 0xFF], 0, 0), Array(Items(UInt(1), Items(UInt(2), NoItems))), 4)
  {
    hide ReadItem;
    var two := Wires(WInt(false, 2, 2), NoWires);
    var both := Wires(WInt(false, 1, 1), two);
    var w := WArray(Form.Open, both);
    assert CodedItems(two) == [0x02] && CodedItems(both) == [0x01, 0x02];
    assert Coded(w) == [0x9F, 0x01, 0x02, 0xFF];
    assert FormedItems(o, two, o.maxDepth - 1) && WelcomeItems(o, two);
    assert FormedItems(o, both, o.maxDepth - 1) && WelcomeItems(o, both);
    assert WireTrees(two) == Items(UInt(2), NoItems);
    assert EndToEnd.PlainItems(WireTrees(two)) == Items(UInt(2), NoItems);
    var input: seq<byte> := [0x9F, 0x01, 0x02, 0xFF];
    assert input[0..4] == input;
    ReadWire(o, input, 0, 0, w);
  }

  /** An accepted encoding is one of RFC 8949 if and only if no chunk of it has a reserved head. */
  lemma LenientStandard(o: Options, input: seq<byte>, pos: nat, depth: nat, w: Wire, end: nat)
    requires WireAt(o, input, pos, depth, w, end)
    ensures Standard(w) <==> exists u, e :: WireAt(o, input, pos, depth, u, e) && Standard(u)
  {
    hide Formed, Coded, Standard, At;
    if u, e :| WireAt(o, input, pos, depth, u, e) && Standard(u) {
      WireUnique(o, input, pos, w, u, o.maxDepth - depth, o.maxDepth - depth);
    }
  }
}
