/** Every well-formed encoding of a data item, canonical or not: heads of any width that carries their argument,
    containers and strings of definite or indefinite length, floats of any width. */
module Wires {
  import opened Bytes
  import opened Head
  import opened Utf8
  import opened Floats
  import opened Item
  import opened SkipSpec

  /** A container says its count in a head with additional information `ai`, or ends in a break. */
  datatype Form = Counted(ai: nat) | Open

  /** A chunk by the additional information of its head; 28 to 30 stand for nothing but are not refused. */
  datatype ChunkWire = ChunkWire(ai: nat, span: seq<byte>)

  datatype Wire =
    | WInt(neg: bool, ai: nat, arg: nat)
    | WString(text: bool, ai: nat, span: seq<byte>)
    | WChunks(text: bool, chunks: seq<ChunkWire>)
    | WArray(form: Form, items: WireItems)
    | WMap(form: Form, entries: WireEntries)
    | WTag(ai: nat, tag: nat, content: Wire)
    | WSimple(code: nat)
    | WFloat(ai: nat, raw: nat)

  datatype WireItems = NoWires | Wires(head: Wire, tail: WireItems) {
    function Length(): nat {
      if NoWires? then 0 else 1 + tail.Length()
    }
  }

  datatype WireEntries = NoPairs | Pairs(key: Wire, val: Wire, rest: WireEntries) {
    function Length(): nat {
      if NoPairs? then 0 else 1 + rest.Length()
    }
  }

  // ---- the bytes ----

  /** The head with additional information `ai`, whatever that stands for. */
  function AnyHead(m: major, ai: nat, v: nat): (h: seq<byte>)
    ensures |h| > 0
  {
    if ai < 28 then HeadBytes(m, ai, v) else [InitialByte(m, ai % 32)]
  }

  function StringType(text: bool): major {
    if text then TEXT else BYTES
  }

  function CodedChunks(m: major, cs: seq<ChunkWire>): seq<byte> {
    if cs == [] then [BREAK] else AnyHead(m, cs[0].ai, |cs[0].span|) + (cs[0].span + CodedChunks(m, cs[1..]))
  }

  function FormHead(m: major, form: Form, n: nat): (h: seq<byte>)
    ensures |h| > 0
  {
    if form.Counted? then AnyHead(m, form.ai, n) else AnyHead(m, 31, 0)
  }

  function FormEnd(form: Form): seq<byte> {
    if form.Counted? then [] else [BREAK]
  }

  function Coded(w: Wire): (s: seq<byte>)
    ensures |s| > 0
  {
    match w
    case WInt(neg, ai, arg) => AnyHead(if neg then NINT else UINT, ai, arg)
    case WString(text, ai, span) => AnyHead(StringType(text), ai, |span|) + span
    case WChunks(text, cs) => AnyHead(StringType(text), 31, 0) + CodedChunks(StringType(text), cs)
    case WArray(form, items) => FormHead(ARRAY, form, items.Length()) + (CodedItems(items) + FormEnd(form))
    case WMap(form, entries) => FormHead(MAP, form, entries.Length()) + (CodedEntries(entries) + FormEnd(form))
    case WTag(ai, tag, content) => AnyHead(TAG, ai, tag) + Coded(content)
    case WSimple(code) => ShortHead(SIMPLE, code)
    case WFloat(ai, raw) => AnyHead(SIMPLE, ai, raw)
  }

  function CodedItems(s: WireItems): seq<byte> {
    if s.NoWires? then [] else Coded(s.head) + CodedItems(s.tail)
  }

  function CodedEntries(s: WireEntries): seq<byte> {
    if s.NoPairs? then [] else Coded(s.key) + (Coded(s.val) + CodedEntries(s.rest))
  }

  // ---- the item ----

  function Spans(cs: seq<ChunkWire>): seq<byte> {
    if cs == [] then [] else cs[0].span + Spans(cs[1..])
  }

  function StringItem(text: bool, s: seq<byte>): Item {
    if text then TextString(s) else ByteString(s)
  }

  predicate FloatFits(ai: nat, raw: nat) {
    25 <= ai <= 27 && raw < Pow256(ArgWidth(ai))
  }

  /** What the bytes stand for. */
  function TreeOf(w: Wire): Item {
    match w
    case WInt(neg, _, arg) => if neg then NInt(arg) else UInt(arg)
    case WString(text, _, span) => StringItem(text, span)
    case WChunks(text, cs) => StringItem(text, Spans(cs))
    case WArray(_, items) => Array(WireTrees(items))
    case WMap(_, entries) => Map(PairTrees(entries))
    case WTag(_, tag, content) => Tag(tag, TreeOf(content))
    case WSimple(code) => Simple(code)
    case WFloat(ai, raw) => if FloatFits(ai, raw) then FloatTree(ai, raw) else Simple(0)
  }

  function FloatTree(ai: nat, raw: nat): Item
    requires FloatFits(ai, raw)
  {
    FormIs(ai, raw);
    Float(Widen(FloatForm(ai, raw)))
  }

  lemma FormIs(ai: nat, raw: nat)
    requires FloatFits(ai, raw)
    ensures IsForm(FloatForm(ai, raw))
  {
    Pow256Values();
    FormWidths();
  }

  function WireTrees(s: WireItems): Items {
    if s.NoWires? then NoItems else Items(TreeOf(s.head), WireTrees(s.tail))
  }

  function PairTrees(s: WireEntries): Entries {
    if s.NoPairs? then NoEntries else Entries(TreeOf(s.key), TreeOf(s.val), PairTrees(s.rest))
  }

  // ---- which of them are well-formed ----

  predicate HeadFits(ai: nat, v: nat) {
    ai < 28 && if ai < 24 then v == ai else v < Pow256(ArgWidth(ai))
  }

  predicate TextFits(o: Options, text: bool, s: seq<byte>) {
    text && o.validateUtf8 ==> WellFormed(s)
  }

  predicate ChunkFits(o: Options, text: bool, c: ChunkWire) {
    (HeadFits(c.ai, |c.span|) || (28 <= c.ai <= 30 && c.span == [])) && TextFits(o, text, c.span)
  }

  predicate ChunksFit(o: Options, text: bool, cs: seq<ChunkWire>) {
    cs == [] || (ChunkFits(o, text, cs[0]) && ChunksFit(o, text, cs[1..]))
  }

  predicate FormFits(form: Form, n: nat) {
    form.Counted? ==> HeadFits(form.ai, n)
  }

  /** Heads carry their arguments, text is UTF-8 chunk by chunk if that is checked, simple values exist, and containers
      nest at most `room` deep. */
  predicate Formed(o: Options, w: Wire, room: int) {
    match w
    case WInt(_, ai, arg) => HeadFits(ai, arg)
    case WString(text, ai, span) => HeadFits(ai, |span|) && TextFits(o, text, span)
    case WChunks(text, cs) => ChunksFit(o, text, cs)
    case WArray(form, items) => room > 0 && FormFits(form, items.Length()) && FormedItems(o, items, room - 1)
    case WMap(form, entries) => room > 0 && FormFits(form, entries.Length()) && FormedEntries(o, entries, room - 1)
    case WTag(ai, tag, content) => HeadFits(ai, tag) && Formed(o, content, room)
    case WSimple(code) => code < 24 || 32 <= code < 256
    case WFloat(ai, raw) => FloatFits(ai, raw)
  }

  predicate FormedItems(o: Options, s: WireItems, room: int) {
    s.NoWires? || (Formed(o, s.head, room) && FormedItems(o, s.tail, room))
  }

  predicate FormedEntries(o: Options, s: WireEntries, room: int) {
    s.NoPairs? || (Formed(o, s.key, room) && Formed(o, s.val, room) && FormedEntries(o, s.rest, room))
  }

  /** What a generic value may hold under the reader's policies: tags if they are ignored, undefined if it is null. */
  predicate Welcome(o: Options, w: Wire) {
    match w
    case WArray(_, items) => WelcomeItems(o, items)
    case WMap(_, entries) => WelcomeEntries(o, entries)
    case WTag(_, _, content) => o.ignoreUnknownTags && Welcome(o, content)
    case WSimple(code) => code == 23 ==> o.undefinedAsNull
    case _ => true
  }

  predicate WelcomeItems(o: Options, s: WireItems) {
    s.NoWires? || (Welcome(o, s.head) && WelcomeItems(o, s.tail))
  }

  predicate WelcomeEntries(o: Options, s: WireEntries) {
    s.NoPairs? || (Welcome(o, s.key) && Welcome(o, s.val) && WelcomeEntries(o, s.rest))
  }

  /** No chunk has a reserved head: the encoding is one of RFC 8949. */
  predicate Standard(w: Wire) {
    match w
    case WChunks(_, cs) => forall i :: 0 <= i < |cs| ==> cs[i].ai < 28
    case WArray(_, items) => StandardItems(items)
    case WMap(_, entries) => StandardEntries(entries)
    case WTag(_, _, content) => Standard(content)
    case _ => true
  }

  predicate StandardItems(s: WireItems) {
    s.NoWires? || (Standard(s.head) && StandardItems(s.tail))
  }

  predicate StandardEntries(s: WireEntries) {
    s.NoPairs? || (Standard(s.key) && Standard(s.val) && StandardEntries(s.rest))
  }

  // ---- heads ----

  lemma HeadRead(input: seq<byte>, pos: nat, m: major, ai: nat, v: nat, rest: seq<byte>)
    requires HeadFits(ai, v) && At(input, pos, AnyHead(m, ai, v) + rest)
    ensures ParseHead(input, pos) == ParsedHead(m, ai, v, false, |AnyHead(m, ai, v)|, false, false)
    ensures At(input, pos + |AnyHead(m, ai, v)|, rest) && pos < |input| && v < TWO64
  {
    hide Be, FromBe, Pow256, ParseHead;
    Pow256Values();
    AtConcat(input, pos, AnyHead(m, ai, v), rest);
    ParseHeadBytes(input, pos, m, ai, v);
  }

  /** The head of indefinite length. */
  lemma OpenRead(input: seq<byte>, pos: nat, m: major, rest: seq<byte>)
    requires BYTES <= m <= MAP && At(input, pos, AnyHead(m, 31, 0) + rest)
    ensures ParseHead(input, pos) == ParsedHead(m, 31, 0, true, 1, false, false)
    ensures At(input, pos + 1, rest) && pos < |input| && |AnyHead(m, 31, 0)| == 1
  {
    AtConcat(input, pos, AnyHead(m, 31, 0), rest);
    FirstAt(input, pos, AnyHead(m, 31, 0));
  }

  /** A reserved head, which reads as the argument 0. */
  lemma ReservedRead(input: seq<byte>, pos: nat, m: major, ai: nat, rest: seq<byte>)
    requires 28 <= ai <= 30 && At(input, pos, AnyHead(m, ai, 0) + rest)
    ensures ParseHead(input, pos) == ParsedHead(m, ai, 0, false, 1, true, false)
    ensures At(input, pos + 1, rest) && pos < |input| && |AnyHead(m, ai, 0)| == 1 && input[pos] != BREAK
  {
    AtConcat(input, pos, AnyHead(m, ai, 0), rest);
    FirstAt(input, pos, AnyHead(m, ai, 0));
  }

  /** The head of a container of either form. */
  lemma FormRead(input: seq<byte>, pos: nat, m: major, form: Form, n: nat, rest: seq<byte>)
    requires (m == ARRAY || m == MAP) && FormFits(form, n) && At(input, pos, FormHead(m, form, n) + rest)
    ensures var h := ParseHead(input, pos);
            && h.mt == m && h.length == |FormHead(m, form, n)| && !h.isBreak && !h.reserved
            && h.indefinite == form.Open? && h.value == (if form.Counted? then n else 0) && h.value < TWO64
            && h.ai == (if form.Counted? then form.ai else 31)
    ensures At(input, pos + |FormHead(m, form, n)|, rest) && pos < |input|
  {
    hide AnyHead, HeadFits, ParseHead;
    if form.Counted? {
      HeadRead(input, pos, m, form.ai, n, rest);
    } else {
      OpenRead(input, pos, m, rest);
    }
  }

  lemma AnyHeadStarts(m: major, ai: nat, v: nat)
    ensures AnyHead(m, ai, v)[0] == BREAK <==> m == SIMPLE && ai % 32 == 31 && ai >= 28
  {
  }

  /** No item starts with a break. */
  lemma CodedNotBreak(o: Options, w: Wire, room: int)
    requires Formed(o, w, room)
    ensures Coded(w)[0] != BREAK
  {
    hide AnyHead, CodedItems, CodedEntries, CodedChunks, FormedItems, FormedEntries, WellFormed, Pow256;
    match w
    case WInt(neg, ai, arg) => AnyHeadStarts(if neg then NINT else UINT, ai, arg);
    case WString(text, ai, span) => AnyHeadStarts(StringType(text), ai, |span|);
    case WChunks(text, cs) => AnyHeadStarts(StringType(text), 31, 0);
    case WArray(form, items) =>
      AnyHeadStarts(ARRAY, if form.Counted? then form.ai else 31, if form.Counted? then items.Length() else 0);
    case WMap(form, entries) =>
      AnyHeadStarts(MAP, if form.Counted? then form.ai else 31, if form.Counted? then entries.Length() else 0);
    case WTag(ai, tag, content) => AnyHeadStarts(TAG, ai, tag);
    case WSimple(code) =>
    case WFloat(ai, raw) => AnyHeadStarts(SIMPLE, ai, raw);
  }

  lemma NotBreakAt(o: Options, input: seq<byte>, pos: nat, w: Wire, room: int, rest: seq<byte>)
    requires Formed(o, w, room) && At(input, pos, Coded(w) + rest)
    ensures At(input, pos, Coded(w)) && At(input, pos + |Coded(w)|, rest) && pos < |input| && input[pos] != BREAK
  {
    hide Formed;
    AtConcat(input, pos, Coded(w), rest);
    CodedNotBreak(o, w, room);
    FirstAt(input, pos, Coded(w));
  }
}
