/** Strings of indefinite length against their grammar (section 3.2.3 of RFC 8949): definite-length chunks of one
    type, then a break. */
module ChunkGrammar {
  import opened Bytes
  import opened Head
  import opened Utf8
  import opened Item
  import opened SkipSpec
  import opened ReadSpec

  /** A chunk by the additional information of its head and its contents. */
  datatype StringChunk = StringChunk(ai: nat, span: seq<byte>)

  /** The head carries the length of the contents; a chunk of text is text. */
  predicate ChunkOk(o: Options, mt: major, c: StringChunk) {
    && c.ai < 28 && (if c.ai < 24 then |c.span| == c.ai else |c.span| < Pow256(ArgWidth(c.ai)))
    && (o.validateUtf8 && mt == TEXT ==> WellFormed(c.span))
  }

  predicate ChunksOk(o: Options, mt: major, cs: seq<StringChunk>) {
    cs == [] || (ChunkOk(o, mt, cs[0]) && ChunksOk(o, mt, cs[1..]))
  }

  function ChunkText(mt: major, c: StringChunk): seq<byte> {
    HeadBytes(mt, if c.ai < 28 then c.ai else 27, |c.span|) + c.span
  }

  /** The chunks and the break behind them. */
  function ChunksText(mt: major, cs: seq<StringChunk>): (r: seq<byte>)
    ensures |r| > 0
  {
    if cs == [] then [BREAK] else ChunkText(mt, cs[0]) + ChunksText(mt, cs[1..])
  }

  function Spans(cs: seq<StringChunk>): seq<byte> {
    if cs == [] then [] else cs[0].span + Spans(cs[1..])
  }

  /** The bytes at `pos..end` are the chunks `cs` and their break. */
  ghost predicate Spells(o: Options, input: seq<byte>, pos: nat, end: nat, mt: major, cs: seq<StringChunk>) {
    ChunksOk(o, mt, cs) && At(input, pos, ChunksText(mt, cs)) && end == pos + |ChunksText(mt, cs)|
  }

  /** Some chunks and their break make up `pos..end`, and spell `text`. */
  ghost predicate InGrammar(o: Options, input: seq<byte>, pos: nat, end: nat, mt: major, text: seq<byte>) {
    exists cs :: Spells(o, input, pos, end, mt, cs) && text == Spans(cs)
  }

  /** Some chunk head on the way to the break has additional information 28, 29 or 30. */
  predicate ReservedChunk(input: seq<byte>, pos: nat, mt: major)
    requires pos <= |input|
    decreases |input| - pos
  {
    var h := ParseHead(input, pos);
    && h.length > 0 && !h.isBreak && h.mt == mt && !h.indefinite
    && (28 <= h.ai <= 30
        || (h.value <= |input| - pos - h.length && ReservedChunk(input, pos + h.length + h.value, mt)))
  }

  lemma ReservedHead(input: seq<byte>, pos: nat)
    requires var h := ParseHead(input, pos); h.length > 0 && !h.isBreak && !h.indefinite
    ensures var h := ParseHead(input, pos);
            (28 <= h.ai <= 30 <==> h.reserved) && (h.reserved ==> h.length == 1 && h.value == 0)
  {
  }

  // ---- one chunk ----

  /** A chunk of the grammar is read whole. */
  lemma ChunkRead(o: Options, input: seq<byte>, pos: nat, mt: major, c: StringChunk, rest: seq<byte>)
    requires (mt == BYTES || mt == TEXT) && ChunkOk(o, mt, c) && At(input, pos, ChunkText(mt, c) + rest)
    ensures var next := pos + |ChunkText(mt, c)|;
            && At(input, next, rest) && ChunkAt(o, input, pos, mt) == Chunk(c.span, next)
            && (ReservedChunk(input, pos, mt) <==> ReservedChunk(input, next, mt))
  {
    hide HeadBytes, WellFormed, FirstBad, ParseHead, Pow256, At;
    var head := HeadBytes(mt, c.ai, |c.span|);
    AtConcat(input, pos, ChunkText(mt, c), rest);
    AtConcat(input, pos, head, c.span);
    ParseHeadBytes(input, pos, mt, c.ai, |c.span|);
    SpanAt(input, pos + |head|, c.span);
    FirstAt(input, pos, head);
    HeadStarts(mt, c.ai, |c.span|);
    HeadLength(mt, c.ai, |c.span|);
  }

  lemma HeadStarts(mt: major, ai: nat, v: nat)
    requires ai < 28 && (mt == BYTES || mt == TEXT)
    ensures HeadBytes(mt, ai, v) != [] && HeadBytes(mt, ai, v)[0] != BREAK
  {
  }

  lemma HeadLength(mt: major, ai: nat, v: nat)
    requires ai < 28
    ensures |HeadBytes(mt, ai, v)| == 1 + ArgWidth(ai)
  {
  }

  /** Whatever is read as a chunk under a head that is not reserved is a chunk of the grammar. */
  lemma ChunkFound(o: Options, input: seq<byte>, pos: nat, mt: major) returns (c: StringChunk)
    requires ChunkAt(o, input, pos, mt).Chunk? && !ReservedChunk(input, pos, mt)
    ensures var r := ChunkAt(o, input, pos, mt);
            && ChunkOk(o, mt, c) && c.span == r.span && At(input, pos, ChunkText(mt, c))
              && pos + |ChunkText(mt, c)| == r.end
            && !ReservedChunk(input, r.end, mt)
  {
    hide HeadBytes, WellFormed, FirstBad, ParseHead, Pow256;
    var h := ParseHead(input, pos);
    var r := ChunkAt(o, input, pos, mt);
    ReservedHead(input, pos);
    c := StringChunk(h.ai, r.span);
    PlainHeadBytes(input, pos);
    HeadLength(mt, h.ai, h.value);
    AtConcat(input, pos, HeadBytes(mt, h.ai, h.value), c.span);
  }

  // ---- the chunks ----

  lemma {:induction false} ChunksRead(o: Options, input: seq<byte>, pos: nat, mt: major, scratch: seq<byte>,
                                      cs: seq<StringChunk>)
    requires (mt == BYTES || mt == TEXT) && ChunksOk(o, mt, cs) && At(input, pos, ChunksText(mt, cs))
    ensures pos <= |input| && !ReservedChunk(input, pos, mt)
    ensures ReadChunks(o, input, pos, mt, scratch) == String(scratch + Spans(cs), pos + |ChunksText(mt, cs)|)
    decreases |cs|
  {
    hide ChunkOk, ChunkText, ChunkAt, ReservedChunk, At;
    if cs == [] {
      FirstAt(input, pos, [BREAK]);
      BreakEnds(o, input, pos, mt);
      assert scratch + [] == scratch;
    } else {
      ChunkRead(o, input, pos, mt, cs[0], ChunksText(mt, cs[1..]));
      ChunksRead(o, input, pos + |ChunkText(mt, cs[0])|, mt, scratch + cs[0].span, cs[1..]);
      assert scratch + cs[0].span + Spans(cs[1..]) == scratch + (cs[0].span + Spans(cs[1..]));
    }
  }

  lemma BreakEnds(o: Options, input: seq<byte>, pos: nat, mt: major)
    requires pos < |input| && input[pos] == BREAK
    ensures ChunkAt(o, input, pos, mt) == LastChunk && !ReservedChunk(input, pos, mt)
  {
  }

  lemma LastIsBreak(o: Options, input: seq<byte>, pos: nat, mt: major)
    requires ChunkAt(o, input, pos, mt).LastChunk?
    ensures At(input, pos, [BREAK])
  {
  }

  lemma {:induction false} ChunksFound(o: Options, input: seq<byte>, pos: nat, mt: major, scratch: seq<byte>)
    returns (cs: seq<StringChunk>)
    requires pos <= |input| && ReadChunks(o, input, pos, mt, scratch).String? && !ReservedChunk(input, pos, mt)
    ensures var r := ReadChunks(o, input, pos, mt, scratch);
            Spells(o, input, pos, r.end, mt, cs) && r.bytes == scratch + Spans(cs)
    decreases |input| - pos
  {
    hide ChunkOk, ChunkText, ChunkAt, ReservedChunk, At;
    var c := ChunkAt(o, input, pos, mt);
    if c.LastChunk? {
      cs := [];
      LastIsBreak(o, input, pos, mt);
      assert scratch + [] == scratch;
    } else {
      var first := ChunkFound(o, input, pos, mt);
      var rest := ChunksFound(o, input, c.end, mt, scratch + c.span);
      cs := [first] + rest;
      assert cs[1..] == rest;
      AtConcat(input, pos, ChunkText(mt, first), ChunksText(mt, rest));
      assert scratch + c.span + Spans(rest) == scratch + (c.span + Spans(rest));
    }
  }

  /** The chunk loop accepts a span without a reserved chunk head if and only if the span is in the grammar, for
      the contents its chunks spell. */
  lemma ChunksExact(o: Options, input: seq<byte>, pos: nat, mt: major, text: seq<byte>, end: nat)
    requires (mt == BYTES || mt == TEXT) && pos <= |input|
    ensures ReadChunks(o, input, pos, mt, []) == String(text, end) && !ReservedChunk(input, pos, mt)
            <==> InGrammar(o, input, pos, end, mt, text)
  {
    hide ReadChunks, ReservedChunk, ChunksOk, ChunksText, Spans, At;
    if ReadChunks(o, input, pos, mt, []) == String(text, end) && !ReservedChunk(input, pos, mt) {
      var cs := ChunksFound(o, input, pos, mt, []);
      assert [] + Spans(cs) == Spans(cs);
    }
    if cs :| Spells(o, input, pos, end, mt, cs) && text == Spans(cs) {
      ChunksRead(o, input, pos, mt, [], cs);
      assert [] + Spans(cs) == Spans(cs);
    }
  }

  /** Of the spans the chunk loop accepts, exactly those with a reserved chunk head are outside the grammar. */
  lemma AcceptedIsGrammarUnlessReserved(o: Options, input: seq<byte>, pos: nat, mt: major)
    requires (mt == BYTES || mt == TEXT) && pos <= |input| && ReadChunks(o, input, pos, mt, []).String?
    ensures var r := ReadChunks(o, input, pos, mt, []);
            !ReservedChunk(input, pos, mt) <==> InGrammar(o, input, pos, r.end, mt, r.bytes)
  {
    hide ReadChunks, ReservedChunk, Spells, Spans;
    var r := ReadChunks(o, input, pos, mt, []);
    ChunksExact(o, input, pos, mt, r.bytes, r.end);
  }

  // ---- both readers ----

  lemma {:induction false} SpansWellFormed(o: Options, cs: seq<StringChunk>)
    requires o.validateUtf8 && ChunksOk(o, TEXT, cs)
    ensures WellFormed(Spans(cs))
    decreases |cs|
  {
    hide WellFormed;
    if cs == [] {
      Nothing();
    } else {
      SpansWellFormed(o, cs[1..]);
      WellFormedConcat(cs[0].span, Spans(cs[1..]));
    }
  }

  lemma Nothing()
    ensures WellFormed([])
  {
  }

  /** A string of indefinite length at `pos`. */
  predicate IndefiniteString(input: seq<byte>, pos: nat, mt: major) {
    (mt == BYTES || mt == TEXT) && ParseHead(input, pos) == ParsedHead(mt, 31, 0, true, 1, false, false)
  }

  /** What the two readers make of an indefinite-length string, from what the chunk loop makes of it. */
  lemma BothReadChunks(o: Options, input: seq<byte>, pos: nat, depth: nat, mt: major)
    requires IndefiniteString(input, pos, mt) && !o.requireDeterministic
    ensures pos < |input|
    ensures var c, s, r := ReadChunks(o, input, pos + 1, mt, []), SkipItem(o, input, pos, depth),
            ReadItem(o, input, pos, depth);
            if c.String? && (o.validateUtf8 && mt == TEXT ==> WellFormed(c.bytes)) then
              s == Done(c.end, false) && r
                == Read(if mt == BYTES then ByteString(c.bytes) else TextString(c.bytes), c.end, false)
            else s.Fail? && r.NotRead?
  {
    hide ParseHead, ReadChunks, WellFormed, FirstBad, SkipLevel, ReadSeq, ReadMap, Reject;
    assert ItemHead(o, input, pos) == HeadAt(pos, ParseHead(input, pos), false);
  }

  /** Both readers accept a string of indefinite length without a reserved chunk head if and only if it is in the
      grammar, up to its break, and read what its chunks spell. */
  lemma IndefiniteStringExact(o: Options, input: seq<byte>, pos: nat, depth: nat, mt: major, text: seq<byte>, end: nat)
    requires IndefiniteString(input, pos, mt) && !o.requireDeterministic
    ensures pos < |input|
    ensures var spelled := InGrammar(o, input, pos + 1, end, mt, text);
            var item := if mt == BYTES then ByteString(text) else TextString(text);
            && (spelled <==>
                  ReadItem(o, input, pos, depth) == Read(item, end, false) && !ReservedChunk(input, pos + 1, mt))
            && (spelled ==> SkipItem(o, input, pos, depth) == Done(end, false))
  {
    hide ReadChunks, ReservedChunk, ReadItem, SkipItem, WellFormed, ChunksText, At;
    BothReadChunks(o, input, pos, depth, mt);
    ChunksExact(o, input, pos + 1, mt, text, end);
    if cs :| Spells(o, input, pos + 1, end, mt, cs) && text == Spans(cs) {
      if o.validateUtf8 && mt == TEXT {
        SpansWellFormed(o, cs);
      }
    }
  }

  /** The same for the validator, which does not tell the contents. */
  lemma IndefiniteStringSkipped(o: Options, input: seq<byte>, pos: nat, depth: nat, mt: major, end: nat)
    requires IndefiniteString(input, pos, mt) && !o.requireDeterministic
    ensures pos < |input|
    ensures var start := pos + 1;
            (exists text :: InGrammar(o, input, start, end, mt, text))
            <==> SkipItem(o, input, pos, depth) == Done(end, false) && !ReservedChunk(input, start, mt)
  {
    hide ReadChunks, ReservedChunk, ReadItem, SkipItem, WellFormed, InGrammar;
    BothReadChunks(o, input, pos, depth, mt);
    var start := pos + 1;
    var c := ReadChunks(o, input, start, mt, []);
    if SkipItem(o, input, pos, depth) == Done(end, false) {
      ChunksExact(o, input, pos + 1, mt, c.bytes, end);
    }
    if text :| InGrammar(o, input, start, end, mt, text) {
      IndefiniteStringExact(o, input, pos, depth, mt, text, end);
    }
  }

  /** 5F 5C FF: both readers take it for an empty byte string, and it is not in the grammar. */
  lemma ReservedChunkAccepted(o: Options, depth: nat)
    requires !o.requireDeterministic
    ensures SkipItem(o, [0x5F, 0x5C, 0xFF], 0, depth) == Done(3, false)
    ensures ReadItem(o, [0x5F, 0x5C, 0xFF], 0, depth) == Read(ByteString([]), 3, false)
    ensures forall text :: !InGrammar(o, [0x5F, 0x5C, 0xFF], 1, 3, BYTES, text)
  {
    hide ReadChunks, ReadItem, SkipItem, InGrammar, WellFormed;
    var input: seq<byte> := [0x5F, 0x5C, 0xFF];
    ReservedBytes(o, input);
    BothReadChunks(o, input, 0, depth, BYTES);
    IndefiniteStringSkipped(o, input, 0, depth, BYTES, 3);
  }

  lemma ReservedBytes(o: Options, input: seq<byte>)
    requires input == [0x5F, 0x5C, 0xFF]
    ensures IndefiniteString(input, 0, BYTES) && ReservedChunk(input, 1, BYTES)
            && ReadChunks(o, input, 1, BYTES, []) == String([], 3)
  {
    hide WellFormed;
    assert ParseHead(input, 0) == ParsedHead(BYTES, 31, 0, true, 1, false, false);
    assert ParseHead(input, 1) == ParsedHead(BYTES, 28, 0, false, 1, true, false);
    assert ReadChunks(o, input, 2, BYTES, []) == String([], 3);
    assert ChunkAt(o, input, 1, BYTES) == Chunk([], 2);
  }
}
