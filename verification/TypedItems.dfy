/** The typed calls of the reader at the encodings of single items. */
module TypedItems {
  import opened Bytes
  import opened Head
  import opened Utf8
  import opened Item
  import opened SkipSpec
  import opened ReadSpec
  import opened BuildSpec
  import opened Strict
  import opened WriterTrees
  import EndToEnd

  /** A shortest head, which is not a tag's, is the head of the next item. */
  lemma HeadAhead(o: Options, input: seq<byte>, pos: nat, m: major, v: nat, rest: seq<byte>)
    requires v < TWO64 && m != TAG && (m == SIMPLE ==> v < 24) && At(input, pos, ShortHead(m, v) + rest)
    ensures pos < |input| && At(input, pos + |ShortHead(m, v)|, rest)
    ensures ParseHead(input, pos) == ParsedHead(m, ShortestAi(v), v, false, |ShortHead(m, v)|, false, false)
    ensures HeadError(o, ParseHead(input, pos), pos).None?
            && ItemHead(o, input, pos) == HeadAt(pos, ParseHead(input, pos), false)
  {
    hide ParseHead, ShortHead;
    HeadThen(input, pos, m, v, rest);
  }

  lemma WholeHead(s: seq<byte>)
    ensures s + [] == s
  {
  }

  lemma IntAhead(o: Options, input: seq<byte>, pos: nat, i: int)
    requires -TWO63 <= i < TWO64 && At(input, pos, Enc(IntItem(i)))
    ensures var end := pos + |Enc(IntItem(i))|;
            && pos < end <= |input|
            && (i >= 0 ==> ExpectUInt(o, input, pos) == Got(i, end) && PeekKind(o, input, pos) == KUInt)
            && (i < TWO63 ==> ExpectSInt(o, input, pos) == Got(i, end))
            && (i < 0 ==> PeekKind(o, input, pos) == KSInt)
  {
    hide ParseHead, ShortHead, ItemHead;
    if i >= 0 {
      WholeHead(ShortHead(UINT, i));
      HeadAhead(o, input, pos, UINT, i, []);
    } else {
      WholeHead(ShortHead(NINT, -1 - i));
      HeadAhead(o, input, pos, NINT, -1 - i, []);
    }
  }

  lemma TextAhead(o: Options, input: seq<byte>, pos: nat, s: seq<byte>)
    requires |s| < TWO64 && WellFormed(s) && At(input, pos, Enc(TextString(s)))
    ensures var end := pos + |Enc(TextString(s))|;
            pos < end <= |input| && ExpectText(o, input, pos) == Got(s, end) && PeekKind(o, input, pos) == KText
  {
    hide ParseHead, ShortHead, ItemHead, ReadScalar, HeadError;
    HeadAhead(o, input, pos, TEXT, |s|, s);
    EndToEnd.DefiniteString(o, input, pos, TEXT, s);
  }

  lemma BytesAhead(o: Options, input: seq<byte>, pos: nat, s: seq<byte>)
    requires |s| < TWO64 && At(input, pos, Enc(ByteString(s)))
    ensures var end := pos + |Enc(ByteString(s))|;
            pos < end <= |input| && ExpectBytes(o, input, pos) == Got(s, end) && PeekKind(o, input, pos) == KBytes
  {
    hide ParseHead, ShortHead, ItemHead, ReadScalar, HeadError;
    HeadAhead(o, input, pos, BYTES, |s|, s);
    EndToEnd.DefiniteString(o, input, pos, BYTES, s);
  }

  /** false, true and null. */
  lemma SimpleAhead(o: Options, input: seq<byte>, pos: nat, code: nat, a: nat, b: nat)
    requires 20 <= code <= 22 && At(input, pos, Enc(Simple(code))) && (code == a || code == b)
    ensures var end := pos + |Enc(Simple(code))|;
            && pos < end <= |input| && ExpectSimple(o, input, pos, a, b) == Got(code, end)
            && PeekKind(o, input, pos) == if code == 22 then KNull else KBoolean
  {
    hide ParseHead, ShortHead, ItemHead;
    WholeHead(ShortHead(SIMPLE, code));
    HeadAhead(o, input, pos, SIMPLE, code, []);
  }

  lemma ContainerAhead(o: Options, input: seq<byte>, pos: nat, depth: nat, m: major, n: nat, body: seq<byte>)
    requires (m == ARRAY || m == MAP) && n < TWO64 && depth < o.maxDepth && At(input, pos, ShortHead(m, n) + body)
    ensures var next := pos + |ShortHead(m, n)|;
            && pos < next <= |input| && At(input, next, body)
            && OpenContainer(o, input, pos, depth, m) == Opened(next, Some(n))
            && PeekKind(o, input, pos) == if m == ARRAY then KArray else KMap
  {
    hide ParseHead, ShortHead, ItemHead;
    HeadAhead(o, input, pos, m, n, body);
  }

  /** The kind ahead of a tree without tags and undefined. */
  lemma KindAhead(o: Options, input: seq<byte>, pos: nat, t: Item)
    requires Valid(t) && !t.Tag? && !t.Float? && (t.Simple? ==> 20 <= t.code <= 22) && At(input, pos, Enc(t))
    ensures PeekKind(o, input, pos).KNull? <==> t == Simple(22)
    ensures ParseHead(input, pos).mt != TAG
  {
    hide ParseHead, ShortHead, ItemHead, ExpectSimple, ValidItems, ValidEntries, WellFormed;
    match t
    case UInt(v) =>
      WholeHead(ShortHead(UINT, v));
      HeadAhead(o, input, pos, UINT, v, []);
    case NInt(v) =>
      WholeHead(ShortHead(NINT, v));
      HeadAhead(o, input, pos, NINT, v, []);
    case ByteString(s) => HeadAhead(o, input, pos, BYTES, |s|, s);
    case TextString(s) => HeadAhead(o, input, pos, TEXT, |s|, s);
    case Array(items) => HeadAhead(o, input, pos, ARRAY, items.Length(), EncItems(items));
    case Map(entries) => HeadAhead(o, input, pos, MAP, entries.Length(), EncEntries(entries));
    case Simple(code) =>
      WholeHead(ShortHead(SIMPLE, code));
      HeadAhead(o, input, pos, SIMPLE, code, []);
      SimpleAhead(o, input, pos, code, code, code);
  }

  // ---- entries of a map ----

  /** The extent remembered once a key has been passed. */
  function NextExtent(o: Options, ext: Option<Extent>, pos: nat, p: nat): Option<Extent> {
    if o.requireDeterministic then Some(Extent(pos, p)) else ext
  }

  function NextKey(o: Options, prev: Option<seq<byte>>, key: Item): Option<seq<byte>> {
    if o.requireDeterministic then Some(Enc(key)) else prev
  }

  /** Where an entry starts: a key that comes after the last one, then a value, then the others. */
  lemma EntryAhead(o: Options, input: seq<byte>, pos: nat, depth: nat, s: Entries, ext: Option<Extent>,
                   prev: Option<seq<byte>>)
    requires s.Entries? && ValidEntries(s) && At(input, pos, EncEntries(s)) && FitEntries(s, o.maxDepth - depth)
    requires EndToEnd.Holds(input, ext, prev) && (o.requireDeterministic ==> CanonicalEntries(s) && InOrder(prev, s))
    ensures var p := pos + |Enc(s.key)|;
            var q := p + |Enc(s.val)|;
            && pos < p < q <= |input| && At(input, pos, Enc(s.key)) && At(input, p, Enc(s.val))
              && At(input, q, EncEntries(s.rest))
            && pos + |EncEntries(s)| == q + |EncEntries(s.rest)|
            && NextEntry(o, input, pos, depth, Some(s.Length()), ext)
              == EntryAt(Some(s.rest.Length()), NextExtent(o, ext, pos, p))
            && EndToEnd.Holds(input, NextExtent(o, ext, pos, p), NextKey(o, prev, s.key))
            && SkipItem(o, input, p, depth) == Done(q, false)
            && (o.requireDeterministic ==> CanonicalEntries(s.rest) && InOrder(NextKey(o, prev, s.key), s.rest))
  {
    hide SkipItem, Enc, Valid, Fits, Canonical, Less;
    NotBreakAt(input, pos, s.key, Enc(s.val) + EncEntries(s.rest));
    SkipEnc(o, input, pos, depth, s.key);
    var p := pos + |Enc(s.key)|;
    NotBreakAt(input, p, s.val, EncEntries(s.rest));
    SkipEnc(o, input, p, depth, s.val);
    assert input[pos..p] == Enc(s.key);
    if o.requireDeterministic && prev.Some? {
      LessIrreflexive(prev.value);
      if Less(input[pos..p], prev.value) {
        LessTransitive(prev.value, input[pos..p], prev.value);
      }
    }
  }

  lemma NoEntryAhead(o: Options, input: seq<byte>, pos: nat, depth: nat, ext: Option<Extent>)
    requires pos <= |input| && ExtentOk(ext, |input|)
    ensures NextEntry(o, input, pos, depth, Some(0), ext) == EntryEnd(pos)
    ensures CursorNext(input, pos, Some(0)) == CursorEnd(pos)
  {
  }
}
