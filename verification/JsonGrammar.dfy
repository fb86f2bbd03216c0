/** The grammar of section 2 of RFC 8259 as concrete syntax trees, and the reader against it. */
module JsonGrammar {
  import opened Bytes
  import opened Utf8
  import opened JsonNumber
  import opened JsonString
  import opened JsonSpec

  /** A text by its parts, white space included. */
  datatype Cst =
    | CNull | CTrue | CFalse
    | CNum(n: Num)
    | CStr(ps: seq<Piece>)
    | CArray(blank: seq<byte>, elems: CElems)      // the blank of an empty array
    | CObject(blank: seq<byte>, mems: CMems)

  datatype CElems = NoElems | Elems(pre: seq<byte>, elem: Cst, post: seq<byte>, rest: CElems)

  datatype CMems = NoMems | Mems(pre: seq<byte>, key: seq<Piece>, mid: seq<byte>, gap: seq<byte>, val: Cst,
                                 post: seq<byte>, rest: CMems)

  predicate AllWs(w: seq<byte>) {
    forall i :: 0 <= i < |w| ==> IsWs(w[i])
  }

  function StrText(ps: seq<Piece>): (s: seq<byte>)
    ensures |s| >= 2 && s[0] == QUOTE
  {
    [QUOTE] + (PiecesText(ps) + [QUOTE])
  }

  function Text(c: Cst): seq<byte> {
    match c
    case CNull => NULL_WORD
    case CTrue => TRUE_WORD
    case CFalse => FALSE_WORD
    case CNum(n) => NumText(n)
    case CStr(ps) => StrText(ps)
    case CArray(blank, elems) => [OPEN_ARRAY] + (if elems.NoElems? then blank + [CLOSE_ARRAY] else ElemsText(elems))
    case CObject(blank, mems) => [OPEN_OBJECT] + (if mems.NoMems? then blank + [CLOSE_OBJECT] else MemsText(mems))
  }

  /** Elements up to and including the closing bracket. */
  function ElemsText(s: CElems): seq<byte>
    decreases s, 0
  {
    if s.NoElems? then [] else s.pre + (Text(s.elem) + (s.post + ElemsTail(s.rest)))
  }

  function ElemsTail(s: CElems): (r: seq<byte>)
    ensures r != [] && (r[0] == COMMA || r[0] == CLOSE_ARRAY)
    decreases s, 1
  {
    if s.NoElems? then [CLOSE_ARRAY] else [COMMA] + ElemsText(s)
  }

  function MemsText(s: CMems): seq<byte>
    decreases s, 0
  {
    if s.NoMems? then []
    else s.pre + (StrText(s.key) + (s.mid + ([COLON] + (s.gap + (Text(s.val) + (s.post + MemsTail(s.rest)))))))
  }

  function MemsTail(s: CMems): (r: seq<byte>)
    ensures r != [] && (r[0] == COMMA || r[0] == CLOSE_OBJECT)
    decreases s, 1
  {
    if s.NoMems? then [CLOSE_OBJECT] else [COMMA] + MemsText(s)
  }

  // ---- which trees count, and what they mean ----

  /** The integer a literal without fraction and exponent spells. */
  function NumInt(n: Num): int
    requires NumOk(n)
  {
    if n.neg then -(DecValue(n.whole) as int) else DecValue(n.whole)
  }

  predicate IsInt64(n: Num)
    requires NumOk(n)
  {
    n.frac == [] && n.exp.NoExp? && -TWO63 <= NumInt(n) < TWO64
  }

  predicate StrOk(o: Options, ps: seq<Piece>) {
    PiecesOk(ps) && (o.validateUtf8 ==> WellFormed(PiecesText(ps)))
  }

  /** Well-formed, nested at most `room` deep; numbers outside 64 bits fit a double. */
  predicate Ok(o: Options, c: Cst, room: int) {
    match c
    case CNum(n) => NumOk(n) && (!IsInt64(n) ==> !o.overflows(NumText(n)))
    case CStr(ps) => StrOk(o, ps)
    case CArray(blank, elems) => room > 0 && AllWs(blank) && ElemsOk(o, elems, room - 1)
    case CObject(blank, mems) => room > 0 && AllWs(blank) && MemsOk(o, mems, room - 1)
    case _ => true
  }

  predicate ElemsOk(o: Options, s: CElems, room: int) {
    s.NoElems? || (AllWs(s.pre) && AllWs(s.post) && Ok(o, s.elem, room) && ElemsOk(o, s.rest, room))
  }

  predicate MemsOk(o: Options, s: CMems, room: int) {
    s.NoMems? || (AllWs(s.pre) && AllWs(s.mid) && AllWs(s.gap) && AllWs(s.post) && StrOk(o, s.key)
                  && Ok(o, s.val, room) && MemsOk(o, s.rest, room))
  }

  function Meaning(o: Options, c: Cst, room: int): Json
    requires Ok(o, c, room)
  {
    match c
    case CNull => JNull
    case CTrue => JBool(true)
    case CFalse => JBool(false)
    case CNum(n) => if IsInt64(n) then JInt(NumInt(n)) else JReal(NumText(n))
    case CStr(ps) => JText(PiecesValue(ps))
    case CArray(_, elems) => JArray(ElemsMeaning(o, elems, room - 1))
    case CObject(_, mems) => JObject(MemsMeaning(o, mems, room - 1))
  }

  function ElemsMeaning(o: Options, s: CElems, room: int): Jsons
    requires ElemsOk(o, s, room)
  {
    if s.NoElems? then NoJsons else Jsons(Meaning(o, s.elem, room), ElemsMeaning(o, s.rest, room))
  }

  function MemsMeaning(o: Options, s: CMems, room: int): Members
    requires MemsOk(o, s, room)
  {
    if s.NoMems? then NoMembers else Members(PiecesValue(s.key), Meaning(o, s.val, room), MemsMeaning(o, s.rest, room))
  }

  // ---- every text is read ----

  lemma {:induction false} WsRun(input: seq<byte>, pos: nat, e: nat)
    requires pos <= e <= |input| && (e < |input| ==> !IsWs(input[e])) && forall k :: pos <= k < e ==> IsWs(input[k])
    ensures SkipWs(input, pos) == e
    decreases e - pos
  {
    if pos < e {
      WsRun(input, pos + 1, e);
    }
  }

  /** White space `w` in front of `x`. */
  lemma WsThen(input: seq<byte>, pos: nat, w: seq<byte>, x: seq<byte>)
    requires AllWs(w) && At(input, pos, w + x) && x != [] && !IsWs(x[0])
    ensures var p := pos + |w|; p < |input| && SkipWs(input, pos) == p && At(input, p, x) && input[p] == x[0]
  {
    AtConcat(input, pos, w, x);
    var p := pos + |w|;
    FirstAt(input, p, x);
    forall k | pos <= k < p
      ensures IsWs(input[k])
    {
      assert input[k] == w[k - pos];
    }
    WsRun(input, pos, p);
  }

  /** The first byte of a value: no white space, no comma, no closing bracket. */
  lemma FirstByteOf(o: Options, c: Cst, room: int)
    requires Ok(o, c, room)
    ensures var t := Text(c);
            t != [] && !IsWs(t[0]) && t[0] != COMMA && t[0] != CLOSE_ARRAY && t[0] != CLOSE_OBJECT
            && (c.CNum? ==> StartsNumber(t[0]))
  {
    hide ElemsText, MemsText, PiecesText, FracText, ExpText;
    if c.CNum? {
      assert Digit(c.n.whole[0]);
    }
  }

  lemma ReadNumber(o: Options, input: seq<byte>, pos: nat, n: Num)
    requires NumOk(n) && (!IsInt64(n) ==> !o.overflows(NumText(n))) && At(input, pos, NumText(n))
             && Stops(input, pos + |NumText(n)|)
    ensures pos < |input| && StartsNumber(input[pos])
    ensures ScanNumber(o.overflows, input, pos)
            == if IsInt64(n) then IntScan(pos + |NumText(n)|, NumInt(n)) else RealScan(pos + |NumText(n)|)
  {
    hide ScanExtents, DecValue, Stops;
    NumScanned(input, pos, n);
    NumWhole(input, pos, n);
    FirstAt(input, pos, NumText(n));
    assert Digit(n.whole[0]);
    assert input[pos..pos + |NumText(n)|] == NumText(n);
    assert (input[pos] == MINUS) == n.neg;
  }

  /** The integer part is found where it was put. */
  lemma NumWhole(s: seq<byte>, pos: nat, n: Num)
    requires NumOk(n) && At(s, pos, NumText(n)) && Stops(s, pos + |NumText(n)|)
    ensures var x := ScanExtents(s, pos);
            x.Extents? && s[IntStart(s, pos)..x.whole] == n.whole
            && (x.whole == x.end <==> n.frac == [] && n.exp.NoExp?)
  {
    hide FracEnd, ExpEnd, IntEnd, Stops, At, AllDigits, FracText, ExpText, IntStart;
    NumScanned(s, pos, n);
    var minus := if n.neg then [MINUS] else [];
    var tail := FracText(n.frac) + ExpText(n.exp);
    AtConcat(s, pos, minus, n.whole + tail);
    var i := pos + |minus|;
    AtConcat(s, i, n.whole, tail);
    WholeStarts(s, pos, n.neg, n.whole);
    FracScanned(s, i + |n.whole|, n.frac, n.exp);
    IntEndOf(s, i, n.whole);
    SpanAt(s, i, n.whole);
    NoTail(n.frac, n.exp);
  }

  /** Where the whole part of a number starts. */
  lemma WholeStarts(s: seq<byte>, pos: nat, neg: bool, whole: seq<byte>)
    requires var minus := if neg then [MINUS] else []; At(s, pos, minus) && At(s, pos + |minus|, whole)
    requires whole != [] && AllDigits(whole)
    ensures IntStart(s, pos) == if neg then pos + 1 else pos
  {
    hide At;
    FirstAt(s, if neg then pos + 1 else pos, whole);
    assert Digit(whole[0]);
    if neg {
      FirstAt(s, pos, [MINUS]);
    }
  }

  lemma NoTail(frac: seq<byte>, exp: Exponent)
    ensures FracText(frac) + ExpText(exp) == [] <==> frac == [] && exp.NoExp?
  {
  }

  lemma ReadWord(o: Options, input: seq<byte>, pos: nat, c: Cst)
    requires (c.CNull? || c.CTrue? || c.CFalse?) && At(input, pos, Text(c))
    ensures pos < |input| && ScalarAt(o, input, pos) == Scalar(Meaning(o, c, 0), pos + |Text(c)|)
  {
    FirstAt(input, pos, Text(c));
  }

  lemma ReadString(o: Options, input: seq<byte>, pos: nat, ps: seq<Piece>)
    requires StrOk(o, ps) && At(input, pos, StrText(ps))
    ensures pos < |input| && input[pos] == QUOTE
    ensures ParseString(o.validateUtf8, input, pos) == String(PiecesValue(ps), pos + |StrText(ps)|)
  {
    hide WellFormed, PiecesOk, PiecesText, PiecesValue, At;
    FirstAt(input, pos, StrText(ps));
    AtConcat(input, pos, [QUOTE], PiecesText(ps) + [QUOTE]);
    AtConcat(input, pos + 1, PiecesText(ps), [QUOTE]);
    SpanAt(input, pos + 1, PiecesText(ps));
    PiecesScanned(o.validateUtf8, input, pos, pos + 1, [], ps);
    assert [] + PiecesValue(ps) == PiecesValue(ps);
  }

  lemma ReadScalar(o: Options, input: seq<byte>, pos: nat, c: Cst, room: int)
    requires Ok(o, c, room) && !c.CArray? && !c.CObject? && At(input, pos, Text(c)) && Stops(input, pos + |Text(c)|)
    ensures pos < |input| && ScalarAt(o, input, pos) == Scalar(Meaning(o, c, room), pos + |Text(c)|)
  {
    hide NumOk, IsInt64, NumText, StrOk, StrText, PiecesValue, ParseString, ScanNumber, Stops, At;
    match c
    case CNum(n) =>
      ReadNumber(o, input, pos, n);
      SpanAt(input, pos, NumText(n));
    case CStr(ps) => ReadString(o, input, pos, ps);
    case _ => ReadWord(o, input, pos, c);
  }

  lemma StopsBefore(s: seq<byte>, e: nat, w: seq<byte>, x: seq<byte>)
    requires AllWs(w) && At(s, e, w + x) && x != [] && (x[0] == COMMA || x[0] == CLOSE_ARRAY || x[0] == CLOSE_OBJECT)
    ensures Stops(s, e)
  {
    FirstAt(s, e, w + x);
    assert (w + x)[0] == if w == [] then x[0] else w[0];
  }

  /** A value of the grammar that stops is read whole, for what it means. */
  lemma {:induction false} ReadText(o: Options, input: seq<byte>, pos: nat, depth: nat, c: Cst)
    requires Ok(o, c, o.maxDepth - depth) && At(input, pos, Text(c)) && Stops(input, pos + |Text(c)|)
    ensures pos <= |input| && ReadVal(o, input, pos, depth) == Read(Meaning(o, c, o.maxDepth - depth), pos + |Text(c)|)
    decreases c, 2
  {
    hide ReadVal, ReadSeq, ReadMap, ScalarAt, Stops, At, Text;
    FirstByteOf(o, c, o.maxDepth - depth);
    FirstAt(input, pos, Text(c));
    match c
    case CArray(_, _) => ReadArrayText(o, input, pos, depth, c);
    case CObject(_, _) => ReadObjectText(o, input, pos, depth, c);
    case _ =>
      ReadScalar(o, input, pos, c, o.maxDepth - depth);
      ScalarValue(o, input, pos, depth);
  }

  lemma ScalarValue(o: Options, input: seq<byte>, pos: nat, depth: nat)
    requires pos < |input| && !IsWs(input[pos]) && ScalarAt(o, input, pos).Scalar?
    ensures var s := ScalarAt(o, input, pos); ReadVal(o, input, pos, depth) == Read(s.value, s.end)
  {
    hide ParseString, ScanNumber, Word;
    assert SkipWs(input, pos) == pos;
  }

  lemma OpenValue(o: Options, input: seq<byte>, pos: nat, depth: nat)
    requires pos < |input| && depth < o.maxDepth
    ensures input[pos] == OPEN_ARRAY ==>
              var r := ReadSeq(o, input, pos + 1, depth + 1, true);
              ReadVal(o, input, pos, depth) == if r.NotReadItems? then NotRead(r.error)
                else Read(JArray(r.items), r.pos)
    ensures input[pos] == OPEN_OBJECT ==>
              var r := ReadMap(o, input, pos + 1, depth + 1, true);
              ReadVal(o, input, pos, depth) == if r.NotReadMembers? then NotRead(r.error)
                else Read(JObject(r.members), r.pos)
  {
    hide ReadSeq, ReadMap, ScalarAt;
    assert input[pos] == OPEN_ARRAY || input[pos] == OPEN_OBJECT ==> SkipWs(input, pos) == pos;
  }

  lemma {:induction false} ReadArrayText(o: Options, input: seq<byte>, pos: nat, depth: nat, c: Cst)
    requires c.CArray? && Ok(o, c, o.maxDepth - depth) && At(input, pos, Text(c))
    ensures pos <= |input| && ReadVal(o, input, pos, depth) == Read(Meaning(o, c, o.maxDepth - depth), pos + |Text(c)|)
    decreases c, 1
  {
    hide ReadVal, ReadSeq, ElemsText, At;
    var body := if c.elems.NoElems? then c.blank + [CLOSE_ARRAY] else ElemsText(c.elems);
    FirstOf(input, pos, OPEN_ARRAY, body);
    OpenValue(o, input, pos, depth);
    if c.elems.NoElems? {
      WsThen(input, pos + 1, c.blank, [CLOSE_ARRAY]);
      CursorCloses(o, input, pos + 1, depth + 1, true, false);
    } else {
      ReadElems(o, input, pos + 1, depth + 1, c.elems);
      ElemsFirst(o, input, pos + 1, depth + 1, c.elems);
    }
  }

  lemma CursorCloses(o: Options, input: seq<byte>, pos: nat, depth: nat, first: bool, obj: bool)
    requires pos <= |input| && SkipWs(input, pos) < |input| && input[SkipWs(input, pos)] == Closer(obj)
    ensures !obj ==> ReadSeq(o, input, pos, depth, first) == ReadItems(NoJsons, SkipWs(input, pos) + 1)
    ensures obj ==> ReadMap(o, input, pos, depth, first) == ReadMembers(NoMembers, SkipWs(input, pos) + 1)
  {
    hide ReadVal, KeyAt, SkipWs;
  }

  /** The answer of a sequence cursor whose next element starts at `p`. */
  function SeqFrom(o: Options, input: seq<byte>, p: nat, depth: nat): (r: ReadItemsResult)
    requires p <= |input|
    ensures r.ReadItems? ==> p < r.pos <= |input|
  {
    match ReadVal(o, input, p, depth)
    case NotRead(e) => NotReadItems(e)
    case Read(v, q) =>
      match ReadSeq(o, input, q, depth, false)
      case NotReadItems(e) => NotReadItems(e)
      case ReadItems(rest, end) => ReadItems(Jsons(v, rest), end)
  }

  function MapFrom(o: Options, input: seq<byte>, p: nat, depth: nat): (r: ReadMembersResult)
    requires p <= |input|
    ensures r.ReadMembers? ==> p < r.pos <= |input|
  {
    match KeyAt(o, input, p)
    case NoKey(e) => NotReadMembers(e)
    case Key(k, m) =>
      match ReadVal(o, input, m, depth)
      case NotRead(e) => NotReadMembers(e)
      case Read(v, q) =>
        match ReadMap(o, input, q, depth, false)
        case NotReadMembers(e) => NotReadMembers(e)
        case ReadMembers(rest, end) => ReadMembers(Members(k, v, rest), end)
  }

  /** The cursor steps to the first element, or over a comma to the next. */
  lemma CursorSteps(o: Options, input: seq<byte>, pos: nat, depth: nat, first: bool, obj: bool)
    requires pos <= |input| && SkipWs(input, pos) < |input|
    requires !first ==> input[SkipWs(input, pos)] == COMMA && SkipWs(input, SkipWs(input, pos) + 1) < |input|
    requires var p := if first then SkipWs(input, pos)
             else SkipWs(input, SkipWs(input, pos) + 1); input[p] != Closer(obj)
    ensures var p := if first then SkipWs(input, pos) else SkipWs(input, SkipWs(input, pos) + 1);
            if obj then ReadMap(o, input, pos, depth, first) == MapFrom(o, input, p, depth)
            else ReadSeq(o, input, pos, depth, first) == SeqFrom(o, input, p, depth)
  {
    hide ReadVal, KeyAt, SkipWs;
    if obj {
      MapStep(o, input, pos, depth, first);
    } else {
      SeqStep(o, input, pos, depth, first);
    }
  }

  lemma SeqStep(o: Options, input: seq<byte>, pos: nat, depth: nat, first: bool)
    requires pos <= |input| && CursorNext(input, pos, first, false).CursorItem?
    ensures ReadSeq(o, input, pos, depth, first) == SeqFrom(o, input, CursorNext(input, pos, first, false).pos, depth)
  {
    hide ReadVal, CursorNext;
  }

  lemma MapStep(o: Options, input: seq<byte>, pos: nat, depth: nat, first: bool)
    requires pos <= |input| && CursorNext(input, pos, first, true).CursorItem?
    ensures ReadMap(o, input, pos, depth, first) == MapFrom(o, input, CursorNext(input, pos, first, true).pos, depth)
  {
    hide ReadVal, CursorNext, KeyAt;
  }

  /** Elements from the first one on, up to the closing bracket; the cursor has just stepped to the first. */
  lemma {:induction false} ReadElems(o: Options, input: seq<byte>, pos: nat, depth: nat, s: CElems)
    requires s.Elems? && ElemsOk(o, s, o.maxDepth - depth) && At(input, pos, ElemsText(s))
    ensures pos + |s.pre| < |input| && SkipWs(input, pos) == pos + |s.pre|
    ensures Text(s.elem) != [] && input[pos + |s.pre|] == Text(s.elem)[0]
    ensures SeqFrom(o, input, pos + |s.pre|, depth)
            == ReadItems(ElemsMeaning(o, s, o.maxDepth - depth), pos + |ElemsText(s)|)
    decreases s, 0
  {
    hide ReadVal, ReadSeq, Text, At, ElemsTail, Ok, Stops;
    var room := o.maxDepth - depth;
    var tail := s.post + ElemsTail(s.rest);
    var t := Text(s.elem);
    FirstByteOf(o, s.elem, room);
    WsThen(input, pos, s.pre, t + tail);
    var p := pos + |s.pre|;
    AtConcat(input, p, t, tail);
    StopsBefore(input, p + |t|, s.post, ElemsTail(s.rest));
    ReadText(o, input, p, depth, s.elem);
    ReadElemsTail(o, input, p + |t|, depth, s.post, s.rest);
  }

  lemma {:induction false} ReadElemsTail(o: Options, input: seq<byte>, pos: nat, depth: nat, post: seq<byte>, s: CElems)
    requires AllWs(post) && ElemsOk(o, s, o.maxDepth - depth) && At(input, pos, post + ElemsTail(s))
    ensures pos <= |input|
    ensures ReadSeq(o, input, pos, depth, false)
            == ReadItems(ElemsMeaning(o, s, o.maxDepth - depth), pos + |post + ElemsTail(s)|)
    decreases s, 1
  {
    hide ReadVal, ReadSeq, Text, At, Ok, SeqFrom, SkipWs, ElemsText;
    WsThen(input, pos, post, ElemsTail(s));
    var p := pos + |post|;
    if s.NoElems? {
      CursorCloses(o, input, pos, depth, false, false);
    } else {
      FirstOf(input, p, COMMA, ElemsText(s));
      ReadElems(o, input, p + 1, depth, s);
      FirstByteOf(o, s.elem, o.maxDepth - depth);
      CursorSteps(o, input, pos, depth, false, false);
    }
  }

  lemma ElemsFirst(o: Options, input: seq<byte>, pos: nat, depth: nat, s: CElems)
    requires s.Elems? && Ok(o, s.elem, o.maxDepth - depth) && pos + |s.pre| < |input|
             && SkipWs(input, pos) == pos + |s.pre|
    requires Text(s.elem) != [] && input[pos + |s.pre|] == Text(s.elem)[0]
    ensures ReadSeq(o, input, pos, depth, true) == SeqFrom(o, input, pos + |s.pre|, depth)
  {
    hide ReadSeq, SeqFrom, Text, Ok;
    FirstByteOf(o, s.elem, o.maxDepth - depth);
    CursorSteps(o, input, pos, depth, true, false);
  }

  lemma {:induction false} ReadObjectText(o: Options, input: seq<byte>, pos: nat, depth: nat, c: Cst)
    requires c.CObject? && Ok(o, c, o.maxDepth - depth) && At(input, pos, Text(c))
    ensures pos <= |input| && ReadVal(o, input, pos, depth) == Read(Meaning(o, c, o.maxDepth - depth), pos + |Text(c)|)
    decreases c, 1
  {
    hide ReadVal, ReadMap, MemsText, At, MapFrom;
    var body := if c.mems.NoMems? then c.blank + [CLOSE_OBJECT] else MemsText(c.mems);
    FirstOf(input, pos, OPEN_OBJECT, body);
    OpenValue(o, input, pos, depth);
    if c.mems.NoMems? {
      WsThen(input, pos + 1, c.blank, [CLOSE_OBJECT]);
      CursorCloses(o, input, pos + 1, depth + 1, true, true);
    } else {
      ReadMems(o, input, pos + 1, depth + 1, c.mems);
      CursorSteps(o, input, pos + 1, depth + 1, true, true);
    }
  }

  /** A key with its colon. */
  lemma ReadKey(o: Options, input: seq<byte>, p: nat, key: seq<Piece>, mid: seq<byte>, x: seq<byte>)
    requires StrOk(o, key) && AllWs(mid) && At(input, p, StrText(key) + (mid + ([COLON] + x)))
    ensures p <= |input| && KeyAt(o, input, p) == Key(PiecesValue(key), p + |StrText(key)| + |mid| + 1)
    ensures At(input, p + |StrText(key)| + |mid| + 1, x)
  {
    hide ParseString, StrOk, PiecesValue, StrText, At;
    AtConcat(input, p, StrText(key), mid + ([COLON] + x));
    ReadString(o, input, p, key);
    WsRun(input, p, p);
    var e := p + |StrText(key)|;
    WsThen(input, e, mid, [COLON] + x);
    FirstOf(input, e + |mid|, COLON, x);
  }

  lemma ValueAfterGap(o: Options, input: seq<byte>, pos: nat, depth: nat, p: nat)
    requires pos <= p < |input| && SkipWs(input, pos) == p
    ensures ReadVal(o, input, pos, depth) == ReadVal(o, input, p, depth)
  {
    hide ReadSeq, ReadMap, ScalarAt;
    assert SkipWs(input, p) == p;
  }

  /** Where the value part of a member begins, behind its key and colon. */
  function ValuePart(pos: nat, s: CMems): nat
    requires s.Mems?
  {
    pos + |s.pre| + |StrText(s.key)| + |s.mid| + 1
  }

  /** The key of a member, blanks around it included. */
  lemma ReadMemKey(o: Options, input: seq<byte>, pos: nat, s: CMems)
    requires s.Mems? && AllWs(s.pre) && AllWs(s.mid) && StrOk(o, s.key) && At(input, pos, MemsText(s))
    ensures var p, m := pos + |s.pre|, ValuePart(pos, s);
            && p < |input| && SkipWs(input, pos) == p && input[p] == QUOTE
            && KeyAt(o, input, p) == Key(PiecesValue(s.key), m)
            && At(input, m, s.gap + (Text(s.val) + (s.post + MemsTail(s.rest))))
  {
    hide KeyAt, Text, StrText, StrOk, At, MemsTail, SkipWs, PiecesValue;
    var x := s.gap + (Text(s.val) + (s.post + MemsTail(s.rest)));
    QuoteFirst(s.key, s.mid + ([COLON] + x));
    WsThen(input, pos, s.pre, StrText(s.key) + (s.mid + ([COLON] + x)));
    ReadKey(o, input, pos + |s.pre|, s.key, s.mid, x);
  }

  lemma QuoteFirst(key: seq<Piece>, x: seq<byte>)
    ensures var t := StrText(key) + x; t != [] && t[0] == QUOTE && !IsWs(t[0])
  {
  }

  /** The value of a member, at `m`; `e` is where it ends. */
  lemma {:induction false} ReadMemValue(o: Options, input: seq<byte>, m: nat, depth: nat, s: CMems)
    requires s.Mems? && AllWs(s.gap) && AllWs(s.post) && Ok(o, s.val, o.maxDepth - depth)
    requires At(input, m, s.gap + (Text(s.val) + (s.post + MemsTail(s.rest))))
    ensures var e := m + |s.gap| + |Text(s.val)|;
            && m <= |input| && ReadVal(o, input, m, depth) == Read(Meaning(o, s.val, o.maxDepth - depth), e)
            && At(input, e, s.post + MemsTail(s.rest))
    decreases s, 0
  {
    hide ReadVal, Text, At, MemsTail, Ok, Stops, SkipWs;
    var tail := s.post + MemsTail(s.rest);
    var t := Text(s.val);
    FirstByteOf(o, s.val, o.maxDepth - depth);
    WsThen(input, m, s.gap, t + tail);
    var v := m + |s.gap|;
    ValueAfterGap(o, input, m, depth, v);
    AtConcat(input, v, t, tail);
    StopsBefore(input, v + |t|, s.post, MemsTail(s.rest));
    ReadText(o, input, v, depth, s.val);
  }

  lemma {:induction false} ReadMems(o: Options, input: seq<byte>, pos: nat, depth: nat, s: CMems)
    requires s.Mems? && MemsOk(o, s, o.maxDepth - depth) && At(input, pos, MemsText(s))
    ensures pos + |s.pre| < |input| && SkipWs(input, pos) == pos + |s.pre| && input[pos + |s.pre|] == QUOTE
    ensures MapFrom(o, input, pos + |s.pre|, depth)
            == ReadMembers(MemsMeaning(o, s, o.maxDepth - depth), pos + |MemsText(s)|)
    decreases s, 1
  {
    hide ReadVal, ReadMap, KeyAt, Text, StrText, StrOk, At, MemsTail, Ok, SkipWs, MapFrom, PiecesValue;
    ReadMemKey(o, input, pos, s);
    var m := ValuePart(pos, s);
    ReadMemValue(o, input, m, depth, s);
    var e := m + |s.gap| + |Text(s.val)|;
    ReadMemsTail(o, input, e, depth, s.post, s.rest);
    MapFromIs(o, input, pos + |s.pre|, depth);
  }

  lemma MapFromIs(o: Options, input: seq<byte>, p: nat, depth: nat)
    requires p <= |input| && KeyAt(o, input, p).Key? && ReadVal(o, input, KeyAt(o, input, p).end, depth).Read?
    requires ReadMap(o, input, ReadVal(o, input, KeyAt(o, input, p).end, depth).pos, depth, false).ReadMembers?
    ensures var k := KeyAt(o, input, p);
            var v := ReadVal(o, input, k.end, depth);
            var rest := ReadMap(o, input, v.pos, depth, false);
            MapFrom(o, input, p, depth) == ReadMembers(Members(k.text, v.value, rest.members), rest.pos)
  {
    hide KeyAt, ReadVal, ReadMap;
  }

  lemma {:induction false} ReadMemsTail(o: Options, input: seq<byte>, pos: nat, depth: nat, post: seq<byte>, s: CMems)
    requires AllWs(post) && MemsOk(o, s, o.maxDepth - depth) && At(input, pos, post + MemsTail(s))
    ensures pos <= |input|
    ensures ReadMap(o, input, pos, depth, false)
            == ReadMembers(MemsMeaning(o, s, o.maxDepth - depth), pos + |post + MemsTail(s)|)
    decreases s, 2
  {
    hide ReadVal, ReadMap, Text, At, Ok, MapFrom, StrOk, StrText, SkipWs, MemsText;
    WsThen(input, pos, post, MemsTail(s));
    var p := pos + |post|;
    if s.NoMems? {
      CursorCloses(o, input, pos, depth, false, true);
    } else {
      FirstOf(input, p, COMMA, MemsText(s));
      ReadMems(o, input, p + 1, depth, s);
      CursorSteps(o, input, pos, depth, false, true);
    }
  }

  // ---- whatever is read is a text ----

  lemma WsSpan(input: seq<byte>, pos: nat)
    requires pos <= |input|
    ensures AllWs(input[pos..SkipWs(input, pos)])
  {
    hide SkipWs;
  }

  lemma NumberFound(o: Options, input: seq<byte>, pos: nat) returns (c: Cst)
    requires pos < |input| && !ScanNumber(o.overflows, input, pos).BadNumber?
    ensures var r := ScanNumber(o.overflows, input, pos);
            c.CNum? && NumOk(c.n) && NumText(c.n) == input[pos..r.end] && (!IsInt64(c.n) ==> !o.overflows(NumText(c.n)))
            && (r == if IsInt64(c.n) then IntScan(r.end, NumInt(c.n)) else RealScan(r.end))
  {
    hide ScanExtents, DecValue, FracText, ExpText;
    var end := ScanExtents(input, pos).end;
    var n := NumFound(input, pos);
    c := CNum(n);
    var s := input[..end];
    assert s[pos..] == input[pos..end];
    ScanCut(input, pos, end);
    NumWhole(s, pos, n);
    assert (input[pos] == MINUS) == n.neg by {
      assert Digit(n.whole[0]);
      assert input[pos] == NumText(n)[0];
    }
    assert IntStart(s, pos) == IntStart(input, pos);
    assert s[IntStart(s, pos)..ScanExtents(s, pos).whole] == input[IntStart(s, pos)..ScanExtents(s, pos).whole];
  }

  /** Cutting the input where a number ends does not change the number. */
  lemma ScanCut(input: seq<byte>, pos: nat, end: nat)
    requires pos < |input| && ScanExtents(input, pos).Extents? && ScanExtents(input, pos).end == end
    ensures ScanExtents(input[..end], pos) == ScanExtents(input, pos)
  {
    hide IntEnd, FracEnd, ExpEnd;
    var i := IntStart(input, pos);
    var w := ScanExtents(input, pos).whole;
    CutInt(input, end, i);
    CutFrac(input, end, w);
    CutExp(input, end, FracEnd(input, w).value);
  }

  lemma CutInt(input: seq<byte>, end: nat, i: nat)
    requires end <= |input| && IntEnd(input, i).Some? && IntEnd(input, i).value <= end
    ensures IntEnd(input[..end], i) == IntEnd(input, i)
  {
    CutDigits(input, end, i + 1);
  }

  lemma CutFrac(input: seq<byte>, end: nat, i: nat)
    requires i <= end <= |input| && FracEnd(input, i).Some? && FracEnd(input, i).value <= end
    ensures FracEnd(input[..end], i) == FracEnd(input, i)
  {
    if i < end {
      CutDigits(input, end, i + 1);
    }
  }

  lemma CutExp(input: seq<byte>, end: nat, i: nat)
    requires i <= end <= |input| && ExpEnd(input, i).Some? && ExpEnd(input, i).value <= end
    ensures i < end ==> ExpEnd(input[..end], i) == ExpEnd(input, i)
    ensures i == end ==> ExpEnd(input[..end], i) == Some(i)
  {
    if i < end && IsE(input[i]) {
      CutDigits(input, end, SignEnd(input, i + 1));
    }
  }

  lemma {:induction false} CutDigits(input: seq<byte>, end: nat, i: nat)
    requires i <= end <= |input|
    ensures DigitsEnd(input, i) <= end ==> DigitsEnd(input[..end], i) == DigitsEnd(input, i)
    decreases end - i
  {
    if i < end && Digit(input[i]) {
      CutDigits(input, end, i + 1);
    }
  }

  lemma StringFound(o: Options, input: seq<byte>, pos: nat) returns (ps: seq<Piece>)
    requires pos < |input| && input[pos] == QUOTE && ParseString(o.validateUtf8, input, pos).String?
    ensures var r := ParseString(o.validateUtf8, input, pos);
            StrOk(o, ps) && StrText(ps) == input[pos..r.end] && PiecesValue(ps) == r.text
  {
    hide ParseFrom, WellFormed, PiecesOk, PiecesText, PiecesValue;
    var r := ParseString(o.validateUtf8, input, pos);
    ps := PiecesFound(o.validateUtf8, input, pos, pos + 1, []);
    assert [] + PiecesValue(ps) == PiecesValue(ps);
    assert input[pos..r.end] == [QUOTE] + input[pos + 1..r.end];
    assert input[pos + 1..r.end - 1] == input[pos + 1..r.end][..r.end - 1 - (pos + 1)] == PiecesText(ps);
  }

  lemma ScalarFound(o: Options, input: seq<byte>, pos: nat, room: int) returns (c: Cst)
    requires pos < |input| && ScalarAt(o, input, pos).Scalar?
    ensures var r := ScalarAt(o, input, pos);
            Ok(o, c, room) && Text(c) == input[pos..r.end] && Meaning(o, c, room) == r.value
  {
    hide ParseString, ScanNumber, StrText, StrOk, PiecesValue, NumText, NumOk, IsInt64;
    var b := input[pos];
    if b == QUOTE {
      var ps := StringFound(o, input, pos);
      c := CStr(ps);
    } else if b == TRUE_WORD[0] {
      c := CTrue;
    } else if b == FALSE_WORD[0] {
      c := CFalse;
    } else if b == NULL_WORD[0] {
      c := CNull;
    } else {
      c := NumberFound(o, input, pos);
    }
  }

  /** Every accepted value is white space and a text of the grammar with that meaning. */
  lemma {:induction false} ValueFound(o: Options, input: seq<byte>, pos: nat, depth: nat) returns (w: seq<byte>, c: Cst)
    requires pos <= |input| && ReadVal(o, input, pos, depth).Read?
    ensures var r := ReadVal(o, input, pos, depth);
            AllWs(w) && Ok(o, c, o.maxDepth - depth) && input[pos..r.pos] == w + Text(c)
              && Meaning(o, c, o.maxDepth - depth) == r.value
    decreases |input| - pos, 1
  {
    hide ReadSeq, ReadMap, ScalarAt, Text, SkipWs;
    var p := SkipWs(input, pos);
    var end := ReadVal(o, input, pos, depth).pos;
    WsSpan(input, pos);
    w := input[pos..p];
    if input[p] == OPEN_ARRAY {
      c := ArrayFound(o, input, p, depth);
    } else if input[p] == OPEN_OBJECT {
      c := ObjectFound(o, input, p, depth);
    } else {
      c := ScalarFound(o, input, p, o.maxDepth - depth);
    }
    assert input[pos..end] == w + input[p..end];
  }

  lemma {:induction false} ArrayFound(o: Options, input: seq<byte>, p: nat, depth: nat) returns (c: Cst)
    requires p < |input| && input[p] == OPEN_ARRAY && depth < o.maxDepth
             && ReadSeq(o, input, p + 1, depth + 1, true).ReadItems?
    ensures var r := ReadSeq(o, input, p + 1, depth + 1, true);
            Ok(o, c, o.maxDepth - depth) && Text(c) == input[p..r.pos]
              && Meaning(o, c, o.maxDepth - depth) == JArray(r.items)
    decreases |input| - p, 0
  {
    hide ReadSeq, SeqFrom, ElemsText, SkipWs;
    var r := ReadSeq(o, input, p + 1, depth + 1, true);
    var q := SkipWs(input, p + 1);
    SeqCursor(o, input, p + 1, depth + 1, true);
    WsSpan(input, p + 1);
    if input[q] == CLOSE_ARRAY {
      CursorCloses(o, input, p + 1, depth + 1, true, false);
      c := CArray(input[p + 1..q], NoElems);
      assert input[p..q + 1] == [OPEN_ARRAY] + (input[p + 1..q] + [CLOSE_ARRAY]);
    } else {
      SeqStep(o, input, p + 1, depth + 1, true);
      SeqGap(o, input, p + 1, depth + 1);
      var s := ElemsFound(o, input, p + 1, depth + 1);
      c := CArray([], s);
      assert input[p..r.pos] == [OPEN_ARRAY] + input[p + 1..r.pos];
    }
  }

  lemma SeqCursor(o: Options, input: seq<byte>, pos: nat, depth: nat, first: bool)
    requires pos <= |input| && ReadSeq(o, input, pos, depth, first).ReadItems?
    ensures !CursorNext(input, pos, first, false).CursorError?
  {
    hide ReadVal, CursorNext;
  }

  lemma MapCursor(o: Options, input: seq<byte>, pos: nat, depth: nat, first: bool)
    requires pos <= |input| && ReadMap(o, input, pos, depth, first).ReadMembers?
    ensures !CursorNext(input, pos, first, true).CursorError?
  {
    hide ReadVal, CursorNext, KeyAt;
  }

  /** White space in front of an element does not matter. */
  lemma SeqGap(o: Options, input: seq<byte>, pos: nat, depth: nat)
    requires pos <= |input| && SeqFrom(o, input, SkipWs(input, pos), depth).ReadItems?
    ensures SeqFrom(o, input, pos, depth) == SeqFrom(o, input, SkipWs(input, pos), depth)
  {
    hide ReadVal, ReadSeq, SkipWs;
    var p := SkipWs(input, pos);
    if p < |input| {
      ValueAfterGap(o, input, pos, depth, p);
    } else {
      NothingThere(o, input, depth);
    }
  }

  lemma NothingThere(o: Options, input: seq<byte>, depth: nat)
    ensures ReadVal(o, input, |input|, depth).NotRead?
    ensures KeyAt(o, input, |input|).NoKey?
  {
  }

  lemma {:induction false} ElemsFound(o: Options, input: seq<byte>, pos: nat, depth: nat) returns (s: CElems)
    requires pos <= |input| && SeqFrom(o, input, pos, depth).ReadItems?
    ensures var r := SeqFrom(o, input, pos, depth);
            s.Elems? && ElemsOk(o, s, o.maxDepth - depth) && ElemsText(s) == input[pos..r.pos]
            && ElemsMeaning(o, s, o.maxDepth - depth) == r.items
    decreases |input| - pos, 2
  {
    hide ReadVal, ReadSeq, Text, ElemsTail, Ok;
    var end := SeqFrom(o, input, pos, depth).pos;
    var q := ReadVal(o, input, pos, depth).pos;
    var w, c := ValueFound(o, input, pos, depth);
    var post, rest := ElemsTailFound(o, input, q, depth);
    s := Elems(w, c, post, rest);
    assert input[pos..end] == input[pos..q] + input[q..end];
    assert w + Text(c) + (post + ElemsTail(rest)) == w + (Text(c) + (post + ElemsTail(rest)));
  }

  lemma {:induction false} ElemsTailFound(o: Options, input: seq<byte>, pos: nat, depth: nat)
    returns (post: seq<byte>, s: CElems)
    requires pos <= |input| && ReadSeq(o, input, pos, depth, false).ReadItems?
    ensures var r := ReadSeq(o, input, pos, depth, false);
            AllWs(post) && ElemsOk(o, s, o.maxDepth - depth) && post + ElemsTail(s) == input[pos..r.pos]
            && ElemsMeaning(o, s, o.maxDepth - depth) == r.items
    decreases |input| - pos, 0
  {
    hide ReadSeq, SeqFrom, ElemsText, SkipWs;
    var p := SkipWs(input, pos);
    var end := ReadSeq(o, input, pos, depth, false).pos;
    SeqCursor(o, input, pos, depth, false);
    WsSpan(input, pos);
    post := input[pos..p];
    if input[p] == CLOSE_ARRAY {
      CursorCloses(o, input, pos, depth, false, false);
      s := NoElems;
      assert input[pos..p + 1] == post + [CLOSE_ARRAY];
    } else {
      SeqStep(o, input, pos, depth, false);
      SeqGap(o, input, p + 1, depth);
      s := ElemsFound(o, input, p + 1, depth);
      assert input[pos..end] == post + ([COMMA] + input[p + 1..end]);
    }
  }

  lemma {:induction false} ObjectFound(o: Options, input: seq<byte>, p: nat, depth: nat) returns (c: Cst)
    requires p < |input| && input[p] == OPEN_OBJECT && depth < o.maxDepth
             && ReadMap(o, input, p + 1, depth + 1, true).ReadMembers?
    ensures var r := ReadMap(o, input, p + 1, depth + 1, true);
            Ok(o, c, o.maxDepth - depth) && Text(c) == input[p..r.pos]
              && Meaning(o, c, o.maxDepth - depth) == JObject(r.members)
    decreases |input| - p, 0
  {
    hide ReadMap, MapFrom, MemsText, SkipWs;
    var r := ReadMap(o, input, p + 1, depth + 1, true);
    var q := SkipWs(input, p + 1);
    MapCursor(o, input, p + 1, depth + 1, true);
    WsSpan(input, p + 1);
    if input[q] == CLOSE_OBJECT {
      CursorCloses(o, input, p + 1, depth + 1, true, true);
      c := CObject(input[p + 1..q], NoMems);
      assert input[p..q + 1] == [OPEN_OBJECT] + (input[p + 1..q] + [CLOSE_OBJECT]);
    } else {
      MapStep(o, input, p + 1, depth + 1, true);
      MapGap(o, input, p + 1, depth + 1);
      var s := MemsFound(o, input, p + 1, depth + 1);
      c := CObject([], s);
      assert input[p..r.pos] == [OPEN_OBJECT] + input[p + 1..r.pos];
    }
  }

  lemma MapGap(o: Options, input: seq<byte>, pos: nat, depth: nat)
    requires pos <= |input|
    ensures MapFrom(o, input, pos, depth) == MapFrom(o, input, SkipWs(input, pos), depth)
  {
    hide ReadVal, ReadMap, KeyAt, SkipWs;
    KeyGap(o, input, pos);
  }

  lemma KeyGap(o: Options, input: seq<byte>, pos: nat)
    requires pos <= |input|
    ensures KeyAt(o, input, pos) == KeyAt(o, input, SkipWs(input, pos))
  {
    hide ParseString;
  }

  lemma KeyFound(o: Options, input: seq<byte>, pos: nat) returns (pre: seq<byte>, key: seq<Piece>, mid: seq<byte>)
    requires pos <= |input| && KeyAt(o, input, pos).Key?
    ensures var r := KeyAt(o, input, pos);
            AllWs(pre) && AllWs(mid) && StrOk(o, key) && PiecesValue(key) == r.text
            && input[pos..r.end] == pre + (StrText(key) + (mid + [COLON]))
  {
    hide ParseString, StrOk, StrText, PiecesValue, SkipWs;
    var p := SkipWs(input, pos);
    var e := ParseString(o.validateUtf8, input, p).end;
    var q := SkipWs(input, e);
    WsSpan(input, pos);
    WsSpan(input, e);
    pre, mid := input[pos..p], input[e..q];
    key := StringFound(o, input, p);
    Parts(input, pos, p, e, q, q + 1);
    assert input[q..q + 1] == [COLON];
  }

  lemma {:induction false} MemsFound(o: Options, input: seq<byte>, pos: nat, depth: nat) returns (s: CMems)
    requires pos <= |input| && MapFrom(o, input, pos, depth).ReadMembers?
    ensures var r := MapFrom(o, input, pos, depth);
            s.Mems? && MemsOk(o, s, o.maxDepth - depth) && MemsText(s) == input[pos..r.pos]
            && MemsMeaning(o, s, o.maxDepth - depth) == r.members
    decreases |input| - pos, 2
  {
    hide ReadVal, ReadMap, KeyAt, Text, MemsTail, Ok, StrOk, StrText, PiecesValue;
    var end := MapFrom(o, input, pos, depth).pos;
    var m := KeyAt(o, input, pos).end;
    var q := ReadVal(o, input, m, depth).pos;
    var pre, key, mid := KeyFound(o, input, pos);
    var gap, c := ValueFound(o, input, m, depth);
    var post, rest := MemsTailFound(o, input, q, depth);
    s := Mems(pre, key, mid, gap, c, post, rest);
    assert input[pos..end] == input[pos..m] + (input[m..q] + input[q..end]);
    Regroup(pre, StrText(key), mid, [COLON], gap + Text(c) + (post + MemsTail(rest)));
    assert gap + Text(c) + (post + MemsTail(rest)) == gap + (Text(c) + (post + MemsTail(rest)));
  }

  lemma Regroup(a: seq<byte>, b: seq<byte>, c: seq<byte>, d: seq<byte>, e: seq<byte>)
    ensures a + (b + (c + d)) + e == a + (b + (c + (d + e)))
  {
  }

  lemma {:induction false} MemsTailFound(o: Options, input: seq<byte>, pos: nat, depth: nat)
    returns (post: seq<byte>, s: CMems)
    requires pos <= |input| && ReadMap(o, input, pos, depth, false).ReadMembers?
    ensures var r := ReadMap(o, input, pos, depth, false);
            AllWs(post) && MemsOk(o, s, o.maxDepth - depth) && post + MemsTail(s) == input[pos..r.pos]
            && MemsMeaning(o, s, o.maxDepth - depth) == r.members
    decreases |input| - pos, 0
  {
    hide ReadMap, MapFrom, MemsText, SkipWs;
    var p := SkipWs(input, pos);
    var end := ReadMap(o, input, pos, depth, false).pos;
    MapCursor(o, input, pos, depth, false);
    WsSpan(input, pos);
    post := input[pos..p];
    if input[p] == CLOSE_OBJECT {
      CursorCloses(o, input, pos, depth, false, true);
      s := NoMems;
      assert input[pos..p + 1] == post + [CLOSE_OBJECT];
    } else {
      MapStep(o, input, pos, depth, false);
      MapGap(o, input, p + 1, depth);
      s := MemsFound(o, input, p + 1, depth);
      assert input[pos..end] == post + ([COMMA] + input[p + 1..end]);
    }
  }

  // ---- the theorem ----

  /** A document: a value, then finish() finds nothing but white space. */
  predicate Accepts(o: Options, input: seq<byte>, v: Json) {
    var r := ReadVal(o, input, 0, 0);
    r.Read? && r.value == v && SkipWs(input, r.pos) == |input|
  }

  /** `input` is a JSON text (section 2 of RFC 8259) with meaning `v`. */
  ghost predicate IsText(o: Options, input: seq<byte>, v: Json, before: seq<byte>, c: Cst, after: seq<byte>) {
    AllWs(before) && AllWs(after) && Ok(o, c, o.maxDepth) && input == before + (Text(c) + after)
      && Meaning(o, c, o.maxDepth) == v
  }

  /** The reader accepts exactly the JSON texts within the depth limit, for what they mean. */
  lemma GrammarExact(o: Options, input: seq<byte>, v: Json)
    ensures Accepts(o, input, v) <==> exists before, c, after :: IsText(o, input, v, before, c, after)
  {
    hide ReadVal, SkipWs, Text, Ok, Meaning;
    if Accepts(o, input, v) {
      var w, c := ValueFound(o, input, 0, 0);
      var end := ReadVal(o, input, 0, 0).pos;
      WsSpan(input, end);
      assert input == input[0..end] + input[end..|input|];
      assert w + Text(c) + input[end..|input|] == w + (Text(c) + input[end..|input|]);
      assert IsText(o, input, v, w, c, input[end..|input|]);
    }
    if before, c, after :| IsText(o, input, v, before, c, after) {
      TextAccepted(o, input, v, before, c, after);
    }
  }

  lemma TextAccepted(o: Options, input: seq<byte>, v: Json, before: seq<byte>, c: Cst, after: seq<byte>)
    requires IsText(o, input, v, before, c, after)
    ensures Accepts(o, input, v)
  {
    hide ReadVal, SkipWs, Text, Ok, Meaning;
    FirstByteOf(o, c, o.maxDepth);
    var t := Text(c);
    assert input[0..0 + |before + (t + after)|] == before + (t + after);
    WsThen(input, 0, before, t + after);
    var p := |before|;
    AtConcat(input, p, t, after);
    AfterStops(input, p + |t|, after);
    ReadText(o, input, p, 0, c);
    ValueAfterGap(o, input, 0, 0, p);
  }

  lemma AfterStops(input: seq<byte>, e: nat, after: seq<byte>)
    requires At(input, e, after) && e + |after| == |input| && AllWs(after)
    ensures Stops(input, e) && SkipWs(input, e) == |input|
  {
    forall k | e <= k < |input|
      ensures IsWs(input[k])
    {
      assert input[k] == after[k - e];
    }
    WsRun(input, e, |input|);
  }
}
