/** What the JSON writer writes, in compact or pretty form, the reader reads back as the same tree. */
module JsonRoundTrip {
  import opened Bytes
  import opened Utf8
  import opened JsonNumber
  import opened JsonString
  import opened JsonSpec
  import opened JsonGrammar
  import W = JsonWriterSpec

  // ---- the syntax tree of a rendered value ----

  function NumOf(i: int): Num {
    Num(i < 0, Dec(if i < 0 then -i else i), [], NoExp)
  }

  function CstOf(o: W.WriterOptions, t: Json, depth: nat): Cst {
    match t
    case JNull => CNull
    case JBool(b) => if b then CTrue else CFalse
    case JInt(i) => CNum(NumOf(i))
    case JReal(_) => CNull
    case JText(s) => CStr(EscapePieces(s))
    case JArray(items) => CArray([], ElemsOf(o, items, depth + 1))
    case JObject(members) => CObject([], MemsOf(o, members, depth + 1))
  }

  /** The last element is followed by the line of the closing bracket. */
  function ElemsOf(o: W.WriterOptions, s: Jsons, depth: nat): CElems
    requires depth > 0
  {
    if s.NoJsons? then NoElems
    else Elems(W.Newline(o, depth), CstOf(o, s.head, depth), if s.tail.NoJsons? then W.Newline(o, depth - 1) else [],
               ElemsOf(o, s.tail, depth))
  }

  function MemsOf(o: W.WriterOptions, s: Members, depth: nat): CMems
    requires depth > 0
  {
    if s.NoMembers? then NoMems
    else Mems(W.Newline(o, depth), EscapePieces(s.key), [], if o.pretty then [0x20] else [], CstOf(o, s.val, depth),
              if s.rest.NoMembers? then W.Newline(o, depth - 1) else [], MemsOf(o, s.rest, depth))
  }

  // ---- its text is what was written ----

  lemma StringText(s: seq<byte>)
    ensures StrText(EscapePieces(s)) == Quoted(s)
  {
    hide Escaped, PiecesText;
    EscapePiecesAre(s);
  }

  lemma IntText(i: int)
    ensures NumText(NumOf(i)) == DecInt(i)
  {
    hide Dec;
    var ds := Dec(if i < 0 then -i else i);
    assert ds + ([] + []) == ds && [] + ds == ds;
  }

  lemma {:induction false} RenderIsText(o: W.WriterOptions, t: Json, depth: nat)
    requires W.Plain(t)
    ensures Text(CstOf(o, t, depth)) == W.Render(o, t, depth)
    decreases t, 1
  {
    hide StrText, Quoted, NumText, DecInt, NumOf, W.Newline, ElemsText, MemsText, W.RenderItems, W.RenderMembers;
    match t
    case JInt(i) => IntText(i);
    case JText(s) => StringText(s);
    case JArray(items) =>
      if items.Jsons? {
        ItemsText(o, items, depth + 1);
        FirstItem(o, items, depth + 1);
      } else {
        NoItemText(o, depth + 1);
      }
    case JObject(members) =>
      if members.Members? {
        MembersText(o, members, depth + 1);
        FirstMember(o, members, depth + 1);
      } else {
        NoItemText(o, depth + 1);
      }
    case _ =>
  }

  lemma NoItemText(o: W.WriterOptions, depth: nat)
    ensures W.RenderItems(o, NoJsons, depth, true) == [] && W.RenderMembers(o, NoMembers, depth, true) == []
  {
  }

  lemma FirstItem(o: W.WriterOptions, s: Jsons, depth: nat)
    requires s.Jsons?
    ensures W.RenderItems(o, s, depth, false) == [COMMA] + W.RenderItems(o, s, depth, true)
  {
    hide W.Render, W.Newline;
  }

  lemma FirstMember(o: W.WriterOptions, s: Members, depth: nat)
    requires s.Members?
    ensures W.RenderMembers(o, s, depth, false) == [COMMA] + W.RenderMembers(o, s, depth, true)
  {
    hide W.Render, W.Newline, Quoted;
  }

  lemma {:induction false} ItemsText(o: W.WriterOptions, s: Jsons, depth: nat)
    requires W.PlainItems(s) && s.Jsons? && depth > 0
    ensures ElemsText(ElemsOf(o, s, depth))
            == W.RenderItems(o, s, depth, true) + (W.Newline(o, depth - 1) + [CLOSE_ARRAY])
    decreases s, 0
  {
    hide Text, CstOf, W.Render, W.Newline, W.Plain;
    RenderIsText(o, s.head, depth);
    var nl, v, close := W.Newline(o, depth), W.Render(o, s.head, depth), W.Newline(o, depth - 1) + [CLOSE_ARRAY];
    assert W.Lead(o, depth, true) == nl;
    if s.tail.NoJsons? {
      assert nl + (v + close) == nl + (v + []) + close;
    } else {
      ItemsText(o, s.tail, depth);
      FirstItem(o, s.tail, depth);
      var rest := W.RenderItems(o, s.tail, depth, true);
      assert [] + ([COMMA] + (rest + close)) == [COMMA] + rest + close;
      assert nl + (v + ([COMMA] + rest + close)) == nl + (v + ([COMMA] + rest)) + close;
    }
  }

  lemma {:induction false} MembersText(o: W.WriterOptions, s: Members, depth: nat)
    requires W.PlainMembers(s) && s.Members? && depth > 0
    ensures MemsText(MemsOf(o, s, depth))
            == W.RenderMembers(o, s, depth, true) + (W.Newline(o, depth - 1) + [CLOSE_OBJECT])
    decreases s, 0
  {
    hide Text, CstOf, W.Render, W.Newline, W.Plain, StrText, Quoted, MemsText, MemsTail, MemsOf;
    RenderIsText(o, s.val, depth);
    StringText(s.key);
    var nl, v, close := W.Newline(o, depth), W.Render(o, s.val, depth), W.Newline(o, depth - 1) + [CLOSE_OBJECT];
    var key, gap := Quoted(s.key), if o.pretty then [0x20] else [];
    assert W.Lead(o, depth, true) == nl && W.AfterColon(o) == [COLON] + gap;
    var rest := W.RenderMembers(o, s.rest, depth, false);
    var tail := (if s.rest.NoMembers? then W.Newline(o, depth - 1) else []) + MemsTail(MemsOf(o, s.rest, depth));
    MembersTail(o, s.rest, depth);
    MemberShape(o, s, depth, tail);
    Regrouped(nl, key, gap, v, rest, close);
  }

  lemma {:induction false} MembersTail(o: W.WriterOptions, s: Members, depth: nat)
    requires W.PlainMembers(s) && depth > 0
    ensures (if s.NoMembers? then W.Newline(o, depth - 1) else []) + MemsTail(MemsOf(o, s, depth))
            == W.RenderMembers(o, s, depth, false) + (W.Newline(o, depth - 1) + [CLOSE_OBJECT])
    decreases s, 1
  {
    hide MemsText, W.Newline;
    var close := W.Newline(o, depth - 1) + [CLOSE_OBJECT];
    if s.NoMembers? {
      assert [] + close == close;
    } else {
      MembersText(o, s, depth);
      FirstMember(o, s, depth);
      assert [] + ([COMMA] + (W.RenderMembers(o, s, depth, true) + close))
             == [COMMA] + W.RenderMembers(o, s, depth, true) + close;
    }
  }

  lemma MemberShape(o: W.WriterOptions, s: Members, depth: nat, tail: seq<byte>)
    requires s.Members? && depth > 0
    requires tail == (if s.rest.NoMembers? then W.Newline(o, depth - 1) else []) + MemsTail(MemsOf(o, s.rest, depth))
    ensures MemsText(MemsOf(o, s, depth))
            == W.Newline(o, depth)
               + (StrText(EscapePieces(s.key))
                  + ([COLON] + ((if o.pretty then [0x20] else []) + (Text(CstOf(o, s.val, depth)) + tail))))
  {
    hide Text, CstOf, W.Newline, StrText, MemsTail;
    var x := [COLON] + ((if o.pretty then [0x20] else []) + (Text(CstOf(o, s.val, depth)) + tail));
    assert [] + x == x;
  }

  lemma Regrouped(a: seq<byte>, b: seq<byte>, gap: seq<byte>, d: seq<byte>, e: seq<byte>, f: seq<byte>)
    ensures a + (b + ([COLON] + (gap + (d + (e + f))))) == a + (b + ([COLON] + gap + (d + e))) + f
  {
  }

  // ---- it is well-formed and means the tree ----

  /** Nested at most `room` deep, with UTF-8 texts if the reader validates them. */
  predicate Fits(o: Options, t: Json, room: int) {
    match t
    case JText(s) => o.validateUtf8 ==> WellFormed(s)
    case JArray(items) => room > 0 && FitItems(o, items, room - 1)
    case JObject(members) => room > 0 && FitMembers(o, members, room - 1)
    case _ => true
  }

  predicate FitItems(o: Options, s: Jsons, room: int) {
    s.NoJsons? || (Fits(o, s.head, room) && FitItems(o, s.tail, room))
  }

  predicate FitMembers(o: Options, s: Members, room: int) {
    s.NoMembers? || ((o.validateUtf8 ==> WellFormed(s.key)) && Fits(o, s.val, room) && FitMembers(o, s.rest, room))
  }

  lemma NewlineWs(o: W.WriterOptions, depth: nat)
    ensures AllWs(W.Newline(o, depth))
  {
  }

  lemma StringMeaning(o: Options, s: seq<byte>)
    requires o.validateUtf8 ==> WellFormed(s)
    ensures StrOk(o, EscapePieces(s)) && PiecesValue(EscapePieces(s)) == s
  {
    hide WellFormed, Escaped, PiecesOk, PiecesText, PiecesValue;
    EscapePiecesAre(s);
    if o.validateUtf8 {
      assert [] + s == s && [] + Escaped(s) == Escaped(s);
      EscapedWellFormed([], s);
    }
  }

  lemma IntMeaning(i: int)
    requires -TWO63 <= i < TWO64
    ensures NumOk(NumOf(i)) && IsInt64(NumOf(i)) && NumInt(NumOf(i)) == i
  {
    hide Dec, DecValue;
    DecValueOfDec(if i < 0 then -i else i);
    DecLeading(if i < 0 then -i else i);
  }

  lemma {:induction false} CstMeans(o: Options, wo: W.WriterOptions, t: Json, depth: nat, room: int)
    requires W.Plain(t) && Fits(o, t, room)
    ensures Ok(o, CstOf(wo, t, depth), room) && Meaning(o, CstOf(wo, t, depth), room) == t
    decreases t, 1
  {
    hide WellFormed, StrOk, PiecesValue, NumOk, IsInt64, NumInt, NumOf;
    match t
    case JInt(i) => IntMeaning(i);
    case JText(s) => StringMeaning(o, s);
    case JArray(items) => ElemsMean(o, wo, items, depth + 1, room - 1);
    case JObject(members) => MemsMean(o, wo, members, depth + 1, room - 1);
    case _ =>
  }

  lemma {:induction false} ElemsMean(o: Options, wo: W.WriterOptions, s: Jsons, depth: nat, room: int)
    requires W.PlainItems(s) && FitItems(o, s, room) && depth > 0
    ensures ElemsOk(o, ElemsOf(wo, s, depth), room) && ElemsMeaning(o, ElemsOf(wo, s, depth), room) == s
    decreases s, 0
  {
    hide CstOf, Ok, Meaning, W.Plain, Fits, W.Newline;
    if s.Jsons? {
      CstMeans(o, wo, s.head, depth, room);
      ElemsMean(o, wo, s.tail, depth, room);
      NewlineWs(wo, depth);
      NewlineWs(wo, depth - 1);
    }
  }

  lemma {:induction false} MemsMean(o: Options, wo: W.WriterOptions, s: Members, depth: nat, room: int)
    requires W.PlainMembers(s) && FitMembers(o, s, room) && depth > 0
    ensures MemsOk(o, MemsOf(wo, s, depth), room) && MemsMeaning(o, MemsOf(wo, s, depth), room) == s
    decreases s, 0
  {
    hide CstOf, Ok, Meaning, W.Plain, Fits, W.Newline, WellFormed, StrOk, PiecesValue;
    if s.Members? {
      CstMeans(o, wo, s.val, depth, room);
      StringMeaning(o, s.key);
      MemsMean(o, wo, s.rest, depth, room);
      NewlineWs(wo, depth);
      NewlineWs(wo, depth - 1);
    }
  }

  // ---- the theorem ----

  /** Whatever the layout, what the calls of a tree write is accepted by validator and reader as that tree. */
  lemma WrittenIsRead(wo: W.WriterOptions, o: Options, t: Json, out: seq<byte>)
    requires W.Plain(t) && Fits(o, t, o.maxDepth)
    requires W.Run(wo, W.START, W.Calls(t)) == W.Next(W.State(out, false, []))
    ensures Accepts(o, out, t)
    ensures SkipVal(o, out, 0, 0) == Done(|out|)
  {
    hide W.Run, W.Calls, W.Render, W.Trouble, Accepts, Text, Ok, Meaning, CstOf, Fits, W.Plain, ReadVal, SkipVal;
    W.RunTree(wo, t);
    RenderIsText(wo, t, 0);
    CstMeans(o, wo, t, 0, o.maxDepth);
    var c := CstOf(wo, t, 0);
    assert [] + (Text(c) + []) == out;
    TextAccepted(o, out, t, [], c, []);
    WholeText(o, out, c);
    ValuesAgree(o, out, 0, 0);
  }

  lemma WholeText(o: Options, out: seq<byte>, c: Cst)
    requires Ok(o, c, o.maxDepth) && out == Text(c)
    ensures ReadVal(o, out, 0, 0) == Read(Meaning(o, c, o.maxDepth), |out|)
  {
    hide ReadVal, Text, Ok, Meaning;
    assert out[0..0 + |out|] == out;
    ReadText(o, out, 0, 0, c);
  }

  /** The writer throws on no such tree within its own depth limit. */
  lemma {:induction false} WriterAccepts(wo: W.WriterOptions, o: Options, t: Json, depth: nat)
    requires Fits(o, t, wo.maxDepth - depth) && (wo.validateUtf8 ==> o.validateUtf8)
    ensures W.Trouble(wo, t, depth).None?
    decreases t, 1
  {
    hide WellFormed;
    match t
    case JArray(items) => WriterAcceptsItems(wo, o, items, depth + 1);
    case JObject(members) => WriterAcceptsMembers(wo, o, members, depth + 1);
    case _ =>
  }

  lemma {:induction false} WriterAcceptsItems(wo: W.WriterOptions, o: Options, s: Jsons, depth: nat)
    requires FitItems(o, s, wo.maxDepth - depth) && (wo.validateUtf8 ==> o.validateUtf8)
    ensures W.ItemsTrouble(wo, s, depth).None?
    decreases s, 0
  {
    hide WellFormed;
    if s.Jsons? {
      WriterAccepts(wo, o, s.head, depth);
      WriterAcceptsItems(wo, o, s.tail, depth);
    }
  }

  lemma {:induction false} WriterAcceptsMembers(wo: W.WriterOptions, o: Options, s: Members, depth: nat)
    requires FitMembers(o, s, wo.maxDepth - depth) && (wo.validateUtf8 ==> o.validateUtf8)
    ensures W.MembersTrouble(wo, s, depth).None?
    decreases s, 0
  {
    hide WellFormed;
    if s.Members? {
      WriterAccepts(wo, o, s.val, depth);
      WriterAcceptsMembers(wo, o, s.rest, depth);
    }
  }

  /** Every tree that fits both sides is written, in any layout, and read back as itself. */
  lemma RoundTrip(wo: W.WriterOptions, o: Options, t: Json) returns (out: seq<byte>)
    requires W.Plain(t) && Fits(o, t, o.maxDepth) && Fits(o, t, wo.maxDepth) && (wo.validateUtf8 ==> o.validateUtf8)
    ensures W.Run(wo, W.START, W.Calls(t)) == W.Next(W.State(out, false, []))
    ensures Accepts(o, out, t) && SkipVal(o, out, 0, 0) == Done(|out|)
  {
    hide W.Run, W.Calls, W.Render, W.Trouble, Accepts, Fits, W.Plain, SkipVal;
    out := W.Render(wo, t, 0);
    WriterAccepts(wo, o, t, 0);
    W.RunTree(wo, t);
    WrittenIsRead(wo, o, t, out);
  }
}
