/** The layout of pretty JSON, by reading the compact text once from left to right. */
module JsonLayout {
  import opened Bytes
  import opened JsonNumber
  import opened JsonString
  import opened JsonSpec
  import opened JsonWriterSpec

  /** Outside strings, inside one, and behind a reverse solidus in one. */
  datatype Mode = Outside | Inside | Escaping

  /** A line break, and `indent` spaces for every container that is open. */
  function Line(indent: nat, open: nat): seq<byte> {
    [0x0A] + seq(open * indent, _ => 0x20)
  }

  predicate Opens(c: byte) {
    c == 0x5B || c == 0x7B
  }

  predicate Closes(c: byte) {
    c == 0x5D || c == 0x7D
  }

  /** `s` laid out, inside `open` containers: empty containers stay on their line, otherwise a line begins behind every
      opening bracket and comma and in front of every closing bracket, and a space follows every colon. */
  function Laid(indent: nat, s: seq<byte>, open: nat, m: Mode): seq<byte>
    decreases |s|
  {
    if s == [] then []
    else
      var c, rest := s[0], s[1..];
      if m.Escaping? then [c] + Laid(indent, rest, open, Inside)
      else if m.Inside? then
        [c] + Laid(indent, rest, open, if c == 0x22 then Outside else if c == 0x5C then Escaping else Inside)
      else if c == 0x22 then [c] + Laid(indent, rest, open, Inside)
      else if Opens(c) then
        if rest != [] && Closes(rest[0]) then [c, rest[0]] + Laid(indent, rest[1..], open, Outside)
        else [c] + (Line(indent, open + 1) + Laid(indent, rest, open + 1, Outside))
      else if Closes(c) && open > 0 then Line(indent, open - 1) + ([c] + Laid(indent, rest, open - 1, Outside))
      else if c == 0x2C then [c] + (Line(indent, open) + Laid(indent, rest, open, Outside))
      else if c == 0x3A then [c, 0x20] + Laid(indent, rest, open, Outside)
      else [c] + Laid(indent, rest, open, Outside)
  }

  // ---- runs without layout ----

  predicate Inert(c: byte) {
    c != 0x22 && !Opens(c) && !Closes(c) && c != 0x2C && c != 0x3A
  }

  lemma {:induction false} LaidRun(indent: nat, w: seq<byte>, more: seq<byte>, open: nat)
    requires forall c | c in w :: Inert(c)
    ensures Laid(indent, w + more, open, Outside) == w + Laid(indent, more, open, Outside)
    decreases |w|
  {
    if w == [] {
      assert w + more == more;
    } else {
      assert w[0] in w && (w + more)[0] == w[0] && (w + more)[1..] == w[1..] + more;
      LaidRun(indent, w[1..], more, open);
    }
  }

  lemma {:induction false} DecInert(n: nat)
    ensures forall c | c in Dec(n) :: Digit(c)
  {
    if n >= 10 {
      DecInert(n / 10);
    }
  }

  lemma InsidePlain(indent: nat, c: byte, more: seq<byte>, open: nat)
    requires c != 0x22 && c != 0x5C
    ensures Laid(indent, [c] + more, open, Inside) == [c] + Laid(indent, more, open, Inside)
  {
    assert ([c] + more)[1..] == more;
  }

  lemma InsideEscape(indent: nat, c: byte, more: seq<byte>, open: nat)
    ensures Laid(indent, [0x5C, c] + more, open, Inside) == [0x5C, c] + Laid(indent, more, open, Inside)
  {
    var s := [0x5C, c] + more;
    assert s[1..] == [c] + more && s[1..][1..] == more;
  }

  lemma InsideEscapeText(indent: nat, c: byte, more: seq<byte>, open: nat)
    requires NeedsEscape(c)
    ensures Laid(indent, EscapeText(c) + more, open, Inside) == EscapeText(c) + Laid(indent, more, open, Inside)
  {
    hide Laid;
    var e := EscapeText(c);
    if |e| == 2 {
      InsideEscape(indent, e[1], more, open);
    } else {
      var d4, d5 := e[4], e[5];
      assert e + more == [0x5C, 0x75] + ([0x30] + ([0x30] + ([d4] + ([d5] + more))));
      InsideEscape(indent, 0x75, [0x30] + ([0x30] + ([d4] + ([d5] + more))), open);
      InsidePlain(indent, 0x30, [0x30] + ([d4] + ([d5] + more)), open);
      InsidePlain(indent, 0x30, [d4] + ([d5] + more), open);
      InsidePlain(indent, d4, [d5] + more, open);
      InsidePlain(indent, d5, more, open);
    }
  }

  lemma {:induction false} InsideEscaped(indent: nat, s: seq<byte>, more: seq<byte>, open: nat)
    ensures Laid(indent, Escaped(s) + more, open, Inside) == Escaped(s) + Laid(indent, more, open, Inside)
    decreases |s|
  {
    hide Laid, EscapeText;
    if s == [] {
      assert Escaped(s) + more == more;
    } else {
      var rest := Escaped(s[1..]);
      InsideEscaped(indent, s[1..], more, open);
      if NeedsEscape(s[0]) {
        assert Escaped(s) + more == EscapeText(s[0]) + (rest + more);
        InsideEscapeText(indent, s[0], rest + more, open);
      } else {
        assert Escaped(s) + more == [s[0]] + (rest + more);
        InsidePlain(indent, s[0], rest + more, open);
      }
    }
  }

  /** A string is copied. */
  lemma LaidString(indent: nat, s: seq<byte>, more: seq<byte>, open: nat)
    ensures Laid(indent, Quoted(s) + more, open, Outside) == Quoted(s) + Laid(indent, more, open, Outside)
  {
    hide Escaped;
    var tail := [0x22] + more;
    assert Quoted(s) + more == [0x22] + (Escaped(s) + tail);
    assert ([0x22] + (Escaped(s) + tail))[1..] == Escaped(s) + tail && tail[1..] == more;
    InsideEscaped(indent, s, tail, open);
  }

  // ---- trees ----

  function Compact(o: WriterOptions): WriterOptions {
    o.(pretty := false)
  }

  function Spread(o: WriterOptions): WriterOptions {
    o.(pretty := true)
  }

  /** No text of a value begins with a closing bracket. */
  lemma RenderBegins(o: WriterOptions, t: Json, depth: nat)
    ensures Render(o, t, depth) != [] && !Closes(Render(o, t, depth)[0])
  {
    match t
    case JInt(i) =>
      DecInert(if i < 0 then -i else i);
      assert Dec(if i < 0 then -i else i)[0] in Dec(if i < 0 then -i else i);
    case _ =>
  }

  lemma {:induction false} LaidValue(o: WriterOptions, t: Json, depth: nat, more: seq<byte>)
    ensures Laid(o.indent, Render(Compact(o), t, depth) + more, depth, Outside)
            == Render(Spread(o), t, depth) + Laid(o.indent, more, depth, Outside)
    decreases t, 2
  {
    hide Laid, Quoted, Dec;
    match t
    case JNull => LaidRun(o.indent, NULL_WORD, more, depth);
    case JBool(b) => LaidRun(o.indent, if b then TRUE_WORD else FALSE_WORD, more, depth);
    case JInt(i) =>
      DecInert(if i < 0 then -i else i);
      LaidRun(o.indent, DecInt(i), more, depth);
    case JReal(_) => LaidRun(o.indent, NULL_WORD, more, depth);
    case JText(s) => LaidString(o.indent, s, more, depth);
    case JArray(_) => LaidArray(o, t, depth, more);
    case JObject(_) => LaidObject(o, t, depth, more);
  }

  lemma BodyBegins(o: WriterOptions, items: Jsons, members: Members, depth: nat)
    ensures var s := RenderItems(Compact(o), items, depth, true);
            if items.NoJsons? then s == [] else s != [] && !Closes(s[0])
    ensures var s := RenderMembers(Compact(o), members, depth, true);
            if members.NoMembers? then s == [] else s != [] && !Closes(s[0])
  {
    hide Render, Escaped, RenderItems, RenderMembers;
    if items.Jsons? {
      RenderBegins(Compact(o), items.head, depth);
    }
    ItemsStart(o, items, depth);
    MembersStart(o, members, depth);
  }

  lemma NothingRendered(o: WriterOptions, depth: nat)
    ensures RenderItems(o, NoJsons, depth, true) == [] && RenderMembers(o, NoMembers, depth, true) == []
  {
  }

  lemma ItemsStart(o: WriterOptions, items: Jsons, depth: nat)
    ensures RenderItems(Compact(o), items, depth, true)
            == if items.NoJsons? then []
               else Render(Compact(o), items.head, depth) + RenderItems(Compact(o), items.tail, depth, false)
  {
    hide Render;
  }

  lemma MembersStart(o: WriterOptions, members: Members, depth: nat)
    ensures var s := RenderMembers(Compact(o), members, depth, true);
            if members.NoMembers? then s == [] else s != [] && s[0] == 0x22
  {
    hide Render, Escaped;
  }

  lemma {:induction false} LaidArray(o: WriterOptions, t: Json, depth: nat, more: seq<byte>)
    requires t.JArray?
    ensures Laid(o.indent, Render(Compact(o), t, depth) + more, depth, Outside)
            == Render(Spread(o), t, depth) + Laid(o.indent, more, depth, Outside)
    decreases t, 1
  {
    hide Laid, Quoted, Dec, RenderItems, RenderMembers;
    var items := t.items;
    BodyBegins(o, items, NoMembers, depth + 1);
    var end := [CLOSE_ARRAY] + more;
    var body := RenderItems(Compact(o), items, depth + 1, true);
    assert Render(Compact(o), t, depth) + more == [OPEN_ARRAY] + (body + end);
    if items.NoJsons? {
      NothingRendered(Spread(o), depth + 1);
      EmptyLaid(o, OPEN_ARRAY, CLOSE_ARRAY, depth, more);
      assert body + end == end;
    } else {
      OpenLaid(o, OPEN_ARRAY, depth, body + end);
      LaidItems(o, items, depth + 1, true, end);
      CloseLaid(o, CLOSE_ARRAY, depth, more);
      Glue(o, depth, OPEN_ARRAY, RenderItems(Spread(o), items, depth + 1, true), CLOSE_ARRAY,
           Laid(o.indent, more, depth, Outside));
    }
  }

  lemma {:induction false} LaidObject(o: WriterOptions, t: Json, depth: nat, more: seq<byte>)
    requires t.JObject?
    ensures Laid(o.indent, Render(Compact(o), t, depth) + more, depth, Outside)
            == Render(Spread(o), t, depth) + Laid(o.indent, more, depth, Outside)
    decreases t, 1
  {
    hide Laid, Quoted, Dec, RenderItems, RenderMembers;
    var members := t.members;
    BodyBegins(o, NoJsons, members, depth + 1);
    var end := [CLOSE_OBJECT] + more;
    var body := RenderMembers(Compact(o), members, depth + 1, true);
    assert Render(Compact(o), t, depth) + more == [OPEN_OBJECT] + (body + end);
    if members.NoMembers? {
      NothingRendered(Spread(o), depth + 1);
      EmptyLaid(o, OPEN_OBJECT, CLOSE_OBJECT, depth, more);
      assert body + end == end;
    } else {
      OpenLaid(o, OPEN_OBJECT, depth, body + end);
      LaidMembers(o, members, depth + 1, true, end);
      CloseLaid(o, CLOSE_OBJECT, depth, more);
      Glue(o, depth, OPEN_OBJECT, RenderMembers(Spread(o), members, depth + 1, true), CLOSE_OBJECT,
           Laid(o.indent, more, depth, Outside));
  }
  }

  lemma NewlineIsLine(o: WriterOptions, depth: nat)
    ensures Newline(Spread(o), depth) == Line(o.indent, depth) && Newline(Compact(o), depth) == []
  {
  }

  lemma EmptyLaid(o: WriterOptions, c: byte, d: byte, depth: nat, more: seq<byte>)
    requires Opens(c) && Closes(d)
    ensures Laid(o.indent, [c] + ([d] + more), depth, Outside) == [c] + [d] + Laid(o.indent, more, depth, Outside)
  {
    var s := [c] + ([d] + more);
    assert s[1..] == [d] + more && s[1..][1..] == more;
  }

  lemma OpenLaid(o: WriterOptions, c: byte, depth: nat, more: seq<byte>)
    requires Opens(c) && more != [] && !Closes(more[0])
    ensures Laid(o.indent, [c] + more, depth, Outside)
            == [c] + (Line(o.indent, depth + 1) + Laid(o.indent, more, depth + 1, Outside))
  {
    assert ([c] + more)[1..] == more;
  }

  lemma CloseLaid(o: WriterOptions, d: byte, depth: nat, more: seq<byte>)
    requires Closes(d)
    ensures Laid(o.indent, [d] + more, depth + 1, Outside)
            == Line(o.indent, depth) + ([d] + Laid(o.indent, more, depth, Outside))
  {
    assert ([d] + more)[1..] == more;
  }

  lemma Glue(o: WriterOptions, depth: nat, c: byte, body: seq<byte>, d: byte, tail: seq<byte>)
    ensures [c] + (body + (Newline(Spread(o), depth) + [d])) + tail
            == [c] + (body + (Line(o.indent, depth) + ([d] + tail)))
  {
    NewlineIsLine(o, depth);
  }

  lemma CommaLaid(o: WriterOptions, depth: nat, more: seq<byte>)
    ensures Laid(o.indent, [COMMA] + more, depth, Outside)
            == [COMMA] + (Line(o.indent, depth) + Laid(o.indent, more, depth, Outside))
  {
    assert ([COMMA] + more)[1..] == more;
  }

  lemma ColonLaid(o: WriterOptions, depth: nat, more: seq<byte>)
    ensures Laid(o.indent, [COLON] + more, depth, Outside) == [COLON, 0x20] + Laid(o.indent, more, depth, Outside)
  {
    assert ([COLON] + more)[1..] == more;
  }

  /** What the layout puts in front of a member: the line begun behind the opening bracket, or comma and line. */
  lemma LeadLaid(o: WriterOptions, depth: nat, first: bool, more: seq<byte>)
    ensures (if first then Line(o.indent, depth) else [])
            + Laid(o.indent, Lead(Compact(o), depth, first) + more, depth, Outside)
            == Lead(Spread(o), depth, first) + Laid(o.indent, more, depth, Outside)
  {
    hide Laid, Line;
    NewlineIsLine(o, depth);
    if first {
      assert Lead(Compact(o), depth, true) + more == more;
      assert Lead(Spread(o), depth, true) == Line(o.indent, depth);
    } else {
      assert Lead(Compact(o), depth, false) == [COMMA];
      CommaLaid(o, depth, more);
      assert [] + Laid(o.indent, [COMMA] + more, depth, Outside) == Laid(o.indent, [COMMA] + more, depth, Outside);
    }
  }

  lemma {:induction false} LaidItems(o: WriterOptions, s: Jsons, depth: nat, first: bool, end: seq<byte>)
    requires first ==> s.Jsons?
    ensures (if first then Line(o.indent, depth) else [])
            + Laid(o.indent, RenderItems(Compact(o), s, depth, first) + end, depth, Outside)
            == RenderItems(Spread(o), s, depth, first) + Laid(o.indent, end, depth, Outside)
    decreases s, 0
  {
    hide Laid, Line, Render, Lead;
    if s.NoJsons? {
      assert [] + end == end;
    } else {
      var more := RenderItems(Compact(o), s.tail, depth, false) + end;
      var head := Render(Compact(o), s.head, depth);
      assert RenderItems(Compact(o), s, depth, first) + end == Lead(Compact(o), depth, first) + (head + more);
      LeadLaid(o, depth, first, head + more);
      LaidValue(o, s.head, depth, more);
      LaidItems(o, s.tail, depth, false, end);
      assert [] + Laid(o.indent, more, depth, Outside) == Laid(o.indent, more, depth, Outside);
      Join(Lead(Spread(o), depth, first), Render(Spread(o), s.head, depth),
           RenderItems(Spread(o), s.tail, depth, false), Laid(o.indent, end, depth, Outside));
    }
  }

  lemma Join(a: seq<byte>, b: seq<byte>, c: seq<byte>, d: seq<byte>)
    ensures a + (b + (c + d)) == a + (b + c) + d
  {
  }

  lemma JoinMember(lead: seq<byte>, key: seq<byte>, val: seq<byte>, rest: seq<byte>, end: seq<byte>)
    ensures lead + (key + ([COLON, 0x20] + (val + (rest + end)))) == lead + (key + ([COLON, 0x20] + (val + rest))) + end
  {
  }

  lemma ColonText(o: WriterOptions)
    ensures AfterColon(Spread(o)) == [COLON, 0x20] && AfterColon(Compact(o)) == [COLON]
  {
  }

  lemma MemberText(o: WriterOptions, s: Members, depth: nat, first: bool, end: seq<byte>)
    requires s.Members?
    ensures RenderMembers(Compact(o), s, depth, first) + end
            == Lead(Compact(o), depth, first)
               + (Quoted(s.key) + ([COLON] + (Render(Compact(o), s.val, depth)
                                              + (RenderMembers(Compact(o), s.rest, depth, false) + end))))
  {
    hide Render, Lead, Quoted;
    Join(Quoted(s.key), [COLON], Render(Compact(o), s.val, depth) + RenderMembers(Compact(o), s.rest, depth, false),
         end);
  }

  lemma {:induction false} LaidMembers(o: WriterOptions, s: Members, depth: nat, first: bool, end: seq<byte>)
    requires first ==> s.Members?
    ensures (if first then Line(o.indent, depth) else [])
            + Laid(o.indent, RenderMembers(Compact(o), s, depth, first) + end, depth, Outside)
            == RenderMembers(Spread(o), s, depth, first) + Laid(o.indent, end, depth, Outside)
    decreases s, 0
  {
    hide Laid, Line, Render, Lead, Quoted, AfterColon;
    if s.NoMembers? {
      assert [] + end == end;
    } else {
      var more := RenderMembers(Compact(o), s.rest, depth, false) + end;
      var val := Render(Compact(o), s.val, depth);
      MemberText(o, s, depth, first, end);
      LeadLaid(o, depth, first, Quoted(s.key) + ([COLON] + (val + more)));
      LaidString(o.indent, s.key, [COLON] + (val + more), depth);
      ColonLaid(o, depth, val + more);
      LaidValue(o, s.val, depth, more);
      LaidMembers(o, s.rest, depth, false, end);
      assert [] + Laid(o.indent, more, depth, Outside) == Laid(o.indent, more, depth, Outside);
      ColonText(o);
      JoinMember(Lead(Spread(o), depth, first), Quoted(s.key), Render(Spread(o), s.val, depth),
                 RenderMembers(Spread(o), s.rest, depth, false), Laid(o.indent, end, depth, Outside));
    }
  }

  /** The pretty text of a tree is its compact text, laid out: every line is indented by its nesting depth. */
  lemma PrettyIsLaidOut(o: WriterOptions, t: Json)
    ensures Render(Spread(o), t, 0) == Laid(o.indent, Render(Compact(o), t, 0), 0, Outside)
  {
    hide Render;
    LaidValue(o, t, 0, []);
    assert Render(Compact(o), t, 0) + [] == Render(Compact(o), t, 0);
    assert Render(Spread(o), t, 0) + [] == Render(Spread(o), t, 0);
  }

  /** [[1]] at two spaces a level. */
  lemma NestedExample()
    ensures var o := WriterOptions(true, 2, 64, true);
            var t := JArray(Jsons(JArray(Jsons(JInt(1), NoJsons)), NoJsons));
            Render(o, t, 0) == [0x5B, 0x0A, 0x20, 0x20, 0x5B, 0x0A, 0x20, 0x20, 0x20, 0x20, 0x31, 0x0A, 0x20, 0x20,
                                0x5D, 0x0A, 0x5D]
  {
  }
}
