/** The JSON sink as a state machine, the text of a tree, and what balanced calls write. */
module JsonWriterSpec {
  import opened Bytes
  import opened Utf8
  import opened JsonNumber
  import opened JsonString
  import opened JsonSpec

  datatype Call =
    | Null | Boolean(b: bool) | UIntCall(u: nat) | SIntCall(i: int) | Text(s: seq<byte>)
    | BeginArray | EndArray | BeginMap | EndMap | KeyCall(s: seq<byte>)

  datatype WriterOptions = WriterOptions(pretty: bool, indent: nat, maxDepth: nat, validateUtf8: bool)

  /** Output so far; whether a key waits for its value; and for every open container, whether it is still empty. */
  datatype State = State(out: seq<byte>, afterKey: bool, first: seq<bool>)

  datatype Result = Thrown(code: Errc) | Misuse | Next(st: State)

  function Spaces(n: nat): seq<byte> {
    seq(n, _ => 0x20)
  }

  function Newline(o: WriterOptions, depth: nat): seq<byte> {
    if o.pretty then [0x0A] + Spaces(depth * o.indent) else []
  }

  /** What comes before a member of a container at nesting `depth`. */
  function Lead(o: WriterOptions, depth: nat, first: bool): seq<byte> {
    (if first then [] else [COMMA]) + Newline(o, depth)
  }

  function AfterColon(o: WriterOptions): seq<byte> {
    if o.pretty then [COLON, 0x20] else [COLON]
  }

  /** before_value: the comma state. */
  function BeforeValue(o: WriterOptions, st: State): State {
    if st.afterKey then st.(afterKey := false)
    else if st.first == [] then st
    else
      var n := |st.first|;
      st.(out := st.out + Lead(o, n, st.first[n - 1]), first := st.first[..n - 1] + [false])
  }

  function Put(st: State, s: seq<byte>): State {
    st.(out := st.out + s)
  }

  function Open(o: WriterOptions, st: State, c: byte): Result {
    var b := BeforeValue(o, st);
    if |b.first| >= o.maxDepth then Thrown(DepthExceeded) else Next(Put(b, [c]).(first := b.first + [true]))
  }

  function Close(o: WriterOptions, st: State, c: byte): Result {
    if st.first == [] then Misuse
    else
      var n := |st.first| - 1;
      Next(State(st.out + ((if st.first[n] then [] else Newline(o, n)) + [c]), st.afterKey, st.first[..n]))
  }

  function Step(o: WriterOptions, st: State, c: Call): Result {
    match c
    case Null => Next(Put(BeforeValue(o, st), NULL_WORD))
    case Boolean(b) => Next(Put(BeforeValue(o, st), if b then TRUE_WORD else FALSE_WORD))
    case UIntCall(u) => Next(Put(BeforeValue(o, st), Dec(u)))
    case SIntCall(i) => Next(Put(BeforeValue(o, st), DecInt(i)))
    case Text(s) =>
      if o.validateUtf8 && !WellFormed(s) then Thrown(InvalidUtf8) else Next(Put(BeforeValue(o, st), Quoted(s)))
    case BeginArray => Open(o, st, OPEN_ARRAY)
    case EndArray => Close(o, st, CLOSE_ARRAY)
    case BeginMap => Open(o, st, OPEN_OBJECT)
    case EndMap => Close(o, st, CLOSE_OBJECT)
    case KeyCall(s) =>
      if o.validateUtf8 && !WellFormed(s) then Thrown(InvalidUtf8)
      else Next(Put(BeforeValue(o, st), Quoted(s) + AfterColon(o)).(afterKey := true))
  }

  function Run(o: WriterOptions, st: State, calls: seq<Call>): Result
    decreases |calls|
  {
    if calls == [] then Next(st)
    else
      match Step(o, st, calls[0])
      case Next(st') => Run(o, st', calls[1..])
      case r => r
  }

  // ---- trees and their calls ----

  /** Integers of 64 bits, and no doubles. */
  predicate Plain(t: Json) {
    match t
    case JInt(i) => -TWO63 <= i < TWO64
    case JReal(_) => false
    case JArray(items) => PlainItems(items)
    case JObject(members) => PlainMembers(members)
    case _ => true
  }

  predicate PlainItems(s: Jsons) {
    s.NoJsons? || (Plain(s.head) && PlainItems(s.tail))
  }

  predicate PlainMembers(s: Members) {
    s.NoMembers? || (Plain(s.val) && PlainMembers(s.rest))
  }

  function Calls(t: Json): (r: seq<Call>)
    ensures |r| > 0
  {
    match t
    case JNull => [Null]
    case JBool(b) => [Boolean(b)]
    case JInt(i) => [if i < 0 then SIntCall(i) else UIntCall(i)]
    case JReal(_) => [Null]
    case JText(s) => [Text(s)]
    case JArray(items) => [BeginArray] + (ItemsCalls(items) + [EndArray])
    case JObject(members) => [BeginMap] + (MembersCalls(members) + [EndMap])
  }

  function ItemsCalls(s: Jsons): seq<Call> {
    if s.NoJsons? then [] else Calls(s.head) + ItemsCalls(s.tail)
  }

  function MembersCalls(s: Members): seq<Call> {
    if s.NoMembers? then [] else [KeyCall(s.key)] + (Calls(s.val) + MembersCalls(s.rest))
  }

  // ---- the text of a tree ----

  /** A value inside `depth` open containers. */
  function Render(o: WriterOptions, t: Json, depth: nat): seq<byte> {
    match t
    case JNull => NULL_WORD
    case JBool(b) => if b then TRUE_WORD else FALSE_WORD
    case JInt(i) => DecInt(i)
    case JReal(_) => NULL_WORD
    case JText(s) => Quoted(s)
    case JArray(items) => [OPEN_ARRAY]
      + (RenderItems(o, items, depth + 1, true) + Ending(o, items.NoJsons?, depth, CLOSE_ARRAY))
    case JObject(members) =>
      [OPEN_OBJECT] + (RenderMembers(o, members, depth + 1, true) + Ending(o, members.NoMembers?, depth, CLOSE_OBJECT))
  }

  function Ending(o: WriterOptions, empty: bool, depth: nat, c: byte): seq<byte> {
    (if empty then [] else Newline(o, depth)) + [c]
  }

  function RenderItems(o: WriterOptions, s: Jsons, depth: nat, first: bool): seq<byte> {
    if s.NoJsons? then [] else Lead(o, depth, first) + (Render(o, s.head, depth) + RenderItems(o, s.tail, depth, false))
  }

  function RenderMembers(o: WriterOptions, s: Members, depth: nat, first: bool): seq<byte> {
    if s.NoMembers? then []
    else Lead(o, depth, first) + (Quoted(s.key) + (AfterColon(o)
                                                   + (Render(o, s.val, depth)
                                                      + RenderMembers(o, s.rest, depth, false))))
  }

  /** The first reason to throw, in the order of the calls. */
  function Trouble(o: WriterOptions, t: Json, depth: nat): Option<Errc> {
    match t
    case JText(s) => if o.validateUtf8 && !WellFormed(s) then Some(InvalidUtf8) else None
    case JArray(items) => if depth >= o.maxDepth then Some(DepthExceeded) else ItemsTrouble(o, items, depth + 1)
    case JObject(members) => if depth >= o.maxDepth then Some(DepthExceeded) else MembersTrouble(o, members, depth + 1)
    case _ => None
  }

  function ItemsTrouble(o: WriterOptions, s: Jsons, depth: nat): Option<Errc> {
    if s.NoJsons? then None
    else
      var e := Trouble(o, s.head, depth);
      if e.Some? then e else ItemsTrouble(o, s.tail, depth)
  }

  function MembersTrouble(o: WriterOptions, s: Members, depth: nat): Option<Errc> {
    if s.NoMembers? then None
    else if o.validateUtf8 && !WellFormed(s.key) then Some(InvalidUtf8)
    else
      var e := Trouble(o, s.val, depth);
      if e.Some? then e else MembersTrouble(o, s.rest, depth)
  }

  // ---- balanced calls write the text ----

  lemma RunFirst(o: WriterOptions, st: State, c: Call, more: seq<Call>)
    ensures Run(o, st, [c] + more) == (var r := Step(o, st, c); if r.Next? then Run(o, r.st, more) else r)
  {
    hide Step;
    assert ([c] + more)[1..] == more;
  }

  /** The state after a value with text `s`. */
  function After(o: WriterOptions, st: State, s: seq<byte>): State {
    Put(BeforeValue(o, st), s)
  }

  /** The outcome of a run after a part of it that either throws or leads to `st`. */
  function Onward(o: WriterOptions, trouble: Option<Errc>, st: State, more: seq<Call>): Result {
    if trouble.Some? then Thrown(trouble.value) else Run(o, st, more)
  }

  /** Wherever a value may stand, its calls append exactly its text, or throw the first error in it. */
  lemma {:induction false} RunValue(o: WriterOptions, st: State, t: Json, more: seq<Call>)
    requires Plain(t)
    ensures Run(o, st, Calls(t) + more)
            == Onward(o, Trouble(o, t, |st.first|), After(o, st, Render(o, t, |st.first|)), more)
    decreases t, 1
  {
    hide Run, Lead, Newline;
    if t.JArray? {
      RunArray(o, st, t.items, more);
    } else if t.JObject? {
      RunObject(o, st, t.members, more);
    } else {
      RunFirst(o, st, Calls(t)[0], more);
    }
  }

  lemma {:induction false} RunArray(o: WriterOptions, st: State, items: Jsons, more: seq<Call>)
    requires PlainItems(items)
    ensures var t := JArray(items);
            Run(o, st, Calls(t) + more)
              == Onward(o, Trouble(o, t, |st.first|), After(o, st, Render(o, t, |st.first|)), more)
    decreases items, 1
  {
    hide Run, Lead, Newline, RenderItems, ItemsTrouble, BeforeValue, WellFormed, Quoted, DecInt, Dec, AfterColon;
    assert Calls(JArray(items)) + more == [BeginArray] + (ItemsCalls(items) + ([EndArray] + more));
    RunFirst(o, st, BeginArray, ItemsCalls(items) + ([EndArray] + more));
    var b := BeforeValue(o, st);
    BeforeKeepsDepth(o, st);
    var n := |st.first|;
    if n < o.maxDepth {
      var inner := Put(b, [OPEN_ARRAY]).(first := b.first + [true]);
      assert inner.first[..n] == b.first;
      RunItems(o, inner, items, [EndArray] + more);
      var body := RenderItems(o, items, n + 1, true);
      var full := State(inner.out + body, false, b.first + [items.NoJsons?]);
      RunFirst(o, full, EndArray, more);
      assert full.first[..n] == b.first;
      Join4(b.out, [OPEN_ARRAY], body, Ending(o, items.NoJsons?, n, CLOSE_ARRAY));
    }
  }

  lemma Join4(a: seq<byte>, b: seq<byte>, c: seq<byte>, d: seq<byte>)
    ensures a + b + c + d == a + (b + (c + d))
  {
  }

  lemma BeforeKeepsDepth(o: WriterOptions, st: State)
    ensures var b := BeforeValue(o, st); |b.first| == |st.first| && !b.afterKey
  {
  }

  /** Inside a container: members one after the other, separated by commas from the second on. */
  lemma {:induction false} RunItems(o: WriterOptions, st: State, s: Jsons, more: seq<Call>)
    requires PlainItems(s) && st.first != [] && !st.afterKey
    ensures var n := |st.first|;
            var st' := State(st.out + RenderItems(o, s, n, st.first[n - 1]), false,
                             st.first[..n - 1] + [st.first[n - 1] && s.NoJsons?]);
            Run(o, st, ItemsCalls(s) + more) == Onward(o, ItemsTrouble(o, s, n), st', more)
    decreases s, 0
  {
    hide Run, Lead, Render, Trouble, Calls;
    var n := |st.first|;
    if s.NoJsons? {
      assert ItemsCalls(s) + more == more;
      assert st.first[..n - 1] + [st.first[n - 1]] == st.first && st.out + [] == st.out;
    } else {
      assert ItemsCalls(s) + more == Calls(s.head) + (ItemsCalls(s.tail) + more);
      RunValue(o, st, s.head, ItemsCalls(s.tail) + more);
      var next := After(o, st, Render(o, s.head, n));
      assert next.first == st.first[..n - 1] + [false] && next.first[..n - 1] == st.first[..n - 1];
      RunItems(o, next, s.tail, more);
      Join4(st.out, Lead(o, n, st.first[n - 1]), Render(o, s.head, n), RenderItems(o, s.tail, n, false));
    }
  }

  lemma {:induction false} RunObject(o: WriterOptions, st: State, members: Members, more: seq<Call>)
    requires PlainMembers(members)
    ensures var t := JObject(members);
            Run(o, st, Calls(t) + more)
              == Onward(o, Trouble(o, t, |st.first|), After(o, st, Render(o, t, |st.first|)), more)
    decreases members, 1
  {
    hide Run, Lead, Newline, RenderMembers, MembersTrouble, BeforeValue, WellFormed, Quoted, DecInt, Dec, AfterColon;
    assert Calls(JObject(members)) + more == [BeginMap] + (MembersCalls(members) + ([EndMap] + more));
    RunFirst(o, st, BeginMap, MembersCalls(members) + ([EndMap] + more));
    var b := BeforeValue(o, st);
    BeforeKeepsDepth(o, st);
    var n := |st.first|;
    if n < o.maxDepth {
      var inner := Put(b, [OPEN_OBJECT]).(first := b.first + [true]);
      assert inner.first[..n] == b.first;
      RunMembers(o, inner, members, [EndMap] + more);
      var body := RenderMembers(o, members, n + 1, true);
      var full := State(inner.out + body, false, b.first + [members.NoMembers?]);
      RunFirst(o, full, EndMap, more);
      assert full.first[..n] == b.first;
      Join4(b.out, [OPEN_OBJECT], body, Ending(o, members.NoMembers?, n, CLOSE_OBJECT));
    }
  }

  lemma {:induction false} RunMembers(o: WriterOptions, st: State, s: Members, more: seq<Call>)
    requires PlainMembers(s) && st.first != [] && !st.afterKey
    ensures var n := |st.first|;
            var st' := State(st.out + RenderMembers(o, s, n, st.first[n - 1]), false,
                             st.first[..n - 1] + [st.first[n - 1] && s.NoMembers?]);
            Run(o, st, MembersCalls(s) + more) == Onward(o, MembersTrouble(o, s, n), st', more)
    decreases s, 0
  {
    hide Run, Lead, Render, Trouble, Calls, WellFormed, AfterColon, Quoted;
    var n := |st.first|;
    if s.NoMembers? {
      assert MembersCalls(s) + more == more;
      assert st.first[..n - 1] + [st.first[n - 1]] == st.first && st.out + [] == st.out;
    } else {
      var others := MembersCalls(s.rest) + more;
      assert MembersCalls(s) + more == [KeyCall(s.key)] + (Calls(s.val) + others);
      RunFirst(o, st, KeyCall(s.key), Calls(s.val) + others);
      if !(o.validateUtf8 && !WellFormed(s.key)) {
        var keyed := Put(BeforeValue(o, st), Quoted(s.key) + AfterColon(o)).(afterKey := true);
        assert keyed.first == st.first[..n - 1] + [false];
        RunValue(o, keyed, s.val, others);
        var next := After(o, keyed, Render(o, s.val, n));
        assert next.first[..n - 1] == st.first[..n - 1];
        RunMembers(o, next, s.rest, more);
        Join5(st.out, Lead(o, n, st.first[n - 1]), Quoted(s.key), AfterColon(o), Render(o, s.val, n),
              RenderMembers(o, s.rest, n, false));
      }
    }
  }

  lemma Join5(a: seq<byte>, b: seq<byte>, c: seq<byte>, d: seq<byte>, e: seq<byte>, f: seq<byte>)
    ensures a + b + (c + d) + e + f == a + (b + (c + (d + (e + f))))
  {
  }

  const START: State := State([], false, [])

  /** A whole tree, from the empty output. */
  lemma RunTree(o: WriterOptions, t: Json)
    requires Plain(t)
    ensures Run(o, START, Calls(t))
            == if Trouble(o, t, 0).Some? then Thrown(Trouble(o, t, 0).value)
              else Next(State(Render(o, t, 0), false, []))
  {
    hide Render, Trouble, Calls;
    RunValue(o, START, t, []);
    assert Calls(t) + [] == Calls(t) && [] + Render(o, t, 0) == Render(o, t, 0);
  }
}
