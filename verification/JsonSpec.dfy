/** JSON values: the validator and the cursor-driven reader as recursive functions, and their agreement. */
module JsonSpec {
  import opened Bytes
  import opened JsonNumber
  import opened JsonString

  datatype Json =
    | JNull
    | JBool(b: bool)
    | JInt(i: int)
    | JReal(literal: seq<byte>)            // a double, known by the literal it was read from
    | JText(text: seq<byte>)
    | JArray(items: Jsons)
    | JObject(members: Members)

  datatype Jsons = NoJsons | Jsons(head: Json, tail: Jsons)

  datatype Members = NoMembers | Members(key: seq<byte>, val: Json, rest: Members)

  /** `overflows` tells which literals are too large for a double. */
  datatype Options = Options(maxDepth: nat, validateUtf8: bool, overflows: seq<byte> -> bool)

  const COMMA: byte := 0x2C
  const COLON: byte := 0x3A
  const OPEN_ARRAY: byte := 0x5B
  const CLOSE_ARRAY: byte := 0x5D
  const OPEN_OBJECT: byte := 0x7B
  const CLOSE_OBJECT: byte := 0x7D

  const NULL_WORD: seq<byte> := [0x6E, 0x75, 0x6C, 0x6C]
  const TRUE_WORD: seq<byte> := [0x74, 0x72, 0x75, 0x65]
  const FALSE_WORD: seq<byte> := [0x66, 0x61, 0x6C, 0x73, 0x65]

  predicate IsWs(b: byte) {
    b == 0x20 || b == 0x0A || b == 0x0D || b == 0x09
  }

  function SkipWs(input: seq<byte>, pos: nat): (p: nat)
    requires pos <= |input|
    ensures pos <= p <= |input| && (p < |input| ==> !IsWs(input[p]))
    ensures forall k :: pos <= k < p ==> IsWs(input[k])
    decreases |input| - pos
  {
    if pos < |input| && IsWs(input[pos]) then SkipWs(input, pos + 1) else pos
  }

  function Closer(obj: bool): byte {
    if obj then CLOSE_OBJECT else CLOSE_ARRAY
  }

  // ---- scalars and keys ----

  datatype ScalarResult = NoScalar(error: Error) | Scalar(value: Json, end: nat)

  /** literal: the whole word, a truncated one, or something else. */
  function Word(input: seq<byte>, pos: nat, word: seq<byte>, value: Json): (r: ScalarResult)
    requires pos < |input| && word != []
    ensures r.Scalar? ==> pos < r.end <= |input|
  {
    if At(input, pos, word) then Scalar(value, pos + |word|)
    else if pos + |word| > |input| && input[pos..] == word[..|input| - pos] then NoScalar(Error(Truncated, |input|))
    else NoScalar(Error(UnexpectedToken, pos))
  }

  predicate StartsNumber(c: byte) {
    c == MINUS || Digit(c)
  }

  /** Anything but a container, at a byte that is no white space. */
  function ScalarAt(o: Options, input: seq<byte>, pos: nat): (r: ScalarResult)
    requires pos < |input|
    ensures r.Scalar? ==> pos < r.end <= |input|
  {
    var c := input[pos];
    if c == QUOTE then
      match ParseString(o.validateUtf8, input, pos)
      case NoString(e) => NoScalar(e)
      case String(s, end) => Scalar(JText(s), end)
    else if c == TRUE_WORD[0] then Word(input, pos, TRUE_WORD, JBool(true))
    else if c == FALSE_WORD[0] then Word(input, pos, FALSE_WORD, JBool(false))
    else if c == NULL_WORD[0] then Word(input, pos, NULL_WORD, JNull)
    else if StartsNumber(c) then
      match ScanNumber(o.overflows, input, pos)
      case BadNumber(large) => NoScalar(Error(if large then OutOfRange else InvalidNumber, pos))
      case IntScan(end, i) => Scalar(JInt(i), end)
      case RealScan(end) => Scalar(JReal(input[pos..end]), end)
    else NoScalar(Error(UnexpectedToken, pos))
  }

  datatype KeyResult = NoKey(error: Error) | Key(text: seq<byte>, end: nat)

  /** A key and its colon. */
  function KeyAt(o: Options, input: seq<byte>, pos: nat): (r: KeyResult)
    requires pos <= |input|
    ensures r.Key? ==> pos < r.end <= |input|
  {
    var p := SkipWs(input, pos);
    if p >= |input| then NoKey(Error(Truncated, p))
    else if input[p] != QUOTE then NoKey(Error(UnexpectedToken, p))
    else
      match ParseString(o.validateUtf8, input, p)
      case NoString(e) => NoKey(e)
      case String(s, end) =>
        var q := SkipWs(input, end);
        if q >= |input| then NoKey(Error(Truncated, q))
        else if input[q] != COLON then NoKey(Error(UnexpectedToken, q))
        else Key(s, q + 1)
  }

  // ---- the validator ----

  datatype Outcome = Fail(error: Error) | Done(pos: nat)

  /** skip_value: one value inside `depth` open containers. */
  function SkipVal(o: Options, input: seq<byte>, pos: nat, depth: nat): (r: Outcome)
    requires pos <= |input|
    ensures r.Done? ==> pos < r.pos <= |input|
    decreases |input| - pos, 0
  {
    var p := SkipWs(input, pos);
    if p >= |input| then Fail(Error(Truncated, p))
    else if input[p] == OPEN_ARRAY || input[p] == OPEN_OBJECT then
      var obj := input[p] == OPEN_OBJECT;
      if depth >= o.maxDepth then Fail(Error(DepthExceeded, p))
      else
        var q := SkipWs(input, p + 1);
        if q >= |input| then Fail(Error(Truncated, q))
        else if input[q] == Closer(obj) then Done(q + 1)
        else SkipMember(o, input, q, depth + 1, obj)
    else
      match ScalarAt(o, input, p)
      case NoScalar(e) => Fail(e)
      case Scalar(_, end) => Done(end)
  }

  /** A member of an open container, and the rest of the container. */
  function SkipMember(o: Options, input: seq<byte>, pos: nat, depth: nat, obj: bool): (r: Outcome)
    requires pos <= |input|
    ensures r.Done? ==> pos < r.pos <= |input|
    decreases |input| - pos, 2
  {
    if obj then
      match KeyAt(o, input, pos)
      case NoKey(e) => Fail(e)
      case Key(_, p) => SkipValRest(o, input, p, depth, obj)
    else SkipValRest(o, input, pos, depth, obj)
  }

  function SkipValRest(o: Options, input: seq<byte>, pos: nat, depth: nat, obj: bool): (r: Outcome)
    requires pos <= |input|
    ensures r.Done? ==> pos < r.pos <= |input|
    decreases |input| - pos, 1
  {
    match SkipVal(o, input, pos, depth)
    case Fail(e) => Fail(e)
    case Done(p) => SkipRest(o, input, p, depth, obj)
  }

  /** A container after one of its members: a comma and the next member, or the end. */
  function SkipRest(o: Options, input: seq<byte>, pos: nat, depth: nat, obj: bool): (r: Outcome)
    requires pos <= |input|
    ensures r.Done? ==> pos < r.pos <= |input|
    decreases |input| - pos, 0
  {
    var p := SkipWs(input, pos);
    if p >= |input| then Fail(Error(Truncated, p))
    else if input[p] == COMMA then
      var q := SkipWs(input, p + 1);
      if q < |input| && (input[q] == CLOSE_OBJECT || input[q] == CLOSE_ARRAY) then Fail(Error(UnexpectedToken, q))
      else SkipMember(o, input, q, depth, obj)
    else if input[p] == Closer(obj) then Done(p + 1)
    else Fail(Error(UnexpectedToken, p))
  }

  // ---- the cursors ----

  datatype Cursor = CursorError(error: Error) | CursorEnd(pos: nat) | CursorItem(pos: nat)

  /** seq_cursor::next and map_cursor::next. */
  function CursorNext(input: seq<byte>, pos: nat, first: bool, obj: bool): (r: Cursor)
    requires pos <= |input|
    ensures r.CursorEnd? ==> pos < r.pos <= |input|
    ensures r.CursorItem? ==> pos <= r.pos <= |input| && (!first ==> pos < r.pos)
  {
    var p := SkipWs(input, pos);
    if p >= |input| then CursorError(Error(Truncated, p))
    else if input[p] == Closer(obj) then CursorEnd(p + 1)
    else if first then CursorItem(p)
    else if input[p] != COMMA then CursorError(Error(UnexpectedToken, p))
    else
      var q := SkipWs(input, p + 1);
      if q < |input| && input[q] == Closer(obj) then CursorError(Error(UnexpectedToken, q)) else CursorItem(q)
  }

  datatype ReadResult = NotRead(error: Error) | Read(value: Json, pos: nat)

  datatype ReadItemsResult = NotReadItems(error: Error) | ReadItems(items: Jsons, pos: nat)

  datatype ReadMembersResult = NotReadMembers(error: Error) | ReadMembers(members: Members, pos: nat)

  /** A generic value read through the cursors. */
  function ReadVal(o: Options, input: seq<byte>, pos: nat, depth: nat): (r: ReadResult)
    requires pos <= |input|
    ensures r.Read? ==> pos < r.pos <= |input|
    decreases |input| - pos, 0
  {
    var p := SkipWs(input, pos);
    if p >= |input| then NotRead(Error(Truncated, p))
    else if input[p] == OPEN_ARRAY then
      if depth >= o.maxDepth then NotRead(Error(DepthExceeded, p))
      else
        match ReadSeq(o, input, p + 1, depth + 1, true)
        case NotReadItems(e) => NotRead(e)
        case ReadItems(items, end) => Read(JArray(items), end)
    else if input[p] == OPEN_OBJECT then
      if depth >= o.maxDepth then NotRead(Error(DepthExceeded, p))
      else
        match ReadMap(o, input, p + 1, depth + 1, true)
        case NotReadMembers(e) => NotRead(e)
        case ReadMembers(members, end) => Read(JObject(members), end)
    else
      match ScalarAt(o, input, p)
      case NoScalar(e) => NotRead(e)
      case Scalar(v, end) => Read(v, end)
  }

  function ReadSeq(o: Options, input: seq<byte>, pos: nat, depth: nat, first: bool): (r: ReadItemsResult)
    requires pos <= |input|
    ensures r.ReadItems? ==> pos < r.pos <= |input|
    decreases |input| - pos, 1
  {
    match CursorNext(input, pos, first, false)
    case CursorError(e) => NotReadItems(e)
    case CursorEnd(p) => ReadItems(NoJsons, p)
    case CursorItem(p) =>
      match ReadVal(o, input, p, depth)
      case NotRead(e) => NotReadItems(e)
      case Read(v, q) =>
        match ReadSeq(o, input, q, depth, false)
        case NotReadItems(e) => NotReadItems(e)
        case ReadItems(rest, end) => ReadItems(Jsons(v, rest), end)
  }

  function ReadMap(o: Options, input: seq<byte>, pos: nat, depth: nat, first: bool): (r: ReadMembersResult)
    requires pos <= |input|
    ensures r.ReadMembers? ==> pos < r.pos <= |input|
    decreases |input| - pos, 1
  {
    match CursorNext(input, pos, first, true)
    case CursorError(e) => NotReadMembers(e)
    case CursorEnd(p) => ReadMembers(NoMembers, p)
    case CursorItem(p) =>
      match KeyAt(o, input, p)
      case NoKey(e) => NotReadMembers(e)
      case Key(k, m) =>
        match ReadVal(o, input, m, depth)
        case NotRead(e) => NotReadMembers(e)
        case Read(v, q) =>
          match ReadMap(o, input, q, depth, false)
          case NotReadMembers(e) => NotReadMembers(e)
          case ReadMembers(rest, end) => ReadMembers(Members(k, v, rest), end)
  }

  // ---- the two agree ----

  /** What is left of a reader's answer when the value is dropped. */
  function Forget(r: ReadResult): Outcome {
    if r.NotRead? then Fail(r.error) else Done(r.pos)
  }

  function ForgetItems(r: ReadItemsResult): Outcome {
    if r.NotReadItems? then Fail(r.error) else Done(r.pos)
  }

  function ForgetMembers(r: ReadMembersResult): Outcome {
    if r.NotReadMembers? then Fail(r.error) else Done(r.pos)
  }

  /** Validator and cursors give the same answer on every input: the same end, or the same error in the same place. */
  lemma {:induction false} ValuesAgree(o: Options, input: seq<byte>, pos: nat, depth: nat)
    requires pos <= |input|
    ensures SkipVal(o, input, pos, depth) == Forget(ReadVal(o, input, pos, depth))
    decreases |input| - pos, 0
  {
    hide SkipMember, ReadSeq, ReadMap, ScalarAt, SkipWs;
    var p := SkipWs(input, pos);
    if p < |input| && (input[p] == OPEN_ARRAY || input[p] == OPEN_OBJECT) && depth < o.maxDepth {
      OpenAgrees(o, input, p + 1, depth + 1, input[p] == OPEN_OBJECT);
    }
  }

  /** Just inside a container. */
  lemma {:induction false} OpenAgrees(o: Options, input: seq<byte>, pos: nat, depth: nat, obj: bool)
    requires pos <= |input|
    ensures var q := SkipWs(input, pos);
            var s := if q >= |input| then Fail(Error(Truncated, q)) else if input[q] == Closer(obj) then Done(q + 1)
                     else SkipMember(o, input, q, depth, obj);
            s == if obj then ForgetMembers(ReadMap(o, input, pos, depth, true))
              else ForgetItems(ReadSeq(o, input, pos, depth, true))
    decreases |input| - pos, 3
  {
    hide SkipMember, ReadVal, KeyAt, SkipWs;
    var q := SkipWs(input, pos);
    if q < |input| && input[q] != Closer(obj) {
      MembersAgree(o, input, q, depth, obj);
    }
  }

  /** The cursor has reached a member at `pos`: what it goes on to answer. */
  function MemberThen(o: Options, input: seq<byte>, pos: nat, depth: nat, obj: bool): Outcome
    requires pos <= |input|
  {
    if obj then
      match KeyAt(o, input, pos)
      case NoKey(e) => Fail(e)
      case Key(_, m) => ValueThen(o, input, m, depth, obj)
    else ValueThen(o, input, pos, depth, obj)
  }

  function ValueThen(o: Options, input: seq<byte>, pos: nat, depth: nat, obj: bool): Outcome
    requires pos <= |input|
  {
    match ReadVal(o, input, pos, depth)
    case NotRead(e) => Fail(e)
    case Read(_, q) =>
      if obj then ForgetMembers(ReadMap(o, input, q, depth, false)) else ForgetItems(ReadSeq(o, input, q, depth, false))
  }

  lemma {:induction false} MembersAgree(o: Options, input: seq<byte>, pos: nat, depth: nat, obj: bool)
    requires pos <= |input|
    ensures SkipMember(o, input, pos, depth, obj) == MemberThen(o, input, pos, depth, obj)
    decreases |input| - pos, 2
  {
    hide SkipVal, SkipRest, ReadVal, ReadSeq, ReadMap, KeyAt;
    var k := KeyAt(o, input, pos);
    if obj && k.Key? {
      ValueAgrees(o, input, k.end, depth, obj);
    } else if !obj {
      ValueAgrees(o, input, pos, depth, obj);
    }
  }

  lemma {:induction false} ValueAgrees(o: Options, input: seq<byte>, pos: nat, depth: nat, obj: bool)
    requires pos <= |input|
    ensures SkipValRest(o, input, pos, depth, obj) == ValueThen(o, input, pos, depth, obj)
    decreases |input| - pos, 1
  {
    hide SkipVal, SkipRest, ReadVal, ReadSeq, ReadMap;
    ValuesAgree(o, input, pos, depth);
    var v := ReadVal(o, input, pos, depth);
    if v.Read? {
      RestAgrees(o, input, v.pos, depth, obj);
    }
  }

  lemma {:induction false} RestAgrees(o: Options, input: seq<byte>, pos: nat, depth: nat, obj: bool)
    requires pos <= |input|
    ensures SkipRest(o, input, pos, depth, obj)
            == if obj then ForgetMembers(ReadMap(o, input, pos, depth, false))
              else ForgetItems(ReadSeq(o, input, pos, depth, false))
    decreases |input| - pos, 0
  {
    hide SkipMember, ReadVal, KeyAt, SkipWs;
    var p := SkipWs(input, pos);
    if p < |input| && input[p] == COMMA {
      var q := SkipWs(input, p + 1);
      MembersAgree(o, input, q, depth, obj);
      if q < |input| && (input[q] == CLOSE_OBJECT || input[q] == CLOSE_ARRAY) {
        CloserStartsNothing(o, input, q, depth);
      }
    }
  }

  /** A closing bracket starts neither a key nor a value. */
  lemma CloserStartsNothing(o: Options, input: seq<byte>, q: nat, depth: nat)
    requires q < |input| && (input[q] == CLOSE_OBJECT || input[q] == CLOSE_ARRAY)
    ensures KeyAt(o, input, q) == NoKey(Error(UnexpectedToken, q))
    ensures ReadVal(o, input, q, depth) == NotRead(Error(UnexpectedToken, q))
  {
    hide ReadSeq, ReadMap;
    assert SkipWs(input, q) == q;
  }
}
