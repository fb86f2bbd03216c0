/** The JSON reader: an input, a position and a nesting depth that its operations move. */
module JsonReader {
  import opened Bytes
  import opened JsonNumber
  import opened JsonString
  import opened JsonSpec

  // ---- the bit stack of the validator, read as pending work ----

  /** A value ended at `pos` inside the containers of `stack` (true for an object): run everything still pending. */
  ghost function Finish(o: Options, input: seq<byte>, pos: nat, base: nat, stack: seq<bool>): Outcome
    requires pos <= |input|
    decreases |stack|
  {
    if stack == [] then Done(pos)
    else
      var r := SkipRest(o, input, pos, base + |stack|, stack[|stack| - 1]);
      if r.Fail? then r else Finish(o, input, r.pos, base, stack[..|stack| - 1])
  }

  /** The innermost container ended with `r`; then everything around it. */
  ghost function Then(o: Options, input: seq<byte>, base: nat, stack: seq<bool>, r: Outcome): Outcome
    requires stack != [] && (r.Done? ==> r.pos <= |input|)
  {
    if r.Fail? then r else Finish(o, input, r.pos, base, stack[..|stack| - 1])
  }

  datatype Want = WantValue | WantKey | AfterValue

  /** Everything that is left to do at the top of the loop. */
  ghost function Pending(o: Options, input: seq<byte>, pos: nat, base: nat, stack: seq<bool>, state: Want): Outcome
    requires pos <= |input| && (state.WantKey? ==> stack != [] && stack[|stack| - 1])
  {
    match state
    case AfterValue => Finish(o, input, pos, base, stack)
    case WantKey => Then(o, input, base, stack, SkipMember(o, input, pos, base + |stack|, true))
    case WantValue =>
      var r := SkipVal(o, input, pos, base + |stack|);
      if r.Fail? then r else Finish(o, input, r.pos, base, stack)
  }

  lemma PendingAfterWs(o: Options, input: seq<byte>, pos: nat, base: nat, stack: seq<bool>, state: Want)
    requires pos <= |input| && (state.WantKey? ==> stack != [] && stack[|stack| - 1])
             && (state.AfterValue? ==> stack != [])
    ensures Pending(o, input, pos, base, stack, state) == Pending(o, input, SkipWs(input, pos), base, stack, state)
  {
    hide SkipRest, SkipMember, SkipVal;
    var p := SkipWs(input, pos);
    ValWs(o, input, pos, base + |stack|);
    if stack != [] {
      RestWs(o, input, pos, base + |stack|, stack[|stack| - 1]);
    }
  }

  lemma ValWs(o: Options, input: seq<byte>, pos: nat, depth: nat)
    requires pos <= |input|
    ensures SkipVal(o, input, SkipWs(input, pos), depth) == SkipVal(o, input, pos, depth)
  {
    hide SkipMember, ScalarAt;
  }

  lemma RestWs(o: Options, input: seq<byte>, pos: nat, depth: nat, obj: bool)
    requires pos <= |input|
    ensures SkipRest(o, input, SkipWs(input, pos), depth, obj) == SkipRest(o, input, pos, depth, obj)
    ensures SkipMember(o, input, SkipWs(input, pos), depth, true) == SkipMember(o, input, pos, depth, true)
  {
    hide SkipValRest, ParseString, SkipMember;
    assert KeyAt(o, input, SkipWs(input, pos)) == KeyAt(o, input, pos);
    KeyMember(o, input, pos, depth);
    KeyMember(o, input, SkipWs(input, pos), depth);
  }

  lemma KeyMember(o: Options, input: seq<byte>, pos: nat, depth: nat)
    requires pos <= |input|
    ensures var k := KeyAt(o, input, pos);
            SkipMember(o, input, pos, depth, true) == if k.NoKey? then Fail(k.error)
              else SkipValRest(o, input, k.end, depth, true)
  {
    hide SkipValRest, KeyAt;
  }

  /** Nothing is left to read. */
  lemma AtEnd(o: Options, input: seq<byte>, base: nat, stack: seq<bool>, state: Want)
    requires (state.WantKey? ==> stack != [] && stack[|stack| - 1]) && (state.AfterValue? ==> stack != [])
    ensures Pending(o, input, |input|, base, stack, state) == Fail(Error(Truncated, |input|))
  {
    hide ScalarAt;
    assert SkipWs(input, |input|) == |input|;
  }

  lemma WsStays(input: seq<byte>, p: nat)
    requires p < |input| && !IsWs(input[p])
    ensures SkipWs(input, p) == p
  {
  }

  /** An opening bracket at `p`. */
  lemma OpenTurn(o: Options, input: seq<byte>, p: nat, base: nat, stack: seq<bool>, obj: bool)
    requires p < |input| && input[p] == (if obj then OPEN_OBJECT else OPEN_ARRAY)
    ensures var now := Pending(o, input, p, base, stack, WantValue);
            var q := SkipWs(input, p + 1);
            if base + |stack| >= o.maxDepth then now == Fail(Error(DepthExceeded, p))
            else if q >= |input| then now == Fail(Error(Truncated, q))
            else if input[q] == Closer(obj) then now == Pending(o, input, q + 1, base, stack, AfterValue)
            else now == Pending(o, input, q, base, stack + [obj], if obj then WantKey else WantValue)
  {
    hide ScalarAt, SkipRest, SkipMember, SkipWs;
    WsStays(input, p);
    var q := SkipWs(input, p + 1);
    var inner := stack + [obj];
    assert inner[..|inner| - 1] == stack && inner[|inner| - 1] == obj && base + |inner| == base + |stack| + 1;
    if base + |stack| < o.maxDepth && q < |input| && input[q] != Closer(obj) {
      var depth := base + |stack| + 1;
      assert SkipVal(o, input, p, base + |stack|) == SkipMember(o, input, q, depth, obj);
      if !obj {
        ElementMember(o, input, q, depth);
      }
    }
  }

  lemma ElementMember(o: Options, input: seq<byte>, pos: nat, depth: nat)
    requires pos <= |input|
    ensures var v := SkipVal(o, input, pos, depth);
            SkipMember(o, input, pos, depth, false) == if v.Fail? then v else SkipRest(o, input, v.pos, depth, false)
  {
    hide SkipVal, SkipRest;
  }

  /** Any other value at `p`. */
  lemma ScalarTurn(o: Options, input: seq<byte>, p: nat, base: nat, stack: seq<bool>)
    requires p < |input| && !IsWs(input[p]) && input[p] != OPEN_ARRAY && input[p] != OPEN_OBJECT
    ensures var s := ScalarAt(o, input, p);
            Pending(o, input, p, base, stack, WantValue)
            == if s.NoScalar? then Fail(s.error) else Pending(o, input, s.end, base, stack, AfterValue)
  {
    hide ScalarAt, Finish, SkipMember, SkipWs;
    WsStays(input, p);
  }

  lemma KeyTurn(o: Options, input: seq<byte>, p: nat, base: nat, stack: seq<bool>)
    requires p <= |input| && stack != [] && stack[|stack| - 1]
    ensures var k := KeyAt(o, input, p);
            Pending(o, input, p, base, stack, WantKey)
            == if k.NoKey? then Fail(k.error) else Pending(o, input, k.end, base, stack, WantValue)
  {
    hide KeyAt, SkipMember, SkipVal, SkipRest;
    KeyMember(o, input, p, base + |stack|);
  }

  /** A container at `p` after one of its members. */
  lemma AfterTurn(o: Options, input: seq<byte>, p: nat, base: nat, stack: seq<bool>)
    requires p < |input| && !IsWs(input[p]) && stack != []
    ensures var now := Pending(o, input, p, base, stack, AfterValue);
            var obj := stack[|stack| - 1];
            var q := SkipWs(input, p + 1);
            if input[p] == COMMA then
              if q < |input| && (input[q] == CLOSE_OBJECT || input[q] == CLOSE_ARRAY)
                 then now == Fail(Error(UnexpectedToken, q))
              else now == Pending(o, input, q, base, stack, if obj then WantKey else WantValue)
            else if input[p] == Closer(obj) then now == Pending(o, input, p + 1, base, stack[..|stack| - 1], AfterValue)
            else now == Fail(Error(UnexpectedToken, p))
  {
    hide SkipMember, SkipVal, SkipWs;
    WsStays(input, p);
    var q := SkipWs(input, p + 1);
    if input[p] == COMMA && !stack[|stack| - 1] {
      ElementMember(o, input, q, base + |stack|);
    }
  }

  datatype Status = Ok | Err(error: Error)

  /** What one turn of the validator's loop inside a container came to. */
  datatype Turn = Failed(error: Error) | Closed | MemberNext

  datatype Decoded = NoValue(error: Error) | Value(value: Json)

  // ---- values, grown member by member ----

  /** The list of `done` followed by `rest`. */
  function OntoItems(done: seq<Json>, rest: Jsons): Jsons {
    if done == [] then rest else OntoItems(done[..|done| - 1], Jsons(done[|done| - 1], rest))
  }

  function OntoMembers(done: seq<(seq<byte>, Json)>, rest: Members): Members {
    if done == [] then rest else OntoMembers(done[..|done| - 1], Members(done[|done| - 1].0, done[|done| - 1].1, rest))
  }

  ghost function SeqAfter(done: seq<Json>, r: ReadItemsResult): ReadItemsResult {
    if r.NotReadItems? then r else ReadItems(OntoItems(done, r.items), r.pos)
  }

  ghost function MapAfter(done: seq<(seq<byte>, Json)>, r: ReadMembersResult): ReadMembersResult {
    if r.NotReadMembers? then r else ReadMembers(OntoMembers(done, r.members), r.pos)
  }

  lemma SeqGrows(o: Options, input: seq<byte>, pos: nat, depth: nat, first: bool, done: seq<Json>)
    requires pos <= |input| && CursorNext(input, pos, first, false).CursorItem?
    requires ReadVal(o, input, CursorNext(input, pos, first, false).pos, depth).Read?
    ensures var r := ReadVal(o, input, CursorNext(input, pos, first, false).pos, depth);
            SeqAfter(done, ReadSeq(o, input, pos, depth, first))
              == SeqAfter(done + [r.value], ReadSeq(o, input, r.pos, depth, false))
  {
    hide ReadVal, CursorNext;
    var v := ReadVal(o, input, CursorNext(input, pos, first, false).pos, depth).value;
    assert (done + [v])[..|done + [v]| - 1] == done;
  }

  lemma MapGrows(o: Options, input: seq<byte>, pos: nat, depth: nat, first: bool, done: seq<(seq<byte>, Json)>)
    requires pos <= |input| && CursorNext(input, pos, first, true).CursorItem?
    requires KeyAt(o, input, CursorNext(input, pos, first, true).pos).Key?
    requires ReadVal(o, input, KeyAt(o, input, CursorNext(input, pos, first, true).pos).end, depth).Read?
    ensures var k := KeyAt(o, input, CursorNext(input, pos, first, true).pos);
            var r := ReadVal(o, input, k.end, depth);
            MapAfter(done, ReadMap(o, input, pos, depth, first))
            == MapAfter(done + [(k.text, r.value)], ReadMap(o, input, r.pos, depth, false))
  {
    hide ReadVal, CursorNext, KeyAt;
    var k := KeyAt(o, input, CursorNext(input, pos, first, true).pos);
    var e := (k.text, ReadVal(o, input, k.end, depth).value);
    assert (done + [e])[..|done + [e]| - 1] == done;
  }

  lemma EmptySoFar()
    ensures forall r :: SeqAfter([], r) == r
    ensures forall r :: MapAfter([], r) == r
  {
  }

  /** vcodec::json::reader. */
  class Reader {
    const opts: Options
    const input: seq<byte>
    var pos: nat
    var depth: nat

    constructor (opts: Options, input: seq<byte>)
      ensures this.opts == opts && this.input == input && pos == 0 && depth == 0
    {
      this.opts, this.input, pos, depth := opts, input, 0, 0;
    }

    /** skip_ws. */
    method SkipBlanks()
      requires pos <= |input|
      modifies this`pos
      ensures pos == SkipWs(input, old(pos))
    {
      while pos < |input| && IsWs(input[pos])
        invariant old(pos) <= pos <= |input| && SkipWs(input, pos) == SkipWs(input, old(pos))
        decreases |input| - pos
      {
        pos := pos + 1;
      }
    }

    /** A string, word or number at `pos`; moves past it on success. */
    method TakeScalar() returns (r: ScalarResult)
      requires pos < |input|
      modifies this`pos
      ensures r == ScalarAt(opts, input, old(pos))
      ensures pos == if r.Scalar? then r.end else old(pos)
    {
      hide ParseString, ScanNumber;
      var c := input[pos];
      if c == QUOTE {
        var s := ParseStringAt(opts.validateUtf8, input, pos);
        r := if s.NoString? then NoScalar(s.error) else Scalar(JText(s.text), s.end);
      } else if c == TRUE_WORD[0] {
        r := Word(input, pos, TRUE_WORD, JBool(true));
      } else if c == FALSE_WORD[0] {
        r := Word(input, pos, FALSE_WORD, JBool(false));
      } else if c == NULL_WORD[0] {
        r := Word(input, pos, NULL_WORD, JNull);
      } else if c == MINUS || Digit(c) {
        var n := ScanNumberAt(opts.overflows, input, pos);
        match n
        case BadNumber(large) => r := NoScalar(Error(if large then OutOfRange else InvalidNumber, pos));
        case IntScan(end, i) => r := Scalar(JInt(i), end);
        case RealScan(end) => r := Scalar(JReal(input[pos..end]), end);
      } else {
        r := NoScalar(Error(UnexpectedToken, pos));
      }
      if r.Scalar? {
        pos := r.end;
      }
    }

    /** key_text: a key and its colon. */
    method TakeKey() returns (r: KeyResult)
      requires pos <= |input|
      modifies this`pos
      ensures pos <= |input| && r == KeyAt(opts, input, old(pos))
      ensures r.Key? ==> pos == r.end
    {
      hide ParseString;
      SkipBlanks();
      if pos >= |input| {
        return NoKey(Error(Truncated, pos));
      }
      if input[pos] != QUOTE {
        return NoKey(Error(UnexpectedToken, pos));
      }
      var s := ParseStringAt(opts.validateUtf8, input, pos);
      if s.NoString? {
        return NoKey(s.error);
      }
      pos := s.end;
      SkipBlanks();
      if pos >= |input| {
        return NoKey(Error(Truncated, pos));
      }
      if input[pos] != COLON {
        return NoKey(Error(UnexpectedToken, pos));
      }
      pos := pos + 1;
      return Key(s.text, pos);
    }

    /** An opening bracket: at once the closing one, or the first member. */
    method EnterContainer(obj: bool, ghost stack: seq<bool>) returns (t: Turn)
      requires pos < |input| && input[pos] == (if obj then OPEN_OBJECT else OPEN_ARRAY)
               && depth + |stack| < opts.maxDepth
      modifies this`pos
      ensures old(pos) < pos <= |input|
      ensures Pending(opts, input, old(pos), depth, stack, WantValue)
              == match t
                 case Failed(e) => Fail(e)
                 case Closed => Pending(opts, input, pos, depth, stack, AfterValue)
                 case MemberNext => Pending(opts, input, pos, depth, stack + [obj], if obj then WantKey else WantValue)
    {
      hide Pending, SkipWs;
      OpenTurn(opts, input, pos, depth, stack, obj);
      pos := pos + 1;
      SkipBlanks();
      if pos >= |input| {
        return Failed(Error(Truncated, pos));
      }
      if input[pos] == Closer(obj) {
        pos := pos + 1;
        return Closed;
      }
      return MemberNext;
    }

    /** After a member: a comma and another one, or the closing bracket. */
    method AfterMember(obj: bool, ghost stack: seq<bool>) returns (t: Turn)
      requires pos < |input| && !IsWs(input[pos]) && stack != [] && stack[|stack| - 1] == obj
      modifies this`pos
      ensures pos <= |input| && (!t.Failed? ==> old(pos) < pos)
      ensures Pending(opts, input, old(pos), depth, stack, AfterValue)
              == match t
                 case Failed(e) => Fail(e)
                 case Closed => Pending(opts, input, pos, depth, stack[..|stack| - 1], AfterValue)
                 case MemberNext => Pending(opts, input, pos, depth, stack, if obj then WantKey else WantValue)
    {
      hide Pending, SkipWs;
      AfterTurn(opts, input, pos, depth, stack);
      if input[pos] == COMMA {
        pos := pos + 1;
        SkipBlanks();
        if pos < |input| && (input[pos] == CLOSE_OBJECT || input[pos] == CLOSE_ARRAY) {
          return Failed(Error(UnexpectedToken, pos));
        }
        return MemberNext;
      }
      if input[pos] == Closer(obj) {
        pos := pos + 1;
        return Closed;
      }
      return Failed(Error(UnexpectedToken, pos));
    }

    /** skip_value: one value, with three states and one bit per open container. */
    method SkipValue() returns (r: Status)
      requires pos <= |input|
      modifies this`pos
      ensures pos <= |input|
      ensures match SkipVal(opts, input, old(pos), depth)
              case Done(p) => r == Ok && pos == p
              case Fail(e) => r == Err(e)
    {
      hide SkipVal, SkipRest, SkipMember, ScalarAt, KeyAt, Finish, SkipWs, Pending;
      var isObject := new bool[opts.maxDepth + 1];
      var local: nat, state := 0, WantValue;
      ghost var goal := SkipVal(opts, input, pos, depth);
      WholeValue(opts, input, pos, depth, isObject[..0]);
      while true
        invariant pos <= |input| && local <= opts.maxDepth < isObject.Length
                  && (local > 0 ==> depth + local <= opts.maxDepth)
        invariant state.WantKey? ==> local > 0 && isObject[local - 1]
        invariant goal == Pending(opts, input, pos, depth, isObject[..local], state)
        decreases |input| - pos
      {
        ghost var stack := isObject[..local];
        if state.AfterValue? && local == 0 {
          WholeDone(opts, input, pos, depth, stack);
          return Ok;
        }
        PendingAfterWs(opts, input, pos, depth, stack, state);
        SkipBlanks();
        if pos >= |input| {
          AtEnd(opts, input, depth, stack, state);
          return Err(Error(Truncated, pos));
        }
        var c := input[pos];
        match state
        case WantValue =>
          if c == OPEN_ARRAY || c == OPEN_OBJECT {
            var obj := c == OPEN_OBJECT;
            if depth + local >= opts.maxDepth {
              OpenTurn(opts, input, pos, depth, stack, obj);
              return Err(Error(DepthExceeded, pos));
            }
            isObject[local] := obj;
            assert isObject[..local] == stack && isObject[..local + 1] == stack + [obj];
            var turn := EnterContainer(obj, stack);
            match turn
            case Failed(e) =>
              return Err(e);
            case Closed =>
              state := AfterValue;
            case MemberNext =>
              local, state := local + 1, if obj then WantKey else WantValue;
          } else {
            ScalarTurn(opts, input, pos, depth, stack);
            var s := TakeScalar();
            if s.NoScalar? {
              return Err(s.error);
            }
            state := AfterValue;
          }
        case WantKey =>
          KeyTurn(opts, input, pos, depth, stack);
          var k := TakeKey();
          if k.NoKey? {
            return Err(k.error);
          }
          state := WantValue;
        case AfterValue =>
          var obj := isObject[local - 1];
          assert isObject[..local - 1] == stack[..|stack| - 1];
          var turn := AfterMember(obj, stack);
          match turn
          case Failed(e) =>
            return Err(e);
          case Closed =>
            local := local - 1;
          case MemberNext =>
            state := if obj then WantKey else WantValue;
      }
    }

    // ---- cursors and generic values ----

    /** next of either cursor: leaves the container at its end. */
    method Next(first: bool, obj: bool) returns (r: Cursor)
      requires pos <= |input| && depth > 0
      modifies this`pos, this`depth
      ensures pos <= |input| && r == CursorNext(input, old(pos), first, obj)
      ensures !r.CursorError? ==> pos == r.pos
      ensures depth == if r.CursorEnd? then old(depth) - 1 else old(depth)
    {
      SkipBlanks();
      if pos >= |input| {
        return CursorError(Error(Truncated, pos));
      }
      if input[pos] == Closer(obj) {
        pos, depth := pos + 1, depth - 1;
        return CursorEnd(pos);
      }
      if first {
        return CursorItem(pos);
      }
      if input[pos] != COMMA {
        return CursorError(Error(UnexpectedToken, pos));
      }
      pos := pos + 1;
      SkipBlanks();
      if pos < |input| && input[pos] == Closer(obj) {
        return CursorError(Error(UnexpectedToken, pos));
      }
      return CursorItem(pos);
    }

    method DecodeArray() returns (r: Decoded)
      requires pos < |input| && depth < opts.maxDepth
      modifies this`pos, this`depth
      ensures pos <= |input|
      ensures match ReadSeq(opts, input, old(pos) + 1, old(depth) + 1, true)
              case NotReadItems(e) => r == NoValue(e)
              case ReadItems(items, p) => r == Value(JArray(items)) && pos == p && depth == old(depth)
      decreases |input| - pos, 0
    {
      hide ReadVal, CursorNext, OntoItems;
      ghost var outer := depth;
      pos, depth := pos + 1, depth + 1;
      var done: seq<Json>, first := [], true;
      ghost var goal := ReadSeq(opts, input, pos, depth, true);
      EmptySoFar();
      while true
        invariant old(pos) < pos <= |input| && depth == outer + 1
        invariant goal == SeqAfter(done, ReadSeq(opts, input, pos, depth, first))
        decreases |input| - pos
      {
        ghost var at := pos;
        var more := Next(first, false);
        match more
        case CursorError(e) =>
          return NoValue(e);
        case CursorEnd(_) =>
          return Value(JArray(OntoItems(done, NoJsons)));
        case CursorItem(_) =>
          var v := DecodeValue();
          if v.NoValue? {
            return NoValue(v.error);
          }
          SeqGrows(opts, input, at, depth, first, done);
          done, first := done + [v.value], false;
      }
    }

    method DecodeObject() returns (r: Decoded)
      requires pos < |input| && depth < opts.maxDepth
      modifies this`pos, this`depth
      ensures pos <= |input|
      ensures match ReadMap(opts, input, old(pos) + 1, old(depth) + 1, true)
              case NotReadMembers(e) => r == NoValue(e)
              case ReadMembers(members, p) => r == Value(JObject(members)) && pos == p && depth == old(depth)
      decreases |input| - pos, 0
    {
      hide ReadVal, CursorNext, KeyAt, OntoMembers;
      ghost var outer := depth;
      pos, depth := pos + 1, depth + 1;
      var done: seq<(seq<byte>, Json)>, first := [], true;
      ghost var goal := ReadMap(opts, input, pos, depth, true);
      EmptySoFar();
      while true
        invariant old(pos) < pos <= |input| && depth == outer + 1
        invariant goal == MapAfter(done, ReadMap(opts, input, pos, depth, first))
        decreases |input| - pos
      {
        ghost var at := pos;
        var more := Next(first, true);
        match more
        case CursorError(e) =>
          return NoValue(e);
        case CursorEnd(_) =>
          return Value(JObject(OntoMembers(done, NoMembers)));
        case CursorItem(_) =>
          var k := TakeKey();
          if k.NoKey? {
            return NoValue(k.error);
          }
          var v := DecodeValue();
          if v.NoValue? {
            return NoValue(v.error);
          }
          MapGrows(opts, input, at, depth, first, done);
          done, first := done + [(k.text, v.value)], false;
      }
    }

    /** decode of a generic value: dispatch on the next byte, then the cursors. */
    method DecodeValue() returns (r: Decoded)
      requires pos <= |input|
      modifies this`pos, this`depth
      ensures pos <= |input|
      ensures match ReadVal(opts, input, old(pos), old(depth))
              case NotRead(e) => r == NoValue(e)
              case Read(v, p) => r == Value(v) && pos == p && depth == old(depth)
      decreases |input| - pos, 1
    {
      hide ReadSeq, ReadMap, ScalarAt;
      SkipBlanks();
      if pos >= |input| {
        return NoValue(Error(Truncated, pos));
      }
      if input[pos] == OPEN_ARRAY || input[pos] == OPEN_OBJECT {
        if depth >= opts.maxDepth {
          return NoValue(Error(DepthExceeded, pos));
        }
        if input[pos] == OPEN_ARRAY {
          r := DecodeArray();
        } else {
          r := DecodeObject();
        }
        return;
      }
      var s := TakeScalar();
      r := if s.NoScalar? then NoValue(s.error) else Value(s.value);
    }
  }

  lemma WholeValue(o: Options, input: seq<byte>, pos: nat, base: nat, stack: seq<bool>)
    requires pos <= |input| && stack == []
    ensures Pending(o, input, pos, base, stack, WantValue) == SkipVal(o, input, pos, base)
  {
    hide SkipVal;
  }

  lemma WholeDone(o: Options, input: seq<byte>, pos: nat, base: nat, stack: seq<bool>)
    requires pos <= |input| && stack == []
    ensures Pending(o, input, pos, base, stack, AfterValue) == Done(pos)
  {
  }
}
