/** The CBOR validator as a recursive descent over the input: what `skip_value` computes. */
module SkipSpec {
  import opened Bytes
  import opened Head
  import opened Utf8
  import opened Floats

  datatype Options = Options(requireDeterministic: bool, ignoreUnknownTags: bool, undefinedAsNull: bool, maxDepth: nat,
                             validateUtf8: bool)

  datatype Errc =
    | UnexpectedToken | InvalidUtf8 | TrailingContent | DepthExceeded | Truncated
    | TypeMismatch | OutOfRange
    | MalformedItem | TagMismatch | NonDeterministic

  datatype Error = Error(code: Errc, offset: nat)

  /** `wrapped` tells that some map head claimed 2^63 entries or more. */
  datatype Outcome = Fail(error: Error) | Done(pos: nat, wrapped: bool)

  function OrWrapped(w: bool, r: Outcome): Outcome {
    if r.Done? && w then r.(wrapped := true) else r
  }

  // ---- strings ----

  datatype StringResult = NoString(error: Error) | String(bytes: seq<byte>, end: nat)

  /** read_string on a definite head, or on the chunks of an indefinite one. */
  function ReadString(o: Options, input: seq<byte>, pos: nat, h: ParsedHead): (r: StringResult)
    requires pos + h.length <= |input|
    ensures r.String? ==> pos + h.length <= r.end <= |input|
  {
    if !h.indefinite then
      if h.value > |input| - pos - h.length then NoString(Error(Truncated, pos))
      else String(input[pos + h.length..pos + h.length + h.value], pos + h.length + h.value)
    else if o.requireDeterministic then NoString(Error(NonDeterministic, pos))
    else ReadChunks(o, input, pos + h.length, h.mt, [])
  }

  datatype Chunk = BadChunk(error: Error) | LastChunk | Chunk(span: seq<byte>, end: nat)

  /** One chunk of an indefinite-length string, or the break that ends it. */
  function ChunkAt(o: Options, input: seq<byte>, pos: nat, mt: major): (r: Chunk)
    ensures r.Chunk? ==> pos < r.end <= |input|
    ensures r.LastChunk? ==> pos < |input|
  {
    if pos >= |input| then BadChunk(Error(Truncated, pos))
    else if input[pos] == BREAK then LastChunk
    else
      var c := ParseHead(input, pos);
      if c.length == 0 then BadChunk(Error(Truncated, pos))
      else if c.mt != mt || c.indefinite then BadChunk(Error(MalformedItem, pos))
      else if c.value > |input| - pos - c.length then BadChunk(Error(Truncated, pos))
      else
        var span := input[pos + c.length..pos + c.length + c.value];
        if o.validateUtf8 && mt == TEXT && !WellFormed(span)
           then BadChunk(Error(InvalidUtf8, pos + c.length + FirstBad(span)))
        else Chunk(span, pos + c.length + c.value)
  }

  /** The chunks from `pos` up to the break, appended to `scratch`. */
  function ReadChunks(o: Options, input: seq<byte>, pos: nat, mt: major, scratch: seq<byte>): (r: StringResult)
    requires pos <= |input|
    ensures r.String? ==> pos < r.end <= |input|
    decreases |input| - pos
  {
    match ChunkAt(o, input, pos, mt)
    case BadChunk(e) => NoString(e)
    case LastChunk => String(scratch, pos + 1)
    case Chunk(span, end) => ReadChunks(o, input, end, mt, scratch + span)
  }

  // ---- items ----

  /** check_head_deterministic. */
  predicate HeadDeterministic(h: ParsedHead) {
    !h.indefinite && (h.Shortest() || h.mt == SIMPLE)
  }

  /** The checks every item head goes through before its type matters. */
  function HeadError(o: Options, h: ParsedHead, pos: nat): Option<Error> {
    if h.length == 0 then Some(Error(Truncated, pos))
    else if h.isBreak || h.reserved then Some(Error(MalformedItem, pos))
    else if o.requireDeterministic && !HeadDeterministic(h) then Some(Error(NonDeterministic, pos))
    else None
  }

  lemma FloatHead(input: seq<byte>, pos: nat)
    requires ParseHead(input, pos).Plain() && 25 <= ParseHead(input, pos).ai
    ensures var h := ParseHead(input, pos); IsForm(FloatForm(h.ai, h.value)) && (h.ai == 25 ==> h.value < 0x1_0000)
  {
    Pow256Values();
    FormWidths();
  }

  /** Integers, simple values, floats and strings. */
  function SkipScalar(o: Options, input: seq<byte>, pos: nat): (r: Outcome)
    requires var h := ParseHead(input, pos);
             h.length > 0 && !h.isBreak && !h.reserved && h.mt != ARRAY && h.mt != MAP && h.mt != TAG
    ensures r.Done? ==> pos < r.pos <= |input| && !r.wrapped
  {
    var h := ParseHead(input, pos);
    if h.mt == UINT || h.mt == NINT then Done(pos + h.length, false)
    else if h.mt == SIMPLE then
      if h.ai == 24 && h.value < 32 then Fail(Error(MalformedItem, pos))
      else if o.requireDeterministic && h.ai >= 25 then
        FloatHead(input, pos);
        var w := FloatForm(h.ai, h.value);
        if IsPreferred(Widen(w), w) then Done(pos + h.length, false) else Fail(Error(NonDeterministic, pos))
      else Done(pos + h.length, false)
    else
      match ReadString(o, input, pos, h)
      case NoString(e) => Fail(e)
      case String(s, end) =>
        if o.validateUtf8 && h.mt == TEXT && !WellFormed(s) then
          Fail(Error(InvalidUtf8, if h.indefinite then pos else pos + h.length + FirstBad(s)))
        else Done(end, false)
  }

  /** What the validator remembers of an open container. */
  datatype Level = Level(isMap: bool, remaining: Option<nat>, keyNext: bool,
                         keyStart: nat, prevStart: nat, prevEnd: nat, inKey: bool, havePrev: bool) {
    /** Recorded extents lie in the input read so far. */
    predicate Ok(pos: nat) {
      && (inKey ==> keyStart <= pos)
      && (havePrev ==> prevStart <= prevEnd <= pos)
      && (remaining.Some? ==> remaining.value < TWO64)
    }
  }

  /** A container just opened. The count of a map is doubled in 64 bits. */
  function OpenLevel(h: ParsedHead): Level {
    var remaining := if h.indefinite then None else Some(if h.mt == MAP then h.value * 2 % TWO64 else h.value);
    Level(h.mt == MAP, remaining, true, 0, 0, 0, false, false)
  }

  /** Mark where a key begins, when the order of keys matters. */
  function AtItem(o: Options, lv: Level, pos: nat): Level {
    if o.requireDeterministic && lv.isMap && lv.keyNext && !lv.inKey then lv.(keyStart := pos, inKey := true) else lv
  }

  datatype Step = Bad(error: Error) | Complete | More(level: Level)

  predicate KeyInOrder(cur: seq<byte>, prev: seq<byte>) {
    !Less(cur, prev) && cur != prev
  }

  /** An item of the container ended at `pos`. */
  function AfterItem(o: Options, input: seq<byte>, pos: nat, lv: Level): (r: Step)
    requires pos <= |input| && lv.Ok(pos)
    requires o.requireDeterministic && lv.isMap && lv.keyNext ==> lv.inKey
    ensures r.More? ==> r.level.Ok(pos)
    ensures r.More? && o.requireDeterministic && r.level.isMap && r.level.inKey ==> lv.inKey && !lv.keyNext
  {
    var isKey := o.requireDeterministic && lv.isMap && lv.keyNext;
    if isKey && lv.havePrev && !KeyInOrder(input[lv.keyStart..pos], input[lv.prevStart..lv.prevEnd]) then
      Bad(Error(NonDeterministic, lv.keyStart))
    else
      var lv1 := if isKey then lv.(prevStart := lv.keyStart, prevEnd := pos, havePrev := true, inKey := false) else lv;
      var lv2 := if lv1.isMap then lv1.(keyNext := !lv1.keyNext) else lv1;
      match lv2.remaining
      case None => More(lv2)
      case Some(r) =>
        var left := (r + TWO64 - 1) % TWO64;
        if left == 0 then Complete else More(lv2.(remaining := Some(left)))
  }

  /** One item at `pos`, inside `depth` open containers. */
  function SkipItem(o: Options, input: seq<byte>, pos: nat, depth: nat): (r: Outcome)
    requires pos <= |input|
    ensures r.Done? ==> pos < r.pos <= |input|
    decreases |input| - pos, 0
  {
    var h := ParseHead(input, pos);
    match HeadError(o, h, pos)
    case Some(e) => Fail(e)
    case None =>
      if h.mt == TAG then
        var next := pos + h.length;
        if next >= |input| then Fail(Error(Truncated, next))
        else if input[next] == BREAK then Fail(Error(MalformedItem, next))
        else SkipItem(o, input, next, depth)
      else if h.mt == ARRAY || h.mt == MAP then
        if depth >= o.maxDepth then Fail(Error(DepthExceeded, pos))
        else if !h.indefinite && h.value == 0 then Done(pos + h.length, false)
        else OrWrapped(h.mt == MAP && h.value >= TWO63, SkipLevel(o, input, pos + h.length, depth + 1, OpenLevel(h)))
      else SkipScalar(o, input, pos)
  }

  /** The remaining items of an open container, up to its end. */
  function SkipLevel(o: Options, input: seq<byte>, pos: nat, depth: nat, lv: Level): (r: Outcome)
    requires pos <= |input| && lv.Ok(pos)
    ensures r.Done? ==> pos < r.pos <= |input|
    decreases |input| - pos, 1
  {
    var h := ParseHead(input, pos);
    if h.length == 0 then Fail(Error(Truncated, pos))
    else if h.isBreak then
      if lv.remaining.Some? || (lv.isMap && !lv.keyNext) then Fail(Error(MalformedItem, pos))
      else Done(pos + 1, false)
    else
      match SkipItem(o, input, pos, depth)
      case Fail(e) => Fail(e)
      case Done(p, w) =>
        match AfterItem(o, input, p, AtItem(o, lv, pos))
        case Bad(e) => Fail(e)
        case Complete => Done(p, w)
        case More(next) => OrWrapped(w, SkipLevel(o, input, p, depth, next))
  }
}
