/** The cursor-driven reader as a recursive function: what decoding a generic value computes. */
module ReadSpec {
  import opened Bytes
  import opened Head
  import opened Utf8
  import opened Floats
  import opened Item
  import opened SkipSpec

  datatype Kind = KUInt | KSInt | KBytes | KText | KArray | KMap | KBoolean | KNull | KReal | KTag | KUndefined

  /** peek: the kind of the next item, behind ignorable tags. */
  function PeekKind(o: Options, input: seq<byte>, pos: nat): Kind
    decreases |input| - pos
  {
    var h := ParseHead(input, pos);
    if h.length == 0 || h.reserved || h.isBreak then KUndefined
    else if h.mt == TAG then if o.ignoreUnknownTags then PeekKind(o, input, pos + h.length) else KTag
    else if h.mt == UINT then KUInt
    else if h.mt == NINT then KSInt
    else if h.mt == BYTES then KBytes
    else if h.mt == TEXT then KText
    else if h.mt == ARRAY then KArray
    else if h.mt == MAP then KMap
    else if h.ai == 20 || h.ai == 21 then KBoolean
    else if h.ai == 22 then KNull
    else if h.ai == 23 then if o.undefinedAsNull then KNull else KUndefined
    else if 25 <= h.ai <= 27 then KReal
    else KUndefined
  }

  datatype HeadResult = NoHead(error: Error) | HeadAt(at: nat, head: ParsedHead, loose: bool)

  /** item_head: the head of the next item, behind ignorable tags and after all checks. `loose` tells that
      one of the tags had a head longer than needed, which item_head does not look at. */
  function ItemHead(o: Options, input: seq<byte>, pos: nat): (r: HeadResult)
    ensures r.HeadAt? ==> pos <= r.at < |input| && r.head == ParseHead(input, r.at) && r.head.mt != TAG
    ensures r.HeadAt? ==> HeadError(o, r.head, r.at).None?
    ensures r.HeadAt? ==> !(r.head.mt == SIMPLE && r.head.ai == 24 && r.head.value < 32)
    decreases |input| - pos
  {
    var h := ParseHead(input, pos);
    if h.length == 0 then NoHead(Error(Truncated, pos))
    else if h.isBreak || h.reserved then NoHead(Error(MalformedItem, pos))
    else if h.mt == TAG then
      if !o.ignoreUnknownTags then NoHead(Error(TagMismatch, pos))
      else
        match ItemHead(o, input, pos + h.length)
        case NoHead(e) => NoHead(e)
        case HeadAt(at, head, loose) => HeadAt(at, head, loose || !h.Shortest())
    else if h.mt == SIMPLE && h.ai == 24 && h.value < 32 then NoHead(Error(MalformedItem, pos))
    else if o.requireDeterministic && !HeadDeterministic(h) then NoHead(Error(NonDeterministic, pos))
    else HeadAt(pos, h, false)
  }

  /** `loose` tells that a tag with a head longer than needed was skipped on the way. */
  datatype ReadResult = NotRead(error: Error) | Read(item: Item, pos: nat, loose: bool)

  datatype ReadItemsResult = NotReadItems(error: Error) | ReadItems(items: Items, pos: nat, loose: bool)

  datatype ReadEntriesResult = NotReadEntries(error: Error) | ReadEntries(entries: Entries, pos: nat, loose: bool)

  /** Neither a value nor a prefix of one: the validator's error, or a complaint about the kind. */
  function Reject(o: Options, input: seq<byte>, pos: nat, depth: nat): (r: ReadResult)
    requires pos <= |input|
    ensures r.NotRead?
  {
    match SkipItem(o, input, pos, depth)
    case Fail(e) => NotRead(e)
    case Done(p, _) => NotRead(Error(UnexpectedToken, p))
  }

  /** Integers, simple values, floats and strings, at the head `h` found at `at`. */
  function ReadScalar(o: Options, input: seq<byte>, at: nat, loose: bool): (r: ReadResult)
    requires at < |input| && HeadError(o, ParseHead(input, at), at).None?
    requires var m := ParseHead(input, at).mt; m != ARRAY && m != MAP && m != TAG
    ensures r.Read? ==> at < r.pos <= |input| && r.loose == loose
  {
    var h := ParseHead(input, at);
    if h.mt == UINT then Read(UInt(h.value), at + h.length, loose)
    else if h.mt == NINT then Read(NInt(h.value), at + h.length, loose)
    else if h.mt == SIMPLE then
      if 25 <= h.ai <= 27 then
        FloatHead(input, at);
        var w := FloatForm(h.ai, h.value);
        if o.requireDeterministic && !IsPreferred(Widen(w), w) then NotRead(Error(NonDeterministic, at))
        else Read(Float(Widen(w)), at + h.length, loose)
      else if h.ai == 23 then
        if o.undefinedAsNull then Read(Simple(22), at + h.length, loose) else NotRead(Error(TypeMismatch, at))
      else Read(Simple(h.value), at + h.length, loose)
    else
      match ReadString(o, input, at, h)
      case NoString(e) => NotRead(e)
      case String(s, end) =>
        if h.mt == BYTES then Read(ByteString(s), end, loose)
        else if o.validateUtf8 && !WellFormed(s) then
          NotRead(Error(InvalidUtf8, if h.indefinite then at else at + h.length + FirstBad(s)))
        else Read(TextString(s), end, loose)
  }

  /** A generic value at `pos`, inside `depth` open containers. */
  function ReadItem(o: Options, input: seq<byte>, pos: nat, depth: nat): (r: ReadResult)
    requires pos <= |input|
    ensures r.Read? ==> pos < r.pos <= |input|
    decreases |input| - pos, 1
  {
    match ItemHead(o, input, pos)
    case NoHead(e) =>
      var k := PeekKind(o, input, pos);
      if k.KUndefined? || k.KTag? then Reject(o, input, pos, depth) else NotRead(e)
    case HeadAt(at, h, loose) => ReadAt(o, input, at, depth, loose)
  }

  /** The value whose checked head is at `at`. */
  function ReadAt(o: Options, input: seq<byte>, at: nat, depth: nat, loose: bool): (r: ReadResult)
    requires at < |input| && HeadError(o, ParseHead(input, at), at).None? && ParseHead(input, at).mt != TAG
    ensures r.Read? ==> at < r.pos <= |input|
    decreases |input| - at, 0
  {
    var h := ParseHead(input, at);
    if h.mt == ARRAY then
      if depth >= o.maxDepth then NotRead(Error(DepthExceeded, at))
      else
        match ReadSeq(o, input, at + h.length, depth + 1, if h.indefinite then None else Some(h.value))
        case NotReadItems(e) => NotRead(e)
        case ReadItems(items, p, g) => Read(Array(items), p, g || loose)
    else if h.mt == MAP then
      if depth >= o.maxDepth then NotRead(Error(DepthExceeded, at))
      else
        match ReadMap(o, input, at + h.length, depth + 1, if h.indefinite then None else Some(h.value), None)
        case NotReadEntries(e) => NotRead(e)
        case ReadEntries(entries, p, g) => Read(Map(entries), p, g || loose)
    else if h.mt == SIMPLE && h.ai == 23 && !o.undefinedAsNull then Reject(o, input, at, depth)
    else ReadScalar(o, input, at, loose)
  }

  datatype Cursor = CursorError(error: Error) | CursorEnd(pos: nat) | CursorItem(remaining: Option<nat>)

  /** seq_cursor::next and the common part of map_cursor::next. */
  function CursorNext(input: seq<byte>, pos: nat, remaining: Option<nat>): (r: Cursor)
    requires pos <= |input|
    ensures r.CursorEnd? ==> pos <= r.pos <= |input|
    ensures r.CursorItem? ==> pos < |input|
  {
    match remaining
    case Some(n) =>
      if n == 0 then CursorEnd(pos)
      else if pos >= |input| then CursorError(Error(Truncated, pos))
      else CursorItem(Some(n - 1))
    case None =>
      if pos >= |input| then CursorError(Error(Truncated, pos))
      else if input[pos] == BREAK then CursorEnd(pos + 1)
      else CursorItem(None)
  }

  function ReadSeq(o: Options, input: seq<byte>, pos: nat, depth: nat, remaining: Option<nat>): (r: ReadItemsResult)
    requires pos <= |input|
    ensures r.ReadItems? ==> pos <= r.pos <= |input|
    decreases |input| - pos, 2
  {
    match CursorNext(input, pos, remaining)
    case CursorError(e) => NotReadItems(e)
    case CursorEnd(p) => ReadItems(NoItems, p, false)
    case CursorItem(left) =>
      match ReadItem(o, input, pos, depth)
      case NotRead(e) => NotReadItems(e)
      case Read(t, p, g) =>
        match ReadSeq(o, input, p, depth, left)
        case NotReadItems(e) => NotReadItems(e)
        case ReadItems(rest, q, g') => ReadItems(Items(t, rest), q, g || g')
  }

  /** Extent of a key. */
  datatype Extent = Extent(start: nat, end: nat)

  datatype KeyAhead = KeyBad(error: Error) | KeyOk(prev: Option<Extent>)

  predicate ExtentOk(e: Option<Extent>, n: nat) {
    e.Some? ==> e.value.start <= e.value.end <= n
  }

  /** key_ahead: in deterministic mode the next key must be above the one before it. */
  function CheckKey(o: Options, input: seq<byte>, pos: nat, depth: nat, prev: Option<Extent>): (r: KeyAhead)
    requires pos <= |input| && ExtentOk(prev, |input|)
    ensures r.KeyOk? ==> ExtentOk(r.prev, |input|)
  {
    if !o.requireDeterministic then KeyOk(prev)
    else
      match SkipItem(o, input, pos, depth)
      case Fail(_) => KeyOk(prev)
      case Done(end, _) =>
        if prev.Some? && !KeyInOrder(input[pos..end], input[prev.value.start..prev.value.end])
           then KeyBad(Error(NonDeterministic, pos))
        else KeyOk(Some(Extent(pos, end)))
  }

  function ReadMap(o: Options, input: seq<byte>, pos: nat, depth: nat, remaining: Option<nat>,
                   prev: Option<Extent>): (r: ReadEntriesResult)
    requires pos <= |input| && ExtentOk(prev, |input|)
    ensures r.ReadEntries? ==> pos <= r.pos <= |input|
    decreases |input| - pos, 2
  {
    match CursorNext(input, pos, remaining)
    case CursorError(e) => NotReadEntries(e)
    case CursorEnd(p) => ReadEntries(NoEntries, p, false)
    case CursorItem(left) =>
      match CheckKey(o, input, pos, depth, prev)
      case KeyBad(e) => NotReadEntries(e)
      case KeyOk(prev') =>
        match ReadItem(o, input, pos, depth)
        case NotRead(e) => NotReadEntries(e)
        case Read(k, p, g) =>
          match ReadItem(o, input, p, depth)
          case NotRead(e) => NotReadEntries(e)
          case Read(v, q, g') =>
            match ReadMap(o, input, q, depth, left, prev')
            case NotReadEntries(e) => NotReadEntries(e)
            case ReadEntries(rest, z, g'') => ReadEntries(Entries(k, v, rest), z, g || g' || g'')
  }

  /** The looseness of tags before a head changes only the flag of the answer. */
  lemma LooseAdds(o: Options, input: seq<byte>, at: nat, depth: nat, loose: bool)
    requires at < |input| && HeadError(o, ParseHead(input, at), at).None? && ParseHead(input, at).mt != TAG
    ensures var r, tight := ReadAt(o, input, at, depth, loose), ReadAt(o, input, at, depth, false);
            if tight.Read? then r == tight.(loose := tight.loose || loose) else r == tight
  {
    hide ReadSeq, ReadMap, ReadString, WellFormed, IsPreferred, Widen, Reject;
  }
}
