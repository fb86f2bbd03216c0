/** Type-directed decoding over the CBOR cursors, in fail-fast and in collecting mode, as functions. */
module BuildSpec {
  import opened Bytes
  import opened Head
  import opened Utf8
  import opened SkipSpec
  import opened ReadSpec

  // ---- errors and their paths ----

  datatype Code =
    | Syntax(errc: Errc) | MissingField | UnknownField | DuplicateKey
    | UnknownEnumerator | MissingTag | NoVariantAlternative

  datatype PathStep = Member(name: seq<byte>) | Index(i: nat) | KeyText(key: seq<byte>) | KeyInt(k: nat)

  const MAX_STEPS: nat := 16

  /** Steps are leaf first until the error is finalized. */
  datatype Failure = Failure(code: Code, offset: nat, path: seq<PathStep>, truncated: bool)

  function Push(e: Failure, s: PathStep): (r: Failure)
    ensures r.code == e.code && r.offset == e.offset
  {
    if |e.path| >= MAX_STEPS then e.(truncated := true) else e.(path := e.path + [s])
  }

  function PushAll(errs: seq<Failure>, s: PathStep): (r: seq<Failure>)
    ensures |r| == |errs| && (errs != [] ==> r[0] == Push(errs[0], s))
  {
    seq(|errs|, i requires 0 <= i < |errs| => Push(errs[i], s))
  }

  /** is_syntax_error: errors after which the input cannot be followed any further. */
  predicate IsSyntax(c: Code) {
    c.Syntax? && (c.errc.UnexpectedToken? || c.errc.InvalidUtf8? || c.errc.TrailingContent? || c.errc.DepthExceeded?
                  || c.errc.Truncated?
                  || c.errc.MalformedItem?)
  }

  function Fresh(e: Error): Failure {
    Failure(Syntax(e.code), e.offset, [], false)
  }

  // ---- target types and values ----

  datatype Ty =
    | TBool | TInt(range: IntType) | TText
    | TBytes(size: Option<nat>)                       // a fixed size for arrays of bytes
    | TEnum(repr: IntType, values: seq<int>)          // an enumerator by its integer value
    | TNamed(names: seq<(seq<byte>, nat)>)            // an enumerator by a name or an alias
    | TOpt(elem: Ty)
    | TSeq(elem: Ty)
    | TTuple(elems: seq<Ty>)                          // tuples, and arrays of a fixed size
    | TMap(keys: KeyType, unique: bool, elem: Ty)
    | TWrap(ident: seq<byte>, elem: Ty)               // a transparent struct: its one member stands for it
    | TStruct(fields: seq<Field>, unknown: Unknown)
    | TVariant(tag: seq<byte>, alts: seq<(seq<byte>, Ty)>)   // alternatives with their names

  /** The range of an integer type. */
  datatype IntType = Unsigned(high: nat) | Signed(low: int, top: nat) {
    predicate Has(i: int) {
      if Unsigned? then 0 <= i <= high else low <= i <= top
    }
  }

  datatype KeyType = TextKeys | IntKeys(range: IntType)

  /** What becomes of text keys no member has: whether they are refused, and the discriminator to skip when the
      struct is an alternative of a variant. */
  datatype Unknown = Unknown(refuse: bool, ignore: seq<byte>)

  /** A member: identifier, wire name, further names, integer key, whether the wire name is accepted beside an integer
      key, flags, when it is not written, initial value. */
  datatype Field = Field(ident: seq<byte>, name: seq<byte>, aliases: seq<seq<byte>>, key: Option<int>, textOk: bool,
                         required: bool,
                         skip: bool, omit: Omission, default: Option<Value>, init: Value, ty: Ty)

  /** skip_serializing, skip_if_null and skip_if_default. */
  datatype Omission = Omission(never: bool, ifNull: bool, ifDefault: bool)

  datatype MapKey = NameKey(s: seq<byte>) | NumberKey(i: int)

  datatype Pair = Pair(key: MapKey, val: Value)

  datatype Value =
    | VBool(b: bool) | VInt(i: int) | VText(s: seq<byte>) | VBytes(s: seq<byte>)
    | VNone | VSome(v: Value)
    | VSeq(elems: seq<Value>)
    | VMap(entries: seq<Pair>)
    | VStruct(members: seq<Value>)
    | VAlt(alt: nat, v: Value)

  /** A default-constructed target. */
  function Initial(t: Ty): Value {
    match t
    case TBool => VBool(false)
    case TInt(_) => VInt(0)
    case TText => VText([])
    case TBytes(size) => VBytes(seq(if size.Some? then size.value else 0, i => 0))
    case TEnum(_, _) => VInt(0)
    case TNamed(_) => VInt(0)
    case TOpt(_) => VNone
    case TSeq(_) => VSeq([])
    case TTuple(elems) => VSeq(seq(|elems|, i requires 0 <= i < |elems| => Initial(elems[i])))
    case TMap(_, _, _) => VMap([])
    case TWrap(_, elem) => VStruct([Initial(elem)])
    case TStruct(fields, _) => VStruct(Inits(fields))
    case TVariant(_, alts) => if alts == [] then VNone else VAlt(0, Initial(alts[0].1))
  }

  function Inits(fields: seq<Field>): (r: seq<Value>)
    ensures |r| == |fields|
  {
    seq(|fields|, i requires 0 <= i < |fields| => fields[i].init)
  }

  datatype Duplicates = ErrorOnDuplicate | FirstWins | LastWins

  datatype Config = Config(opts: Options, duplicates: Duplicates, collect: bool)

  // ---- scalars ----

  datatype Got<T> = Missed(error: Error) | Got(value: T, end: nat)

  function ExpectText(o: Options, input: seq<byte>, pos: nat): (r: Got<seq<byte>>)
    ensures r.Got? ==> pos < r.end <= |input|
  {
    match ItemHead(o, input, pos)
    case NoHead(e) => Missed(e)
    case HeadAt(at, h, _) =>
      if h.mt != TEXT then Missed(Error(TypeMismatch, at))
      else
        match ReadScalar(o, input, at, false)
        case NotRead(e) => Missed(e)
        case Read(t, end, _) => Got(if t.TextString? then t.text else [], end)
  }

  function ExpectBytes(o: Options, input: seq<byte>, pos: nat): (r: Got<seq<byte>>)
    ensures r.Got? ==> pos < r.end <= |input|
  {
    match ItemHead(o, input, pos)
    case NoHead(e) => Missed(e)
    case HeadAt(at, h, _) =>
      if h.mt != BYTES then Missed(Error(TypeMismatch, at))
      else
        match ReadScalar(o, input, at, false)
        case NotRead(e) => Missed(e)
        case Read(t, end, _) => Got(if t.ByteString? then t.bytes else [], end)
  }

  function ExpectUInt(o: Options, input: seq<byte>, pos: nat): (r: Got<nat>)
    ensures r.Got? ==> pos < r.end <= |input|
  {
    match ItemHead(o, input, pos)
    case NoHead(e) => Missed(e)
    case HeadAt(at, h, _) =>
      if h.mt == UINT then Got(h.value, at + h.length)
      else if h.mt == NINT then Missed(Error(OutOfRange, at))
      else Missed(Error(TypeMismatch, at))
  }

  function ExpectSInt(o: Options, input: seq<byte>, pos: nat): (r: Got<int>)
    ensures r.Got? ==> pos < r.end <= |input| && -TWO63 <= r.value < TWO63
  {
    match ItemHead(o, input, pos)
    case NoHead(e) => Missed(e)
    case HeadAt(at, h, _) =>
      if h.mt != UINT && h.mt != NINT then Missed(Error(TypeMismatch, at))
      else if h.value >= TWO63 then Missed(Error(OutOfRange, at))
      else Got(if h.mt == UINT then h.value else -1 - h.value as int, at + h.length)
  }

  /** A simple value whose code is `a` or `b`. */
  function ExpectSimple(o: Options, input: seq<byte>, pos: nat, a: nat, b: nat): (r: Got<nat>)
    ensures r.Got? ==> pos < r.end <= |input|
  {
    match ItemHead(o, input, pos)
    case NoHead(e) => Missed(e)
    case HeadAt(at, h, _) =>
      if h.mt == SIMPLE && (h.ai == a || h.ai == b) then Got(h.ai, at + h.length) else Missed(Error(TypeMismatch, at))
  }

  // ---- decoding ----

  /** The status returned, the target as it was left, where reading went on (if it did), and the errors collected on
      the way. */
  datatype Res = Res(status: Option<Failure>, value: Value, pos: nat, errs: seq<Failure>)

  function Failed(e: Failure, v: Value, pos: nat): Res {
    Res(Some(e), v, pos, [])
  }

  /** More errors in front. */
  function Also(errs: seq<Failure>, r: Res): Res {
    r.(errs := errs + r.errs)
  }

  lemma AlsoNothing(r: Res)
    ensures Also([], r) == r
  {
  }

  /** decode_uint and decode_sint. */
  function DecodeInt(o: Options, t: IntType, seed: Value, input: seq<byte>, pos: nat): (r: Res)
    requires pos <= |input|
    ensures r.pos <= |input| && r.errs == [] && (r.status.None? ==> pos < r.pos && r.value.VInt? && t.Has(r.value.i))
  {
    match ExpectInt(o, t, input, pos)
    case Missed(e) => Failed(Fresh(e), seed, pos)
    case Got(i, end) => if t.Has(i) then Res(None, VInt(i), end, [])
      else Failed(Fresh(Error(OutOfRange, pos)), seed, pos)
  }

  function ExpectInt(o: Options, t: IntType, input: seq<byte>, pos: nat): (r: Got<int>)
    ensures r.Got? ==> pos < r.end <= |input|
  {
    if t.Signed? then ExpectSInt(o, input, pos)
    else
      match ExpectUInt(o, input, pos)
      case Missed(e) => Missed(e)
      case Got(u, end) => Got(u, end)
  }

  function DecodeText(o: Options, seed: Value, input: seq<byte>, pos: nat): (r: Res)
    requires pos <= |input|
    ensures r.pos <= |input| && r.errs == [] && (r.status.None? ==> pos < r.pos)
  {
    match ExpectText(o, input, pos)
    case Missed(e) => Failed(Fresh(e), seed, pos)
    case Got(s, end) => Res(None, VText(s), end, [])
  }

  /** decode_bytes: a byte string, of the target's size if that is fixed. */
  function DecodeBytes(o: Options, size: Option<nat>, seed: Value, input: seq<byte>, pos: nat): (r: Res)
    requires pos <= |input|
    ensures r.pos <= |input| && r.errs == [] && (r.status.None? ==> pos < r.pos)
  {
    match ExpectBytes(o, input, pos)
    case Missed(e) => Failed(Fresh(e), seed, pos)
    case Got(s, end) =>
      if size.Some? && |s| != size.value then Failed(Fresh(Error(TypeMismatch, pos)), seed, pos)
         else Res(None, VBytes(s), end, [])
  }

  /** decode_enum by integer: the value must be one of an enumerator that is not skipped. */
  function DecodeEnum(o: Options, t: IntType, values: seq<int>, seed: Value, input: seq<byte>, pos: nat): (r: Res)
    requires pos <= |input|
    ensures r.pos <= |input| && r.errs == [] && (r.status.None? ==> pos < r.pos)
  {
    var r := DecodeInt(o, t, VInt(0), input, pos);
    if r.status.Some? then r.(value := seed)
    else if r.value.i in values then r
    else Failed(Failure(UnknownEnumerator, pos, [], false), seed, pos)
  }

  function FindNamed(names: seq<(seq<byte>, nat)>, name: seq<byte>): (r: Option<nat>)
    ensures r.None? <==> forall i :: 0 <= i < |names| ==> names[i].0 != name
    ensures r.Some? ==> (name, r.value) in names
  {
    if names == [] then None
    else if names[0].0 == name then Some(names[0].1)
    else FindNamed(names[1..], name)
  }

  /** decode_enum by name. */
  function DecodeNamedEnum(o: Options, names: seq<(seq<byte>, nat)>, seed: Value, input: seq<byte>, pos: nat): (r: Res)
    requires pos <= |input|
    ensures r.pos <= |input| && r.errs == [] && (r.status.None? ==> pos < r.pos)
  {
    match ExpectText(o, input, pos)
    case Missed(e) => Failed(Fresh(e), seed, pos)
    case Got(s, end) =>
      var index := FindNamed(names, s);
      if index.None? then Failed(Failure(UnknownEnumerator, pos, [], false), seed, pos)
         else Res(None, VInt(index.value), end, [])
  }

  function DecodeBool(o: Options, seed: Value, input: seq<byte>, pos: nat): (r: Res)
    requires pos <= |input|
    ensures r.pos <= |input| && r.errs == [] && (r.status.None? ==> pos < r.pos)
  {
    match ExpectSimple(o, input, pos, 20, 21)
    case Missed(e) => Failed(Fresh(e), seed, pos)
    case Got(b, end) => Res(None, VBool(b == 21), end, [])
  }

  function DecodeNull(o: Options, seed: Value, input: seq<byte>, pos: nat): (r: Res)
    requires pos <= |input|
    ensures r.pos <= |input| && r.errs == [] && (r.status.None? ==> pos < r.pos)
  {
    match ExpectSimple(o, input, pos, 22, if o.undefinedAsNull then 23 else 22)
    case Missed(e) => Failed(Fresh(e), seed, pos)
    case Got(_, end) => Res(None, VNone, end, [])
  }

  datatype Opened = NotOpened(error: Error) | Opened(pos: nat, remaining: Option<nat>)

  /** expect_array and expect_map. */
  function OpenContainer(o: Options, input: seq<byte>, pos: nat, depth: nat, mt: major): (r: Opened)
    ensures r.Opened? ==> pos < r.pos <= |input|
  {
    match ItemHead(o, input, pos)
    case NoHead(e) => NotOpened(e)
    case HeadAt(at, h, _) =>
      if h.mt != mt then NotOpened(Error(TypeMismatch, at))
      else if depth >= o.maxDepth then NotOpened(Error(DepthExceeded, at))
      else Opened(at + h.length, if h.indefinite then None else Some(h.value))
  }

  datatype Entry = EntryError(error: Error) | EntryEnd(pos: nat) | EntryAt(remaining: Option<nat>, prev: Option<Extent>)

  /** map_cursor::next, the check of key order included. */
  function NextEntry(o: Options, input: seq<byte>, pos: nat, depth: nat, remaining: Option<nat>,
                     prev: Option<Extent>): (r: Entry)
    requires pos <= |input| && ExtentOk(prev, |input|)
    ensures r.EntryEnd? ==> pos <= r.pos <= |input|
    ensures r.EntryAt? ==> ExtentOk(r.prev, |input|)
  {
    match CursorNext(input, pos, remaining)
    case CursorError(e) => EntryError(e)
    case CursorEnd(p) => EntryEnd(p)
    case CursorItem(left) =>
      match CheckKey(o, input, pos, depth, prev)
      case KeyBad(e) => EntryError(e)
      case KeyOk(prev') => EntryAt(left, prev')
  }

  function Decode(c: Config, t: Ty, seed: Value, input: seq<byte>, pos: nat, depth: nat): (r: Res)
    requires pos <= |input|
    ensures r.pos <= |input| && (r.status.None? ==> pos < r.pos)
    decreases |input| - pos, t, 1
  {
    match t
    case TBool => DecodeBool(c.opts, seed, input, pos)
    case TInt(range) => DecodeInt(c.opts, range, seed, input, pos)
    case TText => DecodeText(c.opts, seed, input, pos)
    case TOpt(elem) =>
      if PeekKind(c.opts, input, pos).KNull? then DecodeNull(c.opts, seed, input, pos)
      else
        var r := Decode(c, elem, Initial(elem), input, pos, depth);
        r.(value := VSome(r.value))
    case TBytes(size) => DecodeBytes(c.opts, size, seed, input, pos)
    case TEnum(repr, values) => DecodeEnum(c.opts, repr, values, seed, input, pos)
    case TNamed(names) => DecodeNamedEnum(c.opts, names, seed, input, pos)
    case TSeq(elem) =>
      var a := OpenContainer(c.opts, input, pos, depth, ARRAY);
      if a.NotOpened? then Failed(Fresh(a.error), seed, pos)
      else DecodeElems(c, elem, [], input, a.pos, depth + 1, a.remaining)
    case TTuple(elems) =>
      var a := OpenContainer(c.opts, input, pos, depth, ARRAY);
      if a.NotOpened? then Failed(Fresh(a.error), seed, pos)
      else DecodeItems(c, elems, pos, ItemsOf(elems, seed), 0, input, a.pos, depth + 1, a.remaining)
    case TMap(keys, unique, elem) =>
      var m := OpenContainer(c.opts, input, pos, depth, MAP);
      if m.NotOpened? then Failed(Fresh(m.error), seed, pos)
      else DecodeEntries(c, keys, unique, elem, [], input, m.pos, depth + 1, m.remaining, None)
    case TWrap(ident, elem) =>
      var r := Decode(c, elem, InnerOf(elem, seed), input, pos, depth);
      Named(r, Member(ident)).(value := VStruct([r.value]))
    case TStruct(fields, unknown) => DecodeObject(c, fields, unknown, seed, input, pos, depth)
    case TVariant(tag, alts) => DecodeVariant(c, tag, alts, seed, input, pos, depth)
  }

  /** An inner answer passed out with one more step in all of its errors. */
  function Named(r: Res, s: PathStep): Res {
    Res(if r.status.Some? then Some(Push(r.status.value, s)) else None, r.value, r.pos, PushAll(r.errs, s))
  }

  /** The member of a transparent struct before anything is decoded into it. */
  function InnerOf(elem: Ty, seed: Value): Value {
    if seed.VStruct? && |seed.members| == 1 then seed.members[0] else Initial(elem)
  }

  function ItemsOf(elems: seq<Ty>, seed: Value): (r: seq<Value>)
    ensures |r| == |elems|
  {
    if seed.VSeq? && |seed.elems| == |elems| then seed.elems
       else seq(|elems|, i requires 0 <= i < |elems| => Initial(elems[i]))
  }

  /** decode_struct: the map, then its members. */
  function DecodeObject(c: Config, fields: seq<Field>, unknown: Unknown, seed: Value, input: seq<byte>, pos: nat,
                        depth: nat): (r: Res)
    requires pos <= |input|
    ensures r.pos <= |input| && (r.status.None? ==> pos < r.pos)
    decreases |input| - pos, fields, 1
  {
    var m := OpenContainer(c.opts, input, pos, depth, MAP);
    if m.NotOpened? then Failed(Fresh(m.error), seed, pos)
    else DecodeMembers(c, fields, unknown, pos, MembersOf(fields, seed), {}, input, m.pos, depth + 1, m.remaining, None)
  }

  // ---- tuples and arrays of a fixed size ----

  /** What comes after the last element there is room for: nothing, or elements that are skipped before the refusal. */
  function SkipSurplus(o: Options, off: nat, input: seq<byte>, pos: nat, depth: nat, remaining: Option<nat>): (r: Error)
    requires pos <= |input|
    decreases |input| - pos
  {
    match CursorNext(input, pos, remaining)
    case CursorError(e) => e
    case CursorEnd(_) => Error(TypeMismatch, off)
    case CursorItem(left) =>
      match SkipItem(o, input, pos, depth)
      case Fail(e) => e
      case Done(q, _) => SkipSurplus(o, off, input, q, depth, left)
  }

  /** Elements `i` and on of decode_tuple and decode_fixed_array, each decoded into its place. */
  function DecodeItems(c: Config, elems: seq<Ty>, off: nat, vals: seq<Value>, i: nat, input: seq<byte>, pos: nat,
                       depth: nat, remaining: Option<nat>): (r: Res)
    requires pos <= |input| && |vals| == |elems| && i <= |elems|
    ensures r.pos <= |input| && (r.status.None? ==> pos <= r.pos)
    decreases |input| - pos, elems, 2
  {
    match CursorNext(input, pos, remaining)
    case CursorError(e) => Failed(Fresh(e), VSeq(vals), pos)
    case CursorEnd(p) =>
      if i == |elems| then Res(None, VSeq(vals), p, []) else Failed(Fresh(Error(TypeMismatch, off)), VSeq(vals), pos)
    case CursorItem(left) =>
      if i == |elems| then Failed(Fresh(SkipSurplus(c.opts, off, input, pos, depth, remaining)), VSeq(vals), pos)
      else
        var r := Decode(c, elems[i], vals[i], input, pos, depth);
        var n := Named(r, Index(i));
        if r.status.Some? then n.(value := VSeq(vals[i := r.value]), pos := pos)
        else Also(n.errs, DecodeItems(c, elems, off, vals[i := r.value], i + 1, input, r.pos, depth, left))
  }

  // ---- variants ----

  datatype Choice = NoAlternative(e: Failure) | Alternative(i: nat)

  datatype Scan = ScanError(error: Error) | Scanned(tag: Option<(seq<byte>, nat)>)

  /** The first pass of decode_variant over the rest of the object: the first discriminator, with the place of its
      value; what follows it is skipped. */
  function FindTag(o: Options, tag: seq<byte>, got: Option<(seq<byte>, nat)>, input: seq<byte>, pos: nat, depth: nat,
                   remaining: Option<nat>, prev: Option<Extent>): Scan
    requires pos <= |input| && ExtentOk(prev, |input|)
    decreases |input| - pos
  {
    match NextEntry(o, input, pos, depth, remaining, prev)
    case EntryError(e) => ScanError(e)
    case EntryEnd(_) => Scanned(got)
    case EntryAt(left, prev') =>
      match ExpectText(o, input, pos)
      case Missed(e) => ScanError(e)
      case Got(key, p) =>
        if got.None? && key == tag then
          match ExpectText(o, input, p)
          case Missed(e) => ScanError(e)
          case Got(name, q) => FindTag(o, tag, Some((name, p)), input, q, depth, left, prev')
        else
          match SkipItem(o, input, p, depth)
          case Fail(e) => ScanError(e)
          case Done(q, _) => FindTag(o, tag, got, input, q, depth, left, prev')
  }

  /** The last alternative of that name. */
  function FindAlt(alts: seq<(seq<byte>, Ty)>, name: seq<byte>): (r: Option<nat>)
    ensures r.Some? ==> r.value < |alts| && alts[r.value].0 == name
    ensures r.None? ==> forall i :: 0 <= i < |alts| ==> alts[i].0 != name
  {
    if alts == [] then None
    else if alts[|alts| - 1].0 == name then Some(|alts| - 1)
    else FindAlt(alts[..|alts| - 1], name)
  }

  function FindAlternative(o: Options, tag: seq<byte>, alts: seq<(seq<byte>, Ty)>, input: seq<byte>, pos: nat,
                           depth: nat): (r: Choice)
    requires pos <= |input|
    ensures r.Alternative? ==> r.i < |alts|
  {
    var m := OpenContainer(o, input, pos, depth, MAP);
    if m.NotOpened? then NoAlternative(Fresh(m.error))
    else
      match FindTag(o, tag, None, input, m.pos, depth + 1, m.remaining, None)
      case ScanError(e) => NoAlternative(Fresh(e))
      case Scanned(got) =>
        if got.None? then NoAlternative(Failure(MissingTag, pos, [], false))
        else
          var i := FindAlt(alts, got.value.0);
          if i.None? then NoAlternative(Push(Failure(NoVariantAlternative, got.value.1, [], false), KeyText(tag)))
             else Alternative(i.value)
  }

  /** decode_variant: find the alternative, then decode it from the start of the object. */
  function DecodeVariant(c: Config, tag: seq<byte>, alts: seq<(seq<byte>, Ty)>, seed: Value, input: seq<byte>,
                         pos: nat, depth: nat): (r: Res)
    requires pos <= |input|
    ensures r.pos <= |input| && (r.status.None? ==> pos < r.pos)
    decreases |input| - pos, TVariant(tag, alts), 0
  {
    match FindAlternative(c.opts, tag, alts, input, pos, depth)
    case NoAlternative(e) => Failed(e, seed, pos)
    case Alternative(i) =>
      var t := alts[i].1;
      var r := if t.TStruct? then DecodeObject(c, t.fields, t.unknown.(ignore := tag), Initial(t), input, pos, depth)
               else DecodeBox(c, t, input, pos, depth);
      r.(value := VAlt(i, r.value))
  }

  /** The key an externally tagged alternative has its value under. */
  const VALUE: seq<byte> := [0x76, 0x61, 0x6C, 0x75, 0x65]

  /** The second pass for an externally tagged alternative. */
  function DecodeBox(c: Config, t: Ty, input: seq<byte>, pos: nat, depth: nat): (r: Res)
    requires pos <= |input|
    ensures r.pos <= |input| && (r.status.None? ==> pos < r.pos)
    decreases |input| - pos, t, 2
  {
    var m := OpenContainer(c.opts, input, pos, depth, MAP);
    if m.NotOpened? then Failed(Fresh(m.error), Initial(t), pos)
    else DecodeBoxed(c, t, pos, Initial(t), false, input, m.pos, depth + 1, m.remaining, None)
  }

  function DecodeBoxed(c: Config, t: Ty, off: nat, done: Value, have: bool, input: seq<byte>, pos: nat, depth: nat,
                       remaining: Option<nat>, prev: Option<Extent>): (r: Res)
    requires pos <= |input| && ExtentOk(prev, |input|)
    ensures r.pos <= |input| && (r.status.None? ==> pos <= r.pos)
    decreases |input| - pos, t, 2
  {
    match NextEntry(c.opts, input, pos, depth, remaining, prev)
    case EntryError(e) => Failed(Fresh(e), done, pos)
    case EntryEnd(p) => BoxEnd(off, done, have, p)
    case EntryAt(left, prev') =>
      match ExpectText(c.opts, input, pos)
      case Missed(e) => Failed(Fresh(e), done, pos)
      case Got(key, p) =>
        if key == VALUE then DecodeBoxValue(c, t, off, done, input, p, depth, left, prev')
        else SkipBoxed(c, t, off, done, have, input, p, depth, left, prev')
  }

  /** The end of an externally tagged alternative. */
  function BoxEnd(off: nat, done: Value, have: bool, pos: nat): Res {
    if have then Res(None, done, pos, []) else Failed(Failure(MissingField, off, [], false), done, pos)
  }

  lemma BoxEnds(off: nat, done: Value, have: bool, pos: nat)
    ensures var x := BoxEnd(off, done, have, pos);
            && x.status == (if have then None else Some(Failure(MissingField, off, [], false))) && x.value == done
              && x.pos == pos && x.errs == []
  {
  }

  /** Skip a value that is not the alternative's, then go on with the next entry. */
  function SkipBoxed(c: Config, t: Ty, off: nat, done: Value, have: bool, input: seq<byte>, pos: nat, depth: nat,
                     remaining: Option<nat>, prev: Option<Extent>): (r: Res)
    requires pos <= |input| && ExtentOk(prev, |input|)
    ensures r.pos <= |input| && (r.status.None? ==> pos <= r.pos)
    decreases |input| - pos, t, 1
  {
    match SkipItem(c.opts, input, pos, depth)
    case Fail(e) => Failed(Fresh(e), done, pos)
    case Done(q, _) => DecodeBoxed(c, t, off, done, have, input, q, depth, remaining, prev)
  }

  /** The value under the key, and the rest of the object. */
  function DecodeBoxValue(c: Config, t: Ty, off: nat, done: Value, input: seq<byte>, pos: nat, depth: nat,
                          remaining: Option<nat>, prev: Option<Extent>): (r: Res)
    requires pos <= |input| && ExtentOk(prev, |input|)
    ensures r.pos <= |input| && (r.status.None? ==> pos <= r.pos)
    decreases |input| - pos, t, 3
  {
    var r := Decode(c, t, done, input, pos, depth);
    var n := Named(r, Member(VALUE));
    if r.status.Some? then n.(pos := pos)
    else Also(n.errs, DecodeBoxed(c, t, off, r.value, true, input, r.pos, depth, remaining, prev))
  }

  // ---- structs ----

  /** The members a target holds before anything is decoded into it. */
  function MembersOf(fields: seq<Field>, seed: Value): (r: seq<Value>)
    ensures |r| == |fields|
  {
    if seed.VStruct? && |seed.members| == |fields| then seed.members else Inits(fields)
  }

  /** The loop of decode_sequence. */
  function DecodeElems(c: Config, elem: Ty, done: seq<Value>, input: seq<byte>, pos: nat, depth: nat,
                       remaining: Option<nat>): (r: Res)
    requires pos <= |input|
    ensures r.pos <= |input| && (r.status.None? ==> pos <= r.pos)
    decreases |input| - pos, elem, 2
  {
    match CursorNext(input, pos, remaining)
    case CursorError(e) => Failed(Fresh(e), VSeq(done), pos)
    case CursorEnd(p) => Res(None, VSeq(done), p, [])
    case CursorItem(left) =>
      var r := Decode(c, elem, Initial(elem), input, pos, depth);
      var errs := PushAll(r.errs, Index(|done|));
      if r.status.Some? then Res(Some(Push(r.status.value, Index(|done|))), VSeq(done), pos, errs)
      else Also(errs, DecodeElems(c, elem, done + [r.value], input, r.pos, depth, left))
  }

  function FindEntry(entries: seq<Pair>, key: MapKey): (r: Option<nat>)
    ensures r.Some? ==> r.value < |entries| && entries[r.value].key == key
    ensures r.None? ==> forall i :: 0 <= i < |entries| ==> entries[i].key != key
  {
    if entries == [] then None
    else if entries[|entries| - 1].key == key then Some(|entries| - 1)
    else FindEntry(entries[..|entries| - 1], key)
  }

  function StepOf(k: MapKey): PathStep {
    match k
    case NameKey(s) => KeyText(s)
    case NumberKey(i) => KeyInt(i % TWO64)
  }

  /** The decimal digits in front of `s`, and their value. */
  function Digits(s: seq<byte>, value: nat): (r: (nat, nat))
    ensures r.0 <= |s|
  {
    if s != [] && 0x30 <= s[0] <= 0x39 then
      var r := Digits(s[1..], 10 * value + (s[0] - 0x30));
      (r.0 + 1, r.1)
    else (0, value)
  }

  /** parse_integral_key over from_chars: digits with a minus sign in front for signed types, and nothing behind them;
      a number too large is noticed before what follows it. */
  function ParseKey(t: IntType, s: seq<byte>, off: nat): (r: Got<int>)
    ensures r.Got? ==> t.Has(r.value)
  {
    var minus := t.Signed? && s != [] && s[0] == 0x2D;
    var digits := if minus then s[1..] else s;
    var (n, v) := Digits(digits, 0);
    var i: int := if minus then 0 - v as int else v;
    if n == 0 then Missed(Error(TypeMismatch, off))
    else if !t.Has(i) then Missed(Error(OutOfRange, off))
    else if n < |digits| then Missed(Error(TypeMismatch, off))
    else Got(i, 0)
  }

  /** The key of an entry of a map. */
  function MapKeyAt(o: Options, keys: KeyType, input: seq<byte>, pos: nat): (r: Got<MapKey>)
    ensures r.Got? ==> pos < r.end <= |input|
  {
    if keys.TextKeys? || PeekKind(o, input, pos).KText? then
      match ExpectText(o, input, pos)
      case Missed(e) => Missed(e)
      case Got(s, end) =>
        if keys.TextKeys? then Got(NameKey(s), end)
        else
          match ParseKey(keys.range, s, pos)
          case Missed(e) => Missed(e)
          case Got(i, _) => Got(NumberKey(i), end)
    else if PeekKind(o, input, pos).KUInt? then
      match ExpectUInt(o, input, pos)
      case Missed(e) => Missed(e)
      case Got(u, end) => if keys.range.Has(u) then Got(NumberKey(u), end) else Missed(Error(OutOfRange, pos))
    else
      match ExpectSInt(o, input, pos)
      case Missed(e) => Missed(e)
      case Got(i, end) =>
        if keys.range.Signed? && keys.range.Has(i) then Got(NumberKey(i), end) else Missed(Error(OutOfRange, pos))
  }

  /** The entry a key of a map with unique keys stands for already. */
  function Earlier(unique: bool, done: seq<Pair>, key: MapKey): (r: Option<nat>)
    ensures r.Some? ==> r.value < |done| && done[r.value].key == key
  {
    if unique then FindEntry(done, key) else None
  }

  /** The loop of decode_map; a range of pairs keeps every entry. */
  function DecodeEntries(c: Config, keys: KeyType, unique: bool, elem: Ty, done: seq<Pair>, input: seq<byte>, pos: nat,
                         depth: nat, remaining: Option<nat>, prev: Option<Extent>): (r: Res)
    requires pos <= |input| && ExtentOk(prev, |input|)
    ensures r.pos <= |input| && (r.status.None? ==> pos <= r.pos)
    decreases |input| - pos, elem, 2
  {
    match NextEntry(c.opts, input, pos, depth, remaining, prev)
    case EntryError(e) => Failed(Fresh(e), VMap(done), pos)
    case EntryEnd(p) => Res(None, VMap(done), p, [])
    case EntryAt(left, prev') =>
      match MapKeyAt(c.opts, keys, input, pos)
      case Missed(e) => Failed(Fresh(e), VMap(done), pos)
      case Got(key, p) =>
        var found := Earlier(unique, done, key);
        if found.Some? && c.duplicates.ErrorOnDuplicate? then
          Failed(Push(Failure(DuplicateKey, pos, [], false), StepOf(key)), VMap(done), pos)
        else if found.Some? && c.duplicates.FirstWins? then
          SkipEntry(c, keys, unique, elem, done, input, p, depth, left, prev')
        else DecodeEntry(c, keys, unique, elem, done, input, p, depth, left, prev', key, found)
  }

  /** Skip the value of a key that is there already. */
  function SkipEntry(c: Config, keys: KeyType, unique: bool, elem: Ty, done: seq<Pair>, input: seq<byte>, pos: nat,
                     depth: nat, remaining: Option<nat>, prev: Option<Extent>): (r: Res)
    requires pos <= |input| && ExtentOk(prev, |input|)
    ensures r.pos <= |input| && (r.status.None? ==> pos <= r.pos)
    decreases |input| - pos, elem, 1
  {
    match SkipItem(c.opts, input, pos, depth)
    case Fail(e) => Failed(Fresh(e), VMap(done), pos)
    case Done(q, _) => DecodeEntries(c, keys, unique, elem, done, input, q, depth, remaining, prev)
  }

  /** The value of one entry: a new one, or again into the one that was found. */
  function DecodeEntry(c: Config, keys: KeyType, unique: bool, elem: Ty, done: seq<Pair>, input: seq<byte>, pos: nat,
                       depth: nat, remaining: Option<nat>, prev: Option<Extent>, key: MapKey,
                       found: Option<nat>): (r: Res)
    requires pos <= |input| && ExtentOk(prev, |input|) && (found.Some? ==> found.value < |done|)
    ensures r.pos <= |input| && (r.status.None? ==> pos <= r.pos)
    decreases |input| - pos, elem, 3
  {
    var r := Decode(c, elem, if found.Some? then done[found.value].val else Initial(elem), input, pos, depth);
    var errs := PushAll(r.errs, StepOf(key));
    if r.status.Some? then Res(Some(Push(r.status.value, StepOf(key))), VMap(done), pos, errs)
    else
      var next := if found.Some? then done[found.value := Pair(key, r.value)] else done + [Pair(key, r.value)];
      Also(errs, DecodeEntries(c, keys, unique, elem, next, input, r.pos, depth, remaining, prev))
  }

  predicate AnyIntKeys(fields: seq<Field>) {
    exists i :: 0 <= i < |fields| && fields[i].key.Some?
  }

  /** The names a member is looked up by. */
  predicate Answers(f: Field, name: seq<byte>) {
    f.name == name || name in f.aliases
  }

  function FindName(fields: seq<Field>, name: seq<byte>): (r: Option<nat>)
    ensures r.Some? ==> r.value < |fields| && Answers(fields[r.value], name)
    ensures r.None? ==> forall i :: 0 <= i < |fields| ==> !Answers(fields[i], name)
  {
    if fields == [] then None
    else if Answers(fields[|fields| - 1], name) then Some(|fields| - 1)
    else FindName(fields[..|fields| - 1], name)
  }

  function FindKey(fields: seq<Field>, key: int): (r: Option<nat>)
    ensures r.Some? ==> r.value < |fields| && fields[r.value].key == Some(key)
  {
    if fields == [] then None
    else if fields[|fields| - 1].key == Some(key) then Some(|fields| - 1)
    else FindKey(fields[..|fields| - 1], key)
  }

  /** A key, the member it selects if any, and the path step that names it. */
  datatype MemberKey = BadKey(error: Error) | HugeKey(k: nat, end: nat) | FoundKey(member: Option<nat>, step: PathStep,
                                                                                   end: nat)

  function MemberKeyAt(o: Options, fields: seq<Field>, input: seq<byte>, pos: nat): (r: MemberKey)
    requires pos <= |input|
    ensures !r.BadKey? ==> pos < r.end <= |input|
    ensures r.FoundKey? && r.member.Some? ==> r.member.value < |fields|
  {
    var kind := PeekKind(o, input, pos);
    if AnyIntKeys(fields) && kind.KUInt? then
      match ExpectUInt(o, input, pos)
      case Missed(e) => BadKey(e)
      case Got(u, end) => if u >= TWO63 then HugeKey(u, end) else FoundKey(FindKey(fields, u), KeyInt(u), end)
    else if AnyIntKeys(fields) && kind.KSInt? then
      match ExpectSInt(o, input, pos)
      case Missed(e) => BadKey(e)
      case Got(i, end) => FoundKey(FindKey(fields, i), KeyInt(if i < 0 then i + TWO64 else i), end)
    else
      match ExpectText(o, input, pos)
      case Missed(e) => BadKey(e)
      case Got(s, end) =>
        var f := FindName(fields, s);
        var hidden := f.Some? && fields[f.value].key.Some? && !fields[f.value].textOk && s == fields[f.value].name;
        FoundKey(if hidden then None else f, KeyText(s), end)
  }

  /** Required members that were not seen, in order, each with its error. */
  function MissingErrs(fields: seq<Field>, seen: set<nat>, objOff: nat, i: nat): seq<Failure>
    requires i <= |fields|
    decreases |fields| - i
  {
    if i == |fields| then []
    else if !fields[i].skip && i !in seen && fields[i].required then
      [Failure(MissingField, objOff, [], false)] + MissingErrs(fields, seen, objOff, i + 1)
    else MissingErrs(fields, seen, objOff, i + 1)
  }

  /** Defaults of members that were not seen and are not required. */
  function WithDefaults(fields: seq<Field>, seen: set<nat>, vals: seq<Value>): (r: seq<Value>)
    requires |vals| == |fields|
    ensures |r| == |fields|
  {
    seq(|fields|, i requires 0 <= i < |fields| =>
          if !fields[i].skip && i !in seen && !fields[i].required && fields[i].default.Some?
             then fields[i].default.value else vals[i])
  }

  /** The end of decode_struct: defaults, then the missing members. */
  function FinishStruct(c: Config, fields: seq<Field>, objOff: nat, vals: seq<Value>, seen: set<nat>, pos: nat): Res
    requires |vals| == |fields|
  {
    var v := VStruct(WithDefaults(fields, seen, vals));
    var missing := MissingErrs(fields, seen, objOff, 0);
    if c.collect then Res(None, v, pos, missing)
    else if missing == [] then Res(None, v, pos, [])
    else Failed(missing[0], v, pos)
  }

  /** What one entry of an object asks of the loop. */
  datatype Todo = Report(e: Failure) | SkipOver | Into(member: nat)

  function EntryTodo(c: Config, fields: seq<Field>, unknown: Unknown, seen: set<nat>, keyOff: nat,
                     k: MemberKey): (r: Todo)
    requires k.FoundKey? && (k.member.Some? ==> k.member.value < |fields|)
    ensures r.Into? ==> r.member < |fields|
  {
    if k.member.None? then
      if unknown.ignore != [] && k.step == KeyText(unknown.ignore) then SkipOver
      else if unknown.refuse then Report(Push(Failure(UnknownField, keyOff, [], false), k.step)) else SkipOver
    else
      var f := k.member.value;
      if fields[f].skip then SkipOver
      else if f in seen && c.duplicates.ErrorOnDuplicate?
           then Report(Push(Failure(DuplicateKey, keyOff, [], false), k.step))
      else if f in seen && c.duplicates.FirstWins? then SkipOver
      else Into(f)
  }

  /** The loop of decode_struct. */
  function DecodeMembers(c: Config, fields: seq<Field>, unknown: Unknown, objOff: nat, vals: seq<Value>, seen: set<nat>,
                         input: seq<byte>, pos: nat, depth: nat, remaining: Option<nat>, prev: Option<Extent>): (r: Res)
    requires pos <= |input| && ExtentOk(prev, |input|) && |vals| == |fields|
    ensures r.pos <= |input| && (r.status.None? ==> pos <= r.pos)
    decreases |input| - pos, fields, 2
  {
    match NextEntry(c.opts, input, pos, depth, remaining, prev)
    case EntryError(e) => Failed(Fresh(e), VStruct(vals), pos)
    case EntryEnd(p) => FinishStruct(c, fields, objOff, vals, seen, p)
    case EntryAt(left, prev') =>
      match MemberKeyAt(c.opts, fields, input, pos)
      case BadKey(e) => Failed(Fresh(e), VStruct(vals), pos)
      case HugeKey(u, p) =>
        if !unknown.refuse then SkipThen(c, fields, unknown, objOff, vals, seen, input, p, depth, left, prev')
        else
          var sk := SkipItem(c.opts, input, p, depth);
          Failed(if sk.Fail? then Fresh(sk.error)
                 else Push(Failure(UnknownField, pos, [], false), KeyInt(u)), VStruct(vals), pos)
      case FoundKey(m, step, p) =>
        match EntryTodo(c, fields, unknown, seen, pos, FoundKey(m, step, p))
        case Report(e) =>
          if !c.collect then Failed(e, VStruct(vals), p)
          else Also([e], SkipThen(c, fields, unknown, objOff, vals, seen, input, p, depth, left, prev'))
        case SkipOver => SkipThen(c, fields, unknown, objOff, vals, seen, input, p, depth, left, prev')
        case Into(f) => DecodeMember(c, fields, unknown, objOff, vals, seen, input, p, depth, left, prev', f)
  }

  /** Decode the value at `pos` into member `m`; a collecting struct records a failure, rewinds and skips the value. */
  function DecodeMember(c: Config, fields: seq<Field>, unknown: Unknown, objOff: nat, vals: seq<Value>, seen: set<nat>,
                        input: seq<byte>, pos: nat, depth: nat, remaining: Option<nat>, prev: Option<Extent>,
                        m: nat): (r: Res)
    requires pos <= |input| && ExtentOk(prev, |input|) && |vals| == |fields| && m < |fields|
    ensures r.pos <= |input| && (r.status.None? ==> pos <= r.pos)
    decreases |input| - pos, fields, 3
  {
    var r := Decode(c, fields[m].ty, vals[m], input, pos, depth);
    var errs := PushAll(r.errs, Member(fields[m].ident));
    var vals', seen' := vals[m := r.value], seen + {m};
    if r.status.None? then Also(errs,
                                DecodeMembers(c, fields, unknown, objOff, vals', seen', input, r.pos, depth, remaining,
                                              prev))
    else
      var e := Push(r.status.value, Member(fields[m].ident));
      if !c.collect || IsSyntax(e.code) then Res(Some(e), VStruct(vals'), pos, errs)
      else Also(errs + [e], SkipThen(c, fields, unknown, objOff, vals', seen', input, pos, depth, remaining, prev))
  }

  /** Skip the value at `pos`, then go on with the next entry. */
  function SkipThen(c: Config, fields: seq<Field>, unknown: Unknown, objOff: nat, vals: seq<Value>, seen: set<nat>,
                    input: seq<byte>, pos: nat, depth: nat, remaining: Option<nat>, prev: Option<Extent>): (r: Res)
    requires pos <= |input| && ExtentOk(prev, |input|) && |vals| == |fields|
    ensures r.pos <= |input| && (r.status.None? ==> pos <= r.pos)
    decreases |input| - pos, fields, 1
  {
    match SkipItem(c.opts, input, pos, depth)
    case Fail(e) => Failed(Fresh(e), VStruct(vals), pos)
    case Done(q, _) => DecodeMembers(c, fields, unknown, objOff, vals, seen, input, q, depth, remaining, prev)
  }
}
