/** The CBOR sink as a state machine: one step per sink call, in deterministic mode. */
module WriterSpec {
  import opened Bytes
  import opened Head
  import opened Utf8
  import opened Floats
  import opened Item

  datatype Call =
    | Null | Boolean(b: bool) | UIntCall(u: nat) | SIntCall(i: int) | Negative(n: nat) | Real(d: Double)
    | Text(s: seq<byte>) | ByteCall(s: seq<byte>) | SimpleCall(v: nat)
    | BeginArray(count: Option<nat>) | EndArray
    | BeginMap(count: Option<nat>) | BeginMapOrdered(count: Option<nat>) | EndMap
    | KeyText(s: seq<byte>) | KeyUInt(u: nat) | KeySInt(i: int) | BeginKey | EndKey
    | TagCall(t: nat)

  datatype Errc = InvalidUtf8 | DepthExceeded | DuplicateKey | UnsupportedSimpleValue

  datatype Options = Options(maxDepth: nat, validateUtf8: bool)

  /** Start and end of an encoded key in a buffered body. */
  datatype Slot = Slot(start: nat, keyEnd: nat)

  datatype Frame = Frame(isMap: bool, buffered: bool, items: nat, body: seq<byte>, slots: seq<Slot>)

  /** The output with the open frames on it. */
  datatype State = Out(out: seq<byte>) | Push(below: State, top: Frame) {
    function Depth(): nat {
      if Out? then 0 else 1 + below.Depth()
    }
  }

  datatype Result = Thrown(code: Errc) | Next(st: State)

  /** append: bytes go to the innermost buffered frame, else to the output. */
  function Append(st: State, s: seq<byte>): State {
    match st
    case Out(out) => Out(out + s)
    case Push(below, f) => if f.buffered then Push(below, f.(body := f.body + s)) else Push(Append(below, s), f)
  }

  /** item: one more value in the innermost container. */
  function Count(st: State): State {
    if st.Push? then st.(top := st.top.(items := st.top.items + 1)) else st
  }

  /** A value with encoding `s` has been written. */
  function Emit(st: State, s: seq<byte>): State {
    Append(Count(st), s)
  }

  function KeyStart(st: State): State {
    if st.Push? && st.top.buffered then st.(top := st.top.(slots := st.top.slots + [Slot(|st.top.body|, 0)])) else st
  }

  function KeyEnd(st: State): State {
    if st.Push? && st.top.buffered && st.top.slots != [] then
      var n := |st.top.slots| - 1;
      st.(top := st.top.(slots := st.top.slots[n := Slot(st.top.slots[n].start, |st.top.body|)]))
    else st
  }

  function IntHead(i: int): seq<byte> {
    if i >= 0 then ShortHead(UINT, i) else ShortHead(NINT, -1 - i)
  }

  // ---- slices of a buffered map ----

  /** An encoded entry: key and value. */
  datatype Slice = Slice(key: seq<byte>, val: seq<byte>)

  function Flat(s: seq<Slice>): seq<byte> {
    if s == [] then [] else s[0].key + s[0].val + Flat(s[1..])
  }

  /** The slices recorded by `slots`: each entry reaches to the start of the next. */
  function Slices(body: seq<byte>, slots: seq<Slot>): seq<Slice> {
    if slots == [] then []
    else
      var end := if |slots| > 1 then slots[1].start else |body|;
      var a := slots[0];
      if a.start <= a.keyEnd <= end <= |body|
         then [Slice(body[a.start..a.keyEnd], body[a.keyEnd..end])] + Slices(body, slots[1..])
      else []
  }

  function Insert(e: Slice, s: seq<Slice>): seq<Slice> {
    if s == [] || !Less(s[0].key, e.key) then [e] + s else [s[0]] + Insert(e, s[1..])
  }

  /** stable_sort by encoded key. */
  function Sort(s: seq<Slice>): seq<Slice> {
    if s == [] then [] else Insert(s[0], Sort(s[1..]))
  }

  predicate AdjacentEqual(s: seq<Slice>) {
    |s| > 1 && (s[0].key == s[1].key || AdjacentEqual(s[1..]))
  }

  // ---- steps ----

  function Open(o: Options, st: State, m: major, count: Option<nat>): Result {
    if st.Depth() >= o.maxDepth then Thrown(DepthExceeded)
    else if m == MAP || count.None? then Next(Push(st, Frame(m == MAP, true, 0, [], [])))
    else Next(Push(Append(st, ShortHead(m, count.value)), Frame(false, false, 0, [], [])))
  }

  function Close(st: State): Result {
    if !st.Push? || !st.top.buffered then Next(if st.Push? then st.below else st)
    else if st.top.isMap then
      var order := Sort(Slices(st.top.body, st.top.slots));
      if AdjacentEqual(order) then Thrown(DuplicateKey)
      else Next(Append(st.below, ShortHead(MAP, |order|) + Flat(order)))
    else Next(Append(st.below, ShortHead(ARRAY, st.top.items) + st.top.body))
  }

  function Step(o: Options, st: State, c: Call): Result {
    match c
    case Null => Next(Emit(st, [0xF6]))
    case Boolean(b) => Next(Emit(st, [if b then 0xF5 else 0xF4]))
    case UIntCall(u) => Next(Emit(st, ShortHead(UINT, u)))
    case SIntCall(i) => Next(Emit(st, IntHead(i)))
    case Negative(n) => Next(Emit(st, ShortHead(NINT, n)))
    case Real(d) => Next(Emit(st, FloatBytes(Preferred(d))))
    case Text(s) =>
      if o.validateUtf8 && !WellFormed(s) then Thrown(InvalidUtf8) else Next(Emit(st, ShortHead(TEXT, |s|) + s))
    case ByteCall(s) => Next(Emit(st, ShortHead(BYTES, |s|) + s))
    case SimpleCall(v) =>
      if 20 <= v <= 31 then Thrown(UnsupportedSimpleValue)
      else Next(Emit(st, if v < 24 then [(0xE0 + v) % 256] else [0xF8, v % 256]))
    case BeginArray(count) => Open(o, Count(st), ARRAY, count)
    case EndArray => Close(st)
    case BeginMap(count) => Open(o, Count(st), MAP, count)
    case BeginMapOrdered(count) =>
      if count.None? then Open(o, Count(st), MAP, count)
      else if st.Depth() >= o.maxDepth then Thrown(DepthExceeded)
      else Next(Push(Append(Count(st), ShortHead(MAP, count.value)), Frame(true, false, 0, [], [])))
    case EndMap => Close(st)
    case KeyText(s) =>
      if o.validateUtf8 && !WellFormed(s) then Thrown(InvalidUtf8)
      else Next(KeyEnd(Append(KeyStart(st), ShortHead(TEXT, |s|) + s)))
    case KeyUInt(u) => Next(KeyEnd(Append(KeyStart(st), ShortHead(UINT, u))))
    case KeySInt(i) => Next(KeyEnd(Append(KeyStart(st), IntHead(i))))
    case BeginKey => Next(KeyStart(st))
    case EndKey => Next(KeyEnd(st))
    case TagCall(t) => Next(Append(st, ShortHead(TAG, t)))
  }

  function Run(o: Options, st: State, calls: seq<Call>): Result
    decreases |calls|
  {
    if calls == [] then Next(st)
    else
      match Step(o, st, calls[0])
      case Thrown(e) => Thrown(e)
      case Next(st') => Run(o, st', calls[1..])
  }
}
