/** Typed decoding as a function of the data item: no bytes, no heads, no offsets. */
module Meanings {
  import opened Bytes
  import opened Utf8
  import opened Item
  import opened SkipSpec
  import opened ReadSpec
  import opened BuildSpec

  /** A failure without the place in the input. */
  datatype Complaint = Complaint(code: Code, path: seq<PathStep>, truncated: bool)

  function Syntactic(code: Errc): Complaint {
    Complaint(Syntax(code), [], false)
  }

  function Under(e: Complaint, s: PathStep): Complaint {
    if |e.path| >= MAX_STEPS then e.(truncated := true) else e.(path := e.path + [s])
  }

  function AllUnder(es: seq<Complaint>, s: PathStep): (r: seq<Complaint>)
    ensures |r| == |es|
  {
    seq(|es|, i requires 0 <= i < |es| => Under(es[i], s))
  }

  /** What is wrong, if anything; the target as it was left; what was collected. */
  datatype Out = Out(status: Option<Complaint>, value: Value, errs: seq<Complaint>)

  function Wrong(e: Complaint, v: Value): Out {
    Out(Some(e), v, [])
  }

  function Right(v: Value): Out {
    Out(None, v, [])
  }

  function Plus(errs: seq<Complaint>, m: Out): Out {
    m.(errs := errs + m.errs)
  }

  function Inside(m: Out, s: PathStep): Out {
    Out(if m.status.Some? then Some(Under(m.status.value, s)) else None, m.value, AllUnder(m.errs, s))
  }

  // ---- sizes ----

  function Size(x: Item): nat {
    match x
    case Array(items) => 1 + SizeItems(items)
    case Map(entries) => 1 + SizeEntries(entries)
    case Tag(_, content) => 1 + Size(content)
    case _ => 1
  }

  function SizeItems(s: Items): nat {
    if s.NoItems? then 0 else 1 + Size(s.head) + SizeItems(s.tail)
  }

  function SizeEntries(s: Entries): nat {
    if s.NoEntries? then 0 else 1 + Size(s.key) + Size(s.val) + SizeEntries(s.rest)
  }

  // ---- scalars ----

  datatype Seen<T> = Not(code: Errc) | Seen(value: T)

  /** The item without the tags in front, unless one of them is refused. */
  function Core(o: Options, x: Item): (r: Option<Item>)
    ensures r.Some? ==> Size(r.value) <= Size(x) && !r.value.Tag?
  {
    if !x.Tag? then Some(x) else if o.ignoreUnknownTags then Core(o, x.content) else None
  }

  function TextIn(o: Options, x: Item): Seen<seq<byte>> {
    match Core(o, x)
    case None => Not(TagMismatch)
    case Some(y) => if y.TextString? then Seen(y.text) else Not(TypeMismatch)
  }

  function BytesIn(o: Options, x: Item): Seen<seq<byte>> {
    match Core(o, x)
    case None => Not(TagMismatch)
    case Some(y) => if y.ByteString? then Seen(y.bytes) else Not(TypeMismatch)
  }

  function UIntIn(o: Options, x: Item): Seen<nat> {
    match Core(o, x)
    case None => Not(TagMismatch)
    case Some(y) => if y.UInt? then Seen(y.arg) else Not(if y.NInt? then OutOfRange else TypeMismatch)
  }

  function SIntIn(o: Options, x: Item): Seen<int> {
    match Core(o, x)
    case None => Not(TagMismatch)
    case Some(y) =>
      if !y.UInt? && !y.NInt? then Not(TypeMismatch)
      else if y.arg >= TWO63 then Not(OutOfRange)
      else Seen(if y.UInt? then y.arg else -1 - y.arg as int)
  }

  /** A simple value with one of two codes. */
  function SimpleIn(o: Options, x: Item, a: nat, b: nat): Seen<nat> {
    match Core(o, x)
    case None => Not(TagMismatch)
    case Some(y) => if y.Simple? && (y.code == a || y.code == b) then Seen(y.code) else Not(TypeMismatch)
  }

  function KindOf(o: Options, x: Item): Kind {
    match Core(o, x)
    case None => KTag
    case Some(y) =>
      match y
      case UInt(_) => KUInt
      case NInt(_) => KSInt
      case ByteString(_) => KBytes
      case TextString(_) => KText
      case Array(_) => KArray
      case Map(_) => KMap
      case Float(_) => KReal
      case Simple(code) =>
        if code == 20 || code == 21 then KBoolean
        else if code == 22 || (code == 23 && o.undefinedAsNull) then KNull else KUndefined
      case Tag(_, _) => KTag
  }

  function IntMeaning(o: Options, t: IntType, seed: Value, x: Item): Out {
    if t.Signed? then
      match SIntIn(o, x)
      case Not(code) => Wrong(Syntactic(code), seed)
      case Seen(i) => if t.Has(i) then Right(VInt(i)) else Wrong(Syntactic(OutOfRange), seed)
    else
      match UIntIn(o, x)
      case Not(code) => Wrong(Syntactic(code), seed)
      case Seen(u) => if t.Has(u) then Right(VInt(u)) else Wrong(Syntactic(OutOfRange), seed)
  }

  // ---- values ----

  /** What decoding an item into a target of type `t` that holds `seed` gives. */
  function Meaning(c: Config, t: Ty, seed: Value, x: Item): Out
    decreases Size(x), t, 1
  {
    match t
    case TBool =>
      var b := SimpleIn(c.opts, x, 20, 21);
      if b.Not? then Wrong(Syntactic(b.code), seed) else Right(VBool(b.value == 21))
    case TInt(range) => IntMeaning(c.opts, range, seed, x)
    case TText =>
      var s := TextIn(c.opts, x);
      if s.Not? then Wrong(Syntactic(s.code), seed) else Right(VText(s.value))
    case TBytes(size) =>
      var s := BytesIn(c.opts, x);
      if s.Not? then Wrong(Syntactic(s.code), seed)
      else if size.Some? && |s.value| != size.value then Wrong(Syntactic(TypeMismatch), seed)
      else Right(VBytes(s.value))
    case TEnum(repr, values) =>
      var i := IntMeaning(c.opts, repr, seed, x);
      if i.status.Some? then i
      else if i.value.VInt? && i.value.i in values then i
      else Wrong(Complaint(UnknownEnumerator, [], false), seed)
    case TNamed(names) =>
      var s := TextIn(c.opts, x);
      if s.Not? then Wrong(Syntactic(s.code), seed)
      else
        var index := FindNamed(names, s.value);
        if index.None? then Wrong(Complaint(UnknownEnumerator, [], false), seed) else Right(VInt(index.value))
    case TOpt(elem) =>
      if KindOf(c.opts, x).KNull? then Right(VNone)
      else
        var m := Meaning(c, elem, Initial(elem), x);
        m.(value := VSome(m.value))
    case TWrap(ident, elem) =>
      var m := Inside(Meaning(c, elem, InnerOf(elem, seed), x), Member(ident));
      m.(value := VStruct([m.value]))
    case TSeq(elem) =>
      (match Core(c.opts, x)
       case None => Wrong(Syntactic(TagMismatch), seed)
       case Some(y) => if y.Array? then ElemsMeaning(c, elem, [], y.items) else Wrong(Syntactic(TypeMismatch), seed))
    case TTuple(elems) =>
      (match Core(c.opts, x)
       case None => Wrong(Syntactic(TagMismatch), seed)
       case Some(y) =>
         if y.Array? then PlacesMeaning(c, elems, ItemsOf(elems, seed), 0, y.items)
         else Wrong(Syntactic(TypeMismatch), seed))
    case TMap(keys, unique, elem) =>
      (match Core(c.opts, x)
       case None => Wrong(Syntactic(TagMismatch), seed)
       case Some(y) =>
         if y.Map? then MapEnd(FoldPairs(c, keys, unique, elem, Adding([], []), y.entries))
         else Wrong(Syntactic(TypeMismatch), seed))
    case TStruct(fields, unknown) => ObjectMeaning(c, fields, unknown, seed, x)
    case TVariant(tag, alts) =>
      match AlternativeIn(c.opts, tag, alts, x)
      case Neither(e) => Wrong(e, seed)
      case Chosen(i) =>
        var a := alts[i].1;
        var m := if a.TStruct? then ObjectMeaning(c, a.fields, a.unknown.(ignore := tag), Initial(a), x)
                 else BoxMeaning(c, a, x);
        m.(value := VAlt(i, m.value))
  }

  function ElemsMeaning(c: Config, elem: Ty, done: seq<Value>, s: Items): Out
    decreases SizeItems(s), elem, 2
  {
    if s.NoItems? then Right(VSeq(done))
    else
      var m := Inside(Meaning(c, elem, Initial(elem), s.head), Index(|done|));
      if m.status.Some? then m.(value := VSeq(done)) else Plus(m.errs, ElemsMeaning(c, elem, done + [m.value], s.tail))
  }

  /** Exactly as many elements as there are places. */
  function PlacesMeaning(c: Config, elems: seq<Ty>, vals: seq<Value>, i: nat, s: Items): Out
    requires |vals| == |elems| && i <= |elems|
    decreases SizeItems(s), elems, 2
  {
    if s.NoItems? || i == |elems| then
      if s.NoItems? && i == |elems| then Right(VSeq(vals)) else Wrong(Syntactic(TypeMismatch), VSeq(vals))
    else
      var m := Inside(Meaning(c, elems[i], vals[i], s.head), Index(i));
      if m.status.Some? then m.(value := VSeq(vals[i := m.value]))
      else Plus(m.errs, PlacesMeaning(c, elems, vals[i := m.value], i + 1, s.tail))
  }

  // ---- maps ----

  function MapKeyIn(o: Options, keys: KeyType, k: Item): Seen<MapKey> {
    if keys.TextKeys? then
      var s := TextIn(o, k);
      if s.Not? then Not(s.code) else Seen(NameKey(s.value))
    else if KindOf(o, k).KText? then
      var s := TextIn(o, k);
      if s.Not? then Not(s.code)
      else
        var i := ParseKey(keys.range, s.value, 0);
        if i.Missed? then Not(i.error.code) else Seen(NumberKey(i.value))
    else if KindOf(o, k).KUInt? then
      var u := UIntIn(o, k);
      if u.Not? then Not(u.code) else if keys.range.Has(u.value) then Seen(NumberKey(u.value)) else Not(OutOfRange)
    else
      var i := SIntIn(o, k);
      if i.Not? then Not(i.code)
      else if keys.range.Signed? && keys.range.Has(i.value) then Seen(NumberKey(i.value)) else Not(OutOfRange)
  }

  /** The entries so far, or the end of it. */
  datatype Filling = Halted(out: Out) | Adding(done: seq<Pair>, errs: seq<Complaint>)

  function MapEnd(f: Filling): Out {
    if f.Halted? then f.out else Out(None, VMap(f.done), f.errs)
  }

  /** One entry of a map: a key that is there already is refused, keeps its value, or is decoded into it again. */
  function PairStep(c: Config, keys: KeyType, unique: bool, elem: Ty, done: seq<Pair>, errs: seq<Complaint>, k: Item,
                    v: Item): Filling
    decreases Size(v), elem, 2
  {
    match MapKeyIn(c.opts, keys, k)
    case Not(code) => Halted(Out(Some(Syntactic(code)), VMap(done), errs))
    case Seen(key) =>
      var there := if unique then FindEntry(done, key) else None;
      if there.Some? && c.duplicates.ErrorOnDuplicate? then
        Halted(Out(Some(Complaint(DuplicateKey, [StepOf(key)], false)), VMap(done), errs))
      else if there.Some? && c.duplicates.FirstWins? then Adding(done, errs)
      else
        var m := Inside(Meaning(c, elem, if there.Some? then done[there.value].val else Initial(elem), v), StepOf(key));
        if m.status.Some? then Halted(Out(m.status, VMap(done), errs + m.errs))
        else
          var p := Pair(key, m.value);
          Adding(if there.Some? then done[there.value := p] else done + [p], errs + m.errs)
  }

  function FoldPairs(c: Config, keys: KeyType, unique: bool, elem: Ty, f: Filling, s: Entries): Filling
    decreases SizeEntries(s), elem, 3
  {
    if f.Halted? || s.NoEntries? then f
    else FoldPairs(c, keys, unique, elem, PairStep(c, keys, unique, elem, f.done, f.errs, s.key, s.val), s.rest)
  }

  // ---- structs ----

  datatype KeyIn = NoKeyIn(code: Errc) | HugeIn(k: nat) | KeyIn(member: Option<nat>, step: PathStep)

  /** The member a key selects. */
  function MemberKeyIn(o: Options, fields: seq<Field>, k: Item): (r: KeyIn)
    ensures r.KeyIn? && r.member.Some? ==> r.member.value < |fields|
  {
    if AnyIntKeys(fields) && KindOf(o, k).KUInt? then
      var u := UIntIn(o, k);
      if u.Not? then NoKeyIn(u.code)
      else if u.value >= TWO63 then HugeIn(u.value) else KeyIn(FindKey(fields, u.value), KeyInt(u.value))
    else if AnyIntKeys(fields) && KindOf(o, k).KSInt? then
      var i := SIntIn(o, k);
      if i.Not? then NoKeyIn(i.code)
      else KeyIn(FindKey(fields, i.value), KeyInt(if 0 <= i.value then i.value else Unsigned64(i.value)))
    else
      var s := TextIn(o, k);
      if s.Not? then NoKeyIn(s.code) else KeyIn(NamedMember(fields, s.value), KeyText(s.value))
  }

  function Unsigned64(i: int): nat {
    if -TWO64 <= i < 0 then i + TWO64 else 0
  }

  /** The member a name selects; the wire name of an integer-keyed member counts only if that is allowed. */
  function NamedMember(fields: seq<Field>, name: seq<byte>): (r: Option<nat>)
    ensures r.Some? ==> r.value < |fields| && Answers(fields[r.value], name)
  {
    var f := FindName(fields, name);
    if f.Some? && fields[f.value].key.Some? && !fields[f.value].textOk && name == fields[f.value].name then None else f
  }

  /** The members so far, or the end of it. */
  datatype Going = Stopped(out: Out) | Going(vals: seq<Value>, seen: set<nat>, errs: seq<Complaint>)

  function Complain(c: Config, e: Complaint, vals: seq<Value>, seen: set<nat>, errs: seq<Complaint>): Going {
    if c.collect then Going(vals, seen, errs + [e]) else Stopped(Out(Some(e), VStruct(vals), errs))
  }

  /** One entry of an object. */
  function EntryStep(c: Config, fields: seq<Field>, unknown: Unknown, vals: seq<Value>, seen: set<nat>,
                     errs: seq<Complaint>, k: Item, v: Item): (g: Going)
    requires |vals| == |fields|
    ensures g.Going? ==> |g.vals| == |fields|
    decreases Size(v), fields, 2
  {
    match MemberKeyIn(c.opts, fields, k)
    case NoKeyIn(code) => Stopped(Out(Some(Syntactic(code)), VStruct(vals), errs))
    case HugeIn(u) =>
      if unknown.refuse then Stopped(Out(Some(Complaint(UnknownField, [KeyInt(u)], false)), VStruct(vals), errs))
      else Going(vals, seen, errs)
    case KeyIn(m, step) =>
      if m.None? then
        if unknown.refuse && (unknown.ignore == [] || step != KeyText(unknown.ignore))
        then Complain(c, Complaint(UnknownField, [step], false), vals, seen, errs)
        else Going(vals, seen, errs)
      else if fields[m.value].skip then Going(vals, seen, errs)
      else if m.value !in seen || c.duplicates.LastWins? then
        var f := fields[m.value];
        var r := Inside(Meaning(c, f.ty, vals[m.value], v), Member(f.ident));
        var vals', seen' := vals[m.value := r.value], seen + {m.value};
        if r.status.None? then Going(vals', seen', errs + r.errs)
        else if IsSyntax(r.status.value.code) then Stopped(Out(r.status, VStruct(vals'), errs + r.errs))
        else Complain(c, r.status.value, vals', seen', errs + r.errs)
      else if c.duplicates.FirstWins? then Going(vals, seen, errs)
      else Complain(c, Complaint(DuplicateKey, [step], false), vals, seen, errs)
  }

  function FoldEntries(c: Config, fields: seq<Field>, unknown: Unknown, g: Going, s: Entries): (r: Going)
    requires g.Going? ==> |g.vals| == |fields|
    ensures r.Going? ==> |r.vals| == |fields|
    decreases SizeEntries(s), fields, 3
  {
    if g.Stopped? || s.NoEntries? then g
    else FoldEntries(c, fields, unknown, EntryStep(c, fields, unknown, g.vals, g.seen, g.errs, s.key, s.val), s.rest)
  }

  /** The required members that were not seen, in order. */
  function Missing(fields: seq<Field>, seen: set<nat>, i: nat): seq<Complaint>
    requires i <= |fields|
    decreases |fields| - i
  {
    if i == |fields| then []
    else
      (if fields[i].required && !fields[i].skip && i !in seen then [Complaint(MissingField, [], false)] else [])
      + Missing(fields, seen, i + 1)
  }

  /** Behind the last entry: defaults are filled in, and required members asked for. */
  function ObjectEnd(c: Config, fields: seq<Field>, g: Going): Out
    requires g.Going? ==> |g.vals| == |fields|
  {
    if g.Stopped? then g.out
    else
      var v := VStruct(WithDefaults(fields, g.seen, g.vals));
      var missing := Missing(fields, g.seen, 0);
      if c.collect then Out(None, v, g.errs + missing)
      else if missing == [] then Out(None, v, g.errs) else Out(Some(missing[0]), v, g.errs)
  }

  function ObjectMeaning(c: Config, fields: seq<Field>, unknown: Unknown, seed: Value, x: Item): Out
    decreases Size(x), fields, 1
  {
    match Core(c.opts, x)
    case None => Wrong(Syntactic(TagMismatch), seed)
    case Some(y) =>
      if !y.Map? then Wrong(Syntactic(TypeMismatch), seed)
      else ObjectEnd(c, fields, FoldEntries(c, fields, unknown, Going(MembersOf(fields, seed), {}, []), y.entries))
  }

  // ---- variants ----

  datatype TagIn = NoTagIn(code: Errc) | TagIn(name: Option<seq<byte>>)

  /** The text under the first key that is the discriminator; all keys must be text. */
  function TagOf(o: Options, tag: seq<byte>, got: Option<seq<byte>>, s: Entries): TagIn
    decreases s
  {
    if s.NoEntries? then TagIn(got)
    else
      var key := TextIn(o, s.key);
      if key.Not? then NoTagIn(key.code)
      else if got.None? && key.value == tag then
        var name := TextIn(o, s.val);
        if name.Not? then NoTagIn(name.code) else TagOf(o, tag, Some(name.value), s.rest)
      else TagOf(o, tag, got, s.rest)
  }

  datatype Choosing = Neither(e: Complaint) | Chosen(i: nat)

  function AlternativeIn(o: Options, tag: seq<byte>, alts: seq<(seq<byte>, Ty)>, x: Item): (r: Choosing)
    ensures r.Chosen? ==> r.i < |alts|
  {
    match Core(o, x)
    case None => Neither(Syntactic(TagMismatch))
    case Some(y) =>
      if !y.Map? then Neither(Syntactic(TypeMismatch))
      else
        match TagOf(o, tag, None, y.entries)
        case NoTagIn(code) => Neither(Syntactic(code))
        case TagIn(name) =>
          if name.None? then Neither(Complaint(MissingTag, [], false))
          else
            var i := FindAlt(alts, name.value);
            if i.None? then Neither(Complaint(NoVariantAlternative, [KeyText(tag)], false)) else Chosen(i.value)
  }

  function BoxMeaning(c: Config, t: Ty, x: Item): Out
    decreases Size(x), t, 2
  {
    match Core(c.opts, x)
    case None => Wrong(Syntactic(TagMismatch), Initial(t))
    case Some(y) =>
      if y.Map? then BoxedMeaning(c, t, Initial(t), false, y.entries)
      else Wrong(Syntactic(TypeMismatch), Initial(t))
  }

  /** The value is under "value"; other entries are skipped. */
  function BoxedMeaning(c: Config, t: Ty, done: Value, have: bool, s: Entries): Out
    decreases SizeEntries(s), t, 2
  {
    if s.NoEntries? then if have then Right(done) else Wrong(Complaint(MissingField, [], false), done)
    else
      var key := TextIn(c.opts, s.key);
      if key.Not? then Wrong(Syntactic(key.code), done)
      else if key.value == VALUE then
        var m := Inside(Meaning(c, t, done, s.val), Member(VALUE));
        if m.status.Some? then m else Plus(m.errs, BoxedMeaning(c, t, m.value, true, s.rest))
      else BoxedMeaning(c, t, done, have, s.rest)
  }
}
