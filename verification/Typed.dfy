/** Typed values on the encode side: the calls they make, and what decoding those calls gives back. */
module Typed {
  import opened Bytes
  import opened Utf8
  import opened Item
  import opened KeyOrder
  import opened BuildSpec
  import W = WriterSpec
  import opened WriterRuns
  import opened WriterTrees
  import opened StructMaps

  // ---- the calls ----

  function IntCall(range: IntType, i: int): W.Call {
    if range.Unsigned? && i >= 0 then W.UIntCall(i) else W.SIntCall(i)
  }

  /** The name an enumerator is written by: the first that selects it. */
  function NameFor(names: seq<(seq<byte>, nat)>, i: int): seq<byte> {
    if names == [] then [] else if names[0].1 == i then names[0].0 else NameFor(names[1..], i)
  }

  function MapKeyCall(keys: KeyType, k: MapKey): W.Call {
    match k
    case NameKey(s) => W.KeyText(s)
    case NumberKey(i) => if keys.IntKeys? && keys.range.Unsigned? && i >= 0 then W.KeyUInt(i) else W.KeySInt(i)
  }

  function FieldKey(f: Field): Key {
    if f.key.Some? then IntKey(f.key.value) else TextKey(f.name)
  }

  /** skip_if_null and skip_if_default let the member through. */
  predicate Passes(f: Field, v: Value) {
    !(f.omit.ifNull && v.VNone?) && !(f.omit.ifDefault && v == f.init)
  }

  predicate IsWritten(f: Field, v: Value) {
    !f.omit.never && Passes(f, v)
  }

  /** encode_value: what a value of type `t` is written as. */
  function DocOf(t: Ty, v: Value): Doc
    decreases v
  {
    match (t, v)
    case (TBool, VBool(b)) => Leaf(W.Boolean(b))
    case (TInt(range), VInt(i)) => Leaf(IntCall(range, i))
    case (TText, VText(s)) => Leaf(W.Text(s))
    case (TBytes(_), VBytes(s)) => Leaf(W.ByteCall(s))
    case (TEnum(repr, _), VInt(i)) => Leaf(IntCall(repr, i))
    case (TNamed(names), VInt(i)) => Leaf(W.Text(NameFor(names, i)))
    case (TOpt(elem), VSome(w)) => DocOf(elem, w)
    case (TSeq(elem), VSeq(s)) => ArrayDoc(true, SeqDocs(elem, s))
    case (TTuple(elems), VSeq(s)) => ArrayDoc(true, TupleDocs(elems, s))
    case (TMap(keys, _, elem), VMap(ps)) => MapDoc(Counted(|ps|), PairDocs(keys, elem, ps))
    case (TWrap(_, elem), VStruct(ms)) => if |ms| == 1 then DocOf(elem, ms[0]) else Leaf(W.Null)
    case (TStruct(fields, _), VStruct(ms)) => StructDoc(Plain, Members(fields, ms))
    case (TVariant(tag, alts), VAlt(i, w)) =>
      if i >= |alts| then Leaf(W.Null)
      else if alts[i].1.TStruct? && w.VStruct? then
        StructDoc(ShapeOf(false, tag, alts[i].0), Members(alts[i].1.fields, w.members))
      else MapDoc(Counted(2), BoxEntries(tag, alts[i].0, DocOf(alts[i].1, w)))
    case _ => Leaf(W.Null)
  }

  function SeqDocs(elem: Ty, s: seq<Value>): Docs
    decreases s
  {
    if s == [] then NoDocs else Docs(DocOf(elem, s[0]), SeqDocs(elem, s[1..]))
  }

  function TupleDocs(elems: seq<Ty>, s: seq<Value>): Docs
    decreases s
  {
    if s == [] || elems == [] then NoDocs else Docs(DocOf(elems[0], s[0]), TupleDocs(elems[1..], s[1..]))
  }

  function PairDocs(keys: KeyType, elem: Ty, ps: seq<Pair>): DocEntries
    decreases ps
  {
    if ps == [] then NoDocEntries
    else
      assert ps decreases to ps[0];
      DocEntries(CallKey(MapKeyCall(keys, ps[0].key)), DocOf(elem, ps[0].val), PairDocs(keys, elem, ps[1..]))
  }

  /** The members of a struct in declaration order, as the emission loop meets them. */
  function Members(fields: seq<Field>, ms: seq<Value>): (r: seq<StructMaps.Member>)
    ensures |r| == |fields|
    decreases ms
  {
    seq(|fields|, i requires 0 <= i < |fields| =>
          var f := fields[i];
          if i < |ms| then StructMaps.Member(FieldKey(f), f.omit.never, Passes(f, ms[i]), DocOf(f.ty, ms[i]))
          else StructMaps.Member(FieldKey(f), true, false, Leaf(W.Null)))
  }

  /** An externally tagged alternative. */
  function BoxEntries(tag: seq<byte>, name: seq<byte>, content: Doc): DocEntries {
    DocEntries(CallKey(W.KeyText(tag)), Leaf(W.Text(name)),
               DocEntries(CallKey(W.KeyText(VALUE)), content, NoDocEntries))
  }

  // ---- types whose keys and names are apart, and their values ----

  predicate SoundRange(range: IntType) {
    if range.Unsigned? then range.high < TWO64 else -TWO63 <= range.low && range.top < TWO63
  }

  predicate SoundName(s: seq<byte>) {
    |s| < TWO64 && WellFormed(s)
  }

  /** Keys fit their types, and no two members are reached by one key: check_duplicates. */
  predicate SoundKeys(fields: seq<Field>) {
    && (forall i :: 0 <= i < |fields| ==> SoundKey(fields[i]))
    && (forall i, j :: 0 <= i < |fields| && 0 <= j < |fields| && i != j ==> KeysApart(fields[i], fields[j]))
  }

  predicate SoundKey(f: Field) {
    SoundName(f.name) && (f.key.Some? ==> -TWO63 <= f.key.value < TWO63)
  }

  predicate KeysApart(f: Field, g: Field) {
    if f.key.Some? then f.key != g.key else !Answers(g, f.name)
  }

  /** An alternative: the discriminator is no member's name, nor the key a boxed value is under. */
  predicate SoundAlternative(tag: seq<byte>, t: Ty) {
    if t.TStruct? then forall i :: 0 <= i < |t.fields| ==> !Answers(t.fields[i], tag) else tag != VALUE
  }

  predicate Sound(t: Ty) {
    match t
    case TInt(range) => SoundRange(range)
    case TEnum(repr, _) => SoundRange(repr)
    case TOpt(elem) => Sound(elem)
    case TSeq(elem) => Sound(elem)
    case TTuple(elems) => |elems| < TWO64 && forall i :: 0 <= i < |elems| ==> Sound(elems[i])
    case TMap(keys, _, elem) => (keys.IntKeys? ==> SoundRange(keys.range)) && Sound(elem)
    case TWrap(_, elem) => Sound(elem)
    case TStruct(fields, _) => SoundStruct(fields)
    case TVariant(tag, alts) => tag != [] && SoundName(tag) && forall i :: 0 <= i < |alts| ==> SoundAlt(tag, alts, i)
    case _ => true
  }

  predicate SoundStruct(fields: seq<Field>)
    decreases fields, 0
  {
    SoundKeys(fields) && |fields| < TWO63 - 1 && forall i :: 0 <= i < |fields| ==> Sound(fields[i].ty)
  }

  predicate SoundAlt(tag: seq<byte>, alts: seq<(seq<byte>, Ty)>, i: nat)
    requires i < |alts|
    decreases alts, 0
  {
    assert alts decreases to alts[i];
    SoundName(alts[i].0) && FindAlt(alts, alts[i].0) == Some(i) && SoundAlternative(tag, alts[i].1) && Sound(alts[i].1)
  }

  predicate FitKey(keys: KeyType, k: MapKey) {
    match k
    case NameKey(s) => keys.TextKeys? && SoundName(s)
    case NumberKey(i) => keys.IntKeys? && keys.range.Has(i)
  }

  /** A value of the type that can be written: text is UTF-8, enumerators are not skipped, keys of maps are distinct. */
  predicate Fit(t: Ty, v: Value)
    decreases v, 1
  {
    match (t, v)
    case (TBool, VBool(_)) => true
    case (TInt(range), VInt(i)) => range.Has(i)
    case (TText, VText(s)) => SoundName(s)
    case (TBytes(size), VBytes(s)) => |s| < TWO64 && (size.Some? ==> |s| == size.value)
    case (TEnum(repr, values), VInt(i)) => repr.Has(i) && i in values
    case (TNamed(names), VInt(i)) => i >= 0 && FindNamed(names, NameFor(names, i)) == Some(i)
      && SoundName(NameFor(names, i))
    case (TOpt(_), VNone) => true
    case (TOpt(elem), VSome(w)) => Fit(elem, w)
    case (TSeq(elem), VSeq(s)) => |s| < TWO64 && forall i :: 0 <= i < |s| ==> Fit(elem, s[i])
    case (TTuple(elems), VSeq(s)) => |s| == |elems| && forall i :: 0 <= i < |s| ==> Fit(elems[i], s[i])
    case (TMap(keys, _, elem), VMap(ps)) =>
      && |ps| < TWO63
      && (forall i :: 0 <= i < |ps| ==> FitPair(keys, elem, ps, i))
      && (forall i, j :: 0 <= i < j < |ps| ==> ps[i].key != ps[j].key)
    case (TWrap(_, elem), VStruct(ms)) => |ms| == 1 && Fit(elem, ms[0])
    case (TStruct(fields, _), VStruct(ms)) => FitMembers(fields, ms)
    case (TVariant(tag, alts), VAlt(i, w)) => i < |alts| && Fit(alts[i].1, w)
    case _ => false
  }

  predicate FitPair(keys: KeyType, elem: Ty, ps: seq<Pair>, i: nat)
    requires i < |ps|
    decreases ps, 0
  {
    assert ps decreases to ps[i];
    FitKey(keys, ps[i].key) && Fit(elem, ps[i].val)
  }

  predicate FitMembers(fields: seq<Field>, ms: seq<Value>)
    decreases ms, 0
  {
    |ms| == |fields| && forall i :: 0 <= i < |fields| ==> Fit(fields[i].ty, ms[i])
  }

  // ---- what comes back ----

  /** The value is written as null. */
  predicate IsNull(t: Ty, v: Value)
    decreases v
  {
    match (t, v)
    case (TOpt(_), VNone) => true
    case (TOpt(elem), VSome(w)) => IsNull(elem, w)
    case (TWrap(_, elem), VStruct(ms)) => |ms| == 1 && IsNull(elem, ms[0])
    case _ => false
  }

  /** What decoding into `seed` makes of what `v` was written as. */
  function Back(t: Ty, v: Value, seed: Value): Value
    decreases v, 1
  {
    match (t, v)
    case (TOpt(elem), VSome(w)) => if IsNull(elem, w) then VNone else VSome(Back(elem, w, Initial(elem)))
    case (TSeq(elem), VSeq(s)) => VSeq(BackAll(elem, s))
    case (TTuple(elems), VSeq(s)) => VSeq(BackItems(elems, s, ItemsOf(elems, seed)))
    case (TMap(_, _, elem), VMap(ps)) => VMap(SortPairs(BackPairs(elem, ps)))
    case (TWrap(_, elem), VStruct(ms)) => if |ms| == 1 then VStruct([Back(elem, ms[0], InnerOf(elem, seed))]) else v
    case (TStruct(fields, _), VStruct(ms)) => VStruct(BackMembers(fields, ms, MembersOf(fields, seed)))
    case (TVariant(tag, alts), VAlt(i, w)) => if i < |alts| then VAlt(i, Back(alts[i].1, w, Initial(alts[i].1))) else v
    case _ => v
  }

  function BackAll(elem: Ty, s: seq<Value>): (r: seq<Value>)
    ensures |r| == |s|
    decreases s, 0
  {
    seq(|s|, i requires 0 <= i < |s| => Back(elem, s[i], Initial(elem)))
  }

  function BackItems(elems: seq<Ty>, s: seq<Value>, seeds: seq<Value>): (r: seq<Value>)
    requires |seeds| == |elems|
    ensures |r| == |s|
    decreases s, 0
  {
    seq(|s|, i requires 0 <= i < |s| => if i < |elems| then Back(elems[i], s[i], seeds[i]) else s[i])
  }

  function BackPairs(elem: Ty, ps: seq<Pair>): (r: seq<Pair>)
    ensures |r| == |ps| && forall i :: 0 <= i < |ps| ==> r[i].key == ps[i].key
    decreases ps, 0
  {
    seq(|ps|, i requires 0 <= i < |ps| =>
          assert ps decreases to ps[i];
          Pair(ps[i].key, Back(elem, ps[i].val, Initial(elem))))
  }

  /** A member that was not written is filled in; one that is not read keeps what the target held. */
  function BackMembers(fields: seq<Field>, ms: seq<Value>, seeds: seq<Value>): (r: seq<Value>)
    requires |seeds| == |fields|
    ensures |r| == |fields|
    decreases ms, 0
  {
    seq(|fields|, i requires 0 <= i < |fields| =>
          if i < |ms| && IsWritten(fields[i], ms[i]) && !fields[i].skip then Back(fields[i].ty, ms[i], seeds[i])
          else Filled(fields[i], seeds[i]))
  }

  function Filled(f: Field, seed: Value): Value {
    if !f.skip && !f.required && f.default.Some? then f.default.value else seed
  }

  /** Every required member is written, and alternatives with a discriminator write no integer keys. */
  predicate Decodable(t: Ty, v: Value)
    decreases v, 1
  {
    match (t, v)
    case (TOpt(elem), VSome(w)) => Decodable(elem, w)
    case (TSeq(elem), VSeq(s)) => forall i :: 0 <= i < |s| ==> Decodable(elem, s[i])
    case (TTuple(elems), VSeq(s)) => forall i :: 0 <= i < |s| && i < |elems| ==> Decodable(elems[i], s[i])
    case (TMap(_, _, elem), VMap(ps)) => forall i :: 0 <= i < |ps| ==> PairDecodable(elem, ps, i)
    case (TWrap(_, elem), VStruct(ms)) => |ms| == 1 ==> Decodable(elem, ms[0])
    case (TStruct(fields, _), VStruct(ms)) => MembersDecodable(fields, ms)
    case (TVariant(tag, alts), VAlt(i, w)) =>
      i < |alts| ==>
        Decodable(alts[i].1, w) && (alts[i].1.TStruct? && w.VStruct? ==> TextKeyed(alts[i].1.fields, w.members))
    case _ => true
  }

  /** No member that is written has an integer key. */
  predicate TextKeyed(fields: seq<Field>, ms: seq<Value>) {
    forall i :: 0 <= i < |fields| && i < |ms| && IsWritten(fields[i], ms[i]) ==> fields[i].key.None?
  }

  predicate PairDecodable(elem: Ty, ps: seq<Pair>, i: nat)
    requires i < |ps|
    decreases ps, 0
  {
    assert ps decreases to ps[i];
    Decodable(elem, ps[i].val)
  }

  predicate MembersDecodable(fields: seq<Field>, ms: seq<Value>)
    decreases ms, 0
  {
    forall i :: 0 <= i < |fields| && i < |ms| ==>
      if IsWritten(fields[i], ms[i]) then fields[i].skip || Decodable(fields[i].ty, ms[i])
      else fields[i].skip || !fields[i].required
  }

  // ---- values up to the order of their maps ----

  function KeyItem(k: MapKey): Item {
    match k
    case NameKey(s) => TextString(s)
    case NumberKey(i) => IntItem(i)
  }

  function InsertPair(p: Pair, s: seq<Pair>): seq<Pair> {
    if s == [] || !Less(Enc(KeyItem(s[0].key)), Enc(KeyItem(p.key))) then [p] + s else [s[0]] + InsertPair(p, s[1..])
  }

  /** Entries in the order of their encoded keys. */
  function SortPairs(s: seq<Pair>): seq<Pair> {
    if s == [] then [] else InsertPair(s[0], SortPairs(s[1..]))
  }

  /** The value with the entries of every map in the order of their encoded keys. */
  function Arranged(v: Value): Value
    decreases v, 1
  {
    match v
    case VSome(w) => VSome(Arranged(w))
    case VSeq(s) => VSeq(ArrangedAll(s))
    case VMap(ps) => VMap(SortPairs(ArrangedPairs(ps)))
    case VStruct(ms) => VStruct(ArrangedAll(ms))
    case VAlt(i, w) => VAlt(i, Arranged(w))
    case _ => v
  }

  function ArrangedAll(s: seq<Value>): (r: seq<Value>)
    ensures |r| == |s|
    decreases s, 0
  {
    seq(|s|, i requires 0 <= i < |s| => Arranged(s[i]))
  }

  function ArrangedPairs(ps: seq<Pair>): (r: seq<Pair>)
    ensures |r| == |ps| && forall i :: 0 <= i < |ps| ==> r[i].key == ps[i].key
    decreases ps, 0
  {
    seq(|ps|, i requires 0 <= i < |ps| =>
          assert ps decreases to ps[i];
          Pair(ps[i].key, Arranged(ps[i].val)))
  }

  lemma {:induction false} InsertPairContents(p: Pair, s: seq<Pair>)
    ensures multiset(InsertPair(p, s)) == multiset{p} + multiset(s) && |InsertPair(p, s)| == |s| + 1
    decreases |s|
  {
    hide Less, Enc;
    if s != [] {
      InsertPairContents(p, s[1..]);
      assert s == [s[0]] + s[1..];
    }
  }

  /** Arranging only moves entries. */
  lemma {:induction false} SortPairsContents(s: seq<Pair>)
    ensures multiset(SortPairs(s)) == multiset(s) && |SortPairs(s)| == |s|
    decreases |s|
  {
    hide InsertPair;
    if s != [] {
      SortPairsContents(s[1..]);
      InsertPairContents(s[0], SortPairs(s[1..]));
      assert s == [s[0]] + s[1..];
    }
  }

  // ---- when a value returns ----

  /** No null inside an optional, and a member that is not written is filled in with what it had. */
  predicate Returns(t: Ty, v: Value, seed: Value)
    decreases v, 1
  {
    match (t, v)
    case (TOpt(elem), VSome(w)) => !IsNull(elem, w) && Returns(elem, w, Initial(elem))
    case (TSeq(elem), VSeq(s)) => forall i :: 0 <= i < |s| ==> Returns(elem, s[i], Initial(elem))
    case (TTuple(elems), VSeq(s)) => forall i ::
                                       0 <= i < |s| && i < |elems| ==> Returns(elems[i], s[i], ItemsOf(elems, seed)[i])
    case (TMap(_, _, elem), VMap(ps)) => ReturnsPairs(elem, ps)
    case (TWrap(_, elem), VStruct(ms)) => |ms| == 1 ==> Returns(elem, ms[0], InnerOf(elem, seed))
    case (TStruct(fields, _), VStruct(ms)) => ReturnsMembers(fields, ms, MembersOf(fields, seed))
    case (TVariant(tag, alts), VAlt(i, w)) => i < |alts| ==> Returns(alts[i].1, w, Initial(alts[i].1))
    case _ => true
  }

  predicate ReturnsPairs(elem: Ty, ps: seq<Pair>)
    decreases ps, 0
  {
    forall i :: 0 <= i < |ps| ==>
      assert ps decreases to ps[i];
      Returns(elem, ps[i].val, Initial(elem))
  }

  predicate ReturnsMembers(fields: seq<Field>, ms: seq<Value>, seeds: seq<Value>)
    requires |seeds| == |fields|
    decreases ms, 0
  {
    forall i :: 0 <= i < |fields| && i < |ms| ==>
      if IsWritten(fields[i], ms[i]) && !fields[i].skip then Returns(fields[i].ty, ms[i], seeds[i])
      else Filled(fields[i], seeds[i]) == Arranged(ms[i])
  }
}
