/** Decoding what each kind of typed value was written as, wherever it lies in the input. */
module TypedCases {
  import opened Bytes
  import opened Head
  import opened Utf8
  import opened Item
  import opened KeyOrder
  import opened SkipSpec
  import opened ReadSpec
  import opened BuildSpec
  import opened BuildSteps
  import opened Sorting
  import W = WriterSpec
  import opened WriterRuns
  import opened WriterTrees
  import opened Typed
  import opened TypedItems
  import opened TypedRead
  import opened TypedStructs
  import opened TypedVariants
  import opened TypedWrite
  import M = StructMaps

  // ---- single items ----

  lemma IntBack(c: Config, range: IntType, i: int, input: seq<byte>, pos: nat, depth: nat)
    requires SoundRange(range) && range.Has(i) && Lies(c.opts, input, pos, depth, Tree(Leaf(IntCall(range, i))))
    ensures var end := pos + |Enc(Tree(Leaf(IntCall(range, i))))|;
            pos <= |input|
            && forall seed: Value :: DecodeInt(c.opts, range, seed, input, pos) == Res(None, VInt(i), end, [])
  {
    hide Enc, ExpectUInt, ExpectSInt, IntItem;
    IntTree(range, i);
    IntAhead(c.opts, input, pos, i);
  }

  lemma IntTree(range: IntType, i: int)
    requires SoundRange(range) && range.Has(i)
    ensures Tree(Leaf(IntCall(range, i))) == IntItem(i)
  {
  }

  /** Strings of text and of bytes, and enumerators by name. */
  lemma StringBack(c: Config, t: Ty, v: Value, seed: Value, input: seq<byte>, pos: nat, depth: nat)
    requires Sound(t) && Fit(t, v) && (t.TText? || t.TBytes? || t.TNamed?)
    requires Lies(c.opts, input, pos, depth, Img(t, v))
    ensures DecodesAt(c, input, t, v, seed, pos, depth)
  {
    hide Enc, ExpectText, ExpectBytes, Lies, WellFormed, NameFor, FindNamed, PeekKind;
    KeyLies(c.opts, input, pos, depth, Img(t, v));
    match (t, v)
    case (TText, VText(s)) => TextAhead(c.opts, input, pos, s);
    case (TBytes(_), VBytes(s)) => BytesAhead(c.opts, input, pos, s);
    case (TNamed(names), VInt(i)) => TextAhead(c.opts, input, pos, NameFor(names, i));
  }

  lemma NumberBack(c: Config, t: Ty, v: Value, seed: Value, input: seq<byte>, pos: nat, depth: nat)
    requires Sound(t) && Fit(t, v) && (t.TInt? || t.TEnum?)
    requires Lies(c.opts, input, pos, depth, Img(t, v))
    ensures DecodesAt(c, input, t, v, seed, pos, depth)
  {
    hide Enc, DecodeInt, Lies, SoundRange, IntCall;
    match (t, v)
    case (TInt(range), VInt(i)) => IntBack(c, range, i, input, pos, depth);
    case (TEnum(repr, _), VInt(i)) => IntBack(c, repr, i, input, pos, depth);
  }

  lemma BoolBack(c: Config, b: bool, seed: Value, input: seq<byte>, pos: nat, depth: nat)
    requires Lies(c.opts, input, pos, depth, Img(TBool, VBool(b)))
    ensures DecodesAt(c, input, TBool, VBool(b), seed, pos, depth)
  {
    hide Enc, ExpectSimple, Lies, PeekKind;
    KeyLies(c.opts, input, pos, depth, Img(TBool, VBool(b)));
    SimpleAhead(c.opts, input, pos, if b then 21 else 20, 20, 21);
  }

  /** Null, where an optional is expected. */
  lemma NullRead(c: Config, elem: Ty, seed: Value, input: seq<byte>, pos: nat, depth: nat)
    requires At(input, pos, Enc(Simple(22)))
    ensures pos <= |input| && Decode(c, TOpt(elem), seed, input, pos, depth)
                              == Res(None, VNone, pos + |Enc(Simple(22))|, [])
  {
    SimpleAhead(c.opts, input, pos, 22, 22, if c.opts.undefinedAsNull then 23 else 22);
    hide Enc, ExpectSimple, PeekKind, Initial, DecodeObject, DecodeVariant, DecodeElems, DecodeEntries, DecodeItems;
  }

  lemma NoneImg(elem: Ty, seed: Value)
    ensures Img(TOpt(elem), VNone) == Simple(22) && Back(TOpt(elem), VNone, seed) == VNone
  {
  }

  lemma NoneBack(c: Config, elem: Ty, seed: Value, input: seq<byte>, pos: nat, depth: nat)
    requires Lies(c.opts, input, pos, depth, Img(TOpt(elem), VNone))
    ensures DecodesAt(c, input, TOpt(elem), VNone, seed, pos, depth)
  {
    hide Enc, Lies, Decode, Back, Img;
    NoneImg(elem, seed);
    KeyLies(c.opts, input, pos, depth, Img(TOpt(elem), VNone));
    NullRead(c, elem, seed, input, pos, depth);
  }

  /** Values that are single items. */
  lemma LeafBack(c: Config, t: Ty, v: Value, seed: Value, input: seq<byte>, pos: nat, depth: nat)
    requires Sound(t) && Fit(t, v) && (t.TBool? || t.TInt? || t.TText? || t.TBytes? || t.TEnum? || t.TNamed?
                                       || (t.TOpt? && v.VNone?))
    requires Lies(c.opts, input, pos, depth, Img(t, v))
    ensures DecodesAt(c, input, t, v, seed, pos, depth)
  {
    hide Lies, DecodesAt, Img;
    if t.TBool? {
      BoolBack(c, v.b, seed, input, pos, depth);
    } else if t.TOpt? {
      NoneBack(c, t.elem, seed, input, pos, depth);
    } else if t.TInt? || t.TEnum? {
      NumberBack(c, t, v, seed, input, pos, depth);
    } else {
      StringBack(c, t, v, seed, input, pos, depth);
    }
  }

  // ---- optionals ----

  /** A value is null on the wire exactly when it is an empty optional, or holds one all the way down. */
  lemma {:induction false} NullTree(o: W.Options, t: Ty, v: Value)
    requires Sound(t) && Fit(t, v)
    ensures var u := Img(t, v); !u.Tag? && !u.Float? && (u.Simple? ==> 20 <= u.code <= 22)
    ensures IsNull(t, v) <==> Img(t, v) == Simple(22)
    decreases v
  {
    hide Trees, EntryTrees, SortEntries, NameFor, SeqDocs, TupleDocs, PairDocs, Members, BoxEntries, FindNamed,
         WellFormed;
    match (t, v)
    case (TOpt(elem), VSome(w)) => NullTree(o, elem, w);
    case (TWrap(_, elem), VStruct(ms)) => NullTree(o, elem, ms[0]);
    case (TInt(range), VInt(i)) => IntTree(range, i);
    case (TEnum(repr, _), VInt(i)) => IntTree(repr, i);
    case _ =>
  }

  /** The kind ahead of a value tells whether it is null. */
  lemma NullAhead(o: Options, t: Ty, v: Value, input: seq<byte>, pos: nat, depth: nat)
    requires Sound(t) && Fit(t, v) && Lies(o, input, pos, depth, Img(t, v))
    ensures pos <= |input| && (PeekKind(o, input, pos).KNull? <==> IsNull(t, v)) && ParseHead(input, pos).mt != TAG
    ensures IsNull(t, v) ==> Img(t, v) == Simple(22)
  {
    hide Enc, Lies, PeekKind, Tree, DocOf, Valid, IsNull, Sound, Fit, ParseHead;
    var u := Img(t, v);
    KeyLies(o, input, pos, depth, u);
    ItemValid(o, input, pos, depth, u);
    NullTree(W.Options(0, true), t, v);
    KindAhead(o, input, pos, u);
  }

  lemma OptImg(elem: Ty, w: Value, seed: Value)
    ensures Img(TOpt(elem), VSome(w)) == Img(elem, w)
    ensures Back(TOpt(elem), VSome(w), seed) == if IsNull(elem, w) then VNone else VSome(Back(elem, w, Initial(elem)))
  {
    hide Tree;
  }

  /** Anything but null, where an optional is expected. */
  lemma SomeRead(c: Config, elem: Ty, seed: Value, input: seq<byte>, pos: nat, depth: nat)
    requires pos <= |input| && !PeekKind(c.opts, input, pos).KNull?
    ensures var r := Decode(c, elem, Initial(elem), input, pos, depth);
            Decode(c, TOpt(elem), seed, input, pos, depth) == r.(value := VSome(r.value))
  {
    hide PeekKind, Initial, DecodeObject, DecodeVariant, DecodeElems, DecodeEntries, DecodeItems, DecodeText,
         DecodeBytes, DecodeEnum, DecodeNamedEnum, DecodeInt;
  }

  lemma OptBack(c: Config, elem: Ty, w: Value, seed: Value, input: seq<byte>, pos: nat, depth: nat)
    requires Sound(elem) && Fit(elem, w) && Decodes(c, input, elem, w)
             && Lies(c.opts, input, pos, depth, Img(TOpt(elem), VSome(w)))
    ensures DecodesAt(c, input, TOpt(elem), VSome(w), seed, pos, depth)
  {
    hide Enc, Lies, PeekKind, Decodes, Decode, Img, IsNull, Sound, Fit, Back, Initial;
    OptImg(elem, w, seed);
    NullAhead(c.opts, elem, w, input, pos, depth);
    if IsNull(elem, w) {
      KeyLies(c.opts, input, pos, depth, Img(elem, w));
      NullRead(c, elem, seed, input, pos, depth);
    } else {
      UseDecodes(c, input, elem, w, Initial(elem), pos, depth);
      SomeRead(c, elem, seed, input, pos, depth);
    }
  }

  /** A transparent struct. */
  lemma WrapBack(c: Config, ident: seq<byte>, elem: Ty, ms: seq<Value>, seed: Value, input: seq<byte>, pos: nat,
                 depth: nat)
    requires |ms| == 1 && Decodes(c, input, elem, ms[0])
             && Lies(c.opts, input, pos, depth, Img(TWrap(ident, elem), VStruct(ms)))
    ensures DecodesAt(c, input, TWrap(ident, elem), VStruct(ms), seed, pos, depth)
  {
    hide Enc, Lies, Decodes, Tree, InnerOf, PushAll;
    assert Img(TWrap(ident, elem), VStruct(ms)) == Img(elem, ms[0]);
    UseDecodes(c, input, elem, ms[0], InnerOf(elem, seed), pos, depth);
    NoErrs(BuildSpec.Member(ident), Res(None, VNone, 0, []));
  }

  lemma ItemValid(o: Options, input: seq<byte>, pos: nat, depth: nat, t: Item)
    requires Lies(o, input, pos, depth, t)
    ensures Valid(t)
  {
  }

  // ---- sequences and tuples ----

  lemma SeqCase(c: Config, elem: Ty, s: seq<Value>, seed: Value, input: seq<byte>, pos: nat, depth: nat)
    requires (forall i :: 0 <= i < |s| ==> Decodes(c, input, elem, s[i]))
             && Lies(c.opts, input, pos, depth, Img(TSeq(elem), VSeq(s)))
    ensures DecodesAt(c, input, TSeq(elem), VSeq(s), seed, pos, depth)
  {
    hide Lies, Enc, Decodes, OpenContainer, DecodeElems, ItemsLie, SeqDocs, BackAll;
    var u := Trees(SeqDocs(elem, s));
    SeqLength(elem, s);
    assert Img(TSeq(elem), VSeq(s)) == Array(u);
    ArrayLies(c.opts, input, pos, depth, u);
    SeqBack(c, elem, [], s, input, pos + |ShortHead(ARRAY, |s|)|, depth + 1);
    assert [] + BackAll(elem, s) == BackAll(elem, s);
  }

  lemma TupleCase(c: Config, elems: seq<Ty>, s: seq<Value>, seed: Value, input: seq<byte>, pos: nat, depth: nat)
    requires |elems| == |s| && forall i :: 0 <= i < |s| ==> Decodes(c, input, elems[i], s[i])
    requires Lies(c.opts, input, pos, depth, Img(TTuple(elems), VSeq(s)))
    ensures DecodesAt(c, input, TTuple(elems), VSeq(s), seed, pos, depth)
  {
    hide Lies, Enc, Decodes, OpenContainer, DecodeItems, ItemsLie, TupleDocs, BackItems, Places, ItemsOf;
    var u := Trees(TupleDocs(elems, s));
    TupleLength(elems, s);
    assert Img(TTuple(elems), VSeq(s)) == Array(u);
    ArrayLies(c.opts, input, pos, depth, u);
    var seeds := ItemsOf(elems, seed);
    AllPlaces(elems, s, seeds);
    assert elems[0..] == elems && s[0..] == s;
    TupleBack(c, elems, pos, s, seeds, 0, input, pos + |ShortHead(ARRAY, |s|)|, depth + 1);
  }

  // ---- maps ----

  lemma {:induction false} InsertPairTrees(keys: KeyType, elem: Ty, p: Pair, s: seq<Pair>)
    requires LeafItem(MapKeyCall(keys, p.key)) == KeyItem(p.key)
    requires forall i :: 0 <= i < |s| ==> LeafItem(MapKeyCall(keys, s[i].key)) == KeyItem(s[i].key)
    ensures InsertEntry(KeyItem(p.key), Tree(DocOf(elem, p.val)), EntryTrees(PairDocs(keys, elem, s)))
         == EntryTrees(PairDocs(keys, elem, InsertPair(p, s)))
    decreases |s|
  {
    hide Less, Enc, LeafItem, MapKeyCall, KeyItem, Tree, DocOf;
    if s != [] {
      InsertPairTrees(keys, elem, p, s[1..]);
      var r := [s[0]] + InsertPair(p, s[1..]);
      assert r[1..] == InsertPair(p, s[1..]);
    }
    assert ([p] + s)[1..] == s;
  }

  lemma SortedMembersSame(s: seq<Pair>)
    ensures forall p :: p in SortPairs(s) <==> p in s
  {
    hide SortPairs;
    SortPairsContents(s);
    assert forall p :: p in SortPairs(s) <==> p in multiset(SortPairs(s));
    assert forall p :: p in s <==> p in multiset(s);
  }

  lemma {:induction false} SortedPairTrees(keys: KeyType, elem: Ty, s: seq<Pair>)
    requires forall i :: 0 <= i < |s| ==> LeafItem(MapKeyCall(keys, s[i].key)) == KeyItem(s[i].key)
    ensures SortEntries(EntryTrees(PairDocs(keys, elem, s))) == EntryTrees(PairDocs(keys, elem, SortPairs(s)))
    ensures forall p :: p in SortPairs(s) <==> p in s
    decreases |s|
  {
    hide LeafItem, MapKeyCall, KeyItem, Tree, DocOf, InsertEntry, InsertPair;
    SortedMembersSame(s);
    if s != [] {
      SortedPairTrees(keys, elem, s[1..]);
      SortedMembersSame(s[1..]);
      var t := SortPairs(s[1..]);
      forall i | 0 <= i < |t|
        ensures LeafItem(MapKeyCall(keys, t[i].key)) == KeyItem(t[i].key)
      {
        assert t[i] in s[1..];
      }
      InsertPairTrees(keys, elem, s[0], SortPairs(s[1..]));
    }
  }

  lemma BackPairsConcat(elem: Ty, a: seq<Pair>, b: seq<Pair>)
    ensures BackPairs(elem, a + b) == BackPairs(elem, a) + BackPairs(elem, b)
  {
    hide Back;
  }

  lemma BackOne(elem: Ty, p: Pair)
    ensures BackPairs(elem, [p]) == [Pair(p.key, Back(elem, p.val, Initial(elem)))]
  {
    hide Back;
  }

  lemma {:induction false} BackInsert(elem: Ty, p: Pair, s: seq<Pair>)
    ensures BackPairs(elem, InsertPair(p, s))
            == InsertPair(Pair(p.key, Back(elem, p.val, Initial(elem))), BackPairs(elem, s))
    decreases |s|
  {
    hide Less, Enc, KeyItem, Back, BackPairs;
    BackOne(elem, p);
    BackPairsConcat(elem, [p], s);
    if s != [] {
      var t := s[1..];
      BackInsert(elem, p, t);
      BackOne(elem, s[0]);
      BackPairsConcat(elem, [s[0]], t);
      BackPairsConcat(elem, [s[0]], InsertPair(p, t));
      assert s == [s[0]] + t;
      assert BackPairs(elem, s)[1..] == BackPairs(elem, t);
    }
  }

  /** The order of entries depends on their keys alone. */
  lemma {:induction false} BackSorted(elem: Ty, s: seq<Pair>)
    ensures BackPairs(elem, SortPairs(s)) == SortPairs(BackPairs(elem, s))
    decreases |s|
  {
    hide InsertPair, Back;
    if s != [] {
      BackSorted(elem, s[1..]);
      BackInsert(elem, s[0], SortPairs(s[1..]));
      assert BackPairs(elem, s)[1..] == BackPairs(elem, s[1..]);
    }
  }

  lemma {:induction false} InsertApart(p: Pair, s: seq<Pair>)
    requires DistinctPairs([p] + s)
    ensures DistinctPairs(InsertPair(p, s))
    decreases |s|
  {
    hide Less, Enc, KeyItem;
    var all := [p] + s;
    if s != [] {
      var t := s[1..];
      var rest := [p] + t;
      forall i, j | 0 <= i < j < |rest|
        ensures rest[i].key != rest[j].key
      {
        assert rest[j] == all[j + 1] && rest[i] == all[if i == 0 then 0 else i + 1];
      }
      InsertApart(p, t);
      var r := InsertPair(p, t);
      InsertPairContents(p, t);
      forall j | 0 <= j < |r|
        ensures s[0].key != r[j].key
      {
        assert r[j] in multiset(r);
        if r[j] != p {
          assert r[j] in t;
          var k :| 0 <= k < |t| && t[k] == r[j];
          assert all[1].key != all[k + 2].key;
        } else {
          assert all[0].key != all[1].key;
        }
      }
    }
  }

  lemma {:induction false} SortApart(s: seq<Pair>)
    requires DistinctPairs(s)
    ensures DistinctPairs(SortPairs(s))
    decreases |s|
  {
    hide InsertPair;
    if s != [] {
      SortApart(s[1..]);
      var t := SortPairs(s[1..]);
      SortPairsContents(s[1..]);
      var all := [s[0]] + t;
      forall i, j | 0 <= i < j < |all|
        ensures all[i].key != all[j].key
      {
        if i == 0 {
          assert t[j - 1] in multiset(t);
          assert t[j - 1] in s[1..];
          var k :| 0 <= k < |s[1..]| && s[1..][k] == t[j - 1];
          assert s[0].key != s[k + 1].key;
        } else {
          assert t[i - 1].key != t[j - 1].key;
        }
      }
      InsertApart(s[0], t);
    }
  }

  /** The tree of a map lists its entries in the order of their encoded keys. */
  lemma MapTree(keys: KeyType, unique: bool, elem: Ty, ps: seq<Pair>)
    requires (keys.IntKeys? ==> SoundRange(keys.range)) && forall i :: 0 <= i < |ps| ==> FitKey(keys, ps[i].key)
    ensures Img(TMap(keys, unique, elem), VMap(ps)) == Map(EntryTrees(PairDocs(keys, elem, SortPairs(ps))))
    ensures EntryTrees(PairDocs(keys, elem, SortPairs(ps))).Length() == |SortPairs(ps)|
    ensures forall p :: p in SortPairs(ps) <==> p in ps
  {
    hide PairDocs, SortEntries, EntryTrees, SortPairs, FitKey, SoundRange, LeafItem, MapKeyCall, KeyItem;
    forall i | 0 <= i < |ps|
      ensures LeafItem(MapKeyCall(keys, ps[i].key)) == KeyItem(ps[i].key)
    {
      KeyCallFine(W.Options(0, true), keys, ps[i].key);
    }
    SortedPairTrees(keys, elem, ps);
    PairsLength(keys, elem, SortPairs(ps));
  }

  /** A map that has been opened, with its entries in order. */
  lemma MapOpened(c: Config, keys: KeyType, unique: bool, elem: Ty, sorted: seq<Pair>, seed: Value, input: seq<byte>,
                  pos: nat, depth: nat)
    requires (keys.IntKeys? ==> SoundRange(keys.range)) && DistinctPairs(sorted)
    requires forall i :: 0 <= i < |sorted| ==> FitKey(keys, sorted[i].key) && Decodes(c, input, elem, sorted[i].val)
    requires EntryTrees(PairDocs(keys, elem, sorted)).Length() == |sorted|
    requires Lies(c.opts, input, pos, depth, Map(EntryTrees(PairDocs(keys, elem, sorted))))
    ensures pos <= |input|
    ensures Decode(c, TMap(keys, unique, elem), seed, input, pos, depth)
         == Res(None, VMap(BackPairs(elem, sorted)), pos + |Enc(Map(EntryTrees(PairDocs(keys, elem, sorted))))|, [])
  {
    hide Lies, Enc, Decodes, OpenContainer, DecodeEntries, EntriesLie, PairDocs, EntryTrees, BackPairs, FitKey,
         SoundRange, DistinctPairs;
    var u := EntryTrees(PairDocs(keys, elem, sorted));
    MapLies(c.opts, input, pos, depth, u);
    assert [] + sorted == sorted && [] + BackPairs(elem, sorted) == BackPairs(elem, sorted);
    MapBack(c, keys, unique, elem, [], sorted, input, pos + |ShortHead(MAP, u.Length())|, depth + 1, None, None);
  }

  lemma MapCase(c: Config, keys: KeyType, unique: bool, elem: Ty, ps: seq<Pair>, seed: Value, input: seq<byte>,
                pos: nat, depth: nat)
    requires (keys.IntKeys? ==> SoundRange(keys.range)) && DistinctPairs(ps)
    requires forall i :: 0 <= i < |ps| ==> FitKey(keys, ps[i].key) && Decodes(c, input, elem, ps[i].val)
    requires Lies(c.opts, input, pos, depth, Img(TMap(keys, unique, elem), VMap(ps)))
    ensures DecodesAt(c, input, TMap(keys, unique, elem), VMap(ps), seed, pos, depth)
  {
    hide Lies, Enc, Decodes, PairDocs, EntryTrees, SortPairs, BackPairs, FitKey, SoundRange, Img, Decode, DistinctPairs;
    MapTree(keys, unique, elem, ps);
    SortApart(ps);
    BackSorted(elem, ps);
    var sorted := SortPairs(ps);
    forall i | 0 <= i < |sorted|
      ensures FitKey(keys, sorted[i].key) && Decodes(c, input, elem, sorted[i].val)
    {
      assert sorted[i] in ps;
    }
    MapOpened(c, keys, unique, elem, sorted, seed, input, pos, depth);
    assert Back(TMap(keys, unique, elem), VMap(ps), seed) == VMap(BackPairs(elem, sorted));
  }

  // ---- structs and variants ----

  /** What is written of a plain struct are its members. */
  lemma StructPlan(fields: seq<Field>, tag: seq<byte>, ms: seq<Value>) returns (idx: seq<nat>)
    requires |ms| == |fields| && SoundKeys(fields) && M.GoodMembers(Members(fields, ms))
    ensures Plan(fields, ms, tag, M.Emitted(M.Ordered(Members(fields, ms))), idx)
  {
    hide M.Emitted, M.Ordered, Members, SoundKeys, IsWritten, Strictly, M.KeySlices, M.GoodMembers, M.DistinctKeys,
         Plan;
    var s := Members(fields, ms);
    var es := M.Emitted(M.Ordered(s));
    MembersDistinct(fields, ms);
    M.EmissionCanonical(s);
    OrderedApart(es);
    M.EmissionRearranges(s);
    assert forall m :: m in es <==> m in multiset(es);
    assert forall m :: m in M.Emitted(s) <==> m in multiset(M.Emitted(s));
    idx := PlanOf(fields, ms, tag, [], es);
  }

  lemma StructCase(c: Config, fields: seq<Field>, unknown: Unknown, ms: seq<Value>, seed: Value, input: seq<byte>,
                   pos: nat, depth: nat)
    requires |ms| == |fields| && SoundKeys(fields) && M.GoodMembers(Members(fields, ms)) && MembersDecodable(fields, ms)
    requires forall i ::
               0 <= i < |fields| && IsWritten(fields[i], ms[i]) && !fields[i].skip ==>
               Decodes(c, input, fields[i].ty, ms[i])
    requires Lies(c.opts, input, pos, depth, Img(TStruct(fields, unknown), VStruct(ms)))
    ensures DecodesAt(c, input, TStruct(fields, unknown), VStruct(ms), seed, pos, depth)
  {
    hide Lies, Enc, Decodes, DecodeObject, EntryTrees, M.EntriesOf, M.Emitted, M.Ordered, Members, MembersDecodable,
         SoundKeys, BackMembers;
    hide IsWritten, Strictly, M.KeySlices, MembersOf, M.GoodMembers, M.DistinctKeys, Plan;
    var es := M.Emitted(M.Ordered(Members(fields, ms)));
    var idx := StructPlan(fields, unknown.ignore, ms);
    assert Img(TStruct(fields, unknown), VStruct(ms)) == Map(EntryTrees(M.EntriesOf(es)));
    ObjectBack(c, fields, unknown, seed, ms, es, idx, input, pos, depth);
  }

  /** The entries of an internally tagged alternative, in the order they are written. */
  function TaggedEntries(tag: seq<byte>, name: seq<byte>, fields: seq<Field>, ms: seq<Value>): seq<M.Member> {
    M.Ordered([M.Discriminator(tag, name)] + M.Emitted(M.Ordered(Members(fields, ms))))
  }

  lemma TaggedTree(tag: seq<byte>, name: seq<byte>, fields: seq<Field>, ms: seq<Value>)
    requires tag != [] && M.GoodMembers([M.Discriminator(tag, name)] + M.Emitted(M.Ordered(Members(fields, ms))))
    ensures Tree(M.StructDoc(M.Tagged(tag, name), Members(fields, ms)))
            == Map(EntryTrees(M.EntriesOf(TaggedEntries(tag, name, fields, ms))))
  {
    hide M.Ordered, M.Emitted, Members, EntryTrees, M.EntriesOf, SortEntries, M.GoodMembers;
    SortedMembers([M.Discriminator(tag, name)] + M.Emitted(M.Ordered(Members(fields, ms))));
  }

  /** What the two passes over an internally tagged alternative need to know of its entries. */
  lemma TaggedFacts(tag: seq<byte>, name: seq<byte>, fields: seq<Field>, ms: seq<Value>)
    requires |ms| == |fields| && SoundKeys(fields) && SoundName(tag) && SoundName(name)
    requires forall i :: 0 <= i < |fields| ==> !Answers(fields[i], tag)
    requires FineMembers(W.Options(0, true), Members(fields, ms))
    ensures M.GoodMembers([M.Discriminator(tag, name)] + M.Emitted(M.Ordered(Members(fields, ms))))
    ensures var es := TaggedEntries(tag, name, fields, ms);
            && Tagged(es, tag, name) && HasTag(es, tag, 0) && (HasIntKey(es, 0) <==> !TextKeyed(fields, ms))
            && (forall m :: m in es <==> m in [M.Discriminator(tag, name)] || m in M.Emitted(Members(fields, ms)))
            && (forall j, k :: 0 <= j < k < |es| ==> es[j].key != es[k].key)
  {
    hide M.Ordered, M.Emitted, Members, M.GoodMember, Fine, M.DistinctKeys, Strictly, M.KeySlices, SoundKeys,
         WellFormed, IsWritten, M.Emits;
    var o := W.Options(0, true);
    var d, s := M.Discriminator(tag, name), Members(fields, ms);
    WithTagFine(o, tag, name, fields, ms);
    TaggedMembersFine(o, d, s);
    FineIsGood(o, s);
    TaggedApart(d, s);
    var x := [d] + M.Emitted(M.Ordered(s));
    FineIsGood(o, x);
    M.OrderedIncreases(x);
    var es := M.Ordered(x);
    OrderedApart(es);
    TaggedSame(d, s);
    forall k | 0 <= k < |es|
      ensures TaggedEntry(es[k], tag, name)
      ensures es[k].key.IntKey? ==> exists i :: 0 <= i < |fields| && IsWritten(fields[i], ms[i]) && fields[i].key.Some?
    {
      assert es[k] in es;
      if es[k] != d {
        EmittedFrom(s, es[k]);
        var i :| 0 <= i < |s| && s[i] == es[k];
        NamedMember(fields, ms, i);
        EmitsWritten(fields, ms, i);
      }
    }
    assert d in es;
    var k :| 0 <= k < |es| && es[k] == d;
    assert es[k].key == TextKey(tag);
    if !TextKeyed(fields, ms) {
      var i :| 0 <= i < |fields| && IsWritten(fields[i], ms[i]) && fields[i].key.Some?;
      EmitsWritten(fields, ms, i);
      M.EmittedHas(s, s[i]);
      assert s[i] in es;
      var j :| 0 <= j < |es| && es[j] == s[i];
      assert es[j].key.IntKey?;
    }
  }

  lemma NamedMember(fields: seq<Field>, ms: seq<Value>, i: nat)
    requires i < |fields| && SoundKeys(fields)
    ensures Members(fields, ms)[i].key == FieldKey(fields[i])
    ensures SoundName(fields[i].name) && Answers(fields[i], fields[i].name)
            && (fields[i].key.Some? ==> -TWO63 <= fields[i].key.value < TWO63)
  {
    hide DocOf, KeysApart, WellFormed;
    assert SoundKey(fields[i]);
  }

  /** Ordering and leaving out change nothing about which entries there are. */
  lemma TaggedSame(d: M.Member, s: seq<M.Member>)
    ensures forall m :: m in M.Ordered([d] + M.Emitted(M.Ordered(s))) <==> m in [d] || m in M.Emitted(s)
  {
    hide M.Ordered, M.Emitted;
    var x := [d] + M.Emitted(M.Ordered(s));
    M.OrderedKeys(x);
    M.EmissionRearranges(s);
    var a, b, e := M.Ordered(x), M.Emitted(M.Ordered(s)), M.Emitted(s);
    assert forall m :: m in a <==> m in multiset(a);
    assert forall m :: m in x <==> m in multiset(x);
    assert forall m :: m in b <==> m in multiset(b);
    assert forall m :: m in e <==> m in multiset(e);
  }

  /** A variant whose alternative is known. */
  lemma VariantDecodes(c: Config, tag: seq<byte>, alts: seq<(seq<byte>, Ty)>, i: nat, w: Value, seed: Value,
                       input: seq<byte>, pos: nat, depth: nat, end: nat)
    requires pos <= |input| && i < |alts| && FindAlternative(c.opts, tag, alts, input, pos, depth) == Alternative(i)
    requires var t := alts[i].1;
             Res(None, Back(t, w, Initial(t)), end, [])
             == if t.TStruct? then DecodeObject(c, t.fields, t.unknown.(ignore := tag), Initial(t), input, pos, depth)
                else DecodeBox(c, t, input, pos, depth)
    ensures Decode(c, TVariant(tag, alts), seed, input, pos, depth)
            == Res(None, Back(TVariant(tag, alts), VAlt(i, w), seed), end, [])
  {
    hide DecodeBox, DecodeObject, FindAlternative, Initial;
    var t := alts[i].1;
    assert Back(TVariant(tag, alts), VAlt(i, w), seed) == VAlt(i, Back(t, w, Initial(t)));
    assert Decode(c, TVariant(tag, alts), seed, input, pos, depth)
           == DecodeVariant(c, tag, alts, seed, input, pos, depth);
  }

  lemma TaggedDoc(tag: seq<byte>, alts: seq<(seq<byte>, Ty)>, i: nat, ms: seq<Value>)
    requires tag != [] && i < |alts| && alts[i].1.TStruct? && |ms| == |alts[i].1.fields|
    ensures DocOf(TVariant(tag, alts), VAlt(i, VStruct(ms)))
         == M.StructDoc(M.Tagged(tag, alts[i].0), Members(alts[i].1.fields, ms))
  {
    hide M.StructDoc, Members;
  }

  lemma TaggedImg(tag: seq<byte>, alts: seq<(seq<byte>, Ty)>, i: nat, ms: seq<Value>)
    requires tag != [] && i < |alts| && alts[i].1.TStruct? && |ms| == |alts[i].1.fields|
    requires M.GoodMembers([M.Discriminator(tag, alts[i].0)] + M.Emitted(M.Ordered(Members(alts[i].1.fields, ms))))
    ensures Img(TVariant(tag, alts), VAlt(i, VStruct(ms)))
         == Map(EntryTrees(M.EntriesOf(TaggedEntries(tag, alts[i].0, alts[i].1.fields, ms))))
  {
    hide Tree, EntryTrees, M.EntriesOf, M.GoodMembers, TaggedEntries, M.StructDoc, Members, M.Ordered, M.Emitted;
    hide DocOf;
    TaggedTree(tag, alts[i].0, alts[i].1.fields, ms);
    TaggedDoc(tag, alts, i, ms);
  }

  lemma StructBack(fields: seq<Field>, unknown: Unknown, ms: seq<Value>, seed: Value)
    ensures Back(TStruct(fields, unknown), VStruct(ms), seed)
            == VStruct(BackMembers(fields, ms, MembersOf(fields, seed)))
  {
    hide BackMembers, MembersOf;
  }

  lemma TaggedCase(c: Config, tag: seq<byte>, alts: seq<(seq<byte>, Ty)>, i: nat, ms: seq<Value>, seed: Value,
                   input: seq<byte>, pos: nat, depth: nat)
    requires tag != [] && SoundName(tag) && i < |alts| && SoundAlt(tag, alts, i) && alts[i].1.TStruct?
    requires var fields := alts[i].1.fields;
             && |ms| == |fields| && SoundKeys(fields) && FineMembers(W.Options(0, true), Members(fields, ms))
               && MembersDecodable(fields, ms)
             && TextKeyed(fields, ms)
             && forall k ::
                  0 <= k < |fields| && IsWritten(fields[k], ms[k]) && !fields[k].skip ==>
                  Decodes(c, input, fields[k].ty, ms[k])
    requires Lies(c.opts, input, pos, depth, Img(TVariant(tag, alts), VAlt(i, VStruct(ms))))
    ensures DecodesAt(c, input, TVariant(tag, alts), VAlt(i, VStruct(ms)), seed, pos, depth)
  {
    hide Lies, Enc, Decodes, DecodeObject, EntryTrees, M.EntriesOf, M.Emitted, M.Ordered, Members, MembersDecodable,
         SoundKeys, BackMembers;
    hide IsWritten, MembersOf, M.GoodMembers, Plan, FineMembers, FindAlternative, TaggedEntries, Tagged, HasTag,
         HasIntKey, TextKeyed, Initial, FindAlt, WellFormed, Sound, Img, Back, Decode;
    var name, t := alts[i].0, alts[i].1;
    var fields := t.fields;
    TaggedFacts(tag, name, fields, ms);
    TaggedImg(tag, alts, i, ms);
    StructBack(fields, t.unknown, ms, Initial(t));
    var es := TaggedEntries(tag, name, fields, ms);
    AlternativeFound(c.opts, tag, alts, i, es, input, pos, depth);
    var idx := PlanOf(fields, ms, tag, [M.Discriminator(tag, name)], es);
    ObjectBack(c, fields, t.unknown.(ignore := tag), Initial(t), ms, es, idx, input, pos, depth);
    VariantDecodes(c, tag, alts, i, VStruct(ms), seed, input, pos, depth,
                   pos + |Enc(Map(EntryTrees(M.EntriesOf(es))))|);
  }

  lemma BoxCase(c: Config, tag: seq<byte>, alts: seq<(seq<byte>, Ty)>, i: nat, w: Value, seed: Value, input: seq<byte>,
                pos: nat, depth: nat)
    requires SoundName(tag) && i < |alts| && SoundAlt(tag, alts, i) && !alts[i].1.TStruct?
             && Fine(W.Options(0, true), DocOf(alts[i].1, w))
    requires Decodes(c, input, alts[i].1, w) && Lies(c.opts, input, pos, depth, Img(TVariant(tag, alts), VAlt(i, w)))
    ensures DecodesAt(c, input, TVariant(tag, alts), VAlt(i, w), seed, pos, depth)
  {
    hide Lies, Enc, Decodes, DecodeBox, EntryTrees, M.EntriesOf, M.Ordered, FindAlternative, Tagged, HasTag, HasIntKey,
         Initial, FindAlt, WellFormed, Sound;
    hide Boxed, HasValue, Fine, BoxEntries, BoxMembers, M.GoodMembers, SortEntries, DocOf, Decode, Back;
    var name, t := alts[i].0, alts[i].1;
    var s := BoxMembers(tag, name, DocOf(t, w));
    BoxFine(W.Options(0, true), tag, name, DocOf(t, w));
    FineIsGood(W.Options(0, true), s);
    SortedMembers(s);
    var es := M.Ordered(s);
    BoxFacts(tag, name, t, w);
    BoxTree(tag, alts, i, w);
    AlternativeFound(c.opts, tag, alts, i, es, input, pos, depth);
    BoxBack(c, t, w, es, input, pos, depth);
    VariantDecodes(c, tag, alts, i, w, seed, input, pos, depth, pos + |Enc(Map(EntryTrees(M.EntriesOf(es))))|);
  }

  lemma BoxTree(tag: seq<byte>, alts: seq<(seq<byte>, Ty)>, i: nat, w: Value)
    requires i < |alts| && !alts[i].1.TStruct?
    ensures Img(TVariant(tag, alts), VAlt(i, w))
            == Map(SortEntries(EntryTrees(BoxEntries(tag, alts[i].0, DocOf(alts[i].1, w)))))
  {
    hide SortEntries, EntryTrees, BoxEntries;
  }

  lemma BoxFacts(tag: seq<byte>, name: seq<byte>, t: Ty, w: Value)
    requires SoundName(tag) && SoundName(name) && tag != VALUE && M.GoodMembers(BoxMembers(tag, name, DocOf(t, w)))
    ensures var es := M.Ordered(BoxMembers(tag, name, DocOf(t, w)));
            Tagged(es, tag, name) && HasTag(es, tag, 0) && !HasIntKey(es, 0) && Boxed(es, t, w) && HasValue(es, 0)
  {
    hide M.Ordered, DocOf, WellFormed, Strictly, M.KeySlices, M.GoodMembers, M.DistinctKeys, VALUE;
    var s := BoxMembers(tag, name, DocOf(t, w));
    ValueName();
    BoxKeysApart(tag, name, DocOf(t, w));
    M.OrderedIncreases(s);
    M.OrderedKeys(s);
    var es := M.Ordered(s);
    OrderedApart(es);
    TwoMembers(es, s);
    forall k | 0 <= k < |es|
      ensures es[k] == s[0] || es[k] == s[1]
    {
      assert es[k] in es;
    }
    BoxFound(es, s[0], s[1]);
  }

  lemma BoxFound(es: seq<M.Member>, a: M.Member, b: M.Member)
    requires a in es && b in es
    ensures a.key.TextKey? ==> HasTag(es, a.key.text, 0)
    ensures b.key == TextKey(VALUE) ==> HasValue(es, 0)
  {
    hide VALUE;
    var j :| 0 <= j < |es| && es[j] == a;
    var k :| 0 <= k < |es| && es[k] == b;
  }

  lemma ValueName()
    ensures SoundName(VALUE)
  {
    AsciiWellFormed(VALUE);
  }

  lemma BoxKeysApart(tag: seq<byte>, name: seq<byte>, d: Doc)
    requires tag != VALUE
    ensures M.DistinctKeys(BoxMembers(tag, name, d))
  {
    hide VALUE;
  }

  lemma TwoMembers(es: seq<M.Member>, s: seq<M.Member>)
    requires multiset(es) == multiset(s) && |s| == 2
    ensures s[0] in es && s[1] in es && forall m :: m in es ==> m == s[0] || m == s[1]
  {
    assert s == [s[0], s[1]];
    assert forall m :: m in es <==> m in multiset(es);
    assert s[0] in multiset(s) && s[1] in multiset(s);
  }

}
