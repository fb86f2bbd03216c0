/** The calls of typed values are ones the writer accepts: proper, clean, with distinct keys and in key order. */
module TypedWrite {
  import opened Bytes
  import opened Head
  import opened Utf8
  import opened Item
  import opened KeyOrder
  import opened BuildSpec
  import opened Sorting
  import W = WriterSpec
  import opened WriterRuns
  import opened WriterTrees
  import opened Typed
  import M = StructMaps
  import Strict

  /** All the writer asks of a document but its depth, and all that makes its tree canonical. */
  predicate Fine(o: W.Options, d: Doc) {
    Good(d) && Clean(o, d) && Distinct(d) && InKeyOrder(d)
  }

  predicate FineDocs(o: W.Options, s: Docs) {
    ProperDocs(s) && TypedDocs(s) && CleanDocs(o, s) && DistinctDocs(s) && DocsInKeyOrder(s)
  }

  predicate FineEntries(o: W.Options, s: DocEntries) {
    ProperEntries(s) && TypedEntries(s) && CleanEntries(o, s) && DistinctEntries(s) && EntriesInKeyOrder(s)
  }

  predicate FineMembers(o: W.Options, s: seq<M.Member>) {
    forall i :: 0 <= i < |s| ==> M.GoodMember(s[i]) && Fine(o, s[i].val)
  }

  // ---- lists of fine documents ----

  lemma {:induction false} FineSeq(o: W.Options, elem: Ty, s: seq<Value>)
    requires forall i :: 0 <= i < |s| ==> Fine(o, DocOf(elem, s[i]))
    ensures FineDocs(o, SeqDocs(elem, s)) && SeqDocs(elem, s).Length() == |s|
    decreases |s|
  {
    hide DocOf, Proper, WriterTrees.Typed, Clean, Distinct, InKeyOrder;
    if s != [] {
      FineSeq(o, elem, s[1..]);
    }
  }

  lemma {:induction false} FineTuple(o: W.Options, elems: seq<Ty>, s: seq<Value>)
    requires |elems| == |s| && forall i :: 0 <= i < |s| ==> Fine(o, DocOf(elems[i], s[i]))
    ensures FineDocs(o, TupleDocs(elems, s)) && TupleDocs(elems, s).Length() == |s|
    decreases |s|
  {
    hide DocOf, Proper, WriterTrees.Typed, Clean, Distinct, InKeyOrder;
    if s != [] {
      FineTuple(o, elems[1..], s[1..]);
    }
  }

  lemma FineEntry(o: W.Options, key: W.Call, d: Doc, rest: DocEntries)
    requires IsKey(key) && TypedCall(key) && LeafBytes(o, key).Wrote? && Fine(o, d) && FineEntries(o, rest)
    ensures FineEntries(o, DocEntries(CallKey(key), d, rest))
  {
    var e := DocEntries(CallKey(key), d, rest);
    assert ProperEntries(e) && TypedEntries(e);
    assert CleanEntries(o, e) && DistinctEntries(e);
    assert EntriesInKeyOrder(e);
  }

  lemma KeyCallFine(o: W.Options, keys: KeyType, k: MapKey)
    requires (keys.IntKeys? ==> SoundRange(keys.range)) && FitKey(keys, k)
    ensures var c := MapKeyCall(keys, k);
            IsKey(c) && TypedCall(c) && LeafBytes(o, c).Wrote? && LeafItem(c) == KeyItem(k) && Valid(KeyItem(k))
  {
    hide WellFormed;
  }

  lemma FirstPair(keys: KeyType, elem: Ty, ps: seq<Pair>)
    requires ps != []
    ensures var u := EntryTrees(PairDocs(keys, elem, ps));
            u.Entries? && u.key == LeafItem(MapKeyCall(keys, ps[0].key))
              && u.rest == EntryTrees(PairDocs(keys, elem, ps[1..]))
  {
    hide DocOf, Tree, MapKeyCall, LeafItem;
  }

  lemma {:induction false} FinePairs(o: W.Options, keys: KeyType, elem: Ty, ps: seq<Pair>)
    requires keys.IntKeys? ==> SoundRange(keys.range)
    requires forall i :: 0 <= i < |ps| ==> FitKey(keys, ps[i].key) && Fine(o, DocOf(elem, ps[i].val))
    ensures FineEntries(o, PairDocs(keys, elem, ps)) && PairDocs(keys, elem, ps).Length() == |ps|
    ensures var s := EntrySlices(EntryTrees(PairDocs(keys, elem, ps)));
            |s| == |ps| && forall i :: 0 <= i < |s| ==> s[i].key == Enc(KeyItem(ps[i].key))
    decreases |ps|
  {
    hide DocOf, Proper, WriterTrees.Typed, Clean, Distinct, InKeyOrder, Tree, Enc, FitKey, MapKeyCall, LeafItem,
         LeafBytes, KeyItem;
    if ps != [] {
      KeyCallFine(o, keys, ps[0].key);
      FinePairs(o, keys, elem, ps[1..]);
      FineEntry(o, MapKeyCall(keys, ps[0].key), DocOf(elem, ps[0].val), PairDocs(keys, elem, ps[1..]));
      var u := EntryTrees(PairDocs(keys, elem, ps));
      FirstPair(keys, elem, ps);
      assert EntrySlices(u)[1..] == EntrySlices(u.rest);
    }
  }

  /** Items with one encoding are one item. */
  lemma SameEncoding(a: Item, b: Item)
    requires Valid(a) && Valid(b) && Enc(a) == Enc(b)
    ensures a == b
  {
    hide Enc, Valid;
    assert Bytes.At(Enc(a), 0, Enc(a));
    Strict.EncUnique(Enc(a), 0, a, b);
  }

  lemma KeyItemsApart(a: MapKey, b: MapKey)
    requires a != b && (a.NumberKey? && b.NumberKey? ==> true)
    ensures KeyItem(a) != KeyItem(b)
  {
  }

  lemma PairKeysDistinct(o: W.Options, keys: KeyType, elem: Ty, ps: seq<Pair>)
    requires keys.IntKeys? ==> SoundRange(keys.range)
    requires forall i :: 0 <= i < |ps| ==> FitKey(keys, ps[i].key) && Fine(o, DocOf(elem, ps[i].val))
    requires forall i, j :: 0 <= i < j < |ps| ==> ps[i].key != ps[j].key
    ensures !HasDuplicate(EntrySlices(EntryTrees(PairDocs(keys, elem, ps))))
  {
    hide DocOf, PairDocs, EntryTrees, EntrySlices, HasDuplicate, FitKey, Enc, KeyItem, Fine, Valid;
    var s := EntrySlices(EntryTrees(PairDocs(keys, elem, ps)));
    FinePairs(o, keys, elem, ps);
    DuplicateIndices(s);
    if HasDuplicate(s) {
      var i, j :| 0 <= i < j < |s| && s[i].key == s[j].key;
      KeyCallFine(o, keys, ps[i].key);
      KeyCallFine(o, keys, ps[j].key);
      SameEncoding(KeyItem(ps[i].key), KeyItem(ps[j].key));
      KeyItemsApart(ps[i].key, ps[j].key);
    }
  }

  // ---- structs ----

  /** The key of a member, as a call and as bytes. */
  lemma MemberKey(o: W.Options, m: M.Member)
    requires M.GoodMember(m)
    ensures var c := M.KeyCallOf(m.key);
            && IsKey(c) && TypedCall(c) && LeafBytes(o, c).Wrote? && Enc(LeafItem(c)) == M.KeyBytes(m)
            && KeyTree(CallKey(c)) == LeafItem(c) && Valid(LeafItem(c))
  {
    hide WellFormed, Good, ShortHead;
  }

  lemma {:induction false} FineMemberEntries(o: W.Options, s: seq<M.Member>)
    requires FineMembers(o, s)
    ensures FineEntries(o, M.EntriesOf(s)) && M.EntriesOf(s).Length() == |s|
    ensures var t := EntrySlices(EntryTrees(M.EntriesOf(s)));
            |t| == |s| && forall i :: 0 <= i < |s| ==> t[i].key == M.KeyBytes(s[i])
    decreases |s|
  {
    hide Proper, WriterTrees.Typed, Clean, Distinct, InKeyOrder, Tree, Enc, LeafItem, LeafBytes, M.KeyBytes,
         M.KeyCallOf, M.GoodMember, Good, Fine;
    if s != [] {
      MemberKey(o, s[0]);
      FineMemberEntries(o, s[1..]);
      FineEntry(o, M.KeyCallOf(s[0].key), s[0].val, M.EntriesOf(s[1..]));
      var u := EntryTrees(M.EntriesOf(s));
      assert EntrySlices(u)[1..] == EntrySlices(u.rest);
    }
  }

  /** What is written of a struct are members of it. */
  lemma {:induction false} EmittedFrom(s: seq<M.Member>, m: M.Member)
    requires m in M.Emitted(s)
    ensures m in s && M.Emits(m)
    decreases |s|
  {
    hide M.Emits;
    if s != [] {
      var e := if M.Emits(s[0]) then [s[0]] else [];
      assert M.Emitted(s) == e + M.Emitted(s[1..]);
      if m !in e {
        EmittedFrom(s[1..], m);
      }
    }
  }

  lemma EmissionFine(o: W.Options, s: seq<M.Member>)
    requires FineMembers(o, s)
    ensures FineMembers(o, M.Emitted(M.Ordered(s))) && |M.Emitted(M.Ordered(s))| <= |s|
    ensures forall m :: m in M.Emitted(M.Ordered(s)) ==> m in s && M.Emits(m)
  {
    hide M.Emits, M.Ordered, M.Emitted, M.GoodMember, Fine;
    M.OrderedKeys(s);
    var r := M.Ordered(s);
    var e := M.Emitted(r);
    forall m | m in e
      ensures m in s && M.Emits(m)
    {
      EmittedFrom(r, m);
      assert m in multiset(r);
    }
    forall i | 0 <= i < |e|
      ensures M.GoodMember(e[i]) && Fine(o, e[i].val)
    {
      assert e[i] in s;
    }
    EmittedShorter(r);
    assert |r| == |multiset(r)| == |multiset(s)| == |s|;
  }

  lemma {:induction false} EmittedShorter(s: seq<M.Member>)
    ensures |M.Emitted(s)| <= |s|
    decreases |s|
  {
    hide M.Emits;
    if s != [] {
      EmittedShorter(s[1..]);
    }
  }

  lemma FineIsGood(o: W.Options, s: seq<M.Member>)
    requires FineMembers(o, s)
    ensures M.GoodMembers(s)
  {
    hide M.GoodMember, Fine;
  }

  /** A struct written in canonical order. */
  lemma StructFine(o: W.Options, s: seq<M.Member>)
    requires FineMembers(o, s) && M.DistinctKeys(s) && |s| < TWO63
    ensures Fine(o, M.StructDoc(M.Plain, s))
  {
    hide M.Ordered, M.Emitted, M.EntriesOf, EntryTrees, EntrySlices, M.KeyBytes, Strictly, FineMembers, M.DistinctKeys,
         Increasing, M.KeySlices;
    hide ProperEntries, TypedEntries, CleanEntries, DistinctEntries, EntriesInKeyOrder;
    var es := M.Emitted(M.Ordered(s));
    EmissionFine(o, s);
    FineIsGood(o, s);
    M.EmissionCanonical(s);
    FineMemberEntries(o, es);
    var u := EntryTrees(M.EntriesOf(es));
    M.SameKeysStrict(M.KeySlices(es), EntrySlices(u));
    StrictSlices(u);
  }

  /** A struct with a discriminator in front, for the writer to sort. */
  lemma TaggedFine(o: W.Options, key: seq<byte>, name: seq<byte>, s: seq<M.Member>)
    requires key != [] && FineMembers(o, [M.Discriminator(key, name)] + s)
             && M.DistinctKeys([M.Discriminator(key, name)] + s)
    requires |s| + 1 < TWO63
    ensures Fine(o, M.StructDoc(M.Tagged(key, name), s))
  {
    hide M.Ordered, M.Emitted, M.EntriesOf, EntryTrees, EntrySlices, FineMembers, M.DistinctKeys;
    hide ProperEntries, TypedEntries, CleanEntries, DistinctEntries, EntriesInKeyOrder, HasDuplicate;
    var d := M.Discriminator(key, name);
    TaggedMembersFine(o, d, s);
    FineMemberEntries(o, [d] + M.Emitted(M.Ordered(s)));
    EmittedShorter(s);
    TaggedKeysDistinct(o, d, s);
  }

  lemma TaggedMembersFine(o: W.Options, d: M.Member, s: seq<M.Member>)
    requires FineMembers(o, [d] + s)
    ensures FineMembers(o, s) && FineMembers(o, [d] + M.Emitted(M.Ordered(s))) && |M.Emitted(M.Ordered(s))| <= |s|
    ensures forall m :: m in M.Emitted(M.Ordered(s)) ==> m in s
  {
    hide M.Ordered, M.Emitted, M.GoodMember, Fine;
    var all := [d] + s;
    forall i | 0 <= i < |s|
      ensures M.GoodMember(s[i]) && Fine(o, s[i].val)
    {
      assert s[i] == all[i + 1];
    }
    EmissionFine(o, s);
    assert all[0] == d;
  }

  lemma {:induction false} StrictlyApart(s: seq<W.Slice>)
    requires Strictly(s)
    ensures forall i, j :: 0 <= i < j < |s| ==> Less(s[i].key, s[j].key)
    decreases |s|
  {
    hide Less;
    if |s| > 1 {
      StrictlyApart(s[1..]);
      forall i, j | 0 <= i < j < |s|
        ensures Less(s[i].key, s[j].key)
      {
        if i > 0 {
          assert Less(s[1..][i - 1].key, s[1..][j - 1].key);
        } else if j > 1 {
          assert Less(s[1..][0].key, s[1..][j - 1].key);
          LessTransitive(s[0].key, s[1].key, s[j].key);
        }
      }
    }
  }

  /** Members in strictly increasing order have different keys. */
  lemma OrderedApart(s: seq<M.Member>)
    requires Strictly(M.KeySlices(s))
    ensures forall i, j :: 0 <= i < j < |s| ==> s[i].key != s[j].key
  {
    hide M.KeyBytes, Less, M.KeySlices, Strictly;
    var k := M.KeySlices(s);
    StrictlyApart(k);
    forall i, j | 0 <= i < j < |s|
      ensures s[i].key != s[j].key
    {
      assert Less(k[i].key, k[j].key);
      SameMemberKey(s[i], s[j]);
      LessIrreflexive(k[i].key);
    }
  }

  lemma SameMemberKey(m: M.Member, n: M.Member)
    ensures m.key == n.key ==> M.KeyBytes(m) == M.KeyBytes(n)
    ensures m.key.Valid() && n.key.Valid() && M.KeyBytes(m) == M.KeyBytes(n) ==> m.key == n.key
  {
    hide EncodeKey;
    if m.key.Valid() && n.key.Valid() {
      EncodedOrderIsKeyOrder(m.key, n.key);
    }
  }

  /** A discriminator in front of the written members. */
  lemma TaggedApart(d: M.Member, s: seq<M.Member>)
    requires M.GoodMembers(s) && M.DistinctKeys([d] + s) && forall m :: m in M.Emitted(M.Ordered(s)) ==> m in s
    ensures M.DistinctKeys([d] + M.Emitted(M.Ordered(s)))
  {
    hide M.Ordered, M.Emitted, Strictly, M.KeySlices, M.GoodMembers;
    var all, e := [d] + s, M.Emitted(M.Ordered(s));
    var es := [d] + e;
    forall i, j | 0 <= i < j < |s|
      ensures s[i].key != s[j].key
    {
      assert all[i + 1].key != all[j + 1].key;
    }
    M.EmissionCanonical(s);
    OrderedApart(e);
    forall i, j | 0 <= i < j < |es|
      ensures es[i].key != es[j].key
    {
      if i == 0 {
        assert e[j - 1] in s;
        var k :| 0 <= k < |s| && s[k] == e[j - 1];
        assert all[0].key != all[k + 1].key;
      } else {
        assert e[i - 1].key != e[j - 1].key;
      }
    }
  }

  lemma TaggedKeysDistinct(o: W.Options, d: M.Member, s: seq<M.Member>)
    requires FineMembers(o, [d] + s) && M.DistinctKeys([d] + s)
    ensures !HasDuplicate(EntrySlices(EntryTrees(M.EntriesOf([d] + M.Emitted(M.Ordered(s))))))
  {
    hide M.Ordered, M.Emitted, M.EntriesOf, EntryTrees, EntrySlices, HasDuplicate, M.KeyBytes, Good, Fine;
    var es := [d] + M.Emitted(M.Ordered(s));
    TaggedMembersFine(o, d, s);
    FineIsGood(o, s);
    TaggedApart(d, s);
    FineMemberEntries(o, es);
    var t := EntrySlices(EntryTrees(M.EntriesOf(es)));
    DuplicateIndices(t);
    if HasDuplicate(t) {
      var i, j :| 0 <= i < j < |t| && t[i].key == t[j].key;
      assert M.GoodMember(es[i]) && M.GoodMember(es[j]);
      SameMemberKey(es[i], es[j]);
    }
  }

  // ---- every value of a type ----

  lemma IntFine(o: W.Options, range: IntType, i: int)
    requires SoundRange(range) && range.Has(i)
    ensures Fine(o, Leaf(IntCall(range, i))) && Tree(Leaf(IntCall(range, i))) == IntItem(i)
  {
  }

  /** The members of a struct have keys of their own. */
  lemma MembersDistinct(fields: seq<Field>, ms: seq<Value>)
    requires SoundKeys(fields)
    ensures M.DistinctKeys(Members(fields, ms))
  {
    hide DocOf, SoundKey;
    var s := Members(fields, ms);
    forall i, j | 0 <= i < j < |s|
      ensures s[i].key != s[j].key
    {
      assert KeysApart(fields[i], fields[j]) && KeysApart(fields[j], fields[i]);
    }
  }

  lemma MembersFine(o: W.Options, fields: seq<Field>, ms: seq<Value>)
    requires SoundKeys(fields) && |ms| == |fields|
             && forall i :: 0 <= i < |fields| ==> Fine(o, DocOf(fields[i].ty, ms[i]))
    ensures FineMembers(o, Members(fields, ms))
  {
    hide DocOf, KeysApart, WellFormed;
    var s := Members(fields, ms);
    forall i | 0 <= i < |s|
      ensures M.GoodMember(s[i]) && Fine(o, s[i].val)
    {
      assert SoundKey(fields[i]);
    }
  }

  /** A discriminator in front of members none of which has its name. */
  lemma WithTagFine(o: W.Options, tag: seq<byte>, name: seq<byte>, fields: seq<Field>, ms: seq<Value>)
    requires SoundKeys(fields) && |ms| == |fields| && SoundName(tag) && SoundName(name)
    requires FineMembers(o, Members(fields, ms)) && forall i :: 0 <= i < |fields| ==> !Answers(fields[i], tag)
    ensures FineMembers(o, [M.Discriminator(tag, name)] + Members(fields, ms))
    ensures M.DistinctKeys([M.Discriminator(tag, name)] + Members(fields, ms))
  {
    hide DocOf, KeysApart, WellFormed, SoundKeys;
    MembersDistinct(fields, ms);
    var d, s := M.Discriminator(tag, name), Members(fields, ms);
    var all := [d] + s;
    assert M.GoodMember(d) && Fine(o, d.val);
    forall i | 0 <= i < |all|
      ensures M.GoodMember(all[i]) && Fine(o, all[i].val)
    {
      assert i > 0 ==> all[i] == s[i - 1];
    }
    forall i, j | 0 <= i < j < |all|
      ensures all[i].key != all[j].key
    {
      if i > 0 {
        assert s[i - 1].key != s[j - 1].key;
      } else {
        assert !Answers(fields[j - 1], tag);
      }
    }
  }

  lemma BoxFine(o: W.Options, tag: seq<byte>, name: seq<byte>, d: Doc)
    requires SoundName(tag) && SoundName(name) && tag != VALUE && Fine(o, d)
    ensures Fine(o, MapDoc(Counted(2), BoxEntries(tag, name, d)))
    ensures BoxEntries(tag, name, d) == M.EntriesOf(BoxMembers(tag, name, d))
            && FineMembers(o, BoxMembers(tag, name, d))
    ensures M.DistinctKeys(BoxMembers(tag, name, d))
  {
    hide EntryTrees, EntrySlices, HasDuplicate, M.KeyBytes, Good, Clean, Distinct, InKeyOrder, WellFormed;
    var s := BoxMembers(tag, name, d);
    BoxMembersAre(o, tag, name, d);
    FineMemberEntries(o, s);
    var t := EntrySlices(EntryTrees(M.EntriesOf(s)));
    DuplicateIndices(t);
    if HasDuplicate(t) {
      var i, j :| 0 <= i < j < |t| && t[i].key == t[j].key;
      assert M.GoodMember(s[i]) && M.GoodMember(s[j]);
      SameMemberKey(s[i], s[j]);
    }
    BoxParts(o, BoxEntries(tag, name, d));
  }

  lemma BoxParts(o: W.Options, e: DocEntries)
    requires FineEntries(o, e) && !HasDuplicate(EntrySlices(EntryTrees(e))) && e.Length() == 2
    ensures Fine(o, MapDoc(Counted(2), e))
  {
    hide ProperEntries, TypedEntries, CleanEntries, DistinctEntries, EntriesInKeyOrder, HasDuplicate, EntrySlices,
         EntryTrees;
  }

  /** The two entries of an externally tagged alternative. */
  function BoxMembers(tag: seq<byte>, name: seq<byte>, d: Doc): seq<M.Member> {
    [M.Discriminator(tag, name), M.Member(TextKey(VALUE), false, true, d)]
  }

  lemma BoxMembersAre(o: W.Options, tag: seq<byte>, name: seq<byte>, d: Doc)
    requires SoundName(tag) && SoundName(name) && Fine(o, d)
    ensures BoxEntries(tag, name, d) == M.EntriesOf(BoxMembers(tag, name, d))
            && FineMembers(o, BoxMembers(tag, name, d))
  {
    hide WellFormed;
    var s := BoxMembers(tag, name, d);
    assert s[1..] == [s[1]] && s[1..][1..] == [];
    assert M.EntriesOf(s[1..][1..]) == NoDocEntries;
    assert M.EntriesOf(s[1..]) == DocEntries(CallKey(W.KeyText(VALUE)), d, NoDocEntries);
    AsciiWellFormed(VALUE);
    LeafFine(o, TText, VText(name));
  }

  /** Whatever fits its type is written in calls the writer accepts. */
  lemma {:induction false} TypedFine(o: W.Options, t: Ty, v: Value)
    requires Sound(t) && Fit(t, v)
    ensures Fine(o, DocOf(t, v))
    decreases v, 1
  {
    hide Good, Clean, Distinct, InKeyOrder, M.StructDoc, Members, BoxEntries, SeqDocs, TupleDocs, PairDocs, NameFor,
         WellFormed;
    match (t, v)
    case (TInt(range), VInt(i)) => IntFine(o, range, i);
    case (TEnum(repr, _), VInt(i)) => IntFine(o, repr, i);
    case (TOpt(elem), VSome(w)) => TypedFine(o, elem, w);
    case (TSeq(elem), VSeq(s)) =>
      forall i | 0 <= i < |s|
        ensures Fine(o, DocOf(elem, s[i]))
      {
        TypedFine(o, elem, s[i]);
      }
      FineSeq(o, elem, s);
      ArrayFine(o, SeqDocs(elem, s));
    case (TTuple(elems), VSeq(s)) =>
      forall i | 0 <= i < |s|
        ensures Fine(o, DocOf(elems[i], s[i]))
      {
        TypedFine(o, elems[i], s[i]);
      }
      FineTuple(o, elems, s);
      ArrayFine(o, TupleDocs(elems, s));
    case (TMap(keys, _, elem), VMap(ps)) =>
      forall i | 0 <= i < |ps|
        ensures FitKey(keys, ps[i].key) && Fine(o, DocOf(elem, ps[i].val))
      {
        assert FitPair(keys, elem, ps, i);
        assert ps decreases to ps[i];
        TypedFine(o, elem, ps[i].val);
      }
      FinePairs(o, keys, elem, ps);
      PairKeysDistinct(o, keys, elem, ps);
      SortedMapFine(o, |ps|, PairDocs(keys, elem, ps));
    case (TWrap(_, elem), VStruct(ms)) => TypedFine(o, elem, ms[0]);
    case (TStruct(fields, _), VStruct(ms)) =>
      FieldsFine(o, fields, ms);
      MembersDistinct(fields, ms);
      StructFine(o, Members(fields, ms));
    case (TVariant(tag, alts), VAlt(i, w)) => VariantFine(o, tag, alts, i, w);
    case _ => LeafFine(o, t, v);
  }

  lemma LeafFine(o: W.Options, t: Ty, v: Value)
    requires Sound(t) && Fit(t, v) && (t.TBool? || t.TText? || t.TBytes? || t.TNamed? || (t.TOpt? && v.VNone?))
    ensures Fine(o, DocOf(t, v))
  {
    hide WellFormed, NameFor;
  }

  lemma ArrayFine(o: W.Options, s: Docs)
    requires FineDocs(o, s) && s.Length() < TWO64
    ensures Fine(o, ArrayDoc(true, s))
  {
    hide ProperDocs, TypedDocs, CleanDocs, DistinctDocs, DocsInKeyOrder;
  }

  lemma SortedMapFine(o: W.Options, n: nat, s: DocEntries)
    requires FineEntries(o, s) && s.Length() < TWO63 && n < TWO64 && !HasDuplicate(EntrySlices(EntryTrees(s)))
    ensures Fine(o, MapDoc(Counted(n), s))
  {
    hide ProperEntries, TypedEntries, CleanEntries, DistinctEntries, EntriesInKeyOrder, HasDuplicate, EntrySlices,
         EntryTrees;
  }

  lemma {:induction false} FieldsFine(o: W.Options, fields: seq<Field>, ms: seq<Value>)
    requires SoundStruct(fields) && FitMembers(fields, ms)
    ensures FineMembers(o, Members(fields, ms))
    decreases ms, 0
  {
    hide Fine, DocOf, SoundKeys;
    forall i | 0 <= i < |fields|
      ensures Fine(o, DocOf(fields[i].ty, ms[i]))
    {
      TypedFine(o, fields[i].ty, ms[i]);
    }
    MembersFine(o, fields, ms);
  }

  lemma StructSound(t: Ty, v: Value)
    requires Sound(t) && Fit(t, v) && t.TStruct?
    ensures SoundStruct(t.fields) && v.VStruct? && FitMembers(t.fields, v.members)
  {
  }

  lemma {:induction false} VariantFine(o: W.Options, tag: seq<byte>, alts: seq<(seq<byte>, Ty)>, i: nat, w: Value)
    requires Sound(TVariant(tag, alts)) && i < |alts| && Fit(alts[i].1, w)
    ensures Fine(o, DocOf(TVariant(tag, alts), VAlt(i, w)))
    decreases w, 2
  {
    hide Fine, M.StructDoc, Members, BoxEntries, SoundKeys, WellFormed;
    assert SoundAlt(tag, alts, i);
    var name, t := alts[i].0, alts[i].1;
    if t.TStruct? {
      StructSound(t, w);
      FieldsFine(o, t.fields, w.members);
      WithTagFine(o, tag, name, t.fields, w.members);
      TaggedFine(o, tag, name, Members(t.fields, w.members));
    } else {
      TypedFine(o, t, w);
      BoxFine(o, tag, name, DocOf(t, w));
    }
  }
}
