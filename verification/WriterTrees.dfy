/** The deterministic writer produces the canonical encoding of the tree its calls describe. */
module WriterTrees {
  import opened Bytes
  import opened Head
  import opened Utf8
  import opened Floats
  import opened Item
  import W = WriterSpec
  import opened WriterRuns
  import opened Sorting

  // ---- the tree behind a document ----

  function IntItem(i: int): Item {
    if i >= 0 then UInt(i) else NInt(-1 - i)
  }

  function LeafItem(c: W.Call): Item {
    match c
    case Null => Simple(22)
    case Boolean(b) => Simple(if b then 21 else 20)
    case UIntCall(u) => UInt(u)
    case SIntCall(i) => IntItem(i)
    case Negative(n) => NInt(n)
    case Real(d) => Float(d)
    case Text(s) => TextString(s)
    case ByteCall(s) => ByteString(s)
    case SimpleCall(v) => Simple(v)
    case KeyText(s) => TextString(s)
    case KeyUInt(u) => UInt(u)
    case KeySInt(i) => IntItem(i)
    case _ => Simple(22)
  }

  /** The tree a document describes; a buffered map lists its entries by encoded key. */
  function Tree(d: Doc): Item {
    match d
    case Leaf(call) => LeafItem(call)
    case ArrayDoc(_, items) => Array(Trees(items))
    case MapDoc(_, entries) => Map(SortEntries(EntryTrees(entries)))
    case OrderedDoc(entries) => Map(EntryTrees(entries))
    case TagDoc(tag, content) => Tag(tag, Tree(content))
  }

  function Trees(s: Docs): Items {
    if s.NoDocs? then NoItems else Items(Tree(s.head), Trees(s.tail))
  }

  function EntryTrees(s: DocEntries): Entries {
    if s.NoDocEntries? then NoEntries else Entries(KeyTree(s.key), Tree(s.val), EntryTrees(s.rest))
  }

  function KeyTree(k: KeyDoc): Item {
    match k
    case CallKey(call) => LeafItem(call)
    case AnyKey(doc) => Tree(doc)
  }

  function InsertEntry(k: Item, v: Item, s: Entries): Entries {
    if s.NoEntries? || !Less(Enc(s.key), Enc(k)) then Entries(k, v, s)
       else Entries(s.key, s.val, InsertEntry(k, v, s.rest))
  }

  function SortEntries(s: Entries): Entries {
    if s.NoEntries? then NoEntries else InsertEntry(s.key, s.val, SortEntries(s.rest))
  }

  /** Encoded entries, one by one. */
  function EntrySlices(s: Entries): seq<W.Slice> {
    if s.NoEntries? then [] else [W.Slice(Enc(s.key), Enc(s.val))] + EntrySlices(s.rest)
  }

  // ---- entries and their slices ----

  lemma {:induction false} FlatSlices(s: Entries)
    ensures W.Flat(EntrySlices(s)) == EncEntries(s) && |EntrySlices(s)| == s.Length()
  {
    hide Enc;
    if s.Entries? {
      FlatSlices(s.rest);
      var all := EntrySlices(s);
      assert all[1..] == EntrySlices(s.rest);
      assert Enc(s.key) + Enc(s.val) + EncEntries(s.rest) == Enc(s.key) + (Enc(s.val) + EncEntries(s.rest));
    }
  }

  lemma {:induction false} InsertSlices(k: Item, v: Item, s: Entries)
    ensures EntrySlices(InsertEntry(k, v, s)) == W.Insert(W.Slice(Enc(k), Enc(v)), EntrySlices(s))
  {
    hide Enc, Less;
    if s.Entries? {
      InsertSlices(k, v, s.rest);
      assert EntrySlices(s)[1..] == EntrySlices(s.rest);
    }
  }

  lemma {:induction false} SortSlices(s: Entries)
    ensures EntrySlices(SortEntries(s)) == W.Sort(EntrySlices(s))
  {
    hide Enc, Less;
    if s.Entries? {
      SortSlices(s.rest);
      InsertSlices(s.key, s.val, SortEntries(s.rest));
      assert EntrySlices(s)[1..] == EntrySlices(s.rest);
    }
  }

  lemma {:induction false} StrictSlices(s: Entries)
    ensures Strictly(EntrySlices(s)) <==> Increasing(s)
  {
    hide Enc, Less;
    if s.Entries? {
      StrictSlices(s.rest);
      var all := EntrySlices(s);
      assert all[1..] == EntrySlices(s.rest);
      if s.rest.Entries? {
        assert all[1] == EntrySlices(s.rest)[0];
      }
    }
  }

  // ---- what is written is the encoding of the tree ----

  lemma SmallHead(v: nat)
    requires v < 256
    ensures v < 24 ==> ShortHead(SIMPLE, v) == [0xE0 + v]
    ensures v >= 24 ==> ShortHead(SIMPLE, v) == [0xF8, v]
  {
    assert v < 24 ==> Be(0, v) == [];
    assert v >= 24 ==> Be(1, v) == [v];
  }

  lemma LeafEncoded(o: W.Options, c: W.Call)
    requires (IsLeaf(c) || IsKey(c)) && LeafBytes(o, c).Wrote? && (c.SimpleCall? ==> c.v < 256)
    ensures LeafBytes(o, c).bytes == Enc(LeafItem(c))
  {
    hide ShortHead, FloatBytes, WellFormed;
    if c.SimpleCall? {
      SmallHead(c.v);
    } else if c.Null? {
      SmallHead(22);
    } else if c.Boolean? {
      SmallHead(20);
      SmallHead(21);
    }
  }

  /** Arguments have the width of the sink's parameter types. */
  predicate Typed(d: Doc) {
    match d
    case Leaf(call) => TypedCall(call)
    case ArrayDoc(_, items) => items.Length() < TWO64 && TypedDocs(items)
    case MapDoc(opening, entries) => (opening.Counted? ==> opening.n < TWO64) && entries.Length() < TWO63
      && TypedEntries(entries)
    case OrderedDoc(entries) => entries.Length() < TWO63 && TypedEntries(entries)
    case TagDoc(tag, content) => tag < TWO64 && Typed(content)
  }

  predicate TypedCall(c: W.Call) {
    match c
    case UIntCall(u) => u < TWO64
    case SIntCall(i) => -TWO63 <= i < TWO63
    case Negative(n) => n < TWO64
    case Real(d) => IsDouble(d)
    case Text(s) => |s| < TWO64
    case ByteCall(s) => |s| < TWO64
    case SimpleCall(v) => v < 256
    case KeyText(s) => |s| < TWO64
    case KeyUInt(u) => u < TWO64
    case KeySInt(i) => -TWO63 <= i < TWO63
    case _ => true
  }

  predicate TypedDocs(s: Docs) {
    s.NoDocs? || (Typed(s.head) && TypedDocs(s.tail))
  }

  predicate TypedEntries(s: DocEntries) {
    s.NoDocEntries? || (TypedKey(s.key) && Typed(s.val) && TypedEntries(s.rest))
  }

  predicate TypedKey(k: KeyDoc) {
    match k
    case CallKey(call) => TypedCall(call)
    case AnyKey(doc) => Typed(doc)
  }

  /** Proper calls with arguments of their types. */
  predicate Good(d: Doc) {
    Proper(d) && Typed(d)
  }

  lemma {:induction false} SortLength(s: Entries)
    ensures SortEntries(s).Length() == s.Length()
  {
    if s.Entries? {
      SortLength(s.rest);
      InsertLength(s.key, s.val, SortEntries(s.rest));
    }
  }

  lemma {:induction false} InsertLength(k: Item, v: Item, s: Entries)
    ensures InsertEntry(k, v, s).Length() == s.Length() + 1
  {
    hide Enc, Less;
    if s.Entries? {
      InsertLength(k, v, s.rest);
    }
  }

  lemma {:induction false} TreesLength(s: Docs)
    ensures Trees(s).Length() == s.Length()
  {
    if s.Docs? {
      TreesLength(s.tail);
    }
  }

  lemma {:induction false} EntryTreesLength(s: DocEntries)
    ensures EntryTrees(s).Length() == s.Length()
  {
    if s.DocEntries? {
      EntryTreesLength(s.rest);
    }
  }

  /** Whatever the writer writes is the encoding of the tree. */
  lemma {:induction false} WriteIsEnc(o: W.Options, d: Doc, depth: nat)
    requires Good(d) && Write(o, d, depth).Wrote?
    ensures Write(o, d, depth).bytes == Enc(Tree(d))
    decreases d, 1
  {
    hide ShortHead, LeafBytes, FloatBytes, W.AdjacentEqual;
    match d
    case Leaf(call) => LeafEncoded(o, call);
    case ArrayDoc(_, items) =>
      DocsAreEnc(o, items, depth + 1);
      TreesLength(items);
    case MapDoc(_, entries) =>
      EntriesAreEnc(o, entries, depth + 1);
      SortSlices(EntryTrees(entries));
      FlatSlices(SortEntries(EntryTrees(entries)));
    case OrderedDoc(entries) =>
      EntriesAreEnc(o, entries, depth + 1);
      FlatSlices(EntryTrees(entries));
    case TagDoc(tag, content) => WriteIsEnc(o, content, depth);
  }

  lemma {:induction false} DocsAreEnc(o: W.Options, s: Docs, depth: nat)
    requires ProperDocs(s) && TypedDocs(s) && WriteDocs(o, s, depth).Wrote?
    ensures WriteDocs(o, s, depth).bytes == EncItems(Trees(s))
    decreases s, 0
  {
    hide Enc, Write;
    if s.Docs? {
      WriteIsEnc(o, s.head, depth);
      DocsAreEnc(o, s.tail, depth);
    }
  }

  lemma {:induction false} EntriesAreEnc(o: W.Options, s: DocEntries, depth: nat)
    requires ProperEntries(s) && TypedEntries(s) && WriteEntries(o, s, depth).WroteEntries?
    ensures WriteEntries(o, s, depth).slices == EntrySlices(EntryTrees(s))
    decreases s, 0
  {
    hide Enc, Write;
    if s.DocEntries? {
      KeyIsEnc(o, s.key, depth);
      WriteIsEnc(o, s.val, depth);
      EntriesAreEnc(o, s.rest, depth);
    }
  }

  lemma {:induction false} KeyIsEnc(o: W.Options, k: KeyDoc, depth: nat)
    requires ProperKey(k) && TypedKey(k) && WriteKey(o, k, depth).Wrote?
    ensures WriteKey(o, k, depth).bytes == Enc(KeyTree(k))
    decreases k, 2
  {
    hide Enc, Write;
    match k
    case CallKey(call) => LeafEncoded(o, call);
    case AnyKey(doc) => WriteIsEnc(o, doc, depth);
  }

  // ---- when it writes ----

  /** Text is UTF-8 (when that is checked) and simple values are unassigned ones. */
  predicate Clean(o: W.Options, d: Doc) {
    match d
    case Leaf(call) => LeafBytes(o, call).Wrote?
    case ArrayDoc(_, items) => CleanDocs(o, items)
    case MapDoc(_, entries) => CleanEntries(o, entries)
    case OrderedDoc(entries) => CleanEntries(o, entries)
    case TagDoc(_, content) => Clean(o, content)
  }

  predicate CleanDocs(o: W.Options, s: Docs) {
    s.NoDocs? || (Clean(o, s.head) && CleanDocs(o, s.tail))
  }

  predicate CleanEntries(o: W.Options, s: DocEntries) {
    s.NoDocEntries? || (CleanKey(o, s.key) && Clean(o, s.val) && CleanEntries(o, s.rest))
  }

  predicate CleanKey(o: W.Options, k: KeyDoc) {
    match k
    case CallKey(call) => LeafBytes(o, call).Wrote?
    case AnyKey(doc) => Clean(o, doc)
  }

  /** No buffered map has two keys with one encoding. */
  predicate Distinct(d: Doc) {
    match d
    case Leaf(_) => true
    case ArrayDoc(_, items) => DistinctDocs(items)
    case MapDoc(_, entries) => DistinctEntries(entries) && !HasDuplicate(EntrySlices(EntryTrees(entries)))
    case OrderedDoc(entries) => DistinctEntries(entries)
    case TagDoc(_, content) => Distinct(content)
  }

  predicate DistinctDocs(s: Docs) {
    s.NoDocs? || (Distinct(s.head) && DistinctDocs(s.tail))
  }

  predicate DistinctEntries(s: DocEntries) {
    s.NoDocEntries? || (DistinctKey(s.key) && Distinct(s.val) && DistinctEntries(s.rest))
  }

  predicate DistinctKey(k: KeyDoc) {
    match k
    case CallKey(_) => true
    case AnyKey(doc) => Distinct(doc)
  }

  lemma {:induction false} InsertFits(k: Item, v: Item, s: Entries, room: int)
    ensures FitEntries(InsertEntry(k, v, s), room) <==> Fits(k, room) && Fits(v, room) && FitEntries(s, room)
  {
    hide Enc, Less, Fits;
    if s.Entries? {
      InsertFits(k, v, s.rest, room);
    }
  }

  lemma {:induction false} SortFits(s: Entries, room: int)
    ensures FitEntries(SortEntries(s), room) <==> FitEntries(s, room)
  {
    hide Fits;
    if s.Entries? {
      SortFits(s.rest, room);
      InsertFits(s.key, s.val, SortEntries(s.rest), room);
    }
  }

  /** The writer succeeds exactly on clean documents that fit and have no duplicate keys; a clean one that fits
      can only fail for a duplicate key. */
  lemma {:induction false} WriteSucceeds(o: W.Options, d: Doc, depth: nat)
    requires Good(d)
    ensures Write(o, d, depth).Wrote? <==> Fits(Tree(d), o.maxDepth - depth) && Clean(o, d) && Distinct(d)
    ensures Fits(Tree(d), o.maxDepth - depth) && Clean(o, d) && !Distinct(d)
            ==> Write(o, d, depth) == Failed(W.DuplicateKey)
    decreases d, 1
  {
    hide Enc, LeafBytes, W.AdjacentEqual, HasDuplicate, W.Sort;
    match d
    case Leaf(call) =>
    case ArrayDoc(_, items) => DocsSucceed(o, items, depth + 1);
    case MapDoc(_, entries) =>
      EntriesSucceed(o, entries, depth + 1);
      SortFits(EntryTrees(entries), o.maxDepth - depth - 1);
      var w := WriteEntries(o, entries, depth + 1);
      if w.WroteEntries? {
        EntriesAreEnc(o, entries, depth + 1);
        AdjacentIsDuplicate(w.slices);
      }
    case OrderedDoc(entries) => EntriesSucceed(o, entries, depth + 1);
    case TagDoc(tag, content) => WriteSucceeds(o, content, depth);
  }

  lemma {:induction false} DocsSucceed(o: W.Options, s: Docs, depth: nat)
    requires ProperDocs(s) && TypedDocs(s)
    ensures WriteDocs(o, s, depth).Wrote?
            <==> FitItems(Trees(s), o.maxDepth - depth) && CleanDocs(o, s) && DistinctDocs(s)
    ensures FitItems(Trees(s), o.maxDepth - depth) && CleanDocs(o, s) && !DistinctDocs(s)
            ==> WriteDocs(o, s, depth) == Failed(W.DuplicateKey)
    decreases s, 0
  {
    hide Write, Fits, Clean, Distinct;
    if s.Docs? {
      WriteSucceeds(o, s.head, depth);
      DocsSucceed(o, s.tail, depth);
    }
  }

  lemma {:induction false} EntriesSucceed(o: W.Options, s: DocEntries, depth: nat)
    requires ProperEntries(s) && TypedEntries(s)
    ensures WriteEntries(o, s, depth).WroteEntries?
            <==> FitEntries(EntryTrees(s), o.maxDepth - depth) && CleanEntries(o, s) && DistinctEntries(s)
    ensures FitEntries(EntryTrees(s), o.maxDepth - depth) && CleanEntries(o, s) && !DistinctEntries(s)
            ==> WriteEntries(o, s, depth) == FailedEntries(W.DuplicateKey)
    decreases s, 0
  {
    hide Write, WriteKey, Fits, Clean, CleanKey, Distinct, DistinctKey;
    if s.DocEntries? {
      KeySucceeds(o, s.key, depth);
      WriteSucceeds(o, s.val, depth);
      EntriesSucceed(o, s.rest, depth);
    }
  }

  lemma {:induction false} KeySucceeds(o: W.Options, k: KeyDoc, depth: nat)
    requires ProperKey(k) && TypedKey(k)
    ensures WriteKey(o, k, depth).Wrote? <==> Fits(KeyTree(k), o.maxDepth - depth) && CleanKey(o, k) && DistinctKey(k)
    ensures Fits(KeyTree(k), o.maxDepth - depth) && CleanKey(o, k) && !DistinctKey(k)
            ==> WriteKey(o, k, depth) == Failed(W.DuplicateKey)
    decreases k, 2
  {
    hide LeafBytes, Write, Clean, Distinct;
    if k.AnyKey? {
      WriteSucceeds(o, k.doc, depth);
    }
  }

  // ---- the tree is valid and canonical ----

  lemma LeafValid(o: W.Options, c: W.Call)
    requires o.validateUtf8 && (IsLeaf(c) || IsKey(c)) && TypedCall(c) && LeafBytes(o, c).Wrote?
    ensures Valid(LeafItem(c)) && Canonical(LeafItem(c))
  {
  }

  lemma {:induction false} InsertValid(k: Item, v: Item, s: Entries)
    ensures ValidEntries(InsertEntry(k, v, s)) <==> Valid(k) && Valid(v) && ValidEntries(s)
    ensures CanonicalEntries(InsertEntry(k, v, s)) <==> Canonical(k) && Canonical(v) && CanonicalEntries(s)
  {
    hide Enc, Less, Valid, Canonical;
    if s.Entries? {
      InsertValid(k, v, s.rest);
    }
  }

  lemma {:induction false} SortValid(s: Entries)
    ensures ValidEntries(SortEntries(s)) <==> ValidEntries(s)
    ensures CanonicalEntries(SortEntries(s)) <==> CanonicalEntries(s)
  {
    hide Valid, Canonical;
    if s.Entries? {
      SortValid(s.rest);
      InsertValid(s.key, s.val, SortEntries(s.rest));
    }
  }

  lemma {:induction false} TreeValid(o: W.Options, d: Doc)
    requires Good(d) && o.validateUtf8 && Clean(o, d)
    ensures Valid(Tree(d))
    decreases d, 1
  {
    hide Enc, LeafBytes, LeafItem;
    match d
    case Leaf(call) => LeafValid(o, call);
    case ArrayDoc(_, items) =>
      TreesValid(o, items);
      TreesLength(items);
    case MapDoc(_, entries) =>
      EntryTreesValid(o, entries);
      EntryTreesLength(entries);
      SortLength(EntryTrees(entries));
      SortValid(EntryTrees(entries));
    case OrderedDoc(entries) =>
      EntryTreesValid(o, entries);
      EntryTreesLength(entries);
    case TagDoc(tag, content) => TreeValid(o, content);
  }

  lemma {:induction false} TreesValid(o: W.Options, s: Docs)
    requires ProperDocs(s) && TypedDocs(s) && o.validateUtf8 && CleanDocs(o, s)
    ensures ValidItems(Trees(s))
    decreases s, 0
  {
    hide Clean, Valid;
    if s.Docs? {
      TreeValid(o, s.head);
      TreesValid(o, s.tail);
    }
  }

  lemma {:induction false} EntryTreesValid(o: W.Options, s: DocEntries)
    requires ProperEntries(s) && TypedEntries(s) && o.validateUtf8 && CleanEntries(o, s)
    ensures ValidEntries(EntryTrees(s))
    decreases s, 0
  {
    hide Clean, Valid, LeafItem, LeafBytes;
    if s.DocEntries? {
      if s.key.AnyKey? {
        TreeValid(o, s.key.doc);
      } else {
        LeafValid(o, s.key.call);
      }
      TreeValid(o, s.val);
      EntryTreesValid(o, s.rest);
    }
  }

  /** Maps written as they come arrive in canonical order. */
  predicate InKeyOrder(d: Doc) {
    match d
    case Leaf(_) => true
    case ArrayDoc(_, items) => DocsInKeyOrder(items)
    case MapDoc(_, entries) => EntriesInKeyOrder(entries)
    case OrderedDoc(entries) => EntriesInKeyOrder(entries) && Increasing(EntryTrees(entries))
    case TagDoc(_, content) => InKeyOrder(content)
  }

  predicate DocsInKeyOrder(s: Docs) {
    s.NoDocs? || (InKeyOrder(s.head) && DocsInKeyOrder(s.tail))
  }

  predicate EntriesInKeyOrder(s: DocEntries) {
    s.NoDocEntries? || ((s.key.AnyKey? ==> InKeyOrder(s.key.doc)) && InKeyOrder(s.val) && EntriesInKeyOrder(s.rest))
  }

  lemma SortedEntriesIncrease(s: Entries)
    requires !HasDuplicate(EntrySlices(s))
    ensures Increasing(SortEntries(s))
  {
    var slices := EntrySlices(s);
    SortSlices(s);
    SortSorted(slices);
    AdjacentIsDuplicate(slices);
    SortedIsStrict(W.Sort(slices));
    StrictSlices(SortEntries(s));
  }

  lemma {:induction false} TreeCanonical(d: Doc)
    requires Proper(d) && Distinct(d) && InKeyOrder(d)
    ensures Canonical(Tree(d))
    decreases d, 1
  {
    hide Enc, LeafItem, HasDuplicate;
    match d
    case Leaf(call) => LeafCanonical(call);
    case ArrayDoc(_, items) => TreesCanonical(items);
    case MapDoc(_, entries) =>
      EntryTreesCanonical(entries);
      SortValid(EntryTrees(entries));
      SortedEntriesIncrease(EntryTrees(entries));
    case OrderedDoc(entries) => EntryTreesCanonical(entries);
    case TagDoc(tag, content) => TreeCanonical(content);
  }

  lemma LeafCanonical(c: W.Call)
    ensures Canonical(LeafItem(c))
  {
  }

  lemma {:induction false} TreesCanonical(s: Docs)
    requires ProperDocs(s) && DistinctDocs(s) && DocsInKeyOrder(s)
    ensures CanonicalItems(Trees(s))
    decreases s, 0
  {
    hide Canonical;
    if s.Docs? {
      TreeCanonical(s.head);
      TreesCanonical(s.tail);
    }
  }

  lemma {:induction false} EntryTreesCanonical(s: DocEntries)
    requires ProperEntries(s) && DistinctEntries(s) && EntriesInKeyOrder(s)
    ensures CanonicalEntries(EntryTrees(s))
    decreases s, 0
  {
    hide Canonical, LeafItem;
    if s.DocEntries? {
      if s.key.AnyKey? {
        TreeCanonical(s.key.doc);
      } else {
        LeafCanonical(s.key.call);
      }
      TreeCanonical(s.val);
      EntryTreesCanonical(s.rest);
    }
  }

  // ---- the order of entries does not matter ----

  function EntrySeq(s: DocEntries): seq<(KeyDoc, Doc)> {
    if s.NoDocEntries? then [] else [(s.key, s.val)] + EntrySeq(s.rest)
  }

  /** The same document up to the order of entries in buffered maps, and up to how arrays and maps are opened. */
  ghost predicate Same(d: Doc, e: Doc)
    decreases d, 1
  {
    match (d, e)
    case (Leaf(a), Leaf(b)) => a == b
    case (ArrayDoc(_, s), ArrayDoc(_, t)) => SameDocs(s, t)
    case (MapDoc(_, s), MapDoc(_, t)) => exists u :: SameEntries(s, u) && multiset(EntrySeq(u)) == multiset(EntrySeq(t))
    case (OrderedDoc(s), OrderedDoc(t)) => SameEntries(s, t)
    case (TagDoc(m, a), TagDoc(n, b)) => m == n && Same(a, b)
    case _ => false
  }

  ghost predicate SameDocs(s: Docs, t: Docs)
    decreases s, 0
  {
    if s.NoDocs? then t.NoDocs? else t.Docs? && Same(s.head, t.head) && SameDocs(s.tail, t.tail)
  }

  ghost predicate SameEntries(s: DocEntries, t: DocEntries)
    decreases s, 0
  {
    if s.NoDocEntries? then t.NoDocEntries?
    else t.DocEntries? && SameKey(s.key, t.key) && Same(s.val, t.val) && SameEntries(s.rest, t.rest)
  }

  ghost predicate SameKey(k: KeyDoc, l: KeyDoc)
    decreases k, 2
  {
    match (k, l)
    case (CallKey(a), CallKey(b)) => a == b
    case (AnyKey(a), AnyKey(b)) => Same(a, b)
    case _ => false
  }

  /** One entry, written on its own. */
  function WriteEntry(o: W.Options, e: (KeyDoc, Doc), depth: nat): WrittenEntries {
    WriteEntries(o, DocEntries(e.0, e.1, NoDocEntries), depth)
  }

  predicate AllWrite(o: W.Options, s: seq<(KeyDoc, Doc)>, depth: nat) {
    forall e | e in s :: WriteEntry(o, e, depth).WroteEntries?
  }

  function SliceOf(o: W.Options, e: (KeyDoc, Doc), depth: nat): W.Slice {
    var w := WriteEntry(o, e, depth);
    if w.WroteEntries? && |w.slices| == 1 then w.slices[0] else W.Slice([], [])
  }

  function SliceSeq(o: W.Options, s: seq<(KeyDoc, Doc)>, depth: nat): seq<W.Slice> {
    if s == [] then [] else [SliceOf(o, s[0], depth)] + SliceSeq(o, s[1..], depth)
  }

  lemma {:induction false} EntriesOneByOne(o: W.Options, s: DocEntries, depth: nat)
    ensures WriteEntries(o, s, depth).WroteEntries? <==> AllWrite(o, EntrySeq(s), depth)
    ensures WriteEntries(o, s, depth).WroteEntries?
            ==> WriteEntries(o, s, depth).slices == SliceSeq(o, EntrySeq(s), depth)
  {
    hide Write, WriteKey;
    if s.DocEntries? {
      EntriesOneByOne(o, s.rest, depth);
      var all := EntrySeq(s);
      var e := (s.key, s.val);
      assert all == [e] + EntrySeq(s.rest) && all[1..] == EntrySeq(s.rest);
      assert forall x :: x in all <==> x == e || x in EntrySeq(s.rest);
      var k, v := WriteKey(o, s.key, depth), Write(o, s.val, depth);
      assert WriteEntries(o, NoDocEntries, depth) == WroteEntries([]);
      assert WriteEntry(o, e, depth).WroteEntries? <==> k.Wrote? && v.Wrote?;
      if k.Wrote? && v.Wrote? {
        assert WriteEntry(o, e, depth).slices == [W.Slice(k.bytes, v.bytes)];
      }
    }
  }

  lemma {:induction false} SliceSeqPermutation(o: W.Options, s: seq<(KeyDoc, Doc)>, t: seq<(KeyDoc, Doc)>, depth: nat)
    requires multiset(s) == multiset(t)
    ensures multiset(SliceSeq(o, s, depth)) == multiset(SliceSeq(o, t, depth))
    decreases |s|
  {
    hide SliceOf;
    if s == [] {
      assert |t| == |multiset(t)| == 0;
    } else {
      var a, b := FindFirst(s, t);
      SliceSeqPermutation(o, s[1..], a + b, depth);
      SliceSeqMove(o, a, s[0], b, depth);
    }
  }

  lemma {:induction false} SliceSeqMove(o: W.Options, a: seq<(KeyDoc, Doc)>, e: (KeyDoc, Doc), b: seq<(KeyDoc, Doc)>,
                                        depth: nat)
    ensures multiset(SliceSeq(o, a + [e] + b, depth))
            == multiset{SliceOf(o, e, depth)} + multiset(SliceSeq(o, a + b, depth))
    decreases |a|
  {
    hide SliceOf;
    var t := a + [e] + b;
    if a == [] {
      assert t[1..] == b && a + b == b;
    } else {
      assert t[1..] == a[1..] + [e] + b && (a + b)[1..] == a[1..] + b;
      SliceSeqMove(o, a[1..], e, b, depth);
    }
  }

  lemma AllWritePermutation(o: W.Options, s: seq<(KeyDoc, Doc)>, t: seq<(KeyDoc, Doc)>, depth: nat)
    requires multiset(s) == multiset(t)
    ensures AllWrite(o, s, depth) <==> AllWrite(o, t, depth)
  {
    hide WriteEntry;
    assert forall e :: e in s <==> e in multiset(s);
    assert forall e :: e in t <==> e in multiset(t);
  }

  lemma PermutedMap(o: W.Options, s: DocEntries, t: DocEntries, depth: nat)
    requires multiset(EntrySeq(s)) == multiset(EntrySeq(t))
    ensures WriteEntries(o, s, depth).WroteEntries? <==> WriteEntries(o, t, depth).WroteEntries?
    ensures SortedMap(WriteEntries(o, s, depth)).Wrote?
            ==> SortedMap(WriteEntries(o, s, depth)) == SortedMap(WriteEntries(o, t, depth))
    ensures SortedMap(WriteEntries(o, t, depth)).Wrote? ==> SortedMap(WriteEntries(o, s, depth)).Wrote?
  {
    hide WriteEntry, WriteEntries, W.Sort, W.AdjacentEqual, SliceOf, W.Flat, ShortHead;
    var a, b := EntrySeq(s), EntrySeq(t);
    EntriesOneByOne(o, s, depth);
    EntriesOneByOne(o, t, depth);
    AllWritePermutation(o, a, b, depth);
    SliceSeqPermutation(o, a, b, depth);
    SortPermutation(SliceSeq(o, a, depth), SliceSeq(o, b, depth));
  }

  /** Documents that differ only in the order of map entries are written alike: both fail, or both give one byte
      string. */
  lemma {:induction false} OrderIndependent(o: W.Options, d: Doc, e: Doc, depth: nat)
    requires Same(d, e)
    ensures Write(o, d, depth).Wrote? <==> Write(o, e, depth).Wrote?
    ensures Write(o, d, depth).Wrote? ==> Write(o, d, depth) == Write(o, e, depth)
    decreases d, 1
  {
    hide SortedMap, W.Flat, ShortHead, LeafBytes, WriteDocs, WriteEntries, SameDocs, SameEntries, EntrySeq;
    match d
    case Leaf(_) =>
    case ArrayDoc(_, s) =>
      DocsOrderIndependent(o, s, e.items, depth + 1);
      SameLength(s, e.items);
    case MapDoc(_, s) => MapOrderIndependent(o, s, e.entries, depth + 1);
    case OrderedDoc(s) => EntriesOrderIndependent(o, s, e.entries, depth + 1);
    case TagDoc(_, a) => OrderIndependent(o, a, e.content, depth);
  }

  lemma {:induction false} MapOrderIndependent(o: W.Options, s: DocEntries, t: DocEntries, depth: nat)
    requires exists u :: SameEntries(s, u) && multiset(EntrySeq(u)) == multiset(EntrySeq(t))
    ensures var a, b := SortedMap(WriteEntries(o, s, depth)), SortedMap(WriteEntries(o, t, depth));
            (a.Wrote? <==> b.Wrote?) && (a.Wrote? ==> a == b)
    decreases s, 1
  {
    hide SameEntries, EntrySeq, WriteEntries, W.Sort, W.AdjacentEqual, W.Flat, ShortHead;
    var u :| SameEntries(s, u) && multiset(EntrySeq(u)) == multiset(EntrySeq(t));
    EntriesOrderIndependent(o, s, u, depth);
    PermutedMap(o, u, t, depth);
  }

  lemma {:induction false} SameLength(s: Docs, t: Docs)
    requires SameDocs(s, t)
    ensures s.Length() == t.Length()
  {
    if s.Docs? {
      SameLength(s.tail, t.tail);
    }
  }

  lemma {:induction false} DocsOrderIndependent(o: W.Options, s: Docs, t: Docs, depth: nat)
    requires SameDocs(s, t)
    ensures WriteDocs(o, s, depth).Wrote? <==> WriteDocs(o, t, depth).Wrote?
    ensures WriteDocs(o, s, depth).Wrote? ==> WriteDocs(o, s, depth) == WriteDocs(o, t, depth)
    decreases s, 0
  {
    hide Write, Same;
    if s.Docs? {
      OrderIndependent(o, s.head, t.head, depth);
      DocsOrderIndependent(o, s.tail, t.tail, depth);
    }
  }

  lemma {:induction false} EntriesOrderIndependent(o: W.Options, s: DocEntries, t: DocEntries, depth: nat)
    requires SameEntries(s, t)
    ensures WriteEntries(o, s, depth).WroteEntries? <==> WriteEntries(o, t, depth).WroteEntries?
    ensures WriteEntries(o, s, depth).WroteEntries? ==> WriteEntries(o, s, depth) == WriteEntries(o, t, depth)
    decreases s, 0
  {
    hide Write, Same, LeafBytes;
    if s.DocEntries? {
      if s.key.AnyKey? {
        OrderIndependent(o, s.key.doc, t.key.doc, depth);
      }
      OrderIndependent(o, s.val, t.val, depth);
      EntriesOrderIndependent(o, s.rest, t.rest, depth);
    }
  }
}
