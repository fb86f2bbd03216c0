/** From a tree through the writer, the strict validator and the cursors, and back to the same bytes. */
module EndToEnd {
  import opened Bytes
  import opened Head
  import opened Utf8
  import opened Floats
  import opened Item
  import opened SkipSpec
  import opened ReadSpec
  import opened Strict
  import opened Agreement
  import W = WriterSpec
  import opened WriterRuns
  import opened WriterTrees
  import opened Sorting
  import Encoding
  import CborWriter
  import CborReader

  // ---- reading an encoding ----

  /** What a generic value keeps of an item: tags are skipped, undefined becomes null. */
  function Plain(t: Item): Item {
    match t
    case Array(items) => Array(PlainItems(items))
    case Map(entries) => Map(PlainEntries(entries))
    case Tag(_, content) => Plain(content)
    case Simple(code) => if code == 23 then Simple(22) else t
    case _ => t
  }

  function PlainItems(s: Items): Items {
    if s.NoItems? then NoItems else Items(Plain(s.head), PlainItems(s.tail))
  }

  function PlainEntries(s: Entries): Entries {
    if s.NoEntries? then NoEntries else Entries(Plain(s.key), Plain(s.val), PlainEntries(s.rest))
  }

  /** The reader's policies let every tag and every undefined in the item pass. */
  predicate Readable(o: Options, t: Item) {
    match t
    case Array(items) => ReadableItems(o, items)
    case Map(entries) => ReadableEntries(o, entries)
    case Tag(_, content) => o.ignoreUnknownTags && Readable(o, content)
    case Simple(code) => code == 23 ==> o.undefinedAsNull
    case _ => true
  }

  predicate ReadableItems(o: Options, s: Items) {
    s.NoItems? || (Readable(o, s.head) && ReadableItems(o, s.tail))
  }

  predicate ReadableEntries(o: Options, s: Entries) {
    s.NoEntries? || (Readable(o, s.key) && Readable(o, s.val) && ReadableEntries(o, s.rest))
  }

  lemma ReadScalarEnc(o: Options, input: seq<byte>, pos: nat, depth: nat, t: Item)
    requires Valid(t) && Readable(o, t) && At(input, pos, Enc(t))
    requires t.UInt? || t.NInt? || t.Simple?
    ensures ReadItem(o, input, pos, depth) == Read(Plain(t), pos + |Enc(t)|, false)
  {
    hide HeadBytes, ReadSeq, ReadMap, Reject, ParseHead, ReadString;
    match t
    case UInt(arg) => ParseShortHead(input, pos, UINT, arg);
    case NInt(arg) => ParseShortHead(input, pos, NINT, arg);
    case Simple(code) => ParseShortHead(input, pos, SIMPLE, code);
  }

  lemma ReadStringEnc(o: Options, input: seq<byte>, pos: nat, depth: nat, t: Item)
    requires Valid(t) && At(input, pos, Enc(t)) && (t.ByteString? || t.TextString?)
    ensures ReadItem(o, input, pos, depth) == Read(t, pos + |Enc(t)|, false)
  {
    hide ShortHead, ReadItem, ReadScalar, ParseHead, WellFormed;
    var m: major, s := if t.ByteString? then BYTES else TEXT, if t.ByteString? then t.bytes else t.text;
    HeadThen(input, pos, m, |s|, s);
    ScalarAhead(o, input, pos, depth);
    DefiniteString(o, input, pos, m, s);
  }

  /** A string behind a definite head is read for its bytes. */
  lemma DefiniteString(o: Options, input: seq<byte>, pos: nat, m: major, s: seq<byte>)
    requires (m == BYTES || m == TEXT) && (m == TEXT ==> WellFormed(s))
             && HeadError(o, ParseHead(input, pos), pos).None?
    requires ParseHead(input, pos) == ParsedHead(m, ShortestAi(|s|), |s|, false, |ShortHead(m, |s|)|, false, false)
    requires At(input, pos + |ShortHead(m, |s|)|, s) && pos < |input|
    ensures ReadScalar(o, input, pos, false)
         == Read(if m == BYTES then ByteString(s) else TextString(s), pos + |ShortHead(m, |s|)| + |s|, false)
  {
    hide ShortHead, ParseHead, WellFormed, ReadChunks, HeadError, ShortestAi;
  }

  /** A scalar is read from its own head when no tag stands in front. */
  lemma ScalarAhead(o: Options, input: seq<byte>, pos: nat, depth: nat)
    requires pos < |input| && HeadError(o, ParseHead(input, pos), pos).None?
    requires var h := ParseHead(input, pos);
             h.mt != ARRAY && h.mt != MAP && h.mt != TAG
               && !(h.mt == SIMPLE && (h.ai == 23 || (h.ai == 24 && h.value < 32)))
    ensures ReadItem(o, input, pos, depth) == ReadScalar(o, input, pos, false)
  {
    hide ReadScalar, ReadSeq, ReadMap, Reject, ParseHead, PeekKind;
  }

  lemma ReadFloatEnc(o: Options, input: seq<byte>, pos: nat, depth: nat, d: Double)
    requires IsDouble(d) && At(input, pos, Enc(Float(d)))
    ensures ReadItem(o, input, pos, depth) == Read(Float(d), pos + |Enc(Float(d))|, false)
  {
    hide Preferred, Widen, IsPreferred, IsDouble, Be, FromBe, ReadItem, ReadString, ParseHead;
    var w := Preferred(d);
    PreferredIsForm(d);
    WidenPreferred(d);
    IsPreferredExact(w);
    Pow256Values();
    FormWidths();
    ParseHeadBytes(input, pos, SIMPLE, w.ai, w.raw);
    ScalarAhead(o, input, pos, depth);
  }

  /** An item behind a tag is read as the item. */
  lemma ReadTagEnc(o: Options, input: seq<byte>, pos: nat, depth: nat, tag: nat, content: Item)
    requires tag < TWO64 && o.ignoreUnknownTags && At(input, pos, ShortHead(TAG, tag) + Enc(content))
    requires var next := pos + |ShortHead(TAG, tag)|;
             next <= |input| ==> ReadItem(o, input, next, depth) == Read(Plain(content), next + |Enc(content)|, false)
    ensures ReadItem(o, input, pos, depth) == Read(Plain(content), pos + |ShortHead(TAG, tag) + Enc(content)|, false)
  {
    hide Enc, ShortHead, Plain, ReadAt, Reject, ParseHead, PeekKind;
    HeadThen(input, pos, TAG, tag, Enc(content));
    var next := pos + |ShortHead(TAG, tag)|;
    assert ItemHead(o, input, next).HeadAt?;
    assert ItemHead(o, input, pos) == ItemHead(o, input, next);
  }

  lemma ReadContainerEnc(o: Options, input: seq<byte>, pos: nat, depth: nat, m: major, n: nat, body: seq<byte>)
    requires (m == ARRAY || m == MAP) && n < TWO64 && depth < o.maxDepth && At(input, pos, ShortHead(m, n) + body)
    ensures var next := pos + |ShortHead(m, n)|;
            At(input, next, body) && next <= |input| && pos < |input|
            && ParseHead(input, pos).length > 0 && ParseHead(input, pos).mt == m
            && HeadError(o, ParseHead(input, pos), pos).None?
            && ReadItem(o, input, pos, depth) == ReadAt(o, input, pos, depth, false)
    ensures var next := pos + |ShortHead(m, n)|;
            m == ARRAY ==> var r := ReadSeq(o, input, next, depth + 1, Some(n));
            ReadItem(o, input, pos, depth) == if r.NotReadItems? then NotRead(r.error)
              else Read(Array(r.items), r.pos, r.loose)
    ensures var next := pos + |ShortHead(m, n)|;
            m == MAP ==> var r := ReadMap(o, input, next, depth + 1, Some(n), None);
            ReadItem(o, input, pos, depth) == if r.NotReadEntries? then NotRead(r.error)
              else Read(Map(r.entries), r.pos, r.loose)
  {
    hide ReadSeq, ReadMap, ReadScalar, ParseHead, ShortHead, Reject;
    HeadThen(input, pos, m, n, body);
  }

  /** Every encoding reads back as its tree, in strict mode whenever its maps are in canonical order. */
  lemma {:induction false} ReadEnc(o: Options, input: seq<byte>, pos: nat, depth: nat, t: Item)
    requires Valid(t) && Readable(o, t) && At(input, pos, Enc(t)) && Fits(t, o.maxDepth - depth)
    requires o.requireDeterministic ==> Canonical(t)
    ensures ReadItem(o, input, pos, depth) == Read(Plain(t), pos + |Enc(t)|, false)
    decreases t, 2
  {
    hide ReadItem, ReadSeq, ReadMap, ParseHead, ShortHead, At;
    match t
    case Array(items) =>
      ReadContainerEnc(o, input, pos, depth, ARRAY, items.Length(), EncItems(items));
      ReadItemsEnc(o, input, pos + |ShortHead(ARRAY, items.Length())|, depth + 1, items);
    case Map(entries) =>
      ReadContainerEnc(o, input, pos, depth, MAP, entries.Length(), EncEntries(entries));
      ReadEntriesEnc(o, input, pos + |ShortHead(MAP, entries.Length())|, depth + 1, entries, None, None);
    case Tag(tag, content) =>
      HeadThen(input, pos, TAG, tag, Enc(content));
      ReadEnc(o, input, pos + |ShortHead(TAG, tag)|, depth, content);
      ReadTagEnc(o, input, pos, depth, tag, content);
    case Float(d) => ReadFloatEnc(o, input, pos, depth, d);
    case ByteString(_) => ReadStringEnc(o, input, pos, depth, t);
    case TextString(_) => ReadStringEnc(o, input, pos, depth, t);
    case _ => ReadScalarEnc(o, input, pos, depth, t);
  }

  lemma SeqItem(o: Options, input: seq<byte>, pos: nat, depth: nat, n: nat, t: Item, p: nat)
    requires pos < |input| && n > 0 && pos < p <= |input| && ReadItem(o, input, pos, depth) == Read(t, p, false)
    ensures var rest := ReadSeq(o, input, p, depth, Some(n - 1));
            ReadSeq(o, input, pos, depth, Some(n)) == if rest.NotReadItems? then rest
              else ReadItems(Items(t, rest.items), rest.pos, rest.loose)
  {
    hide ReadItem;
  }

  lemma {:induction false} ReadItemsEnc(o: Options, input: seq<byte>, pos: nat, depth: nat, s: Items)
    requires ValidItems(s) && ReadableItems(o, s) && At(input, pos, EncItems(s)) && FitItems(s, o.maxDepth - depth)
    requires o.requireDeterministic ==> CanonicalItems(s)
    ensures pos <= |input| && ReadSeq(o, input, pos, depth, Some(s.Length()))
            == ReadItems(PlainItems(s), pos + |EncItems(s)|, false)
    decreases s, 0
  {
    hide ReadItem, ReadSeq, Enc, Valid, Fits, Canonical, Readable, Plain;
    if s.Items? {
      NotBreakAt(input, pos, s.head, EncItems(s.tail));
      ReadEnc(o, input, pos, depth, s.head);
      var p := pos + |Enc(s.head)|;
      SeqItem(o, input, pos, depth, s.Length(), Plain(s.head), p);
      ReadItemsEnc(o, input, p, depth, s.tail);
    } else {
      EmptyContainers(o, input, pos, depth);
    }
  }

  /** The extent of the last key holds that key. */
  ghost predicate Holds(input: seq<byte>, ext: Option<Extent>, prev: Option<seq<byte>>) {
    ExtentOk(ext, |input|) && (ext.Some? <==> prev.Some?)
      && (ext.Some? ==> input[ext.value.start..ext.value.end] == prev.value)
  }

  lemma MapEntry(o: Options, input: seq<byte>, pos: nat, depth: nat, n: nat, ext: Option<Extent>,
                 prev: Option<seq<byte>>, k: Item, p: nat, v: Item, q: nat)
    requires pos < p < q <= |input| && n > 0 && Holds(input, ext, prev)
    requires ReadItem(o, input, pos, depth) == Read(k, p, false) && ReadItem(o, input, p, depth) == Read(v, q, false)
    requires SkipItem(o, input, pos, depth) == Done(p, false)
    requires o.requireDeterministic && prev.Some? ==> Less(prev.value, input[pos..p])
    ensures var ext' := if o.requireDeterministic then Some(Extent(pos, p)) else ext;
            var rest := ReadMap(o, input, q, depth, Some(n - 1), ext');
            ReadMap(o, input, pos, depth, Some(n), ext)
            == if rest.NotReadEntries? then rest else ReadEntries(Entries(k, v, rest.entries), rest.pos, rest.loose)
  {
    hide ReadItem, SkipItem, Less;
    if o.requireDeterministic && prev.Some? {
      LessIrreflexive(prev.value);
      if Less(input[pos..p], prev.value) {
        LessTransitive(prev.value, input[pos..p], prev.value);
      }
    }
  }

  lemma {:induction false} ReadEntriesEnc(o: Options, input: seq<byte>, pos: nat, depth: nat, s: Entries,
                                          ext: Option<Extent>, prev: Option<seq<byte>>)
    requires ValidEntries(s) && ReadableEntries(o, s) && At(input, pos, EncEntries(s))
             && FitEntries(s, o.maxDepth - depth)
    requires Holds(input, ext, prev) && (o.requireDeterministic ==> CanonicalEntries(s) && InOrder(prev, s))
    ensures pos <= |input| && ReadMap(o, input, pos, depth, Some(s.Length()), ext)
            == ReadEntries(PlainEntries(s), pos + |EncEntries(s)|, false)
    decreases s, 0
  {
    hide ReadItem, SkipItem, ReadMap, Enc, Valid, Fits, Canonical, Readable, Plain, Less;
    if s.Entries? {
      NotBreakAt(input, pos, s.key, Enc(s.val) + EncEntries(s.rest));
      ReadEnc(o, input, pos, depth, s.key);
      SkipEnc(o, input, pos, depth, s.key);
      var p := pos + |Enc(s.key)|;
      NotBreakAt(input, p, s.val, EncEntries(s.rest));
      ReadEnc(o, input, p, depth, s.val);
      var q := p + |Enc(s.val)|;
      assert input[pos..p] == Enc(s.key);
      MapEntry(o, input, pos, depth, s.Length(), ext, prev, Plain(s.key), p, Plain(s.val), q);
      var ext' := if o.requireDeterministic then Some(Extent(pos, p)) else ext;
      var prev' := if o.requireDeterministic then Some(Enc(s.key)) else prev;
      ReadEntriesEnc(o, input, q, depth, s.rest, ext', prev');
    } else {
      NoMoreEntries(o, input, pos, depth, ext);
    }
  }

  // ---- writing a tree ----

  /** The calls a generic value makes to write itself. */
  function DocOf(t: Item): Doc
    decreases t, 0
  {
    match t
    case UInt(arg) => Leaf(W.UIntCall(arg))
    case NInt(arg) => Leaf(if arg < TWO63 then W.SIntCall(-1 - arg) else W.Negative(arg))
    case ByteString(bytes) => Leaf(W.ByteCall(bytes))
    case TextString(text) => Leaf(W.Text(text))
    case Array(items) => ArrayDoc(true, DocsOf(items))
    case Map(entries) => MapDoc(Counted(entries.Length()), EntriesOf(entries))
    case Tag(tag, content) => TagDoc(tag, DocOf(content))
    case Simple(code) =>
      Leaf(if code == 20 || code == 21 then W.Boolean(code == 21) else if code == 22 then W.Null
           else W.SimpleCall(code))
    case Float(d) => Leaf(W.Real(d))
  }

  function DocsOf(s: Items): Docs
    decreases s, 0
  {
    if s.NoItems? then NoDocs else Docs(DocOf(s.head), DocsOf(s.tail))
  }

  function EntriesOf(s: Entries): DocEntries
    decreases s, 0
  {
    if s.NoEntries? then NoDocEntries else DocEntries(KeyOf(s.key), DocOf(s.val), EntriesOf(s.rest))
  }

  function KeyOf(k: Item): KeyDoc
    decreases k, 1
  {
    match k
    case TextString(text) => CallKey(W.KeyText(text))
    case UInt(arg) => CallKey(W.KeyUInt(arg))
    case NInt(arg) => if arg < TWO63 then CallKey(W.KeySInt(-1 - arg)) else AnyKey(DocOf(k))
    case _ => AnyKey(DocOf(k))
  }

  /** Only the unassigned simple values, the booleans and null can be written. */
  predicate Writable(t: Item) {
    match t
    case Array(items) => WritableItems(items)
    case Map(entries) => WritableEntries(entries)
    case Tag(_, content) => Writable(content)
    case Simple(code) => code != 23
    case _ => true
  }

  predicate WritableItems(s: Items) {
    s.NoItems? || (Writable(s.head) && WritableItems(s.tail))
  }

  predicate WritableEntries(s: Entries) {
    s.NoEntries? || (Writable(s.key) && Writable(s.val) && WritableEntries(s.rest))
  }

  lemma {:induction false} DocOfGood(o: W.Options, t: Item)
    requires Valid(t) && Writable(t)
    ensures Good(DocOf(t)) && Clean(o, DocOf(t)) && InKeyOrder(DocOf(t))
    decreases t, 1
  {
    hide WellFormed, ShortHead;
    match t
    case Array(items) => DocsOfGood(o, items);
    case Map(entries) => EntriesOfGood(o, entries);
    case Tag(_, content) => DocOfGood(o, content);
    case _ =>
  }

  lemma {:induction false} DocsOfGood(o: W.Options, s: Items)
    requires ValidItems(s) && WritableItems(s)
    ensures ProperDocs(DocsOf(s)) && TypedDocs(DocsOf(s)) && CleanDocs(o, DocsOf(s)) && DocsInKeyOrder(DocsOf(s))
    ensures DocsOf(s).Length() == s.Length()
    decreases s, 0
  {
    hide DocOf, Clean, InKeyOrder, Proper, Typed, Valid, Writable;
    if s.Items? {
      DocOfGood(o, s.head);
      DocsOfGood(o, s.tail);
    }
  }

  lemma {:induction false} EntriesOfGood(o: W.Options, s: Entries)
    requires ValidEntries(s) && WritableEntries(s)
    ensures ProperEntries(EntriesOf(s)) && TypedEntries(EntriesOf(s)) && CleanEntries(o, EntriesOf(s))
            && EntriesInKeyOrder(EntriesOf(s))
    ensures EntriesOf(s).Length() == s.Length()
    decreases s, 0
  {
    hide DocOf, Clean, InKeyOrder, Proper, Typed, Writable, WellFormed;
    if s.Entries? {
      DocOfGood(o, s.key);
      DocOfGood(o, s.val);
      EntriesOfGood(o, s.rest);
    }
  }

  // ---- trees up to the order of entries ----

  function EntryList(s: Entries): seq<(Item, Item)> {
    if s.NoEntries? then [] else [(s.key, s.val)] + EntryList(s.rest)
  }

  /** Equal up to the order of entries, in maps at any depth. */
  ghost predicate Reordered(t: Item, u: Item)
    decreases t, 1
  {
    match (t, u)
    case (Array(s), Array(r)) => ReorderedItems(s, r)
    case (Map(s), Map(r)) => exists m :: ReorderedEntries(s, m) && multiset(EntryList(m)) == multiset(EntryList(r))
    case (Tag(m, a), Tag(n, b)) => m == n && Reordered(a, b)
    case _ => t == u
  }

  ghost predicate ReorderedItems(s: Items, r: Items)
    decreases s, 0
  {
    if s.NoItems? then r.NoItems? else r.Items? && Reordered(s.head, r.head) && ReorderedItems(s.tail, r.tail)
  }

  ghost predicate ReorderedEntries(s: Entries, r: Entries)
    decreases s, 0
  {
    if s.NoEntries? then r.NoEntries?
    else r.Entries? && Reordered(s.key, r.key) && Reordered(s.val, r.val) && ReorderedEntries(s.rest, r.rest)
  }

  lemma {:induction false} InsertList(k: Item, v: Item, s: Entries)
    ensures multiset(EntryList(InsertEntry(k, v, s))) == multiset{(k, v)} + multiset(EntryList(s))
  {
    hide Enc, Less;
    if s.Entries? && Less(Enc(s.key), Enc(k)) {
      InsertList(k, v, s.rest);
    }
  }

  lemma {:induction false} SortList(s: Entries)
    ensures multiset(EntryList(SortEntries(s))) == multiset(EntryList(s))
  {
    if s.Entries? {
      SortList(s.rest);
      InsertList(s.key, s.val, SortEntries(s.rest));
    }
  }

  /** What a tree writes describes the tree again, its maps sorted. */
  lemma {:induction false} TreeOfDoc(t: Item)
    requires Valid(t) && Writable(t)
    ensures Reordered(t, Tree(DocOf(t)))
    decreases t, 1
  {
    match t
    case Array(items) => TreesOfDocs(items);
    case Map(entries) =>
      EntryTreesOf(entries);
      SortList(EntryTrees(EntriesOf(entries)));
    case Tag(_, content) => TreeOfDoc(content);
    case _ =>
  }

  lemma {:induction false} TreesOfDocs(s: Items)
    requires ValidItems(s) && WritableItems(s)
    ensures ReorderedItems(s, Trees(DocsOf(s)))
    decreases s, 0
  {
    hide Tree, DocOf, Valid, Writable, Reordered;
    if s.Items? {
      TreeOfDoc(s.head);
      TreesOfDocs(s.tail);
    }
  }

  lemma KeyTreeOf(k: Item)
    ensures KeyTree(KeyOf(k)) == Tree(DocOf(k))
  {
  }

  lemma {:induction false} EntryTreesOf(s: Entries)
    requires ValidEntries(s) && WritableEntries(s)
    ensures ReorderedEntries(s, EntryTrees(EntriesOf(s)))
    decreases s, 0
  {
    hide Tree, DocOf, KeyTree, KeyOf, Valid, Writable, Reordered;
    if s.Entries? {
      KeyTreeOf(s.key);
      TreeOfDoc(s.key);
      TreeOfDoc(s.val);
      EntryTreesOf(s.rest);
    }
  }

  /** A canonical tree writes itself as it is. */
  lemma {:induction false} CanonicalTreeOfDoc(t: Item)
    requires Valid(t) && Writable(t) && Canonical(t)
    ensures Tree(DocOf(t)) == t && Distinct(DocOf(t))
    decreases t, 1
  {
    hide Enc, HasDuplicate;
    match t
    case Array(items) => CanonicalTrees(items);
    case Map(entries) =>
      CanonicalEntryTrees(entries);
      IncreasingIsSorted(entries);
    case Tag(_, content) => CanonicalTreeOfDoc(content);
    case _ =>
  }

  lemma {:induction false} CanonicalTrees(s: Items)
    requires ValidItems(s) && WritableItems(s) && CanonicalItems(s)
    ensures Trees(DocsOf(s)) == s && DistinctDocs(DocsOf(s))
    decreases s, 0
  {
    hide Tree, DocOf, Valid, Writable, Canonical, Distinct;
    if s.Items? {
      CanonicalTreeOfDoc(s.head);
      CanonicalTrees(s.tail);
    }
  }

  lemma {:induction false} CanonicalEntryTrees(s: Entries)
    requires ValidEntries(s) && WritableEntries(s) && CanonicalEntries(s)
    ensures EntryTrees(EntriesOf(s)) == s && DistinctEntries(EntriesOf(s))
    decreases s, 0
  {
    hide Tree, DocOf, KeyTree, Valid, Writable, Canonical, Distinct;
    if s.Entries? {
      KeyTreeOf(s.key);
      CanonicalTreeOfDoc(s.key);
      CanonicalTreeOfDoc(s.val);
      CanonicalEntryTrees(s.rest);
    }
  }

  lemma {:induction false} IncreasingIsSorted(s: Entries)
    requires Increasing(s)
    ensures SortEntries(s) == s && !HasDuplicate(EntrySlices(s))
  {
    hide Enc, Less;
    if s.Entries? {
      IncreasingIsSorted(s.rest);
      if s.rest.Entries? && Less(Enc(s.rest.key), Enc(s.key)) {
        LessTransitive(Enc(s.key), Enc(s.rest.key), Enc(s.key));
        LessIrreflexive(Enc(s.key));
      }
      StrictSlices(s);
      StrictHasNoDuplicate(EntrySlices(s));
    }
  }

  lemma {:induction false} StrictHasNoDuplicate(s: seq<W.Slice>)
    requires Strictly(s)
    ensures !HasDuplicate(s)
  {
    if HasDuplicate(s) {
      DuplicateIndices(s);
      var i, j :| 0 <= i < j < |s| && s[i].key == s[j].key;
      assert Strictly(s[i..]) by { StrictlyFrom(s, i); }
      StrictBelow(s[i..], j - i);
      LessIrreflexive(s[i].key);
    }
  }

  lemma {:induction false} StrictlyFrom(s: seq<W.Slice>, i: nat)
    requires Strictly(s) && i <= |s|
    ensures Strictly(s[i..])
    decreases i
  {
    if i > 0 {
      StrictlyFrom(s[1..], i - 1);
      assert s[1..][i - 1..] == s[i..];
    }
  }

  // ---- sorting keeps what reading needs ----

  lemma {:induction false} InsertKeeps(k: Item, v: Item, s: Entries)
    requires TagFree(k) && TagFree(v) && TagFreeEntries(s) && Writable(k) && Writable(v) && WritableEntries(s)
    ensures TagFreeEntries(InsertEntry(k, v, s)) && WritableEntries(InsertEntry(k, v, s))
  {
    hide Enc, Less, TagFree, Writable;
    if s.Entries? && Less(Enc(s.key), Enc(k)) {
      InsertKeeps(k, v, s.rest);
    }
  }

  lemma {:induction false} SortKeeps(s: Entries)
    requires TagFreeEntries(s) && WritableEntries(s)
    ensures TagFreeEntries(SortEntries(s)) && WritableEntries(SortEntries(s))
  {
    hide TagFree, Writable;
    if s.Entries? {
      SortKeeps(s.rest);
      InsertKeeps(s.key, s.val, SortEntries(s.rest));
    }
  }

  lemma {:induction false} TreeKeeps(t: Item, room: int)
    requires Valid(t) && TagFree(t) && Writable(t) && Fits(t, room)
    ensures var u := Tree(DocOf(t)); TagFree(u) && Writable(u) && Fits(u, room)
    decreases t, 1
  {
    hide SortEntries, EntryTrees, EntriesOf, Trees, DocsOf, WellFormed, IsDouble;
    match t
    case Array(items) => TreesKeep(items, room - 1);
    case Map(entries) =>
      EntryTreesKeep(entries, room - 1);
      SortKeeps(EntryTrees(EntriesOf(entries)));
      SortFits(EntryTrees(EntriesOf(entries)), room - 1);
    case _ =>
  }

  lemma {:induction false} TreesKeep(s: Items, room: int)
    requires ValidItems(s) && TagFreeItems(s) && WritableItems(s) && FitItems(s, room)
    ensures var u := Trees(DocsOf(s)); TagFreeItems(u) && WritableItems(u) && FitItems(u, room)
    decreases s, 0
  {
    hide TagFree, Writable, Fits, Tree, DocOf, Valid;
    if s.Items? {
      TreeKeeps(s.head, room);
      TreesKeep(s.tail, room);
    }
  }

  lemma {:induction false} EntryTreesKeep(s: Entries, room: int)
    requires ValidEntries(s) && TagFreeEntries(s) && WritableEntries(s) && FitEntries(s, room)
    ensures var u := EntryTrees(EntriesOf(s)); TagFreeEntries(u) && WritableEntries(u) && FitEntries(u, room)
    decreases s, 0
  {
    hide TagFree, Writable, Fits, Tree, KeyTree, DocOf, Valid;
    if s.Entries? {
      KeyTreeOf(s.key);
      TreeKeeps(s.key, room);
      TreeKeeps(s.val, room);
      EntryTreesKeep(s.rest, room);
    }
  }

  lemma {:induction false} PlainAlready(o: Options, t: Item)
    requires TagFree(t) && Writable(t)
    ensures Plain(t) == t && Readable(o, t)
    decreases t, 1
  {
    match t
    case Array(items) => PlainItemsAlready(o, items);
    case Map(entries) => PlainEntriesAlready(o, entries);
    case _ =>
  }

  lemma {:induction false} PlainItemsAlready(o: Options, s: Items)
    requires TagFreeItems(s) && WritableItems(s)
    ensures PlainItems(s) == s && ReadableItems(o, s)
    decreases s, 0
  {
    if s.Items? {
      PlainAlready(o, s.head);
      PlainItemsAlready(o, s.tail);
    }
  }

  lemma {:induction false} PlainEntriesAlready(o: Options, s: Entries)
    requires TagFreeEntries(s) && WritableEntries(s)
    ensures PlainEntries(s) == s && ReadableEntries(o, s)
    decreases s, 0
  {
    if s.Entries? {
      PlainAlready(o, s.key);
      PlainAlready(o, s.val);
      PlainEntriesAlready(o, s.rest);
    }
  }

  // ---- the theorem ----

  /** Every tag-free tree with distinct keys: its deterministic encoding passes the strict validator, reads back
      as the tree up to map order, and what was read writes the same bytes again. */
  lemma {:induction false} RoundTrip(wo: W.Options, ro: Options, t: Item) returns (b: seq<byte>, u: Item)
    requires Valid(t) && TagFree(t) && Writable(t) && Distinct(DocOf(t))
    requires Fits(t, wo.maxDepth) && Fits(t, ro.maxDepth) && IsStrict(ro)
    ensures Good(DocOf(t)) && W.Run(wo, W.Out([]), Calls(DocOf(t))) == W.Next(W.Out(b))
    ensures SkipItem(ro, b, 0, 0) == Done(|b|, false)
    ensures ReadItem(ro, b, 0, 0) == Read(u, |b|, false) && Reordered(t, u)
    ensures Canonical(u) && b == Enc(u)
    ensures Good(DocOf(u)) && W.Run(wo, W.Out([]), Calls(DocOf(u))) == W.Next(W.Out(b))
  {
    hide SkipItem, ReadItem, Valid, TagFree, Writable, Fits, Enc, DocOf, Tree, Canonical, Clean, Write, Distinct,
         InKeyOrder, Typed, Proper, W.Run;
    var d := DocOf(t);
    u := Tree(d);
    DocOfGood(wo, t);
    TreeKeeps(t, wo.maxDepth);
    TreeKeeps(t, ro.maxDepth);
    TreeOfDoc(t);
    WriteSucceeds(wo, d, 0);
    WriteIsEnc(wo, d, 0);
    b := Enc(u);
    var checking := wo.(validateUtf8 := true);
    DocOfGood(checking, t);
    TreeValid(checking, d);
    TreeCanonical(d);
    assert At(b, 0, Enc(u));
    SkipEnc(ro, b, 0, 0, u);
    PlainAlready(ro, u);
    ReadEnc(ro, b, 0, 0, u);
    CanonicalTreeOfDoc(u);
    DocOfGood(wo, u);
    WriteSucceeds(wo, DocOf(u), 0);
    WriteIsEnc(wo, DocOf(u), 0);
    FromNothing(wo, d, b);
    FromNothing(wo, DocOf(u), b);
  }

  /** What a document writes on the empty output. */
  lemma {:induction false} FromNothing(wo: W.Options, d: Doc, b: seq<byte>)
    requires Proper(d) && Write(wo, d, 0) == Wrote(b)
    ensures W.Run(wo, W.Out([]), Calls(d)) == W.Next(W.Out(b))
  {
    hide W.Run, Write, Calls;
    RunDoc(wo, W.Out([]), d);
    assert [] + b == b;
  }

  /** The same through the classes: one writer, a strict validator, a reader, and a second writer. */
  method Roundabout(wo: W.Options, ro: Options, t: Item) returns (first: seq<byte>, u: Item, second: seq<byte>)
    requires Valid(t) && TagFree(t) && Writable(t) && Distinct(DocOf(t))
    requires Fits(t, wo.maxDepth) && Fits(t, ro.maxDepth) && IsStrict(ro)
    ensures Reordered(t, u) && Canonical(u) && first == Enc(u) && second == first
  {
    hide SkipItem, ReadItem, Valid, TagFree, Writable, Fits, Enc, DocOf, Canonical, Distinct, W.Run, Reordered;
    ghost var b, v := RoundTrip(wo, ro, t);
    first := WriteTree(wo, t, b);
    var validator := new CborReader.Reader(ro, first);
    var st := validator.SkipValue();
    assert st.Ok? && validator.pos == |first|;
    var reader := new CborReader.Reader(ro, first);
    var r := reader.DecodeValue();
    u := r.item;
    second := WriteTree(wo, u, b);
  }

  method WriteTree(wo: W.Options, t: Item, ghost b: seq<byte>) returns (bytes: seq<byte>)
    requires Good(DocOf(t)) && W.Run(wo, W.Out([]), Calls(DocOf(t))) == W.Next(W.Out(b))
    ensures bytes == b
  {
    hide DocOf, W.Run, Good;
    var w := new CborWriter.Writer(wo, []);
    var thrown := Encoding.PerformDoc(w, DocOf(t));
    assert thrown == None && w.State() == W.Out(b);
    bytes := w.out;
  }
}
