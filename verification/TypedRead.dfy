/** Decoding what typed values were written as: every loop of the decoder over an encoding. */
module TypedRead {
  import opened Bytes
  import opened Head
  import opened Utf8
  import opened Item
  import opened SkipSpec
  import opened ReadSpec
  import opened BuildSpec
  import opened BuildSteps
  import opened Strict
  import opened WriterTrees
  import opened Typed
  import opened TypedItems
  import EndToEnd

  // ---- trees in an input ----

  /** A tree the reader's options accept, at `pos` inside `depth` containers. */
  ghost predicate Lies(o: Options, input: seq<byte>, pos: nat, depth: nat, t: Item) {
    Valid(t) && Fits(t, o.maxDepth - depth) && (o.requireDeterministic ==> Canonical(t)) && At(input, pos, Enc(t))
  }

  ghost predicate ItemsLie(o: Options, input: seq<byte>, pos: nat, depth: nat, s: Items) {
    ValidItems(s) && FitItems(s, o.maxDepth - depth) && (o.requireDeterministic ==> CanonicalItems(s))
      && At(input, pos, EncItems(s))
  }

  /** Entries at `pos`, behind a key `prev`. */
  ghost predicate EntriesLie(o: Options, input: seq<byte>, pos: nat, depth: nat, s: Entries, ext: Option<Extent>,
                             prev: Option<seq<byte>>) {
    && ValidEntries(s) && FitEntries(s, o.maxDepth - depth) && At(input, pos, EncEntries(s))
      && EndToEnd.Holds(input, ext, prev)
    && (o.requireDeterministic ==> CanonicalEntries(s) && InOrder(prev, s))
  }

  lemma ArrayLies(o: Options, input: seq<byte>, pos: nat, depth: nat, s: Items)
    requires Lies(o, input, pos, depth, Array(s))
    ensures var next := pos + |ShortHead(ARRAY, s.Length())|;
            && pos < next <= |input| && OpenContainer(o, input, pos, depth, ARRAY) == Opened(next, Some(s.Length()))
            && ItemsLie(o, input, next, depth + 1, s) && pos + |Enc(Array(s))| == next + |EncItems(s)|
  {
    hide OpenContainer, ShortHead, ValidItems, FitItems, CanonicalItems;
    ContainerAhead(o, input, pos, depth, ARRAY, s.Length(), EncItems(s));
  }

  lemma MapLies(o: Options, input: seq<byte>, pos: nat, depth: nat, s: Entries)
    requires Lies(o, input, pos, depth, Map(s))
    ensures var next := pos + |ShortHead(MAP, s.Length())|;
            && pos < next <= |input| && OpenContainer(o, input, pos, depth, MAP) == Opened(next, Some(s.Length()))
            && EntriesLie(o, input, next, depth + 1, s, None, None) && pos + |Enc(Map(s))| == next + |EncEntries(s)|
  {
    hide OpenContainer, ShortHead, ValidEntries, FitEntries, CanonicalEntries, Increasing;
    ContainerAhead(o, input, pos, depth, MAP, s.Length(), EncEntries(s));
  }

  lemma ItemLies(o: Options, input: seq<byte>, pos: nat, depth: nat, s: Items)
    requires ItemsLie(o, input, pos, depth, s) && s.Items?
    ensures var p := pos + |Enc(s.head)|;
            && pos < p <= |input| && CursorNext(input, pos, Some(s.Length())) == CursorItem(Some(s.tail.Length()))
            && Lies(o, input, pos, depth, s.head) && ItemsLie(o, input, p, depth, s.tail)
            && pos + |EncItems(s)| == p + |EncItems(s.tail)|
  {
    hide Enc, Valid, Fits, Canonical;
    NotBreakAt(input, pos, s.head, EncItems(s.tail));
  }

  lemma EntryLies(o: Options, input: seq<byte>, pos: nat, depth: nat, s: Entries, ext: Option<Extent>,
                  prev: Option<seq<byte>>)
    requires EntriesLie(o, input, pos, depth, s, ext, prev) && s.Entries?
    ensures var p := pos + |Enc(s.key)|;
            var q := p + |Enc(s.val)|;
            && pos < p < q <= |input| && Lies(o, input, pos, depth, s.key) && Lies(o, input, p, depth, s.val)
            && NextEntry(o, input, pos, depth, Some(s.Length()), ext)
              == EntryAt(Some(s.rest.Length()), NextExtent(o, ext, pos, p))
            && ExtentOk(ext, |input|) && ExtentOk(NextExtent(o, ext, pos, p), |input|)
            && SkipItem(o, input, p, depth) == Done(q, false)
            && EntriesLie(o, input, q, depth, s.rest, NextExtent(o, ext, pos, p), NextKey(o, prev, s.key))
            && pos + |EncEntries(s)| == q + |EncEntries(s.rest)|
  {
    hide Enc, Valid, Fits, Canonical, NextEntry, SkipItem, InOrder, NextExtent, NextKey;
    EntryAhead(o, input, pos, depth, s, ext, prev);
  }

  lemma NoneLie(o: Options, input: seq<byte>, pos: nat, depth: nat, s: Entries, ext: Option<Extent>,
                prev: Option<seq<byte>>)
    requires EntriesLie(o, input, pos, depth, s, ext, prev) && s.NoEntries?
    ensures pos <= |input| && ExtentOk(ext, |input|) && NextEntry(o, input, pos, depth, Some(0), ext) == EntryEnd(pos)
    ensures EncEntries(s) == []
  {
    NoEntryAhead(o, input, pos, depth, ext);
  }

  // ---- values ----

  function Img(t: Ty, v: Value): Item {
    Tree(DocOf(t, v))
  }

  /** Wherever the value's encoding lies in the input, decoding it gives back what is to be expected. */
  ghost predicate Decodes(c: Config, input: seq<byte>, t: Ty, v: Value) {
    forall seed: Value, pos: nat, depth: nat :: Lies(c.opts, input, pos, depth, Img(t, v))
      ==> DecodesAt(c, input, t, v, seed, pos, depth)
  }

  ghost predicate DecodesAt(c: Config, input: seq<byte>, t: Ty, v: Value, seed: Value, pos: nat, depth: nat) {
    pos <= |input| && Decode(c, t, seed, input, pos, depth) == Res(None, Back(t, v, seed), pos + |Enc(Img(t, v))|, [])
  }

  lemma UseDecodes(c: Config, input: seq<byte>, t: Ty, v: Value, seed: Value, pos: nat, depth: nat)
    requires Decodes(c, input, t, v) && Lies(c.opts, input, pos, depth, Img(t, v))
    ensures pos <= |input| && Decode(c, t, seed, input, pos, depth)
            == Res(None, Back(t, v, seed), pos + |Enc(Img(t, v))|, [])
  {
    hide Decode, Back, Lies;
    assert DecodesAt(c, input, t, v, seed, pos, depth);
  }

  // ---- sequences ----

  lemma {:induction false} SeqLength(elem: Ty, s: seq<Value>)
    ensures Trees(SeqDocs(elem, s)).Length() == |s|
    decreases |s|
  {
    hide DocOf, Tree;
    if s != [] {
      SeqLength(elem, s[1..]);
    }
  }

  /** decode_sequence. */
  lemma {:induction false} SeqBack(c: Config, elem: Ty, done: seq<Value>, s: seq<Value>, input: seq<byte>, pos: nat,
                                   depth: nat)
    requires forall i :: 0 <= i < |s| ==> Decodes(c, input, elem, s[i])
    requires ItemsLie(c.opts, input, pos, depth, Trees(SeqDocs(elem, s)))
    ensures pos <= |input|
    ensures DecodeElems(c, elem, done, input, pos, depth, Some(|s|))
         == Res(None, VSeq(done + BackAll(elem, s)), pos + |EncItems(Trees(SeqDocs(elem, s)))|, [])
    decreases |s|
  {
    hide DecodeElems, Decode, Back, Decodes, ItemsLie, Lies, Enc, DocOf, Tree, CursorNext, Also, PushAll;
    var u := Trees(SeqDocs(elem, s));
    SeqLength(elem, s);
    if s == [] {
      EndOfItems(c.opts, input, pos, depth, u);
      ElemsStep(c, elem, done, input, pos, depth, Some(0));
      assert done + BackAll(elem, s) == done;
    } else {
      ItemLies(c.opts, input, pos, depth, u);
      UseDecodes(c, input, elem, s[0], Initial(elem), pos, depth);
      var x := Back(elem, s[0], Initial(elem));
      var p := pos + |Enc(u.head)|;
      ElemsStep(c, elem, done, input, pos, depth, Some(|s|));
      SeqBack(c, elem, done + [x], s[1..], input, p, depth);
      NoErrs(Index(|done|), DecodeElems(c, elem, done + [x], input, p, depth, Some(|s| - 1)));
      assert done + [x] + BackAll(elem, s[1..]) == done + BackAll(elem, s);
    }
  }

  lemma EndOfItems(o: Options, input: seq<byte>, pos: nat, depth: nat, s: Items)
    requires ItemsLie(o, input, pos, depth, s) && s.NoItems?
    ensures pos <= |input| && CursorNext(input, pos, Some(0)) == CursorEnd(pos) && EncItems(s) == []
  {
  }

  // ---- tuples and arrays of a fixed size ----

  lemma {:induction false} TupleLength(elems: seq<Ty>, s: seq<Value>)
    requires |elems| == |s|
    ensures Trees(TupleDocs(elems, s)).Length() == |s|
    decreases |s|
  {
    hide DocOf, Tree;
    if s != [] {
      TupleLength(elems[1..], s[1..]);
    }
  }

  /** The places of a tuple when the first `i` elements have been decoded. */
  function Places(elems: seq<Ty>, s: seq<Value>, seeds: seq<Value>, i: nat): (r: seq<Value>)
    requires |s| == |elems| == |seeds| && i <= |s|
    ensures |r| == |s|
  {
    BackItems(elems, s, seeds)[..i] + seeds[i..]
  }

  lemma NextPlace(elems: seq<Ty>, s: seq<Value>, seeds: seq<Value>, i: nat)
    requires |s| == |elems| == |seeds| && i < |s|
    ensures Places(elems, s, seeds, i)[i] == seeds[i]
    ensures Places(elems, s, seeds, i)[i := Back(elems[i], s[i], seeds[i])] == Places(elems, s, seeds, i + 1)
  {
    hide Back;
    var a, b := Places(elems, s, seeds, i), Places(elems, s, seeds, i + 1);
    var x := Back(elems[i], s[i], seeds[i]);
    forall k | 0 <= k < |s|
      ensures a[i := x][k] == b[k]
    {
    }
  }

  /** decode_tuple and decode_fixed_array. */
  lemma {:induction false} TupleBack(c: Config, elems: seq<Ty>, off: nat, s: seq<Value>, seeds: seq<Value>, i: nat,
                                     input: seq<byte>, pos: nat, depth: nat)
    requires |s| == |elems| == |seeds| && i <= |s| && forall k :: 0 <= k < |s| ==> Decodes(c, input, elems[k], s[k])
    requires ItemsLie(c.opts, input, pos, depth, Trees(TupleDocs(elems[i..], s[i..])))
    ensures pos <= |input|
    ensures DecodeItems(c, elems, off, Places(elems, s, seeds, i), i, input, pos, depth, Some(|s| - i))
         == Res(None, VSeq(BackItems(elems, s, seeds)), pos + |EncItems(Trees(TupleDocs(elems[i..], s[i..])))|, [])
    decreases |s| - i
  {
    hide DecodeItems, Decode, Back, Decodes, ItemsLie, Lies, Enc, DocOf, Tree, CursorNext, Also, PushAll, Places,
         BackItems;
    var u := Trees(TupleDocs(elems[i..], s[i..]));
    TupleLength(elems[i..], s[i..]);
    if i == |s| {
      EndOfItems(c.opts, input, pos, depth, u);
      ItemsDone(c, elems, off, Places(elems, s, seeds, i), input, pos, depth, Some(0));
      AllPlaces(elems, s, seeds);
    } else {
      assert elems[i..][1..] == elems[i + 1..] && s[i..][1..] == s[i + 1..];
      ItemLies(c.opts, input, pos, depth, u);
      NextPlace(elems, s, seeds, i);
      UseDecodes(c, input, elems[i], s[i], seeds[i], pos, depth);
      var p := pos + |Enc(u.head)|;
      ItemsStep(c, elems, off, Places(elems, s, seeds, i), i, input, pos, depth, Some(|s| - i));
      TupleBack(c, elems, off, s, seeds, i + 1, input, p, depth);
      NoErrs(Index(i), DecodeItems(c, elems, off, Places(elems, s, seeds, i + 1), i + 1, input, p, depth,
                                   Some(|s| - i - 1)));
    }
  }

  lemma AllPlaces(elems: seq<Ty>, s: seq<Value>, seeds: seq<Value>)
    requires |s| == |elems| == |seeds|
    ensures Places(elems, s, seeds, |s|) == BackItems(elems, s, seeds)
    ensures Places(elems, s, seeds, 0) == seeds
  {
    hide Back;
  }

  // ---- maps ----

  lemma {:induction false} PairsLength(keys: KeyType, elem: Ty, ps: seq<Pair>)
    ensures EntryTrees(PairDocs(keys, elem, ps)).Length() == |ps|
    decreases |ps|
  {
    hide DocOf, Tree;
    if ps != [] {
      PairsLength(keys, elem, ps[1..]);
    }
  }

  /** The first entry of a map, and the others. */
  lemma PairsFrom(keys: KeyType, elem: Ty, ps: seq<Pair>)
    ensures var u := EntryTrees(PairDocs(keys, elem, ps));
            && u.Length() == |ps|
            && (if ps == [] then u.NoEntries?
                else u.rest.Length() == |ps| - 1
                     && u == Entries(LeafItem(MapKeyCall(keys, ps[0].key)), Img(elem, ps[0].val),
                                     EntryTrees(PairDocs(keys, elem, ps[1..]))))
  {
    hide DocOf, Tree, LeafItem, MapKeyCall;
    PairsLength(keys, elem, ps);
  }

  /** The key of an entry, whatever the type of keys. */
  lemma MapKeyAhead(o: Options, keys: KeyType, k: MapKey, input: seq<byte>, pos: nat)
    requires (keys.IntKeys? ==> SoundRange(keys.range)) && FitKey(keys, k)
    requires At(input, pos, Enc(LeafItem(MapKeyCall(keys, k))))
    ensures MapKeyAt(o, keys, input, pos) == Got(k, pos + |Enc(LeafItem(MapKeyCall(keys, k)))|)
    ensures LeafItem(MapKeyCall(keys, k)) == KeyItem(k)
  {
    hide Enc, ExpectUInt, ExpectSInt, ExpectText, PeekKind, WellFormed;
    match k
    case NameKey(s) => TextAhead(o, input, pos, s);
    case NumberKey(i) => IntAhead(o, input, pos, i);
  }

  lemma {:induction false} NoEarlier(done: seq<Pair>, key: MapKey)
    requires forall i :: 0 <= i < |done| ==> done[i].key != key
    ensures FindEntry(done, key).None?
  {
  }

  predicate DistinctPairs(ps: seq<Pair>) {
    forall i, j :: 0 <= i < j < |ps| ==> ps[i].key != ps[j].key
  }

  /** The loop of decode_map in front of `n` entries. */
  ghost function MapLoop(c: Config, keys: KeyType, unique: bool, elem: Ty, done: seq<Pair>, n: nat, input: seq<byte>,
                         pos: nat, depth: nat, ext: Option<Extent>): Res
    requires pos <= |input| && ExtentOk(ext, |input|)
  {
    DecodeEntries(c, keys, unique, elem, done, input, pos, depth, Some(n), ext)
  }

  lemma MapLoopEnds(c: Config, keys: KeyType, unique: bool, elem: Ty, done: seq<Pair>, input: seq<byte>, pos: nat,
                    depth: nat, ext: Option<Extent>)
    requires pos <= |input| && ExtentOk(ext, |input|)
             && NextEntry(c.opts, input, pos, depth, Some(0), ext) == EntryEnd(pos)
    ensures MapLoop(c, keys, unique, elem, done, 0, input, pos, depth, ext) == Res(None, VMap(done), pos, [])
  {
    hide DecodeEntries, NextEntry;
    EntriesStep(c, keys, unique, elem, done, input, pos, depth, Some(0), ext);
  }

  lemma NoPairs(elem: Ty, done: seq<Pair>)
    ensures done + BackPairs(elem, []) == done
  {
  }

  /** decode_map. */
  lemma {:induction false} MapBack(c: Config, keys: KeyType, unique: bool, elem: Ty, done: seq<Pair>, ps: seq<Pair>,
                                   input: seq<byte>, pos: nat, depth: nat, ext: Option<Extent>, prev: Option<seq<byte>>)
    requires (keys.IntKeys? ==> SoundRange(keys.range)) && DistinctPairs(done + ps)
    requires forall i :: 0 <= i < |ps| ==> FitKey(keys, ps[i].key) && Decodes(c, input, elem, ps[i].val)
    requires EntriesLie(c.opts, input, pos, depth, EntryTrees(PairDocs(keys, elem, ps)), ext, prev)
    ensures pos <= |input| && ExtentOk(ext, |input|)
    ensures MapLoop(c, keys, unique, elem, done, |ps|, input, pos, depth, ext)
         == Res(None, VMap(done + BackPairs(elem, ps)), pos + |EncEntries(EntryTrees(PairDocs(keys, elem, ps)))|, [])
    decreases |ps|
  {
    hide *;
    var u := EntryTrees(PairDocs(keys, elem, ps));
    PairsFrom(keys, elem, ps);
    if ps == [] {
      NoneLie(c.opts, input, pos, depth, u, ext, prev);
      MapLoopEnds(c, keys, unique, elem, done, input, pos, depth, ext);
      NoPairs(elem, done);
    } else {
      EntryLies(c.opts, input, pos, depth, u, ext, prev);
      MapStep(c, keys, unique, elem, done, ps, input, pos, depth, ext, prev);
      var p := pos + |Enc(u.key)|;
      var x := Pair(ps[0].key, Back(elem, ps[0].val, Initial(elem)));
      StillDistinct(done, ps, x.val);
      MapBack(c, keys, unique, elem, done + [x], ps[1..], input, p + |Enc(u.val)|, depth,
              NextExtent(c.opts, ext, pos, p),
              NextKey(c.opts, prev, u.key));
      BackPairsStep(elem, done, ps);
    }
  }

  /** One entry of a map. */
  lemma MapStep(c: Config, keys: KeyType, unique: bool, elem: Ty, done: seq<Pair>, ps: seq<Pair>, input: seq<byte>,
                pos: nat, depth: nat, ext: Option<Extent>, prev: Option<seq<byte>>)
    requires (keys.IntKeys? ==> SoundRange(keys.range)) && ps != [] && DistinctPairs(done + ps)
    requires FitKey(keys, ps[0].key) && Decodes(c, input, elem, ps[0].val)
    requires EntriesLie(c.opts, input, pos, depth, EntryTrees(PairDocs(keys, elem, ps)), ext, prev)
    ensures var u := EntryTrees(PairDocs(keys, elem, ps));
            var p := pos + |Enc(u.key)|;
            var q := p + |Enc(u.val)|;
            var next := done + [Pair(ps[0].key, Back(elem, ps[0].val, Initial(elem)))];
            && pos < p < q <= |input| && ExtentOk(ext, |input|) && ExtentOk(NextExtent(c.opts, ext, pos, p), |input|)
            && MapLoop(c, keys, unique, elem, done, |ps|, input, pos, depth, ext)
               == MapLoop(c, keys, unique, elem, next, |ps| - 1, input, q, depth, NextExtent(c.opts, ext, pos, p))
  {
    hide *;
    var u := EntryTrees(PairDocs(keys, elem, ps));
    PairsFrom(keys, elem, ps);
    EntryLies(c.opts, input, pos, depth, u, ext, prev);
    var p := pos + |Enc(u.key)|;
    KeyLies(c.opts, input, pos, depth, u.key);
    KeyIsNew(unique, done, ps);
    PairKeyBack(c, keys, unique, elem, done, ps[0].key, |ps|, input, pos, depth, ext, NextExtent(c.opts, ext, pos, p));
    PairBack(c, keys, unique, elem, done, ps[0], |ps| - 1, input, p, depth, NextExtent(c.opts, ext, pos, p));
  }

  /** The key of an entry, when it is new. */
  lemma PairKeyBack(c: Config, keys: KeyType, unique: bool, elem: Ty, done: seq<Pair>, k: MapKey, n: nat,
                    input: seq<byte>, pos: nat, depth: nat, ext: Option<Extent>, ext': Option<Extent>)
    requires n > 0 && pos <= |input| && ExtentOk(ext, |input|) && ExtentOk(ext', |input|)
    requires NextEntry(c.opts, input, pos, depth, Some(n), ext) == EntryAt(Some(n - 1), ext')
             && Earlier(unique, done, k) == None
    requires (keys.IntKeys? ==> SoundRange(keys.range)) && FitKey(keys, k)
             && At(input, pos, Enc(LeafItem(MapKeyCall(keys, k))))
    ensures var p := pos + |Enc(LeafItem(MapKeyCall(keys, k)))|;
            p <= |input| && MapLoop(c, keys, unique, elem, done, n, input, pos, depth, ext)
                            == DecodeEntry(c, keys, unique, elem, done, input, p, depth, Some(n - 1), ext', k, None)
  {
    hide DecodeEntries, Enc, NextEntry, MapKeyAt, DecodeEntry, LeafItem, MapKeyCall, SoundRange, FitKey, StepOf,
         KeyItem, Earlier, SkipEntry;
    MapKeyAhead(c.opts, keys, k, input, pos);
    MapKeyStep(c, keys, unique, elem, done, input, pos, depth, Some(n), ext);
  }

  /** The value of an entry whose key is new. */
  lemma PairBack(c: Config, keys: KeyType, unique: bool, elem: Ty, done: seq<Pair>, x: Pair, n: nat, input: seq<byte>,
                 p: nat, depth: nat, ext: Option<Extent>)
    requires Decodes(c, input, elem, x.val) && Lies(c.opts, input, p, depth, Img(elem, x.val)) && ExtentOk(ext, |input|)
    ensures var q := p + |Enc(Img(elem, x.val))|;
            && p <= |input| && q <= |input|
            && DecodeEntry(c, keys, unique, elem, done, input, p, depth, Some(n), ext, x.key, None)
               == MapLoop(c, keys, unique, elem, done + [Pair(x.key, Back(elem, x.val, Initial(elem)))], n, input, q,
                          depth, ext)
  {
    hide DecodeEntries, Decode, Back, Decodes, Lies, Enc, DecodeEntry, StepOf, Also, PushAll, Img, Initial;
    var v := Img(elem, x.val);
    InBounds(c.opts, input, p, depth, v);
    UseDecodes(c, input, elem, x.val, Initial(elem), p, depth);
    EntryIs(c, keys, unique, elem, done, input, p, depth, Some(n), ext, x.key, None);
    var next := done + [Pair(x.key, Back(elem, x.val, Initial(elem)))];
    NoErrs(StepOf(x.key), MapLoop(c, keys, unique, elem, next, n, input, p + |Enc(v)|, depth, ext));
  }

  lemma InBounds(o: Options, input: seq<byte>, pos: nat, depth: nat, t: Item)
    requires Lies(o, input, pos, depth, t)
    ensures pos + |Enc(t)| <= |input|
  {
  }

  lemma KeyLies(o: Options, input: seq<byte>, pos: nat, depth: nat, t: Item)
    requires Lies(o, input, pos, depth, t)
    ensures At(input, pos, Enc(t))
  {
  }

  lemma KeyIsNew(unique: bool, done: seq<Pair>, ps: seq<Pair>)
    requires ps != [] && DistinctPairs(done + ps)
    ensures Earlier(unique, done, ps[0].key) == None
  {
    var all := done + ps;
    forall i | 0 <= i < |done|
      ensures done[i].key != ps[0].key
    {
      assert all[i].key != all[|done|].key;
    }
    NoEarlier(done, ps[0].key);
  }

  lemma StillDistinct(done: seq<Pair>, ps: seq<Pair>, x: Value)
    requires ps != [] && DistinctPairs(done + ps)
    ensures DistinctPairs(done + [Pair(ps[0].key, x)] + ps[1..])
  {
    var a, b := done + ps, done + [Pair(ps[0].key, x)] + ps[1..];
    forall i, j | 0 <= i < j < |b|
      ensures b[i].key != b[j].key
    {
      assert a[i].key != a[j].key;
    }
  }

  lemma BackPairsStep(elem: Ty, done: seq<Pair>, ps: seq<Pair>)
    requires ps != []
    ensures done + [Pair(ps[0].key, Back(elem, ps[0].val, Initial(elem)))] + BackPairs(elem, ps[1..])
            == done + BackPairs(elem, ps)
  {
    hide Back;
    var x := BackPairs(elem, ps);
    assert x[0] == Pair(ps[0].key, Back(elem, ps[0].val, Initial(elem)));
    assert x == [x[0]] + BackPairs(elem, ps[1..]);
  }
}
