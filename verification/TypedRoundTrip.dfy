/** Typed values through the writer and the typed decoder: exactly what comes back, and when it is the value itself. */
module TypedRoundTrip {
  import opened Bytes
  import opened Head
  import opened Item
  import opened Utf8
  import ReadSpec
  import opened BuildSpec
  import opened Collect
  import W = WriterSpec
  import opened WriterRuns
  import opened WriterTrees
  import opened Typed
  import opened TypedRead
  import opened TypedCases
  import opened TypedWrite
  import EndToEnd

  // ---- every value decodes ----

  /** Wherever the encoding of a value lies, decoding it gives what `Back` says. */
  lemma {:induction false} TypedDecodes(c: Config, t: Ty, v: Value, input: seq<byte>)
    requires Sound(t) && Fit(t, v) && Decodable(t, v)
    ensures Decodes(c, input, t, v)
    decreases v, 3
  {
    hide Decodes, Lies, DecodesAt, Img, SoundRange, FitKey;
    match (t, v)
    case (TOpt(elem), VSome(w)) =>
      TypedDecodes(c, elem, w, input);
      forall seed: Value, pos: nat, depth: nat | Lies(c.opts, input, pos, depth, Img(t, v))
        ensures DecodesAt(c, input, t, v, seed, pos, depth)
      {
        OptBack(c, elem, w, seed, input, pos, depth);
      }
      Everywhere(c, input, t, v);
    case (TSeq(elem), VSeq(s)) => SeqDecodes(c, elem, s, input);
    case (TTuple(elems), VSeq(s)) => TupleDecodes(c, elems, s, input);
    case (TMap(keys, unique, elem), VMap(ps)) => MapDecodes(c, keys, unique, elem, ps, input);
    case (TWrap(ident, elem), VStruct(ms)) =>
      TypedDecodes(c, elem, ms[0], input);
      forall seed: Value, pos: nat, depth: nat | Lies(c.opts, input, pos, depth, Img(t, v))
        ensures DecodesAt(c, input, t, v, seed, pos, depth)
      {
        WrapBack(c, ident, elem, ms, seed, input, pos, depth);
      }
      Everywhere(c, input, t, v);
    case (TStruct(fields, unknown), VStruct(ms)) => StructDecodes(c, fields, unknown, ms, input);
    case (TVariant(tag, alts), VAlt(i, w)) => VariantValueDecodes(c, tag, alts, i, w, input);
    case _ => LeafDecodes(c, t, v, input);
  }

  lemma LeafDecodes(c: Config, t: Ty, v: Value, input: seq<byte>)
    requires Sound(t) && Fit(t, v) && (t.TBool? || t.TInt? || t.TText? || t.TBytes? || t.TEnum? || t.TNamed?
                                       || (t.TOpt? && v.VNone?))
    ensures Decodes(c, input, t, v)
  {
    hide Decodes, Lies, DecodesAt, Img, Sound, Fit;
    forall seed: Value, pos: nat, depth: nat | Lies(c.opts, input, pos, depth, Img(t, v))
      ensures DecodesAt(c, input, t, v, seed, pos, depth)
    {
      LeafBack(c, t, v, seed, input, pos, depth);
    }
    Everywhere(c, input, t, v);
  }

  lemma Everywhere(c: Config, input: seq<byte>, t: Ty, v: Value)
    requires forall seed: Value, pos: nat, depth: nat ::
               Lies(c.opts, input, pos, depth, Img(t, v)) ==> DecodesAt(c, input, t, v, seed, pos, depth)
    ensures Decodes(c, input, t, v)
  {
    hide Lies, DecodesAt, Img;
  }

  lemma {:induction false} SeqDecodes(c: Config, elem: Ty, s: seq<Value>, input: seq<byte>)
    requires Sound(elem) && forall i :: 0 <= i < |s| ==> Fit(elem, s[i]) && Decodable(elem, s[i])
    ensures Decodes(c, input, TSeq(elem), VSeq(s))
    decreases s, 0
  {
    hide Decodes, Lies, DecodesAt, Img, Sound, Fit, Decodable;
    forall i | 0 <= i < |s|
      ensures Decodes(c, input, elem, s[i])
    {
      TypedDecodes(c, elem, s[i], input);
    }
    forall seed: Value, pos: nat, depth: nat | Lies(c.opts, input, pos, depth, Img(TSeq(elem), VSeq(s)))
      ensures DecodesAt(c, input, TSeq(elem), VSeq(s), seed, pos, depth)
    {
      SeqCase(c, elem, s, seed, input, pos, depth);
    }
    Everywhere(c, input, TSeq(elem), VSeq(s));
  }

  lemma {:induction false} TupleDecodes(c: Config, elems: seq<Ty>, s: seq<Value>, input: seq<byte>)
    requires |elems| == |s|
             && forall i :: 0 <= i < |s| ==> Sound(elems[i]) && Fit(elems[i], s[i]) && Decodable(elems[i], s[i])
    ensures Decodes(c, input, TTuple(elems), VSeq(s))
    decreases s, 0
  {
    hide Decodes, Lies, DecodesAt, Img, Sound, Fit, Decodable;
    forall i | 0 <= i < |s|
      ensures Decodes(c, input, elems[i], s[i])
    {
      TypedDecodes(c, elems[i], s[i], input);
    }
    forall seed: Value, pos: nat, depth: nat | Lies(c.opts, input, pos, depth, Img(TTuple(elems), VSeq(s)))
      ensures DecodesAt(c, input, TTuple(elems), VSeq(s), seed, pos, depth)
    {
      TupleCase(c, elems, s, seed, input, pos, depth);
    }
    Everywhere(c, input, TTuple(elems), VSeq(s));
  }

  lemma {:induction false} MapDecodes(c: Config, keys: KeyType, unique: bool, elem: Ty, ps: seq<Pair>, input: seq<byte>)
    requires (keys.IntKeys? ==> SoundRange(keys.range)) && Sound(elem) && DistinctPairs(ps)
    requires forall i :: 0 <= i < |ps| ==> FitPair(keys, elem, ps, i) && PairDecodable(elem, ps, i)
    ensures Decodes(c, input, TMap(keys, unique, elem), VMap(ps))
    decreases ps, 0
  {
    hide Decodes, Lies, DecodesAt, Img, Sound, Fit, Decodable, SoundRange, FitKey, DistinctPairs;
    forall i | 0 <= i < |ps|
      ensures FitKey(keys, ps[i].key) && Decodes(c, input, elem, ps[i].val)
    {
      assert FitPair(keys, elem, ps, i) && PairDecodable(elem, ps, i);
      assert ps decreases to ps[i];
      TypedDecodes(c, elem, ps[i].val, input);
    }
    forall seed: Value, pos: nat, depth: nat | Lies(c.opts, input, pos, depth, Img(TMap(keys, unique, elem), VMap(ps)))
      ensures DecodesAt(c, input, TMap(keys, unique, elem), VMap(ps), seed, pos, depth)
    {
      MapCase(c, keys, unique, elem, ps, seed, input, pos, depth);
    }
    Everywhere(c, input, TMap(keys, unique, elem), VMap(ps));
  }

  /** The members of a struct decode, where they are written and read at all. */
  lemma {:induction false} FieldsDecode(c: Config, fields: seq<Field>, ms: seq<Value>, input: seq<byte>)
    requires SoundStruct(fields) && FitMembers(fields, ms) && MembersDecodable(fields, ms)
    ensures forall i ::
              0 <= i < |fields| && IsWritten(fields[i], ms[i]) && !fields[i].skip ==>
              Decodes(c, input, fields[i].ty, ms[i])
    decreases ms, 0
  {
    hide Decodes, Sound, Fit, Decodable, SoundKeys, IsWritten;
    forall i | 0 <= i < |fields| && IsWritten(fields[i], ms[i]) && !fields[i].skip
      ensures Decodes(c, input, fields[i].ty, ms[i])
    {
      TypedDecodes(c, fields[i].ty, ms[i], input);
    }
  }

  lemma {:induction false} StructDecodes(c: Config, fields: seq<Field>, unknown: Unknown, ms: seq<Value>,
                                         input: seq<byte>)
    requires SoundStruct(fields) && FitMembers(fields, ms) && MembersDecodable(fields, ms)
    ensures Decodes(c, input, TStruct(fields, unknown), VStruct(ms))
    decreases ms, 1
  {
    hide Decodes, Lies, DecodesAt, Img, Sound, Fit, SoundKeys, IsWritten, MembersDecodable, FineMembers, Members;
    FieldsDecode(c, fields, ms, input);
    FieldsFine(W.Options(0, true), fields, ms);
    FineIsGood(W.Options(0, true), Members(fields, ms));
    forall seed: Value, pos: nat, depth: nat | Lies(c.opts, input, pos, depth,
                                                    Img(TStruct(fields, unknown), VStruct(ms)))
      ensures DecodesAt(c, input, TStruct(fields, unknown), VStruct(ms), seed, pos, depth)
    {
      StructCase(c, fields, unknown, ms, seed, input, pos, depth);
    }
    Everywhere(c, input, TStruct(fields, unknown), VStruct(ms));
  }

  lemma {:induction false} VariantValueDecodes(c: Config, tag: seq<byte>, alts: seq<(seq<byte>, Ty)>, i: nat, w: Value,
                                               input: seq<byte>)
    requires tag != [] && SoundName(tag) && i < |alts| && SoundAlt(tag, alts, i) && Fit(alts[i].1, w)
    requires Decodable(TVariant(tag, alts), VAlt(i, w))
    ensures Decodes(c, input, TVariant(tag, alts), VAlt(i, w))
    decreases w, 4
  {
    hide Decodes, Lies, DecodesAt, Img, SoundKeys, IsWritten, MembersDecodable, FineMembers, Members, Fine, WellFormed,
         DocOf;
    var t := alts[i].1;
    if t.TStruct? {
      StructSound(t, w);
      FieldsDecode(c, t.fields, w.members, input);
      FieldsFine(W.Options(0, true), t.fields, w.members);
    } else {
      TypedDecodes(c, t, w, input);
      TypedFine(W.Options(0, true), t, w);
    }
    forall seed: Value, pos: nat, depth: nat | Lies(c.opts, input, pos, depth, Img(TVariant(tag, alts), VAlt(i, w)))
      ensures DecodesAt(c, input, TVariant(tag, alts), VAlt(i, w), seed, pos, depth)
    {
      if t.TStruct? {
        TaggedCase(c, tag, alts, i, w.members, seed, input, pos, depth);
      } else {
        BoxCase(c, tag, alts, i, w, seed, input, pos, depth);
      }
    }
    Everywhere(c, input, TVariant(tag, alts), VAlt(i, w));
  }

  // ---- what comes back is the value ----

  lemma {:induction false} InsertSame(p: Pair, q: Pair, s: seq<Pair>, t: seq<Pair>)
    requires |s| == |t| && p.key == q.key && forall i :: 0 <= i < |s| ==> s[i].key == t[i].key
    ensures InsertPair(p, s) == InsertPair(q, t) <==> p == q && s == t
    ensures |InsertPair(p, s)| == |InsertPair(q, t)|
            && forall i :: 0 <= i < |InsertPair(p, s)| ==> InsertPair(p, s)[i].key == InsertPair(q, t)[i].key
    decreases |s|
  {
    hide Less, Enc, KeyItem;
    if s != [] {
      InsertSame(p, q, s[1..], t[1..]);
      assert s == [s[0]] + s[1..] && t == [t[0]] + t[1..];
      var a, b := [s[0]] + InsertPair(p, s[1..]), [t[0]] + InsertPair(q, t[1..]);
      assert a == b <==> a[0] == b[0] && a[1..] == b[1..];
    }
    assert [p] + s == [q] + t <==> ([p] + s)[0] == ([q] + t)[0] && ([p] + s)[1..] == ([q] + t)[1..];
  }

  /** Entries with the same keys are the same in order exactly when they are the same as they came. */
  lemma {:induction false} SortSame(s: seq<Pair>, t: seq<Pair>)
    requires |s| == |t| && forall i :: 0 <= i < |s| ==> s[i].key == t[i].key
    ensures SortPairs(s) == SortPairs(t) <==> s == t
    ensures |SortPairs(s)| == |SortPairs(t)|
            && forall i :: 0 <= i < |SortPairs(s)| ==> SortPairs(s)[i].key == SortPairs(t)[i].key
    decreases |s|
  {
    hide InsertPair;
    if s != [] {
      SortSame(s[1..], t[1..]);
      InsertSame(s[0], t[0], SortPairs(s[1..]), SortPairs(t[1..]));
      assert s == [s[0]] + s[1..] && t == [t[0]] + t[1..];
    }
  }

  /** What comes back is the value, up to the order of entries in maps, exactly when no optional holds a null and every
      member that is not written is filled in with what it was. */
  lemma {:induction false} BackExact(t: Ty, v: Value, seed: Value)
    requires Fit(t, v)
    ensures Back(t, v, seed) == Arranged(v) <==> Returns(t, v, seed)
    decreases v, 1
  {
    hide Back, Arranged, Returns, ItemsOf, InnerOf, MembersOf, Initial, FitKey, FindNamed, NameFor, SoundName, IsNull;
    match t
    case TOpt(elem) =>
      if v.VSome? {
        BackExact(elem, v.v, Initial(elem));
      }
      OptExact(elem, v, seed);
    case TSeq(elem) =>
      ElemsExact(elem, v.elems);
      SeqExact(elem, v.elems, seed);
    case TTuple(elems) =>
      ItemsExact(elems, v.elems, ItemsOf(elems, seed));
      TupleExact(elems, v.elems, seed);
    case TMap(keys, unique, elem) =>
      PairsExact(keys, elem, v.entries);
      MapExact(keys, unique, elem, v.entries, seed);
    case TWrap(ident, elem) =>
      BackExact(elem, v.members[0], InnerOf(elem, seed));
      WrapExact(ident, elem, v.members, seed);
    case TStruct(fields, unknown) =>
      FieldsExact(fields, v.members, MembersOf(fields, seed));
      StructExact(fields, unknown, v.members, seed);
    case TVariant(tag, alts) =>
      BackExact(alts[v.alt].1, v.v, Initial(alts[v.alt].1));
      VariantExact(tag, alts, v.alt, v.v, seed);
    case _ => LeafExact(t, v, seed);
  }

  lemma LeafExact(t: Ty, v: Value, seed: Value)
    requires Fit(t, v) && (t.TBool? || t.TInt? || t.TText? || t.TBytes? || t.TEnum? || t.TNamed?)
    ensures Back(t, v, seed) == Arranged(v) && Returns(t, v, seed)
  {
  }

  lemma OptExact(elem: Ty, v: Value, seed: Value)
    requires v.VNone? || (v.VSome? && (Back(elem, v.v, Initial(elem)) == Arranged(v.v)
                                       <==> Returns(elem, v.v, Initial(elem))))
    ensures Back(TOpt(elem), v, seed) == Arranged(v) <==> Returns(TOpt(elem), v, seed)
  {
    hide Initial, IsNull;
  }

  lemma SeqExact(elem: Ty, s: seq<Value>, seed: Value)
    requires BackAll(elem, s) == ArrangedAll(s) <==> forall i :: 0 <= i < |s| ==> Returns(elem, s[i], Initial(elem))
    ensures Back(TSeq(elem), VSeq(s), seed) == Arranged(VSeq(s)) <==> Returns(TSeq(elem), VSeq(s), seed)
  {
    hide Initial, BackAll, ArrangedAll;
  }

  lemma TupleExact(elems: seq<Ty>, s: seq<Value>, seed: Value)
    requires |s| == |elems|
    requires BackItems(elems, s, ItemsOf(elems, seed)) == ArrangedAll(s)
        <==> forall i :: 0 <= i < |s| ==> Returns(elems[i], s[i], ItemsOf(elems, seed)[i])
    ensures Back(TTuple(elems), VSeq(s), seed) == Arranged(VSeq(s)) <==> Returns(TTuple(elems), VSeq(s), seed)
  {
    hide ItemsOf, BackItems, ArrangedAll;
  }

  lemma MapExact(keys: KeyType, unique: bool, elem: Ty, ps: seq<Pair>, seed: Value)
    requires BackPairs(elem, ps) == ArrangedPairs(ps) <==> ReturnsPairs(elem, ps)
    ensures Back(TMap(keys, unique, elem), VMap(ps), seed) == Arranged(VMap(ps))
            <==> Returns(TMap(keys, unique, elem), VMap(ps), seed)
  {
    hide BackPairs, ArrangedPairs, ReturnsPairs, SortPairs;
    SortSame(BackPairs(elem, ps), ArrangedPairs(ps));
  }

  lemma WrapExact(ident: seq<byte>, elem: Ty, ms: seq<Value>, seed: Value)
    requires |ms| == 1
    requires Back(elem, ms[0], InnerOf(elem, seed)) == Arranged(ms[0]) <==> Returns(elem, ms[0], InnerOf(elem, seed))
    ensures Back(TWrap(ident, elem), VStruct(ms), seed) == Arranged(VStruct(ms))
            <==> Returns(TWrap(ident, elem), VStruct(ms), seed)
  {
    hide InnerOf;
    assert ArrangedAll(ms) == [Arranged(ms[0])];
  }

  lemma StructExact(fields: seq<Field>, unknown: Unknown, ms: seq<Value>, seed: Value)
    requires BackMembers(fields, ms, MembersOf(fields, seed)) == ArrangedAll(ms)
             <==> ReturnsMembers(fields, ms, MembersOf(fields, seed))
    ensures Back(TStruct(fields, unknown), VStruct(ms), seed) == Arranged(VStruct(ms))
       <==> Returns(TStruct(fields, unknown), VStruct(ms), seed)
  {
    hide MembersOf, BackMembers, ArrangedAll, ReturnsMembers;
  }

  lemma VariantExact(tag: seq<byte>, alts: seq<(seq<byte>, Ty)>, i: nat, w: Value, seed: Value)
    requires i < |alts|
    requires Back(alts[i].1, w, Initial(alts[i].1)) == Arranged(w) <==> Returns(alts[i].1, w, Initial(alts[i].1))
    ensures Back(TVariant(tag, alts), VAlt(i, w), seed) == Arranged(VAlt(i, w))
            <==> Returns(TVariant(tag, alts), VAlt(i, w), seed)
  {
    hide Initial;
  }

  lemma {:induction false} ElemsExact(elem: Ty, s: seq<Value>)
    requires forall i :: 0 <= i < |s| ==> Fit(elem, s[i])
    ensures BackAll(elem, s) == ArrangedAll(s) <==> forall i :: 0 <= i < |s| ==> Returns(elem, s[i], Initial(elem))
    decreases s, 0
  {
    hide Back, Arranged, Returns, Initial;
    forall i | 0 <= i < |s|
      ensures BackAll(elem, s)[i] == ArrangedAll(s)[i] <==> Returns(elem, s[i], Initial(elem))
    {
      BackExact(elem, s[i], Initial(elem));
    }
    var a, b := BackAll(elem, s), ArrangedAll(s);
    if a == b {
      forall i | 0 <= i < |s|
        ensures Returns(elem, s[i], Initial(elem))
      {
        assert a[i] == b[i];
      }
    }
    if forall i :: 0 <= i < |s| ==> Returns(elem, s[i], Initial(elem)) {
      assert forall i :: 0 <= i < |s| ==> a[i] == b[i];
    }
  }

  lemma {:induction false} ItemsExact(elems: seq<Ty>, s: seq<Value>, seeds: seq<Value>)
    requires |elems| == |s| == |seeds| && forall i :: 0 <= i < |s| ==> Fit(elems[i], s[i])
    ensures BackItems(elems, s, seeds) == ArrangedAll(s)
            <==> forall i :: 0 <= i < |s| ==> Returns(elems[i], s[i], seeds[i])
    decreases s, 0
  {
    hide Back, Arranged, Returns;
    forall i | 0 <= i < |s|
      ensures BackItems(elems, s, seeds)[i] == ArrangedAll(s)[i] <==> Returns(elems[i], s[i], seeds[i])
    {
      BackExact(elems[i], s[i], seeds[i]);
    }
    var a, b := BackItems(elems, s, seeds), ArrangedAll(s);
    if a == b {
      forall i | 0 <= i < |s|
        ensures Returns(elems[i], s[i], seeds[i])
      {
        assert a[i] == b[i];
      }
    }
    if forall i :: 0 <= i < |s| ==> Returns(elems[i], s[i], seeds[i]) {
      assert forall i :: 0 <= i < |s| ==> a[i] == b[i];
    }
  }

  lemma {:induction false} PairsExact(keys: KeyType, elem: Ty, ps: seq<Pair>)
    requires forall i :: 0 <= i < |ps| ==> FitPair(keys, elem, ps, i)
    ensures BackPairs(elem, ps) == ArrangedPairs(ps) <==> ReturnsPairs(elem, ps)
    decreases ps, 0
  {
    hide Back, Arranged, Returns, Initial, FitKey;
    forall i | 0 <= i < |ps|
      ensures BackPairs(elem, ps)[i] == ArrangedPairs(ps)[i] <==> Returns(elem, ps[i].val, Initial(elem))
    {
      assert FitPair(keys, elem, ps, i);
      assert ps decreases to ps[i];
      BackExact(elem, ps[i].val, Initial(elem));
    }
    var a, b := BackPairs(elem, ps), ArrangedPairs(ps);
    if a == b {
      forall i | 0 <= i < |ps|
        ensures Returns(elem, ps[i].val, Initial(elem))
      {
        assert a[i] == b[i];
      }
    }
    if ReturnsPairs(elem, ps) {
      forall i | 0 <= i < |ps|
        ensures a[i] == b[i]
      {
        assert BackPairs(elem, ps)[i] == ArrangedPairs(ps)[i];
      }
      assert a == b;
    }
  }

  lemma {:induction false} FieldsExact(fields: seq<Field>, ms: seq<Value>, seeds: seq<Value>)
    requires FitMembers(fields, ms) && |seeds| == |fields|
    ensures BackMembers(fields, ms, seeds) == ArrangedAll(ms) <==> ReturnsMembers(fields, ms, seeds)
    decreases ms, 0
  {
    hide Back, Arranged, Returns, IsWritten, Filled;
    forall i | 0 <= i < |fields|
      ensures Back(fields[i].ty, ms[i], seeds[i]) == Arranged(ms[i]) <==> Returns(fields[i].ty, ms[i], seeds[i])
    {
      BackExact(fields[i].ty, ms[i], seeds[i]);
    }
    var a, b := BackMembers(fields, ms, seeds), ArrangedAll(ms);
    if a == b {
      forall i | 0 <= i < |fields|
        ensures if IsWritten(fields[i], ms[i]) && !fields[i].skip then Returns(fields[i].ty, ms[i], seeds[i])
                else Filled(fields[i], seeds[i]) == Arranged(ms[i])
      {
        assert a[i] == b[i];
      }
    }
    if ReturnsMembers(fields, ms, seeds) {
      forall i | 0 <= i < |fields|
        ensures a[i] == b[i]
      {
      }
    }
  }

  // ---- the theorem ----

  /** What a typed value is written as. */
  lemma {:induction false} TypedWritten(wo: W.Options, t: Ty, v: Value) returns (b: seq<byte>)
    requires Sound(t) && Fit(t, v) && Fits(Img(t, v), wo.maxDepth)
    ensures W.Run(wo, W.Out([]), Calls(DocOf(t, v))) == W.Next(W.Out(b))
    ensures b == Enc(Img(t, v)) && Valid(Img(t, v)) && Canonical(Img(t, v))
  {
    hide Sound, Fit, DocOf, Clean, Distinct, InKeyOrder, Valid, Canonical, Fits, Enc, W.Run, Write, Calls, Tree,
         Proper, WriterTrees.Typed;
    var d := DocOf(t, v);
    TypedFine(wo, t, v);
    TypedFine(wo.(validateUtf8 := true), t, v);
    WriteSucceeds(wo, d, 0);
    WriteIsEnc(wo, d, 0);
    TreeValid(wo.(validateUtf8 := true), d);
    TreeCanonical(d);
    b := Enc(Tree(d));
    EndToEnd.FromNothing(wo, d, b);
  }

  /** Every value of every type, written by the deterministic writer and decoded as that type, fail-fast or collecting,
      strict or not: what comes back is `Back`, and it is the value, with its maps in the order of their keys, exactly
      when no optional holds a null and every member that was not written is filled in with what it was. */
  lemma {:induction false} WrittenAndDecoded(wo: W.Options, c: Config, t: Ty, v: Value) returns (b: seq<byte>)
    requires Sound(t) && Fit(t, v) && Decodable(t, v) && Fits(Img(t, v), wo.maxDepth)
             && Fits(Img(t, v), c.opts.maxDepth)
    ensures W.Run(wo, W.Out([]), Calls(DocOf(t, v))) == W.Next(W.Out(b))
    ensures DecodeOne(c, t, b) == Answer(Back(t, v, Initial(t)))
    ensures DecodeAll(c, t, b) == Collected(Back(t, v, Initial(t)), [])
    ensures DecodeOne(c, t, b) == Answer(Arranged(v)) <==> Returns(t, v, Initial(t))
  {
    hide Sound, Fit, Decodable, DocOf, Fits, Enc, W.Run, Calls, Img, Decode, Back, Returns, Arranged, Valid, Canonical,
         Initial;
    b := TypedWritten(wo, t, v);
    FromStart(FailFast(c), t, v, b);
    FromStart(Collecting(c), t, v, b);
    BackExact(t, v, Initial(t));
  }

  /** Decoding a document that is the encoding of a value. */
  lemma {:induction false} FromStart(c: Config, t: Ty, v: Value, b: seq<byte>)
    requires Sound(t) && Fit(t, v) && Decodable(t, v) && Fits(Img(t, v), c.opts.maxDepth)
    requires b == Enc(Img(t, v)) && Valid(Img(t, v)) && Canonical(Img(t, v))
    ensures StartOf(b) == 0 && Decode(c, t, Initial(t), b, 0, 0) == Res(None, Back(t, v, Initial(t)), |b|, [])
  {
    hide Sound, Fit, Decodable, Fits, Enc, Img, Decode, Back, Valid, Canonical, Initial, ParseHead, IsNull,
         ReadSpec.PeekKind;
    TypedDecodes(c, t, v, b);
    assert Lies(c.opts, b, 0, 0, Img(t, v));
    UseDecodes(c, b, t, v, Initial(t), 0, 0);
    NullAhead(c.opts, t, v, b, 0, 0);
  }
}
