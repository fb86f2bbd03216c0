/** Types every value of which survives being written and decoded, told from the type alone. */
module TypedLossless {
  import opened Bytes
  import opened Item
  import opened BuildSpec
  import opened Collect
  import W = WriterSpec
  import opened WriterRuns
  import opened Typed
  import opened TypedRead
  import opened TypedRoundTrip

  /** Some value of the type is written as null. */
  predicate Nullable(t: Ty) {
    match t
    case TOpt(_) => true
    case TWrap(_, elem) => Nullable(elem)
    case _ => false
  }

  /** No optional is directly inside an optional, every member is written and read, or is filled in with what it was
      left out for, and alternatives with a discriminator have no integer keys. */
  predicate Lossless(t: Ty, seed: Value)
    decreases t, 1
  {
    match t
    case TOpt(elem) => !Nullable(elem) && Lossless(elem, Initial(elem))
    case TSeq(elem) => Lossless(elem, Initial(elem))
    case TTuple(elems) => forall i :: 0 <= i < |elems| ==> Lossless(elems[i], ItemsOf(elems, seed)[i])
    case TMap(_, _, elem) => Lossless(elem, Initial(elem))
    case TWrap(_, elem) => Lossless(elem, InnerOf(elem, seed))
    case TStruct(fields, _) => LosslessMembers(fields, MembersOf(fields, seed))
    case TVariant(_, alts) => forall i :: 0 <= i < |alts| ==> LosslessAlternative(alts, i)
    case _ => true
  }

  predicate LosslessMembers(fields: seq<Field>, seeds: seq<Value>)
    requires |seeds| == |fields|
    decreases fields, 0
  {
    forall i :: 0 <= i < |fields| ==> Refilled(fields[i], seeds[i]) && Lossless(fields[i].ty, seeds[i])
  }

  predicate Refilled(f: Field, seed: Value) {
    && !f.skip && !f.omit.never
    && (f.omit.ifNull ==> !f.required && Filled(f, seed) == VNone)
    && (f.omit.ifDefault ==> !f.required && Filled(f, seed) == Arranged(f.init))
  }

  predicate LosslessAlternative(alts: seq<(seq<byte>, Ty)>, i: nat)
    requires i < |alts|
    decreases alts, 0
  {
    assert alts decreases to alts[i];
    var t := alts[i].1;
    && Lossless(t, Initial(t))
    && (t.TStruct? ==> forall j :: 0 <= j < |t.fields| ==> t.fields[j].key.None?)
  }

  lemma {:induction false} NotNull(t: Ty, v: Value)
    requires Fit(t, v) && !Nullable(t)
    ensures !IsNull(t, v)
    decreases v
  {
    match (t, v)
    case (TWrap(_, elem), VStruct(ms)) => NotNull(elem, ms[0]);
    case _ =>
  }

  /** Values of such a type are decoded, and come back. */
  lemma {:induction false} LosslessReturns(t: Ty, v: Value, seed: Value)
    requires Fit(t, v) && Lossless(t, seed)
    ensures Comes(t, v, seed)
    decreases v
  {
    hide SoundName, FindNamed, NameFor, FitKey, Initial, ItemsOf, InnerOf, MembersOf, LosslessMembers, FitMembers,
         Comes;
    match t
    case TOpt(elem) =>
      if v.VSome? {
        NotNull(elem, v.v);
        LosslessReturns(elem, v.v, Initial(elem));
      }
      OptComes(elem, v, seed);
    case TSeq(elem) =>
      forall i | 0 <= i < |v.elems|
        ensures Comes(elem, v.elems[i], Initial(elem))
      {
        LosslessReturns(elem, v.elems[i], Initial(elem));
      }
      SeqComes(elem, v.elems, seed);
    case TTuple(elems) => ItemsReturn(elems, v.elems, seed);
    case TMap(keys, unique, elem) => PairsReturn(keys, unique, elem, v.entries, seed);
    case TWrap(ident, elem) =>
      LosslessReturns(elem, v.members[0], InnerOf(elem, seed));
      WrapComes(ident, elem, v.members, seed);
    case TStruct(fields, unknown) => MembersReturn(fields, unknown, v.members, seed);
    case TVariant(tag, alts) =>
      assert LosslessAlternative(alts, v.alt);
      LosslessReturns(alts[v.alt].1, v.v, Initial(alts[v.alt].1));
      VariantComes(tag, alts, v.alt, v.v, seed);
    case _ => LeafComes(t, v, seed);
  }

  predicate Comes(t: Ty, v: Value, seed: Value) {
    Decodable(t, v) && Returns(t, v, seed)
  }

  lemma LeafComes(t: Ty, v: Value, seed: Value)
    requires t.TBool? || t.TInt? || t.TText? || t.TBytes? || t.TEnum? || t.TNamed?
    ensures Comes(t, v, seed)
  {
  }

  lemma OptComes(elem: Ty, v: Value, seed: Value)
    requires v.VNone? || (v.VSome? && !IsNull(elem, v.v) && Comes(elem, v.v, Initial(elem)))
    ensures Comes(TOpt(elem), v, seed)
  {
    hide Initial, IsNull;
  }

  lemma SeqComes(elem: Ty, s: seq<Value>, seed: Value)
    requires forall i :: 0 <= i < |s| ==> Comes(elem, s[i], Initial(elem))
    ensures Comes(TSeq(elem), VSeq(s), seed)
  {
    hide Initial;
  }

  lemma WrapComes(ident: seq<byte>, elem: Ty, ms: seq<Value>, seed: Value)
    requires |ms| == 1 && Comes(elem, ms[0], InnerOf(elem, seed))
    ensures Comes(TWrap(ident, elem), VStruct(ms), seed)
  {
    hide InnerOf;
  }

  lemma VariantComes(tag: seq<byte>, alts: seq<(seq<byte>, Ty)>, i: nat, w: Value, seed: Value)
    requires i < |alts| && LosslessAlternative(alts, i) && Comes(alts[i].1, w, Initial(alts[i].1))
    ensures Comes(TVariant(tag, alts), VAlt(i, w), seed)
  {
    hide Initial, IsWritten, Lossless;
  }

  lemma {:induction false} ItemsReturn(elems: seq<Ty>, s: seq<Value>, seed: Value)
    requires |elems| == |s|
    requires forall i :: 0 <= i < |s| ==> Fit(elems[i], s[i]) && Lossless(elems[i], ItemsOf(elems, seed)[i])
    ensures Comes(TTuple(elems), VSeq(s), seed)
    decreases s
  {
    hide Fit, Lossless, ItemsOf;
    forall i | 0 <= i < |s|
      ensures Comes(elems[i], s[i], ItemsOf(elems, seed)[i])
    {
      LosslessReturns(elems[i], s[i], ItemsOf(elems, seed)[i]);
    }
  }

  lemma {:induction false} PairsReturn(keys: KeyType, unique: bool, elem: Ty, ps: seq<Pair>, seed: Value)
    requires Lossless(elem, Initial(elem)) && forall i :: 0 <= i < |ps| ==> FitPair(keys, elem, ps, i)
    ensures Comes(TMap(keys, unique, elem), VMap(ps), seed)
    decreases ps
  {
    hide Fit, FitKey, Lossless, Initial;
    forall i | 0 <= i < |ps|
      ensures Comes(elem, ps[i].val, Initial(elem))
    {
      assert ps decreases to ps[i];
      assert FitPair(keys, elem, ps, i);
      LosslessReturns(elem, ps[i].val, Initial(elem));
    }
    assert Returns(TMap(keys, unique, elem), VMap(ps), seed);
    assert forall i :: 0 <= i < |ps| ==> PairDecodable(elem, ps, i);
    assert Decodable(TMap(keys, unique, elem), VMap(ps));
  }

  lemma {:induction false} MembersReturn(fields: seq<Field>, unknown: Unknown, ms: seq<Value>, seed: Value)
    requires FitMembers(fields, ms) && LosslessMembers(fields, MembersOf(fields, seed))
    ensures Comes(TStruct(fields, unknown), VStruct(ms), seed)
    decreases ms
  {
    hide Fit, Lossless, MembersOf;
    var seeds := MembersOf(fields, seed);
    forall i | 0 <= i < |fields|
      ensures Comes(fields[i].ty, ms[i], seeds[i])
      ensures !IsWritten(fields[i], ms[i]) ==> !fields[i].required && Filled(fields[i], seeds[i]) == Arranged(ms[i])
    {
      assert Refilled(fields[i], seeds[i]);
      LosslessReturns(fields[i].ty, ms[i], seeds[i]);
    }
    assert MembersDecodable(fields, ms) && ReturnsMembers(fields, ms, seeds);
  }

  /** Every value of such a type, written and decoded in any mode, comes back with its maps in the order of their keys.
      */
  lemma {:induction false} LosslessRoundTrip(wo: W.Options, c: Config, t: Ty, v: Value) returns (b: seq<byte>)
    requires Sound(t) && Lossless(t, Initial(t))
    requires Fit(t, v) && Fits(Img(t, v), wo.maxDepth) && Fits(Img(t, v), c.opts.maxDepth)
    ensures W.Run(wo, W.Out([]), Calls(DocOf(t, v))) == W.Next(W.Out(b))
    ensures DecodeOne(c, t, b) == Answer(Arranged(v)) && DecodeAll(c, t, b) == Collected(Arranged(v), [])
  {
    hide Sound, Fit, Decodable, DocOf, Fits, W.Run, Calls, Img, Back, Returns, Arranged, Initial, Lossless;
    LosslessReturns(t, v, Initial(t));
    BackExact(t, v, Initial(t));
    b := WrittenAndDecoded(wo, c, t, v);
  }
}
