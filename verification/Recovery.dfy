/** What collecting decode recovers from: everything a well-formed item can have wrong. */
module Recovery {
  import opened Bytes
  import opened Utf8
  import opened Item
  import opened SkipSpec
  import opened ReadSpec
  import opened BuildSpec
  import opened BuildSteps
  import opened Wires
  import opened Meanings
  import opened DecodeMeans

  /** The input itself is broken, or nested too deep. */
  predicate Broken(code: Code) {
    code in {Syntax(UnexpectedToken), Syntax(InvalidUtf8), Syntax(TrailingContent), Syntax(DepthExceeded),
             Syntax(Truncated), Syntax(MalformedItem)}
  }

  /** The item is not what the type asks for. */
  predicate Unfit(code: Code) {
    || code in {Syntax(TypeMismatch), Syntax(OutOfRange), Syntax(TagMismatch)}
    || code in {MissingField, UnknownField, DuplicateKey, UnknownEnumerator, MissingTag, NoVariantAlternative}
  }

  /** A failing member ends a collecting struct if its input is broken; otherwise the failure is collected and the value
      skipped. */
  lemma MemberRecovers(c: Config, fields: seq<Field>, unknown: Unknown, objOff: nat, vals: seq<Value>,
                       seen: set<nat>, input: seq<byte>, pos: nat, depth: nat, remaining: Option<nat>,
                       prev: Option<Extent>, m: nat)
    requires pos <= |input| && ExtentOk(prev, |input|) && |vals| == |fields| && m < |fields| && c.collect
    requires Decode(c, fields[m].ty, vals[m], input, pos, depth).status.Some?
    ensures var whole := DecodeMember(c, fields, unknown, objOff, vals, seen, input, pos, depth, remaining, prev, m);
            var x := Decode(c, fields[m].ty, vals[m], input, pos, depth);
            var e, errs := Push(x.status.value, Member(fields[m].ident)), PushAll(x.errs, Member(fields[m].ident));
            if Broken(e.code) then whole.status == Some(e) && whole.errs == errs
            else whole == Also(errs + [e], SkipThen(c, fields, unknown, objOff, vals[m := x.value], seen + {m}, input,
                                                    pos, depth, remaining, prev))
  {
    hide Decode, DecodeMember, SkipThen, Push, PushAll;
    MemberStep(c, fields, unknown, objOff, vals, seen, input, pos, depth, remaining, prev, m);
  }

  // ---- nothing about a well-formed item is broken ----

  predicate OutUnfit(m: Out) {
    m.status.Some? ==> Unfit(m.status.value.code)
  }

  lemma InsideUnfit(m: Out, s: PathStep)
    ensures OutUnfit(Inside(m, s)) <==> OutUnfit(m)
  {
  }

  lemma UnfitNotSyntax(e: Complaint)
    requires Unfit(e.code)
    ensures !IsSyntax(e.code)
  {
  }

  lemma ScalarUnfit(o: Options, x: Item)
    ensures TextIn(o, x).Not? ==> Unfit(Syntax(TextIn(o, x).code))
    ensures BytesIn(o, x).Not? ==> Unfit(Syntax(BytesIn(o, x).code))
    ensures UIntIn(o, x).Not? ==> Unfit(Syntax(UIntIn(o, x).code))
    ensures SIntIn(o, x).Not? ==> Unfit(Syntax(SIntIn(o, x).code))
    ensures SimpleIn(o, x, 20, 21).Not? ==> Unfit(Syntax(SimpleIn(o, x, 20, 21).code))
  {
  }

  lemma UnfitCodes()
    ensures Unfit(Syntax(TypeMismatch)) && Unfit(Syntax(OutOfRange)) && Unfit(Syntax(TagMismatch))
    ensures Unfit(DuplicateKey) && Unfit(UnknownField) && Unfit(UnknownEnumerator)
  {
  }

  lemma IntUnfit(o: Options, t: IntType, seed: Value, x: Item)
    ensures OutUnfit(IntMeaning(o, t, seed, x))
  {
    hide UIntIn, SIntIn, Unfit;
    ScalarUnfit(o, x);
    UnfitCodes();
  }

  lemma LeafUnfit(c: Config, t: Ty, seed: Value, x: Item)
    requires IsLeaf(t)
    ensures OutUnfit(Meaning(c, t, seed, x))
  {
    hide TextIn, BytesIn, UIntIn, SIntIn, SimpleIn, FindNamed, IntMeaning, Unfit;
    ScalarUnfit(c.opts, x);
    UnfitCodes();
    if t.TInt? {
      IntUnfit(c.opts, t.range, seed, x);
    } else if t.TEnum? {
      IntUnfit(c.opts, t.repr, seed, x);
    }
  }

  lemma MapKeyUnfit(o: Options, keys: KeyType, k: Item)
    ensures MapKeyIn(o, keys, k).Not? ==> Unfit(Syntax(MapKeyIn(o, keys, k).code))
  {
    hide TextIn, UIntIn, SIntIn, KindOf, Digits;
    ScalarUnfit(o, k);
  }

  lemma {:induction false} MeaningUnfit(c: Config, t: Ty, seed: Value, x: Item)
    ensures OutUnfit(Meaning(c, t, seed, x))
    decreases Size(x), t, 1
  {
    hide ElemsMeaning, PlacesMeaning, FoldPairs, FoldEntries, BoxMeaning, ObjectMeaning, AlternativeIn, KindOf, Core,
         TextIn, BytesIn, SimpleIn, IntMeaning, FindNamed, Inside, InnerOf, ItemsOf, Initial, OutUnfit, Unfit;
    CoreSmaller(c.opts, x);
    WrongUnfit(seed);
    match t
    case TOpt(elem) =>
      if !KindOf(c.opts, x).KNull? {
        MeaningUnfit(c, elem, Initial(elem), x);
        ValueUnfit(Meaning(c, elem, Initial(elem), x), VSome(Meaning(c, elem, Initial(elem), x).value));
      }
    case TWrap(ident, elem) =>
      MeaningUnfit(c, elem, InnerOf(elem, seed), x);
      var m := Meaning(c, elem, InnerOf(elem, seed), x);
      InsideUnfit(m, Member(ident));
      ValueUnfit(Inside(m, Member(ident)), VStruct([Inside(m, Member(ident)).value]));
    case TSeq(elem) =>
      if Core(c.opts, x).Some? && Core(c.opts, x).value.Array? {
        ElemsUnfit(c, elem, [], Core(c.opts, x).value.items);
      }
    case TTuple(elems) =>
      if Core(c.opts, x).Some? && Core(c.opts, x).value.Array? {
        PlacesUnfit(c, elems, ItemsOf(elems, seed), 0, Core(c.opts, x).value.items);
      }
    case TMap(keys, unique, elem) =>
      if Core(c.opts, x).Some? && Core(c.opts, x).value.Map? {
        PairsUnfit(c, keys, unique, elem, Adding([], []), Core(c.opts, x).value.entries);
      }
    case TStruct(fields, unknown) => ObjectUnfit(c, fields, unknown, seed, x);
    case TVariant(tag, alts) =>
      ChoiceUnfit(c.opts, tag, alts, x, seed);
      var choice := AlternativeIn(c.opts, tag, alts, x);
      if choice.Chosen? {
        var a := alts[choice.i].1;
        if a.TStruct? {
          ObjectUnfit(c, a.fields, a.unknown.(ignore := tag), Initial(a), x);
          var m := ObjectMeaning(c, a.fields, a.unknown.(ignore := tag), Initial(a), x);
          ValueUnfit(m, VAlt(choice.i, m.value));
        } else {
          BoxUnfit(c, a, x);
          ValueUnfit(BoxMeaning(c, a, x), VAlt(choice.i, BoxMeaning(c, a, x).value));
        }
      }
    case _ => LeafUnfit(c, t, seed, x);
  }

  lemma CoreSmaller(o: Options, x: Item)
    ensures var y := Core(o, x);
            && (y.Some? && y.value.Array? ==> SizeItems(y.value.items) < Size(x))
            && (y.Some? && y.value.Map? ==> SizeEntries(y.value.entries) < Size(x))
  {
  }

  lemma WrongUnfit(v: Value)
    ensures OutUnfit(Wrong(Syntactic(TagMismatch), v)) && OutUnfit(Wrong(Syntactic(TypeMismatch), v))
    ensures forall w :: OutUnfit(Right(w))
    ensures OutUnfit(MapEnd(Adding([], [])))
  {
  }

  lemma ValueUnfit(m: Out, v: Value)
    requires OutUnfit(m)
    ensures OutUnfit(m.(value := v))
  {
  }

  lemma PlusUnfit(errs: seq<Complaint>, m: Out)
    requires OutUnfit(m)
    ensures OutUnfit(Plus(errs, m))
  {
  }

  lemma {:induction false} ElemsUnfit(c: Config, elem: Ty, done: seq<Value>, s: Items)
    ensures OutUnfit(ElemsMeaning(c, elem, done, s))
    decreases SizeItems(s), elem, 2
  {
    hide Meaning, Inside, AllUnder, Unfit, Initial;
    if s.Items? {
      MeaningUnfit(c, elem, Initial(elem), s.head);
      var m := Inside(Meaning(c, elem, Initial(elem), s.head), Index(|done|));
      InsideUnfit(Meaning(c, elem, Initial(elem), s.head), Index(|done|));
      ElemsUnfit(c, elem, done + [m.value], s.tail);
    }
  }

  lemma {:induction false} PlacesUnfit(c: Config, elems: seq<Ty>, vals: seq<Value>, i: nat, s: Items)
    requires |vals| == |elems| && i <= |elems|
    ensures OutUnfit(PlacesMeaning(c, elems, vals, i, s))
    decreases SizeItems(s), elems, 2
  {
    hide Meaning, Inside, AllUnder;
    if s.Items? && i < |elems| {
      MeaningUnfit(c, elems[i], vals[i], s.head);
      var m := Inside(Meaning(c, elems[i], vals[i], s.head), Index(i));
      InsideUnfit(Meaning(c, elems[i], vals[i], s.head), Index(i));
      PlacesUnfit(c, elems, vals[i := m.value], i + 1, s.tail);
    }
  }

  lemma {:induction false} PairsUnfit(c: Config, keys: KeyType, unique: bool, elem: Ty, f: Filling, s: Entries)
    requires OutUnfit(MapEnd(f))
    ensures OutUnfit(MapEnd(FoldPairs(c, keys, unique, elem, f, s)))
    decreases SizeEntries(s), elem, 3
  {
    hide PairStep, Unfit;
    if f.Adding? && s.Entries? {
      PairUnfit(c, keys, unique, elem, f.done, f.errs, s.key, s.val);
      PairsUnfit(c, keys, unique, elem, PairStep(c, keys, unique, elem, f.done, f.errs, s.key, s.val), s.rest);
    }
  }

  lemma PairUnfit(c: Config, keys: KeyType, unique: bool, elem: Ty, done: seq<Pair>, errs: seq<Complaint>, k: Item,
                  v: Item)
    ensures OutUnfit(MapEnd(PairStep(c, keys, unique, elem, done, errs, k, v)))
    decreases Size(v), elem, 2
  {
    hide Meaning, MapKeyIn, Inside, FindEntry, StepOf, Initial, Unfit;
    UnfitCodes();
    MapKeyUnfit(c.opts, keys, k);
    var key := MapKeyIn(c.opts, keys, k);
    if key.Seen? {
      var there := if unique then FindEntry(done, key.value) else None;
      var seed := if there.Some? then done[there.value].val else Initial(elem);
      MeaningUnfit(c, elem, seed, v);
      InsideUnfit(Meaning(c, elem, seed, v), StepOf(key.value));
    }
  }

  lemma ChoiceUnfit(o: Options, tag: seq<byte>, alts: seq<(seq<byte>, Ty)>, x: Item, v: Value)
    ensures var a := AlternativeIn(o, tag, alts, x); a.Neither? ==> Unfit(a.e.code) && OutUnfit(Wrong(a.e, v))
  {
    hide TagOf, FindAlt;
    var y := Core(o, x);
    if y.Some? && y.value.Map? {
      TagUnfit(o, tag, None, y.value.entries);
    }
  }

  lemma {:induction false} TagUnfit(o: Options, tag: seq<byte>, got: Option<seq<byte>>, s: Entries)
    ensures var r := TagOf(o, tag, got, s); r.NoTagIn? ==> Unfit(Syntax(r.code))
    decreases s
  {
    hide TextIn;
    if s.Entries? {
      ScalarUnfit(o, s.key);
      ScalarUnfit(o, s.val);
      var name := TextIn(o, s.val);
      if name.Seen? {
        TagUnfit(o, tag, Some(name.value), s.rest);
      }
      TagUnfit(o, tag, got, s.rest);
    }
  }

  lemma {:induction false} BoxedUnfit(c: Config, t: Ty, done: Value, have: bool, s: Entries)
    ensures OutUnfit(BoxedMeaning(c, t, done, have, s))
    decreases SizeEntries(s), t, 2
  {
    hide Meaning, TextIn, Inside, AllUnder, VALUE;
    if s.Entries? {
      ScalarUnfit(c.opts, s.key);
      MeaningUnfit(c, t, done, s.val);
      var m := Inside(Meaning(c, t, done, s.val), Member(VALUE));
      InsideUnfit(Meaning(c, t, done, s.val), Member(VALUE));
      BoxedUnfit(c, t, m.value, true, s.rest);
      BoxedUnfit(c, t, done, have, s.rest);
    }
  }

  lemma BoxUnfit(c: Config, t: Ty, x: Item)
    ensures OutUnfit(BoxMeaning(c, t, x))
    decreases Size(x), t, 2
  {
    hide BoxedMeaning, Core, Initial;
    CoreSmaller(c.opts, x);
    var y := Core(c.opts, x);
    if y.Some? && y.value.Map? {
      BoxedUnfit(c, t, Initial(t), false, y.value.entries);
    }
  }

  /** The end of a fold over members, if it is one, is unfit rather than broken; and if errors are collected it is a key
      that ends it. */
  ghost predicate GoingUnfit(g: Going) {
    g.Stopped? ==> g.out.status.Some? && Unfit(g.out.status.value.code)
  }

  lemma EntryUnfit(c: Config, fields: seq<Field>, unknown: Unknown, vals: seq<Value>, seen: set<nat>,
                   errs: seq<Complaint>, k: Item, v: Item)
    requires |vals| == |fields|
    ensures GoingUnfit(EntryStep(c, fields, unknown, vals, seen, errs, k, v))
    ensures c.collect && KeyFine(c.opts, fields, unknown, k) ==>
              EntryStep(c, fields, unknown, vals, seen, errs, k, v).Going?
    decreases Size(v), fields, 2
  {
    hide Meaning, MemberKeyIn, Inside, AllUnder;
    KeyUnfit(c.opts, fields, unknown, k);
    var key := MemberKeyIn(c.opts, fields, k);
    if key.KeyIn? && key.member.Some? {
      var f := fields[key.member.value];
      MeaningUnfit(c, f.ty, vals[key.member.value], v);
      var m := Meaning(c, f.ty, vals[key.member.value], v);
      InsideUnfit(m, Member(f.ident));
      if Inside(m, Member(f.ident)).status.Some? {
        UnfitNotSyntax(Inside(m, Member(f.ident)).status.value);
      }
    }
  }

  /** A key that can be looked up: text, or an integer if there are integer keys, and no denied integer beyond
      63 bits. */
  predicate KeyFine(o: Options, fields: seq<Field>, unknown: Unknown, k: Item) {
    match Core(o, k)
    case Some(TextString(_)) => true
    case Some(UInt(u)) => AnyIntKeys(fields) && (u >= TWO63 ==> !unknown.refuse)
    case Some(NInt(n)) => AnyIntKeys(fields) && n < TWO63
    case _ => false
  }

  lemma KeyUnfit(o: Options, fields: seq<Field>, unknown: Unknown, k: Item)
    ensures var key := MemberKeyIn(o, fields, k);
            && (key.NoKeyIn? ==> Unfit(Syntax(key.code)))
            && (KeyFine(o, fields, unknown, k) ==> !key.NoKeyIn? && (key.HugeIn? ==> !unknown.refuse))
  {
    hide FindName, FindKey, NamedMember, Answers;
  }

  predicate KeysFine(o: Options, fields: seq<Field>, unknown: Unknown, s: Entries) {
    s.NoEntries? || (KeyFine(o, fields, unknown, s.key) && KeysFine(o, fields, unknown, s.rest))
  }

  lemma {:induction false} EntriesUnfit(c: Config, fields: seq<Field>, unknown: Unknown, g: Going, s: Entries)
    requires (g.Going? ==> |g.vals| == |fields|) && GoingUnfit(g)
    ensures GoingUnfit(FoldEntries(c, fields, unknown, g, s))
    ensures g.Going? && c.collect && KeysFine(c.opts, fields, unknown, s) ==>
              FoldEntries(c, fields, unknown, g, s).Going?
    decreases SizeEntries(s), fields, 3
  {
    hide EntryStep, KeyFine, Unfit;
    if g.Going? && s.Entries? {
      EntryUnfit(c, fields, unknown, g.vals, g.seen, g.errs, s.key, s.val);
      EntriesUnfit(c, fields, unknown, EntryStep(c, fields, unknown, g.vals, g.seen, g.errs, s.key, s.val), s.rest);
    }
  }

  lemma {:induction false} MissingUnfit(fields: seq<Field>, seen: set<nat>, i: nat)
    requires i <= |fields|
    ensures forall k :: 0 <= k < |Missing(fields, seen, i)| ==> Missing(fields, seen, i)[k].code == MissingField
    decreases |fields| - i
  {
    if i < |fields| {
      MissingUnfit(fields, seen, i + 1);
    }
  }

  lemma ObjectUnfit(c: Config, fields: seq<Field>, unknown: Unknown, seed: Value, x: Item)
    ensures OutUnfit(ObjectMeaning(c, fields, unknown, seed, x))
    decreases Size(x), fields, 4
  {
    hide FoldEntries, Core, MembersOf, WithDefaults, Missing;
    CoreSmaller(c.opts, x);
    var y := Core(c.opts, x);
    if y.Some? && y.value.Map? {
      EntriesUnfit(c, fields, unknown, Going(MembersOf(fields, seed), {}, []), y.value.entries);
      var g := FoldEntries(c, fields, unknown, Going(MembersOf(fields, seed), {}, []), y.value.entries);
      if g.Going? {
        MissingUnfit(fields, g.seen, 0);
      }
    }
  }

  // ---- the laws ----

  /** Decoding a well-formed item never fails as if the input were broken, whatever the type and the mode. */
  lemma WellFormedIsUnfit(c: Config, t: Ty, seed: Value, input: seq<byte>, pos: nat, depth: nat, w: Wire)
    requires Lies(c.opts, input, pos, depth, w)
    ensures pos < |input|
    ensures var r := Decode(c, t, seed, input, pos, depth); r.status.Some? ==> Unfit(r.status.value.code)
  {
    hide Decode, Meaning, Lies, Coded, TreeOf, Unfit;
    DecodeMeant(c, t, seed, input, pos, depth, w);
    MeaningUnfit(c, t, seed, TreeOf(w));
  }

  /** A collecting struct reads every well-formed object with keys it can look up to its end, whatever is wrong with its
      members. */
  lemma CollectsToTheEnd(c: Config, fields: seq<Field>, unknown: Unknown, seed: Value, input: seq<byte>, pos: nat,
                         depth: nat, form: Form, s: WireEntries)
    requires Lies(c.opts, input, pos, depth, WMap(form, s)) && c.collect
    requires KeysFine(c.opts, fields, unknown, PairTrees(s))
    ensures pos < |input|
    ensures var r := Decode(c, TStruct(fields, unknown), seed, input, pos, depth);
            r.status.None? && r.pos == pos + |Coded(WMap(form, s))|
  {
    hide Decode, FoldEntries, Lies, Coded, PairTrees, KeysFine, MembersOf, WithDefaults, Missing, BareAll;
    DecodeMeant(c, TStruct(fields, unknown), seed, input, pos, depth, WMap(form, s));
    EntriesUnfit(c, fields, unknown, Going(MembersOf(fields, seed), {}, []), PairTrees(s));
    assert TreeOf(WMap(form, s)) == Map(PairTrees(s));
  }
}
