/** In lenient mode typed decoding answers what the item means, whatever it is encoded as: every type, every loop. */
module DecodeMeans {
  import opened Bytes
  import opened Head
  import opened Utf8
  import opened Item
  import opened SkipSpec
  import opened ReadSpec
  import opened BuildSpec
  import opened BuildSteps
  import opened Wires
  import opened WireRead
  import opened WireExact
  import opened Meanings
  import opened MeaningRead

  // ---- answers without their places ----

  function Bare(e: Failure): Complaint {
    Complaint(e.code, e.path, e.truncated)
  }

  function BareAll(es: seq<Failure>): (r: seq<Complaint>)
    ensures |r| == |es|
  {
    seq(|es|, i requires 0 <= i < |es| => Bare(es[i]))
  }

  function BareStatus(s: Option<Failure>): Option<Complaint> {
    if s.Some? then Some(Bare(s.value)) else None
  }

  /** The decoder's answer, on top of what was collected before, is `m`; on success it ends at `end`. */
  ghost predicate SaysOn(was: seq<Complaint>, r: Res, m: Out, end: nat) {
    r.value == m.value && was + BareAll(r.errs) == m.errs && BareStatus(r.status) == m.status
      && (r.status.None? ==> r.pos == end)
  }

  ghost predicate Says(r: Res, m: Out, end: nat) {
    SaysOn([], r, m, end)
  }

  lemma BareJoin(a: seq<Failure>, b: seq<Failure>)
    ensures BareAll(a + b) == BareAll(a) + BareAll(b)
  {
  }

  lemma BareNothing()
    ensures BareAll([]) == []
    ensures forall s: seq<Complaint> :: s + [] == s
    ensures forall s: seq<Complaint> :: [] + s == s
  {
  }

  lemma SaysAlso(errs: seq<Failure>, r: Res, m: Out, end: nat)
    requires Says(r, m, end)
    ensures Says(Also(errs, r), Plus(BareAll(errs), m), end)
  {
    BareJoin(errs, r.errs);
    BareNothing();
  }

  lemma BarePushed(es: seq<Failure>, s: PathStep)
    ensures BareAll(PushAll(es, s)) == AllUnder(BareAll(es), s)
  {
  }

  /** One more path step in all errors, on both sides. */
  lemma SaysInside(r: Res, m: Out, end: nat, s: PathStep)
    requires Says(r, m, end)
    ensures Says(Named(r, s), Inside(m, s), end)
    ensures BareAll(PushAll(r.errs, s)) == Inside(m, s).errs
    ensures r.status.Some? <==> m.status.Some?
    ensures r.status.Some? ==> Inside(m, s).status == Some(Bare(Push(r.status.value, s)))
  {
    BarePushed(r.errs, s);
    BareNothing();
  }

  lemma SaysValue(r: Res, m: Out, end: nat, v: Value)
    requires Says(r, m, end)
    ensures Says(r.(value := v), m.(value := v), end)
  {
    hide BareAll;
  }

  lemma SaysWrong(e: Failure, v: Value, pos: nat, end: nat)
    ensures Says(Failed(e, v, pos), Wrong(Bare(e), v), end)
  {
    BareNothing();
  }

  lemma SaysRight(v: Value, end: nat)
    ensures Says(Res(None, v, end, []), Right(v), end)
  {
    BareNothing();
  }

  // ---- places ----

  ghost predicate Lenient(o: Options, input: seq<byte>) {
    !o.requireDeterministic && |input| < TWO64
  }

  /** An encoding in the input inside `depth` containers. */
  ghost predicate Lies(o: Options, input: seq<byte>, pos: nat, depth: nat, w: Wire) {
    Lenient(o, input) && Formed(o, w, o.maxDepth - depth) && At(input, pos, Coded(w))
  }

  /** The rest of an array of either form. */
  ghost predicate ItemsLie(o: Options, input: seq<byte>, pos: nat, depth: nat, form: Form, s: WireItems) {
    Lenient(o, input) && FormedItems(o, s, o.maxDepth - depth) && At(input, pos, CodedItems(s) + FormEnd(form))
  }

  ghost predicate EntriesLie(o: Options, input: seq<byte>, pos: nat, depth: nat, form: Form, s: WireEntries) {
    Lenient(o, input) && FormedEntries(o, s, o.maxDepth - depth) && At(input, pos, CodedEntries(s) + FormEnd(form))
  }

  function ItemsEnd(pos: nat, form: Form, s: WireItems): nat {
    pos + |CodedItems(s) + FormEnd(form)|
  }

  function EntriesEnd(pos: nat, form: Form, s: WireEntries): nat {
    pos + |CodedEntries(s) + FormEnd(form)|
  }

  lemma NoItemLies(o: Options, input: seq<byte>, pos: nat, depth: nat, form: Form)
    requires ItemsLie(o, input, pos, depth, form, NoWires)
    ensures pos <= |input| && CursorNext(input, pos, Remaining(form, 0)) == CursorEnd(ItemsEnd(pos, form, NoWires))
  {
    hide CursorNext, FormEnd;
    assert [] + FormEnd(form) == FormEnd(form);
    EndRead(o, input, pos, depth, form);
  }

  lemma ItemLies(o: Options, input: seq<byte>, pos: nat, depth: nat, form: Form, s: WireItems)
    requires ItemsLie(o, input, pos, depth, form, s) && s.Wires?
    ensures var p := pos + |Coded(s.head)|;
            && pos < p <= |input| && CursorNext(input, pos, Remaining(form, s.Length()))
               == CursorItem(Remaining(form, s.tail.Length()))
            && Lies(o, input, pos, depth, s.head) && ItemsLie(o, input, p, depth, form, s.tail)
            && ItemsEnd(pos, form, s) == ItemsEnd(p, form, s.tail)
  {
    hide Coded, Formed, CursorNext, FormEnd;
    ItemsParts(s, form);
    NotBreakAt(o, input, pos, s.head, o.maxDepth - depth, CodedItems(s.tail) + FormEnd(form));
    NextRead(input, pos, form, s.Length());
  }

  lemma NoEntryLies(o: Options, input: seq<byte>, pos: nat, depth: nat, form: Form)
    requires EntriesLie(o, input, pos, depth, form, NoPairs)
    ensures pos <= |input|
    ensures NextEntry(o, input, pos, depth, Remaining(form, 0), None) == EntryEnd(EntriesEnd(pos, form, NoPairs))
  {
    hide CursorNext, FormEnd;
    assert [] + FormEnd(form) == FormEnd(form);
    EndRead(o, input, pos, depth, form);
  }

  lemma EntryLies(o: Options, input: seq<byte>, pos: nat, depth: nat, form: Form, s: WireEntries)
    requires EntriesLie(o, input, pos, depth, form, s) && s.Pairs?
    ensures var p := pos + |Coded(s.key)|;
            var q := p + |Coded(s.val)|;
            && pos < p < q <= |input| && Lies(o, input, pos, depth, s.key) && Lies(o, input, p, depth, s.val)
            && NextEntry(o, input, pos, depth, Remaining(form, s.Length()), None)
               == EntryAt(Remaining(form, s.rest.Length()), None)
            && SkipItem(o, input, p, depth) == Done(q, false) && EntriesLie(o, input, q, depth, form, s.rest)
            && EntriesEnd(pos, form, s) == EntriesEnd(q, form, s.rest)
  {
    hide Coded, Formed, CursorNext, FormEnd, SkipItem;
    EntriesParts(s, form);
    var p := pos + |Coded(s.key)|;
    NotBreakAt(o, input, pos, s.key, o.maxDepth - depth, Coded(s.val) + (CodedEntries(s.rest) + FormEnd(form)));
    NotBreakAt(o, input, p, s.val, o.maxDepth - depth, CodedEntries(s.rest) + FormEnd(form));
    NextRead(input, pos, form, s.Length());
    SkipWire(o, input, p, depth, s.val);
  }

  // ---- scalars ----

  predicate IsLeaf(t: Ty) {
    t.TBool? || t.TInt? || t.TText? || t.TBytes? || t.TEnum? || t.TNamed?
  }

  lemma IntMeant(o: Options, t: IntType, seed: Value, input: seq<byte>, pos: nat, depth: nat, w: Wire)
    requires Lies(o, input, pos, depth, w)
    ensures pos < |input|
    ensures Says(DecodeInt(o, t, seed, input, pos), IntMeaning(o, t, seed, TreeOf(w)), pos + |Coded(w)|)
  {
    hide Coded, Formed, TreeOf, ExpectUInt, ExpectSInt, UIntIn, SIntIn, At;
    IntsTold(o, input, pos, w, o.maxDepth - depth);
  }

  /** The target does not matter to an integer. */
  lemma IntSeeds(o: Options, t: IntType, a: Value, b: Value, x: Item)
    ensures var m, n := IntMeaning(o, t, a, x), IntMeaning(o, t, b, x);
            && m.errs == [] && n == m.(value := if m.status.Some? then b else m.value)
            && (m.status.None? ==> m.value.VInt?)
  {
    hide SIntIn, UIntIn;
  }

  lemma TextMeant(c: Config, t: Ty, seed: Value, input: seq<byte>, pos: nat, depth: nat, w: Wire)
    requires (t.TText? || t.TNamed?) && Lies(c.opts, input, pos, depth, w)
    ensures pos < |input|
    ensures Says(Decode(c, t, seed, input, pos, depth), Meaning(c, t, seed, TreeOf(w)), pos + |Coded(w)|)
  {
    hide Coded, Formed, TreeOf, ExpectText, TextIn, At, FindNamed;
    TextTold(c.opts, input, pos, w, c.opts.maxDepth - depth);
  }

  lemma BytesMeant(c: Config, t: Ty, seed: Value, input: seq<byte>, pos: nat, depth: nat, w: Wire)
    requires (t.TBytes? || t.TBool?) && Lies(c.opts, input, pos, depth, w)
    ensures pos < |input|
    ensures Says(Decode(c, t, seed, input, pos, depth), Meaning(c, t, seed, TreeOf(w)), pos + |Coded(w)|)
  {
    hide Coded, Formed, TreeOf, ExpectBytes, BytesIn, ExpectSimple, SimpleIn, At;
    var room := c.opts.maxDepth - depth;
    if t.TBytes? {
      BytesTold(c.opts, input, pos, w, room);
    } else {
      SimpleTold(c.opts, input, pos, w, room, 20, 21);
    }
  }

  lemma EnumMeant(c: Config, t: Ty, seed: Value, input: seq<byte>, pos: nat, depth: nat, w: Wire)
    requires (t.TInt? || t.TEnum?) && Lies(c.opts, input, pos, depth, w)
    ensures pos < |input|
    ensures Says(Decode(c, t, seed, input, pos, depth), Meaning(c, t, seed, TreeOf(w)), pos + |Coded(w)|)
  {
    hide Coded, Lies, TreeOf, DecodeInt, IntMeaning;
    if t.TInt? {
      IntMeant(c.opts, t.range, seed, input, pos, depth, w);
    } else {
      IntMeant(c.opts, t.repr, VInt(0), input, pos, depth, w);
      IntSeeds(c.opts, t.repr, VInt(0), seed, TreeOf(w));
    }
  }

  lemma LeafMeant(c: Config, t: Ty, seed: Value, input: seq<byte>, pos: nat, depth: nat, w: Wire)
    requires IsLeaf(t) && Lies(c.opts, input, pos, depth, w)
    ensures pos < |input|
    ensures Says(Decode(c, t, seed, input, pos, depth), Meaning(c, t, seed, TreeOf(w)), pos + |Coded(w)|)
  {
    hide Coded, Lies, TreeOf, Decode, Meaning, Says;
    if t.TText? || t.TNamed? {
      TextMeant(c, t, seed, input, pos, depth, w);
    } else if t.TInt? || t.TEnum? {
      EnumMeant(c, t, seed, input, pos, depth, w);
    } else {
      BytesMeant(c, t, seed, input, pos, depth, w);
    }
  }

  lemma NullMeant(o: Options, seed: Value, input: seq<byte>, pos: nat, depth: nat, w: Wire)
    requires Lies(o, input, pos, depth, w)
    ensures pos < |input| && (PeekKind(o, input, pos).KNull? <==> KindOf(o, TreeOf(w)).KNull?)
    ensures KindOf(o, TreeOf(w)).KNull? ==>
              Says(DecodeNull(o, seed, input, pos), Right(VNone), pos + |Coded(w)|)
  {
    hide Coded, Formed, TreeOf, ExpectSimple, PeekKind, At;
    KindTold(o, input, pos, w, o.maxDepth - depth);
    SimpleTold(o, input, pos, w, o.maxDepth - depth, 22, if o.undefinedAsNull then 23 else 22);
  }

  // ---- sequences and tuples ----

  /** Whatever lies at its place decodes to what it means; the part of the induction on smaller encodings. */
  lemma {:induction false} ElemsMeant(c: Config, elem: Ty, done: seq<Value>, input: seq<byte>, pos: nat, depth: nat,
                                      form: Form, s: WireItems)
    requires ItemsLie(c.opts, input, pos, depth, form, s)
    ensures pos <= |input|
    ensures Says(DecodeElems(c, elem, done, input, pos, depth, Remaining(form, s.Length())),
                 ElemsMeaning(c, elem, done, WireTrees(s)), ItemsEnd(pos, form, s))
    decreases s, elem, 2
  {
    hide DecodeElems, Decode, ElemsMeaning, Meaning, ItemsLie, Lies, Coded, TreeOf, CursorNext, Also, PushAll, Says,
         Plus, Inside, ItemsEnd, Remaining;
    if s.NoWires? {
      NoItemLies(c.opts, input, pos, depth, form);
      ElemsStep(c, elem, done, input, pos, depth, Remaining(form, 0));
      SaysRight(VSeq(done), ItemsEnd(pos, form, s));
      ElemsMeaningEnds(c, elem, done);
    } else {
      ItemLies(c.opts, input, pos, depth, form, s);
      ElemsStep(c, elem, done, input, pos, depth, Remaining(form, s.Length()));
      var p := pos + |Coded(s.head)|;
      DecodeMeant(c, elem, Initial(elem), input, pos, depth, s.head);
      var r := Decode(c, elem, Initial(elem), input, pos, depth);
      var m := Meaning(c, elem, Initial(elem), TreeOf(s.head));
      ElemTurn(c, elem, done, r, m, p, pos, ItemsEnd(pos, form, s), s);
      if r.status.None? {
        SaysEnd(r, m, p);
        ElemsMeant(c, elem, done + [r.value], input, p, depth, form, s.tail);
        SaysAlso(PushAll(r.errs, Index(|done|)),
                 DecodeElems(c, elem, done + [r.value], input, p, depth, Remaining(form, s.tail.Length())),
                 ElemsMeaning(c, elem, done + [r.value], WireTrees(s.tail)), ItemsEnd(p, form, s.tail));
      }
    }
  }

  lemma SaysEnd(r: Res, m: Out, end: nat)
    requires Says(r, m, end)
    ensures r.value == m.value && (r.status.None? <==> m.status.None?) && (r.status.None? ==> r.pos == end)
  {
  }

  /** A failure with one more step, as the answer of the loop around it. */
  lemma SaysFailed(r: Res, m: Out, p: nat, s: PathStep, v: Value, pos: nat, end: nat)
    requires Says(r, m, p) && r.status.Some?
    ensures Says(Res(Some(Push(r.status.value, s)), v, pos, PushAll(r.errs, s)), Inside(m, s).(value := v), end)
  {
    hide BareAll;
    SaysInside(r, m, p, s);
    BareNothing();
  }

  lemma ElemsMeaningEnds(c: Config, elem: Ty, done: seq<Value>)
    ensures ElemsMeaning(c, elem, done, NoItems) == Right(VSeq(done))
  {
  }

  /** One element on the side of the meaning. */
  lemma ElemTurn(c: Config, elem: Ty, done: seq<Value>, r: Res, m: Out, p: nat, pos: nat, end: nat, s: WireItems)
    requires s.Wires? && Says(r, m, p) && m == Meaning(c, elem, Initial(elem), TreeOf(s.head))
    ensures var whole := ElemsMeaning(c, elem, done, WireTrees(s));
            if r.status.Some? then
              Says(Res(Some(Push(r.status.value, Index(|done|))), VSeq(done), pos, PushAll(r.errs, Index(|done|))),
                   whole, end)
            else whole == Plus(BareAll(PushAll(r.errs, Index(|done|))),
                               ElemsMeaning(c, elem, done + [r.value], WireTrees(s.tail)))
  {
    hide Meaning, PushAll, Push, AllUnder, Under, BareAll, Initial, TreeOf, Says;
    SaysInside(r, m, p, Index(|done|));
    SaysEnd(r, m, p);
    if r.status.Some? {
      SaysFailed(r, m, p, Index(|done|), VSeq(done), pos, end);
    }
  }

  /** Elements there is no room for are refused, whatever they are. */
  lemma {:induction false} SurplusMeant(o: Options, off: nat, input: seq<byte>, pos: nat, depth: nat, form: Form,
                                        s: WireItems)
    requires ItemsLie(o, input, pos, depth, form, s)
    ensures pos <= |input|
    ensures SkipSurplus(o, off, input, pos, depth, Remaining(form, s.Length())) == Error(TypeMismatch, off)
    decreases s
  {
    hide SkipSurplus, SkipItem, ItemsLie, Lies, Coded, CursorNext, ItemsEnd, Remaining;
    if s.NoWires? {
      NoItemLies(o, input, pos, depth, form);
      SurplusEnds(o, off, input, pos, depth, Remaining(form, 0));
    } else {
      ItemLies(o, input, pos, depth, form, s);
      SkipLies(o, input, pos, depth, s.head);
      SurplusStep(o, off, input, pos, depth, Remaining(form, s.Length()));
      SurplusMeant(o, off, input, pos + |Coded(s.head)|, depth, form, s.tail);
    }
  }

  lemma SurplusEnds(o: Options, off: nat, input: seq<byte>, pos: nat, depth: nat, remaining: Option<nat>)
    requires pos <= |input| && CursorNext(input, pos, remaining).CursorEnd?
    ensures SkipSurplus(o, off, input, pos, depth, remaining) == Error(TypeMismatch, off)
  {
  }

  lemma SkipLies(o: Options, input: seq<byte>, pos: nat, depth: nat, w: Wire)
    requires Lies(o, input, pos, depth, w) && pos <= |input|
    ensures SkipItem(o, input, pos, depth) == Done(pos + |Coded(w)|, false)
  {
    hide SkipItem, Coded, Formed;
    SkipWire(o, input, pos, depth, w);
  }

  lemma {:induction false} PlacesMeant(c: Config, elems: seq<Ty>, off: nat, vals: seq<Value>, i: nat,
                                       input: seq<byte>, pos: nat, depth: nat, form: Form, s: WireItems)
    requires ItemsLie(c.opts, input, pos, depth, form, s) && |vals| == |elems| && i <= |elems|
    ensures pos <= |input|
    ensures Says(DecodeItems(c, elems, off, vals, i, input, pos, depth, Remaining(form, s.Length())),
                 PlacesMeaning(c, elems, vals, i, WireTrees(s)), ItemsEnd(pos, form, s))
    decreases s, elems, 2
  {
    hide DecodeItems, Decode, PlacesMeaning, Meaning, ItemsLie, Lies, Coded, TreeOf, CursorNext, Also, PushAll, Says,
         Plus, Inside, ItemsEnd, Remaining, SkipSurplus, Failed, Fresh, Wrong;
    var end := ItemsEnd(pos, form, s);
    if s.NoWires? {
      NoItemLies(c.opts, input, pos, depth, form);
      PlacesEnd(c, elems, vals, i, NoWires);
      WrongPlaces(off, vals, pos, end);
      SaysRight(VSeq(vals), end);
      if i == |elems| {
        ItemsDone(c, elems, off, vals, input, pos, depth, Remaining(form, 0));
      } else {
        ItemsStep(c, elems, off, vals, i, input, pos, depth, Remaining(form, 0));
      }
    } else {
      ItemLies(c.opts, input, pos, depth, form, s);
      if i == |elems| {
        SurplusMeant(c.opts, off, input, pos, depth, form, s);
        ItemsDone(c, elems, off, vals, input, pos, depth, Remaining(form, s.Length()));
        PlacesEnd(c, elems, vals, i, s);
        WrongPlaces(off, vals, pos, end);
      } else {
        ItemsStep(c, elems, off, vals, i, input, pos, depth, Remaining(form, s.Length()));
        var p := pos + |Coded(s.head)|;
        DecodeMeant(c, elems[i], vals[i], input, pos, depth, s.head);
        var r := Decode(c, elems[i], vals[i], input, pos, depth);
        var m := Meaning(c, elems[i], vals[i], TreeOf(s.head));
        PlaceTurn(c, elems, vals, i, r, m, p, pos, end, s);
        if r.status.None? {
          SaysEnd(r, m, p);
          PlacesMeant(c, elems, off, vals[i := r.value], i + 1, input, p, depth, form, s.tail);
          SaysAlso(PushAll(r.errs, Index(i)),
                   DecodeItems(c, elems, off, vals[i := r.value], i + 1, input, p, depth,
                               Remaining(form, s.tail.Length())),
                   PlacesMeaning(c, elems, vals[i := r.value], i + 1, WireTrees(s.tail)), ItemsEnd(p, form, s.tail));
        }
      }
    }
  }

  lemma PlacesEnd(c: Config, elems: seq<Ty>, vals: seq<Value>, i: nat, s: WireItems)
    requires |vals| == |elems| && i <= |elems| && (s.NoWires? || i == |elems|)
    ensures PlacesMeaning(c, elems, vals, i, WireTrees(s))
            == if s.NoWires? && i == |elems| then Right(VSeq(vals)) else Wrong(Syntactic(TypeMismatch), VSeq(vals))
  {
    hide TreeOf;
  }

  lemma WrongPlaces(off: nat, vals: seq<Value>, pos: nat, end: nat)
    ensures Says(Failed(Fresh(Error(TypeMismatch, off)), VSeq(vals), pos),
                 Wrong(Syntactic(TypeMismatch), VSeq(vals)), end)
  {
    SaysWrong(Fresh(Error(TypeMismatch, off)), VSeq(vals), pos, end);
  }

  lemma PlaceTurn(c: Config, elems: seq<Ty>, vals: seq<Value>, i: nat, r: Res, m: Out, p: nat, pos: nat, end: nat,
                  s: WireItems)
    requires |vals| == |elems| && i < |elems| && s.Wires? && Says(r, m, p)
    requires m == Meaning(c, elems[i], vals[i], TreeOf(s.head))
    ensures var whole := PlacesMeaning(c, elems, vals, i, WireTrees(s));
            if r.status.Some? then
              Says(Res(Some(Push(r.status.value, Index(i))), VSeq(vals[i := r.value]), pos, PushAll(r.errs, Index(i))),
                   whole, end)
            else whole == Plus(BareAll(PushAll(r.errs, Index(i))),
                               PlacesMeaning(c, elems, vals[i := r.value], i + 1, WireTrees(s.tail)))
  {
    hide Meaning, PushAll, Push, AllUnder, Under, BareAll, TreeOf, Says;
    SaysInside(r, m, p, Index(i));
    SaysEnd(r, m, p);
    if r.status.Some? {
      SaysFailed(r, m, p, Index(i), VSeq(vals[i := r.value]), pos, end);
    }
  }

  // ---- maps ----

  lemma ParseKeyAnywhere(t: IntType, s: seq<byte>, off: nat)
    ensures var a, b := ParseKey(t, s, off), ParseKey(t, s, 0);
            if b.Missed? then a.Missed? && a.error.code == b.error.code else a == b
  {
    hide Digits;
  }

  lemma MapKeyTold(o: Options, keys: KeyType, input: seq<byte>, pos: nat, depth: nat, w: Wire)
    requires Lies(o, input, pos, depth, w)
    ensures pos < |input|
    ensures Tells(MapKeyAt(o, keys, input, pos), MapKeyIn(o, keys, TreeOf(w)), pos + |Coded(w)|)
  {
    hide Coded, Formed, TreeOf, ExpectText, ExpectUInt, ExpectSInt, TextIn, UIntIn, SIntIn, KindOf, PeekKind, ParseKey,
         At;
    var room := o.maxDepth - depth;
    KindTold(o, input, pos, w, room);
    TextTold(o, input, pos, w, room);
    IntsTold(o, input, pos, w, room);
    var s := TextIn(o, TreeOf(w));
    if s.Seen? && keys.IntKeys? {
      ParseKeyAnywhere(keys.range, s.value, pos);
    }
  }

  /** `whole` stops where `out` is the answer, on top of what was collected before. */
  ghost predicate StopsAs(was: seq<Complaint>, whole: Res, out: Out) {
    whole.status.Some? && SaysOn(was, whole, out, 0)
  }

  lemma StopsFresh(was: seq<Complaint>, e: Failure, v: Value, pos: nat)
    ensures StopsAs(was, Failed(e, v, pos), Out(Some(Bare(e)), v, was))
  {
    BareNothing();
  }

  /** The place of the entry behind the first. */
  function Behind(pos: nat, s: WireEntries): nat
    requires s.Pairs?
  {
    pos + |Coded(s.key)| + |Coded(s.val)|
  }

  /** decode_map in front of the entries `s`. */
  ghost function MapLoop(c: Config, keys: KeyType, unique: bool, elem: Ty, done: seq<Pair>, input: seq<byte>, pos: nat,
                         depth: nat, form: Form, s: WireEntries): Res
    requires pos <= |input|
  {
    DecodeEntries(c, keys, unique, elem, done, input, pos, depth, Remaining(form, s.Length()), None)
  }

  ghost function PairOf(c: Config, keys: KeyType, unique: bool, elem: Ty, done: seq<Pair>, was: seq<Complaint>,
                        s: WireEntries): Filling
    requires s.Pairs?
  {
    PairStep(c, keys, unique, elem, done, was, TreeOf(s.key), TreeOf(s.val))
  }

  /** The value of an entry, a new one or again into the one that was found. */
  lemma PairValueTurn(c: Config, keys: KeyType, unique: bool, elem: Ty, done: seq<Pair>, was: seq<Complaint>,
                      input: seq<byte>, pos: nat, depth: nat, form: Form, s: WireEntries, key: MapKey,
                      found: Option<nat>) returns (errs: seq<Failure>)
    requires EntriesLie(c.opts, input, pos, depth, form, s) && s.Pairs? && (found.Some? ==> found.value < |done|)
    ensures pos + |Coded(s.key)| < Behind(pos, s) <= |input|
    ensures var whole := DecodeEntry(c, keys, unique, elem, done, input, pos + |Coded(s.key)|, depth,
                                     Remaining(form, s.rest.Length()), None, key, found);
            var seed := if found.Some? then done[found.value].val else Initial(elem);
            var m := Inside(Meaning(c, elem, seed, TreeOf(s.val)), StepOf(key));
            var p := Pair(key, m.value);
            var next := if found.Some? then done[found.value := p] else done + [p];
            if m.status.Some? then StopsAs(was, whole, Out(m.status, VMap(done), was + m.errs))
            else m.errs == BareAll(errs)
                 && whole == Also(errs, MapLoop(c, keys, unique, elem, next, input, Behind(pos, s), depth, form,
                                                s.rest))
    decreases s, elem, 1
  {
    hide DecodeEntries, Decode, DecodeEntry, Meaning, EntriesLie, Lies, Coded, TreeOf, NextEntry, Also, PushAll, Says,
         Inside, Remaining, SkipItem, StopsAs, StepOf, Push, Initial, BareAll;
    EntryLies(c.opts, input, pos, depth, form, s);
    var p, left := pos + |Coded(s.key)|, Remaining(form, s.rest.Length());
    var seed := if found.Some? then done[found.value].val else Initial(elem);
    DecodeMeant(c, elem, seed, input, p, depth, s.val);
    var r, m := Decode(c, elem, seed, input, p, depth), Meaning(c, elem, seed, TreeOf(s.val));
    SaysEnd(r, m, Behind(pos, s));
    SaysInside(r, m, Behind(pos, s), StepOf(key));
    EntryIs(c, keys, unique, elem, done, input, p, depth, left, None, key, found);
    InsideKeeps(m, StepOf(key));
    errs := PushAll(r.errs, StepOf(key));
    if r.status.Some? {
      StopsWith(was, Push(r.status.value, StepOf(key)), VMap(done), p, errs);
    }
  }

  /** One entry of a map: the loop stops as the meaning says, or goes on with the other entries. */
  lemma PairTurn(c: Config, keys: KeyType, unique: bool, elem: Ty, done: seq<Pair>, was: seq<Complaint>,
                 input: seq<byte>, pos: nat, depth: nat, form: Form, s: WireEntries) returns (errs: seq<Failure>)
    requires EntriesLie(c.opts, input, pos, depth, form, s) && s.Pairs?
    ensures pos <= Behind(pos, s) <= |input|
    ensures var whole, f := MapLoop(c, keys, unique, elem, done, input, pos, depth, form, s),
                            PairOf(c, keys, unique, elem, done, was, s);
            if f.Halted? then StopsAs(was, whole, f.out)
            else f.errs == was + BareAll(errs)
                 && whole == Also(errs, MapLoop(c, keys, unique, elem, f.done, input, Behind(pos, s), depth, form,
                                                s.rest))
    decreases s, elem, 2
  {
    hide DecodeEntries, Decode, DecodeEntry, SkipEntry, Meaning, EntriesLie, Lies, Coded, TreeOf, NextEntry, Also,
         PushAll, Says, Inside, Remaining, SkipItem, StopsAs, MapKeyAt, MapKeyIn, FindEntry, StepOf, Push, Initial;
    errs := [];
    BareNothing();
    EntryLies(c.opts, input, pos, depth, form, s);
    var p, left := pos + |Coded(s.key)|, Remaining(form, s.rest.Length());
    MapKeyStep(c, keys, unique, elem, done, input, pos, depth, Remaining(form, s.Length()), None);
    MapKeyTold(c.opts, keys, input, pos, depth, s.key);
    var key := MapKeyAt(c.opts, keys, input, pos);
    if key.Missed? {
      StopsFresh(was, Fresh(key.error), VMap(done), pos);
    } else {
      var found := Earlier(unique, done, key.value);
      if found.Some? && c.duplicates.ErrorOnDuplicate? {
        StopsFresh(was, Push(Failure(DuplicateKey, pos, [], false), StepOf(key.value)), VMap(done), pos);
        OneStep(DuplicateKey, pos, StepOf(key.value));
      } else if found.Some? && c.duplicates.FirstWins? {
        SkipEntryStep(c, keys, unique, elem, done, input, p, depth, left, None);
        AlsoNothing(MapLoop(c, keys, unique, elem, done, input, Behind(pos, s), depth, form, s.rest));
      } else {
        errs := PairValueTurn(c, keys, unique, elem, done, was, input, pos, depth, form, s, key.value, found);
      }
    }
  }

  lemma OneStep(code: Code, pos: nat, s: PathStep)
    ensures Bare(Push(Failure(code, pos, [], false), s)) == Complaint(code, [s], false)
  {
    assert [] + [s] == [s];
  }

  lemma InsideKeeps(m: Out, s: PathStep)
    ensures Inside(m, s).value == m.value && Inside(m, s).status.Some? == m.status.Some?
  {
  }

  lemma StopsWith(was: seq<Complaint>, e: Failure, v: Value, pos: nat, errs: seq<Failure>)
    ensures StopsAs(was, Res(Some(e), v, pos, errs), Out(Some(Bare(e)), v, was + BareAll(errs)))
  {
  }

  lemma SaysOnAlso(was: seq<Complaint>, errs: seq<Failure>, r: Res, m: Out, end: nat)
    requires SaysOn(was + BareAll(errs), r, m, end)
    ensures SaysOn(was, Also(errs, r), m, end)
  {
    BareJoin(errs, r.errs);
    assert was + BareAll(errs) + BareAll(r.errs) == was + (BareAll(errs) + BareAll(r.errs));
  }

  lemma StopsSays(was: seq<Complaint>, r: Res, m: Out, end: nat)
    requires StopsAs(was, r, m)
    ensures SaysOn(was, r, m, end)
  {
  }

  lemma {:induction false} PairsMeant(c: Config, keys: KeyType, unique: bool, elem: Ty, done: seq<Pair>,
                                      was: seq<Complaint>, input: seq<byte>, pos: nat, depth: nat, form: Form,
                                      s: WireEntries)
    requires EntriesLie(c.opts, input, pos, depth, form, s)
    ensures pos <= |input|
    ensures SaysOn(was, MapLoop(c, keys, unique, elem, done, input, pos, depth, form, s),
                   MapEnd(FoldPairs(c, keys, unique, elem, Adding(done, was), PairTrees(s))),
                   EntriesEnd(pos, form, s))
    decreases s, elem, 3
  {
    hide DecodeEntries, PairStep, MapLoop, EntriesLie, Lies, Coded, TreeOf, NextEntry, Also, SaysOn, Remaining, StopsAs,
         EntriesEnd, Behind, FoldPairs, PairTrees;
    FoldPairsStep(c, keys, unique, elem, Adding(done, was), s);
    if s.NoPairs? {
      NoEntryLies(c.opts, input, pos, depth, form);
      MapLoopEnds(c, keys, unique, elem, done, was, input, pos, depth, form);
    } else {
      var f := PairOf(c, keys, unique, elem, done, was, s);
      var errs := PairTurn(c, keys, unique, elem, done, was, input, pos, depth, form, s);
      EntryLies(c.opts, input, pos, depth, form, s);
      EndsBehind(c.opts, input, pos, depth, form, s);
      var whole := MapLoop(c, keys, unique, elem, done, input, pos, depth, form, s);
      if f.Halted? {
        FoldPairsHalted(c, keys, unique, elem, f, s.rest);
        StopsSays(was, whole, f.out, EntriesEnd(pos, form, s));
      } else {
        PairsMeant(c, keys, unique, elem, f.done, f.errs, input, Behind(pos, s), depth, form, s.rest);
        SaysOnAlso(was, errs, MapLoop(c, keys, unique, elem, f.done, input, Behind(pos, s), depth, form, s.rest),
                   MapEnd(FoldPairs(c, keys, unique, elem, f, PairTrees(s.rest))), EntriesEnd(pos, form, s));
      }
    }
  }

  lemma EndsBehind(o: Options, input: seq<byte>, pos: nat, depth: nat, form: Form, s: WireEntries)
    requires EntriesLie(o, input, pos, depth, form, s) && s.Pairs?
    ensures pos < Behind(pos, s) <= |input| && EntriesLie(o, input, Behind(pos, s), depth, form, s.rest)
    ensures EntriesEnd(pos, form, s) == EntriesEnd(Behind(pos, s), form, s.rest)
  {
    hide Coded, EntriesLie, EntriesEnd, Lies, NextEntry, SkipItem;
    EntryLies(o, input, pos, depth, form, s);
  }

  lemma FoldPairsStep(c: Config, keys: KeyType, unique: bool, elem: Ty, f: Filling, s: WireEntries)
    requires f.Adding?
    ensures FoldPairs(c, keys, unique, elem, f, PairTrees(s))
         == if s.NoPairs? then f
            else FoldPairs(c, keys, unique, elem, PairOf(c, keys, unique, elem, f.done, f.errs, s), PairTrees(s.rest))
  {
    hide PairStep, TreeOf;
  }

  lemma FoldPairsHalted(c: Config, keys: KeyType, unique: bool, elem: Ty, f: Filling, s: WireEntries)
    requires f.Halted?
    ensures FoldPairs(c, keys, unique, elem, f, PairTrees(s)) == f
  {
  }

  lemma MapLoopEnds(c: Config, keys: KeyType, unique: bool, elem: Ty, done: seq<Pair>, was: seq<Complaint>,
                    input: seq<byte>, pos: nat, depth: nat, form: Form)
    requires pos <= |input|
    requires NextEntry(c.opts, input, pos, depth, Remaining(form, 0), None) == EntryEnd(EntriesEnd(pos, form, NoPairs))
    ensures SaysOn(was, MapLoop(c, keys, unique, elem, done, input, pos, depth, form, NoPairs),
                   Out(None, VMap(done), was), EntriesEnd(pos, form, NoPairs))
  {
    hide DecodeEntries, NextEntry, Remaining, EntriesEnd;
    EntriesStep(c, keys, unique, elem, done, input, pos, depth, Remaining(form, 0), None);
    BareNothing();
  }

  // ---- structs ----

  lemma MemberKeyTold(o: Options, fields: seq<Field>, input: seq<byte>, pos: nat, depth: nat, w: Wire)
    requires Lies(o, input, pos, depth, w)
    ensures pos < |input|
    ensures var k, m, end := MemberKeyAt(o, fields, input, pos), MemberKeyIn(o, fields, TreeOf(w)), pos + |Coded(w)|;
            if m.NoKeyIn? then k.BadKey? && k.error.code == m.code
            else if m.HugeIn? then k == HugeKey(m.k, end)
            else k == FoundKey(m.member, m.step, end)
  {
    hide Coded, Formed, TreeOf, ExpectText, ExpectUInt, ExpectSInt, TextIn, UIntIn, KindOf, PeekKind,
         At, FindName, FindKey, AnyIntKeys, Answers;
    var room := o.maxDepth - depth;
    KindTold(o, input, pos, w, room);
    TextTold(o, input, pos, w, room);
    IntsTold(o, input, pos, w, room);
  }

  /** decode_struct in front of the entries `s`. */
  ghost function StructLoop(c: Config, fields: seq<Field>, unknown: Unknown, objOff: nat, vals: seq<Value>,
                            seen: set<nat>, input: seq<byte>, pos: nat, depth: nat, form: Form, s: WireEntries): Res
    requires pos <= |input| && |vals| == |fields|
  {
    DecodeMembers(c, fields, unknown, objOff, vals, seen, input, pos, depth, Remaining(form, s.Length()), None)
  }

  ghost function EntryOf(c: Config, fields: seq<Field>, unknown: Unknown, vals: seq<Value>, seen: set<nat>,
                         was: seq<Complaint>, s: WireEntries): (g: Going)
    requires s.Pairs? && |vals| == |fields|
    ensures g.Going? ==> |g.vals| == |fields|
  {
    EntryStep(c, fields, unknown, vals, seen, was, TreeOf(s.key), TreeOf(s.val))
  }

  /** One entry of an object: the loop stops as the meaning says, or goes on with the other entries. */
  ghost predicate TurnSays(c: Config, fields: seq<Field>, unknown: Unknown, objOff: nat, was: seq<Complaint>,
                           input: seq<byte>, pos: nat, depth: nat, form: Form, s: WireEntries, whole: Res, g: Going,
                           errs: seq<Failure>)
    requires s.Pairs? && Behind(pos, s) <= |input| && (g.Going? ==> |g.vals| == |fields|)
  {
    if g.Stopped? then StopsAs(was, whole, g.out)
    else g.errs == was + BareAll(errs)
         && whole == Also(errs, StructLoop(c, fields, unknown, objOff, g.vals, g.seen, input, Behind(pos, s), depth,
                                           form, s.rest))
  }

  /** An entry whose value is skipped. */
  lemma SkipTurn(c: Config, fields: seq<Field>, unknown: Unknown, objOff: nat, vals: seq<Value>, seen: set<nat>,
                 input: seq<byte>, pos: nat, depth: nat, form: Form, s: WireEntries)
    requires EntriesLie(c.opts, input, pos, depth, form, s) && s.Pairs? && |vals| == |fields|
    ensures pos < pos + |Coded(s.key)| < Behind(pos, s) <= |input|
    ensures SkipThen(c, fields, unknown, objOff, vals, seen, input, pos + |Coded(s.key)|, depth,
                     Remaining(form, s.rest.Length()), None)
         == StructLoop(c, fields, unknown, objOff, vals, seen, input, Behind(pos, s), depth, form, s.rest)
  {
    hide DecodeMembers, SkipThen, EntriesLie, Lies, Coded, NextEntry, SkipItem, Remaining;
    EntryLies(c.opts, input, pos, depth, form, s);
    SkipStep(c, fields, unknown, objOff, vals, seen, input, pos + |Coded(s.key)|, depth,
             Remaining(form, s.rest.Length()), None);
  }

  /** An entry that is decoded into member `m`. */
  lemma IntoTurn(c: Config, fields: seq<Field>, unknown: Unknown, objOff: nat, vals: seq<Value>, seen: set<nat>,
                 was: seq<Complaint>, input: seq<byte>, pos: nat, depth: nat, form: Form, s: WireEntries, m: nat,
                 g: Going) returns (errs: seq<Failure>)
    requires EntriesLie(c.opts, input, pos, depth, form, s) && s.Pairs? && |vals| == |fields| && m < |fields|
    requires var f := fields[m];
             var r := Inside(Meaning(c, f.ty, vals[m], TreeOf(s.val)), Member(f.ident));
             var vals', seen' := vals[m := r.value], seen + {m};
             g == if r.status.None? then Going(vals', seen', was + r.errs)
                  else if IsSyntax(r.status.value.code) then Stopped(Out(r.status, VStruct(vals'), was + r.errs))
                  else Complain(c, r.status.value, vals', seen', was + r.errs)
    ensures pos + |Coded(s.key)| < Behind(pos, s) <= |input|
    ensures TurnSays(c, fields, unknown, objOff, was, input, pos, depth, form, s,
                     DecodeMember(c, fields, unknown, objOff, vals, seen, input, pos + |Coded(s.key)|, depth,
                                  Remaining(form, s.rest.Length()), None, m), g, errs)
    decreases s, fields, 1
  {
    hide DecodeMembers, DecodeMember, Decode, Meaning, EntriesLie, Lies, Coded, TreeOf, NextEntry, SkipItem, Remaining,
         SkipThen, Also, PushAll, Push, Says, Inside, StopsAs, IsSyntax;
    EntryLies(c.opts, input, pos, depth, form, s);
    var p, left, f := pos + |Coded(s.key)|, Remaining(form, s.rest.Length()), fields[m];
    MemberStep(c, fields, unknown, objOff, vals, seen, input, p, depth, left, None, m);
    DecodeMeant(c, f.ty, vals[m], input, p, depth, s.val);
    var r, x := Decode(c, f.ty, vals[m], input, p, depth), Meaning(c, f.ty, vals[m], TreeOf(s.val));
    SaysEnd(r, x, Behind(pos, s));
    SaysInside(r, x, Behind(pos, s), Member(f.ident));
    InsideKeeps(x, Member(f.ident));
    errs := PushAll(r.errs, Member(f.ident));
    var vals', seen' := vals[m := r.value], seen + {m};
    if r.status.Some? {
      var e := Push(r.status.value, Member(f.ident));
      StopsWith(was, e, VStruct(vals'), p, errs);
      SkipTurn(c, fields, unknown, objOff, vals', seen', input, pos, depth, form, s);
      if c.collect && !IsSyntax(e.code) {
        OneMore(was, errs, e);
        errs := errs + [e];
      }
    }
  }

  lemma OneMore(was: seq<Complaint>, errs: seq<Failure>, e: Failure)
    ensures was + BareAll(errs + [e]) == was + BareAll(errs) + [Bare(e)]
  {
    BareJoin(errs, [e]);
  }

  /** An entry that is reported at its key: the error, and on with the other entries if errors are collected. */
  lemma ReportTurn(c: Config, fields: seq<Field>, unknown: Unknown, objOff: nat, vals: seq<Value>, seen: set<nat>,
                   was: seq<Complaint>, input: seq<byte>, pos: nat, depth: nat, form: Form, s: WireEntries, code: Code,
                   step: PathStep) returns (errs: seq<Failure>)
    requires EntriesLie(c.opts, input, pos, depth, form, s) && s.Pairs? && |vals| == |fields|
    ensures pos + |Coded(s.key)| < Behind(pos, s) <= |input|
    ensures var e := Push(Failure(code, pos, [], false), step);
            && Bare(e) == Complaint(code, [step], false) && errs == (if c.collect then [e] else [])
            && TurnSays(c, fields, unknown, objOff, was, input, pos, depth, form, s,
                        MemberOutcome(c, fields, unknown, objOff, vals, seen, input, pos + |Coded(s.key)|, depth,
                                      Remaining(form, s.rest.Length()), None, Todo.Report(e)),
                        Complain(c, Complaint(code, [step], false), vals, seen, was), errs)
  {
    hide DecodeMembers, SkipThen, EntriesLie, Coded, Remaining, Also, Push, StopsAs;
    var e := Push(Failure(code, pos, [], false), step);
    OneStep(code, pos, step);
    SkipTurn(c, fields, unknown, objOff, vals, seen, input, pos, depth, form, s);
    StopsFresh(was, e, VStruct(vals), pos + |Coded(s.key)|);
    errs := if c.collect then [e] else [];
    OneMore(was, [], e);
    BareNothing();
  }

  lemma EntryTurn(c: Config, fields: seq<Field>, unknown: Unknown, objOff: nat, vals: seq<Value>, seen: set<nat>,
                  was: seq<Complaint>, input: seq<byte>, pos: nat, depth: nat, form: Form, s: WireEntries)
    returns (errs: seq<Failure>)
    requires EntriesLie(c.opts, input, pos, depth, form, s) && s.Pairs? && |vals| == |fields|
    ensures pos < Behind(pos, s) <= |input|
    ensures TurnSays(c, fields, unknown, objOff, was, input, pos, depth, form, s,
                     StructLoop(c, fields, unknown, objOff, vals, seen, input, pos, depth, form, s),
                     EntryOf(c, fields, unknown, vals, seen, was, s), errs)
    decreases s, fields, 2
  {
    hide DecodeMembers, Meaning, EntriesLie, Lies, Coded, TreeOf, NextEntry, Also, Inside, Remaining, SkipItem, StopsAs,
         MemberKeyAt, MemberKeyIn, Push, TurnSays, IsSyntax, DecodeMember, SkipThen, MemberOutcome, Complain, PushAll;
    errs := [];
    BareNothing();
    EntryLies(c.opts, input, pos, depth, form, s);
    var p, left := pos + |Coded(s.key)|, Remaining(form, s.rest.Length());
    MembersStep(c, fields, unknown, objOff, vals, seen, input, pos, depth, Remaining(form, s.Length()), None);
    MemberKeyTold(c.opts, fields, input, pos, depth, s.key);
    SkipTurn(c, fields, unknown, objOff, vals, seen, input, pos, depth, form, s);
    var key := MemberKeyAt(c.opts, fields, input, pos);
    if key.BadKey? {
      FailTurn(c, fields, unknown, objOff, was, input, pos, depth, form, s, Fresh(key.error), vals, pos);
    } else if key.HugeKey? {
      if unknown.refuse {
        OneStep(UnknownField, pos, KeyInt(key.k));
        FailTurn(c, fields, unknown, objOff, was, input, pos, depth, form, s,
                 Push(Failure(UnknownField, pos, [], false), KeyInt(key.k)), vals, pos);
      } else {
        GoesOn(c, fields, unknown, objOff, vals, seen, was, input, pos, depth, form, s);
      }
    } else {
      var todo := EntryTodo(c, fields, unknown, seen, pos, key);
      if todo.Report? {
        errs := ReportTurn(c, fields, unknown, objOff, vals, seen, was, input, pos, depth, form, s,
                           if key.member.None? then UnknownField else DuplicateKey, key.step);
      } else if todo.SkipOver? {
        OutcomeIs(c, fields, unknown, objOff, vals, seen, input, p, depth, left, todo);
        GoesOn(c, fields, unknown, objOff, vals, seen, was, input, pos, depth, form, s);
      } else {
        OutcomeIs(c, fields, unknown, objOff, vals, seen, input, p, depth, left, todo);
        errs := IntoTurn(c, fields, unknown, objOff, vals, seen, was, input, pos, depth, form, s, todo.member,
                         EntryOf(c, fields, unknown, vals, seen, was, s));
      }
    }
  }

  lemma OutcomeIs(c: Config, fields: seq<Field>, unknown: Unknown, objOff: nat, vals: seq<Value>, seen: set<nat>,
                  input: seq<byte>, p: nat, depth: nat, left: Option<nat>, todo: Todo)
    requires p <= |input| && |vals| == |fields| && (todo.Into? ==> todo.member < |fields|)
    ensures var whole := MemberOutcome(c, fields, unknown, objOff, vals, seen, input, p, depth, left, None, todo);
            && (todo.Into? ==>
                  whole == DecodeMember(c, fields, unknown, objOff, vals, seen, input, p, depth, left, None,
                                        todo.member))
            && (todo.SkipOver? ==>
                  whole == SkipThen(c, fields, unknown, objOff, vals, seen, input, p, depth, left, None))
  {
    hide DecodeMember, SkipThen;
  }

  lemma FailTurn(c: Config, fields: seq<Field>, unknown: Unknown, objOff: nat, was: seq<Complaint>,
                 input: seq<byte>, pos: nat, depth: nat, form: Form, s: WireEntries, e: Failure, vals: seq<Value>,
                 p: nat)
    requires s.Pairs? && Behind(pos, s) <= |input|
    ensures TurnSays(c, fields, unknown, objOff, was, input, pos, depth, form, s, Failed(e, VStruct(vals), p),
                     Stopped(Out(Some(Bare(e)), VStruct(vals), was)), [])
  {
    StopsFresh(was, e, VStruct(vals), p);
  }

  lemma GoesOn(c: Config, fields: seq<Field>, unknown: Unknown, objOff: nat, vals: seq<Value>, seen: set<nat>,
               was: seq<Complaint>, input: seq<byte>, pos: nat, depth: nat, form: Form, s: WireEntries)
    requires s.Pairs? && Behind(pos, s) <= |input| && |vals| == |fields|
    ensures TurnSays(c, fields, unknown, objOff, was, input, pos, depth, form, s,
                     StructLoop(c, fields, unknown, objOff, vals, seen, input, Behind(pos, s), depth, form, s.rest),
                     Going(vals, seen, was), [])
  {
    hide DecodeMembers;
    BareNothing();
    AlsoNothing(StructLoop(c, fields, unknown, objOff, vals, seen, input, Behind(pos, s), depth, form, s.rest));
  }

  // ---- entries in front of others ----

  function Join(a: WireEntries, b: WireEntries): WireEntries {
    if a.NoPairs? then b else Pairs(a.key, a.val, Join(a.rest, b))
  }

  lemma {:induction false} JoinNothing(a: WireEntries)
    ensures Join(a, NoPairs) == a
    decreases a
  {
    if a.Pairs? {
      JoinNothing(a.rest);
    }
  }

  /** The place behind the entries of `front`. */
  function After(pos: nat, front: WireEntries): nat {
    pos + |CodedEntries(front)|
  }

  lemma AfterStep(pos: nat, front: WireEntries)
    requires front.Pairs?
    ensures After(pos, front) == After(Behind(pos, front), front.rest)
    ensures Behind(pos, front) == Behind(pos, Pairs(front.key, front.val, NoPairs))
  {
    hide Coded;
  }

  ghost function FoldOf(c: Config, fields: seq<Field>, unknown: Unknown, vals: seq<Value>, seen: set<nat>,
                        was: seq<Complaint>, front: WireEntries): (g: Going)
    requires |vals| == |fields|
    ensures g.Going? ==> |g.vals| == |fields|
  {
    FoldEntries(c, fields, unknown, Going(vals, seen, was), PairTrees(front))
  }

  lemma FoldStep(c: Config, fields: seq<Field>, unknown: Unknown, vals: seq<Value>, seen: set<nat>,
                 was: seq<Complaint>, s: WireEntries)
    requires |vals| == |fields|
    ensures var whole := FoldOf(c, fields, unknown, vals, seen, was, s);
            if s.NoPairs? then whole == Going(vals, seen, was)
            else
              var g := EntryOf(c, fields, unknown, vals, seen, was, s);
              whole == if g.Stopped? then g else FoldOf(c, fields, unknown, g.vals, g.seen, g.errs, s.rest)
  {
    hide EntryStep, TreeOf;
    if s.Pairs? && EntryOf(c, fields, unknown, vals, seen, was, s).Stopped? {
      FoldStopped(c, fields, unknown, EntryOf(c, fields, unknown, vals, seen, was, s), PairTrees(s.rest));
    }
  }

  lemma FoldStopped(c: Config, fields: seq<Field>, unknown: Unknown, g: Going, s: Entries)
    requires g.Stopped?
    ensures FoldEntries(c, fields, unknown, g, s) == g
  {
  }

  /** The loop stops among the entries of `front`, or goes on behind them. */
  ghost predicate FrontSays(c: Config, fields: seq<Field>, unknown: Unknown, objOff: nat, was: seq<Complaint>,
                            input: seq<byte>, end: nat, depth: nat, form: Form, back: WireEntries, whole: Res, g: Going,
                            errs: seq<Failure>)
    requires end <= |input| && (g.Going? ==> |g.vals| == |fields|)
  {
    if g.Stopped? then StopsAs(was, whole, g.out)
    else g.errs == was + BareAll(errs)
         && whole == Also(errs, StructLoop(c, fields, unknown, objOff, g.vals, g.seen, input, end, depth, form, back))
  }

  lemma {:induction false} FrontTurn(c: Config, fields: seq<Field>, unknown: Unknown, objOff: nat, vals: seq<Value>,
                                     seen: set<nat>, was: seq<Complaint>, input: seq<byte>, pos: nat, depth: nat,
                                     form: Form, front: WireEntries, back: WireEntries) returns (errs: seq<Failure>)
    requires EntriesLie(c.opts, input, pos, depth, form, Join(front, back)) && |vals| == |fields|
    ensures pos <= After(pos, front) <= |input|
            && EntriesLie(c.opts, input, After(pos, front), depth, form, back)
            && EntriesEnd(pos, form, Join(front, back)) == EntriesEnd(After(pos, front), form, back)
    ensures FrontSays(c, fields, unknown, objOff, was, input, After(pos, front), depth, form, back,
                      StructLoop(c, fields, unknown, objOff, vals, seen, input, pos, depth, form, Join(front, back)),
                      FoldOf(c, fields, unknown, vals, seen, was, front), errs)
    decreases Join(front, back), fields, 3, front
  {
    hide *;
    FoldStep(c, fields, unknown, vals, seen, was, front);
    JoinStep(front, back);
    if front.NoPairs? {
      errs := [];
      AtStart(c, fields, unknown, objOff, vals, seen, was, input, pos, depth, form, back);
    } else {
      var s := Join(front, back);
      var first := EntryTurn(c, fields, unknown, objOff, vals, seen, was, input, pos, depth, form, s);
      EndsBehind(c.opts, input, pos, depth, form, s);
      AfterStep(pos, front);
      SameFirst(c, fields, unknown, vals, seen, was, pos, front, back);
      var g := EntryOf(c, fields, unknown, vals, seen, was, s);
      var q := Behind(pos, s);
      if g.Going? {
        var others := FrontTurn(c, fields, unknown, objOff, g.vals, g.seen, g.errs, input, q, depth, form, front.rest,
                                back);
        errs := first + others;
        TurnThenFront(c, fields, unknown, objOff, vals, seen, was, input, pos, depth, form, front, back, first, others);
      } else {
        var none := FrontTurn(c, fields, unknown, objOff, vals, seen, was, input, q, depth, form, front.rest, back);
        errs := first;
        TurnStops(c, fields, unknown, objOff, was, input, pos, depth, form, s, After(pos, front), back,
                  StructLoop(c, fields, unknown, objOff, vals, seen, input, pos, depth, form, s), g, errs);
      }
    }
  }

  lemma JoinStep(front: WireEntries, back: WireEntries)
    ensures Join(front, back) == if front.NoPairs? then back else Pairs(front.key, front.val, Join(front.rest, back))
  {
  }

  lemma AtStart(c: Config, fields: seq<Field>, unknown: Unknown, objOff: nat, vals: seq<Value>, seen: set<nat>,
                was: seq<Complaint>, input: seq<byte>, pos: nat, depth: nat, form: Form, back: WireEntries)
    requires EntriesLie(c.opts, input, pos, depth, form, back) && |vals| == |fields|
    ensures After(pos, NoPairs) == pos <= |input|
    ensures FrontSays(c, fields, unknown, objOff, was, input, pos, depth, form, back,
                      StructLoop(c, fields, unknown, objOff, vals, seen, input, pos, depth, form, back),
                      Going(vals, seen, was), [])
  {
    hide StructLoop, FormedEntries;
    BareNothing();
    AlsoNothing(StructLoop(c, fields, unknown, objOff, vals, seen, input, pos, depth, form, back));
  }

  lemma SameFirst(c: Config, fields: seq<Field>, unknown: Unknown, vals: seq<Value>, seen: set<nat>,
                  was: seq<Complaint>, pos: nat, front: WireEntries, back: WireEntries)
    requires front.Pairs? && |vals| == |fields|
    ensures EntryOf(c, fields, unknown, vals, seen, was, Join(front, back))
         == EntryOf(c, fields, unknown, vals, seen, was, front)
    ensures Behind(pos, Join(front, back)) == Behind(pos, front)
  {
    hide EntryStep, Coded, TreeOf;
  }

  lemma TurnStops(c: Config, fields: seq<Field>, unknown: Unknown, objOff: nat, was: seq<Complaint>, input: seq<byte>,
                  pos: nat, depth: nat, form: Form, s: WireEntries, end: nat, back: WireEntries, whole: Res, g: Going,
                  errs: seq<Failure>)
    requires s.Pairs? && Behind(pos, s) <= |input| && end <= |input| && g.Stopped?
    requires TurnSays(c, fields, unknown, objOff, was, input, pos, depth, form, s, whole, g, errs)
    ensures FrontSays(c, fields, unknown, objOff, was, input, end, depth, form, back, whole, g, errs)
  {
    hide StopsAs;
  }

  lemma TurnThenFront(c: Config, fields: seq<Field>, unknown: Unknown, objOff: nat, vals: seq<Value>,
                      seen: set<nat>, was: seq<Complaint>, input: seq<byte>, pos: nat, depth: nat,
                      form: Form, front: WireEntries, back: WireEntries, first: seq<Failure>, others: seq<Failure>)
    requires front.Pairs? && |vals| == |fields| && After(pos, front) <= |input| && Behind(pos, front) <= |input|
    requires pos <= |input| && Behind(pos, Join(front, back)) == Behind(pos, front)
    requires EntryOf(c, fields, unknown, vals, seen, was, front).Going?
    requires TurnSays(c, fields, unknown, objOff, was, input, pos, depth, form, Join(front, back),
                      StructLoop(c, fields, unknown, objOff, vals, seen, input, pos, depth, form, Join(front, back)),
                      EntryOf(c, fields, unknown, vals, seen, was, front), first)
    requires var g := EntryOf(c, fields, unknown, vals, seen, was, front);
             FrontSays(c, fields, unknown, objOff, g.errs, input, After(pos, front), depth, form, back,
                       StructLoop(c, fields, unknown, objOff, g.vals, g.seen, input, Behind(pos, front), depth, form,
                                  Join(front.rest, back)),
                       FoldOf(c, fields, unknown, g.vals, g.seen, g.errs, front.rest), others)
    ensures var g := EntryOf(c, fields, unknown, vals, seen, was, front);
            FrontSays(c, fields, unknown, objOff, was, input, After(pos, front), depth, form, back,
                      StructLoop(c, fields, unknown, objOff, vals, seen, input, pos, depth, form, Join(front, back)),
                      FoldOf(c, fields, unknown, g.vals, g.seen, g.errs, front.rest), first + others)
  {
    hide StructLoop, EntryOf, FoldOf, After, Behind, Also, SaysOn;
    var g := EntryOf(c, fields, unknown, vals, seen, was, front);
    var f := FoldOf(c, fields, unknown, g.vals, g.seen, g.errs, front.rest);
    var inner := StructLoop(c, fields, unknown, objOff, g.vals, g.seen, input, Behind(pos, front), depth, form,
                            Join(front.rest, back));
    if f.Stopped? {
      SaysOnAlso(was, first, inner, f.out, 0);
      StillStops(first, inner);
    } else {
      AlsoAlso(first, others, StructLoop(c, fields, unknown, objOff, f.vals, f.seen, input, After(pos, front), depth,
                                         form, back));
      BareJoin(first, others);
      assert was + BareAll(first) + BareAll(others) == was + (BareAll(first) + BareAll(others));
    }
  }

  lemma StillStops(errs: seq<Failure>, r: Res)
    ensures Also(errs, r).status == r.status
  {
  }

  // ---- the end of a struct ----

  lemma {:induction false} MissingMeant(fields: seq<Field>, seen: set<nat>, objOff: nat, i: nat)
    requires i <= |fields|
    ensures BareAll(MissingErrs(fields, seen, objOff, i)) == Missing(fields, seen, i)
    decreases |fields| - i
  {
    if i < |fields| {
      MissingMeant(fields, seen, objOff, i + 1);
      BareJoin([Failure(MissingField, objOff, [], false)], MissingErrs(fields, seen, objOff, i + 1));
      assert BareAll([Failure(MissingField, objOff, [], false)]) == [Complaint(MissingField, [], false)];
      BareNothing();
    }
  }

  lemma FinishMeant(c: Config, fields: seq<Field>, objOff: nat, vals: seq<Value>, seen: set<nat>, was: seq<Complaint>,
                    pos: nat)
    requires |vals| == |fields|
    ensures SaysOn(was, FinishStruct(c, fields, objOff, vals, seen, pos),
                   ObjectEnd(c, fields, Going(vals, seen, was)), pos)
  {
    hide WithDefaults, MissingErrs, Missing, BareAll;
    MissingMeant(fields, seen, objOff, 0);
    BareNothing();
    var missing := MissingErrs(fields, seen, objOff, 0);
    FirstBare(missing);
  }

  lemma FirstBare(es: seq<Failure>)
    ensures (es == [] <==> BareAll(es) == []) && (es != [] ==> BareAll(es)[0] == Bare(es[0]))
  {
  }

  lemma MembersMeant(c: Config, fields: seq<Field>, unknown: Unknown, objOff: nat, vals: seq<Value>,
                     seen: set<nat>, input: seq<byte>, pos: nat, depth: nat, form: Form, s: WireEntries)
    requires EntriesLie(c.opts, input, pos, depth, form, s) && |vals| == |fields|
    ensures pos <= |input|
    ensures Says(StructLoop(c, fields, unknown, objOff, vals, seen, input, pos, depth, form, s),
                 ObjectEnd(c, fields, FoldOf(c, fields, unknown, vals, seen, [], s)), EntriesEnd(pos, form, s))
    decreases s, fields, 4
  {
    hide *;
    JoinNothing(s);
    var errs := FrontTurn(c, fields, unknown, objOff, vals, seen, [], input, pos, depth, form, s, NoPairs);
    MembersEnd(c, fields, unknown, objOff, input, After(pos, s), depth, form,
               StructLoop(c, fields, unknown, objOff, vals, seen, input, pos, depth, form, s),
               FoldOf(c, fields, unknown, vals, seen, [], s), errs);
  }

  /** Behind the last entry. */
  lemma MembersEnd(c: Config, fields: seq<Field>, unknown: Unknown, objOff: nat, input: seq<byte>, end: nat, depth: nat,
                   form: Form, whole: Res, g: Going, errs: seq<Failure>)
    requires end <= |input| && (g.Going? ==> |g.vals| == |fields|)
             && EntriesLie(c.opts, input, end, depth, form, NoPairs)
    requires FrontSays(c, fields, unknown, objOff, [], input, end, depth, form, NoPairs, whole, g, errs)
    ensures Says(whole, ObjectEnd(c, fields, g), EntriesEnd(end, form, NoPairs))
  {
    hide DecodeMembers, EntriesLie, NextEntry, EntriesEnd, FinishStruct, Remaining, BareAll, WithDefaults, Missing,
         Also;
    if g.Going? {
      NoEntryLies(c.opts, input, end, depth, form);
      var last := EntriesEnd(end, form, NoPairs);
      MembersStep(c, fields, unknown, objOff, g.vals, g.seen, input, end, depth, Remaining(form, 0), None);
      FinishMeant(c, fields, objOff, g.vals, g.seen, g.errs, last);
      BareNothing();
      SaysOnAlso([], errs, FinishStruct(c, fields, objOff, g.vals, g.seen, last), ObjectEnd(c, fields, g), last);
    }
  }

  lemma ObjectMeant(c: Config, fields: seq<Field>, unknown: Unknown, seed: Value, input: seq<byte>, pos: nat,
                    depth: nat, w: Wire)
    requires Lies(c.opts, input, pos, depth, w)
    ensures pos < |input|
    ensures Says(DecodeObject(c, fields, unknown, seed, input, pos, depth),
                 ObjectMeaning(c, fields, unknown, seed, TreeOf(w)), pos + |Coded(w)|)
    decreases w, fields, 5
  {
    hide DecodeMembers, FoldEntries, Coded, Formed, At, OpenContainer, Remaining, FormEnd, FormedEntries, CodedEntries,
         Says, ObjectEnd, MembersOf, PairTrees, Core, CoreWire, Fresh;
    ContainerTold(c.opts, input, pos, depth, w, MAP);
    var m, x := OpenContainer(c.opts, input, pos, depth, MAP), CoreWire(c.opts, w);
    if m.NotOpened? {
      SaysWrong(Fresh(m.error), seed, pos, pos + |Coded(w)|);
      BareFresh(m.error);
    } else {
      CoreBelow(c.opts, w);
      MembersMeant(c, fields, unknown, pos, MembersOf(fields, seed), {}, input, m.pos, depth + 1, x.value.form,
                   x.value.entries);
    }
  }

  lemma BareFresh(e: Error)
    ensures Bare(Fresh(e)) == Syntactic(e.code)
  {
  }

  /** The contents of the container behind the tags are smaller than the encoding. */
  lemma {:induction false} CoreBelow(o: Options, w: Wire)
    ensures var x := CoreWire(o, w);
            && (x.Some? && x.value.WMap? ==> (w decreases to x.value.entries))
            && (x.Some? && x.value.WArray? ==> (w decreases to x.value.items))
    decreases w
  {
    if w.WTag? && o.ignoreUnknownTags {
      CoreBelow(o, w.content);
    }
  }

  // ---- variants ----

  /** The discriminator that was found, without its place. */
  function NameOf(got: Option<(seq<byte>, nat)>): Option<seq<byte>> {
    if got.Some? then Some(got.value.0) else None
  }

  predicate ScanTells(r: Scan, m: TagIn) {
    if m.NoTagIn? then r.ScanError? && r.error.code == m.code else r.Scanned? && NameOf(r.tag) == m.name
  }

  lemma {:induction false} ScanMeant(o: Options, tag: seq<byte>, got: Option<(seq<byte>, nat)>, input: seq<byte>,
                                     pos: nat, depth: nat, form: Form, s: WireEntries)
    requires EntriesLie(o, input, pos, depth, form, s)
    ensures pos <= |input|
    ensures ScanTells(FindTag(o, tag, got, input, pos, depth, Remaining(form, s.Length()), None),
                      TagOf(o, tag, NameOf(got), PairTrees(s)))
    decreases s
  {
    hide FindTag, TagOf, EntriesLie, Lies, Coded, NextEntry, SkipItem, Remaining, ExpectText, TextIn;
    if s.NoPairs? {
      NoEntryLies(o, input, pos, depth, form);
      ScanStep(o, tag, got, input, pos, depth, Remaining(form, 0), None);
      TagOfStep(o, tag, NameOf(got), s);
    } else {
      EntryLies(o, input, pos, depth, form, s);
      ScanStep(o, tag, got, input, pos, depth, Remaining(form, s.Length()), None);
      TagOfStep(o, tag, NameOf(got), s);
      TextLies(o, input, pos, depth, s.key);
      TextLies(o, input, pos + |Coded(s.key)|, depth, s.val);
      EndsBehind(o, input, pos, depth, form, s);
      var name := ExpectText(o, input, pos + |Coded(s.key)|);
      if name.Got? {
        ScanMeant(o, tag, Some((name.value, pos + |Coded(s.key)|)), input, Behind(pos, s), depth, form, s.rest);
      }
      ScanMeant(o, tag, got, input, Behind(pos, s), depth, form, s.rest);
    }
  }

  lemma TextLies(o: Options, input: seq<byte>, pos: nat, depth: nat, w: Wire)
    requires Lies(o, input, pos, depth, w)
    ensures pos < |input| && Tells(ExpectText(o, input, pos), TextIn(o, TreeOf(w)), pos + |Coded(w)|)
  {
    hide Formed, Coded, TreeOf, At, ExpectText, TextIn;
    TextTold(o, input, pos, w, o.maxDepth - depth);
  }

  lemma TagOfStep(o: Options, tag: seq<byte>, got: Option<seq<byte>>, s: WireEntries)
    ensures TagOf(o, tag, got, PairTrees(s))
            == if s.NoPairs? then TagIn(got)
               else
                 var key, name := TextIn(o, TreeOf(s.key)), TextIn(o, TreeOf(s.val));
                 if key.Not? then NoTagIn(key.code)
                 else if got.None? && key.value == tag then
                   if name.Not? then NoTagIn(name.code) else TagOf(o, tag, Some(name.value), PairTrees(s.rest))
                 else TagOf(o, tag, got, PairTrees(s.rest))
  {
    hide TextIn, TreeOf;
  }

  predicate ChoiceTells(r: Choice, m: Choosing) {
    if m.Neither? then r.NoAlternative? && Bare(r.e) == m.e else r == Alternative(m.i)
  }

  lemma ChoiceMeant(o: Options, tag: seq<byte>, alts: seq<(seq<byte>, Ty)>, input: seq<byte>, pos: nat, depth: nat,
                    w: Wire)
    requires Lies(o, input, pos, depth, w)
    ensures pos < |input|
    ensures ChoiceTells(FindAlternative(o, tag, alts, input, pos, depth), AlternativeIn(o, tag, alts, TreeOf(w)))
  {
    hide FindTag, TagOf, Coded, Formed, At, OpenContainer, Remaining, FormEnd, FormedEntries, CodedEntries, PairTrees,
         Core, CoreWire, FindAlt;
    ContainerTold(o, input, pos, depth, w, MAP);
    var m, x := OpenContainer(o, input, pos, depth, MAP), CoreWire(o, w);
    if m.Opened? {
      ScanMeant(o, tag, None, input, m.pos, depth + 1, x.value.form, x.value.entries);
      var got := FindTag(o, tag, None, input, m.pos, depth + 1, m.remaining, None);
      if got.Scanned? && got.tag.Some? {
        OneStep(NoVariantAlternative, got.tag.value.1, KeyText(tag));
      }
    }
  }

  /** Decoding an externally tagged alternative, in front of the entries `s`. */
  ghost function BoxLoop(c: Config, t: Ty, off: nat, done: Value, have: bool, input: seq<byte>, pos: nat, depth: nat,
                         form: Form, s: WireEntries): Res
    requires pos <= |input|
  {
    DecodeBoxed(c, t, off, done, have, input, pos, depth, Remaining(form, s.Length()), None)
  }

  lemma {:induction false} BoxedMeant(c: Config, t: Ty, off: nat, done: Value, have: bool, input: seq<byte>, pos: nat,
                                      depth: nat, form: Form, s: WireEntries)
    requires EntriesLie(c.opts, input, pos, depth, form, s)
    ensures pos <= |input|
    ensures Says(BoxLoop(c, t, off, done, have, input, pos, depth, form, s),
                 BoxedMeaning(c, t, done, have, PairTrees(s)), EntriesEnd(pos, form, s))
    decreases s, t, 2
  {
    hide DecodeBoxed, BoxedMeaning, EntriesLie, Lies, Coded, NextEntry, SkipItem, Remaining, ExpectText, TextIn, Says,
         EntriesEnd, VALUE, Decode, Meaning, TreeOf, DecodeBoxValue, SkipBoxed, Fresh, Failed, Wrong, PushAll, Push,
         Also, Plus, BoxEnd, PairTrees, Inside, CodedEntries, FormedEntries, BareAll, Named, Right;
    BoxedStep(c, t, done, have, s);
    var end := EntriesEnd(pos, form, s);
    if s.NoPairs? {
      NoEntryLies(c.opts, input, pos, depth, form);
      BoxStep(c, t, off, done, have, input, pos, depth, Remaining(form, 0), None);
      BoxEndMeant(off, done, have, end);
    } else {
      EntryLies(c.opts, input, pos, depth, form, s);
      EndsBehind(c.opts, input, pos, depth, form, s);
      TextLies(c.opts, input, pos, depth, s.key);
      var p, left := pos + |Coded(s.key)|, Remaining(form, s.rest.Length());
      BoxKeyStep(c, t, off, done, have, input, pos, depth, Remaining(form, s.Length()), None);
      var key := ExpectText(c.opts, input, pos);
      if key.Missed? {
        SaysWrong(Fresh(key.error), done, pos, end);
        BareFresh(key.error);
      } else if key.value == VALUE {
        BoxValueStep(c, t, off, done, input, p, depth, left, None);
        DecodeMeant(c, t, done, input, p, depth, s.val);
        var r, m := Decode(c, t, done, input, p, depth), Meaning(c, t, done, TreeOf(s.val));
        SaysEnd(r, m, Behind(pos, s));
        SaysInside(r, m, Behind(pos, s), Member(VALUE));
        if r.status.Some? {
          SaysFailed(r, m, Behind(pos, s), Member(VALUE), r.value, p, end);
          InsideKeeps(m, Member(VALUE));
        } else {
          BoxedMeant(c, t, off, r.value, true, input, Behind(pos, s), depth, form, s.rest);
          SaysAlso(PushAll(r.errs, Member(VALUE)),
                   BoxLoop(c, t, off, r.value, true, input, Behind(pos, s), depth, form, s.rest),
                   BoxedMeaning(c, t, r.value, true, PairTrees(s.rest)), end);
        }
      } else {
        SkipBoxedStep(c, t, off, done, have, input, p, depth, left, None);
        BoxedMeant(c, t, off, done, have, input, Behind(pos, s), depth, form, s.rest);
      }
    }
  }

  lemma BoxEndMeant(off: nat, done: Value, have: bool, end: nat)
    ensures Says(BoxEnd(off, done, have, end),
                 if have then Right(done) else Wrong(Complaint(MissingField, [], false), done), end)
  {
    BareNothing();
  }

  lemma BoxedStep(c: Config, t: Ty, done: Value, have: bool, s: WireEntries)
    ensures BoxedMeaning(c, t, done, have, PairTrees(s))
            == if s.NoPairs? then if have then Right(done) else Wrong(Complaint(MissingField, [], false), done)
               else
                 var key := TextIn(c.opts, TreeOf(s.key));
                 if key.Not? then Wrong(Syntactic(key.code), done)
                 else if key.value == VALUE then
                   var m := Meaning(c, t, done, TreeOf(s.val));
                   var n := Inside(m, Member(VALUE));
                   if m.status.Some? then n.(value := m.value)
                   else Plus(n.errs, BoxedMeaning(c, t, m.value, true, PairTrees(s.rest)))
                 else BoxedMeaning(c, t, done, have, PairTrees(s.rest))
  {
    hide TextIn, TreeOf, Meaning, VALUE, AllUnder, Under;
  }

  lemma BoxMeant(c: Config, t: Ty, input: seq<byte>, pos: nat, depth: nat, w: Wire)
    requires Lies(c.opts, input, pos, depth, w)
    ensures pos < |input|
    ensures Says(DecodeBox(c, t, input, pos, depth), BoxMeaning(c, t, TreeOf(w)), pos + |Coded(w)|)
    decreases w, t, 2
  {
    hide DecodeBoxed, BoxedMeaning, Coded, Formed, At, OpenContainer, Remaining, FormEnd, FormedEntries, CodedEntries,
         Says, PairTrees, Core, CoreWire, Fresh, Initial;
    ContainerTold(c.opts, input, pos, depth, w, MAP);
    var m, x := OpenContainer(c.opts, input, pos, depth, MAP), CoreWire(c.opts, w);
    if m.NotOpened? {
      SaysWrong(Fresh(m.error), Initial(t), pos, pos + |Coded(w)|);
      BareFresh(m.error);
    } else {
      CoreBelow(c.opts, w);
      BoxedMeant(c, t, pos, Initial(t), false, input, m.pos, depth + 1, x.value.form, x.value.entries);
    }
  }

  lemma VariantMeant(c: Config, tag: seq<byte>, alts: seq<(seq<byte>, Ty)>, seed: Value, input: seq<byte>, pos: nat,
                     depth: nat, w: Wire)
    requires Lies(c.opts, input, pos, depth, w)
    ensures pos < |input|
    ensures Says(DecodeVariant(c, tag, alts, seed, input, pos, depth), Meaning(c, TVariant(tag, alts), seed, TreeOf(w)),
                 pos + |Coded(w)|)
    decreases w, TVariant(tag, alts), 0
  {
    hide Coded, Lies, FindAlternative, AlternativeIn, DecodeObject, ObjectMeaning, DecodeBox, BoxMeaning, TreeOf, Says,
         Initial;
    ChoiceMeant(c.opts, tag, alts, input, pos, depth, w);
    var end := pos + |Coded(w)|;
    var choice := FindAlternative(c.opts, tag, alts, input, pos, depth);
    if choice.NoAlternative? {
      SaysWrong(choice.e, seed, pos, end);
    } else {
      var t := alts[choice.i].1;
      if t.TStruct? {
        var unknown := t.unknown.(ignore := tag);
        ObjectMeant(c, t.fields, unknown, Initial(t), input, pos, depth, w);
        var r, m := DecodeObject(c, t.fields, unknown, Initial(t), input, pos, depth),
                    ObjectMeaning(c, t.fields, unknown, Initial(t), TreeOf(w));
        SaysEnd(r, m, end);
        SaysValue(r, m, end, VAlt(choice.i, m.value));
      } else {
        BoxMeant(c, t, input, pos, depth, w);
        var r, m := DecodeBox(c, t, input, pos, depth), BoxMeaning(c, t, TreeOf(w));
        SaysEnd(r, m, end);
        SaysValue(r, m, end, VAlt(choice.i, m.value));
      }
    }
  }

  lemma ArrayMeant(c: Config, t: Ty, seed: Value, input: seq<byte>, pos: nat, depth: nat, w: Wire)
    requires Lies(c.opts, input, pos, depth, w) && (t.TSeq? || t.TTuple?)
    ensures pos < |input|
    ensures Says(Decode(c, t, seed, input, pos, depth), Meaning(c, t, seed, TreeOf(w)), pos + |Coded(w)|)
    decreases w, t, 0
  {
    hide DecodeElems, DecodeItems, ElemsMeaning, PlacesMeaning, Coded, Formed, At, OpenContainer, Remaining, FormEnd,
         FormedItems, CodedItems, Says, WireTrees, Core, CoreWire, Fresh, ItemsOf, Wrong, Failed;
    ContainerTold(c.opts, input, pos, depth, w, ARRAY);
    var m, x := OpenContainer(c.opts, input, pos, depth, ARRAY), CoreWire(c.opts, w);
    if m.NotOpened? {
      SaysWrong(Fresh(m.error), seed, pos, pos + |Coded(w)|);
      BareFresh(m.error);
    } else {
      CoreBelow(c.opts, w);
      if t.TSeq? {
        ElemsMeant(c, t.elem, [], input, m.pos, depth + 1, x.value.form, x.value.items);
      } else {
        PlacesMeant(c, t.elems, pos, ItemsOf(t.elems, seed), 0, input, m.pos, depth + 1, x.value.form, x.value.items);
      }
    }
  }

  lemma MapMeant(c: Config, t: Ty, seed: Value, input: seq<byte>, pos: nat, depth: nat, w: Wire)
    requires Lies(c.opts, input, pos, depth, w) && t.TMap?
    ensures pos < |input|
    ensures Says(Decode(c, t, seed, input, pos, depth), Meaning(c, t, seed, TreeOf(w)), pos + |Coded(w)|)
    decreases w, t, 0
  {
    hide DecodeEntries, FoldPairs, Coded, Formed, At, OpenContainer, Remaining, FormEnd, FormedEntries, CodedEntries,
         Says, PairTrees, Core, CoreWire, Fresh, Wrong, Failed;
    ContainerTold(c.opts, input, pos, depth, w, MAP);
    var m, x := OpenContainer(c.opts, input, pos, depth, MAP), CoreWire(c.opts, w);
    if m.NotOpened? {
      SaysWrong(Fresh(m.error), seed, pos, pos + |Coded(w)|);
      BareFresh(m.error);
    } else {
      CoreBelow(c.opts, w);
      PairsMeant(c, t.keys, t.unique, t.elem, [], [], input, m.pos, depth + 1, x.value.form, x.value.entries);
      SaysIsOn(MapLoop(c, t.keys, t.unique, t.elem, [], input, m.pos, depth + 1, x.value.form, x.value.entries),
               MapEnd(FoldPairs(c, t.keys, t.unique, t.elem, Adding([], []), PairTrees(x.value.entries))),
               EntriesEnd(m.pos, x.value.form, x.value.entries));
    }
  }

  lemma SaysIsOn(r: Res, m: Out, end: nat)
    ensures Says(r, m, end) <==> SaysOn([], r, m, end)
  {
  }

  lemma OptMeant(c: Config, elem: Ty, seed: Value, input: seq<byte>, pos: nat, depth: nat, w: Wire)
    requires Lies(c.opts, input, pos, depth, w)
    ensures pos < |input|
    ensures Says(Decode(c, TOpt(elem), seed, input, pos, depth), Meaning(c, TOpt(elem), seed, TreeOf(w)),
                 pos + |Coded(w)|)
    decreases w, TOpt(elem), 0
  {
    hide *;
    NullMeant(c.opts, seed, input, pos, depth, w);
    if !KindOf(c.opts, TreeOf(w)).KNull? {
      DecodeMeant(c, elem, Initial(elem), input, pos, depth, w);
      var r, m := Decode(c, elem, Initial(elem), input, pos, depth), Meaning(c, elem, Initial(elem), TreeOf(w));
      SaysEnd(r, m, pos + |Coded(w)|);
      SaysValue(r, m, pos + |Coded(w)|, VSome(m.value));
    }
    OptIs(c, elem, seed, input, pos, depth, w);
  }

  lemma OptIs(c: Config, elem: Ty, seed: Value, input: seq<byte>, pos: nat, depth: nat, w: Wire)
    requires pos <= |input|
    ensures Decode(c, TOpt(elem), seed, input, pos, depth)
            == if PeekKind(c.opts, input, pos).KNull? then DecodeNull(c.opts, seed, input, pos)
               else
                 var r := Decode(c, elem, Initial(elem), input, pos, depth);
                 r.(value := VSome(r.value))
    ensures Meaning(c, TOpt(elem), seed, TreeOf(w))
            == if KindOf(c.opts, TreeOf(w)).KNull? then Right(VNone)
               else
                 var m := Meaning(c, elem, Initial(elem), TreeOf(w));
                 m.(value := VSome(m.value))
  {
    hide PeekKind, DecodeNull, Initial, KindOf, TreeOf;
  }

  /** Every type: decoding an encoding of an item answers what the item means, up to the end of the encoding. */
  lemma {:induction false} DecodeMeant(c: Config, t: Ty, seed: Value, input: seq<byte>, pos: nat, depth: nat, w: Wire)
    requires Lies(c.opts, input, pos, depth, w)
    ensures pos < |input|
    ensures Says(Decode(c, t, seed, input, pos, depth), Meaning(c, t, seed, TreeOf(w)), pos + |Coded(w)|)
    decreases w, t, 1
  {
    hide DecodeObject, DecodeVariant, ObjectMeaning, Coded, Lies, TreeOf, Says, InnerOf, Named, Inside, Initial,
         PeekKind, KindOf, FoldPairs, DecodeEntries, AlternativeIn, Core, OpenContainer, DecodeInt, IntMeaning,
         DecodeText, DecodeBytes, DecodeEnum, DecodeBool, DecodeNull, DecodeNamedEnum, SimpleIn, TextIn, BytesIn,
         DecodeElems, DecodeItems, ElemsMeaning, PlacesMeaning, BoxMeaning, Fresh;
    match t
    case TOpt(elem) => OptMeant(c, elem, seed, input, pos, depth, w);
    case TSeq(_) => ArrayMeant(c, t, seed, input, pos, depth, w);
    case TTuple(_) => ArrayMeant(c, t, seed, input, pos, depth, w);
    case TMap(_, _, _) => MapMeant(c, t, seed, input, pos, depth, w);
    case TWrap(ident, elem) =>
      DecodeMeant(c, elem, InnerOf(elem, seed), input, pos, depth, w);
      var r, m := Decode(c, elem, InnerOf(elem, seed), input, pos, depth),
                  Meaning(c, elem, InnerOf(elem, seed), TreeOf(w));
      SaysEnd(r, m, pos + |Coded(w)|);
      SaysInside(r, m, pos + |Coded(w)|, Member(ident));
      InsideKeeps(m, Member(ident));
      SaysValue(Named(r, Member(ident)), Inside(m, Member(ident)), pos + |Coded(w)|, VStruct([m.value]));
    case TStruct(fields, unknown) => ObjectMeant(c, fields, unknown, seed, input, pos, depth, w);
    case TVariant(tag, alts) => VariantMeant(c, tag, alts, seed, input, pos, depth, w);
    case _ => LeafMeant(c, t, seed, input, pos, depth, w);
  }
}
