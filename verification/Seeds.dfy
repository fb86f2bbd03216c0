/** What a target held before it is decoded into: when it makes no difference, and a duplicated member where it does. */
module Seeds {
  import opened Bytes
  import opened Head
  import opened Utf8
  import opened SkipSpec
  import opened ReadSpec
  import opened BuildSpec
  import opened BuildSteps

  /** No struct is decoded in place, directly or through transparent structs and tuples. */
  predicate SeedFree(t: Ty) {
    match t
    case TStruct(_, _) => false
    case TWrap(_, elem) => SeedFree(elem)
    case TTuple(elems) => forall i :: 0 <= i < |elems| ==> SeedFree(elems[i])
    case _ => true
  }

  /** The same answer, and the same value if there is one. */
  predicate Agree(a: Res, b: Res) {
    a.status == b.status && a.pos == b.pos && a.errs == b.errs && (a.status.None? ==> a.value == b.value)
  }

  /** Decoding into a target of such a type does not depend on what it held. */
  lemma {:induction false} SeedIrrelevant(c: Config, t: Ty, x: Value, y: Value, input: seq<byte>, pos: nat, depth: nat)
    requires pos <= |input| && SeedFree(t)
    ensures Agree(Decode(c, t, x, input, pos, depth), Decode(c, t, y, input, pos, depth))
    decreases |input| - pos, t, 1
  {
    hide DecodeElems, DecodeEntries, DecodeObject, DecodeItems, DecodeVariant, OpenContainer, PeekKind, Push, PushAll,
         Initial, DecodeBool;
    hide DecodeInt, DecodeText, DecodeBytes, DecodeEnum, DecodeNamedEnum, DecodeNull, MembersOf, ItemsOf, InnerOf,
         SeedFree;
    match t
    case TTuple(elems) =>
      TupleFree(elems);
      var a := OpenContainer(c.opts, input, pos, depth, ARRAY);
      if a.Opened? {
        ItemsSeedFree(c, elems, pos, ItemsOf(elems, x), ItemsOf(elems, y), 0, input, a.pos, depth + 1, a.remaining);
      }
    case TWrap(ident, elem) =>
      WrapFree(ident, elem);
      SeedIrrelevant(c, elem, InnerOf(elem, x), InnerOf(elem, y), input, pos, depth);
    case TStruct(fields, unknown) => StructNotFree(fields, unknown);
    case _ => FreshSeeds(c, t, x, y, input, pos, depth);
  }

  /** Targets that are made anew, or overwritten in one go. */
  lemma FreshSeeds(c: Config, t: Ty, x: Value, y: Value, input: seq<byte>, pos: nat, depth: nat)
    requires pos <= |input| && !t.TTuple? && !t.TWrap? && !t.TStruct?
    ensures Agree(Decode(c, t, x, input, pos, depth), Decode(c, t, y, input, pos, depth))
  {
    hide DecodeElems, DecodeEntries, DecodeVariant, OpenContainer, PeekKind, Push, PushAll, Initial, DecodeBool,
         DecodeInt, DecodeText;
    hide DecodeBytes, DecodeEnum, DecodeNamedEnum, DecodeNull;
    match t
    case TOpt(_) => NullSeeds(c.opts, x, y, input, pos);
    case TVariant(tag, alts) => VariantSeeds(c, tag, alts, x, y, input, pos, depth);
    case TBool => BoolSeeds(c.opts, x, y, input, pos);
    case TInt(range) => IntSeeds(c.opts, range, [], x, y, input, pos);
    case TEnum(range, values) => IntSeeds(c.opts, range, values, x, y, input, pos);
    case TText => TextSeeds(c.opts, [], x, y, input, pos);
    case TNamed(names) => TextSeeds(c.opts, names, x, y, input, pos);
    case TBytes(size) => ByteSeeds(c.opts, size, x, y, input, pos);
    case TSeq(_) =>
    case TMap(_, _, _) =>
  }

  lemma TupleFree(elems: seq<Ty>)
    requires SeedFree(TTuple(elems))
    ensures forall i :: 0 <= i < |elems| ==> SeedFree(elems[i])
  {
  }

  lemma WrapFree(ident: seq<byte>, elem: Ty)
    requires SeedFree(TWrap(ident, elem))
    ensures SeedFree(elem)
  {
  }

  lemma StructNotFree(fields: seq<Field>, unknown: Unknown)
    ensures !SeedFree(TStruct(fields, unknown))
  {
  }

  lemma NullSeeds(o: Options, x: Value, y: Value, input: seq<byte>, pos: nat)
    requires pos <= |input|
    ensures Agree(DecodeNull(o, x, input, pos), DecodeNull(o, y, input, pos))
  {
    hide ExpectSimple;
  }

  lemma VariantSeeds(c: Config, tag: seq<byte>, alts: seq<(seq<byte>, Ty)>, x: Value, y: Value, input: seq<byte>,
                     pos: nat, depth: nat)
    requires pos <= |input|
    ensures Agree(DecodeVariant(c, tag, alts, x, input, pos, depth), DecodeVariant(c, tag, alts, y, input, pos, depth))
  {
    hide DecodeObject, DecodeBox, FindAlternative, Initial;
  }

  lemma BoolSeeds(o: Options, x: Value, y: Value, input: seq<byte>, pos: nat)
    requires pos <= |input|
    ensures Agree(DecodeBool(o, x, input, pos), DecodeBool(o, y, input, pos))
  {
    hide ExpectSimple;
  }

  lemma IntSeeds(o: Options, t: IntType, values: seq<int>, x: Value, y: Value, input: seq<byte>, pos: nat)
    requires pos <= |input|
    ensures Agree(DecodeInt(o, t, x, input, pos), DecodeInt(o, t, y, input, pos))
    ensures Agree(DecodeEnum(o, t, values, x, input, pos), DecodeEnum(o, t, values, y, input, pos))
  {
    hide DecodeInt;
    PlainIntSeeds(o, t, x, y, input, pos);
  }

  lemma PlainIntSeeds(o: Options, t: IntType, x: Value, y: Value, input: seq<byte>, pos: nat)
    requires pos <= |input|
    ensures Agree(DecodeInt(o, t, x, input, pos), DecodeInt(o, t, y, input, pos))
  {
    hide ExpectInt;
  }

  lemma TextSeeds(o: Options, names: seq<(seq<byte>, nat)>, x: Value, y: Value, input: seq<byte>, pos: nat)
    requires pos <= |input|
    ensures Agree(DecodeText(o, x, input, pos), DecodeText(o, y, input, pos))
    ensures Agree(DecodeNamedEnum(o, names, x, input, pos), DecodeNamedEnum(o, names, y, input, pos))
  {
    hide ExpectText, FindNamed;
  }

  lemma ByteSeeds(o: Options, size: Option<nat>, x: Value, y: Value, input: seq<byte>, pos: nat)
    requires pos <= |input|
    ensures Agree(DecodeBytes(o, size, x, input, pos), DecodeBytes(o, size, y, input, pos))
  {
    hide ExpectBytes;
  }

  lemma {:induction false} ItemsSeedFree(c: Config, elems: seq<Ty>, off: nat, xs: seq<Value>, ys: seq<Value>, i: nat,
                                         input: seq<byte>, pos: nat, depth: nat, remaining: Option<nat>)
    requires pos <= |input| && |xs| == |ys| == |elems| && i <= |elems| && xs[..i] == ys[..i]
    requires forall k :: 0 <= k < |elems| ==> SeedFree(elems[k])
    ensures Agree(DecodeItems(c, elems, off, xs, i, input, pos, depth, remaining),
                  DecodeItems(c, elems, off, ys, i, input, pos, depth, remaining))
    decreases |input| - pos, elems, 2
  {
    hide Decode, DecodeItems, CursorNext, Push, PushAll, SkipSurplus, SeedFree;
    if i == |elems| {
      assert xs == xs[..i] && ys == ys[..i];
    } else {
      ItemsStep(c, elems, off, xs, i, input, pos, depth, remaining);
      ItemsStep(c, elems, off, ys, i, input, pos, depth, remaining);
      var next := CursorNext(input, pos, remaining);
      if next.CursorItem? {
        SeedIrrelevant(c, elems[i], xs[i], ys[i], input, pos, depth);
        var r, q := Decode(c, elems[i], xs[i], input, pos, depth), Decode(c, elems[i], ys[i], input, pos, depth);
        if r.status.None? {
          assert xs[i := r.value][..i + 1] == xs[..i] + [r.value];
          assert ys[i := q.value][..i + 1] == ys[..i] + [q.value];
          ItemsSeedFree(c, elems, off, xs[i := r.value], ys[i := q.value], i + 1, input, r.pos, depth, next.remaining);
        }
      }
    }
  }

  /** A duplicate of such a member, under last wins, replaces what was there: the object goes on as if the member had
      held anything else. */
  lemma DuplicateReplaces(c: Config, fields: seq<Field>, unknown: Unknown, off: nat, vals: seq<Value>, seen: set<nat>,
                          input: seq<byte>, pos: nat, depth: nat, remaining: Option<nat>, prev: Option<Extent>, m: nat,
                          x: Value)
    requires pos <= |input| && ExtentOk(prev, |input|) && |vals| == |fields| && m < |fields| && SeedFree(fields[m].ty)
    requires Decode(c, fields[m].ty, vals[m], input, pos, depth).status.None?
    ensures DecodeMember(c, fields, unknown, off, vals, seen, input, pos, depth, remaining, prev, m)
         == DecodeMember(c, fields, unknown, off, vals[m := x], seen, input, pos, depth, remaining, prev, m)
  {
    hide Decode, DecodeMembers, DecodeMember, SkipThen, Push, PushAll, IsSyntax, SeedFree;
    SeedIrrelevant(c, fields[m].ty, vals[m], x, input, pos, depth);
    MemberStep(c, fields, unknown, off, vals, seen, input, pos, depth, remaining, prev, m);
    MemberStep(c, fields, unknown, off, vals[m := x], seen, input, pos, depth, remaining, prev, m);
    var r := Decode(c, fields[m].ty, vals[m], input, pos, depth);
    assert vals[m := x][m := r.value] == vals[m := r.value];
  }

  // ---- a duplicate that does not replace ----

  /** A number that may be absent, under an integer key. */
  function NumberField(name: byte, key: int): Field {
    Field([name], [name], [], Some(key), false, false, false, Omission(false, false, false), None, VInt(0),
          TInt(Unsigned(255)))
  }

  /** A point with coordinates under the keys 1 and 2. */
  function Point(): seq<Field> {
    [NumberField(0x78, 1), NumberField(0x79, 2)]
  }

  /** An object with a point under the key 1. */
  function Holder(): seq<Field> {
    [Field([0x70], [0x70], [], Some(1), false, true, false, Omission(false, false, false), None,
           VStruct([VInt(0), VInt(0)]),
           TStruct(Point(), Unknown(true, [])))]
  }

  /** { 1: { 1: 5 }, 1: { 2: 6 } } */
  function Twice(): seq<byte> {
    [0xA2, 1, 0xA1, 1, 5, 1, 0xA1, 2, 6]
  }

  lemma SmallUInt(o: Options, input: seq<byte>, pos: nat)
    requires pos < |input| && input[pos] < 24
    ensures ExpectUInt(o, input, pos) == Got(input[pos], pos + 1) && PeekKind(o, input, pos) == KUInt
  {
  }

  lemma SmallMap(o: Options, input: seq<byte>, pos: nat, depth: nat)
    requires pos < |input| && 0xA0 <= input[pos] < 0xB8 && depth < o.maxDepth
    ensures OpenContainer(o, input, pos, depth, MAP) == Opened(pos + 1, Some(input[pos] - 0xA0))
  {
  }

  lemma LaxEntry(o: Options, input: seq<byte>, pos: nat, depth: nat, n: nat)
    requires pos <= |input| && !o.requireDeterministic && (n > 0 ==> pos < |input|)
    ensures NextEntry(o, input, pos, depth, Some(n), None) == if n == 0 then EntryEnd(pos)
            else EntryAt(Some(n - 1), None)
  {
  }

  /** A point of which one coordinate is given: the other stays. */
  lemma PointAt(c: Config, x: Value, y: Value, input: seq<byte>, pos: nat, depth: nat)
    requires pos + 3 <= |input| && input[pos] == 0xA1 && 1 <= input[pos + 1] <= 2 && input[pos + 2] < 24
    requires !c.opts.requireDeterministic && depth < c.opts.maxDepth
    ensures Decode(c, TStruct(Point(), Unknown(true, [])), VStruct([x, y]), input, pos, depth)
         == Res(None, VStruct([x, y][input[pos + 1] - 1 := VInt(input[pos + 2])]), pos + 3, [])
  {
    hide DecodeMembers, NextEntry, MemberKeyAt, DecodeMember, FinishStruct, OpenContainer, Push, PushAll, Also, Point;
    var m: nat := input[pos + 1] - 1;
    PointMembers();
    var unknown := Unknown(true, []);
    var next := [x, y][m := VInt(input[pos + 2])];
    SmallMap(c.opts, input, pos, depth);
    LaxEntry(c.opts, input, pos + 1, depth + 1, 1);
    PointKey(c.opts, input, pos + 1);
    MembersStep(c, Point(), unknown, pos, [x, y], {}, input, pos + 1, depth + 1, Some(1), None);
    PointNumber(c, [x, y][m], m, input, pos + 2, depth + 1);
    MemberStep(c, Point(), unknown, pos, [x, y], {}, input, pos + 2, depth + 1, Some(0), None, m);
    LaxEntry(c.opts, input, pos + 3, depth + 1, 0);
    MembersStep(c, Point(), unknown, pos, next, {m}, input, pos + 3, depth + 1, Some(0), None);
    PointEnds(c, pos, next, {m}, pos + 3);
    NoErrs(BuildSpec.Member(Point()[m].ident), Res(None, VStruct(next), pos + 3, []));
    assert {} + {m} == {m};
  }

  lemma PointMembers()
    ensures |Point()| == 2 && forall m :: 0 <= m < 2 ==> !Point()[m].skip
  {
  }

  lemma PointKey(o: Options, input: seq<byte>, pos: nat)
    requires pos < |input| && 1 <= input[pos] <= 2
    ensures MemberKeyAt(o, Point(), input, pos) == FoundKey(Some(input[pos] - 1), KeyInt(input[pos]), pos + 1)
  {
    hide ExpectUInt, PeekKind;
    SmallUInt(o, input, pos);
    assert Point()[0].key.Some? && Point()[..1] == [Point()[0]];
  }

  lemma PointNumber(c: Config, seed: Value, m: nat, input: seq<byte>, pos: nat, depth: nat)
    requires m < 2 && pos < |input| && input[pos] < 24
    ensures Decode(c, Point()[m].ty, seed, input, pos, depth) == Res(None, VInt(input[pos]), pos + 1, [])
  {
    hide ExpectUInt;
    SmallUInt(c.opts, input, pos);
  }

  lemma PointEnds(c: Config, off: nat, vals: seq<Value>, seen: set<nat>, pos: nat)
    requires |vals| == 2
    ensures FinishStruct(c, Point(), off, vals, seen, pos) == Res(None, VStruct(vals), pos, [])
  {
    assert MissingErrs(Point(), seen, off, 2) == [];
    assert MissingErrs(Point(), seen, off, 1) == [];
    assert WithDefaults(Point(), seen, vals) == vals;
  }

  /** One entry of the holder: its point, wherever it has been met before. */
  lemma HolderEntry(c: Config, x: Value, y: Value, seen: set<nat>, input: seq<byte>, pos: nat, n: nat)
    requires pos + 4 <= |input| && input[pos] == 1 && input[pos + 1] == 0xA1 && 1 <= input[pos + 2] <= 2
             && input[pos + 3] < 24 && n > 0
    requires c.duplicates.LastWins? && !c.opts.requireDeterministic && c.opts.maxDepth > 1
    ensures DecodeMembers(c, Holder(), Unknown(true, []), 0, [VStruct([x, y])], seen, input, pos, 1, Some(n), None)
         == DecodeMembers(c, Holder(), Unknown(true, []), 0,
                          [VStruct([x, y][input[pos + 2] - 1 := VInt(input[pos + 3])])], seen + {0}, input,
                          pos + 4, 1, Some(n - 1), None)
  {
    hide DecodeMembers, NextEntry, MemberKeyAt, DecodeMember, FinishStruct, Push, PushAll, Also, Holder, Point, Decode;
    HolderMembers();
    LaxEntry(c.opts, input, pos, 1, n);
    HolderKey(c.opts, input, pos);
    var vals := [VStruct([x, y])];
    MembersStep(c, Holder(), Unknown(true, []), 0, vals, seen, input, pos, 1, Some(n), None);
    PointAt(c, x, y, input, pos + 1, 1);
    MemberStep(c, Holder(), Unknown(true, []), 0, vals, seen, input, pos + 1, 1, Some(n - 1), None, 0);
    var next := [VStruct([x, y][input[pos + 2] - 1 := VInt(input[pos + 3])])];
    assert vals[0 := next[0]] == next;
    NoErrs(BuildSpec.Member(Holder()[0].ident),
           DecodeMembers(c, Holder(), Unknown(true, []), 0, next, seen + {0}, input, pos + 4, 1, Some(n - 1), None));
  }

  lemma HolderMembers()
    ensures |Holder()| == 1 && !Holder()[0].skip && Holder()[0].ty == TStruct(Point(), Unknown(true, []))
  {
  }

  lemma HolderKey(o: Options, input: seq<byte>, pos: nat)
    requires pos < |input| && input[pos] == 1
    ensures MemberKeyAt(o, Holder(), input, pos) == FoundKey(Some(0), KeyInt(1), pos + 1)
  {
    hide ExpectUInt, PeekKind, Point;
    SmallUInt(o, input, pos);
    assert Holder()[0].key.Some?;
  }

  lemma HolderEnds(c: Config, v: Value, seen: set<nat>, input: seq<byte>, pos: nat)
    requires pos <= |input| && 0 in seen && !c.opts.requireDeterministic
    ensures DecodeMembers(c, Holder(), Unknown(true, []), 0, [v], seen, input, pos, 1, Some(0), None)
            == Res(None, VStruct([v]), pos, [])
  {
    hide DecodeMembers, NextEntry, Point;
    LaxEntry(c.opts, input, pos, 1, 0);
    MembersStep(c, Holder(), Unknown(true, []), 0, [v], seen, input, pos, 1, Some(0), None);
    assert MissingErrs(Holder(), seen, 0, 1) == [];
    assert WithDefaults(Holder(), seen, [v]) == [v];
  }

  /** Under last wins the second point does not replace the first: it keeps a coordinate of it. Decoded on its own, the
      second point has none. */
  lemma DuplicateKeeps(c: Config)
    requires c.duplicates.LastWins? && !c.opts.requireDeterministic && c.opts.maxDepth > 1
    ensures Decode(c, TStruct(Holder(), Unknown(true, [])), Initial(TStruct(Holder(), Unknown(true, []))), Twice(), 0,
                   0)
         == Res(None, VStruct([VStruct([VInt(5), VInt(6)])]), 9, [])
    ensures Decode(c, TStruct(Point(), Unknown(true, [])), Initial(TStruct(Point(), Unknown(true, []))), Twice(), 6, 1)
         == Res(None, VStruct([VInt(0), VInt(6)]), 9, [])
  {
    hide DecodeMembers, OpenContainer, Point, Holder, FinishStruct;
    var input := Twice();
    InitialPoint();
    SmallMap(c.opts, input, 0, 0);
    HolderEntry(c, VInt(0), VInt(0), {}, input, 1, 2);
    assert [VInt(0), VInt(0)][0 := VInt(5)] == [VInt(5), VInt(0)];
    HolderEntry(c, VInt(5), VInt(0), {} + {0}, input, 5, 1);
    assert [VInt(5), VInt(0)][1 := VInt(6)] == [VInt(5), VInt(6)];
    HolderEnds(c, VStruct([VInt(5), VInt(6)]), {} + {0} + {0}, input, 9);
    PointAt(c, VInt(0), VInt(0), input, 6, 1);
    assert [VInt(0), VInt(0)][1 := VInt(6)] == [VInt(0), VInt(6)];
  }

  lemma InitialPoint()
    ensures Initial(TStruct(Point(), Unknown(true, []))) == VStruct([VInt(0), VInt(0)])
    ensures Initial(TStruct(Holder(), Unknown(true, []))) == VStruct([VStruct([VInt(0), VInt(0)])])
    ensures |Holder()| == 1 && |Point()| == 2
  {
    assert Inits(Point()) == [VInt(0), VInt(0)];
    assert Inits(Holder()) == [VStruct([VInt(0), VInt(0)])];
  }
}
