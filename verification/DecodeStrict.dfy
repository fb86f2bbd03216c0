/** What typed decoding accepts in deterministic mode it accepts in lenient mode, as the same value. */
module DecodeStrict {
  import opened Bytes
  import opened Head
  import opened Utf8
  import opened SkipSpec
  import opened ReadSpec
  import opened BuildSpec
  import opened BuildSteps
  import opened Wires
  import opened WireRead
  import opened Meanings
  import opened DecodeExact
  import DecodeMeans

  function Loose(o: Options): Options {
    o.(requireDeterministic := false)
  }

  function LooseConfig(c: Config): Config {
    c.(opts := Loose(c.opts))
  }

  /** Success, with nothing collected. */
  predicate Clean(r: Res) {
    r.status.None? && r.errs == []
  }

  lemma CleanAlso(errs: seq<Failure>, r: Res)
    requires Clean(Also(errs, r))
    ensures errs == [] && Clean(r) && Also(errs, r) == r
  {
    assert |errs + r.errs| == 0;
  }

  lemma CleanPushed(es: seq<Failure>, s: PathStep)
    ensures PushAll(es, s) == [] <==> es == []
  {
    assert |PushAll(es, s)| == |es|;
  }

  // ---- heads and scalars ----

  lemma {:induction false} HeadLoose(o: Options, input: seq<byte>, pos: nat)
    ensures PeekKind(Loose(o), input, pos) == PeekKind(o, input, pos)
    ensures ItemHead(o, input, pos).HeadAt? ==> ItemHead(Loose(o), input, pos) == ItemHead(o, input, pos)
    decreases |input| - pos
  {
    hide ParseHead;
    var h := ParseHead(input, pos);
    if h.length > 0 && h.mt == TAG {
      HeadLoose(o, input, pos + h.length);
    }
  }

  lemma ScalarLoose(o: Options, input: seq<byte>, at: nat)
    requires at < |input| && HeadError(o, ParseHead(input, at), at).None?
    requires var m := ParseHead(input, at).mt; m == TEXT || m == BYTES
    ensures HeadError(Loose(o), ParseHead(input, at), at).None?
    ensures var r := ReadScalar(o, input, at, false); r.Read? ==> ReadScalar(Loose(o), input, at, false) == r
  {
    hide ParseHead, WellFormed, FirstBad, ReadChunks;
    ChunksLoose(o, input, at);
  }

  lemma ChunksLoose(o: Options, input: seq<byte>, at: nat)
    requires at < |input| && HeadError(o, ParseHead(input, at), at).None?
    ensures var h := ParseHead(input, at);
            ReadString(o, input, at, h).String? ==> ReadString(Loose(o), input, at, h) == ReadString(o, input, at, h)
  {
    hide ParseHead, WellFormed, FirstBad, ReadChunks;
    if !o.requireDeterministic {
      assert Loose(o) == o;
    }
  }

  lemma TextLoose(o: Options, input: seq<byte>, pos: nat)
    ensures ExpectText(o, input, pos).Got? ==> ExpectText(Loose(o), input, pos) == ExpectText(o, input, pos)
    ensures ExpectBytes(o, input, pos).Got? ==> ExpectBytes(Loose(o), input, pos) == ExpectBytes(o, input, pos)
  {
    hide ParseHead, ItemHead, HeadError, ReadScalar;
    HeadLoose(o, input, pos);
    var h := ItemHead(o, input, pos);
    if h.HeadAt? && (h.head.mt == TEXT || h.head.mt == BYTES) {
      ScalarLoose(o, input, h.at);
    }
  }

  lemma NumbersLoose(o: Options, input: seq<byte>, pos: nat)
    ensures ExpectUInt(o, input, pos).Got? ==> ExpectUInt(Loose(o), input, pos) == ExpectUInt(o, input, pos)
    ensures ExpectSInt(o, input, pos).Got? ==> ExpectSInt(Loose(o), input, pos) == ExpectSInt(o, input, pos)
    ensures forall a, b :: ExpectSimple(o, input, pos, a, b).Got? ==>
                             ExpectSimple(Loose(o), input, pos, a, b) == ExpectSimple(o, input, pos, a, b)
    ensures forall depth, m :: OpenContainer(o, input, pos, depth, m).Opened? ==>
                                 OpenContainer(Loose(o), input, pos, depth, m) == OpenContainer(o, input, pos, depth, m)
  {
    hide ParseHead, ItemHead, HeadError;
    HeadLoose(o, input, pos);
  }

  lemma IntLoose(o: Options, t: IntType, seed: Value, input: seq<byte>, pos: nat)
    requires pos <= |input|
    ensures var r := DecodeInt(o, t, seed, input, pos);
            r.status.None? ==> DecodeInt(Loose(o), t, seed, input, pos) == r
  {
    hide ExpectUInt, ExpectSInt, ExpectSimple, OpenContainer;
    NumbersLoose(o, input, pos);
  }

  lemma StringLoose(c: Config, t: Ty, seed: Value, input: seq<byte>, pos: nat, depth: nat)
    requires pos <= |input| && (t.TText? || t.TNamed? || t.TBytes? || t.TBool?)
    requires Clean(Decode(c, t, seed, input, pos, depth))
    ensures Decode(LooseConfig(c), t, seed, input, pos, depth) == Decode(c, t, seed, input, pos, depth)
  {
    hide ExpectText, ExpectBytes, ExpectSimple, FindNamed, ExpectUInt, ExpectSInt, OpenContainer;
    TextLoose(c.opts, input, pos);
    NumbersLoose(c.opts, input, pos);
  }

  lemma LeafLoose(c: Config, t: Ty, seed: Value, input: seq<byte>, pos: nat, depth: nat)
    requires pos <= |input| && DecodeMeans.IsLeaf(t) && Clean(Decode(c, t, seed, input, pos, depth))
    ensures Decode(LooseConfig(c), t, seed, input, pos, depth) == Decode(c, t, seed, input, pos, depth)
  {
    hide DecodeInt, DecodeText, DecodeBytes, DecodeBool, DecodeNamedEnum;
    if t.TInt? {
      IntLoose(c.opts, t.range, seed, input, pos);
    } else if t.TEnum? {
      IntLoose(c.opts, t.repr, VInt(0), input, pos);
    } else {
      StringLoose(c, t, seed, input, pos, depth);
    }
  }

  lemma NullLoose(o: Options, seed: Value, input: seq<byte>, pos: nat)
    requires pos <= |input| && Clean(DecodeNull(o, seed, input, pos))
    ensures DecodeNull(Loose(o), seed, input, pos) == DecodeNull(o, seed, input, pos)
  {
    hide ExpectUInt, ExpectSInt, ExpectSimple, OpenContainer;
    NumbersLoose(o, input, pos);
  }

  lemma MapKeyLoose(o: Options, keys: KeyType, input: seq<byte>, pos: nat)
    requires MapKeyAt(o, keys, input, pos).Got?
    ensures MapKeyAt(Loose(o), keys, input, pos) == MapKeyAt(o, keys, input, pos)
  {
    hide ExpectText, ExpectBytes, ExpectUInt, ExpectSInt, ExpectSimple, PeekKind, ParseKey, OpenContainer, ItemHead;
    TextLoose(o, input, pos);
    NumbersLoose(o, input, pos);
    HeadLoose(o, input, pos);
  }

  lemma MemberKeyLoose(o: Options, fields: seq<Field>, input: seq<byte>, pos: nat)
    requires pos <= |input| && !MemberKeyAt(o, fields, input, pos).BadKey?
    ensures MemberKeyAt(Loose(o), fields, input, pos) == MemberKeyAt(o, fields, input, pos)
  {
    hide ExpectText, ExpectBytes, ExpectUInt, ExpectSInt, ExpectSimple, PeekKind, FindName, FindKey, AnyIntKeys,
         OpenContainer, ItemHead;
    TextLoose(o, input, pos);
    NumbersLoose(o, input, pos);
    HeadLoose(o, input, pos);
  }

  // ---- the validator ----

  lemma SkipScalarLoose(o: Options, input: seq<byte>, pos: nat)
    requires pos < |input| && HeadError(o, ParseHead(input, pos), pos).None?
    requires var h := ParseHead(input, pos);
             h.length > 0 && !h.isBreak && !h.reserved && h.mt != ARRAY && h.mt != MAP && h.mt != TAG
    ensures SkipScalar(o, input, pos).Done? ==> SkipScalar(Loose(o), input, pos) == SkipScalar(o, input, pos)
  {
    hide ParseHead, WellFormed, FirstBad, ReadString;
    ChunksLoose(o, input, pos);
  }

  /** What the validator passes in deterministic mode passes in lenient mode. */
  lemma {:induction false} SkipLoose(o: Options, input: seq<byte>, pos: nat, depth: nat)
    requires pos <= |input| && SkipItem(o, input, pos, depth).Done?
    ensures SkipItem(Loose(o), input, pos, depth) == SkipItem(o, input, pos, depth)
    decreases |input| - pos, 0
  {
    hide SkipLevel, ParseHead, SkipScalar;
    var h := ParseHead(input, pos);
    if h.mt == TAG {
      SkipLoose(o, input, pos + h.length, depth);
    } else if h.mt == ARRAY || h.mt == MAP {
      if h.indefinite || h.value > 0 {
        LevelLoose(o, input, pos + h.length, depth + 1, OpenLevel(h), OpenLevel(h));
      }
    } else {
      SkipScalarLoose(o, input, pos);
    }
  }

  /** Levels that differ in what is remembered of keys. */
  predicate SameWork(lv: Level, lv': Level) {
    lv'.isMap == lv.isMap && lv'.remaining == lv.remaining && lv'.keyNext == lv.keyNext
  }

  lemma {:induction false} LevelLoose(o: Options, input: seq<byte>, pos: nat, depth: nat, lv: Level, lv': Level)
    requires pos <= |input| && lv.Ok(pos) && lv'.Ok(pos) && SameWork(lv, lv')
    requires SkipLevel(o, input, pos, depth, lv).Done?
    ensures SkipLevel(Loose(o), input, pos, depth, lv') == SkipLevel(o, input, pos, depth, lv)
    decreases |input| - pos, 1
  {
    hide SkipItem, ParseHead;
    if !ParseHead(input, pos).isBreak {
      SkipLoose(o, input, pos, depth);
      var p := SkipItem(o, input, pos, depth).pos;
      StepLoose(o, input, pos, p, lv, lv');
      var step, step' := AfterItem(o, input, p, AtItem(o, lv, pos)),
                       AfterItem(Loose(o), input, p, AtItem(Loose(o), lv', pos));
      if step.More? {
        LevelLoose(o, input, p, depth, step.level, step'.level);
      }
    }
  }

  lemma StepLoose(o: Options, input: seq<byte>, pos: nat, p: nat, lv: Level, lv': Level)
    requires pos <= p <= |input| && lv.Ok(pos) && lv'.Ok(pos) && SameWork(lv, lv')
    ensures AtItem(o, lv, pos).Ok(p) && AtItem(Loose(o), lv', pos).Ok(p)
    ensures var step, step' := AfterItem(o, input, p, AtItem(o, lv, pos)),
                               AfterItem(Loose(o), input, p, AtItem(Loose(o), lv', pos));
            && (step.Complete? ==> step'.Complete?)
            && (step.More? ==> step'.More? && SameWork(step.level, step'.level))
  {
    hide Less;
  }

  lemma NextLoose(o: Options, input: seq<byte>, pos: nat, depth: nat, remaining: Option<nat>, prev: Option<Extent>)
    requires pos <= |input| && ExtentOk(prev, |input|)
    ensures var s, l := NextEntry(o, input, pos, depth, remaining, prev),
                        NextEntry(Loose(o), input, pos, depth, remaining, None);
            (s.EntryEnd? ==> l == s) && (s.EntryAt? ==> l == EntryAt(s.remaining, None))
  {
    hide CursorNext, SkipItem;
  }

  // ---- loops ----

  lemma {:induction false} ElemsLoose(c: Config, elem: Ty, done: seq<Value>, input: seq<byte>, pos: nat, depth: nat,
                                      remaining: Option<nat>)
    requires pos <= |input| && Clean(DecodeElems(c, elem, done, input, pos, depth, remaining))
    ensures DecodeElems(LooseConfig(c), elem, done, input, pos, depth, remaining)
         == DecodeElems(c, elem, done, input, pos, depth, remaining)
    decreases |input| - pos, elem, 2
  {
    hide DecodeElems, Decode, CursorNext, Initial, PushAll, Push, Also;
    ElemsStep(c, elem, done, input, pos, depth, remaining);
    ElemsStep(LooseConfig(c), elem, done, input, pos, depth, remaining);
    var next := CursorNext(input, pos, remaining);
    if next.CursorItem? {
      var x := Decode(c, elem, Initial(elem), input, pos, depth);
      CleanPushed(x.errs, Index(|done|));
      CleanAlso(PushAll(x.errs, Index(|done|)),
                DecodeElems(c, elem, done + [x.value], input, x.pos, depth, next.remaining));
      DecodeLoose(c, elem, Initial(elem), input, pos, depth);
      ElemsLoose(c, elem, done + [x.value], input, x.pos, depth, next.remaining);
    }
  }

  lemma {:induction false} PlacesLoose(c: Config, elems: seq<Ty>, off: nat, vals: seq<Value>, i: nat, input: seq<byte>,
                                       pos: nat, depth: nat, remaining: Option<nat>)
    requires pos <= |input| && |vals| == |elems| && i <= |elems|
    requires Clean(DecodeItems(c, elems, off, vals, i, input, pos, depth, remaining))
    ensures DecodeItems(LooseConfig(c), elems, off, vals, i, input, pos, depth, remaining)
         == DecodeItems(c, elems, off, vals, i, input, pos, depth, remaining)
    decreases |input| - pos, elems, 2
  {
    hide DecodeItems, Decode, CursorNext, PushAll, Push, Also, SkipSurplus;
    var next := CursorNext(input, pos, remaining);
    if i == |elems| {
      ItemsDone(c, elems, off, vals, input, pos, depth, remaining);
      ItemsDone(LooseConfig(c), elems, off, vals, input, pos, depth, remaining);
    } else {
      ItemsStep(c, elems, off, vals, i, input, pos, depth, remaining);
      ItemsStep(LooseConfig(c), elems, off, vals, i, input, pos, depth, remaining);
      if next.CursorItem? {
        var x := Decode(c, elems[i], vals[i], input, pos, depth);
        CleanPushed(x.errs, Index(i));
        CleanAlso(PushAll(x.errs, Index(i)),
                  DecodeItems(c, elems, off, vals[i := x.value], i + 1, input, x.pos, depth, next.remaining));
        DecodeLoose(c, elems[i], vals[i], input, pos, depth);
        PlacesLoose(c, elems, off, vals[i := x.value], i + 1, input, x.pos, depth, next.remaining);
      }
    }
  }

  lemma {:induction false} PairsLoose(c: Config, keys: KeyType, unique: bool, elem: Ty, done: seq<Pair>,
                                      input: seq<byte>, pos: nat, depth: nat, remaining: Option<nat>,
                                      prev: Option<Extent>)
    requires pos <= |input| && ExtentOk(prev, |input|)
    requires Clean(DecodeEntries(c, keys, unique, elem, done, input, pos, depth, remaining, prev))
    ensures DecodeEntries(LooseConfig(c), keys, unique, elem, done, input, pos, depth, remaining, None)
         == DecodeEntries(c, keys, unique, elem, done, input, pos, depth, remaining, prev)
    decreases |input| - pos, elem, 2
  {
    hide DecodeEntries, Decode, NextEntry, PushAll, Push, Also, DecodeEntry, SkipEntry, MapKeyAt, Earlier, StepOf,
         SkipItem;
    var l := LooseConfig(c);
    NextLoose(c.opts, input, pos, depth, remaining, prev);
    EntriesStep(c, keys, unique, elem, done, input, pos, depth, remaining, prev);
    EntriesStep(l, keys, unique, elem, done, input, pos, depth, remaining, None);
    var next := NextEntry(c.opts, input, pos, depth, remaining, prev);
    if next.EntryAt? {
      MapKeyStep(c, keys, unique, elem, done, input, pos, depth, remaining, prev);
      MapKeyStep(l, keys, unique, elem, done, input, pos, depth, remaining, None);
      MapKeyLoose(c.opts, keys, input, pos);
      var key := MapKeyAt(c.opts, keys, input, pos);
      var found := Earlier(unique, done, key.value);
      if found.Some? && c.duplicates.FirstWins? {
        SkipEntryStep(c, keys, unique, elem, done, input, key.end, depth, next.remaining, next.prev);
        SkipEntryStep(l, keys, unique, elem, done, input, key.end, depth, next.remaining, None);
        SkipLoose(c.opts, input, key.end, depth);
        PairsLoose(c, keys, unique, elem, done, input, SkipItem(c.opts, input, key.end, depth).pos, depth,
                   next.remaining, next.prev);
      } else {
        PairLoose(c, keys, unique, elem, done, input, key.end, depth, next.remaining, next.prev, key.value, found);
      }
    }
  }

  lemma PairLoose(c: Config, keys: KeyType, unique: bool, elem: Ty, done: seq<Pair>, input: seq<byte>, p: nat,
                  depth: nat, left: Option<nat>, prev: Option<Extent>, key: MapKey, found: Option<nat>)
    requires p <= |input| && ExtentOk(prev, |input|) && (found.Some? ==> found.value < |done|)
    requires Clean(DecodeEntry(c, keys, unique, elem, done, input, p, depth, left, prev, key, found))
    ensures DecodeEntry(LooseConfig(c), keys, unique, elem, done, input, p, depth, left, None, key, found)
         == DecodeEntry(c, keys, unique, elem, done, input, p, depth, left, prev, key, found)
    decreases |input| - p, elem, 3
  {
    hide DecodeEntries, Decode, PushAll, Push, Also, DecodeEntry, StepOf, Initial;
    EntryIs(c, keys, unique, elem, done, input, p, depth, left, prev, key, found);
    EntryIs(LooseConfig(c), keys, unique, elem, done, input, p, depth, left, None, key, found);
    var seed := if found.Some? then done[found.value].val else Initial(elem);
    var x := Decode(c, elem, seed, input, p, depth);
    var pair := Pair(key, x.value);
    var done' := if found.Some? then done[found.value := pair] else done + [pair];
    CleanPushed(x.errs, StepOf(key));
    CleanAlso(PushAll(x.errs, StepOf(key)),
              DecodeEntries(c, keys, unique, elem, done', input, x.pos, depth, left, prev));
    DecodeLoose(c, elem, seed, input, p, depth);
    PairsLoose(c, keys, unique, elem, done', input, x.pos, depth, left, prev);
  }

  lemma SkipThenLoose(c: Config, fields: seq<Field>, unknown: Unknown, objOff: nat, vals: seq<Value>, seen: set<nat>,
                      input: seq<byte>, p: nat, depth: nat, left: Option<nat>, prev: Option<Extent>)
    requires p <= |input| && ExtentOk(prev, |input|) && |vals| == |fields|
    requires Clean(SkipThen(c, fields, unknown, objOff, vals, seen, input, p, depth, left, prev))
    ensures SkipThen(LooseConfig(c), fields, unknown, objOff, vals, seen, input, p, depth, left, None)
         == SkipThen(c, fields, unknown, objOff, vals, seen, input, p, depth, left, prev)
    decreases |input| - p, fields, 1
  {
    hide DecodeMembers, SkipThen, SkipItem;
    SkipStep(c, fields, unknown, objOff, vals, seen, input, p, depth, left, prev);
    SkipStep(LooseConfig(c), fields, unknown, objOff, vals, seen, input, p, depth, left, None);
    SkipLoose(c.opts, input, p, depth);
    MembersLoose(c, fields, unknown, objOff, vals, seen, input, SkipItem(c.opts, input, p, depth).pos, depth, left,
                 prev);
  }

  lemma MemberLoose(c: Config, fields: seq<Field>, unknown: Unknown, objOff: nat, vals: seq<Value>, seen: set<nat>,
                    input: seq<byte>, p: nat, depth: nat, left: Option<nat>, prev: Option<Extent>, m: nat)
    requires p <= |input| && ExtentOk(prev, |input|) && |vals| == |fields| && m < |fields|
    requires Clean(DecodeMember(c, fields, unknown, objOff, vals, seen, input, p, depth, left, prev, m))
    ensures DecodeMember(LooseConfig(c), fields, unknown, objOff, vals, seen, input, p, depth, left, None, m)
         == DecodeMember(c, fields, unknown, objOff, vals, seen, input, p, depth, left, prev, m)
    decreases |input| - p, fields, 3
  {
    hide DecodeMembers, DecodeMember, SkipThen, Decode, Also, Push, PushAll, IsSyntax;
    MemberStep(c, fields, unknown, objOff, vals, seen, input, p, depth, left, prev, m);
    MemberStep(LooseConfig(c), fields, unknown, objOff, vals, seen, input, p, depth, left, None, m);
    var x, step := Decode(c, fields[m].ty, vals[m], input, p, depth), Member(fields[m].ident);
    var vals', seen' := vals[m := x.value], seen + {m};
    if x.status.Some? {
      NotClean(PushAll(x.errs, step), Push(x.status.value, step),
               SkipThen(c, fields, unknown, objOff, vals', seen', input, p, depth, left, prev));
    }
    CleanPushed(x.errs, step);
    CleanAlso(PushAll(x.errs, step),
              DecodeMembers(c, fields, unknown, objOff, vals', seen', input, x.pos, depth, left, prev));
    DecodeLoose(c, fields[m].ty, vals[m], input, p, depth);
    MembersLoose(c, fields, unknown, objOff, vals', seen', input, x.pos, depth, left, prev);
  }

  lemma NotClean(errs: seq<Failure>, e: Failure, r: Res)
    ensures !Clean(Also(errs + [e], r)) && !Clean(Also([e], r))
  {
  }

  lemma {:induction false} MembersLoose(c: Config, fields: seq<Field>, unknown: Unknown, objOff: nat, vals: seq<Value>,
                                        seen: set<nat>, input: seq<byte>, pos: nat, depth: nat,
                                        remaining: Option<nat>, prev: Option<Extent>)
    requires pos <= |input| && ExtentOk(prev, |input|) && |vals| == |fields|
    requires Clean(DecodeMembers(c, fields, unknown, objOff, vals, seen, input, pos, depth, remaining, prev))
    ensures DecodeMembers(LooseConfig(c), fields, unknown, objOff, vals, seen, input, pos, depth, remaining, None)
         == DecodeMembers(c, fields, unknown, objOff, vals, seen, input, pos, depth, remaining, prev)
    decreases |input| - pos, fields, 2
  {
    hide DecodeMembers, NextEntry, Push, DecodeMember, SkipThen, MemberKeyAt, EntryTodo, FinishStruct, SkipItem, Also;
    var l := LooseConfig(c);
    NextLoose(c.opts, input, pos, depth, remaining, prev);
    MembersStep(c, fields, unknown, objOff, vals, seen, input, pos, depth, remaining, prev);
    MembersStep(l, fields, unknown, objOff, vals, seen, input, pos, depth, remaining, None);
    var next := NextEntry(c.opts, input, pos, depth, remaining, prev);
    if next.EntryEnd? {
      FinishLoose(c, fields, objOff, vals, seen, next.pos);
    } else {
      MemberKeyLoose(c.opts, fields, input, pos);
      var key := MemberKeyAt(c.opts, fields, input, pos);
      if key.HugeKey? {
        SkipThenLoose(c, fields, unknown, objOff, vals, seen, input, key.end, depth, next.remaining, next.prev);
      } else {
        TodoLoose(c, fields, unknown, seen, pos, key);
        var todo := EntryTodo(c, fields, unknown, seen, pos, key);
        if todo.Report? {
          NotClean([], todo.e, SkipThen(c, fields, unknown, objOff, vals, seen, input, key.end, depth, next.remaining,
                                        next.prev));
        } else if todo.SkipOver? {
          SkipThenLoose(c, fields, unknown, objOff, vals, seen, input, key.end, depth, next.remaining, next.prev);
        } else {
          MemberLoose(c, fields, unknown, objOff, vals, seen, input, key.end, depth, next.remaining, next.prev,
                      todo.member);
        }
      }
    }
  }

  lemma FinishLoose(c: Config, fields: seq<Field>, objOff: nat, vals: seq<Value>, seen: set<nat>, pos: nat)
    requires |vals| == |fields|
    ensures FinishStruct(LooseConfig(c), fields, objOff, vals, seen, pos)
         == FinishStruct(c, fields, objOff, vals, seen, pos)
  {
  }

  lemma TodoLoose(c: Config, fields: seq<Field>, unknown: Unknown, seen: set<nat>, keyOff: nat, k: MemberKey)
    requires k.FoundKey? && (k.member.Some? ==> k.member.value < |fields|)
    ensures EntryTodo(LooseConfig(c), fields, unknown, seen, keyOff, k)
         == EntryTodo(c, fields, unknown, seen, keyOff, k)
  {
  }

  // ---- variants ----

  lemma {:induction false} ScanLoose(o: Options, tag: seq<byte>, got: Option<(seq<byte>, nat)>, input: seq<byte>,
                                     pos: nat, depth: nat, remaining: Option<nat>, prev: Option<Extent>)
    requires pos <= |input| && ExtentOk(prev, |input|)
    requires FindTag(o, tag, got, input, pos, depth, remaining, prev).Scanned?
    ensures FindTag(Loose(o), tag, got, input, pos, depth, remaining, None)
         == FindTag(o, tag, got, input, pos, depth, remaining, prev)
    decreases |input| - pos
  {
    hide FindTag, NextEntry, ExpectText, SkipItem;
    NextLoose(o, input, pos, depth, remaining, prev);
    ScanStep(o, tag, got, input, pos, depth, remaining, prev);
    ScanStep(Loose(o), tag, got, input, pos, depth, remaining, None);
    var next := NextEntry(o, input, pos, depth, remaining, prev);
    if next.EntryAt? {
      TextLoose(o, input, pos);
      var key := ExpectText(o, input, pos);
      if got.None? && key.value == tag {
        TextLoose(o, input, key.end);
        var name := ExpectText(o, input, key.end);
        ScanLoose(o, tag, Some((name.value, key.end)), input, name.end, depth, next.remaining, next.prev);
      } else {
        SkipLoose(o, input, key.end, depth);
        ScanLoose(o, tag, got, input, SkipItem(o, input, key.end, depth).pos, depth, next.remaining, next.prev);
      }
    }
  }

  lemma ChoiceLoose(o: Options, tag: seq<byte>, alts: seq<(seq<byte>, Ty)>, input: seq<byte>, pos: nat, depth: nat)
    requires pos <= |input| && FindAlternative(o, tag, alts, input, pos, depth).Alternative?
    ensures FindAlternative(Loose(o), tag, alts, input, pos, depth) == FindAlternative(o, tag, alts, input, pos, depth)
  {
    hide FindTag, OpenContainer, ExpectUInt, ExpectSInt, ExpectSimple, FindAlt;
    NumbersLoose(o, input, pos);
    var m := OpenContainer(o, input, pos, depth, MAP);
    assert OpenContainer(Loose(o), input, pos, depth, MAP) == m;
    ScanLoose(o, tag, None, input, m.pos, depth + 1, m.remaining, None);
  }

  lemma {:induction false} BoxedLoose(c: Config, t: Ty, off: nat, done: Value, have: bool, input: seq<byte>, pos: nat,
                                      depth: nat, remaining: Option<nat>, prev: Option<Extent>)
    requires pos <= |input| && ExtentOk(prev, |input|)
    requires Clean(DecodeBoxed(c, t, off, done, have, input, pos, depth, remaining, prev))
    ensures DecodeBoxed(LooseConfig(c), t, off, done, have, input, pos, depth, remaining, None)
         == DecodeBoxed(c, t, off, done, have, input, pos, depth, remaining, prev)
    decreases |input| - pos, t, 2
  {
    hide DecodeBoxed, NextEntry, Push, PushAll, DecodeBoxValue, SkipBoxed, ExpectText, SkipItem, BoxEnd, VALUE, Also;
    var l := LooseConfig(c);
    NextLoose(c.opts, input, pos, depth, remaining, prev);
    BoxStep(c, t, off, done, have, input, pos, depth, remaining, prev);
    BoxStep(l, t, off, done, have, input, pos, depth, remaining, None);
    var next := NextEntry(c.opts, input, pos, depth, remaining, prev);
    if next.EntryAt? {
      BoxKeyStep(c, t, off, done, have, input, pos, depth, remaining, prev);
      BoxKeyStep(l, t, off, done, have, input, pos, depth, remaining, None);
      TextLoose(c.opts, input, pos);
      var key := ExpectText(c.opts, input, pos);
      var p, left := key.end, next.remaining;
      if key.value == VALUE {
        BoxValueLoose(c, t, off, done, input, p, depth, left, next.prev);
      } else {
        SkipBoxedStep(c, t, off, done, have, input, p, depth, left, next.prev);
        SkipBoxedStep(l, t, off, done, have, input, p, depth, left, None);
        SkipLoose(c.opts, input, p, depth);
        BoxedLoose(c, t, off, done, have, input, SkipItem(c.opts, input, p, depth).pos, depth, left, next.prev);
      }
    }
  }

  lemma BoxValueLoose(c: Config, t: Ty, off: nat, done: Value, input: seq<byte>, p: nat, depth: nat, left: Option<nat>,
                      prev: Option<Extent>)
    requires p <= |input| && ExtentOk(prev, |input|)
    requires Clean(DecodeBoxValue(c, t, off, done, input, p, depth, left, prev))
    ensures DecodeBoxValue(LooseConfig(c), t, off, done, input, p, depth, left, None)
         == DecodeBoxValue(c, t, off, done, input, p, depth, left, prev)
    decreases |input| - p, t, 3
  {
    hide DecodeBoxed, DecodeBoxValue, Decode, Also, Push, PushAll, VALUE;
    BoxValueStep(c, t, off, done, input, p, depth, left, prev);
    BoxValueStep(LooseConfig(c), t, off, done, input, p, depth, left, None);
    var x := Decode(c, t, done, input, p, depth);
    CleanPushed(x.errs, Member(VALUE));
    CleanAlso(PushAll(x.errs, Member(VALUE)), DecodeBoxed(c, t, off, x.value, true, input, x.pos, depth, left, prev));
    DecodeLoose(c, t, done, input, p, depth);
    BoxedLoose(c, t, off, x.value, true, input, x.pos, depth, left, prev);
  }

  // ---- every type ----

  lemma ContainerLoose(o: Options, input: seq<byte>, pos: nat, depth: nat, m: major)
    requires OpenContainer(o, input, pos, depth, m).Opened?
    ensures OpenContainer(Loose(o), input, pos, depth, m) == OpenContainer(o, input, pos, depth, m)
  {
    hide OpenContainer, ExpectUInt, ExpectSInt, ExpectSimple;
    NumbersLoose(o, input, pos);
  }

  lemma ArrayLoose(c: Config, t: Ty, seed: Value, input: seq<byte>, pos: nat, depth: nat)
    requires pos <= |input| && (t.TSeq? || t.TTuple? || t.TMap?) && Clean(Decode(c, t, seed, input, pos, depth))
    ensures Decode(LooseConfig(c), t, seed, input, pos, depth) == Decode(c, t, seed, input, pos, depth)
    decreases |input| - pos, t, 0
  {
    hide DecodeElems, DecodeItems, DecodeEntries, OpenContainer, ItemsOf;
    var m := if t.TMap? then MAP else ARRAY;
    ContainerLoose(c.opts, input, pos, depth, m);
    var a := OpenContainer(c.opts, input, pos, depth, m);
    if t.TSeq? {
      ElemsLoose(c, t.elem, [], input, a.pos, depth + 1, a.remaining);
    } else if t.TTuple? {
      PlacesLoose(c, t.elems, pos, ItemsOf(t.elems, seed), 0, input, a.pos, depth + 1, a.remaining);
    } else {
      PairsLoose(c, t.keys, t.unique, t.elem, [], input, a.pos, depth + 1, a.remaining, None);
    }
  }

  lemma ObjectLoose(c: Config, fields: seq<Field>, unknown: Unknown, seed: Value, input: seq<byte>, pos: nat,
                    depth: nat)
    requires pos <= |input| && Clean(DecodeObject(c, fields, unknown, seed, input, pos, depth))
    ensures DecodeObject(LooseConfig(c), fields, unknown, seed, input, pos, depth)
         == DecodeObject(c, fields, unknown, seed, input, pos, depth)
    decreases |input| - pos, fields, 3
  {
    hide DecodeMembers, OpenContainer, MembersOf;
    ContainerLoose(c.opts, input, pos, depth, MAP);
    var a := OpenContainer(c.opts, input, pos, depth, MAP);
    MembersLoose(c, fields, unknown, pos, MembersOf(fields, seed), {}, input, a.pos, depth + 1, a.remaining, None);
  }

  lemma BoxLoose(c: Config, t: Ty, input: seq<byte>, pos: nat, depth: nat)
    requires pos <= |input| && Clean(DecodeBox(c, t, input, pos, depth))
    ensures DecodeBox(LooseConfig(c), t, input, pos, depth) == DecodeBox(c, t, input, pos, depth)
    decreases |input| - pos, t, 3
  {
    hide DecodeBoxed, OpenContainer, Initial;
    ContainerLoose(c.opts, input, pos, depth, MAP);
    var a := OpenContainer(c.opts, input, pos, depth, MAP);
    BoxedLoose(c, t, pos, Initial(t), false, input, a.pos, depth + 1, a.remaining, None);
  }

  /** Success in deterministic mode is success in lenient mode, on every input and into every type: the same value and
      the same end. */
  lemma {:induction false} DecodeLoose(c: Config, t: Ty, seed: Value, input: seq<byte>, pos: nat, depth: nat)
    requires pos <= |input| && Clean(Decode(c, t, seed, input, pos, depth))
    ensures Decode(LooseConfig(c), t, seed, input, pos, depth) == Decode(c, t, seed, input, pos, depth)
    decreases |input| - pos, t, 1
  {
    hide DecodeObject, DecodeBox, FindAlternative, PeekKind, DecodeNull, InnerOf, Initial, PushAll, Push, ItemHead;
    match t
    case TOpt(elem) =>
      HeadLoose(c.opts, input, pos);
      if PeekKind(c.opts, input, pos).KNull? {
        NullLoose(c.opts, seed, input, pos);
      } else {
        DecodeLoose(c, elem, Initial(elem), input, pos, depth);
      }
    case TWrap(ident, elem) =>
      CleanPushed(Decode(c, elem, InnerOf(elem, seed), input, pos, depth).errs, Member(ident));
      DecodeLoose(c, elem, InnerOf(elem, seed), input, pos, depth);
    case TSeq(_) => ArrayLoose(c, t, seed, input, pos, depth);
    case TTuple(_) => ArrayLoose(c, t, seed, input, pos, depth);
    case TMap(_, _, _) => ArrayLoose(c, t, seed, input, pos, depth);
    case TStruct(fields, unknown) => ObjectLoose(c, fields, unknown, seed, input, pos, depth);
    case TVariant(tag, alts) =>
      ChoiceLoose(c.opts, tag, alts, input, pos, depth);
      var a := alts[FindAlternative(c.opts, tag, alts, input, pos, depth).i].1;
      if a.TStruct? {
        ObjectLoose(c, a.fields, a.unknown.(ignore := tag), Initial(a), input, pos, depth);
      } else {
        BoxLoose(c, a, input, pos, depth);
      }
    case _ => LeafLoose(c, t, seed, input, pos, depth);
  }

  /** What deterministic mode decodes is a well-formed encoding of an item that means the value. */
  lemma StrictMeans(c: Config, t: Ty, seed: Value, input: seq<byte>, pos: nat, depth: nat) returns (w: Wire)
    requires Readable(Loose(c.opts), input) && pos <= |input| && Clean(Decode(c, t, seed, input, pos, depth))
    ensures var r, l := Decode(c, t, seed, input, pos, depth), LooseConfig(c);
            WireAt(l.opts, input, pos, depth, w, r.pos) && Meaning(l, t, seed, TreeOf(w)) == Right(r.value)
  {
    hide Decode, Meaning, WireAt, TreeOf, Readable;
    DecodeLoose(c, t, seed, input, pos, depth);
    var r, l := Decode(c, t, seed, input, pos, depth), LooseConfig(c);
    Exact(l, t, seed, input, pos, depth, r.value, r.pos);
    w :| WireAt(l.opts, input, pos, depth, w, r.pos) && Meaning(l, t, seed, TreeOf(w)) == Right(r.value);
  }
}
