/** Keys of decoded maps: spelled as text or as integers, and repeated. */
module MapLaws {
  import opened Bytes
  import opened Head
  import opened Utf8
  import opened Item
  import opened SkipSpec
  import opened BuildSpec
  import opened BuildSteps
  import opened Wires
  import opened WireRead
  import opened Meanings
  import opened MeaningRead
  import opened DecodeMeans
  import opened DecodeLaws
  import MapKeys

  // ---- text keys of maps with integer keys ----

  /** An integer item. */
  predicate NumberItem(o: Options, k: Item, i: int) {
    -TWO63 <= i && Core(o, k) == Some(if i >= 0 then UInt(i) else NInt(-1 - i))
  }

  /** `k` spells as text the integer of the type that `k'` is. */
  ghost predicate Respelled(o: Options, t: IntType, k: Item, k': Item) {
    exists i, name :: t.Has(i) && NumberItem(o, k', i) && TextKey(o, k, name) && MapKeys.Spelled(t.Signed?, name, i)
  }

  /** The same entries, but for keys of the first that are respelled. */
  ghost predicate SameEntries(o: Options, t: IntType, s: WireEntries, s': WireEntries) {
    if s.NoPairs? || s'.NoPairs? then s.NoPairs? && s'.NoPairs?
    else
      && TreeOf(s.val) == TreeOf(s'.val) && SameEntries(o, t, s.rest, s'.rest)
      && (TreeOf(s.key) == TreeOf(s'.key) || Respelled(o, t, TreeOf(s.key), TreeOf(s'.key)))
  }

  lemma RespelledIs(o: Options, t: IntType, k: Item, k': Item)
    requires Respelled(o, t, k, k')
    ensures MapKeyIn(o, IntKeys(t), k) == MapKeyIn(o, IntKeys(t), k')
  {
    hide ParseKey, MapKeys.Spelled;
    var i, name :| t.Has(i) && NumberItem(o, k', i) && TextKey(o, k, name) && MapKeys.Spelled(t.Signed?, name, i);
    MapKeys.KeyExact(t, name, 0, i);
  }

  lemma {:induction false} SameFold(c: Config, t: IntType, unique: bool, elem: Ty, f: Filling, s: WireEntries,
                                    s': WireEntries)
    requires SameEntries(c.opts, t, s, s')
    ensures FoldPairs(c, IntKeys(t), unique, elem, f, PairTrees(s))
         == FoldPairs(c, IntKeys(t), unique, elem, f, PairTrees(s'))
    decreases s
  {
    hide FoldPairs, PairTrees, TreeOf, Meaning, MapKeyIn, Respelled, AllUnder;
    if f.Halted? {
      FoldPairsHalted(c, IntKeys(t), unique, elem, f, s);
      FoldPairsHalted(c, IntKeys(t), unique, elem, f, s');
    } else {
      FoldPairsStep(c, IntKeys(t), unique, elem, f, s);
      FoldPairsStep(c, IntKeys(t), unique, elem, f, s');
      if s.Pairs? {
        if TreeOf(s.key) != TreeOf(s'.key) {
          RespelledIs(c.opts, t, TreeOf(s.key), TreeOf(s'.key));
        }
        SameFold(c, t, unique, elem, PairOf(c, IntKeys(t), unique, elem, f.done, f.errs, s), s.rest, s'.rest);
      }
    }
  }

  /** Keys spelled as text decode like the integers they spell. */
  lemma RespelledAlike(c: Config, t: IntType, unique: bool, elem: Ty, seed: Value, input: seq<byte>, pos: nat,
                       form: Form, input': seq<byte>, pos': nat, form': Form, depth: nat, s: WireEntries,
                       s': WireEntries)
    requires Lies(c.opts, input, pos, depth, WMap(form, s)) && Lies(c.opts, input', pos', depth, WMap(form', s'))
    requires SameEntries(c.opts, t, s, s')
    ensures pos <= |input| && pos' <= |input'|
    ensures Alike(Decode(c, TMap(IntKeys(t), unique, elem), seed, input, pos, depth),
                  Decode(c, TMap(IntKeys(t), unique, elem), seed, input', pos', depth))
  {
    hide Decode, Lies, FoldPairs, PairTrees, Says, Alike, SameEntries, Coded;
    var ty := TMap(IntKeys(t), unique, elem);
    DecodeMeant(c, ty, seed, input, pos, depth, WMap(form, s));
    DecodeMeant(c, ty, seed, input', pos', depth, WMap(form', s'));
    SameFold(c, t, unique, elem, Adding([], []), s, s');
    SaysAlike(Decode(c, ty, seed, input, pos, depth), Decode(c, ty, seed, input', pos', depth),
              Meaning(c, ty, seed, TreeOf(WMap(form, s))), pos + |Coded(WMap(form, s))|,
              pos' + |Coded(WMap(form', s'))|);
  }

  // ---- repeated keys ----

  ghost predicate PairFrontSays(c: Config, keys: KeyType, unique: bool, elem: Ty, was: seq<Complaint>,
                                input: seq<byte>, end: nat, depth: nat, form: Form, back: WireEntries, whole: Res,
                                f: Filling, errs: seq<Failure>)
    requires end <= |input|
  {
    if f.Halted? then StopsAs(was, whole, f.out)
    else f.errs == was + BareAll(errs)
         && whole == Also(errs, MapLoop(c, keys, unique, elem, f.done, input, end, depth, form, back))
  }

  ghost function PairFold(c: Config, keys: KeyType, unique: bool, elem: Ty, done: seq<Pair>, was: seq<Complaint>,
                          s: WireEntries): Filling {
    FoldPairs(c, keys, unique, elem, Adding(done, was), PairTrees(s))
  }

  lemma PairFoldStep(c: Config, keys: KeyType, unique: bool, elem: Ty, done: seq<Pair>, was: seq<Complaint>,
                     s: WireEntries)
    ensures PairFold(c, keys, unique, elem, done, was, s)
            == if s.NoPairs? then Adding(done, was)
               else
                 var f := PairOf(c, keys, unique, elem, done, was, s);
                 if f.Halted? then f else PairFold(c, keys, unique, elem, f.done, f.errs, s.rest)
  {
    hide FoldPairs, PairTrees, PairStep;
    FoldPairsStep(c, keys, unique, elem, Adding(done, was), s);
    if s.Pairs? {
      var f := PairOf(c, keys, unique, elem, done, was, s);
      if f.Halted? {
        FoldPairsHalted(c, keys, unique, elem, f, s.rest);
      }
    }
  }

  /** The loop of a map stops among the entries of `front`, or goes on behind them. */
  lemma {:induction false} PairFrontTurn(c: Config, keys: KeyType, unique: bool, elem: Ty, done: seq<Pair>,
                                         was: seq<Complaint>, input: seq<byte>, pos: nat, depth: nat, form: Form,
                                         front: WireEntries, back: WireEntries) returns (errs: seq<Failure>)
    requires EntriesLie(c.opts, input, pos, depth, form, Join(front, back))
    ensures pos <= After(pos, front) <= |input| && EntriesLie(c.opts, input, After(pos, front), depth, form, back)
    ensures PairFrontSays(c, keys, unique, elem, was, input, After(pos, front), depth, form, back,
                          MapLoop(c, keys, unique, elem, done, input, pos, depth, form, Join(front, back)),
                          PairFold(c, keys, unique, elem, done, was, front), errs)
    decreases front
  {
    hide MapLoop, PairFold, EntriesLie, Coded, PairStep, TreeOf, Also, SaysOn, BareAll, EntriesEnd, Join, CodedEntries,
         FormedEntries, Behind;
    PairFoldStep(c, keys, unique, elem, done, was, front);
    JoinStep(front, back);
    if front.NoPairs? {
      errs := [];
      AfterNothing(c.opts, input, pos, depth, form, back);
      BareNothing();
      AlsoNothing(MapLoop(c, keys, unique, elem, done, input, pos, depth, form, back));
    } else {
      var s := Join(front, back);
      var first := PairTurn(c, keys, unique, elem, done, was, input, pos, depth, form, s);
      EndsBehind(c.opts, input, pos, depth, form, s);
      AfterStep(pos, front);
      SameBehind(pos, front, back);
      var f, q := PairOf(c, keys, unique, elem, done, was, front), Behind(pos, s);
      if f.Adding? {
        var others := PairFrontTurn(c, keys, unique, elem, f.done, f.errs, input, q, depth, form, front.rest, back);
        errs := first + others;
        PairsThen(c, keys, unique, elem, was, input, After(pos, front), depth, form, back,
                  MapLoop(c, keys, unique, elem, f.done, input, q, depth, form, s.rest), f.errs,
                  PairFold(c, keys, unique, elem, f.done, f.errs, front.rest), first, others);
      } else {
        var none := PairFrontTurn(c, keys, unique, elem, done, was, input, q, depth, form, front.rest, back);
        errs := first;
      }
    }
  }

  lemma AfterNothing(o: Options, input: seq<byte>, pos: nat, depth: nat, form: Form, back: WireEntries)
    requires EntriesLie(o, input, pos, depth, form, back)
    ensures After(pos, NoPairs) == pos <= |input|
  {
    hide FormedEntries;
  }

  lemma SameBehind(pos: nat, front: WireEntries, back: WireEntries)
    requires front.Pairs?
    ensures Behind(pos, Join(front, back)) == Behind(pos, front)
  {
    hide Coded;
  }

  lemma PairsThen(c: Config, keys: KeyType, unique: bool, elem: Ty, was: seq<Complaint>, input: seq<byte>, end: nat,
                  depth: nat, form: Form, back: WireEntries, inner: Res, mid: seq<Complaint>, f: Filling,
                  first: seq<Failure>, others: seq<Failure>)
    requires end <= |input| && mid == was + BareAll(first)
    requires PairFrontSays(c, keys, unique, elem, mid, input, end, depth, form, back, inner, f, others)
    ensures PairFrontSays(c, keys, unique, elem, was, input, end, depth, form, back, Also(first, inner), f,
                          first + others)
  {
    hide MapLoop, Also, SaysOn;
    if f.Halted? {
      SaysOnAlso(was, first, inner, f.out, 0);
      StillStops(first, inner);
    } else {
      AlsoAlso(first, others, MapLoop(c, keys, unique, elem, f.done, input, end, depth, form, back));
      BareJoin(first, others);
      assert was + BareAll(first) + BareAll(others) == was + (BareAll(first) + BareAll(others));
    }
  }

  /** One of the entries has this key. */
  predicate KeyOccurs(o: Options, keys: KeyType, s: WireEntries, key: MapKey) {
    s.Pairs? && (MapKeyIn(o, keys, TreeOf(s.key)) == Seen(key) || KeyOccurs(o, keys, s.rest, key))
  }

  predicate HasPair(done: seq<Pair>, key: MapKey) {
    exists i :: 0 <= i < |done| && done[i].key == key
  }

  lemma PairMarks(c: Config, keys: KeyType, unique: bool, elem: Ty, done: seq<Pair>, was: seq<Complaint>,
                  s: WireEntries, key: MapKey)
    requires s.Pairs? && (HasPair(done, key) || MapKeyIn(c.opts, keys, TreeOf(s.key)) == Seen(key))
    ensures var f := PairOf(c, keys, unique, elem, done, was, s);
            f.Adding? ==> HasPair(f.done, key)
  {
    hide Meaning, MapKeyIn, TreeOf, Inside, FindEntry;
    var f := PairOf(c, keys, unique, elem, done, was, s);
    if f.Adding? {
      var k := MapKeyIn(c.opts, keys, TreeOf(s.key)).value;
      if i :| 0 <= i < |done| && done[i].key == key {
        assert f.done[i].key == key;
      }
      var there := if unique then FindEntry(done, k) else None;
      if there.Some? {
        assert f.done[there.value].key == k;
      } else {
        assert f.done[|done|].key == k;
      }
    }
  }

  lemma {:induction false} KeyIsThere(c: Config, keys: KeyType, unique: bool, elem: Ty, done: seq<Pair>,
                                      was: seq<Complaint>, front: WireEntries, key: MapKey)
    requires HasPair(done, key) || KeyOccurs(c.opts, keys, front, key)
    ensures var f := PairFold(c, keys, unique, elem, done, was, front);
            f.Adding? ==> HasPair(f.done, key)
    decreases front
  {
    hide PairFold, PairOf, TreeOf, MapKeyIn, HasPair;
    PairFoldStep(c, keys, unique, elem, done, was, front);
    if front.Pairs? {
      var f := PairOf(c, keys, unique, elem, done, was, front);
      if HasPair(done, key) || MapKeyIn(c.opts, keys, TreeOf(front.key)) == Seen(key) {
        PairMarks(c, keys, unique, elem, done, was, front, key);
      }
      if f.Adding? {
        KeyIsThere(c, keys, unique, elem, f.done, f.errs, front.rest, key);
      }
    }
  }

  lemma MapOpens(c: Config, keys: KeyType, unique: bool, elem: Ty, seed: Value, input: seq<byte>, pos: nat,
                 depth: nat, form: Form, s: WireEntries)
    requires Lies(c.opts, input, pos, depth, WMap(form, s))
    ensures pos <= |input| && BodyOf(pos, form, s) <= |input|
    ensures EntriesLie(c.opts, input, BodyOf(pos, form, s), depth + 1, form, s)
    ensures Decode(c, TMap(keys, unique, elem), seed, input, pos, depth)
         == MapLoop(c, keys, unique, elem, [], input, BodyOf(pos, form, s), depth + 1, form, s)
  {
    hide DecodeEntries, OpenContainer, Remaining, FormHead, FormEnd, CodedEntries, FormedEntries, At;
    ContainerTold(c.opts, input, pos, depth, WMap(form, s), MAP);
  }

  /** What the entries of `front` leave in a map that keeps one entry for each key. */
  ghost function Filled(c: Config, keys: KeyType, elem: Ty, front: WireEntries): Filling {
    PairFold(c, keys, true, elem, [], [], front)
  }

  lemma PairFronts(c: Config, keys: KeyType, elem: Ty, seed: Value, input: seq<byte>, pos: nat, depth: nat, form: Form,
                   front: WireEntries, back: WireEntries) returns (errs: seq<Failure>)
    requires Lies(c.opts, input, pos, depth, WMap(form, Join(front, back)))
    ensures pos <= |input| && EntryPlace(pos, form, front, back) <= |input|
            && EntriesLie(c.opts, input, EntryPlace(pos, form, front, back), depth + 1, form, back)
    ensures PairFrontSays(c, keys, true, elem, [], input, EntryPlace(pos, form, front, back), depth + 1, form, back,
                          Decode(c, TMap(keys, true, elem), seed, input, pos, depth),
                          Filled(c, keys, elem, front), errs)
  {
    hide PairFrontSays, Lies, EntriesLie, Decode, MapLoop, PairFold, Join, After, BodyOf;
    MapOpens(c, keys, true, elem, seed, input, pos, depth, form, Join(front, back));
    errs := PairFrontTurn(c, keys, true, elem, [], [], input, BodyOf(pos, form, Join(front, back)), depth + 1, form,
                          front, back);
  }

  /** An entry whose key is there already: refused at its key, or passed over. */
  lemma RepeatedTurn(c: Config, keys: KeyType, elem: Ty, done: seq<Pair>, input: seq<byte>, pos: nat, depth: nat,
                     form: Form, s: WireEntries, key: MapKey)
    requires EntriesLie(c.opts, input, pos, depth, form, s) && s.Pairs? && HasPair(done, key)
    requires MapKeyIn(c.opts, keys, TreeOf(s.key)) == Seen(key) && !c.duplicates.LastWins?
    ensures pos < Behind(pos, s) <= |input| && EntriesLie(c.opts, input, Behind(pos, s), depth, form, s.rest)
    ensures var whole := MapLoop(c, keys, true, elem, done, input, pos, depth, form, s);
            if c.duplicates.ErrorOnDuplicate?
            then whole.status == Some(Failure(DuplicateKey, pos, [StepOf(key)], false))
            else whole == MapLoop(c, keys, true, elem, done, input, Behind(pos, s), depth, form, s.rest)
  {
    hide DecodeEntries, EntriesLie, Lies, Coded, TreeOf, NextEntry, SkipItem, MapKeyAt, MapKeyIn, Remaining, SkipEntry,
         DecodeEntry, StepOf;
    EntryLies(c.opts, input, pos, depth, form, s);
    EndsBehind(c.opts, input, pos, depth, form, s);
    MapKeyTold(c.opts, keys, input, pos, depth, s.key);
    MapKeyStep(c, keys, true, elem, done, input, pos, depth, Remaining(form, s.Length()), None);
    SkipEntryStep(c, keys, true, elem, done, input, pos + |Coded(s.key)|, depth, Remaining(form, s.rest.Length()),
                  None);
    assert [] + [StepOf(key)] == [StepOf(key)];
  }

  lemma PairTailsAlike(c: Config, keys: KeyType, elem: Ty, done: seq<Pair>, input: seq<byte>, pos: nat, depth: nat,
                       form: Form, input': seq<byte>, pos': nat, form': Form, s: WireEntries)
    requires EntriesLie(c.opts, input, pos, depth, form, s) && EntriesLie(c.opts, input', pos', depth, form', s)
    ensures pos <= |input| && pos' <= |input'|
    ensures Alike(MapLoop(c, keys, true, elem, done, input, pos, depth, form, s),
                  MapLoop(c, keys, true, elem, done, input', pos', depth, form', s))
  {
    hide *;
    PairsMeant(c, keys, true, elem, done, [], input, pos, depth, form, s);
    PairsMeant(c, keys, true, elem, done, [], input', pos', depth, form', s);
    var m := MapEnd(FoldPairs(c, keys, true, elem, Adding(done, []), PairTrees(s)));
    var r, r' := MapLoop(c, keys, true, elem, done, input, pos, depth, form, s),
                 MapLoop(c, keys, true, elem, done, input', pos', depth, form', s);
    SaysIsOn(r, m, EntriesEnd(pos, form, s));
    SaysIsOn(r', m, EntriesEnd(pos', form', s));
    SaysAlike(r, r', m, EntriesEnd(pos, form, s), EntriesEnd(pos', form', s));
  }

  /** A key that has occurred before ends decoding, or keeps its first value. */
  lemma RepeatedPair(c: Config, keys: KeyType, elem: Ty, seed: Value, input: seq<byte>, pos: nat, form: Form,
                     input': seq<byte>, pos': nat, form': Form, depth: nat, front: WireEntries, k: Wire, v: Wire,
                     back: WireEntries, key: MapKey)
    requires WithEntry(c.opts, input, pos, form, input', pos', form', depth, front, k, v, back)
    requires MapKeyIn(c.opts, keys, TreeOf(k)) == Seen(key) && KeyOccurs(c.opts, keys, front, key)
    requires !c.duplicates.LastWins?
    ensures pos <= |input| && pos' <= |input'|
    ensures var r, r' := Decode(c, TMap(keys, true, elem), seed, input, pos, depth),
                         Decode(c, TMap(keys, true, elem), seed, input', pos', depth);
            var e := Failure(DuplicateKey, EntryPlace(pos, form, front, Pairs(k, v, back)), [StepOf(key)], false);
            if Filled(c, keys, elem, front).Halted? then Alike(r, r') && r.status.Some?
            else if c.duplicates.ErrorOnDuplicate? then r.status == Some(e)
            else Alike(r, r')
  {
    hide Decode, Lies, EntriesLie, MapLoop, PairFold, EntryPlace, Alike, StopsAs, SaysOn, TreeOf, BareAll, Join, Behind,
         MapKeyIn, KeyOccurs, HasPair, StepOf;
    var s := Pairs(k, v, back);
    var f := Filled(c, keys, elem, front);
    var errs := PairFronts(c, keys, elem, seed, input, pos, depth, form, front, s);
    var errs' := PairFronts(c, keys, elem, seed, input', pos', depth, form', front, back);
    if f.Halted? {
      StopsAlike(Decode(c, TMap(keys, true, elem), seed, input, pos, depth),
                 Decode(c, TMap(keys, true, elem), seed, input', pos', depth), f.out);
    } else {
      KeyIsThere(c, keys, true, elem, [], [], front, key);
      var at, at' := EntryPlace(pos, form, front, s), EntryPlace(pos', form', front, back);
      RepeatedTurn(c, keys, elem, f.done, input, at, depth + 1, form, s, key);
      PairTailsAlike(c, keys, elem, f.done, input, Behind(at, s), depth + 1, form, input', at', form', back);
      BareNothing();
      AlsoAlike(errs, errs', MapLoop(c, keys, true, elem, f.done, input, Behind(at, s), depth + 1, form, back),
                MapLoop(c, keys, true, elem, f.done, input', at', depth + 1, form', back));
    }
  }
}
