/** Small objects and maps, decoded. */
module DecodeExamples {
  import opened Bytes
  import opened Head
  import opened Utf8
  import opened Item
  import opened SkipSpec
  import opened BuildSpec
  import opened Wires
  import opened Meanings
  import opened DecodeMeans
  import opened DecodeLaws
  import MapKeys
  import N = JsonNumber

  /** A text of one ASCII character. */
  function Letter(b: byte): Wire {
    WString(true, 1, [b])
  }

  function Small(n: nat): Wire {
    WInt(false, n, n)
  }

  lemma SmallLies(o: Options, b: byte, n: nat, room: int)
    requires b < 0x80 && n < 24
    ensures Formed(o, Letter(b), room) && Coded(Letter(b)) == [0x61, b] && TreeOf(Letter(b)) == TextString([b])
    ensures Formed(o, Small(n), room) && Coded(Small(n)) == [n] && TreeOf(Small(n)) == UInt(n)
  {
    hide WellFormed;
    AsciiWellFormed([b]);
  }

  lemma EmptyLies(o: Options)
    requires !o.requireDeterministic && o.maxDepth > 0
    ensures Lies(o, [0xA0], 0, 0, WMap(Counted(0), NoPairs))
  {
    var w := WMap(Counted(0), NoPairs);
    assert Coded(w) == [0xA0];
    assert [0xA0][0..1] == [0xA0];
  }

  /** One entry, of a letter. */
  lemma OneLies(o: Options, b: byte, n: nat)
    requires !o.requireDeterministic && o.maxDepth > 0 && b < 0x80 && n < 24
    ensures Lies(o, [0xA1, 0x61, b, n], 0, 0, WMap(Counted(1), Pairs(Letter(b), Small(n), NoPairs)))
  {
    hide Formed;
    SmallLies(o, b, n, o.maxDepth - 1);
    var s := Pairs(Letter(b), Small(n), NoPairs);
    assert CodedEntries(s) == [0x61, b, n] by {
      assert CodedEntries(NoPairs) == [];
    }
    var w := WMap(Counted(1), s);
    assert s.Length() == 1;
    assert FormedEntries(o, s, o.maxDepth - 1);
    assert Formed(o, w, o.maxDepth) by { FormedIs(o, s, 1, o.maxDepth); }
    assert Coded(w) == [0xA1, 0x61, b, n];
    var input: seq<byte> := [0xA1, 0x61, b, n];
    assert input[0..4] == input;
  }

  lemma FormedIs(o: Options, s: WireEntries, n: nat, room: int)
    requires room > 0 && FormedEntries(o, s, room - 1) && s.Length() == n < 24
    ensures Formed(o, WMap(Counted(n), s), room)
  {
  }

  /** A1 61 78 01 into a struct without members: ignored, or refused at offset 1 when unknown keys are denied. */
  lemma UnknownKey(c: Config, refuse: bool, seed: Value)
    requires !c.opts.requireDeterministic && c.opts.maxDepth > 0
    ensures var r := Decode(c, TStruct([], Unknown(refuse, [])), seed, [0xA1, 0x61, 0x78, 0x01], 0, 0);
            var e := Failure(UnknownField, 1, [KeyText([0x78])], false);
            if !refuse then r.status.None? && r.value == VStruct([]) && r.errs == []
            else if c.collect then r.status.None? && r.value == VStruct([]) && r.errs == [e]
            else r.status == Some(e)
  {
    hide Decode, Lies, Formed, Coded, Alike, Reported, Says;
    var unknown := Unknown(refuse, []);
    var input, w: seq<byte> := [0xA1, 0x61, 0x78, 0x01], [0xA0];
    OneLies(c.opts, 0x78, 1);
    EmptyLies(c.opts);
    SmallLies(c.opts, 0x78, 1, 0);
    EmptyRead(c, unknown, seed);
    UnknownEntry(c, [], unknown, seed, input, 0, Counted(1), w, 0, Counted(0), 0, NoPairs, Letter(0x78), Small(1),
                 NoPairs, KeyText([0x78]));
    var r, r' := Decode(c, TStruct([], unknown), seed, input, 0, 0), Decode(c, TStruct([], unknown), seed, w, 0, 0);
    PlaceIs();
    if refuse {
      OnlyReported(c.collect, Failure(UnknownField, 1, [KeyText([0x78])], false), r, r');
    } else {
      OnlyAlike(r, r');
    }
  }

  lemma PlaceIs()
    ensures EntryPlace(0, Counted(1), NoPairs, Pairs(Letter(0x78), Small(1), NoPairs)) == 1
  {
  }

  lemma EmptyRead(c: Config, unknown: Unknown, seed: Value)
    requires !c.opts.requireDeterministic && c.opts.maxDepth > 0
    ensures var r := Decode(c, TStruct([], unknown), seed, [0xA0], 0, 0);
            r.status.None? && r.value == VStruct([]) && r.errs == []
  {
    hide Decode, Lies, Coded;
    EmptyLies(c.opts);
    DecodeMeant(c, TStruct([], unknown), seed, [0xA0], 0, 0, WMap(Counted(0), NoPairs));
    var g := Going([], {}, []);
    assert ObjectEnd(c, [], g) == Out(None, VStruct([]), []);
    assert MembersOf([], seed) == [];
    assert |BareAll(Decode(c, TStruct([], unknown), seed, [0xA0], 0, 0).errs)| == 0;
  }

  lemma OnlyAlike(r: Res, r': Res)
    requires Alike(r, r') && r'.status.None? && r'.errs == []
    ensures r.status.None? && r.value == r'.value && r.errs == []
  {
    assert |BareAll(r.errs)| == 0;
  }

  lemma OnlyReported(collect: bool, e: Failure, r: Res, r': Res)
    requires Reported(collect, e, r, r') && r'.status.None? && r'.errs == []
    ensures if collect then r.status.None? && r.value == r'.value && r.errs == [e] else r.status == Some(e)
  {
    if collect {
      var j :| 0 <= j < |r.errs| && r.errs[j] == e && BareAll(r.errs[..j] + r.errs[j + 1..]) == BareAll(r'.errs);
      assert |r.errs[..j] + r.errs[j + 1..]| == 0;
    }
  }

  // ---- a repeated member ----

  /** One member "a" of 8 bits. */
  function Fields(): seq<Field> {
    [Field([0x61], [0x61], [], None, false, false, false, Omission(false, false, false), None, VInt(0),
           TInt(Unsigned(255)))]
  }

  /** The entry "a": 1, and another "a": 2. */
  function First(): WireEntries {
    Pairs(Letter(0x61), Small(1), NoPairs)
  }

  function Both(): WireEntries {
    Join(First(), Pairs(Letter(0x61), Small(2), NoPairs))
  }

  lemma BothIs(o: Options, room: int)
    ensures Both() == Pairs(Letter(0x61), Small(1), Pairs(Letter(0x61), Small(2), NoPairs)) && Both().Length() == 2
    ensures CodedEntries(First()) == [0x61, 0x61, 0x01]
    ensures CodedEntries(Both()) == [0x61, 0x61, 0x01, 0x61, 0x61, 0x02] && FormedEntries(o, Both(), room)
  {
    hide Formed, Coded;
    SmallLies(o, 0x61, 1, room);
    SmallLies(o, 0x61, 2, room);
    var second := Pairs(Letter(0x61), Small(2), NoPairs);
    assert Join(NoPairs, second) == second;
    assert CodedEntries(NoPairs) == [] && second.Length() == 1;
    assert CodedEntries(second) == [0x61, 0x61, 0x02];
    assert FormedEntries(o, second, room);
  }

  lemma BothLie(o: Options)
    requires !o.requireDeterministic && o.maxDepth > 0
    ensures Lies(o, [0xA2, 0x61, 0x61, 0x01, 0x61, 0x61, 0x02], 0, 0, WMap(Counted(2), Both()))
    ensures EntryPlace(0, Counted(2), First(), Pairs(Letter(0x61), Small(2), NoPairs)) == 4
  {
    hide Formed, CodedEntries, FormedEntries, Both, First;
    BothIs(o, o.maxDepth - 1);
    FormedIs(o, Both(), 2, o.maxDepth);
    CodedIs(Both(), 2);
    assert FormHead(MAP, Counted(2), 2) == [0xA2];
    PlaceAfter();
    var input: seq<byte> := [0xA2, 0x61, 0x61, 0x01, 0x61, 0x61, 0x02];
    assert input[0..7] == input;
  }

  lemma PlaceAfter()
    requires Both().Length() == 2 && CodedEntries(First()) == [0x61, 0x61, 0x01]
    ensures EntryPlace(0, Counted(2), First(), Pairs(Letter(0x61), Small(2), NoPairs)) == 4
  {
    hide CodedEntries, Join, First, Letter, Small;
    assert Both() == Join(First(), Pairs(Letter(0x61), Small(2), NoPairs));
  }

  lemma CodedIs(s: WireEntries, n: nat)
    requires s.Length() == n < 24
    ensures Coded(WMap(Counted(n), s)) == [0xA0 + n] + CodedEntries(s)
  {
    hide CodedEntries;
  }

  lemma KeyIsA(o: Options)
    ensures Selects(o, Fields(), TextString([0x61]), 0, KeyText([0x61]))
    ensures Occurs(o, Fields(), First(), 0)
  {
    assert Core(o, TextString([0x61])) == Some(TextString([0x61]));
    assert Selects(o, Fields(), TreeOf(First().key), 0, KeyText([0x61]));
  }

  /** A1 61 61 01 is the struct with 1. */
  lemma FirstRead(c: Config, seed: Value)
    requires !c.opts.requireDeterministic && c.opts.maxDepth > 0
    ensures var r := Decode(c, TStruct(Fields(), Unknown(false, [])), seed, [0xA1, 0x61, 0x61, 0x01], 0, 0);
            r.status.None? && r.value == VStruct([VInt(1)]) && r.errs == []
  {
    hide Decode, Lies, Coded, Selects;
    var t := TStruct(Fields(), Unknown(false, []));
    var w := WMap(Counted(1), First());
    OneLies(c.opts, 0x61, 1);
    DecodeMeant(c, t, seed, [0xA1, 0x61, 0x61, 0x01], 0, 0, w);
    KeyIsA(c.opts);
    SelectsIs(c.opts, Fields(), TextString([0x61]), 0, KeyText([0x61]));
    var vals := MembersOf(Fields(), seed);
    FirstFolded(c, vals);
    var r := Decode(c, t, seed, [0xA1, 0x61, 0x61, 0x01], 0, 0);
    assert Missing(Fields(), {0}, 0) == [] by { assert Missing(Fields(), {0}, 1) == []; }
    assert WithDefaults(Fields(), {0}, [VInt(1)]) == [VInt(1)];
    assert |BareAll(r.errs)| == 0;
  }

  lemma FirstFolded(c: Config, vals: seq<Value>)
    requires |vals| == 1
    ensures FoldEntries(c, Fields(), Unknown(false, []), Going(vals, {}, []), PairTrees(First()))
         == Going([VInt(1)], {0}, [])
  {
    hide Selects;
    KeyIsA(c.opts);
    SelectsIs(c.opts, Fields(), TextString([0x61]), 0, KeyText([0x61]));
    var g := EntryStep(c, Fields(), Unknown(false, []), vals, {}, [], TextString([0x61]), UInt(1));
    assert vals[0 := VInt(1)] == [VInt(1)];
    assert g == Going([VInt(1)], {0}, []);
    assert PairTrees(First()) == Entries(TextString([0x61]), UInt(1), NoEntries);
  }

  /** {"a": 1, "a": 2}: a duplicate key at offset 4 under the error policy, 1 when the first wins. */
  lemma RepeatedKey(c: Config, seed: Value)
    requires !c.opts.requireDeterministic && c.opts.maxDepth > 0 && !c.duplicates.LastWins?
    ensures var r := Decode(c, TStruct(Fields(), Unknown(false, [])), seed, [0xA2, 0x61, 0x61, 0x01, 0x61, 0x61, 0x02],
                            0, 0);
            var e := Failure(DuplicateKey, 4, [KeyText([0x61])], false);
            if c.duplicates.FirstWins? then r.status.None? && r.value == VStruct([VInt(1)]) && r.errs == []
            else if c.collect then r.status.None? && r.value == VStruct([VInt(1)]) && r.errs == [e]
            else r.status == Some(e)
  {
    hide Decode, Lies, Formed, Coded, Alike, Reported, Says, Selects, Occurs;
    var input, w: seq<byte> := [0xA2, 0x61, 0x61, 0x01, 0x61, 0x61, 0x02], [0xA1, 0x61, 0x61, 0x01];
    var unknown := Unknown(false, []);
    BothLie(c.opts);
    OneLies(c.opts, 0x61, 1);
    KeyIsA(c.opts);
    FirstRead(c, seed);
    JoinNothing(First());
    RepeatedEntry(c, Fields(), unknown, seed, input, 0, Counted(2), w, 0, Counted(1), 0, First(), Letter(0x61),
                  Small(2), NoPairs, 0, KeyText([0x61]));
    var r, r' := Decode(c, TStruct(Fields(), unknown), seed, input, 0, 0),
                 Decode(c, TStruct(Fields(), unknown), seed, w, 0, 0);
    if c.duplicates.ErrorOnDuplicate? {
      OnlyReported(c.collect, Failure(DuplicateKey, 4, [KeyText([0x61])], false), r, r');
    } else {
      OnlyAlike(r, r');
    }
  }

  // ---- integer keys no member has ----

  /** One member with the integer key 1. */
  function Keyed(): seq<Field> {
    [Field([0x61], [0x61], [], Some(1), false, false, false, Omission(false, false, false), None, VInt(0),
           TInt(Unsigned(255)))]
  }

  /** A map of one entry, with an integer key. */
  function KeyedWire(ai: nat, k: nat): Wire {
    WMap(Counted(1), Pairs(WInt(false, ai, k), Small(1), NoPairs))
  }

  lemma KeyedLies(o: Options, ai: nat, k: nat)
    requires !o.requireDeterministic && o.maxDepth > 0 && HeadFits(ai, k)
    ensures var input := [0xA1] + (AnyHead(UINT, ai, k) + [0x01]);
            |input| < 20 && Lies(o, input, 0, 0, KeyedWire(ai, k))
    ensures EntryPlace(0, Counted(1), NoPairs, Pairs(WInt(false, ai, k), Small(1), NoPairs)) == 1
  {
    hide Formed, AnyHead, HeadFits;
    SmallLies(o, 0x61, 1, o.maxDepth - 1);
    KeyIs(o, ai, k, o.maxDepth - 1);
    var s := Pairs(WInt(false, ai, k), Small(1), NoPairs);
    assert CodedEntries(NoPairs) == [];
    assert CodedEntries(s) == AnyHead(UINT, ai, k) + [0x01];
    assert s.Length() == 1 && FormedEntries(o, s, o.maxDepth - 1);
    FormedIs(o, s, 1, o.maxDepth);
    CodedIs(s, 1);
    OneIs();
    var input := [0xA1] + (AnyHead(UINT, ai, k) + [0x01]);
    assert input[0..|input|] == input;
  }

  lemma KeyIs(o: Options, ai: nat, k: nat, room: int)
    requires HeadFits(ai, k)
    ensures Formed(o, WInt(false, ai, k), room) && Coded(WInt(false, ai, k)) == AnyHead(UINT, ai, k)
    ensures |AnyHead(UINT, ai, k)| <= 9 && TreeOf(WInt(false, ai, k)) == UInt(k)
  {
  }

  lemma OneIs()
    ensures FormHead(MAP, Counted(1), 1) == [0xA1]
  {
  }

  lemma KeyedIs(o: Options, k: nat)
    ensures AnyIntKeys(Keyed())
    ensures 1 < k < TWO63 ==> Unanswered(o, Keyed(), UInt(k), KeyInt(k))
  {
    assert Keyed()[0].key.Some?;
    if 1 < k < TWO63 {
      assert IntKey(o, UInt(k), k) && KeyInt(k) == IntStep(k);
    }
  }

  lemma KeyedEmptyRead(c: Config, seed: Value)
    requires !c.opts.requireDeterministic && c.opts.maxDepth > 0
    ensures var r := Decode(c, TStruct(Keyed(), Unknown(true, [])), seed, [0xA0], 0, 0);
            r.status.None? && r.errs == []
  {
    hide Decode, Lies, Coded;
    EmptyLies(c.opts);
    var t := TStruct(Keyed(), Unknown(true, []));
    DecodeMeant(c, t, seed, [0xA0], 0, 0, WMap(Counted(0), NoPairs));
    assert Missing(Keyed(), {}, 0) == [] by { assert Missing(Keyed(), {}, 1) == []; }
    assert |BareAll(Decode(c, t, seed, [0xA0], 0, 0).errs)| == 0;
  }

  /** Denied integer keys no member has: 2^63 ends decoding even when errors are collected, 2 is collected. */
  lemma HugeKeyEnds(c: Config, seed: Value)
    requires !c.opts.requireDeterministic && c.opts.maxDepth > 0 && c.collect
    ensures var t := TStruct(Keyed(), Unknown(true, []));
            var huge := Decode(c, t, seed, [0xA1] + (AnyHead(UINT, 27, TWO63) + [0x01]), 0, 0);
            var small := Decode(c, t, seed, [0xA1] + (AnyHead(UINT, 2, 2) + [0x01]), 0, 0);
            && huge.status == Some(Failure(UnknownField, 1, [KeyInt(TWO63)], false))
            && small.status.None? && small.errs == [Failure(UnknownField, 1, [KeyInt(2)], false)]
  {
    hide Decode, Lies, Coded, Alike, Reported, AnyHead, EntryPlace, Unanswered, AnyIntKeys;
    HugeFits();
    KeyedLies(c.opts, 27, TWO63);
    KeyedLies(c.opts, 2, 2);
    EmptyLies(c.opts);
    KeyedEmptyRead(c, seed);
    KeyedIs(c.opts, 2);
    var unknown := Unknown(true, []);
    var huge, small := [0xA1] + (AnyHead(UINT, 27, TWO63) + [0x01]), [0xA1] + (AnyHead(UINT, 2, 2) + [0x01]);
    HugeEntry(c, Keyed(), unknown, seed, huge, 0, Counted(1), [0xA0], 0, Counted(0), 0, NoPairs,
              WInt(false, 27, TWO63), Small(1), NoPairs, TWO63);
    UnknownEntry(c, Keyed(), unknown, seed, small, 0, Counted(1), [0xA0], 0, Counted(0), 0, NoPairs,
                 WInt(false, 2, 2), Small(1), NoPairs, KeyInt(2));
    var t := TStruct(Keyed(), unknown);
    OnlyReported(true, Failure(UnknownField, 1, [KeyInt(2)], false), Decode(c, t, seed, small, 0, 0),
                 Decode(c, t, seed, [0xA0], 0, 0));
  }

  lemma HugeFits()
    ensures HeadFits(27, TWO63) && HeadFits(2, 2)
  {
    Pow256Values();
  }

  // ---- a key spelled as text ----

  /** A1 62 2D 35 01 as a map from signed 8-bit integers is {-5: 1}. */
  lemma NegativeKey(c: Config, unique: bool, seed: Value)
    requires !c.opts.requireDeterministic && c.opts.maxDepth > 0
    ensures var t := TMap(IntKeys(Signed(-128, 127)), unique, TInt(Unsigned(255)));
            var r := Decode(c, t, seed, [0xA1, 0x62, 0x2D, 0x35, 0x01], 0, 0);
            r.status.None? && r.value == VMap([Pair(NumberKey(-5), VInt(1))]) && r.errs == []
  {
    hide Decode, Lies, Coded, MapKeyIn;
    var t := TMap(IntKeys(Signed(-128, 127)), unique, TInt(Unsigned(255)));
    var k: seq<byte> := [0x2D, 0x35];
    var s := Pairs(WString(true, 2, k), Small(1), NoPairs);
    NegativeLies(c.opts);
    DecodeMeant(c, t, seed, [0xA1, 0x62, 0x2D, 0x35, 0x01], 0, 0, WMap(Counted(1), s));
    NegativeKeyIn(c.opts);
    var f := PairStep(c, t.keys, unique, t.elem, [], [], TextString(k), UInt(1));
    assert f == Adding([Pair(NumberKey(-5), VInt(1))], []);
    assert PairTrees(s) == Entries(TextString(k), UInt(1), NoEntries);
    assert FoldPairs(c, t.keys, unique, t.elem, f, NoEntries) == f;
    assert |BareAll(Decode(c, t, seed, [0xA1, 0x62, 0x2D, 0x35, 0x01], 0, 0).errs)| == 0;
  }

  lemma NegativeLies(o: Options)
    requires !o.requireDeterministic && o.maxDepth > 0
    ensures Lies(o, [0xA1, 0x62, 0x2D, 0x35, 0x01], 0, 0,
                 WMap(Counted(1), Pairs(WString(true, 2, [0x2D, 0x35]), Small(1), NoPairs)))
  {
    hide Formed, WellFormed;
    SmallLies(o, 0x61, 1, o.maxDepth - 1);
    var w := WString(true, 2, [0x2D, 0x35]);
    assert Formed(o, w, o.maxDepth - 1) by { AsciiFits(o); }
    assert Coded(w) == [0x62, 0x2D, 0x35];
    var s := Pairs(w, Small(1), NoPairs);
    assert CodedEntries(NoPairs) == [];
    assert CodedEntries(s) == [0x62, 0x2D, 0x35, 0x01];
    assert s.Length() == 1;
    assert FormedEntries(o, s, o.maxDepth - 1);
    FormedIs(o, s, 1, o.maxDepth);
    var input: seq<byte> := [0xA1, 0x62, 0x2D, 0x35, 0x01];
    assert Coded(WMap(Counted(1), s)) == input;
    assert input[0..5] == input;
  }

  lemma AsciiFits(o: Options)
    ensures Formed(o, WString(true, 2, [0x2D, 0x35]), o.maxDepth - 1)
  {
    hide WellFormed;
    AsciiWellFormed([0x2D, 0x35]);
  }

  lemma NegativeKeyIn(o: Options)
    ensures MapKeyIn(o, IntKeys(Signed(-128, 127)), TextString([0x2D, 0x35])) == Seen(NumberKey(-5))
  {
    hide ParseKey;
    var s: seq<byte> := [0x2D, 0x35];
    assert N.AllDigits([0x35]) && N.DecValue([0x35]) == 5;
    assert s == [N.MINUS] + [0x35];
    assert MapKeys.SpelledBy(true, s, -5, true, [0x35]);
    MapKeys.KeyExact(Signed(-128, 127), s, 0, -5);
  }
}
