/** Typed decoding in lenient mode succeeds exactly on the well-formed encodings of items that mean something. */
module DecodeExact {
  import opened Bytes
  import opened Head
  import opened Utf8
  import opened SkipSpec
  import opened ReadSpec
  import opened BuildSpec
  import opened BuildSteps
  import opened Wires
  import opened WireRead
  import opened WireExact
  import opened Meanings
  import opened DecodeMeans
  import Walks
  import EndToEnd

  /** Lenient mode, and no position of the input parses as the head of a map of 2^63 entries. */
  ghost predicate Readable(o: Options, input: seq<byte>) {
    Lenient(o, input) && Walks.Nowhere(Walks.HugeMap, o, input)
  }

  lemma SkippedFound(o: Options, input: seq<byte>, pos: nat, depth: nat) returns (w: Wire)
    requires Readable(o, input) && pos <= |input| && SkipItem(o, input, pos, depth).Done?
    ensures WireAt(o, input, pos, depth, w, SkipItem(o, input, pos, depth).pos)
  {
    hide SkipItem, WireAt, Walks.Nowhere, Walks.Meets;
    Walks.NowhereNotMet(Walks.HugeMap, o, input, pos, depth);
    Walks.WrappedIsMet(o, input, pos, depth);
    w := SkippedIsWire(o, input, pos, depth);
  }

  // ---- scalars ----

  /** A generic value is read here up to `end`. */
  ghost predicate IsRead(o: Options, input: seq<byte>, pos: nat, depth: nat, end: nat)
    requires pos <= |input|
  {
    ReadItem(o, input, pos, depth).Read? && ReadItem(o, input, pos, depth).pos == end
  }

  lemma ScalarItem(o: Options, input: seq<byte>, pos: nat, depth: nat)
    requires pos <= |input| && ItemHead(o, input, pos).HeadAt?
    requires var h := ItemHead(o, input, pos).head;
             h.mt != ARRAY && h.mt != MAP && (h.mt == SIMPLE && h.ai == 23 ==> o.undefinedAsNull)
    ensures var h := ItemHead(o, input, pos);
            && h.head == ParseHead(input, h.at) && HeadError(o, h.head, h.at).None? && h.head.mt != TAG
            && ReadItem(o, input, pos, depth) == ReadScalar(o, input, h.at, h.loose)
  {
    hide ItemHead, HeadError, ReadScalar, ParseHead, ReadSeq, ReadMap, Reject;
  }

  lemma TextIsRead(o: Options, input: seq<byte>, pos: nat, depth: nat)
    requires pos <= |input| && !o.requireDeterministic
    ensures var r := ExpectText(o, input, pos); r.Got? ==> IsRead(o, input, pos, depth, r.end)
    ensures var r := ExpectBytes(o, input, pos); r.Got? ==> IsRead(o, input, pos, depth, r.end)
  {
    hide ItemHead, HeadError, ReadString, WellFormed, FirstBad, ParseHead, ReadItem;
    var h := ItemHead(o, input, pos);
    if h.HeadAt? && (h.head.mt == TEXT || h.head.mt == BYTES) {
      ScalarItem(o, input, pos, depth);
    }
  }

  lemma IntIsRead(o: Options, input: seq<byte>, pos: nat, depth: nat)
    requires pos <= |input| && !o.requireDeterministic
    ensures var r := ExpectUInt(o, input, pos); r.Got? ==> IsRead(o, input, pos, depth, r.end)
    ensures var r := ExpectSInt(o, input, pos); r.Got? ==> IsRead(o, input, pos, depth, r.end)
  {
    hide ItemHead, HeadError, ReadString, ParseHead, ReadItem;
    var h := ItemHead(o, input, pos);
    if h.HeadAt? && (h.head.mt == UINT || h.head.mt == NINT) {
      ScalarItem(o, input, pos, depth);
    }
  }

  lemma SimpleIsRead(o: Options, input: seq<byte>, pos: nat, depth: nat, a: nat, b: nat)
    requires pos <= |input| && !o.requireDeterministic && a <= 22 && (b <= 22 || (b == 23 && o.undefinedAsNull))
    ensures var r := ExpectSimple(o, input, pos, a, b); r.Got? ==> IsRead(o, input, pos, depth, r.end)
  {
    hide ItemHead, HeadError, ReadString, ParseHead, ReadItem;
    var h := ItemHead(o, input, pos);
    if h.HeadAt? && h.head.mt == SIMPLE && (h.head.ai == a || h.head.ai == b) {
      ScalarItem(o, input, pos, depth);
    }
  }

  lemma ReadFound(o: Options, input: seq<byte>, pos: nat, depth: nat, end: nat) returns (w: Wire)
    requires !o.requireDeterministic && pos <= |input| && IsRead(o, input, pos, depth, end)
    ensures WireAt(o, input, pos, depth, w, end)
  {
    hide ReadItem, WireAt, Welcome, EndToEnd.Plain, TreeOf;
    w := WireFound(o, input, pos, depth);
  }

  lemma LeafIsRead(c: Config, t: Ty, seed: Value, input: seq<byte>, pos: nat, depth: nat)
    requires pos <= |input| && !c.opts.requireDeterministic && IsLeaf(t)
    requires Decode(c, t, seed, input, pos, depth).status.None?
    ensures IsRead(c.opts, input, pos, depth, Decode(c, t, seed, input, pos, depth).pos)
  {
    hide IsRead, ExpectText, ExpectBytes, ExpectUInt, ExpectSInt, ExpectSimple, FindNamed;
    TextIsRead(c.opts, input, pos, depth);
    IntIsRead(c.opts, input, pos, depth);
    SimpleIsRead(c.opts, input, pos, depth, 20, 21);
  }

  lemma NullIsRead(o: Options, seed: Value, input: seq<byte>, pos: nat, depth: nat)
    requires pos <= |input| && !o.requireDeterministic && DecodeNull(o, seed, input, pos).status.None?
    ensures IsRead(o, input, pos, depth, DecodeNull(o, seed, input, pos).pos)
  {
    hide IsRead, ExpectSimple;
    SimpleIsRead(o, input, pos, depth, 22, if o.undefinedAsNull then 23 else 22);
  }

  lemma KeyFound(o: Options, keys: KeyType, input: seq<byte>, pos: nat, depth: nat) returns (w: Wire)
    requires pos <= |input| && !o.requireDeterministic && MapKeyAt(o, keys, input, pos).Got?
    ensures WireAt(o, input, pos, depth, w, MapKeyAt(o, keys, input, pos).end)
  {
    hide IsRead, ExpectText, ExpectUInt, ExpectSInt, WireAt, PeekKind, ParseKey;
    TextIsRead(o, input, pos, depth);
    IntIsRead(o, input, pos, depth);
    w := ReadFound(o, input, pos, depth, MapKeyAt(o, keys, input, pos).end);
  }

  lemma MemberKeyFound(o: Options, fields: seq<Field>, input: seq<byte>, pos: nat, depth: nat) returns (w: Wire)
    requires pos <= |input| && !o.requireDeterministic && !MemberKeyAt(o, fields, input, pos).BadKey?
    ensures WireAt(o, input, pos, depth, w, MemberKeyAt(o, fields, input, pos).end)
  {
    hide IsRead, ExpectText, ExpectUInt, ExpectSInt, WireAt, PeekKind, FindName, FindKey, AnyIntKeys;
    TextIsRead(o, input, pos, depth);
    IntIsRead(o, input, pos, depth);
    w := ReadFound(o, input, pos, depth, MemberKeyAt(o, fields, input, pos).end);
  }

  lemma NameFound(o: Options, input: seq<byte>, pos: nat, depth: nat) returns (w: Wire)
    requires pos <= |input| && !o.requireDeterministic && ExpectText(o, input, pos).Got?
    ensures WireAt(o, input, pos, depth, w, ExpectText(o, input, pos).end)
  {
    hide IsRead, ExpectText, WireAt;
    TextIsRead(o, input, pos, depth);
    w := ReadFound(o, input, pos, depth, ExpectText(o, input, pos).end);
  }

  // ---- containers ----

  /** Tags that are let pass, around an encoding. */
  lemma {:induction false} TagsFound(o: Options, input: seq<byte>, pos: nat, depth: nat, inner: Wire, end: nat)
    returns (w: Wire)
    requires pos <= |input| && !o.requireDeterministic && ItemHead(o, input, pos).HeadAt?
    requires WireAt(o, input, ItemHead(o, input, pos).at, depth, inner, end)
    ensures WireAt(o, input, pos, depth, w, end)
    decreases |input| - pos
  {
    hide Coded, Formed, ParseHead, AnyHead;
    var h := ParseHead(input, pos);
    if h.mt == TAG {
      var rest := TagsFound(o, input, pos + h.length, depth, inner, end);
      TagHeadIs(o, input, pos);
      HeadIs(input, pos);
      w := WTag(h.ai, h.value, rest);
      AtConcat(input, pos, AnyHead(TAG, h.ai, h.value), Coded(rest));
      TagParts(o, w, o.maxDepth - depth);
    } else {
      w := inner;
    }
  }

  lemma TagHeadIs(o: Options, input: seq<byte>, pos: nat)
    requires ItemHead(o, input, pos).HeadAt? && ParseHead(input, pos).mt == TAG
    ensures var h := ParseHead(input, pos); h.length > 0 && !h.isBreak && !h.reserved && !h.indefinite
  {
  }

  /** The form of a container that was opened, at its head behind the tags. */
  lemma Opening(o: Options, input: seq<byte>, pos: nat, depth: nat, m: major) returns (at: nat, form: Form)
    requires (m == ARRAY || m == MAP) && OpenContainer(o, input, pos, depth, m).Opened?
    ensures var r := OpenContainer(o, input, pos, depth, m);
            && depth < o.maxDepth && r.remaining.None? == form.Open?
            && ItemHead(o, input, pos).HeadAt? && ItemHead(o, input, pos).at == at < |input|
            && forall n :: (r.remaining.Some? ==> n == r.remaining.value) ==>
                 At(input, at, FormHead(m, form, n)) && r.pos == at + |FormHead(m, form, n)| && FormFits(form, n)
  {
    hide ItemHead, ParseHead, AnyHead, FormHead, FormFits;
    var head := ItemHead(o, input, pos);
    at := head.at;
    HeadSound(o, input, pos);
    form := FormFound(input, at);
    OpenFits(form);
  }

  lemma HeadSound(o: Options, input: seq<byte>, pos: nat)
    requires ItemHead(o, input, pos).HeadAt?
    ensures var at := ItemHead(o, input, pos).at;
            var h := ParseHead(input, at);
            h == ItemHead(o, input, pos).head && h.length > 0 && !h.isBreak && !h.reserved
  {
    hide ParseHead, ItemHead;
  }

  lemma OpenFits(form: Form)
    ensures form.Open? ==> forall n :: FormFits(form, n)
  {
  }

  lemma ArrayMade(o: Options, input: seq<byte>, pos: nat, depth: nat, items: WireItems, form: Form, at: nat, end: nat)
    returns (w: Wire)
    requires pos <= |input| && !o.requireDeterministic && OpenContainer(o, input, pos, depth, ARRAY).Opened?
    requires depth < o.maxDepth && ItemHead(o, input, pos).HeadAt? && ItemHead(o, input, pos).at == at
    requires var r := OpenContainer(o, input, pos, depth, ARRAY);
             && At(input, at, FormHead(ARRAY, form, items.Length())) && FormFits(form, items.Length())
             && r.pos == at + |FormHead(ARRAY, form, items.Length())|
             && ItemsAt(o, input, r.pos, depth + 1, form, items, end)
    ensures WireAt(o, input, pos, depth, w, end)
  {
    hide ItemHead, FormHead, FormFits, CodedItems, FormedItems, FormEnd, At, OpenContainer;
    var body := CodedItems(items) + FormEnd(form);
    AtConcat(input, at, FormHead(ARRAY, form, items.Length()), body);
    w := TagsFound(o, input, pos, depth, WArray(form, items), end);
  }

  lemma MapMade(o: Options, input: seq<byte>, pos: nat, depth: nat, entries: WireEntries, form: Form, at: nat, end: nat)
    returns (w: Wire)
    requires pos <= |input| && !o.requireDeterministic && OpenContainer(o, input, pos, depth, MAP).Opened?
    requires depth < o.maxDepth && ItemHead(o, input, pos).HeadAt? && ItemHead(o, input, pos).at == at
    requires var r := OpenContainer(o, input, pos, depth, MAP);
             && At(input, at, FormHead(MAP, form, entries.Length())) && FormFits(form, entries.Length())
             && r.pos == at + |FormHead(MAP, form, entries.Length())|
             && EntriesAt(o, input, r.pos, depth + 1, form, entries, end)
    ensures WireAt(o, input, pos, depth, w, end)
  {
    hide ItemHead, FormHead, FormFits, CodedEntries, FormedEntries, FormEnd, At, OpenContainer;
    var body := CodedEntries(entries) + FormEnd(form);
    AtConcat(input, at, FormHead(MAP, form, entries.Length()), body);
    w := TagsFound(o, input, pos, depth, WMap(form, entries), end);
  }

  // ---- loops ----

  lemma NothingLeft(o: Options, input: seq<byte>, pos: nat, depth: nat, remaining: Option<nat>, form: Form)
    requires pos <= |input| && CursorNext(input, pos, remaining).CursorEnd? && remaining.None? == form.Open?
    ensures ItemsAt(o, input, pos, depth, form, NoWires, CursorNext(input, pos, remaining).pos)
    ensures EntriesAt(o, input, pos, depth, form, NoPairs, CursorNext(input, pos, remaining).pos)
    ensures remaining.Some? ==> remaining.value == 0
  {
    hide FormEnd, CursorNext;
    EndFound(input, pos, remaining, form);
    assert [] + FormEnd(form) == FormEnd(form);
  }

  /** As many as there were to come. */
  predicate AsMany(remaining: Option<nat>, n: nat) {
    remaining.Some? ==> n == remaining.value
  }

  lemma OneLess(input: seq<byte>, pos: nat, remaining: Option<nat>, form: Form, n: nat)
    requires pos <= |input| && CursorNext(input, pos, remaining).CursorItem? && remaining.None? == form.Open?
    requires AsMany(CursorNext(input, pos, remaining).remaining, n)
    ensures CursorNext(input, pos, remaining).remaining.None? == form.Open? && AsMany(remaining, n + 1)
  {
  }

  lemma StillOpen(input: seq<byte>, pos: nat, remaining: Option<nat>, form: Form)
    requires pos <= |input| && CursorNext(input, pos, remaining).CursorItem? && remaining.None? == form.Open?
    ensures CursorNext(input, pos, remaining).remaining.None? == form.Open?
  {
  }

  lemma {:induction false} ElemsFound(c: Config, elem: Ty, done: seq<Value>, input: seq<byte>, pos: nat, depth: nat,
                                      remaining: Option<nat>, form: Form) returns (s: WireItems)
    requires Readable(c.opts, input) && pos <= |input| && remaining.None? == form.Open?
    requires DecodeElems(c, elem, done, input, pos, depth, remaining).status.None?
    ensures ItemsAt(c.opts, input, pos, depth, form, s, DecodeElems(c, elem, done, input, pos, depth, remaining).pos)
    ensures AsMany(remaining, s.Length())
    decreases |input| - pos, elem, 2
  {
    hide DecodeElems, Decode, Readable, CursorNext, ItemsAt, WireAt, Initial, PushAll, Push, AsMany;
    ElemsStep(c, elem, done, input, pos, depth, remaining);
    var next := CursorNext(input, pos, remaining);
    if next.CursorEnd? {
      NothingLeft(c.opts, input, pos, depth, remaining, form);
      s := NoWires;
      NoneLeft(remaining);
    } else {
      var x := Decode(c, elem, Initial(elem), input, pos, depth);
      StillOpen(input, pos, remaining, form);
      var head := DecodeFound(c, elem, Initial(elem), input, pos, depth);
      var rest := DecodeElems(c, elem, done + [x.value], input, x.pos, depth, next.remaining);
      var tail := ElemsFound(c, elem, done + [x.value], input, x.pos, depth, next.remaining, form);
      s := Wires(head, tail);
      ItemsJoin(c.opts, input, pos, depth, form, head, x.pos, tail, rest.pos);
      OneLess(input, pos, remaining, form, tail.Length());
    }
  }

  lemma NoneLeft(remaining: Option<nat>)
    ensures AsMany(remaining, 0) <==> (remaining.Some? ==> remaining.value == 0)
  {
  }

  lemma {:induction false} PlacesFound(c: Config, elems: seq<Ty>, off: nat, vals: seq<Value>, i: nat, input: seq<byte>,
                                       pos: nat, depth: nat, remaining: Option<nat>, form: Form) returns (s: WireItems)
    requires Readable(c.opts, input) && pos <= |input| && remaining.None? == form.Open? && |vals| == |elems|
    requires i <= |elems| && DecodeItems(c, elems, off, vals, i, input, pos, depth, remaining).status.None?
    ensures ItemsAt(c.opts, input, pos, depth, form, s,
                    DecodeItems(c, elems, off, vals, i, input, pos, depth, remaining).pos)
    ensures AsMany(remaining, s.Length())
    decreases |input| - pos, elems, 2
  {
    hide DecodeItems, Decode, Readable, CursorNext, ItemsAt, WireAt, SkipSurplus, PushAll, Push, AsMany;
    var next := CursorNext(input, pos, remaining);
    if i == |elems| {
      ItemsDone(c, elems, off, vals, input, pos, depth, remaining);
    } else {
      ItemsStep(c, elems, off, vals, i, input, pos, depth, remaining);
    }
    if next.CursorEnd? {
      NothingLeft(c.opts, input, pos, depth, remaining, form);
      s := NoWires;
      NoneLeft(remaining);
    } else {
      var x := Decode(c, elems[i], vals[i], input, pos, depth);
      StillOpen(input, pos, remaining, form);
      var head := DecodeFound(c, elems[i], vals[i], input, pos, depth);
      var vals' := vals[i := x.value];
      var rest := DecodeItems(c, elems, off, vals', i + 1, input, x.pos, depth, next.remaining);
      var tail := PlacesFound(c, elems, off, vals', i + 1, input, x.pos, depth, next.remaining, form);
      s := Wires(head, tail);
      ItemsJoin(c.opts, input, pos, depth, form, head, x.pos, tail, rest.pos);
      OneLess(input, pos, remaining, form, tail.Length());
    }
  }

  /** Without the check of key order the next entry is wherever the cursor is. */
  lemma NextIs(o: Options, input: seq<byte>, pos: nat, depth: nat, remaining: Option<nat>)
    requires !o.requireDeterministic && pos <= |input|
    ensures var x, next := CursorNext(input, pos, remaining), NextEntry(o, input, pos, depth, remaining, None);
            && next.EntryError? == x.CursorError?
            && (x.CursorEnd? ==> next == EntryEnd(x.pos)) && (x.CursorItem? ==> next == EntryAt(x.remaining, None))
  {
    hide CursorNext;
  }

  /** The value of an entry of a map, skipped or decoded, and the entries behind it. */
  lemma PairFound(c: Config, keys: KeyType, unique: bool, elem: Ty, done: seq<Pair>, input: seq<byte>, pos: nat,
                  depth: nat, remaining: Option<nat>, form: Form)
    returns (v: Wire, q: nat, rest: WireEntries)
    requires Readable(c.opts, input) && pos <= |input| && remaining.None? == form.Open?
    requires CursorNext(input, pos, remaining).CursorItem? && MapKeyAt(c.opts, keys, input, pos).Got?
    requires DecodeEntries(c, keys, unique, elem, done, input, pos, depth, remaining, None).status.None?
    ensures var p := MapKeyAt(c.opts, keys, input, pos).end;
            p <= q <= |input| && WireAt(c.opts, input, p, depth, v, q)
    ensures AsMany(CursorNext(input, pos, remaining).remaining, rest.Length())
    ensures EntriesAt(c.opts, input, q, depth, form, rest,
                      DecodeEntries(c, keys, unique, elem, done, input, pos, depth, remaining, None).pos)
    decreases |input| - pos, elem, 1
  {
    hide DecodeEntries, Decode, Walks.Nowhere, CursorNext, NextEntry, EntriesAt, WireAt, Initial, PushAll, Push, AsMany,
         DecodeEntry, SkipEntry, MapKeyAt, Earlier, StepOf, SkipItem;
    NextIs(c.opts, input, pos, depth, remaining);
    var left := CursorNext(input, pos, remaining).remaining;
    MapKeyStep(c, keys, unique, elem, done, input, pos, depth, remaining, None);
    StillOpen(input, pos, remaining, form);
    var key := MapKeyAt(c.opts, keys, input, pos);
    var p, found := key.end, Earlier(unique, done, key.value);
    if found.Some? && c.duplicates.FirstWins? {
      SkipEntryStep(c, keys, unique, elem, done, input, p, depth, left, None);
      v := SkippedFound(c.opts, input, p, depth);
      q := SkipItem(c.opts, input, p, depth).pos;
      rest := PairsFound(c, keys, unique, elem, done, input, q, depth, left, form);
    } else {
      v, q, rest := PairValueFound(c, keys, unique, elem, done, input, p, depth, left, form, key.value, found);
    }
  }

  lemma PairValueFound(c: Config, keys: KeyType, unique: bool, elem: Ty, done: seq<Pair>, input: seq<byte>, p: nat,
                       depth: nat, left: Option<nat>, form: Form, key: MapKey, found: Option<nat>)
    returns (v: Wire, q: nat, rest: WireEntries)
    requires Readable(c.opts, input) && p <= |input| && left.None? == form.Open?
    requires found.Some? ==> found.value < |done|
    requires DecodeEntry(c, keys, unique, elem, done, input, p, depth, left, None, key, found).status.None?
    ensures p <= q <= |input| && WireAt(c.opts, input, p, depth, v, q) && AsMany(left, rest.Length())
    ensures EntriesAt(c.opts, input, q, depth, form, rest,
                      DecodeEntry(c, keys, unique, elem, done, input, p, depth, left, None, key, found).pos)
    decreases |input| - p, elem, 3
  {
    hide DecodeEntries, Decode, Readable, EntriesAt, WireAt, Initial, PushAll, Push, AsMany, DecodeEntry, StepOf;
    EntryIs(c, keys, unique, elem, done, input, p, depth, left, None, key, found);
    var seed := if found.Some? then done[found.value].val else Initial(elem);
    var x := Decode(c, elem, seed, input, p, depth);
    v := DecodeFound(c, elem, seed, input, p, depth);
    q := x.pos;
    var pair := Pair(key, x.value);
    rest := PairsFound(c, keys, unique, elem, if found.Some? then done[found.value := pair] else done + [pair], input,
                       q, depth, left, form);
  }

  lemma {:induction false} PairsFound(c: Config, keys: KeyType, unique: bool, elem: Ty, done: seq<Pair>,
                                      input: seq<byte>, pos: nat, depth: nat, remaining: Option<nat>, form: Form)
    returns (s: WireEntries)
    requires Readable(c.opts, input) && pos <= |input| && remaining.None? == form.Open?
    requires DecodeEntries(c, keys, unique, elem, done, input, pos, depth, remaining, None).status.None?
    ensures EntriesAt(c.opts, input, pos, depth, form, s,
                      DecodeEntries(c, keys, unique, elem, done, input, pos, depth, remaining, None).pos)
    ensures AsMany(remaining, s.Length())
    decreases |input| - pos, elem, 2
  {
    hide DecodeEntries, Decode, Walks.Nowhere, CursorNext, NextEntry, EntriesAt, WireAt, Initial, PushAll, Push, AsMany,
         DecodeEntry, SkipEntry, MapKeyAt, Earlier, StepOf, SkipItem;
    NextIs(c.opts, input, pos, depth, remaining);
    EntriesStep(c, keys, unique, elem, done, input, pos, depth, remaining, None);
    var next := CursorNext(input, pos, remaining);
    if next.CursorEnd? {
      NothingLeft(c.opts, input, pos, depth, remaining, form);
      s := NoPairs;
      NoneLeft(remaining);
    } else {
      MapKeyStep(c, keys, unique, elem, done, input, pos, depth, remaining, None);
      StillOpen(input, pos, remaining, form);
      var key := MapKeyAt(c.opts, keys, input, pos);
      var k := KeyFound(c.opts, keys, input, pos, depth);
      var v, q, rest := PairFound(c, keys, unique, elem, done, input, pos, depth, remaining, form);
      s := Pairs(k, v, rest);
      EntriesJoin(c.opts, input, pos, depth, form, k, key.end, v, q, rest,
                  DecodeEntries(c, keys, unique, elem, done, input, pos, depth, remaining, None).pos);
      OneLess(input, pos, remaining, form, rest.Length());
    }
  }

  /** The value of an entry that is skipped, and the entries behind it. */
  lemma SkipThenFound(c: Config, fields: seq<Field>, unknown: Unknown, objOff: nat, vals: seq<Value>, seen: set<nat>,
                      input: seq<byte>, p: nat, depth: nat, left: Option<nat>, form: Form)
    returns (v: Wire, q: nat, rest: WireEntries)
    requires Readable(c.opts, input) && p <= |input| && left.None? == form.Open? && |vals| == |fields|
    requires SkipThen(c, fields, unknown, objOff, vals, seen, input, p, depth, left, None).status.None?
    ensures p <= q <= |input| && WireAt(c.opts, input, p, depth, v, q) && AsMany(left, rest.Length())
    ensures EntriesAt(c.opts, input, q, depth, form, rest,
                      SkipThen(c, fields, unknown, objOff, vals, seen, input, p, depth, left, None).pos)
    decreases |input| - p, fields, 1
  {
    hide DecodeMembers, SkipThen, Readable, EntriesAt, WireAt, SkipItem, AsMany;
    SkipStep(c, fields, unknown, objOff, vals, seen, input, p, depth, left, None);
    v := SkippedFound(c.opts, input, p, depth);
    q := SkipItem(c.opts, input, p, depth).pos;
    rest := MembersFound(c, fields, unknown, objOff, vals, seen, input, q, depth, left, form);
  }

  /** The value of an entry that is decoded into a member, and the entries behind it. */
  lemma MemberFound(c: Config, fields: seq<Field>, unknown: Unknown, objOff: nat, vals: seq<Value>, seen: set<nat>,
                    input: seq<byte>, p: nat, depth: nat, left: Option<nat>, form: Form, m: nat)
    returns (v: Wire, q: nat, rest: WireEntries)
    requires Readable(c.opts, input) && p <= |input| && left.None? == form.Open? && |vals| == |fields| && m < |fields|
    requires DecodeMember(c, fields, unknown, objOff, vals, seen, input, p, depth, left, None, m).status.None?
    ensures p <= q <= |input| && WireAt(c.opts, input, p, depth, v, q) && AsMany(left, rest.Length())
    ensures EntriesAt(c.opts, input, q, depth, form, rest,
                      DecodeMember(c, fields, unknown, objOff, vals, seen, input, p, depth, left, None, m).pos)
    decreases |input| - p, fields, 3
  {
    hide DecodeMembers, DecodeMember, SkipThen, Readable, EntriesAt, WireAt, Decode, AsMany, Push, PushAll, IsSyntax;
    MemberStep(c, fields, unknown, objOff, vals, seen, input, p, depth, left, None, m);
    var x := Decode(c, fields[m].ty, vals[m], input, p, depth);
    var vals', seen' := vals[m := x.value], seen + {m};
    if x.status.None? {
      v := DecodeFound(c, fields[m].ty, vals[m], input, p, depth);
      q := x.pos;
      rest := MembersFound(c, fields, unknown, objOff, vals', seen', input, q, depth, left, form);
    } else {
      v, q, rest := SkipThenFound(c, fields, unknown, objOff, vals', seen', input, p, depth, left, form);
    }
  }

  lemma {:induction false} MembersFound(c: Config, fields: seq<Field>, unknown: Unknown, objOff: nat,
                                        vals: seq<Value>, seen: set<nat>, input: seq<byte>, pos: nat, depth: nat,
                                        remaining: Option<nat>, form: Form) returns (s: WireEntries)
    requires Readable(c.opts, input) && pos <= |input| && remaining.None? == form.Open? && |vals| == |fields|
    requires DecodeMembers(c, fields, unknown, objOff, vals, seen, input, pos, depth, remaining, None).status.None?
    ensures EntriesAt(c.opts, input, pos, depth, form, s,
                      DecodeMembers(c, fields, unknown, objOff, vals, seen, input, pos, depth, remaining, None).pos)
    ensures AsMany(remaining, s.Length())
    decreases |input| - pos, fields, 2
  {
    hide DecodeMembers, Walks.Nowhere, CursorNext, NextEntry, EntriesAt, WireAt, Push, AsMany, DecodeMember, SkipThen,
         MemberKeyAt, EntryTodo, FinishStruct, SkipItem;
    NextIs(c.opts, input, pos, depth, remaining);
    MembersStep(c, fields, unknown, objOff, vals, seen, input, pos, depth, remaining, None);
    var whole := DecodeMembers(c, fields, unknown, objOff, vals, seen, input, pos, depth, remaining, None);
    var next := CursorNext(input, pos, remaining);
    if next.CursorEnd? {
      NothingLeft(c.opts, input, pos, depth, remaining, form);
      FinishEnds(c, fields, objOff, vals, seen, next.pos);
      s := NoPairs;
      NoneLeft(remaining);
    } else {
      StillOpen(input, pos, remaining, form);
      var key := MemberKeyAt(c.opts, fields, input, pos);
      var k := MemberKeyFound(c.opts, fields, input, pos, depth);
      var v, q, rest;
      if key.FoundKey? && EntryTodo(c, fields, unknown, seen, pos, key).Into? {
        v, q, rest := MemberFound(c, fields, unknown, objOff, vals, seen, input, key.end, depth, next.remaining, form,
                                  EntryTodo(c, fields, unknown, seen, pos, key).member);
      } else {
        v, q, rest := SkipThenFound(c, fields, unknown, objOff, vals, seen, input, key.end, depth, next.remaining,
                                    form);
      }
      s := Pairs(k, v, rest);
      EntriesJoin(c.opts, input, pos, depth, form, k, key.end, v, q, rest, whole.pos);
      OneLess(input, pos, remaining, form, rest.Length());
    }
  }

  lemma BoxValueFound(c: Config, t: Ty, off: nat, done: Value, input: seq<byte>, p: nat, depth: nat,
                      left: Option<nat>, form: Form) returns (v: Wire, q: nat, rest: WireEntries)
    requires Readable(c.opts, input) && p <= |input| && left.None? == form.Open?
    requires DecodeBoxValue(c, t, off, done, input, p, depth, left, None).status.None?
    ensures p <= q <= |input| && WireAt(c.opts, input, p, depth, v, q) && AsMany(left, rest.Length())
    ensures EntriesAt(c.opts, input, q, depth, form, rest,
                      DecodeBoxValue(c, t, off, done, input, p, depth, left, None).pos)
    decreases |input| - p, t, 3
  {
    hide DecodeBoxed, Readable, EntriesAt, WireAt, Push, PushAll, AsMany, DecodeBoxValue, VALUE, Decode;
    BoxValueStep(c, t, off, done, input, p, depth, left, None);
    var x := Decode(c, t, done, input, p, depth);
    v := DecodeFound(c, t, done, input, p, depth);
    q := x.pos;
    rest := BoxedFound(c, t, off, x.value, true, input, q, depth, left, form);
  }

  lemma {:induction false} BoxedFound(c: Config, t: Ty, off: nat, done: Value, have: bool, input: seq<byte>, pos: nat,
                                      depth: nat, remaining: Option<nat>, form: Form) returns (s: WireEntries)
    requires Readable(c.opts, input) && pos <= |input| && remaining.None? == form.Open?
    requires DecodeBoxed(c, t, off, done, have, input, pos, depth, remaining, None).status.None?
    ensures EntriesAt(c.opts, input, pos, depth, form, s,
                      DecodeBoxed(c, t, off, done, have, input, pos, depth, remaining, None).pos)
    ensures AsMany(remaining, s.Length())
    decreases |input| - pos, t, 2
  {
    hide DecodeBoxed, Walks.Nowhere, CursorNext, NextEntry, EntriesAt, WireAt, Push, PushAll, AsMany, DecodeBoxValue,
         SkipBoxed, ExpectText, SkipItem, BoxEnd, VALUE, Decode;
    NextIs(c.opts, input, pos, depth, remaining);
    var whole := DecodeBoxed(c, t, off, done, have, input, pos, depth, remaining, None);
    var next := CursorNext(input, pos, remaining);
    BoxStep(c, t, off, done, have, input, pos, depth, remaining, None);
    if next.CursorEnd? {
      NothingLeft(c.opts, input, pos, depth, remaining, form);
      BoxEnds(off, done, have, next.pos);
      s := NoPairs;
      NoneLeft(remaining);
    } else {
      BoxKeyStep(c, t, off, done, have, input, pos, depth, remaining, None);
      StillOpen(input, pos, remaining, form);
      var key := ExpectText(c.opts, input, pos);
      var k := NameFound(c.opts, input, pos, depth);
      var p, left := key.end, next.remaining;
      var v, q, rest;
      if key.value == VALUE {
        v, q, rest := BoxValueFound(c, t, off, done, input, p, depth, left, form);
      } else {
        SkipBoxedStep(c, t, off, done, have, input, p, depth, left, None);
        v := SkippedFound(c.opts, input, p, depth);
        q := SkipItem(c.opts, input, p, depth).pos;
        rest := BoxedFound(c, t, off, done, have, input, q, depth, left, form);
      }
      s := Pairs(k, v, rest);
      EntriesJoin(c.opts, input, pos, depth, form, k, p, v, q, rest, whole.pos);
      OneLess(input, pos, remaining, form, rest.Length());
    }
  }

  // ---- every type ----

  lemma ArrayFound(c: Config, t: Ty, seed: Value, input: seq<byte>, pos: nat, depth: nat) returns (w: Wire)
    requires Readable(c.opts, input) && pos <= |input| && (t.TSeq? || t.TTuple?)
    requires Decode(c, t, seed, input, pos, depth).status.None?
    ensures WireAt(c.opts, input, pos, depth, w, Decode(c, t, seed, input, pos, depth).pos)
    decreases |input| - pos, t, 0
  {
    hide DecodeElems, DecodeItems, OpenContainer, Walks.Nowhere, ItemsAt, WireAt, ItemHead, FormHead, FormFits, At;
    var at, form := Opening(c.opts, input, pos, depth, ARRAY);
    var a := OpenContainer(c.opts, input, pos, depth, ARRAY);
    var items;
    if t.TSeq? {
      items := ElemsFound(c, t.elem, [], input, a.pos, depth + 1, a.remaining, form);
    } else {
      items := PlacesFound(c, t.elems, pos, ItemsOf(t.elems, seed), 0, input, a.pos, depth + 1, a.remaining, form);
    }
    w := ArrayMade(c.opts, input, pos, depth, items, form, at, Decode(c, t, seed, input, pos, depth).pos);
  }

  lemma MapFound(c: Config, t: Ty, seed: Value, input: seq<byte>, pos: nat, depth: nat) returns (w: Wire)
    requires Readable(c.opts, input) && pos <= |input| && t.TMap?
    requires Decode(c, t, seed, input, pos, depth).status.None?
    ensures WireAt(c.opts, input, pos, depth, w, Decode(c, t, seed, input, pos, depth).pos)
    decreases |input| - pos, t, 0
  {
    hide DecodeEntries, OpenContainer, Walks.Nowhere, EntriesAt, WireAt, ItemHead, FormHead, FormFits, At;
    var at, form := Opening(c.opts, input, pos, depth, MAP);
    var a := OpenContainer(c.opts, input, pos, depth, MAP);
    var entries := PairsFound(c, t.keys, t.unique, t.elem, [], input, a.pos, depth + 1, a.remaining, form);
    w := MapMade(c.opts, input, pos, depth, entries, form, at, Decode(c, t, seed, input, pos, depth).pos);
  }

  lemma ObjectFound(c: Config, fields: seq<Field>, unknown: Unknown, seed: Value, input: seq<byte>, pos: nat,
                    depth: nat) returns (w: Wire)
    requires Readable(c.opts, input) && pos <= |input|
    requires DecodeObject(c, fields, unknown, seed, input, pos, depth).status.None?
    ensures WireAt(c.opts, input, pos, depth, w, DecodeObject(c, fields, unknown, seed, input, pos, depth).pos)
    decreases |input| - pos, fields, 3
  {
    hide DecodeMembers, OpenContainer, Walks.Nowhere, EntriesAt, WireAt, ItemHead, FormHead, FormFits, At;
    var at, form := Opening(c.opts, input, pos, depth, MAP);
    var a := OpenContainer(c.opts, input, pos, depth, MAP);
    var entries := MembersFound(c, fields, unknown, pos, MembersOf(fields, seed), {}, input, a.pos, depth + 1,
                                a.remaining, form);
    w := MapMade(c.opts, input, pos, depth, entries, form, at,
                 DecodeObject(c, fields, unknown, seed, input, pos, depth).pos);
  }

  lemma BoxFound(c: Config, t: Ty, input: seq<byte>, pos: nat, depth: nat) returns (w: Wire)
    requires Readable(c.opts, input) && pos <= |input| && DecodeBox(c, t, input, pos, depth).status.None?
    ensures WireAt(c.opts, input, pos, depth, w, DecodeBox(c, t, input, pos, depth).pos)
    decreases |input| - pos, t, 3
  {
    hide DecodeBoxed, OpenContainer, Walks.Nowhere, EntriesAt, WireAt, ItemHead, FormHead, FormFits, At;
    var at, form := Opening(c.opts, input, pos, depth, MAP);
    var a := OpenContainer(c.opts, input, pos, depth, MAP);
    var entries := BoxedFound(c, t, pos, Initial(t), false, input, a.pos, depth + 1, a.remaining, form);
    w := MapMade(c.opts, input, pos, depth, entries, form, at, DecodeBox(c, t, input, pos, depth).pos);
  }

  /** What is decoded, into whatever type, is a well-formed encoding. */
  lemma {:induction false} DecodeFound(c: Config, t: Ty, seed: Value, input: seq<byte>, pos: nat, depth: nat)
    returns (w: Wire)
    requires Readable(c.opts, input) && pos <= |input| && Decode(c, t, seed, input, pos, depth).status.None?
    ensures WireAt(c.opts, input, pos, depth, w, Decode(c, t, seed, input, pos, depth).pos)
    decreases |input| - pos, t, 1
  {
    hide WireAt, Walks.Nowhere, DecodeObject, DecodeBox, FindAlternative, PeekKind, DecodeNull, InnerOf, Initial,
         IsRead, PushAll, Push;
    match t
    case TOpt(elem) =>
      if PeekKind(c.opts, input, pos).KNull? {
        NullIsRead(c.opts, seed, input, pos, depth);
        w := ReadFound(c.opts, input, pos, depth, Decode(c, t, seed, input, pos, depth).pos);
      } else {
        w := DecodeFound(c, elem, Initial(elem), input, pos, depth);
      }
    case TWrap(_, elem) => w := DecodeFound(c, elem, InnerOf(elem, seed), input, pos, depth);
    case TSeq(_) => w := ArrayFound(c, t, seed, input, pos, depth);
    case TTuple(_) => w := ArrayFound(c, t, seed, input, pos, depth);
    case TMap(_, _, _) => w := MapFound(c, t, seed, input, pos, depth);
    case TStruct(fields, unknown) => w := ObjectFound(c, fields, unknown, seed, input, pos, depth);
    case TVariant(tag, alts) =>
      var a := alts[FindAlternative(c.opts, tag, alts, input, pos, depth).i].1;
      if a.TStruct? {
        w := ObjectFound(c, a.fields, a.unknown.(ignore := tag), Initial(a), input, pos, depth);
      } else {
        w := BoxFound(c, a, input, pos, depth);
      }
    case _ =>
      LeafIsRead(c, t, seed, input, pos, depth);
      w := ReadFound(c.opts, input, pos, depth, Decode(c, t, seed, input, pos, depth).pos);
  }

  /** Decoding gives `v` and goes on at `end`, with nothing collected, if and only if a well-formed encoding stands
      there of an item that means `v`. */
  lemma Exact(c: Config, t: Ty, seed: Value, input: seq<byte>, pos: nat, depth: nat, v: Value, end: nat)
    requires Readable(c.opts, input) && pos <= |input|
    ensures Decode(c, t, seed, input, pos, depth) == Res(None, v, end, [])
            <==> exists w :: WireAt(c.opts, input, pos, depth, w, end) && Meaning(c, t, seed, TreeOf(w)) == Right(v)
  {
    hide Decode, Meaning, Formed, Coded, TreeOf, Walks.Nowhere, At, Says;
    var r := Decode(c, t, seed, input, pos, depth);
    if r == Res(None, v, end, []) {
      var w := DecodeFound(c, t, seed, input, pos, depth);
      DecodeMeant(c, t, seed, input, pos, depth, w);
      RightSaid(r, Meaning(c, t, seed, TreeOf(w)), end, v);
    }
    if w :| WireAt(c.opts, input, pos, depth, w, end) && Meaning(c, t, seed, TreeOf(w)) == Right(v) {
      DecodeMeant(c, t, seed, input, pos, depth, w);
      RightSaid(r, Right(v), end, v);
    }
  }

  lemma RightSaid(r: Res, m: Out, end: nat, v: Value)
    requires Says(r, m, end)
    ensures r == Res(None, v, end, []) <==> m == Right(v)
  {
    BareNothing();
    assert |BareAll(r.errs)| == |r.errs|;
  }
}
