/** Structs as maps: counts ahead of emission, members in canonical order, and the unbuffered form against the sorting
    one. */
module StructMaps {
  import opened Bytes
  import opened Head
  import opened Utf8
  import opened KeyOrder
  import opened Sorting
  import opened WriterRuns
  import opened WriterTrees
  import W = WriterSpec

  /** A member as the encoder meets it: its key, whether it is never written, whether its skip conditions let it
      through this time, and the calls of its value. */
  datatype Member = Member(key: Key, never: bool, passes: bool, val: Doc)

  predicate Emits(m: Member) {
    !m.never && m.passes
  }

  /** Wire names are text, keys have their widths. */
  predicate GoodMember(m: Member) {
    m.key.Valid() && (m.key.TextKey? ==> WellFormed(m.key.text)) && Good(m.val)
  }

  predicate GoodMembers(s: seq<Member>) {
    forall i :: 0 <= i < |s| ==> GoodMember(s[i])
  }

  predicate DistinctKeys(s: seq<Member>) {
    forall i, j :: 0 <= i < j < |s| ==> s[i].key != s[j].key
  }

  function KeyBytes(m: Member): seq<byte> {
    if m.key.Valid() then EncodeKey(m.key) else []
  }

  // ---- canonical order ----

  function Insert(m: Member, s: seq<Member>): seq<Member> {
    if s == [] || !Less(KeyBytes(s[0]), KeyBytes(m)) then [m] + s else [s[0]] + Insert(m, s[1..])
  }

  /** The members in the order of member_order: a stable sort by encoded key. */
  function Ordered(s: seq<Member>): seq<Member> {
    if s == [] then [] else Insert(s[0], Ordered(s[1..]))
  }

  function KeySlices(s: seq<Member>): (r: seq<W.Slice>)
    ensures |r| == |s| && forall i :: 0 <= i < |s| ==> r[i].key == KeyBytes(s[i])
  {
    if s == [] then [] else [W.Slice(KeyBytes(s[0]), [])] + KeySlices(s[1..])
  }

  lemma {:induction false} InsertKeys(m: Member, s: seq<Member>)
    ensures KeySlices(Insert(m, s)) == W.Insert(W.Slice(KeyBytes(m), []), KeySlices(s))
    ensures multiset(Insert(m, s)) == multiset{m} + multiset(s)
    decreases |s|
  {
    hide Less, KeyBytes;
    if s != [] {
      assert KeySlices(s)[1..] == KeySlices(s[1..]);
      assert s == [s[0]] + s[1..];
      if Less(KeyBytes(s[0]), KeyBytes(m)) {
        InsertKeys(m, s[1..]);
        var r := Insert(m, s);
        assert r[1..] == Insert(m, s[1..]);
      } else {
        assert ([m] + s)[1..] == s;
      }
    }
  }

  lemma {:induction false} OrderedKeys(s: seq<Member>)
    ensures KeySlices(Ordered(s)) == W.Sort(KeySlices(s)) && multiset(Ordered(s)) == multiset(s)
    decreases |s|
  {
    hide Less, KeyBytes, Insert;
    if s != [] {
      OrderedKeys(s[1..]);
      InsertKeys(s[0], Ordered(s[1..]));
      assert KeySlices(s)[1..] == KeySlices(s[1..]);
      assert s == [s[0]] + s[1..];
    }
  }

  /** Distinct keys come out strictly increasing. */
  lemma OrderedIncreases(s: seq<Member>)
    requires GoodMembers(s) && DistinctKeys(s)
    ensures Strictly(KeySlices(Ordered(s)))
  {
    hide W.Sort, Ordered;
    var k := KeySlices(s);
    OrderedKeys(s);
    SortSorted(k);
    AdjacentIsDuplicate(k);
    DuplicateIndices(k);
    if HasDuplicate(k) {
      var i, j :| 0 <= i < j < |k| && k[i].key == k[j].key;
      EncodedOrderIsKeyOrder(s[i].key, s[j].key);
    }
    SortedIsStrict(W.Sort(k));
  }

  // ---- the members that are written ----

  function Emitted(s: seq<Member>): (r: seq<Member>) {
    if s == [] then [] else (if Emits(s[0]) then [s[0]] else []) + Emitted(s[1..])
  }

  lemma {:induction false} EmittedConcat(a: seq<Member>, b: seq<Member>)
    ensures Emitted(a + b) == Emitted(a) + Emitted(b)
    decreases |a|
  {
    hide Emits;
    if a == [] {
      assert a + b == b;
    } else {
      var h := if Emits(a[0]) then [a[0]] else [];
      assert (a + b)[0] == a[0] && (a + b)[1..] == a[1..] + b;
      EmittedConcat(a[1..], b);
      assert h + (Emitted(a[1..]) + Emitted(b)) == h + Emitted(a[1..]) + Emitted(b);
    }
  }

  lemma EmittedSnoc(a: seq<Member>, m: Member)
    ensures Emitted(a + [m]) == if Emits(m) then Emitted(a) + [m] else Emitted(a)
  {
    EmittedConcat(a, [m]);
    assert Emitted([m]) == if Emits(m) then [m] else [];
  }

  /** Which members are written, and how many, does not depend on the order they are visited in. */
  lemma {:induction false} EmittedPermutation(s: seq<Member>, t: seq<Member>)
    requires multiset(s) == multiset(t)
    ensures multiset(Emitted(s)) == multiset(Emitted(t)) && |Emitted(s)| == |Emitted(t)|
    decreases |s|
  {
    if s == [] {
      assert |t| == |multiset(t)| == 0;
    } else {
      var a, b := FindFirst(s, t);
      EmittedPermutation(s[1..], a + b);
      var one := Emitted([s[0]]);
      EmittedConcat(a, b);
      EmittedConcat(a + [s[0]], b);
      EmittedConcat(a, [s[0]]);
      assert s == [s[0]] + s[1..];
      EmittedConcat([s[0]], s[1..]);
    }
  }

  /** Leaving members out keeps the order. */
  lemma {:induction false} EmittedIncreases(s: seq<Member>)
    requires Strictly(KeySlices(s))
    ensures Strictly(KeySlices(Emitted(s)))
    ensures forall i ::
              0 <= i < |Emitted(s)| ==>
              s != [] && (Emitted(s)[i] == s[0] || Less(KeyBytes(s[0]), KeyBytes(Emitted(s)[i])))
    decreases |s|
  {
    hide Less, KeyBytes;
    if s != [] {
      var t := s[1..];
      var k := KeySlices(s);
      assert k[1..] == KeySlices(t);
      TailStrict(k);
      EmittedIncreases(t);
      var e, r := Emitted(t), Emitted(s);
      forall i | 0 <= i < |e|
        ensures Less(KeyBytes(s[0]), KeyBytes(e[i]))
      {
        assert k[1].key == KeyBytes(t[0]);
        if e[i] != t[0] {
          LessTransitive(KeyBytes(s[0]), KeyBytes(t[0]), KeyBytes(e[i]));
        }
      }
      if Emits(s[0]) {
        assert r == [s[0]] + e && r[1..] == e;
        assert KeySlices(r)[1..] == KeySlices(e);
        assert e != [] ==> KeySlices(r)[1].key == KeyBytes(e[0]);
      } else {
        assert r == e;
      }
    }
  }

  lemma TailStrict(k: seq<W.Slice>)
    requires Strictly(k) && k != []
    ensures Strictly(k[1..]) && (|k| > 1 ==> Less(k[0].key, k[1].key))
  {
  }

  lemma NoneEmitted(s: seq<Member>)
    ensures Emitted(s[..0]) == []
  {
  }

  // ---- the count pass ----

  /** encode_struct: count what will be written, in declaration order. */
  method CountMembers(s: seq<Member>) returns (n: nat)
    ensures n == |Emitted(s)| == |Emitted(Ordered(s))|
  {
    hide Ordered, Emitted, Emits;
    n := 0;
    NoneEmitted(s);
    for i := 0 to |s|
      invariant n == |Emitted(s[..i])|
    {
      assert s[..i + 1] == s[..i] + [s[i]];
      EmittedSnoc(s[..i], s[i]);
      if Emits(s[i]) {
        n := n + 1;
      }
    }
    assert s[..|s|] == s;
    CountInOrder(s);
  }

  lemma CountInOrder(s: seq<Member>)
    ensures |Emitted(s)| == |Emitted(Ordered(s))|
  {
    hide Ordered, Emitted;
    OrderedKeys(s);
    EmittedPermutation(s, Ordered(s));
  }

  // ---- the map ----

  /** The key call of a member. */
  function KeyCallOf(k: Key): W.Call {
    match k
    case IntKey(i) => W.KeySInt(i)
    case TextKey(text) => W.KeyText(text)
  }

  function EntriesOf(s: seq<Member>): DocEntries {
    if s == [] then NoDocEntries else DocEntries(CallKey(KeyCallOf(s[0].key)), s[0].val, EntriesOf(s[1..]))
  }

  lemma {:induction false} EntriesAre(s: seq<Member>)
    ensures EntriesOf(s).Length() == |s| && EntrySeq(EntriesOf(s)) == Pairs(s)
    decreases |s|
  {
    if s != [] {
      EntriesAre(s[1..]);
    }
  }

  function Pairs(s: seq<Member>): seq<(KeyDoc, Doc)> {
    if s == [] then [] else [(CallKey(KeyCallOf(s[0].key)), s[0].val)] + Pairs(s[1..])
  }

  lemma {:induction false} PairsConcat(a: seq<Member>, b: seq<Member>)
    ensures Pairs(a + b) == Pairs(a) + Pairs(b)
    decreases |a|
  {
    if a == [] {
      assert a + b == b;
    } else {
      assert (a + b)[1..] == a[1..] + b;
      PairsConcat(a[1..], b);
    }
  }

  lemma {:induction false} PairsPermutation(s: seq<Member>, t: seq<Member>)
    requires multiset(s) == multiset(t)
    ensures multiset(Pairs(s)) == multiset(Pairs(t))
    decreases |s|
  {
    if s == [] {
      assert |t| == |multiset(t)| == 0;
    } else {
      var a, b := FindFirst(s, t);
      PairsPermutation(s[1..], a + b);
      PairsConcat(a, b);
      PairsConcat(a + [s[0]], b);
      PairsConcat(a, [s[0]]);
      assert s == [s[0]] + s[1..];
      PairsConcat([s[0]], s[1..]);
    }
  }

  /** The slices a sorting map would record have the encoded keys of the members. */
  lemma {:induction false} SliceKeys(o: W.Options, s: seq<Member>, depth: nat)
    requires GoodMembers(s) && WriteEntries(o, EntriesOf(s), depth).WroteEntries?
    ensures var r := WriteEntries(o, EntriesOf(s), depth).slices;
            |r| == |s| && forall i :: 0 <= i < |s| ==> r[i].key == KeyBytes(s[i])
    decreases |s|
  {
    hide Write, WriteKey, GoodMember, KeyBytes;
    if s != [] {
      assert GoodMembers(s[1..]);
      SliceKeys(o, s[1..], depth);
      assert GoodMember(s[0]);
      KeyWritten(o, s[0], depth);
    }
  }

  lemma KeyWritten(o: W.Options, m: Member, depth: nat)
    requires GoodMember(m)
    ensures WriteKey(o, CallKey(KeyCallOf(m.key)), depth) == Wrote(KeyBytes(m))
  {
    hide ShortHead, WellFormed, Good;
  }

  lemma {:induction false} SameKeysStrict(a: seq<W.Slice>, b: seq<W.Slice>)
    requires |a| == |b| && (forall i :: 0 <= i < |a| ==> a[i].key == b[i].key) && Strictly(a)
    ensures Strictly(b)
    decreases |a|
  {
    hide Less;
    if |a| > 1 {
      assert forall i :: 0 <= i < |a[1..]| ==> a[1..][i].key == b[1..][i].key;
      SameKeysStrict(a[1..], b[1..]);
    }
  }

  lemma {:induction false} StrictIsSorted(s: seq<W.Slice>)
    requires Strictly(s)
    ensures W.Sort(s) == s && !W.AdjacentEqual(s)
    decreases |s|
  {
    hide Less;
    if s != [] {
      TailStrict(s);
      StrictIsSorted(s[1..]);
      assert s == [s[0]] + s[1..];
      if |s| > 1 {
        assert s[1..][0] == s[1];
        if Less(s[1].key, s[0].key) {
          LessTransitive(s[0].key, s[1].key, s[0].key);
        }
        LessIrreflexive(s[0].key);
      }
    }
  }

  /** A struct with distinct keys, written as it comes in canonical order, gives the bytes that buffering and sorting
      its members in declaration order would give; if one form throws, so does the other. */
  lemma OrderedEqualsSorted(o: W.Options, s: seq<Member>, opening: MapOpening, depth: nat)
    requires GoodMembers(s) && DistinctKeys(s)
    ensures var ordered := Write(o, OrderedDoc(EntriesOf(Emitted(Ordered(s)))), depth);
            var sorted := Write(o, MapDoc(opening, EntriesOf(Emitted(s))), depth);
            (ordered.Wrote? <==> sorted.Wrote?) && (ordered.Wrote? ==> ordered == sorted)
  {
    hide Write, WriteEntries, SortedMap, PlainMap, EntriesOf, Emitted, Ordered, GoodMembers, DistinctKeys, KeySlices,
         Strictly;
    var e, t := Emitted(Ordered(s)), Emitted(s);
    EmissionRearranges(s);
    StaysGood(s);
    EmissionCanonical(s);
    RearrangedMap(o, e, t, depth + 1);
    IncreasingUnsorted(o, e, depth + 1);
    BufferedWrite(o, opening, EntriesOf(t), depth);
    OrderedWrite(o, EntriesOf(e), depth);
  }

  lemma BufferedWrite(o: W.Options, opening: MapOpening, s: DocEntries, depth: nat)
    ensures Write(o, MapDoc(opening, s), depth)
         == if depth >= o.maxDepth then Failed(W.DepthExceeded) else SortedMap(WriteEntries(o, s, depth + 1))
  {
    hide SortedMap, WriteEntries;
  }

  lemma OrderedWrite(o: W.Options, s: DocEntries, depth: nat)
    ensures Write(o, OrderedDoc(s), depth)
         == if depth >= o.maxDepth then Failed(W.DepthExceeded) else PlainMap(WriteEntries(o, s, depth + 1))
  {
    hide PlainMap, WriteEntries;
  }

  lemma EmissionRearranges(s: seq<Member>)
    ensures multiset(Emitted(Ordered(s))) == multiset(Emitted(s))
  {
    hide Ordered, Emitted;
    OrderedKeys(s);
    EmittedPermutation(Ordered(s), s);
  }

  /** A sorting map does not care in which order the members come. */
  lemma RearrangedMap(o: W.Options, a: seq<Member>, b: seq<Member>, depth: nat)
    requires multiset(a) == multiset(b)
    ensures var x, y := SortedMap(WriteEntries(o, EntriesOf(a), depth)),
            SortedMap(WriteEntries(o, EntriesOf(b), depth));
            (x.Wrote? <==> y.Wrote?) && (x.Wrote? ==> x == y)
  {
    hide SortedMap, WriteEntries, EntriesOf, EntrySeq, Pairs;
    EntriesAre(a);
    EntriesAre(b);
    PairsPermutation(a, b);
    PermutedMap(o, EntriesOf(a), EntriesOf(b), depth);
  }

  /** Sorting members whose keys increase already changes nothing. */
  lemma IncreasingUnsorted(o: W.Options, s: seq<Member>, depth: nat)
    requires GoodMembers(s) && Strictly(KeySlices(s))
    ensures SortedMap(WriteEntries(o, EntriesOf(s), depth)) == PlainMap(WriteEntries(o, EntriesOf(s), depth))
  {
    hide W.Sort, W.AdjacentEqual, W.Flat, ShortHead, WriteEntries, EntriesOf, KeySlices, Strictly;
    var w := WriteEntries(o, EntriesOf(s), depth);
    if w.WroteEntries? {
      SliceKeys(o, s, depth);
      assert |KeySlices(s)| == |s| && forall i :: 0 <= i < |s| ==> KeySlices(s)[i].key == KeyBytes(s[i]);
      SameKeysStrict(KeySlices(s), w.slices);
      StrictIsSorted(w.slices);
    }
  }

  lemma StaysGood(s: seq<Member>)
    requires GoodMembers(s)
    ensures GoodMembers(Emitted(Ordered(s)))
  {
    OrderedKeys(s);
    var r := Ordered(s);
    forall i | 0 <= i < |r|
      ensures GoodMember(r[i])
    {
      assert r[i] in multiset(s);
    }
    EmittedGood(r);
  }

  lemma {:induction false} EmittedGood(s: seq<Member>)
    requires GoodMembers(s)
    ensures GoodMembers(Emitted(s))
    decreases |s|
  {
    if s != [] {
      EmittedGood(s[1..]);
    }
  }

  /** The keys that come out are strictly increasing, and as many as were counted. */
  lemma EmissionCanonical(s: seq<Member>)
    requires GoodMembers(s) && DistinctKeys(s)
    ensures Strictly(KeySlices(Emitted(Ordered(s)))) && |Emitted(Ordered(s))| == |Emitted(s)|
  {
    hide Ordered, Emitted, Strictly;
    OrderedKeys(s);
    OrderedIncreases(s);
    EmittedIncreases(Ordered(s));
    EmittedPermutation(Ordered(s), s);
  }

  // ---- the calls ----

  lemma {:induction false} CallsConcat(a: seq<Member>, m: Member)
    ensures EntriesCalls(EntriesOf(a + [m])) == EntriesCalls(EntriesOf(a)) + ([KeyCallOf(m.key)] + Calls(m.val))
    decreases |a|
  {
    hide Calls;
    if a == [] {
      assert [m][1..] == [] && a + [m] == [m];
    } else {
      assert (a + [m])[1..] == a[1..] + [m];
      CallsConcat(a[1..], m);
    }
  }

  /** What a struct is written as: its one member when transparent, a sorting map with the discriminator spliced in
      front when it is an internally tagged alternative, and otherwise a map in canonical order. */
  datatype Shape = Transparent | Tagged(key: seq<byte>, name: seq<byte>) | Plain {
    predicate Suits(s: seq<Member>) {
      (Transparent? ==> |s| == 1) && (Tagged? ==> key != [])
    }
  }

  /** An empty discriminator key stands for none. */
  function ShapeOf(transparent: bool, tagKey: seq<byte>, tagName: seq<byte>): Shape {
    if transparent then Transparent else if tagKey == [] then Plain else Tagged(tagKey, tagName)
  }

  function Discriminator(key: seq<byte>, name: seq<byte>): Member {
    Member(TextKey(key), false, true, Leaf(W.Text(name)))
  }

  function StructDoc(shape: Shape, s: seq<Member>): Doc
    requires shape.Suits(s)
  {
    match shape
    case Transparent => s[0].val
    case Tagged(key, name) =>
      MapDoc(Counted(|Emitted(s)| + 1), EntriesOf([Discriminator(key, name)] + Emitted(Ordered(s))))
    case Plain => OrderedDoc(EntriesOf(Emitted(Ordered(s))))
  }

  /** encode_members: those that pass, in canonical order. */
  method EncodeMembers(s: seq<Member>) returns (body: seq<W.Call>)
    ensures body == EntriesCalls(EntriesOf(Emitted(Ordered(s))))
  {
    hide Calls, Ordered, Emitted, EntriesOf, EntriesCalls, Emits;
    var order := Ordered(s);
    body := [];
    NothingEmitted(order);
    for i := 0 to |order|
      invariant body == EntriesCalls(EntriesOf(Emitted(order[..i])))
    {
      assert order[..i + 1] == order[..i] + [order[i]];
      EmittedSnoc(order[..i], order[i]);
      if Emits(order[i]) {
        CallsConcat(Emitted(order[..i]), order[i]);
        body := body + ([KeyCallOf(order[i].key)] + Calls(order[i].val));
      }
    }
    assert order[..|order|] == order;
  }

  /** encode_struct: the count first, one more for a discriminator, then the map that fits the shape. */
  method EncodeStruct(transparent: bool, tagKey: seq<byte>, tagName: seq<byte>, s: seq<Member>)
    returns (calls: seq<W.Call>)
    requires transparent ==> |s| == 1
    ensures calls == Calls(StructDoc(ShapeOf(transparent, tagKey, tagName), s))
  {
    hide Calls, Ordered, Emitted, EntriesOf, EntriesCalls;
    if transparent {
      return Calls(s[0].val);
    }
    var n := CountMembers(s);
    ghost var emitted := Emitted(Ordered(s));
    EntriesAre(emitted);
    if tagKey != [] {
      n := n + 1;
      calls := [W.BeginMap(Some(n))];
      calls := calls + [W.KeyText(tagKey)] + [W.Text(tagName)];
    } else {
      calls := [W.BeginMapOrdered(Some(n))];
    }
    var body := EncodeMembers(s);
    calls := calls + body + [W.EndMap];
    if tagKey != [] {
      TaggedCalls(n, tagKey, tagName, emitted);
    } else {
      OrderedCalls(EntriesOf(emitted));
    }
  }

  lemma NothingEmitted(s: seq<Member>)
    ensures EntriesCalls(EntriesOf(Emitted(s[..0]))) == []
  {
  }

  lemma OrderedCalls(e: DocEntries)
    ensures Calls(OrderedDoc(e)) == [W.BeginMapOrdered(Some(e.Length()))] + EntriesCalls(e) + [W.EndMap]
  {
  }

  lemma TaggedCalls(n: nat, key: seq<byte>, name: seq<byte>, s: seq<Member>)
    ensures Calls(MapDoc(Counted(n), EntriesOf([Discriminator(key, name)] + s)))
         == [W.BeginMap(Some(n))] + [W.KeyText(key)] + [W.Text(name)] + EntriesCalls(EntriesOf(s)) + [W.EndMap]
  {
    var d := Discriminator(key, name);
    assert ([d] + s)[1..] == s;
    assert EntriesCalls(EntriesOf([d] + s)) == [W.KeyText(key)] + ([W.Text(name)] + EntriesCalls(EntriesOf(s)));
  }

  /** Splicing a discriminator in is declaring it: the bytes are those of a plain struct that has it as one more
      member, wherever its key falls among the others; if one form throws, so does the other. */
  lemma SplicedIsMember(o: W.Options, key: seq<byte>, name: seq<byte>, s: seq<Member>, depth: nat)
    requires key != [] && GoodMembers([Discriminator(key, name)] + s) && DistinctKeys([Discriminator(key, name)] + s)
    ensures var spliced := Write(o, StructDoc(Tagged(key, name), s), depth);
            var declared := Write(o, StructDoc(Plain, [Discriminator(key, name)] + s), depth);
            (spliced.Wrote? <==> declared.Wrote?) && (spliced.Wrote? ==> spliced == declared)
  {
    hide Write, Ordered, Emitted, EntriesOf, WriteEntries, SortedMap, GoodMembers, DistinctKeys;
    var d := Discriminator(key, name);
    var opening := Counted(|Emitted(s)| + 1);
    OrderedEqualsSorted(o, [d] + s, opening, depth);
    EmittedConcat([d], s);
    DiscriminatorEmitted(key, name);
    EmissionRearranges(s);
    RearrangedMap(o, [d] + Emitted(s), [d] + Emitted(Ordered(s)), depth + 1);
    BufferedWrite(o, opening, EntriesOf([d] + Emitted(s)), depth);
    BufferedWrite(o, opening, EntriesOf([d] + Emitted(Ordered(s))), depth);
  }

  lemma DiscriminatorEmitted(key: seq<byte>, name: seq<byte>)
    ensures Emitted([Discriminator(key, name)]) == [Discriminator(key, name)]
  {
  }

  /** A discriminator with the key of a member that is written is refused, however the two keys are placed. */
  lemma SplicedTwice(o: W.Options, key: seq<byte>, name: seq<byte>, s: seq<Member>, depth: nat, i: nat)
    requires key != [] && GoodMembers([Discriminator(key, name)] + s)
    requires i < |s| && Emits(s[i]) && s[i].key == TextKey(key)
    ensures !Write(o, StructDoc(Tagged(key, name), s), depth).Wrote?
  {
    hide Write, WriteEntries, SortedMap, EntriesOf, Emitted, Ordered, Emits, GoodMember, GoodMembers;
    var all := [Discriminator(key, name)] + Emitted(Ordered(s));
    var j := MemberEmitted(s, s[i]);
    assert all[0].key == all[j + 1].key;
    WithDiscriminatorGood(Discriminator(key, name), s);
    TwiceRefused(o, all, 0, j + 1, depth + 1);
    BufferedWrite(o, Counted(|Emitted(s)| + 1), EntriesOf(all), depth);
  }

  lemma MemberEmitted(s: seq<Member>, m: Member) returns (j: nat)
    requires m in s && Emits(m)
    ensures j < |Emitted(Ordered(s))| && Emitted(Ordered(s))[j] == m
  {
    hide Ordered, Emitted, Emits;
    OrderedKeys(s);
    assert m in multiset(Ordered(s));
    EmittedHas(Ordered(s), m);
    j :| 0 <= j < |Emitted(Ordered(s))| && Emitted(Ordered(s))[j] == m;
  }

  lemma WithDiscriminatorGood(d: Member, s: seq<Member>)
    requires GoodMembers([d] + s)
    ensures GoodMembers([d] + Emitted(Ordered(s)))
  {
    hide Ordered, Emitted, GoodMember;
    var all := [d] + s;
    assert GoodMember(all[0]);
    forall k | 0 <= k < |s|
      ensures GoodMember(s[k])
    {
      assert GoodMember(all[k + 1]);
    }
    StaysGood(s);
  }

  lemma {:induction false} EmittedHas(s: seq<Member>, m: Member)
    requires m in s && Emits(m)
    ensures m in Emitted(s)
    decreases |s|
  {
    if s[0] != m {
      EmittedHas(s[1..], m);
    }
  }

  lemma TwiceRefused(o: W.Options, s: seq<Member>, i: nat, j: nat, depth: nat)
    requires GoodMembers(s) && i < j < |s| && s[i].key == s[j].key
    ensures !SortedMap(WriteEntries(o, EntriesOf(s), depth)).Wrote?
  {
    hide W.Sort, W.AdjacentEqual, W.Flat, ShortHead, WriteEntries, EntriesOf;
    var w := WriteEntries(o, EntriesOf(s), depth);
    if w.WroteEntries? {
      SliceKeys(o, s, depth);
      AdjacentIsDuplicate(w.slices);
      DuplicateIndices(w.slices);
    }
  }
}
