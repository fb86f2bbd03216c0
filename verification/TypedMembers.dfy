/** Which members of a struct are written. */
module TypedMembers {
  import opened Head
  import opened Utf8
  import opened Item
  import opened BuildSpec
  import opened WriterTrees
  import opened WriterRuns
  import opened Typed
  import opened TypedWrite
  import opened TypedRead
  import opened TypedStructs
  import opened TypedExamples

  /** A member is left out by skip_serializing, by skip_if_null holding an empty optional, and by skip_if_default
      holding its initial value. */
  predicate LeftOut(f: Field, v: Value) {
    || f.omit.never
    || (f.omit.ifNull && v == VNone)
    || (f.omit.ifDefault && v == f.init)
  }

  /** The members the others leave. */
  function Kept(fields: seq<Field>, ms: seq<Value>): set<nat>
    requires |ms| == |fields|
  {
    set i: nat | i < |fields| && !LeftOut(fields[i], ms[i])
  }

  /** The integer key of a member if it has one, else its wire name. */
  function KeyItemOf(f: Field): Item {
    if f.key.Some? then IntItem(f.key.value) else TextString(f.name)
  }

  predicate HasEntry(s: Entries, k: Item, v: Item) {
    s.Entries? && ((s.key == k && s.val == v) || HasEntry(s.rest, k, v))
  }

  predicate HasKey(s: Entries, k: Item) {
    s.Entries? && (s.key == k || HasKey(s.rest, k))
  }

  lemma {:induction false} EntriesFromMembers(es: seq<M.Member>, k: Item)
    ensures HasKey(EntryTrees(M.EntriesOf(es)), k) <==> exists m :: m in es && KeyOf(m.key) == k
    ensures forall m :: m in es ==> HasEntry(EntryTrees(M.EntriesOf(es)), KeyOf(m.key), Tree(m.val))
    ensures EntryTrees(M.EntriesOf(es)).Length() == |es|
    decreases |es|
  {
    hide Tree, KeyOf;
    if es != [] {
      EntriesFromMembers(es[1..], k);
      var u := EntryTrees(M.EntriesOf(es));
      KeyIs(es[0]);
      assert u.key == KeyOf(es[0].key) && u.val == Tree(es[0].val) && u.rest == EntryTrees(M.EntriesOf(es[1..]));
      assert es == [es[0]] + es[1..];
    }
  }

  lemma KeyIs(m: M.Member)
    ensures KeyTree(CallKey(M.KeyCallOf(m.key))) == KeyOf(m.key)
  {
  }

  lemma FieldKeyIs(f: Field)
    ensures KeyOf(FieldKey(f)) == KeyItemOf(f)
  {
  }

  lemma {:induction false} EmittedCount(fields: seq<Field>, ms: seq<Value>, n: nat)
    requires |ms| == |fields| && n <= |fields|
    ensures |M.Emitted(Members(fields, ms)[..n])| == |set i | i in Kept(fields, ms) && i < n|
    decreases n
  {
    hide DocOf, M.Emits, LeftOut;
    var s := Members(fields, ms);
    if n == 0 {
      assert s[..0] == [] && (set i | i in Kept(fields, ms) && i < 0) == {};
    } else {
      EmittedCount(fields, ms, n - 1);
      assert s[..n] == s[..n - 1] + [s[n - 1]];
      M.EmittedSnoc(s[..n - 1], s[n - 1]);
      EmitsKept(fields, ms, n - 1);
      OneMoreKept(Kept(fields, ms), n);
    }
  }

  lemma OneMoreKept(kept: set<nat>, n: nat)
    requires n > 0
    ensures |set i | i in kept && i < n| == |set i | i in kept && i < n - 1| + if n - 1 in kept then 1 else 0
  {
    var before := set i | i in kept && i < n - 1;
    var now := set i | i in kept && i < n;
    assert now == if n - 1 in kept then before + {n - 1} else before;
  }

  lemma EmitsKept(fields: seq<Field>, ms: seq<Value>, i: nat)
    requires |ms| == |fields| && i < |fields|
    ensures M.Emits(Members(fields, ms)[i]) <==> i in Kept(fields, ms)
    ensures Members(fields, ms)[i].key == FieldKey(fields[i])
            && Members(fields, ms)[i].val == DocOf(fields[i].ty, ms[i])
  {
    hide DocOf;
  }

  /** The entries of a struct are its kept members in some order. */
  lemma WrittenMembers(fields: seq<Field>, ms: seq<Value>) returns (es: seq<M.Member>)
    requires |ms| == |fields|
    ensures DocOf(TStruct(fields, Unknown(false, [])), VStruct(ms)) == OrderedDoc(M.EntriesOf(es))
    ensures |es| == |Kept(fields, ms)|
    ensures forall m :: m in es <==> exists i :: i in Kept(fields, ms) && Members(fields, ms)[i] == m
  {
    hide DocOf, M.Ordered, M.Emitted, M.Emits, M.EntriesOf, LeftOut;
    var s := Members(fields, ms);
    es := M.Emitted(M.Ordered(s));
    M.EmissionRearranges(s);
    assert |es| == |multiset(es)| == |multiset(M.Emitted(s))| == |M.Emitted(s)|;
    EmittedCount(fields, ms, |fields|);
    assert s[..|s|] == s && (set i | i in Kept(fields, ms) && i < |fields|) == Kept(fields, ms);
    forall m
      ensures m in es <==> exists i :: i in Kept(fields, ms) && s[i] == m
    {
      if m in es {
        assert m in multiset(M.Emitted(s));
        EmittedFrom(s, m);
        var i :| 0 <= i < |s| && s[i] == m;
        EmitsKept(fields, ms, i);
      }
      if i :| i in Kept(fields, ms) && s[i] == m {
        EmitsKept(fields, ms, i);
        M.EmittedHas(s, m);
        assert m in multiset(es);
      }
    }
    StructDocIs(fields, ms);
  }

  lemma StructDocIs(fields: seq<Field>, ms: seq<Value>)
    ensures DocOf(TStruct(fields, Unknown(false, [])), VStruct(ms))
            == OrderedDoc(M.EntriesOf(M.Emitted(M.Ordered(Members(fields, ms)))))
  {
    hide Members, M.Ordered, M.Emitted, M.EntriesOf;
  }

  lemma KeyItemsApart(fields: seq<Field>, i: nat, j: nat)
    requires SoundKeys(fields) && i < |fields| && j < |fields| && i != j
    ensures KeyItemOf(fields[i]) != KeyItemOf(fields[j])
  {
    assert KeysApart(fields[i], fields[j]) && KeysApart(fields[j], fields[i]);
  }

  /** The map of a struct has the key of a member if and only if the member is not left out, with what its value is
      written as; it has no other keys, and its count is the number of those members. */
  lemma StructWritten(fields: seq<Field>, unknown: Unknown, ms: seq<Value>)
    requires SoundKeys(fields) && |ms| == |fields|
    ensures var img := Img(TStruct(fields, unknown), VStruct(ms));
            && img.Map? && img.entries.Length() == |Kept(fields, ms)|
            && (forall i :: 0 <= i < |fields| ==>
                  if LeftOut(fields[i], ms[i]) then !HasKey(img.entries, KeyItemOf(fields[i]))
                  else HasEntry(img.entries, KeyItemOf(fields[i]), Img(fields[i].ty, ms[i])))
            && (forall k :: HasKey(img.entries, k) ==> exists i :: i in Kept(fields, ms) && KeyItemOf(fields[i]) == k)
  {
    hide DocOf, Members, M.EntriesOf, LeftOut, SoundKeys, KeyOf, KeyItemOf, FieldKey, HasKey, HasEntry, EntryTrees;
    var es := WrittenMembers(fields, ms);
    SameDoc(fields, unknown, ms);
    var u := EntryTrees(M.EntriesOf(es));
    EntriesFromMembers(es, TextString([]));
    forall k | HasKey(u, k)
      ensures exists i :: i in Kept(fields, ms) && KeyItemOf(fields[i]) == k
    {
      EntriesFromMembers(es, k);
      var m :| m in es && KeyOf(m.key) == k;
      var i :| i in Kept(fields, ms) && Members(fields, ms)[i] == m;
      EmitsKept(fields, ms, i);
      FieldKeyIs(fields[i]);
    }
    forall i | 0 <= i < |fields|
      ensures if LeftOut(fields[i], ms[i]) then !HasKey(u, KeyItemOf(fields[i]))
              else HasEntry(u, KeyItemOf(fields[i]), Img(fields[i].ty, ms[i]))
    {
      EmitsKept(fields, ms, i);
      FieldKeyIs(fields[i]);
      if LeftOut(fields[i], ms[i]) {
        if HasKey(u, KeyItemOf(fields[i])) {
          var j :| j in Kept(fields, ms) && KeyItemOf(fields[j]) == KeyItemOf(fields[i]);
          KeyItemsApart(fields, i, j);
        }
      } else {
        assert Members(fields, ms)[i] in es;
      }
    }
  }

  /** What becomes of unknown keys makes no difference to what is written. */
  lemma SameDoc(fields: seq<Field>, unknown: Unknown, ms: seq<Value>)
    ensures DocOf(TStruct(fields, unknown), VStruct(ms)) == DocOf(TStruct(fields, Unknown(false, [])), VStruct(ms))
  {
    hide Members, M.StructDoc;
  }

  /** The bytes begin with the head of that count. */
  lemma StructBytes(o: W.Options, fields: seq<Field>, unknown: Unknown, ms: seq<Value>, depth: nat)
    requires SoundKeys(fields) && |ms| == |fields| && Good(DocOf(TStruct(fields, unknown), VStruct(ms)))
    requires Write(o, DocOf(TStruct(fields, unknown), VStruct(ms)), depth).Wrote?
    ensures var img := Img(TStruct(fields, unknown), VStruct(ms));
            && img.Map? && Write(o, DocOf(TStruct(fields, unknown), VStruct(ms)), depth).bytes
                == ShortHead(MAP, |Kept(fields, ms)|) + EncEntries(img.entries)
  {
    hide DocOf, Write, Good, EncEntries, LeftOut;
    StructWritten(fields, unknown, ms);
    WriteIsEnc(o, DocOf(TStruct(fields, unknown), VStruct(ms)), depth);
  }

  /** A number that is left out while it is zero. */
  function ZeroField(): Field {
    Field([0x61], [0x61], [], None, false, false, false, Omission(false, false, true), None, VInt(0),
          TInt(Unsigned(255)))
  }

  /** skip_if_default: the zero is left out, and the map is A0. */
  lemma DefaultLeftOut()
    ensures Enc(Img(TStruct([ZeroField()], Unknown(false, [])), VStruct([VInt(0)]))) == [0xA0]
    ensures Enc(Img(TStruct([ZeroField()], Unknown(false, [])), VStruct([VInt(5)]))) == [0xA1, 0x61, 0x61, 0x05]
  {
    hide DocOf;
    var fields := [ZeroField()];
    assert SoundKeys(fields) by {
      AsciiName(0x61);
    }
    StructWritten(fields, Unknown(false, []), [VInt(0)]);
    StructWritten(fields, Unknown(false, []), [VInt(5)]);
    assert LeftOut(fields[0], [VInt(0)][0]) && !LeftOut(fields[0], [VInt(5)][0]);
    assert Kept(fields, [VInt(0)]) == {} && Kept(fields, [VInt(5)]) == {0};
    FiveIs();
    var img := Img(TStruct(fields, Unknown(false, [])), VStruct([VInt(5)]));
    assert 0 < |fields| && HasEntry(img.entries, KeyItemOf(fields[0]), Img(fields[0].ty, [VInt(5)][0]));
    OneEntry(Img(TStruct(fields, Unknown(false, [])), VStruct([VInt(5)])).entries);
  }

  lemma FiveIs()
    ensures Img(TInt(Unsigned(255)), VInt(5)) == UInt(5)
  {
  }

  lemma OneEntry(s: Entries)
    requires s.Length() == 1 && HasEntry(s, TextString([0x61]), UInt(5))
    ensures Enc(Map(s)) == [0xA1, 0x61, 0x61, 0x05]
  {
  }
}
