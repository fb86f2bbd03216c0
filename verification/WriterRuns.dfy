/** Balanced sequences of sink calls, and what the deterministic writer makes of them. */
module WriterRuns {
  import opened Bytes
  import opened Head
  import opened Utf8
  import opened Floats
  import opened Item
  import opened WriterSpec

  /** How a buffered map is opened: by begin_map with a count, which is not looked at, or without one, or by
      begin_map_ordered without a count. */
  datatype MapOpening = Counted(n: nat) | Uncounted | UncountedOrdered

  /** A value as an encoder may present it: every balanced sequence of calls is `Calls` of one of these, where counts
      that are written ahead of the members tell their number. */
  datatype Doc =
    | Leaf(call: Call)
    | ArrayDoc(sized: bool, items: Docs)       // unsized arrays are buffered and counted
    | MapDoc(opening: MapOpening, entries: DocEntries)   // buffered, sorted at the end
    | OrderedDoc(entries: DocEntries)          // begin_map_ordered: written as it comes
    | TagDoc(tag: nat, content: Doc)

  datatype Docs = NoDocs | Docs(head: Doc, tail: Docs) {
    function Length(): nat {
      if NoDocs? then 0 else 1 + tail.Length()
    }
  }

  datatype KeyDoc = CallKey(call: Call) | AnyKey(doc: Doc)

  datatype DocEntries = NoDocEntries | DocEntries(key: KeyDoc, val: Doc, rest: DocEntries) {
    function Length(): nat {
      if NoDocEntries? then 0 else 1 + rest.Length()
    }
  }

  predicate IsLeaf(c: Call) {
    c.Null? || c.Boolean? || c.UIntCall? || c.SIntCall? || c.Negative? || c.Real? || c.Text? || c.ByteCall?
      || c.SimpleCall?
  }

  predicate IsKey(c: Call) {
    c.KeyText? || c.KeyUInt? || c.KeySInt?
  }

  predicate Proper(d: Doc) {
    match d
    case Leaf(call) => IsLeaf(call)
    case ArrayDoc(_, items) => ProperDocs(items)
    case MapDoc(_, entries) => ProperEntries(entries)
    case OrderedDoc(entries) => ProperEntries(entries)
    case TagDoc(_, content) => Proper(content)
  }

  predicate ProperDocs(s: Docs) {
    s.NoDocs? || (Proper(s.head) && ProperDocs(s.tail))
  }

  predicate ProperEntries(s: DocEntries) {
    s.NoDocEntries? || (ProperKey(s.key) && Proper(s.val) && ProperEntries(s.rest))
  }

  predicate ProperKey(k: KeyDoc) {
    match k
    case CallKey(call) => IsKey(call)
    case AnyKey(doc) => Proper(doc)
  }

  // ---- the calls ----

  function Calls(d: Doc): seq<Call> {
    match d
    case Leaf(call) => [call]
    case ArrayDoc(sized, items) =>
      [BeginArray(if sized then Some(items.Length()) else None)] + (DocsCalls(items) + [EndArray])
    case MapDoc(opening, entries) => [MapCall(opening)] + (EntriesCalls(entries) + [EndMap])
    case OrderedDoc(entries) => [BeginMapOrdered(Some(entries.Length()))] + (EntriesCalls(entries) + [EndMap])
    case TagDoc(tag, content) => [TagCall(tag)] + Calls(content)
  }

  function MapCall(m: MapOpening): Call {
    match m
    case Counted(n) => BeginMap(Some(n))
    case Uncounted => BeginMap(None)
    case UncountedOrdered => BeginMapOrdered(None)
  }

  function DocsCalls(s: Docs): seq<Call> {
    if s.NoDocs? then [] else Calls(s.head) + DocsCalls(s.tail)
  }

  function EntriesCalls(s: DocEntries): seq<Call> {
    if s.NoDocEntries? then [] else KeyCalls(s.key) + (Calls(s.val) + EntriesCalls(s.rest))
  }

  function KeyCalls(k: KeyDoc): seq<Call> {
    match k
    case CallKey(call) => [call]
    case AnyKey(doc) => [BeginKey] + (Calls(doc) + [EndKey])
  }

  // ---- the recursive encoding ----

  datatype Written = Failed(code: Errc) | Wrote(bytes: seq<byte>)

  datatype WrittenEntries = FailedEntries(code: Errc) | WroteEntries(slices: seq<Slice>)

  function LeafBytes(o: Options, c: Call): Written {
    match c
    case Null => Wrote([0xF6])
    case Boolean(b) => Wrote([if b then 0xF5 else 0xF4])
    case UIntCall(u) => Wrote(ShortHead(UINT, u))
    case SIntCall(i) => Wrote(IntHead(i))
    case Negative(n) => Wrote(ShortHead(NINT, n))
    case Real(d) => Wrote(FloatBytes(Preferred(d)))
    case Text(s) => if o.validateUtf8 && !WellFormed(s) then Failed(InvalidUtf8) else Wrote(ShortHead(TEXT, |s|) + s)
    case ByteCall(s) => Wrote(ShortHead(BYTES, |s|) + s)
    case SimpleCall(v) =>
      if 20 <= v <= 31 then Failed(UnsupportedSimpleValue)
         else Wrote(if v < 24 then [(0xE0 + v) % 256] else [0xF8, v % 256])
    case KeyText(s) => if o.validateUtf8 && !WellFormed(s) then Failed(InvalidUtf8) else Wrote(ShortHead(TEXT, |s|) + s)
    case KeyUInt(u) => Wrote(ShortHead(UINT, u))
    case KeySInt(i) => Wrote(IntHead(i))
    case _ => Wrote([])
  }

  /** The bytes of a value inside `depth` open containers, or the first error on the way. */
  function Write(o: Options, d: Doc, depth: nat): Written {
    match d
    case Leaf(call) => LeafBytes(o, call)
    case ArrayDoc(_, items) =>
      if depth >= o.maxDepth then Failed(DepthExceeded)
      else Prefix(ShortHead(ARRAY, items.Length()), WriteDocs(o, items, depth + 1))
    case MapDoc(_, entries) =>
      if depth >= o.maxDepth then Failed(DepthExceeded) else SortedMap(WriteEntries(o, entries, depth + 1))
    case OrderedDoc(entries) =>
      if depth >= o.maxDepth then Failed(DepthExceeded)
      else PlainMap(WriteEntries(o, entries, depth + 1))
    case TagDoc(tag, content) => Prefix(ShortHead(TAG, tag), Write(o, content, depth))
  }

  function Prefix(head: seq<byte>, w: Written): Written {
    if w.Failed? then w else Wrote(head + w.bytes)
  }

  function SortedMap(w: WrittenEntries): Written {
    if w.FailedEntries? then Failed(w.code)
    else if AdjacentEqual(Sort(w.slices)) then Failed(DuplicateKey)
    else Wrote(ShortHead(MAP, |Sort(w.slices)|) + Flat(Sort(w.slices)))
  }

  function PlainMap(w: WrittenEntries): Written {
    if w.FailedEntries? then Failed(w.code) else Wrote(ShortHead(MAP, |w.slices|) + Flat(w.slices))
  }

  function WriteDocs(o: Options, s: Docs, depth: nat): Written {
    if s.NoDocs? then Wrote([])
    else
      var w := Write(o, s.head, depth);
      if w.Failed? then w else Prefix(w.bytes, WriteDocs(o, s.tail, depth))
  }

  function WriteEntries(o: Options, s: DocEntries, depth: nat): WrittenEntries {
    if s.NoDocEntries? then WroteEntries([])
    else
      var k := WriteKey(o, s.key, depth);
      if k.Failed? then FailedEntries(k.code)
      else
        var v := Write(o, s.val, depth);
        if v.Failed? then FailedEntries(v.code)
        else
          var rest := WriteEntries(o, s.rest, depth);
          if rest.FailedEntries? then rest else WroteEntries([Slice(k.bytes, v.bytes)] + rest.slices)
  }

  function WriteKey(o: Options, k: KeyDoc, depth: nat): Written {
    match k
    case CallKey(call) => LeafBytes(o, call)
    case AnyKey(doc) => Write(o, doc, depth)
  }

  // ---- states ----

  lemma {:induction false} AppendAppend(st: State, a: seq<byte>, b: seq<byte>)
    ensures Append(Append(st, a), b) == Append(st, a + b)
  {
    match st
    case Out(out) => assert out + a + b == out + (a + b);
    case Push(below, f) =>
      if f.buffered {
        assert f.body + a + b == f.body + (a + b);
      } else {
        AppendAppend(below, a, b);
      }
  }

  lemma {:induction false} AppendNothing(st: State)
    ensures Append(st, []) == st
  {
    match st
    case Out(out) => assert out + [] == out;
    case Push(below, f) =>
      if f.buffered {
        assert f.body + [] == f.body;
      } else {
        AppendNothing(below);
      }
  }

  lemma CountAppend(st: State, s: seq<byte>)
    ensures Count(Append(st, s)) == Append(Count(st), s)
  {
  }

  lemma {:induction false} DepthAppend(st: State, s: seq<byte>)
    ensures Append(st, s).Depth() == st.Depth() && Emit(st, s).Depth() == st.Depth()
  {
    if st.Push? && !st.top.buffered {
      DepthAppend(st.below, s);
    }
  }

  function Then(o: Options, r: Result, calls: seq<Call>): Result {
    if r.Thrown? then r else Run(o, r.st, calls)
  }

  lemma {:induction false} RunConcat(o: Options, st: State, a: seq<Call>, b: seq<Call>)
    ensures Run(o, st, a + b) == Then(o, Run(o, st, a), b)
    decreases |a|
  {
    hide Step;
    if a == [] {
      assert a + b == b;
    } else {
      assert (a + b)[0] == a[0] && (a + b)[1..] == a[1..] + b;
      var r := Step(o, st, a[0]);
      if r.Next? {
        RunConcat(o, r.st, a[1..], b);
      }
    }
  }

  lemma RunOne(o: Options, st: State, c: Call)
    ensures Run(o, st, [c]) == Step(o, st, c)
  {
    hide Step;
  }

  // ---- runs ----

  function After(st: State, w: Written): Result {
    if w.Failed? then Thrown(w.code) else Next(Emit(st, w.bytes))
  }

  function CountN(st: State, n: nat): State {
    if st.Push? then st.(top := st.top.(items := st.top.items + n)) else st
  }

  function AfterDocs(st: State, n: nat, w: Written): Result {
    if w.Failed? then Thrown(w.code) else Next(Append(CountN(st, n), w.bytes))
  }

  /** Slots of entries laid out from `start`. */
  function SlotsFrom(start: nat, s: seq<Slice>): seq<Slot>
    decreases |s|
  {
    if s == [] then [] else [Slot(start, start + |s[0].key|)] + SlotsFrom(start + |s[0].key| + |s[0].val|, s[1..])
  }

  function AddKey(st: State, n: nat, key: seq<byte>): State {
    if st.Push? && st.top.buffered then
      var f := st.top;
      Push(st.below, f.(items := f.items + n, body := f.body + key,
                        slots := f.slots + [Slot(|f.body|, |f.body| + |key|)]))
    else Append(CountN(st, n), key)
  }

  function AddEntries(st: State, n: nat, s: seq<Slice>): State {
    if st.Push? && st.top.buffered then
      var f := st.top;
      Push(st.below, f.(items := f.items + n, body := f.body + Flat(s), slots := f.slots + SlotsFrom(|f.body|, s)))
    else Append(CountN(st, n), Flat(s))
  }

  function KeyItems(k: KeyDoc): nat {
    if k.AnyKey? then 1 else 0
  }

  function EntryItems(s: DocEntries): nat {
    if s.NoDocEntries? then 0 else KeyItems(s.key) + 1 + EntryItems(s.rest)
  }

  function AfterEntries(st: State, n: nat, w: WrittenEntries): Result {
    if w.FailedEntries? then Thrown(w.code) else Next(AddEntries(st, n, w.slices))
  }

  lemma LeafStep(o: Options, st: State, c: Call)
    requires IsLeaf(c)
    ensures Step(o, st, c) == After(st, LeafBytes(o, c))
  {
  }

  lemma EmitThenAppend(st: State, a: seq<byte>, n: nat, b: seq<byte>)
    ensures Append(CountN(Emit(st, a), n), b) == Append(CountN(st, n + 1), a + b)
  {
    AppendAppend(CountN(st, n + 1), a, b);
    assert CountN(Emit(st, a), n) == Append(CountN(st, n + 1), a);
  }

  lemma KeyCallStep(o: Options, st: State, c: Call)
    requires IsKey(c) && st.Push?
    ensures var w := LeafBytes(o, c);
            Step(o, st, c) == if w.Failed? then Thrown(w.code) else Next(AddKey(st, 0, w.bytes))
  {
    var w := LeafBytes(o, c);
    if w.Wrote? {
      assert Step(o, st, c) == Next(KeyEnd(Append(KeyStart(st), w.bytes)));
      KeyEndsSlot(st, w.bytes);
    }
  }

  lemma KeyEndsSlot(st: State, key: seq<byte>)
    requires st.Push?
    ensures KeyEnd(Append(KeyStart(st), key)) == AddKey(st, 0, key)
    ensures KeyEnd(Emit(KeyStart(st), key)) == AddKey(st, 1, key)
  {
    if st.top.buffered {
      var slots := st.top.slots + [Slot(|st.top.body|, 0)];
      assert slots[|slots| - 1 := Slot(|st.top.body|, |st.top.body| + |key|)]
             == st.top.slots + [Slot(|st.top.body|, |st.top.body| + |key|)];
    }
  }

  lemma AddEntryThenEntries(st: State, n: nat, key: seq<byte>, val: seq<byte>, m: nat, s: seq<Slice>)
    requires st.Push?
    ensures AddEntries(Emit(AddKey(st, n, key), val), m, s) == AddEntries(st, n + 1 + m, [Slice(key, val)] + s)
  {
    var all := [Slice(key, val)] + s;
    assert all[1..] == s;
    assert Flat(all) == key + val + Flat(s);
    if st.top.buffered {
      var f := st.top;
      assert f.body + key + val + Flat(s) == f.body + Flat(all);
      assert SlotsFrom(|f.body|, all) == [Slot(|f.body|, |f.body| + |key|)] + SlotsFrom(|f.body| + |key| + |val|, s);
      assert f.slots + [Slot(|f.body|, |f.body| + |key|)] + SlotsFrom(|f.body| + |key| + |val|, s)
             == f.slots + SlotsFrom(|f.body|, all);
    } else {
      EmitThenAppend(Append(CountN(st, n), key), val, m, Flat(s));
      AppendAppend(CountN(st, n + 1 + m), key, val + Flat(s));
      assert key + (val + Flat(s)) == key + val + Flat(s);
    }
  }

  lemma AddKeyPush(st: State, n: nat, key: seq<byte>)
    requires st.Push?
    ensures AddKey(st, n, key).Push? && AddKey(st, n, key).Depth() == st.Depth()
  {
    if !st.top.buffered {
      DepthAppend(st.below, key);
    }
  }

  lemma EmitPush(st: State, s: seq<byte>)
    ensures Emit(st, s).Depth() == st.Depth() && (st.Push? ==> Emit(st, s).Push?)
  {
    DepthAppend(st, s);
  }

  lemma {:induction false} RunKey(o: Options, st: State, k: KeyDoc)
    requires ProperKey(k) && st.Push?
    ensures var w := WriteKey(o, k, st.Depth());
            Run(o, st, KeyCalls(k)) == if w.Failed? then Thrown(w.code) else Next(AddKey(st, KeyItems(k), w.bytes))
    decreases k, 0
  {
    hide Step, Run, Write, Calls;
    match k
    case CallKey(call) =>
      RunOne(o, st, call);
      KeyCallStep(o, st, call);
    case AnyKey(doc) =>
      var inner := KeyStart(st);
      RunConcat(o, st, [BeginKey], Calls(doc) + [EndKey]);
      RunOne(o, st, BeginKey);
      BeginKeyStep(o, st);
      RunConcat(o, inner, Calls(doc), [EndKey]);
      RunDoc(o, inner, doc);
      var w := Write(o, doc, st.Depth());
      if w.Wrote? {
        RunOne(o, Emit(inner, w.bytes), EndKey);
        EndKeyStep(o, Emit(inner, w.bytes));
        KeyEndsSlot(st, w.bytes);
      }
  }

  lemma BeginKeyStep(o: Options, st: State)
    ensures Step(o, st, BeginKey) == Next(KeyStart(st)) && KeyStart(st).Depth() == st.Depth()
  {
  }

  lemma EndKeyStep(o: Options, st: State)
    ensures Step(o, st, EndKey) == Next(KeyEnd(st))
  {
  }

  lemma {:induction false} RunEntries(o: Options, st: State, s: DocEntries)
    requires ProperEntries(s) && st.Push?
    ensures Run(o, st, EntriesCalls(s)) == AfterEntries(st, EntryItems(s), WriteEntries(o, s, st.Depth()))
    decreases s, 0
  {
    hide Step, Run, Write, WriteKey, Calls, KeyCalls, AddKey, Append, Emit;
    if s.NoDocEntries? {
      RunNothing(o, st);
      AddNoEntries(st);
    } else {
      RunConcat(o, st, KeyCalls(s.key), Calls(s.val) + EntriesCalls(s.rest));
      RunKey(o, st, s.key);
      var k := WriteKey(o, s.key, st.Depth());
      if k.Wrote? {
        var st1 := AddKey(st, KeyItems(s.key), k.bytes);
        AddKeyPush(st, KeyItems(s.key), k.bytes);
        RunConcat(o, st1, Calls(s.val), EntriesCalls(s.rest));
        RunDoc(o, st1, s.val);
        var v := Write(o, s.val, st.Depth());
        if v.Wrote? {
          var st2 := Emit(st1, v.bytes);
          EmitPush(st1, v.bytes);
          RunEntries(o, st2, s.rest);
          var rest := WriteEntries(o, s.rest, st.Depth());
          if rest.WroteEntries? {
            AddEntryThenEntries(st, KeyItems(s.key), k.bytes, v.bytes, EntryItems(s.rest), rest.slices);
          }
        }
      }
    }
  }

  lemma RunNothing(o: Options, st: State)
    ensures Run(o, st, []) == Next(st)
  {
  }

  lemma AddNoEntries(st: State)
    ensures AddEntries(st, 0, []) == st
  {
    AppendNothing(st);
    if st.Push? && st.top.buffered {
      assert st.top.slots + SlotsFrom(|st.top.body|, []) == st.top.slots;
    }
  }

  lemma {:induction false} RunDocs(o: Options, st: State, s: Docs)
    requires ProperDocs(s)
    ensures Run(o, st, DocsCalls(s)) == AfterDocs(st, s.Length(), WriteDocs(o, s, st.Depth()))
    decreases s, 0
  {
    hide Step, Run, Write, Calls, Append, Emit;
    if s.NoDocs? {
      RunNothing(o, st);
      AppendNothing(st);
    } else {
      RunConcat(o, st, Calls(s.head), DocsCalls(s.tail));
      RunDoc(o, st, s.head);
      var w := Write(o, s.head, st.Depth());
      if w.Wrote? {
        EmitPush(st, w.bytes);
        RunDocs(o, Emit(st, w.bytes), s.tail);
        var rest := WriteDocs(o, s.tail, st.Depth());
        if rest.Wrote? {
          EmitThenAppend(st, w.bytes, s.tail.Length(), rest.bytes);
        }
      }
    }
  }

  /** Every balanced sequence of calls appends exactly the recursive encoding of its value, or throws its first error.
      */
  lemma {:induction false} RunDoc(o: Options, st: State, d: Doc)
    requires Proper(d)
    ensures Run(o, st, Calls(d)) == After(st, Write(o, d, st.Depth()))
    decreases d, 1
  {
    hide Step, Run;
    match d
    case Leaf(call) =>
      RunOne(o, st, call);
      LeafStep(o, st, call);
    case ArrayDoc(sized, items) => RunArray(o, st, sized, items);
    case MapDoc(opening, entries) => RunMap(o, st, opening, entries);
    case OrderedDoc(entries) => RunOrdered(o, st, entries);
    case TagDoc(tag, content) => RunTag(o, st, tag, content);
  }

  lemma {:induction false} RunTag(o: Options, st: State, tag: nat, content: Doc)
    requires Proper(content)
    ensures Run(o, st, Calls(TagDoc(tag, content))) == After(st, Write(o, TagDoc(tag, content), st.Depth()))
    decreases content, 2
  {
    hide Run;
    var head := ShortHead(TAG, tag);
    RunConcat(o, st, [TagCall(tag)], Calls(content));
    RunOne(o, st, TagCall(tag));
    var st1 := Append(st, head);
    DepthAppend(st, head);
    RunDoc(o, st1, content);
    var w := Write(o, content, st.Depth());
    if w.Wrote? {
      CountAppend(st, head);
      AppendAppend(Count(st), head, w.bytes);
    }
  }

  lemma {:induction false} RunArray(o: Options, st: State, sized: bool, items: Docs)
    requires ProperDocs(items)
    ensures Run(o, st, Calls(ArrayDoc(sized, items))) == After(st, Write(o, ArrayDoc(sized, items), st.Depth()))
    decreases items, 1
  {
    hide Run;
    var d := ArrayDoc(sized, items);
    var begin := BeginArray(if sized then Some(items.Length()) else None);
    RunConcat(o, st, [begin], DocsCalls(items) + [EndArray]);
    RunOne(o, st, begin);
    if st.Depth() < o.maxDepth {
      var head := ShortHead(ARRAY, items.Length());
      var st1 := if sized then Push(Append(Count(st), head), Frame(false, false, 0, [], []))
                 else Push(Count(st), Frame(false, true, 0, [], []));
      DepthAppend(st, head);
      assert st1.Depth() == st.Depth() + 1;
      assert Step(o, st, begin) == Next(st1);
      RunConcat(o, st1, DocsCalls(items), [EndArray]);
      RunDocs(o, st1, items);
      var w := WriteDocs(o, items, st.Depth() + 1);
      if w.Wrote? {
        var st2 := Append(CountN(st1, items.Length()), w.bytes);
        RunOne(o, st2, EndArray);
        CloseArray(Count(st), sized, items.Length(), w.bytes);
      }
    }
  }

  lemma CloseArray(below: State, sized: bool, n: nat, body: seq<byte>)
    ensures var head := ShortHead(ARRAY, n);
            var st := if sized then Push(Append(below, head), Frame(false, false, 0, [], []))
                      else Push(below, Frame(false, true, 0, [], []));
            Close(Append(CountN(st, n), body)) == Next(Append(below, head + body))
  {
    if sized {
      AppendAppend(below, ShortHead(ARRAY, n), body);
    } else {
      assert [] + body == body;
    }
  }

  lemma {:induction false} RunMap(o: Options, st: State, opening: MapOpening, entries: DocEntries)
    requires ProperEntries(entries)
    ensures Run(o, st, Calls(MapDoc(opening, entries))) == After(st, Write(o, MapDoc(opening, entries), st.Depth()))
    decreases entries, 1
  {
    hide Run, Sort, AdjacentEqual, Slices, ShortHead, WriteEntries, Append, EntriesCalls, SlotsFrom, Flat;
    var begin := MapCall(opening);
    RunConcat(o, st, [begin], EntriesCalls(entries) + [EndMap]);
    RunOne(o, st, begin);
    if st.Depth() < o.maxDepth {
      var st1 := Push(Count(st), Frame(true, true, 0, [], []));
      assert st1.Depth() == st.Depth() + 1;
      assert Step(o, st, begin) == Next(st1);
      RunConcat(o, st1, EntriesCalls(entries), [EndMap]);
      RunEntries(o, st1, entries);
      var w := WriteEntries(o, entries, st.Depth() + 1);
      if w.WroteEntries? {
        var st2 := AddEntries(st1, EntryItems(entries), w.slices);
        RunOne(o, st2, EndMap);
        assert st2.top.body == Flat(w.slices) && st2.top.slots == SlotsFrom(0, w.slices);
        SlicesOfFlat([], w.slices);
        assert [] + Flat(w.slices) == Flat(w.slices);
      }
    }
  }

  /** The parts of an entry in a body. */
  lemma FlatBody(before: seq<byte>, key: seq<byte>, val: seq<byte>, rest: seq<byte>)
    ensures var body := before + (key + val + rest);
            && body == before + key + val + rest
            && body[|before|..|before| + |key|] == key
            && body[|before| + |key|..|before| + |key| + |val|] == val
            && (rest == [] ==> |body| == |before| + |key| + |val|)
  {
  }

  lemma {:induction false} SlotsLength(start: nat, s: seq<Slice>)
    ensures |SlotsFrom(start, s)| == |s|
    decreases |s|
  {
    if s != [] {
      SlotsLength(start + |s[0].key| + |s[0].val|, s[1..]);
    }
  }

  lemma FlatStep(s: seq<Slice>)
    requires s != []
    ensures Flat(s) == s[0].key + s[0].val + Flat(s[1..])
  {
  }

  lemma NoSlices(body: seq<byte>)
    ensures Slices(body, []) == []
  {
  }

  lemma OneSlice(body: seq<byte>, slots: seq<Slot>)
    requires slots != []
    requires var end := if |slots| > 1 then slots[1].start
             else |body|; slots[0].start <= slots[0].keyEnd <= end <= |body|
    ensures var end := if |slots| > 1 then slots[1].start else |body|;
            Slices(body, slots) == [Slice(body[slots[0].start..slots[0].keyEnd], body[slots[0].keyEnd..end])]
              + Slices(body, slots[1..])
  {
  }

  lemma NoSlots(start: nat)
    ensures SlotsFrom(start, []) == []
  {
  }

  lemma FirstSlice(before: seq<byte>, s: seq<Slice>)
    requires s != []
    ensures var body, end := before + Flat(s), |before| + |s[0].key| + |s[0].val|;
            var slots := SlotsFrom(|before|, s);
            && slots != [] && slots[0] == Slot(|before|, |before| + |s[0].key|) && slots[1..] == SlotsFrom(end, s[1..])
            && (if |slots| > 1 then slots[1].start == end else |body| == end)
            && |slots| == |s| && end <= |body|
  {
    SlotsLength(|before|, s);
    if |s| == 1 {
      assert Flat(s[1..]) == [];
    }
  }

  /** The extents recorded for entries written one after the other cut the body into those entries. */
  lemma {:induction false} SlicesOfFlat(before: seq<byte>, s: seq<Slice>)
    ensures Slices(before + Flat(s), SlotsFrom(|before|, s)) == s
    decreases |s|
  {
    hide SlotsFrom, Flat, Slices;
    var body, slots := before + Flat(s), SlotsFrom(|before|, s);
    if s == [] {
      NoSlots(|before|);
      NoSlices(body);
    } else {
      var key, val := s[0].key, s[0].val;
      FlatStep(s);
      FlatBody(before, key, val, Flat(s[1..]));
      SlicesOfFlat(before + key + val, s[1..]);
      FirstSlice(before, s);
      OneSlice(body, slots);
      assert s == [s[0]] + s[1..];
    }
  }

  lemma {:induction false} RunOrdered(o: Options, st: State, entries: DocEntries)
    requires ProperEntries(entries)
    ensures Run(o, st, Calls(OrderedDoc(entries))) == After(st, Write(o, OrderedDoc(entries), st.Depth()))
    decreases entries, 1
  {
    hide Run;
    var begin := BeginMapOrdered(Some(entries.Length()));
    RunConcat(o, st, [begin], EntriesCalls(entries) + [EndMap]);
    RunOne(o, st, begin);
    if st.Depth() < o.maxDepth {
      var head := ShortHead(MAP, entries.Length());
      var st1 := Push(Append(Count(st), head), Frame(true, false, 0, [], []));
      DepthAppend(st, head);
      assert st1.Depth() == st.Depth() + 1;
      assert Step(o, st, begin) == Next(st1);
      RunConcat(o, st1, EntriesCalls(entries), [EndMap]);
      RunEntries(o, st1, entries);
      var w := WriteEntries(o, entries, st.Depth() + 1);
      if w.WroteEntries? {
        var st2 := AddEntries(st1, EntryItems(entries), w.slices);
        RunOne(o, st2, EndMap);
        SliceCount(o, entries, st.Depth() + 1);
        AppendAppend(Count(st), head, Flat(w.slices));
      }
    }
  }

  lemma {:induction false} SliceCount(o: Options, s: DocEntries, depth: nat)
    requires WriteEntries(o, s, depth).WroteEntries?
    ensures |WriteEntries(o, s, depth).slices| == s.Length()
  {
    if s.DocEntries? {
      SliceCount(o, s.rest, depth);
    }
  }
}
