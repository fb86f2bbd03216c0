/** Encoders driving the writer call by call, and the whole way from a tree to its bytes and back. */
module Encoding {
  import opened Bytes
  import opened Utf8
  import opened Floats
  import opened WriterRuns
  import opened WriterTrees
  import W = WriterSpec
  import opened CborWriter

  /** What calls leave behind, against the outcome `r` of the state machine. */
  ghost predicate Ran(r: W.Result, thrown: Option<W.Errc>, now: W.State) {
    match r
    case Thrown(code) => thrown == Some(code)
    case Next(st) => thrown == None && now == st
  }

  lemma TopFrame(out: seq<byte>, frames: seq<W.Frame>)
    requires StateOf(out, frames).Push?
    ensures frames != [] && StateOf(out, frames).top == frames[|frames| - 1]
  {
  }

  /** An array about to be closed has counted its elements. */
  lemma ArrayCloses(o: W.Options, st: W.State, items: Docs, now: W.State)
    requires ProperDocs(items) && items.Length() < TWO64 && st.Push? && st.top.items == 0 && st.top.slots == []
    requires W.Run(o, st, DocsCalls(items)) == W.Next(now)
    ensures now.Push? && now.top.items < TWO64 && |now.top.slots| < TWO64
  {
    hide W.Run, DocsCalls, WriteDocs;
    RunDocs(o, st, items);
  }

  lemma {:induction false} EntryItemsBound(s: DocEntries)
    ensures EntryItems(s) <= 2 * s.Length()
  {
    if s.DocEntries? {
      EntryItemsBound(s.rest);
    }
  }

  lemma {:induction false} WrittenLength(o: W.Options, s: DocEntries, depth: nat)
    requires WriteEntries(o, s, depth).WroteEntries?
    ensures |WriteEntries(o, s, depth).slices| == s.Length()
  {
    hide Write, WriteKey;
    if s.DocEntries? {
      WrittenLength(o, s.rest, depth);
    }
  }

  /** A map about to be closed has counted its keys and values, and recorded its keys if it is buffered. */
  lemma MapCloses(o: W.Options, st: W.State, entries: DocEntries, now: W.State)
    requires ProperEntries(entries) && entries.Length() < TWO63 && st.Push? && st.top.items == 0 && st.top.slots == []
    requires W.Run(o, st, EntriesCalls(entries)) == W.Next(now)
    ensures now.Push? && now.top.items < TWO64 && |now.top.slots| < TWO64
  {
    hide W.Run, EntriesCalls, WriteEntries, W.Flat, SlotsFrom;
    RunEntries(o, st, entries);
    EntryItemsBound(entries);
    var w := WriteEntries(o, entries, st.Depth());
    WrittenLength(o, entries, st.Depth());
    SlotsLength(|st.top.body|, w.slices);
  }

  method PerformLeaf(w: Writer, c: W.Call) returns (thrown: Option<W.Errc>)
    requires IsLeaf(c) && TypedCall(c)
    modifies w
    ensures Took(w.opts, old(w.State()), c, thrown, w.State())
  {
    hide W.Step, StateOf, IsDouble;
    thrown := None;
    if c.Null? {
      w.Null();
    } else if c.Boolean? {
      w.Boolean(c.b);
    } else if c.UIntCall? {
      w.UInt(c.u);
    } else if c.SIntCall? {
      w.SInt(c.i);
    } else if c.Negative? {
      w.Negative(c.n);
    } else if c.Real? {
      w.Real(c.d);
    } else if c.Text? {
      thrown := w.Text(c.s);
    } else if c.ByteCall? {
      w.Bytes(c.s);
    } else {
      thrown := w.Simple(c.v);
    }
  }

  method PerformKeyCall(w: Writer, c: W.Call) returns (thrown: Option<W.Errc>)
    requires IsKey(c) && TypedCall(c)
    modifies w
    ensures Took(w.opts, old(w.State()), c, thrown, w.State())
  {
    hide W.Step, StateOf;
    thrown := None;
    if c.KeyText? {
      thrown := w.KeyText(c.s);
    } else if c.KeyUInt? {
      w.KeyUInt(c.u);
    } else {
      w.KeySInt(c.i);
    }
  }

  /** Every call of a document on the writer, in order. */
  method PerformDoc(w: Writer, d: Doc) returns (thrown: Option<W.Errc>)
    requires Good(d)
    modifies w
    ensures Ran(W.Run(w.opts, old(w.State()), Calls(d)), thrown, w.State())
    decreases d, 1
  {
    hide W.Step, W.Run, StateOf;
    match d
    case Leaf(c) =>
      RunOne(w.opts, w.State(), c);
      thrown := PerformLeaf(w, c);
    case ArrayDoc(sized, items) => thrown := PerformArray(w, sized, items);
    case MapDoc(opening, entries) => thrown := PerformMap(w, MapCall(opening), entries);
    case OrderedDoc(entries) => thrown := PerformMap(w, W.BeginMapOrdered(Some(entries.Length())), entries);
    case TagDoc(tag, content) =>
      RunConcat(w.opts, w.State(), [W.TagCall(tag)], Calls(content));
      RunOne(w.opts, w.State(), W.TagCall(tag));
      w.Tag(tag);
      thrown := PerformDoc(w, content);
  }

  method PerformArray(w: Writer, sized: bool, items: Docs) returns (thrown: Option<W.Errc>)
    requires ProperDocs(items) && TypedDocs(items) && items.Length() < TWO64
    modifies w
    ensures Ran(W.Run(w.opts, old(w.State()), Calls(ArrayDoc(sized, items))), thrown, w.State())
    decreases items, 1
  {
    hide W.Run, StateOf, DocsCalls;
    var count := if sized then Some(items.Length()) else None;
    var begin := W.BeginArray(count);
    RunConcat(w.opts, w.State(), [begin], DocsCalls(items) + [W.EndArray]);
    RunOne(w.opts, w.State(), begin);
    OpenedEmpty(w.opts, w.State(), begin);
    thrown := w.BeginArray(count);
    if thrown.Some? {
      return;
    }
    ghost var st := w.State();
    RunConcat(w.opts, st, DocsCalls(items), [W.EndArray]);
    thrown := PerformDocs(w, items);
    if thrown.Some? {
      return;
    }
    ArrayCloses(w.opts, st, items, w.State());
    TopFrame(w.out, w.frames);
    RunOne(w.opts, w.State(), W.EndArray);
    thrown := w.EndArray();
  }

  /** A container starts with nothing in it. */
  lemma OpenedEmpty(o: W.Options, st: W.State, c: W.Call)
    requires c.BeginArray? || c.BeginMap? || c.BeginMapOrdered?
    ensures var r := W.Step(o, st, c); r.Next? ==> r.st.Push? && r.st.top.items == 0 && r.st.top.slots == []
  {
  }

  method PerformDocs(w: Writer, s: Docs) returns (thrown: Option<W.Errc>)
    requires ProperDocs(s) && TypedDocs(s)
    modifies w
    ensures Ran(W.Run(w.opts, old(w.State()), DocsCalls(s)), thrown, w.State())
    decreases s, 0
  {
    hide W.Step, W.Run, StateOf, Calls;
    if s.NoDocs? {
      RunNothing(w.opts, w.State());
      return None;
    }
    RunConcat(w.opts, w.State(), Calls(s.head), DocsCalls(s.tail));
    thrown := PerformDoc(w, s.head);
    if thrown.None? {
      thrown := PerformDocs(w, s.tail);
    }
  }

  method PerformBeginMap(w: Writer, c: W.Call) returns (thrown: Option<W.Errc>)
    requires (c.BeginMap? || c.BeginMapOrdered?) && (c.count.Some? ==> c.count.value < TWO64)
    modifies w
    ensures Took(w.opts, old(w.State()), c, thrown, w.State())
  {
    hide W.Step, StateOf;
    if c.BeginMap? {
      thrown := w.BeginMap(c.count);
    } else {
      thrown := w.BeginMapOrdered(c.count);
    }
  }

  method PerformMap(w: Writer, begin: W.Call, entries: DocEntries) returns (thrown: Option<W.Errc>)
    requires ProperEntries(entries) && TypedEntries(entries) && entries.Length() < TWO63
    requires (begin.BeginMap? || begin.BeginMapOrdered?) && (begin.count.Some? ==> begin.count.value < TWO64)
    modifies w
    ensures Ran(W.Run(w.opts, old(w.State()), [begin] + (EntriesCalls(entries) + [W.EndMap])), thrown, w.State())
    decreases entries, 1
  {
    hide W.Run, StateOf, EntriesCalls;
    RunConcat(w.opts, w.State(), [begin], EntriesCalls(entries) + [W.EndMap]);
    RunOne(w.opts, w.State(), begin);
    OpenedEmpty(w.opts, w.State(), begin);
    thrown := PerformBeginMap(w, begin);
    if thrown.Some? {
      return;
    }
    ghost var st := w.State();
    RunConcat(w.opts, st, EntriesCalls(entries), [W.EndMap]);
    thrown := PerformEntries(w, entries);
    if thrown.Some? {
      return;
    }
    MapCloses(w.opts, st, entries, w.State());
    TopFrame(w.out, w.frames);
    RunOne(w.opts, w.State(), W.EndMap);
    thrown := w.EndMap();
  }

  method PerformEntries(w: Writer, s: DocEntries) returns (thrown: Option<W.Errc>)
    requires ProperEntries(s) && TypedEntries(s)
    modifies w
    ensures Ran(W.Run(w.opts, old(w.State()), EntriesCalls(s)), thrown, w.State())
    decreases s, 0
  {
    hide W.Step, W.Run, StateOf, Calls, KeyCalls;
    if s.NoDocEntries? {
      RunNothing(w.opts, w.State());
      return None;
    }
    RunConcat(w.opts, w.State(), KeyCalls(s.key), Calls(s.val) + EntriesCalls(s.rest));
    thrown := PerformKey(w, s.key);
    if thrown.Some? {
      return;
    }
    RunConcat(w.opts, w.State(), Calls(s.val), EntriesCalls(s.rest));
    thrown := PerformDoc(w, s.val);
    if thrown.None? {
      thrown := PerformEntries(w, s.rest);
    }
  }

  method PerformKey(w: Writer, k: KeyDoc) returns (thrown: Option<W.Errc>)
    requires ProperKey(k) && TypedKey(k)
    modifies w
    ensures Ran(W.Run(w.opts, old(w.State()), KeyCalls(k)), thrown, w.State())
    decreases k, 2
  {
    hide W.Step, W.Run, StateOf, Calls;
    match k
    case CallKey(c) =>
      RunOne(w.opts, w.State(), c);
      thrown := PerformKeyCall(w, c);
    case AnyKey(d) =>
      RunConcat(w.opts, w.State(), [W.BeginKey], Calls(d) + [W.EndKey]);
      RunOne(w.opts, w.State(), W.BeginKey);
      w.BeginKey();
      RunConcat(w.opts, w.State(), Calls(d), [W.EndKey]);
      thrown := PerformDoc(w, d);
      if thrown.Some? {
        return;
      }
      RunOne(w.opts, w.State(), W.EndKey);
      w.EndKey();
  }
}
