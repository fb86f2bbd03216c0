/** The CBOR writer: an output and a stack of frames that every sink call updates in place. */
module CborWriter {
  import opened Bytes
  import opened Head
  import opened Utf8
  import opened Floats
  import opened Item
  import opened WriterSpec
  import opened WriterRuns
  import opened Sorting

  /** The state machine's view of the output and the frame vector. */
  ghost function StateOf(out: seq<byte>, frames: seq<Frame>): State {
    if frames == [] then Out(out) else Push(StateOf(out, frames[..|frames| - 1]), frames[|frames| - 1])
  }

  lemma {:induction false} StateDepth(out: seq<byte>, frames: seq<Frame>)
    ensures StateOf(out, frames).Depth() == |frames|
    decreases |frames|
  {
    if frames != [] {
      StateDepth(out, frames[..|frames| - 1]);
    }
  }

  lemma {:induction false} AppendToOut(out: seq<byte>, frames: seq<Frame>, s: seq<byte>)
    requires forall j | 0 <= j < |frames| :: !frames[j].buffered
    ensures Append(StateOf(out, frames), s) == StateOf(out + s, frames)
    decreases |frames|
  {
    if frames != [] {
      AppendToOut(out, frames[..|frames| - 1], s);
    }
  }

  lemma {:induction false} AppendToFrame(out: seq<byte>, frames: seq<Frame>, i: nat, s: seq<byte>)
    requires i < |frames| && frames[i].buffered && forall j | i < j < |frames| :: !frames[j].buffered
    ensures Append(StateOf(out, frames), s) == StateOf(out, frames[i := frames[i].(body := frames[i].body + s)])
    decreases |frames|
  {
    var n := |frames| - 1;
    var changed := frames[i := frames[i].(body := frames[i].body + s)];
    if i == n {
      assert changed[..n] == frames[..n];
    } else {
      AppendToFrame(out, frames[..n], i, s);
      assert changed[..n] == frames[..n][i := changed[i]];
    }
  }

  lemma PushPop(out: seq<byte>, frames: seq<Frame>, f: Frame)
    ensures StateOf(out, frames + [f]) == Push(StateOf(out, frames), f)
  {
    assert (frames + [f])[..|frames|] == frames;
  }

  lemma ReplaceTop(out: seq<byte>, frames: seq<Frame>, f: Frame)
    requires frames != []
    ensures StateOf(out, frames[|frames| - 1 := f]) == Push(StateOf(out, frames[..|frames| - 1]), f)
  {
    assert frames[|frames| - 1 := f][..|frames| - 1] == frames[..|frames| - 1];
  }

  /** What a call may do: throw, or move to the next state of the machine. */
  ghost predicate Took(o: Options, st: State, c: Call, thrown: Option<Errc>, st': State) {
    match Step(o, st, c)
    case Thrown(e) => thrown == Some(e)
    case Next(next) => thrown == None && st' == next
  }

  /** vcodec::cbor::writer in deterministic mode; a thrown encode_error is returned as its code. */
  class Writer {
    const opts: Options
    var out: seq<byte>
    var frames: seq<Frame>

    constructor (opts: Options, out: seq<byte>)
      ensures this.opts == opts && this.out == out && frames == []
    {
      this.opts, this.out, frames := opts, out, [];
    }

    ghost function State(): State
      reads this
    {
      StateOf(out, frames)
    }

    /** append: to the innermost buffered frame, else to the output. */
    method AppendBytes(s: seq<byte>)
      modifies this
      ensures State() == Append(old(State()), s)
      ensures |frames| == |old(frames)|
    {
      var i := |frames|;
      while i > 0
        invariant 0 <= i <= |frames|
        invariant forall j | i <= j < |frames| :: !frames[j].buffered
      {
        i := i - 1;
        if frames[i].buffered {
          AppendToFrame(out, frames, i, s);
          frames := frames[i := frames[i].(body := frames[i].body + s)];
          return;
        }
      }
      AppendToOut(out, frames, s);
      out := out + s;
    }

    method WriteHead(m: major, v: nat)
      requires v < TWO64
      modifies this
      ensures State() == Append(old(State()), ShortHead(m, v))
    {
      var h := MakeHead(m, v);
      AppendBytes(h);
    }

    /** item: called for every value of the innermost container. */
    method CountItem()
      modifies this
      ensures State() == Count(old(State())) && |frames| == |old(frames)|
    {
      if frames != [] {
        var n := |frames| - 1;
        var f := frames[n].(items := frames[n].items + 1);
        ReplaceTop(out, frames, f);
        frames := frames[n := f];
      }
    }

    method StartKey()
      modifies this
      ensures State() == KeyStart(old(State()))
    {
      if frames != [] && frames[|frames| - 1].buffered {
        var n := |frames| - 1;
        var f := frames[n].(slots := frames[n].slots + [Slot(|frames[n].body|, 0)]);
        ReplaceTop(out, frames, f);
        frames := frames[n := f];
      }
    }

    method FinishKey()
      modifies this
      ensures State() == KeyEnd(old(State()))
    {
      if frames != [] && frames[|frames| - 1].buffered && frames[|frames| - 1].slots != [] {
        var n := |frames| - 1;
        var k := |frames[n].slots| - 1;
        var f := frames[n].(slots := frames[n].slots[k := Slot(frames[n].slots[k].start, |frames[n].body|)]);
        ReplaceTop(out, frames, f);
        frames := frames[n := f];
      }
    }

    method OpenFrame(m: major, count: Option<nat>) returns (thrown: Option<Errc>)
      requires (m == ARRAY || m == MAP) && (count.Some? ==> count.value < TWO64)
      modifies this
      ensures match Open(opts, old(State()), m, count)
              case Thrown(e) => thrown == Some(e)
              case Next(st) => thrown == None && State() == st
    {
      StateDepth(out, frames);
      if |frames| >= opts.maxDepth {
        return Some(DepthExceeded);
      }
      if m == MAP || count.None? {
        PushPop(out, frames, Frame(m == MAP, true, 0, [], []));
        frames := frames + [Frame(m == MAP, true, 0, [], [])];
        return None;
      }
      WriteHead(m, count.value);
      PushPop(out, frames, Frame(false, false, 0, [], []));
      frames := frames + [Frame(false, false, 0, [], [])];
      return None;
    }

    /** close: a buffered array gets its count, a buffered map is sorted and checked for duplicate keys. */
    method CloseFrame() returns (thrown: Option<Errc>)
      requires frames != [] && frames[|frames| - 1].items < TWO64 && |frames[|frames| - 1].slots| < TWO64
      modifies this
      ensures match Close(old(State()))
              case Thrown(e) => thrown == Some(e)
              case Next(st) => thrown == None && State() == st
    {
      var f := frames[|frames| - 1];
      frames := frames[..|frames| - 1];
      if !f.buffered {
        return None;
      }
      if !f.isMap {
        ghost var below := State();
        WriteHead(ARRAY, f.items);
        AppendAppend(below, ShortHead(ARRAY, f.items), f.body);
        AppendBytes(f.body);
        return None;
      }
      var order := CollectSlices(f);
      order := Sort(order);
      var duplicate := FindDuplicate(order);
      if duplicate {
        return Some(DuplicateKey);
      }
      SliceBound(f.body, f.slots);
      SortContents(Slices(f.body, f.slots));
      WriteSlices(order);
      return None;
    }

    /** Extents of the entries, in the order they were written. */
    method CollectSlices(f: Frame) returns (order: seq<Slice>)
      ensures order == Slices(f.body, f.slots)
    {
      order := [];
      var i := 0;
      assert f.slots[0..] == f.slots;
      while i < |f.slots|
        invariant 0 <= i <= |f.slots|
        invariant Slices(f.body, f.slots) == order + Slices(f.body, f.slots[i..])
      {
        var a := f.slots[i];
        var end := if i + 1 < |f.slots| then f.slots[i + 1].start else |f.body|;
        assert f.slots[i..][0] == a && f.slots[i..][1..] == f.slots[i + 1..];
        if !(a.start <= a.keyEnd <= end <= |f.body|) {
          return;
        }
        order := order + [Slice(f.body[a.start..a.keyEnd], f.body[a.keyEnd..end])];
        i := i + 1;
      }
    }

    method FindDuplicate(order: seq<Slice>) returns (found: bool)
      ensures found == AdjacentEqual(order)
    {
      var i := 1;
      assert order[0..] == order;
      while i < |order|
        invariant 1 <= i && (|order| > 0 ==> i <= |order|)
        invariant |order| > 0 ==> AdjacentEqual(order) == AdjacentEqual(order[i - 1..])
      {
        assert order[i - 1..][0] == order[i - 1] && order[i - 1..][1] == order[i] && order[i - 1..][1..] == order[i..];
        if order[i - 1].key == order[i].key {
          return true;
        }
        i := i + 1;
      }
      return false;
    }

    method WriteSlices(order: seq<Slice>)
      requires |order| < TWO64
      modifies this
      ensures State() == Append(old(State()), ShortHead(MAP, |order|) + Flat(order))
    {
      ghost var below := State();
      WriteHead(MAP, |order|);
      ghost var written := ShortHead(MAP, |order|);
      var i := 0;
      assert order[0..] == order;
      while i < |order|
        invariant 0 <= i <= |order|
        invariant State() == Append(below, written)
        invariant written + Flat(order[i..]) == ShortHead(MAP, |order|) + Flat(order)
      {
        assert order[i..][0] == order[i] && order[i..][1..] == order[i + 1..];
        var e := order[i].key + order[i].val;
        AppendAppend(below, written, e);
        AppendBytes(e);
        assert written + e + Flat(order[i + 1..]) == written + (e + Flat(order[i + 1..]));
        written := written + e;
        i := i + 1;
      }
      assert order[i..] == [] && written + [] == written;
    }

    // ---- core::sink ----

    method Null()
      modifies this
      ensures Took(opts, old(State()), Call.Null, None, State())
    {
      CountItem();
      AppendBytes([0xF6]);
    }

    method Boolean(b: bool)
      modifies this
      ensures Took(opts, old(State()), Call.Boolean(b), None, State())
    {
      CountItem();
      AppendBytes([if b then 0xF5 else 0xF4]);
    }

    method UInt(u: nat)
      requires u < TWO64
      modifies this
      ensures Took(opts, old(State()), UIntCall(u), None, State())
    {
      CountItem();
      WriteHead(UINT, u);
    }

    method SInt(i: int)
      requires -TWO63 <= i < TWO63
      modifies this
      ensures Took(opts, old(State()), SIntCall(i), None, State())
    {
      CountItem();
      if i >= 0 {
        WriteHead(UINT, i);
      } else {
        WriteHead(NINT, -1 - i);
      }
    }

    method Negative(n: nat)
      requires n < TWO64
      modifies this
      ensures Took(opts, old(State()), Call.Negative(n), None, State())
    {
      CountItem();
      WriteHead(NINT, n);
    }

    /** write_real at the preferred width: half, else single, else double. */
    method Real(d: Double)
      requires IsDouble(d)
      modifies this
      ensures Took(opts, old(State()), Call.Real(d), None, State())
    {
      CountItem();
      var half := ToHalf(d);
      if half.Some? {
        AppendBytes(FloatBytes(FloatForm(25, half.value)));
      } else if FitsSingle(d) {
        FitsSingleIsPattern(d);
        AppendBytes(FloatBytes(FloatForm(26, Pattern(SINGLE, d).value)));
      } else {
        AppendBytes(FloatBytes(FloatForm(27, Pattern(DOUBLE, d).value)));
      }
    }

    method Text(t: seq<byte>) returns (thrown: Option<Errc>)
      requires |t| < TWO64
      modifies this
      ensures Took(opts, old(State()), Call.Text(t), thrown, State())
    {
      CountItem();
      if opts.validateUtf8 {
        var bad := ValidateUtf8(t);
        if bad.Some? {
          return Some(InvalidUtf8);
        }
      }
      AppendAppend(State(), ShortHead(TEXT, |t|), t);
      WriteHead(TEXT, |t|);
      AppendBytes(t);
      return None;
    }

    method Bytes(b: seq<byte>)
      requires |b| < TWO64
      modifies this
      ensures Took(opts, old(State()), ByteCall(b), None, State())
    {
      CountItem();
      AppendAppend(State(), ShortHead(BYTES, |b|), b);
      WriteHead(BYTES, |b|);
      AppendBytes(b);
    }

    method Simple(v: nat) returns (thrown: Option<Errc>)
      requires v < 256
      modifies this
      ensures Took(opts, old(State()), SimpleCall(v), thrown, State())
    {
      if 20 <= v <= 31 {
        return Some(UnsupportedSimpleValue);
      }
      CountItem();
      if v < 24 {
        AppendBytes([0xE0 + v]);
      } else {
        AppendBytes([0xF8, v]);
      }
      return None;
    }

    method BeginArray(count: Option<nat>) returns (thrown: Option<Errc>)
      requires count.Some? ==> count.value < TWO64
      modifies this
      ensures Took(opts, old(State()), Call.BeginArray(count), thrown, State())
    {
      CountItem();
      thrown := OpenFrame(ARRAY, count);
    }

    method BeginMap(count: Option<nat>) returns (thrown: Option<Errc>)
      requires count.Some? ==> count.value < TWO64
      modifies this
      ensures Took(opts, old(State()), Call.BeginMap(count), thrown, State())
    {
      CountItem();
      thrown := OpenFrame(MAP, count);
    }

    /** A struct's members arrive in canonical order: no buffering. */
    method BeginMapOrdered(count: Option<nat>) returns (thrown: Option<Errc>)
      requires count.Some? ==> count.value < TWO64
      modifies this
      ensures Took(opts, old(State()), Call.BeginMapOrdered(count), thrown, State())
    {
      StateDepth(out, frames);
      CountItem();
      if count.None? {
        thrown := OpenFrame(MAP, count);
        return;
      }
      if |frames| >= opts.maxDepth {
        return Some(DepthExceeded);
      }
      WriteHead(MAP, count.value);
      PushPop(out, frames, Frame(true, false, 0, [], []));
      frames := frames + [Frame(true, false, 0, [], [])];
      return None;
    }

    method EndArray() returns (thrown: Option<Errc>)
      requires frames != [] && frames[|frames| - 1].items < TWO64 && |frames[|frames| - 1].slots| < TWO64
      modifies this
      ensures Took(opts, old(State()), Call.EndArray, thrown, State())
    {
      thrown := CloseFrame();
    }

    method EndMap() returns (thrown: Option<Errc>)
      requires frames != [] && frames[|frames| - 1].items < TWO64 && |frames[|frames| - 1].slots| < TWO64
      modifies this
      ensures Took(opts, old(State()), Call.EndMap, thrown, State())
    {
      thrown := CloseFrame();
    }

    method KeyText(k: seq<byte>) returns (thrown: Option<Errc>)
      requires |k| < TWO64
      modifies this
      ensures Took(opts, old(State()), Call.KeyText(k), thrown, State())
    {
      StartKey();
      if opts.validateUtf8 {
        var bad := ValidateUtf8(k);
        if bad.Some? {
          return Some(InvalidUtf8);
        }
      }
      AppendAppend(State(), ShortHead(TEXT, |k|), k);
      WriteHead(TEXT, |k|);
      AppendBytes(k);
      FinishKey();
      return None;
    }

    method KeyUInt(k: nat)
      requires k < TWO64
      modifies this
      ensures Took(opts, old(State()), Call.KeyUInt(k), None, State())
    {
      StartKey();
      WriteHead(UINT, k);
      FinishKey();
    }

    method KeySInt(k: int)
      requires -TWO63 <= k < TWO63
      modifies this
      ensures Took(opts, old(State()), Call.KeySInt(k), None, State())
    {
      StartKey();
      if k >= 0 {
        WriteHead(UINT, k);
      } else {
        WriteHead(NINT, -1 - k);
      }
      FinishKey();
    }

    method BeginKey()
      modifies this
      ensures Took(opts, old(State()), Call.BeginKey, None, State())
    {
      StartKey();
    }

    method EndKey()
      modifies this
      ensures Took(opts, old(State()), Call.EndKey, None, State())
    {
      FinishKey();
    }

    method Tag(t: nat)
      requires t < TWO64
      modifies this
      ensures Took(opts, old(State()), TagCall(t), None, State())
    {
      WriteHead(TAG, t);
    }
  }

  lemma {:induction false} SliceBound(body: seq<byte>, slots: seq<Slot>)
    ensures |Slices(body, slots)| <= |slots|
    decreases |slots|
  {
    if slots != [] {
      SliceBound(body, slots[1..]);
    }
  }
}
