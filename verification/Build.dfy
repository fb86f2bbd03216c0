/** Type-directed decoding, in place: a reader that moves, a target that fills, and a list of collected errors. */
module Build {
  import opened Bytes
  import opened Head
  import opened Utf8
  import opened SkipSpec
  import opened ReadSpec
  import opened BuildSpec
  import opened BuildSteps
  import CborReader

  /** Errors collected from `mark` on get one more step. */
  function Annotated(errs: seq<Failure>, mark: nat, s: PathStep): seq<Failure>
    requires mark <= |errs|
  {
    errs[..mark] + PushAll(errs[mark..], s)
  }

  datatype Turn = Stop(e: Failure) | AtEnd | Again

  class Builder {
    const c: Config
    const r: CborReader.Reader
    var collected: seq<Failure>

    constructor (c: Config, input: seq<byte>)
      ensures Valid() && fresh(r) && this.c == c && r.input == input && r.pos == 0 && r.depth == 0 && collected == []
    {
      this.c := c;
      r := new CborReader.Reader(c.opts, input);
      collected := [];
    }

    ghost predicate Valid()
      reads this, r
    {
      r.opts == c.opts && r.pos <= |r.input|
    }

    // ---- scalars ----

    method TakeText() returns (g: Got<seq<byte>>)
      requires Valid()
      modifies r`pos
      ensures Valid() && g == ExpectText(c.opts, r.input, old(r.pos)) && (g.Got? ==> r.pos == g.end)
    {
      hide ReadScalar, ItemHead;
      var h := r.ItemHeadHere();
      if h.HeadMissing? {
        return Missed(h.error);
      }
      if h.head.mt != TEXT {
        return Missed(Error(TypeMismatch, r.pos));
      }
      var t := r.DecodeScalar(h.head);
      if t.NoValue? {
        return Missed(t.error);
      }
      return Got(if t.item.TextString? then t.item.text else [], r.pos);
    }

    method TakeUInt() returns (g: Got<nat>)
      requires Valid()
      modifies r`pos
      ensures Valid() && g == ExpectUInt(c.opts, r.input, old(r.pos)) && (g.Got? ==> r.pos == g.end)
    {
      hide ItemHead;
      var h := r.ItemHeadHere();
      if h.HeadMissing? {
        return Missed(h.error);
      }
      if h.head.mt == UINT {
        r.pos := r.pos + h.head.length;
        return Got(h.head.value, r.pos);
      }
      return Missed(Error(if h.head.mt == NINT then OutOfRange else TypeMismatch, r.pos));
    }

    method TakeSInt() returns (g: Got<int>)
      requires Valid()
      modifies r`pos
      ensures Valid() && g == ExpectSInt(c.opts, r.input, old(r.pos)) && (g.Got? ==> r.pos == g.end)
    {
      hide ItemHead;
      var h := r.ItemHeadHere();
      if h.HeadMissing? {
        return Missed(h.error);
      }
      if h.head.mt != UINT && h.head.mt != NINT {
        return Missed(Error(TypeMismatch, r.pos));
      }
      if h.head.value >= TWO63 {
        return Missed(Error(OutOfRange, r.pos));
      }
      r.pos := r.pos + h.head.length;
      return Got(if h.head.mt == UINT then h.head.value else -1 - h.head.value as int, r.pos);
    }

    method TakeBytes() returns (g: Got<seq<byte>>)
      requires Valid()
      modifies r`pos
      ensures Valid() && g == ExpectBytes(c.opts, r.input, old(r.pos)) && (g.Got? ==> r.pos == g.end)
    {
      hide ReadScalar, ItemHead;
      var h := r.ItemHeadHere();
      if h.HeadMissing? {
        return Missed(h.error);
      }
      if h.head.mt != BYTES {
        return Missed(Error(TypeMismatch, r.pos));
      }
      var t := r.DecodeScalar(h.head);
      if t.NoValue? {
        return Missed(t.error);
      }
      return Got(if t.item.ByteString? then t.item.bytes else [], r.pos);
    }

    method TakeInt(t: IntType) returns (g: Got<int>)
      requires Valid()
      modifies r`pos
      ensures Valid() && g == ExpectInt(c.opts, t, r.input, old(r.pos)) && (g.Got? ==> r.pos == g.end)
    {
      hide ExpectUInt, ExpectSInt;
      if t.Signed? {
        g := TakeSInt();
        return;
      }
      var u := TakeUInt();
      return if u.Missed? then Missed(u.error) else Got(u.value, u.end);
    }

    method TakeSimple(a: nat, b: nat) returns (g: Got<nat>)
      requires Valid()
      modifies r`pos
      ensures Valid() && g == ExpectSimple(c.opts, r.input, old(r.pos), a, b) && (g.Got? ==> r.pos == g.end)
    {
      hide ItemHead;
      var h := r.ItemHeadHere();
      if h.HeadMissing? {
        return Missed(h.error);
      }
      if h.head.mt == SIMPLE && (h.head.ai == a || h.head.ai == b) {
        r.pos := r.pos + h.head.length;
        return Got(h.head.ai, r.pos);
      }
      return Missed(Error(TypeMismatch, r.pos));
    }

    /** expect_array and expect_map. */
    method Open(mt: major) returns (o: Opened)
      requires Valid()
      modifies r`pos, r`depth
      ensures Valid() && o == OpenContainer(c.opts, r.input, old(r.pos), old(r.depth), mt)
      ensures o.Opened? ==> r.pos == o.pos && r.depth == old(r.depth) + 1
    {
      hide ItemHead;
      var h := r.ItemHeadHere();
      if h.HeadMissing? {
        return NotOpened(h.error);
      }
      if h.head.mt != mt {
        return NotOpened(Error(TypeMismatch, r.pos));
      }
      if r.depth >= c.opts.maxDepth {
        return NotOpened(Error(DepthExceeded, r.pos));
      }
      r.pos, r.depth := r.pos + h.head.length, r.depth + 1;
      return Opened(r.pos, if h.head.indefinite then None else Some(h.head.value));
    }

    /** map_cursor::next. */
    method TakeEntry(remaining: Option<nat>, prev: Option<Extent>) returns (e: Entry)
      requires Valid() && r.depth > 0 && ExtentOk(prev, |r.input|)
      modifies r`pos, r`depth
      ensures Valid() && e == NextEntry(c.opts, r.input, old(r.pos), old(r.depth), remaining, prev)
      ensures if e.EntryEnd? then r.pos == e.pos && r.depth == old(r.depth) - 1
              else r.pos == old(r.pos) && r.depth == old(r.depth)
    {
      hide CheckKey, CursorNext;
      var next := r.Next(remaining);
      match next
      case CursorError(x) =>
        return EntryError(x);
      case CursorEnd(p) =>
        return EntryEnd(p);
      case CursorItem(left) =>
        var key := r.KeyAheadHere(prev);
        if key.KeyBad? {
          return EntryError(key.error);
        }
        return EntryAt(left, key.prev);
    }

    /** annotate_collected. */
    method Annotate(mark: nat, s: PathStep)
      requires mark <= |collected|
      modifies this`collected
      ensures collected == Annotated(old(collected), mark, s)
    {
      hide Push;
      var i := mark;
      while i < |collected|
        invariant mark <= i <= |collected| == |old(collected)|
        invariant forall k :: mark <= k < i ==> collected[k] == Push(old(collected)[k], s)
        invariant forall k :: 0 <= k < |collected| && (k < mark || i <= k) ==> collected[k] == old(collected)[k]
      {
        collected := collected[i := Push(collected[i], s)];
        i := i + 1;
      }
      assert collected == Annotated(old(collected), mark, s);
    }

    // ---- values ----

    /** What a decoding method leaves behind, against the answer `x` of the function it follows. */
    ghost predicate Left(x: Res, st: Option<Failure>, v: Value, was: seq<Failure>, depth: nat)
      reads this, r
    {
      st == x.status && v == x.value && collected == was + x.errs && (st.None? ==> r.pos == x.pos && r.depth == depth)
    }

    method DecodeValue(t: Ty, seed: Value) returns (st: Option<Failure>, v: Value)
      requires Valid()
      modifies r`pos, r`depth, this`collected
      ensures Valid()
      ensures Left(Decode(c, t, seed, r.input, old(r.pos), old(r.depth)), st, v, old(collected), old(r.depth))
      decreases |r.input| - r.pos, t, 1
    {
      hide DecodeElems, DecodeEntries, DecodeObject, DecodeItems, DecodeVariant, OpenContainer, PeekKind, DecodeBool,
           DecodeInt;
      hide DecodeText, DecodeNull, DecodeBytes, DecodeEnum, DecodeNamedEnum, Initial, MembersOf, ItemsOf, InnerOf,
           Push, PushAll;
      match t
      case TOpt(elem) =>
        var kind := r.Peek();
        if kind.KNull? {
          st, v := TakeNull(seed);
          return;
        }
        var s, x := DecodeValue(elem, Initial(elem));
        return s, VSome(x);
      case TSeq(elem) =>
        var a := Open(ARRAY);
        if a.NotOpened? {
          return Some(Fresh(a.error)), seed;
        }
        st, v := DecodeSequence(elem, a.remaining);
      case TTuple(elems) =>
        var off := r.pos;
        var a := Open(ARRAY);
        if a.NotOpened? {
          return Some(Fresh(a.error)), seed;
        }
        st, v := DecodeTuple(elems, off, ItemsOf(elems, seed), a.remaining);
      case TMap(keys, unique, elem) =>
        var m := Open(MAP);
        if m.NotOpened? {
          return Some(Fresh(m.error)), seed;
        }
        st, v := DecodeMap(keys, unique, elem, m.remaining);
      case TWrap(ident, elem) =>
        var x;
        st, x := DecodeNamed(elem, InnerOf(elem, seed), Member(ident));
        v := VStruct([x]);
      case TStruct(fields, unknown) =>
        st, v := TakeObject(fields, unknown, seed);
      case TVariant(tag, alts) =>
        st, v := TakeVariant(tag, alts, seed);
      case _ =>
        st, v := DecodeSimple(t, seed);
    }

    method TakeNull(seed: Value) returns (st: Option<Failure>, v: Value)
      requires Valid()
      modifies r`pos
      ensures Valid()
      ensures Left(DecodeNull(c.opts, seed, r.input, old(r.pos)), st, v, collected, r.depth)
    {
      hide ExpectSimple;
      var z := TakeSimple(22, if c.opts.undefinedAsNull then 23 else 22);
      if z.Missed? {
        return Some(Fresh(z.error)), seed;
      }
      return None, VNone;
    }

    /** Targets that take one item without an inside. */
    method DecodeSimple(t: Ty, seed: Value) returns (st: Option<Failure>, v: Value)
      requires Valid() && (t.TBool? || t.TInt? || t.TText? || t.TBytes? || t.TEnum? || t.TNamed?)
      modifies r`pos
      ensures Valid()
      ensures Left(Decode(c, t, seed, r.input, old(r.pos), r.depth), st, v, collected, r.depth)
    {
      hide ExpectText, ExpectSimple, ExpectBytes, DecodeInt, DecodeEnum, DecodeNamedEnum;
      var off := r.pos;
      match t
      case TBool =>
        var b := TakeSimple(20, 21);
        if b.Missed? {
          return Some(Fresh(b.error)), seed;
        }
        return None, VBool(b.value == 21);
      case TInt(range) =>
        st, v := TakeInteger(range, seed);
      case TText =>
        var s := TakeText();
        if s.Missed? {
          return Some(Fresh(s.error)), seed;
        }
        return None, VText(s.value);
      case TBytes(size) =>
        var s := TakeBytes();
        if s.Missed? {
          return Some(Fresh(s.error)), seed;
        }
        if size.Some? && |s.value| != size.value {
          return Some(Fresh(Error(TypeMismatch, off))), seed;
        }
        return None, VBytes(s.value);
      case TEnum(repr, values) =>
        st, v := TakeEnum(repr, values, seed);
      case TNamed(names) =>
        st, v := TakeNamedEnum(names, seed);
    }

    /** decode_uint and decode_sint. */
    method TakeInteger(t: IntType, seed: Value) returns (st: Option<Failure>, v: Value)
      requires Valid()
      modifies r`pos
      ensures Valid()
      ensures Left(DecodeInt(c.opts, t, seed, r.input, old(r.pos)), st, v, collected, r.depth)
    {
      hide ExpectInt;
      var off := r.pos;
      var i := TakeInt(t);
      if i.Missed? {
        return Some(Fresh(i.error)), seed;
      }
      if !t.Has(i.value) {
        return Some(Fresh(Error(OutOfRange, off))), seed;
      }
      return None, VInt(i.value);
    }

    /** decode_enum by integer. */
    method TakeEnum(repr: IntType, values: seq<int>, seed: Value) returns (st: Option<Failure>, v: Value)
      requires Valid()
      modifies r`pos
      ensures Valid()
      ensures Left(DecodeEnum(c.opts, repr, values, seed, r.input, old(r.pos)), st, v, collected, r.depth)
    {
      hide DecodeInt;
      var off := r.pos;
      st, v := TakeInteger(repr, VInt(0));
      if st.Some? {
        v := seed;
      } else if v.i !in values {
        return Some(Failure(UnknownEnumerator, off, [], false)), seed;
      }
    }

    /** decode_enum by name. */
    method TakeNamedEnum(names: seq<(seq<byte>, nat)>, seed: Value) returns (st: Option<Failure>, v: Value)
      requires Valid()
      modifies r`pos
      ensures Valid()
      ensures Left(DecodeNamedEnum(c.opts, names, seed, r.input, old(r.pos)), st, v, collected, r.depth)
    {
      hide ExpectText, FindNamed;
      var off := r.pos;
      var s := TakeText();
      if s.Missed? {
        return Some(Fresh(s.error)), seed;
      }
      var index := FindNamed(names, s.value);
      if index.None? {
        return Some(Failure(UnknownEnumerator, off, [], false)), seed;
      }
      return None, VInt(index.value);
    }

    // ---- tuples and arrays of a fixed size ----

    /** The surplus elements of an array, skipped up to its end or to the first that cannot be. */
    method SkipRest(off: nat, n: Option<nat>) returns (e: Error)
      requires Valid() && r.depth > 0
      modifies r`pos, r`depth
      ensures Valid() && e == SkipSurplus(c.opts, off, r.input, old(r.pos), old(r.depth), n)
    {
      hide SkipItem, CursorNext;
      var remaining := n;
      ghost var depth := r.depth;
      while true
        invariant Valid() && r.depth == depth
        invariant SkipSurplus(c.opts, off, r.input, old(r.pos), depth, n)
                  == SkipSurplus(c.opts, off, r.input, r.pos, depth, remaining)
        decreases |r.input| - r.pos
      {
        var next := r.Next(remaining);
        if next.CursorError? {
          return next.error;
        }
        if next.CursorEnd? {
          return Error(TypeMismatch, off);
        }
        var sk := r.SkipValue();
        if sk.Err? {
          return sk.error;
        }
        remaining := next.remaining;
      }
    }

    /** One element of a tuple, into its place. */
    method TakeItem(elems: seq<Ty>, off: nat, vals: seq<Value>, i: nat, remaining: Option<nat>)
      returns (stop: Option<Failure>, out: seq<Value>, remaining': Option<nat>, ghost more: seq<Failure>)
      requires Valid() && r.depth > 0 && |vals| == |elems| && i < |elems|
      modifies r`pos, r`depth, this`collected
      ensures Valid() && collected == old(collected) + more && |out| == |elems|
      ensures var whole := DecodeItems(c, elems, off, vals, i, r.input, old(r.pos), old(r.depth), remaining);
              if stop.Some? then whole.status == stop && whole.value == VSeq(out) && whole.errs == more
              else r.pos > old(r.pos) && r.depth == old(r.depth)
                   && whole == Also(more, DecodeItems(c, elems, off, out, i + 1, r.input, r.pos, r.depth, remaining'))
      decreases |r.input| - r.pos, elems, 3
    {
      hide Decode, DecodeItems, CursorNext, Push, PushAll, Also;
      out, remaining', more := vals, remaining, [];
      ghost var at, depth := r.pos, r.depth;
      ItemsStep(c, elems, off, vals, i, r.input, at, depth, remaining);
      var next := r.Next(remaining);
      if next.CursorError? {
        stop := Some(Fresh(next.error));
        return;
      }
      if next.CursorEnd? {
        stop := Some(Fresh(Error(TypeMismatch, off)));
        return;
      }
      more := PushAll(Decode(c, elems[i], vals[i], r.input, at, depth).errs, Index(i));
      var x;
      stop, x := DecodeNamed(elems[i], vals[i], Index(i));
      out, remaining' := vals[i := x], next.remaining;
    }

    /** decode_tuple and decode_fixed_array, from the opened array on. */
    method DecodeTuple(elems: seq<Ty>, off: nat, start: seq<Value>, n: Option<nat>)
      returns (st: Option<Failure>, v: Value)
      requires Valid() && r.depth > 0 && |start| == |elems|
      modifies r`pos, r`depth, this`collected
      ensures Valid()
      ensures Left(DecodeItems(c, elems, off, start, 0, r.input, old(r.pos), old(r.depth), n), st, v, old(collected),
                   old(r.depth) - 1)
      decreases |r.input| - r.pos, elems, 4
    {
      hide DecodeItems, Also, CursorNext, SkipSurplus;
      var vals, remaining := start, n;
      ghost var was, depth, goal := collected, r.depth,
        DecodeItems(c, elems, off, start, 0, r.input, r.pos, r.depth, n);
      ghost var errs: seq<Failure> := [];
      AlsoNothing(goal);
      for i := 0 to |elems|
        invariant Valid() && old(r.pos) <= r.pos && r.depth == depth && collected == was + errs && |vals| == |elems|
        invariant goal == Also(errs, DecodeItems(c, elems, off, vals, i, r.input, r.pos, depth, remaining))
      {
        var stop;
        ghost var more;
        AlsoLeaves(was, errs, DecodeItems(c, elems, off, vals, i, r.input, r.pos, depth, remaining));
        stop, vals, remaining, more := TakeItem(elems, off, vals, i, remaining);
        if stop.Some? {
          return stop, VSeq(vals);
        }
        Appended(was, errs, more);
        AlsoAlso(errs, more, DecodeItems(c, elems, off, vals, i + 1, r.input, r.pos, depth, remaining));
        errs := errs + more;
      }
      AlsoLeaves(was, errs, DecodeItems(c, elems, off, vals, |elems|, r.input, r.pos, depth, remaining));
      ItemsDone(c, elems, off, vals, r.input, r.pos, depth, remaining);
      v := VSeq(vals);
      ghost var at := r.pos;
      var next := r.Next(remaining);
      if next.CursorError? {
        return Some(Fresh(next.error)), v;
      }
      if next.CursorEnd? {
        return None, v;
      }
      // the element that is too many, then the others
      var sk := r.SkipValue();
      SurplusStep(c.opts, off, r.input, at, depth, remaining);
      if sk.Err? {
        return Some(Fresh(sk.error)), v;
      }
      var e := SkipRest(off, next.remaining);
      st := Some(Fresh(e));
    }

    // ---- variants ----

    /** The first pass of decode_variant: up to the discriminator, then on to the end of the object. */
    method ScanTag(tag: seq<byte>, n: Option<nat>) returns (s: Scan)
      requires Valid() && r.depth > 0
      modifies r`pos, r`depth
      ensures Valid() && s == FindTag(c.opts, tag, None, r.input, old(r.pos), old(r.depth), n, None)
    {
      hide FindTag, NextEntry, ExpectText, SkipItem;
      var remaining, got := n, None;
      var prev: Option<Extent> := None;
      ghost var depth := r.depth;
      while true
        invariant Valid() && r.depth == depth && ExtentOk(prev, |r.input|)
        invariant FindTag(c.opts, tag, None, r.input, old(r.pos), depth, n, None)
                  == FindTag(c.opts, tag, got, r.input, r.pos, depth, remaining, prev)
        decreases |r.input| - r.pos
      {
        ScanStep(c.opts, tag, got, r.input, r.pos, depth, remaining, prev);
        var next := TakeEntry(remaining, prev);
        if next.EntryError? {
          return ScanError(next.error);
        }
        if next.EntryEnd? {
          return Scanned(got);
        }
        var key := TakeText();
        if key.Missed? {
          return ScanError(key.error);
        }
        if got.None? && key.value == tag {
          var off := r.pos;
          var name := TakeText();
          if name.Missed? {
            return ScanError(name.error);
          }
          got := Some((name.value, off));
        } else {
          var sk := r.SkipValue();
          if sk.Err? {
            return ScanError(sk.error);
          }
        }
        remaining, prev := next.remaining, next.prev;
      }
    }

    method ChooseAlternative(tag: seq<byte>, alts: seq<(seq<byte>, Ty)>) returns (choice: Choice)
      requires Valid()
      modifies r`pos, r`depth
      ensures Valid() && choice == FindAlternative(c.opts, tag, alts, r.input, old(r.pos), old(r.depth))
    {
      hide OpenContainer, FindTag, Push;
      var off := r.pos;
      var m := Open(MAP);
      if m.NotOpened? {
        return NoAlternative(Fresh(m.error));
      }
      var s := ScanTag(tag, m.remaining);
      if s.ScanError? {
        return NoAlternative(Fresh(s.error));
      }
      if s.tag.None? {
        return NoAlternative(Failure(MissingTag, off, [], false));
      }
      var (name, at) := s.tag.value;
      var found := None;
      assert alts[..0] == [];
      for k := 0 to |alts|
        invariant found == FindAlt(alts[..k], name)
      {
        assert alts[..k + 1][..k] == alts[..k];
        if alts[k].0 == name {
          found := Some(k);
        }
      }
      assert alts[..|alts|] == alts;
      if found.None? {
        return NoAlternative(Push(Failure(NoVariantAlternative, at, [], false), KeyText(tag)));
      }
      return Alternative(found.value);
    }

    /** decode_variant: find the alternative, go back to the start of the object, and decode that. */
    method TakeVariant(tag: seq<byte>, alts: seq<(seq<byte>, Ty)>, seed: Value) returns (st: Option<Failure>, v: Value)
      requires Valid()
      modifies r`pos, r`depth, this`collected
      ensures Valid()
      ensures Left(DecodeVariant(c, tag, alts, seed, r.input, old(r.pos), old(r.depth)), st, v, old(collected),
                   old(r.depth))
      decreases |r.input| - r.pos, TVariant(tag, alts), 0
    {
      hide FindAlternative, DecodeObject, DecodeBox, Initial;
      var start, depth := r.pos, r.depth;
      var choice := ChooseAlternative(tag, alts);
      if choice.NoAlternative? {
        return Some(choice.e), seed;
      }
      r.pos, r.depth := start, depth;
      var t, x := alts[choice.i].1, seed;
      if t.TStruct? {
        st, x := TakeObject(t.fields, t.unknown.(ignore := tag), Initial(t));
      } else {
        st, x := TakeBox(t);
      }
      v := VAlt(choice.i, x);
    }

    /** The value of an entry of an externally tagged alternative: its own, or one to skip. */
    method TakeBoxValue(t: Ty, off: nat, done: Value, have: bool, own: bool, ghost remaining: Option<nat>,
                        ghost prev: Option<Extent>)
      returns (stop: Option<Failure>, out: Value, have': bool, ghost more: seq<Failure>)
      requires Valid() && ExtentOk(prev, |r.input|)
      modifies r`pos, r`depth, this`collected
      ensures Valid() && collected == old(collected) + more
      ensures var whole := if own then DecodeBoxValue(c, t, off, done, r.input, old(r.pos), old(r.depth), remaining,
                                                      prev)
                           else SkipBoxed(c, t, off, done, have, r.input, old(r.pos), old(r.depth), remaining, prev);
              if stop.Some? then whole.status == stop && whole.value == out && whole.errs == more
              else r.pos > old(r.pos) && r.depth == old(r.depth)
                   && whole == Also(more, DecodeBoxed(c, t, off, out, have', r.input, r.pos, r.depth, remaining, prev))
      decreases |r.input| - r.pos, t, 3
    {
      hide Decode, DecodeBoxed, DecodeBoxValue, Push, PushAll, SkipItem, SkipBoxed, Also, VALUE;
      out, have', more := done, have, [];
      if own {
        BoxValueStep(c, t, off, done, r.input, r.pos, r.depth, remaining, prev);
        more := PushAll(Decode(c, t, done, r.input, r.pos, r.depth).errs, Member(VALUE));
        stop, out := DecodeNamed(t, done, Member(VALUE));
        have' := true;
        return;
      }
      AlsoNothing(SkipBoxed(c, t, off, done, have, r.input, r.pos, r.depth, remaining, prev));
      SkipBoxedStep(c, t, off, done, have, r.input, r.pos, r.depth, remaining, prev);
      var sk := r.SkipValue();
      stop := if sk.Err? then Some(Fresh(sk.error)) else None;
    }

    /** One turn of the second pass over an externally tagged alternative. */
    method TakeBoxEntry(t: Ty, off: nat, done: Value, have: bool, remaining: Option<nat>, prev: Option<Extent>)
      returns (turn: Turn, out: Value, have': bool, remaining': Option<nat>, prev': Option<Extent>,
               ghost more: seq<Failure>)
      requires Valid() && r.depth > 0 && ExtentOk(prev, |r.input|)
      modifies r`pos, r`depth, this`collected
      ensures Valid() && collected == old(collected) + more && ExtentOk(prev', |r.input|)
      ensures var whole := DecodeBoxed(c, t, off, done, have, r.input, old(r.pos), old(r.depth), remaining, prev);
              match turn
              case Stop(e) => whole.status == Some(e) && whole.value == out && whole.errs == more
              case AtEnd => r.depth == old(r.depth) - 1 && out == done && have' == have && more == []
                            && whole == BoxEnd(off, done, have, r.pos)
              case Again => r.pos > old(r.pos) && r.depth == old(r.depth)
                            && whole == Also(more, DecodeBoxed(c, t, off, out, have', r.input, r.pos, r.depth,
                                                               remaining', prev'))
      decreases |r.input| - r.pos, t, 3
    {
      hide Decode, DecodeBoxed, DecodeBoxValue, NextEntry, Push, PushAll, ExpectText, SkipBoxed, Also, VALUE, BoxEnd;
      out, have', remaining', prev', more := done, have, remaining, prev, [];
      ghost var at, depth := r.pos, r.depth;
      BoxStep(c, t, off, done, have, r.input, at, depth, remaining, prev);
      var next := TakeEntry(remaining, prev);
      if next.EntryError? {
        turn := Stop(Fresh(next.error));
        return;
      }
      if next.EntryEnd? {
        turn := AtEnd;
        return;
      }
      remaining', prev' := next.remaining, next.prev;
      BoxKeyStep(c, t, off, done, have, r.input, at, depth, remaining, prev);
      var key := TakeText();
      if key.Missed? {
        turn := Stop(Fresh(key.error));
        return;
      }
      var stop;
      stop, out, have', more := TakeBoxValue(t, off, done, have, key.value == VALUE, remaining', prev');
      turn := if stop.Some? then Stop(stop.value) else Again;
    }

    /** The second pass for an externally tagged alternative. */
    method TakeBox(t: Ty) returns (st: Option<Failure>, v: Value)
      requires Valid()
      modifies r`pos, r`depth, this`collected
      ensures Valid()
      ensures Left(DecodeBox(c, t, r.input, old(r.pos), old(r.depth)), st, v, old(collected), old(r.depth))
      decreases |r.input| - r.pos, t, 4
    {
      hide OpenContainer, DecodeBoxed, Also, Initial, BoxEnd;
      var off := r.pos;
      v := Initial(t);
      var m := Open(MAP);
      if m.NotOpened? {
        return Some(Fresh(m.error)), v;
      }
      var have, remaining := false, m.remaining;
      var prev: Option<Extent> := None;
      ghost var was, depth, goal := collected, r.depth,
        DecodeBoxed(c, t, off, v, false, r.input, r.pos, r.depth, remaining, None);
      ghost var errs: seq<Failure> := [];
      AlsoNothing(goal);
      while true
        invariant Valid() && old(r.pos) < r.pos && r.depth == depth && collected == was + errs
                  && ExtentOk(prev, |r.input|)
        invariant goal == Also(errs, DecodeBoxed(c, t, off, v, have, r.input, r.pos, depth, remaining, prev))
        decreases |r.input| - r.pos
      {
        var turn;
        ghost var more;
        AlsoLeaves(was, errs, DecodeBoxed(c, t, off, v, have, r.input, r.pos, depth, remaining, prev));
        turn, v, have, remaining, prev, more := TakeBoxEntry(t, off, v, have, remaining, prev);
        match turn
        case Stop(e) =>
          return Some(e), v;
        case AtEnd =>
          BoxEnds(off, v, have, r.pos);
          return if have then None else Some(Failure(MissingField, off, [], false)), v;
        case Again =>
          Appended(was, errs, more);
          AlsoAlso(errs, more, DecodeBoxed(c, t, off, v, have, r.input, r.pos, depth, remaining, prev));
          errs := errs + more;
      }
    }

    // ---- maps ----

    /** The key of an entry of a map. */
    method TakeMapKey(keys: KeyType) returns (k: Got<MapKey>)
      requires Valid()
      modifies r`pos
      ensures Valid() && k == MapKeyAt(c.opts, keys, r.input, old(r.pos)) && (k.Got? ==> r.pos == k.end)
    {
      hide PeekKind, ExpectUInt, ExpectSInt, ExpectText, ParseKey;
      var off := r.pos;
      var kind := r.Peek();
      if keys.TextKeys? || kind.KText? {
        var s := TakeText();
        if s.Missed? {
          return Missed(s.error);
        }
        if keys.TextKeys? {
          return Got(NameKey(s.value), r.pos);
        }
        var i := ParseKey(keys.range, s.value, off);
        return if i.Missed? then Missed(i.error) else Got(NumberKey(i.value), r.pos);
      }
      if kind.KUInt? {
        var u := TakeUInt();
        if u.Missed? {
          return Missed(u.error);
        }
        return if keys.range.Has(u.value) then Got(NumberKey(u.value), r.pos) else Missed(Error(OutOfRange, off));
      }
      var i := TakeSInt();
      if i.Missed? {
        return Missed(i.error);
      }
      return if keys.range.Signed? && keys.range.Has(i.value) then Got(NumberKey(i.value), r.pos)
        else Missed(Error(OutOfRange, off));
    }

    /** The value of a map entry: new, in the place of the one found, or skipped. */
    method TakeEntryValue(keys: KeyType, unique: bool, elem: Ty, done: seq<Pair>, key: MapKey, found: Option<nat>,
                          ghost remaining: Option<nat>, ghost prev: Option<Extent>)
      returns (stop: Option<Failure>, out: seq<Pair>, ghost more: seq<Failure>)
      requires Valid() && (found.Some? ==> found.value < |done|) && ExtentOk(prev, |r.input|)
      modifies r`pos, r`depth, this`collected
      ensures Valid() && collected == old(collected) + more
      ensures var whole := if found.Some? && c.duplicates.FirstWins? then
                             SkipEntry(c, keys, unique, elem, done, r.input, old(r.pos), old(r.depth), remaining, prev)
                           else DecodeEntry(c, keys, unique, elem, done, r.input, old(r.pos), old(r.depth), remaining,
                                            prev, key, found);
              if stop.Some? then whole.status == stop && whole.value == VMap(out) && whole.errs == more
              else r.pos > old(r.pos) && r.depth == old(r.depth)
                   && whole == Also(more, DecodeEntries(c, keys, unique, elem, out, r.input, r.pos, r.depth, remaining,
                                                        prev))
      decreases |r.input| - r.pos, elem, 3
    {
      hide Decode, DecodeEntries, Initial, Push, PushAll, DecodeEntry, SkipEntry, SkipItem, Also, StepOf;
      out, more := done, [];
      if found.Some? && c.duplicates.FirstWins? {
        AlsoNothing(SkipEntry(c, keys, unique, elem, done, r.input, r.pos, r.depth, remaining, prev));
        SkipEntryStep(c, keys, unique, elem, done, r.input, r.pos, r.depth, remaining, prev);
        var sk := r.SkipValue();
        stop := if sk.Err? then Some(Fresh(sk.error)) else None;
        return;
      }
      var seed := if found.Some? then done[found.value].val else Initial(elem);
      more := PushAll(Decode(c, elem, seed, r.input, r.pos, r.depth).errs, StepOf(key));
      EntryIs(c, keys, unique, elem, done, r.input, r.pos, r.depth, remaining, prev, key, found);
      var x;
      stop, x := DecodeNamed(elem, seed, StepOf(key));
      if stop.None? {
        out := if found.Some? then done[found.value := Pair(key, x)] else done + [Pair(key, x)];
      }
    }

    /** One turn of decode_map's loop. */
    method TakeMapEntry(keys: KeyType, unique: bool, elem: Ty, done: seq<Pair>, remaining: Option<nat>,
                        prev: Option<Extent>)
      returns (turn: Turn, out: seq<Pair>, remaining': Option<nat>, prev': Option<Extent>, ghost more: seq<Failure>)
      requires Valid() && r.depth > 0 && ExtentOk(prev, |r.input|)
      modifies r`pos, r`depth, this`collected
      ensures Valid() && collected == old(collected) + more && ExtentOk(prev', |r.input|)
      ensures var whole := DecodeEntries(c, keys, unique, elem, done, r.input, old(r.pos), old(r.depth), remaining,
                                         prev);
              match turn
              case Stop(e) => whole.status == Some(e) && whole.value == VMap(out) && whole.errs == more
              case AtEnd => r.depth == old(r.depth) - 1 && out == done && more == []
                && whole == Res(None, VMap(done), r.pos, [])
              case Again => r.pos > old(r.pos) && r.depth == old(r.depth)
                            && whole == Also(more, DecodeEntries(c, keys, unique, elem, out, r.input, r.pos, r.depth,
                                                                 remaining', prev'))
      decreases |r.input| - r.pos, elem, 3
    {
      hide Decode, DecodeEntries, NextEntry, Initial, Push, PushAll, MapKeyAt, Earlier, StepOf, SkipEntry, DecodeEntry,
           Also;
      out, remaining', prev', more := done, remaining, prev, [];
      var keyOff := r.pos;
      ghost var depth := r.depth;
      EntriesStep(c, keys, unique, elem, done, r.input, keyOff, depth, remaining, prev);
      var next := TakeEntry(remaining, prev);
      if next.EntryError? {
        turn := Stop(Fresh(next.error));
        return;
      }
      if next.EntryEnd? {
        turn := AtEnd;
        return;
      }
      remaining', prev' := next.remaining, next.prev;
      MapKeyStep(c, keys, unique, elem, done, r.input, keyOff, depth, remaining, prev);
      var key := TakeMapKey(keys);
      if key.Missed? {
        turn := Stop(Fresh(key.error));
        return;
      }
      var found := Earlier(unique, done, key.value);
      if found.Some? && c.duplicates.ErrorOnDuplicate? {
        turn := Stop(Push(Failure(DuplicateKey, keyOff, [], false), StepOf(key.value)));
        return;
      }
      var stop;
      stop, out, more := TakeEntryValue(keys, unique, elem, done, key.value, found, remaining', prev');
      turn := if stop.Some? then Stop(stop.value) else Again;
    }

    /** decode_map, from the opened map on. */
    method DecodeMap(keys: KeyType, unique: bool, elem: Ty, n: Option<nat>) returns (st: Option<Failure>, v: Value)
      requires Valid() && r.depth > 0
      modifies r`pos, r`depth, this`collected
      ensures Valid()
      ensures Left(DecodeEntries(c, keys, unique, elem, [], r.input, old(r.pos), old(r.depth), n, None), st, v,
                   old(collected), old(r.depth) - 1)
      decreases |r.input| - r.pos, elem, 4
    {
      hide DecodeEntries, Also;
      var done: seq<Pair>, remaining := [], n;
      var prev: Option<Extent> := None;
      ghost var was, depth, goal := collected, r.depth,
        DecodeEntries(c, keys, unique, elem, [], r.input, r.pos, r.depth, n, None);
      ghost var errs: seq<Failure> := [];
      AlsoNothing(goal);
      while true
        invariant Valid() && old(r.pos) <= r.pos && r.depth == depth && collected == was + errs
                  && ExtentOk(prev, |r.input|)
        invariant goal == Also(errs, DecodeEntries(c, keys, unique, elem, done, r.input, r.pos, depth, remaining, prev))
        decreases |r.input| - r.pos
      {
        var turn;
        ghost var more;
        ghost var whole := DecodeEntries(c, keys, unique, elem, done, r.input, r.pos, depth, remaining, prev);
        AlsoLeaves(was, errs, whole);
        turn, done, remaining, prev, more := TakeMapEntry(keys, unique, elem, done, remaining, prev);
        match turn
        case Stop(e) =>
          return Some(e), VMap(done);
        case AtEnd =>
          return None, VMap(done);
        case Again =>
          Appended(was, errs, more);
          AlsoAlso(errs, more, DecodeEntries(c, keys, unique, elem, done, r.input, r.pos, depth, remaining, prev));
          errs := errs + more;
      }
    }

    /** The key of an object entry and the member it selects. */
    method TakeMemberKey(fields: seq<Field>) returns (k: MemberKey)
      requires Valid()
      modifies r`pos
      ensures Valid() && k == MemberKeyAt(c.opts, fields, r.input, old(r.pos)) && (!k.BadKey? ==> r.pos == k.end)
    {
      hide PeekKind, ExpectUInt, ExpectSInt, ExpectText, FindKey, FindName;
      var kind := r.Peek();
      var keyed := exists i :: 0 <= i < |fields| && fields[i].key.Some?;
      if keyed && kind.KUInt? {
        var u := TakeUInt();
        if u.Missed? {
          return BadKey(u.error);
        }
        return if u.value >= TWO63 then HugeKey(u.value, u.end)
          else FoundKey(FindKey(fields, u.value), KeyInt(u.value), u.end);
      }
      if keyed && kind.KSInt? {
        var i := TakeSInt();
        if i.Missed? {
          return BadKey(i.error);
        }
        return FoundKey(FindKey(fields, i.value), KeyInt(if i.value < 0 then i.value + TWO64 else i.value), i.end);
      }
      var s := TakeText();
      if s.Missed? {
        return BadKey(s.error);
      }
      var f := FindName(fields, s.value);
      if f.Some? && fields[f.value].key.Some? && !fields[f.value].textOk && s.value == fields[f.value].name {
        f := None;
      }
      return FoundKey(f, KeyText(s.value), s.end);
    }

    /** The end of decode_struct: missing members, in order. */
    method Finish(fields: seq<Field>, objOff: nat, vals: seq<Value>, seen: set<nat>)
      returns (st: Option<Failure>, v: Value)
      requires Valid() && |vals| == |fields|
      modifies this`collected
      ensures Valid() && r.pos == old(r.pos)
      ensures var x := FinishStruct(c, fields, objOff, vals, seen, r.pos);
              st == x.status && v == x.value && collected == old(collected) + x.errs
    {
      st := None;
      var out := vals;
      ghost var was := collected;
      ghost var all := MissingErrs(fields, seen, objOff, 0);
      for i := 0 to |fields|
        invariant |out| == |fields|
        invariant forall k :: 0 <= k < i ==> out[k] == WithDefaults(fields, seen, vals)[k]
        invariant forall k :: i <= k < |fields| ==> out[k] == vals[k]
        invariant c.collect ==> st.None? && was + all == collected + MissingErrs(fields, seen, objOff, i)
        invariant !c.collect ==> collected == was
        invariant !c.collect && st.None? ==> all == MissingErrs(fields, seen, objOff, i)
        invariant !c.collect && st.Some? ==> all != [] && st == Some(all[0])
      {
        if !fields[i].skip && i !in seen {
          if fields[i].required {
            if st.None? {
              var e := Failure(MissingField, objOff, [], false);
              if c.collect {
                collected := collected + [e];
              } else {
                st := Some(e);
              }
            }
          } else if fields[i].default.Some? {
            out := out[i := fields[i].default.value];
          }
        }
      }
      v := VStruct(out);
      assert out == WithDefaults(fields, seen, vals);
      assert MissingErrs(fields, seen, objOff, |fields|) == [];
    }

    /** Decode one value, and put `step` into every error that comes out. */
    method DecodeNamed(t: Ty, seed: Value, step: PathStep) returns (st: Option<Failure>, v: Value)
      requires Valid()
      modifies r`pos, r`depth, this`collected
      ensures Valid()
      ensures var x := Decode(c, t, seed, r.input, old(r.pos), old(r.depth));
              && v == x.value && collected == old(collected) + PushAll(x.errs, step)
              && (if x.status.None? then st.None? && r.pos == x.pos && r.depth == old(r.depth)
                  else st == Some(Push(x.status.value, step)))
      decreases |r.input| - r.pos, t, 2
    {
      hide Decode, Push, PushAll;
      var mark := |collected|;
      ghost var was := collected;
      ghost var x := Decode(c, t, seed, r.input, r.pos, r.depth);
      var s;
      s, v := DecodeValue(t, seed);
      Annotate(mark, step);
      AnnotatedTail(was, x.errs, step);
      st := if s.Some? then Some(Push(s.value, step)) else None;
    }

    /** The value behind a key: into its member, reported, or skipped. `more` are the errors collected on the way. */
    method TakeMember(fields: seq<Field>, unknown: Unknown, objOff: nat, vals: seq<Value>, seen: set<nat>, todo: Todo,
                      ghost remaining: Option<nat>, ghost prev: Option<Extent>)
      returns (stop: Option<Failure>, out: seq<Value>, seen': set<nat>, ghost more: seq<Failure>)
      requires Valid() && |vals| == |fields| && (todo.Into? ==> todo.member < |fields|) && ExtentOk(prev, |r.input|)
      modifies r`pos, r`depth, this`collected
      ensures Valid() && |out| == |fields| && collected == old(collected) + more
      ensures var whole := MemberOutcome(c, fields, unknown, objOff, vals, seen, r.input, old(r.pos), old(r.depth),
                                         remaining, prev, todo);
              if stop.Some? then whole.status == stop && whole.value == VStruct(out) && whole.errs == more
              else r.pos > old(r.pos) && r.depth == old(r.depth)
                   && whole == Also(more, DecodeMembers(c, fields, unknown, objOff, out, seen', r.input, r.pos,
                                                        r.depth, remaining, prev))
      decreases |r.input| - r.pos, fields, 3
    {
      hide Decode, Push, PushAll, SkipItem, DecodeMember, DecodeMembers, SkipThen, IsSyntax;
      out, seen', more := vals, seen, [];
      var at, atDepth := r.pos, r.depth;
      if todo.Into? {
        var m := todo.member;
        MemberStep(c, fields, unknown, objOff, vals, seen, r.input, at, atDepth, remaining, prev, m);
        ghost var x := Decode(c, fields[m].ty, vals[m], r.input, at, atDepth);
        var s, w := DecodeNamed(fields[m].ty, vals[m], Member(fields[m].ident));
        out, seen', more := vals[m := w], seen + {m}, PushAll(x.errs, Member(fields[m].ident));
        if s.None? || !c.collect || IsSyntax(s.value.code) {
          return s, out, seen', more;
        }
        collected, more := collected + [s.value], more + [s.value];
        r.pos, r.depth := at, atDepth;
      } else if todo.Report? {
        if !c.collect {
          return Some(todo.e), out, seen', more;
        }
        collected, more := collected + [todo.e], [todo.e];
      }
      ghost var rest := SkipThen(c, fields, unknown, objOff, out, seen', r.input, at, atDepth, remaining, prev);
      SkipStep(c, fields, unknown, objOff, out, seen', r.input, at, atDepth, remaining, prev);
      AlsoNothing(rest);
      assert MemberOutcome(c, fields, unknown, objOff, vals, seen, r.input, at, atDepth, remaining, prev, todo)
             == Also(more, rest);
      var sk := r.SkipValue();
      stop := if sk.Err? then Some(Fresh(sk.error)) else None;
    }

    /** One turn of decode_struct's loop. */
    method TakeObjectEntry(fields: seq<Field>, unknown: Unknown, objOff: nat, vals: seq<Value>, seen: set<nat>,
                           remaining: Option<nat>, prev: Option<Extent>)
      returns (turn: Turn, out: seq<Value>, seen': set<nat>, remaining': Option<nat>, prev': Option<Extent>,
               ghost more: seq<Failure>)
      requires Valid() && r.depth > 0 && |vals| == |fields| && ExtentOk(prev, |r.input|)
      modifies r`pos, r`depth, this`collected
      ensures Valid() && |out| == |fields| && ExtentOk(prev', |r.input|) && collected == old(collected) + more
      ensures var whole := DecodeMembers(c, fields, unknown, objOff, vals, seen, r.input, old(r.pos), old(r.depth),
                                         remaining, prev);
              match turn
              case Stop(e) => whole.status == Some(e) && whole.value == VStruct(out) && whole.errs == more
              case AtEnd => r.depth == old(r.depth) - 1 && out == vals && seen' == seen && more == []
                            && whole == FinishStruct(c, fields, objOff, vals, seen, r.pos)
              case Again => r.pos > old(r.pos) && r.depth == old(r.depth)
                            && whole == Also(more, DecodeMembers(c, fields, unknown, objOff, out, seen', r.input,
                                                                 r.pos, r.depth, remaining', prev'))
      decreases |r.input| - r.pos, fields, 4
    {
      hide Decode, NextEntry, Push, PushAll, MemberKeyAt, SkipItem, EntryTodo, FinishStruct, DecodeMember,
           DecodeMembers, SkipThen, Also;
      out, seen', remaining', prev', more := vals, seen, remaining, prev, [];
      var keyOff := r.pos;
      MembersStep(c, fields, unknown, objOff, vals, seen, r.input, keyOff, r.depth, remaining, prev);
      var next := TakeEntry(remaining, prev);
      if next.EntryError? {
        turn := Stop(Fresh(next.error));
        return;
      }
      if next.EntryEnd? {
        turn := AtEnd;
        return;
      }
      remaining', prev' := next.remaining, next.prev;
      var key := TakeMemberKey(fields);
      if key.BadKey? {
        turn := Stop(Fresh(key.error));
        return;
      }
      if key.HugeKey? && unknown.refuse {
        var sk := r.SkipValue();
        turn := Stop(if sk.Err? then Fresh(sk.error)
                     else Push(Failure(UnknownField, keyOff, [], false), KeyInt(key.k)));
        return;
      }
      var todo := if key.HugeKey? then SkipOver else EntryTodo(c, fields, unknown, seen, keyOff, key);
      var stop;
      stop, out, seen', more := TakeMember(fields, unknown, objOff, vals, seen, todo, remaining', prev');
      turn := if stop.Some? then Stop(stop.value) else Again;
    }

    /** decode_struct. */
    method TakeObject(fields: seq<Field>, unknown: Unknown, seed: Value) returns (st: Option<Failure>, v: Value)
      requires Valid()
      modifies r`pos, r`depth, this`collected
      ensures Valid()
      ensures Left(DecodeObject(c, fields, unknown, seed, r.input, old(r.pos), old(r.depth)), st, v, old(collected),
                   old(r.depth))
      decreases |r.input| - r.pos, fields, 6
    {
      hide OpenContainer, DecodeMembers, MembersOf;
      var off := r.pos;
      var m := Open(MAP);
      if m.NotOpened? {
        return Some(Fresh(m.error)), seed;
      }
      st, v := DecodeStruct(fields, unknown, off, MembersOf(fields, seed), m.remaining);
    }

    /** decode_struct, from the opened map on. */
    method DecodeStruct(fields: seq<Field>, unknown: Unknown, objOff: nat, start: seq<Value>, n: Option<nat>)
      returns (st: Option<Failure>, v: Value)
      requires Valid() && r.depth > 0 && |start| == |fields|
      modifies r`pos, r`depth, this`collected
      ensures Valid()
      ensures Left(DecodeMembers(c, fields, unknown, objOff, start, {}, r.input, old(r.pos), old(r.depth), n, None),
                   st, v, old(collected), old(r.depth) - 1)
      decreases |r.input| - r.pos, fields, 5
    {
      hide FinishStruct, DecodeMembers;
      var vals, seen, remaining := start, {}, n;
      var prev: Option<Extent> := None;
      ghost var was, depth, goal := collected, r.depth,
        DecodeMembers(c, fields, unknown, objOff, start, {}, r.input, r.pos, r.depth, n, None);
      ghost var errs: seq<Failure> := [];
      AlsoNothing(goal);
      while true
        invariant Valid() && old(r.pos) <= r.pos && r.depth == depth && collected == was + errs
                  && ExtentOk(prev, |r.input|) && |vals| == |fields|
        invariant goal == Also(errs,
                               DecodeMembers(c, fields, unknown, objOff, vals, seen, r.input, r.pos, depth, remaining,
                                             prev))
        decreases |r.input| - r.pos
      {
        var turn;
        ghost var more;
        ghost var whole := DecodeMembers(c, fields, unknown, objOff, vals, seen, r.input, r.pos, depth, remaining,
                                         prev);
        AlsoLeaves(was, errs, whole);
        turn, vals, seen, remaining, prev,
          more := TakeObjectEntry(fields, unknown, objOff, vals, seen, remaining, prev);
        match turn
        case Stop(e) =>
          return Some(e), VStruct(vals);
        case AtEnd =>
          st, v := Finish(fields, objOff, vals, seen);
          FinishEnds(c, fields, objOff, vals, seen, r.pos);
          return;
        case Again =>
          Appended(was, errs, more);
          AlsoAlso(errs, more, DecodeMembers(c, fields, unknown, objOff, vals, seen, r.input, r.pos, depth, remaining,
                                             prev));
          errs := errs + more;
      }
    }

    /** One turn of decode_sequence's loop. */
    method TakeElement(elem: Ty, done: seq<Value>, remaining: Option<nat>)
      returns (turn: Turn, out: seq<Value>, remaining': Option<nat>, ghost more: seq<Failure>)
      requires Valid() && r.depth > 0
      modifies r`pos, r`depth, this`collected
      ensures Valid() && collected == old(collected) + more
      ensures var whole := DecodeElems(c, elem, done, r.input, old(r.pos), old(r.depth), remaining);
              match turn
              case Stop(e) => whole.status == Some(e) && whole.value == VSeq(out) && whole.errs == more
              case AtEnd => r.depth == old(r.depth) - 1 && out == done && more == []
                && whole == Res(None, VSeq(done), r.pos, [])
              case Again => r.pos > old(r.pos) && r.depth == old(r.depth)
                            && whole == Also(more, DecodeElems(c, elem, out, r.input, r.pos, r.depth, remaining'))
      decreases |r.input| - r.pos, elem, 3
    {
      hide Decode, DecodeElems, CursorNext, Initial, Push, PushAll, Also;
      out, remaining', more := done, remaining, [];
      ghost var at, depth := r.pos, r.depth;
      ElemsStep(c, elem, done, r.input, at, depth, remaining);
      var next := r.Next(remaining);
      if next.CursorError? {
        turn := Stop(Fresh(next.error));
        return;
      }
      if next.CursorEnd? {
        turn := AtEnd;
        return;
      }
      more := PushAll(Decode(c, elem, Initial(elem), r.input, at, depth).errs, Index(|done|));
      var s, x := DecodeNamed(elem, Initial(elem), Index(|done|));
      if s.Some? {
        turn := Stop(s.value);
        return;
      }
      turn, out, remaining' := Again, done + [x], next.remaining;
    }

    /** decode_sequence, from the opened array on. */
    method DecodeSequence(elem: Ty, n: Option<nat>) returns (st: Option<Failure>, v: Value)
      requires Valid() && r.depth > 0
      modifies r`pos, r`depth, this`collected
      ensures Valid()
      ensures Left(DecodeElems(c, elem, [], r.input, old(r.pos), old(r.depth), n), st, v, old(collected),
                   old(r.depth) - 1)
      decreases |r.input| - r.pos, elem, 4
    {
      hide DecodeElems, Also;
      var done: seq<Value>, remaining := [], n;
      ghost var was, depth, goal := collected, r.depth, DecodeElems(c, elem, [], r.input, r.pos, r.depth, n);
      ghost var errs: seq<Failure> := [];
      AlsoNothing(goal);
      while true
        invariant Valid() && old(r.pos) <= r.pos && r.depth == depth && collected == was + errs
        invariant goal == Also(errs, DecodeElems(c, elem, done, r.input, r.pos, depth, remaining))
        decreases |r.input| - r.pos
      {
        var turn;
        ghost var more;
        ghost var whole := DecodeElems(c, elem, done, r.input, r.pos, depth, remaining);
        AlsoLeaves(was, errs, whole);
        turn, done, remaining, more := TakeElement(elem, done, remaining);
        match turn
        case Stop(e) =>
          return Some(e), VSeq(done);
        case AtEnd =>
          return None, VSeq(done);
        case Again =>
          Appended(was, errs, more);
          AlsoAlso(errs, more, DecodeElems(c, elem, done, r.input, r.pos, depth, remaining));
          errs := errs + more;
      }
    }
  }

  lemma AnnotatedTail(a: seq<Failure>, b: seq<Failure>, s: PathStep)
    ensures Annotated(a + b, |a|, s) == a + PushAll(b, s)
  {
    assert (a + b)[..|a|] == a && (a + b)[|a|..] == b;
  }
}
