/** Typed values that lack a required member on the wire: their encodings are refused, however deep the member is. */
module TypedRefused {
  import opened Bytes
  import opened Head
  import opened Utf8
  import opened Item
  import opened KeyOrder
  import opened SkipSpec
  import opened ReadSpec
  import opened BuildSpec
  import opened BuildSteps
  import opened Collect
  import W = WriterSpec
  import opened WriterRuns
  import opened WriterTrees
  import opened Typed
  import opened TypedItems
  import opened TypedRead
  import opened TypedStructs
  import opened TypedVariants
  import opened TypedWrite
  import opened TypedCases
  import opened TypedRoundTrip
  import M = StructMaps
  import Encoding
  import CborWriter
  import Build

  /** Wherever the value's encoding lies in the input, decoding it fails. */
  ghost predicate Refuses(c: Config, input: seq<byte>, t: Ty, v: Value) {
    forall seed: Value, pos: nat, depth: nat :: Lies(c.opts, input, pos, depth, Img(t, v))
      ==> RefusedAt(c, input, t, seed, pos, depth)
  }

  ghost predicate RefusedAt(c: Config, input: seq<byte>, t: Ty, seed: Value, pos: nat, depth: nat) {
    pos <= |input| && Decode(c, t, seed, input, pos, depth).status.Some?
  }

  lemma UseRefuses(c: Config, input: seq<byte>, t: Ty, v: Value, seed: Value, pos: nat, depth: nat)
    requires Refuses(c, input, t, v) && Lies(c.opts, input, pos, depth, Img(t, v))
    ensures pos <= |input| && Decode(c, t, seed, input, pos, depth).status.Some?
  {
    hide Decode, Lies, Img;
    assert RefusedAt(c, input, t, seed, pos, depth);
  }

  /** A value decodes, or is refused for lack of a required member. */
  ghost predicate Settled(c: Config, input: seq<byte>, t: Ty, v: Value) {
    if Decodable(t, v) then Decodes(c, input, t, v) else Refuses(c, input, t, v)
  }

  // ---- loops ----

  lemma {:induction false} SeqRefused(c: Config, elem: Ty, done: seq<Value>, s: seq<Value>, input: seq<byte>, pos: nat,
                                      depth: nat)
    requires forall i :: 0 <= i < |s| ==> Settled(c, input, elem, s[i])
    requires exists i :: 0 <= i < |s| && !Decodable(elem, s[i])
    requires ItemsLie(c.opts, input, pos, depth, Trees(SeqDocs(elem, s)))
    ensures pos <= |input| && DecodeElems(c, elem, done, input, pos, depth, Some(|s|)).status.Some?
    decreases |s|
  {
    hide DecodeElems, Decode, Back, Decodes, Refuses, ItemsLie, Lies, Enc, DocOf, Tree, CursorNext, PushAll, Decodable,
         Initial;
    var u := Trees(SeqDocs(elem, s));
    SeqLength(elem, s);
    ItemLies(c.opts, input, pos, depth, u);
    ElemsStep(c, elem, done, input, pos, depth, Some(|s|));
    if Decodable(elem, s[0]) {
      UseDecodes(c, input, elem, s[0], Initial(elem), pos, depth);
      assert exists i :: 0 <= i < |s[1..]| && !Decodable(elem, s[1..][i]) by {
        var i :| 0 <= i < |s| && !Decodable(elem, s[i]);
        assert s[1..][i - 1] == s[i];
      }
      SeqRefused(c, elem, done + [Back(elem, s[0], Initial(elem))], s[1..], input, pos + |Enc(u.head)|, depth);
    } else {
      UseRefuses(c, input, elem, s[0], Initial(elem), pos, depth);
    }
  }

  lemma {:induction false} TupleRefused(c: Config, elems: seq<Ty>, off: nat, s: seq<Value>, seeds: seq<Value>, i: nat,
                                        input: seq<byte>, pos: nat, depth: nat)
    requires |s| == |elems| == |seeds| && i <= |s| && forall k :: 0 <= k < |s| ==> Settled(c, input, elems[k], s[k])
    requires exists k :: i <= k < |s| && !Decodable(elems[k], s[k])
    requires ItemsLie(c.opts, input, pos, depth, Trees(TupleDocs(elems[i..], s[i..])))
    ensures pos <= |input| && DecodeItems(c, elems, off, Places(elems, s, seeds, i), i, input, pos, depth,
                                          Some(|s| - i)).status.Some?
    decreases |s| - i
  {
    hide DecodeItems, Decode, Back, Decodes, Refuses, ItemsLie, Lies, Enc, DocOf, Tree, CursorNext, PushAll, Places,
         BackItems, Decodable;
    var u := Trees(TupleDocs(elems[i..], s[i..]));
    TupleLength(elems[i..], s[i..]);
    assert elems[i..][1..] == elems[i + 1..] && s[i..][1..] == s[i + 1..];
    ItemLies(c.opts, input, pos, depth, u);
    NextPlace(elems, s, seeds, i);
    ItemsStep(c, elems, off, Places(elems, s, seeds, i), i, input, pos, depth, Some(|s| - i));
    if Decodable(elems[i], s[i]) {
      UseDecodes(c, input, elems[i], s[i], seeds[i], pos, depth);
      TupleRefused(c, elems, off, s, seeds, i + 1, input, pos + |Enc(u.head)|, depth);
    } else {
      UseRefuses(c, input, elems[i], s[i], seeds[i], pos, depth);
    }
  }

  lemma SettledIs(c: Config, input: seq<byte>, t: Ty, v: Value)
    requires Settled(c, input, t, v)
    ensures if Decodable(t, v) then Decodes(c, input, t, v) else Refuses(c, input, t, v)
  {
  }

  lemma LackingLater(elem: Ty, ps: seq<Pair>)
    requires exists i :: 0 <= i < |ps| && !Decodable(elem, ps[i].val)
    requires Decodable(elem, ps[0].val)
    ensures exists i :: 0 <= i < |ps[1..]| && !Decodable(elem, ps[1..][i].val)
  {
    hide Decodable;
    var i :| 0 <= i < |ps| && !Decodable(elem, ps[i].val);
    assert ps[1..][i - 1] == ps[i];
  }

  lemma {:induction false} MapRefused(c: Config, keys: KeyType, unique: bool, elem: Ty, done: seq<Pair>, ps: seq<Pair>,
                                      input: seq<byte>, pos: nat, depth: nat, ext: Option<Extent>,
                                      prev: Option<seq<byte>>)
    requires (keys.IntKeys? ==> SoundRange(keys.range)) && DistinctPairs(done + ps)
    requires forall i :: 0 <= i < |ps| ==> FitKey(keys, ps[i].key) && Settled(c, input, elem, ps[i].val)
    requires exists i :: 0 <= i < |ps| && !Decodable(elem, ps[i].val)
    requires EntriesLie(c.opts, input, pos, depth, EntryTrees(PairDocs(keys, elem, ps)), ext, prev)
    ensures pos <= |input| && ExtentOk(ext, |input|)
            && MapLoop(c, keys, unique, elem, done, |ps|, input, pos, depth, ext).status.Some?
    decreases |ps|
  {
    hide *;
    SettledIs(c, input, elem, ps[0].val);
    var u := EntryTrees(PairDocs(keys, elem, ps));
    PairsFrom(keys, elem, ps);
    EntryLies(c.opts, input, pos, depth, u, ext, prev);
    var p := pos + |Enc(u.key)|;
    var ext' := NextExtent(c.opts, ext, pos, p);
    if Decodable(elem, ps[0].val) {
      MapStep(c, keys, unique, elem, done, ps, input, pos, depth, ext, prev);
      var x := Pair(ps[0].key, Back(elem, ps[0].val, Initial(elem)));
      StillDistinct(done, ps, x.val);
      LackingLater(elem, ps);
      MapRefused(c, keys, unique, elem, done + [x], ps[1..], input, p + |Enc(u.val)|, depth, ext',
                 NextKey(c.opts, prev, u.key));
    } else {
      KeyLies(c.opts, input, pos, depth, u.key);
      KeyIsNew(unique, done, ps);
      PairKeyBack(c, keys, unique, elem, done, ps[0].key, |ps|, input, pos, depth, ext, ext');
      PairRefused(c, keys, unique, elem, done, ps[0], |ps| - 1, input, p, depth, ext');
    }
  }

  lemma PairRefused(c: Config, keys: KeyType, unique: bool, elem: Ty, done: seq<Pair>, x: Pair, n: nat,
                    input: seq<byte>, p: nat, depth: nat, ext: Option<Extent>)
    requires Refuses(c, input, elem, x.val) && Lies(c.opts, input, p, depth, Img(elem, x.val)) && ExtentOk(ext, |input|)
    ensures p <= |input| && DecodeEntry(c, keys, unique, elem, done, input, p, depth, Some(n), ext, x.key,
                                        None).status.Some?
  {
    hide DecodeEntries, Decode, Refuses, Lies, Enc, DecodeEntry, StepOf, PushAll, Img, Initial;
    UseRefuses(c, input, elem, x.val, Initial(elem), p, depth);
    EntryIs(c, keys, unique, elem, done, input, p, depth, Some(n), ext, x.key, None);
  }

  // ---- structs ----

  /** A member that is written and read, and whose own value lacks something. */
  ghost predicate Lacking(fields: seq<Field>, ms: seq<Value>, i: nat)
    requires |ms| == |fields|
  {
    i < |fields| && IsWritten(fields[i], ms[i]) && !fields[i].skip && !Decodable(fields[i].ty, ms[i])
  }

  /** A required member that is not written. */
  ghost predicate Absent(fields: seq<Field>, ms: seq<Value>, i: nat)
    requires |ms| == |fields|
  {
    i < |fields| && !IsWritten(fields[i], ms[i]) && !fields[i].skip && fields[i].required
  }

  lemma LackOrAbsent(fields: seq<Field>, ms: seq<Value>)
    requires |ms| == |fields| && !MembersDecodable(fields, ms)
    ensures exists i: nat :: Lacking(fields, ms, i) || Absent(fields, ms, i)
  {
    hide Decodable, IsWritten;
    var i :| 0 <= i < |fields|
             && !(if IsWritten(fields[i], ms[i]) then fields[i].skip || Decodable(fields[i].ty, ms[i])
                  else fields[i].skip || !fields[i].required);
    assert Lacking(fields, ms, i) || Absent(fields, ms, i);
  }

  /** Members decode or are refused. */
  ghost predicate AllSettled(c: Config, input: seq<byte>, fields: seq<Field>, ms: seq<Value>)
    requires |ms| == |fields|
  {
    forall i :: 0 <= i < |fields| && IsWritten(fields[i], ms[i]) && !fields[i].skip
      ==> Settled(c, input, fields[i].ty, ms[i])
  }

  lemma {:induction false} SomethingMissing(fields: seq<Field>, seen: set<nat>, off: nat, i: nat, k: nat)
    requires i <= k < |fields| && !fields[k].skip && k !in seen && fields[k].required
    ensures MissingErrs(fields, seen, off, i) != []
    decreases |fields| - i
  {
    if i < k {
      SomethingMissing(fields, seen, off, i + 1, k);
    }
  }

  /** What is left to refuse a struct from entry `k` on. */
  ghost predicate Doomed(fields: seq<Field>, ms: seq<Value>, idx: seq<nat>, k: nat)
    requires |ms| == |fields|
  {
    (exists j :: k <= j < |idx| && Lacking(fields, ms, idx[j])) || (exists i: nat :: Absent(fields, ms, i))
  }

  lemma AbsentUnseen(fields: seq<Field>, unknown: Unknown, ms: seq<Value>, es: seq<M.Member>, idx: seq<nat>, i: nat)
    requires Laid(fields, unknown, ms, es, idx) && Absent(fields, ms, i)
    ensures i !in SeenAt(fields, idx)
  {
    hide IsWritten, SoundKeys;
    assert forall k :: 0 <= k < |es| ==> PlanAt(fields, ms, unknown.ignore, es[k], idx[k]);
  }

  lemma MemberRefused(c: Config, fields: seq<Field>, unknown: Unknown, off: nat, ms: seq<Value>, es: seq<M.Member>,
                      idx: seq<nat>, seeds: seq<Value>, k: nat, input: seq<byte>, pos: nat, depth: nat,
                      ext: Option<Extent>, prev: Option<seq<byte>>)
    requires !c.collect && Laid(fields, unknown, ms, es, idx) && |seeds| == |fields| && k < |es| && k < |idx|
             && Lacking(fields, ms, idx[k])
    requires Refuses(c, input, fields[idx[k]].ty, ms[idx[k]])
    requires EntriesLie(c.opts, input, pos, depth, EntryTrees(M.EntriesOf(es[k..])), ext, prev)
    ensures pos <= |input| && ExtentOk(ext, |input|)
            && LoopAt(c, fields, unknown, off, ms, idx, seeds, k, input, pos, depth, ext).status.Some?
  {
    hide DecodeMembers, Decode, Back, Refuses, EntriesLie, Lies, Enc, Tree, NextEntry, NextExtent, MemberKeyAt,
         SkipItem, SkipThen, DecodeMember;
    hide FinishStruct, PushAll, ValsAt, SeenAt, SoundKeys, IsWritten, IsSyntax, Plan, M.EntriesOf, EntryTrees,
         Decodable;
    var u := EntryTrees(M.EntriesOf(es[k..]));
    EntriesFrom(es, k);
    EntryLies(c.opts, input, pos, depth, u, ext, prev);
    var p := pos + |Enc(u.key)|;
    KeyLies(c.opts, input, pos, depth, u.key);
    PlanNext(fields, ms, unknown.ignore, es, idx, k);
    var i, done := idx[k], idx[..k];
    var vals, seen := ValsAt(fields, ms, seeds, done), SeenAt(fields, done);
    var left, ext' := Some(|es| - k - 1), NextExtent(c.opts, ext, pos, p);
    NextMember(fields, ms, seeds, done, i);
    FieldKeyAhead(c.opts, fields, i, input, pos);
    MembersStep(c, fields, unknown, off, vals, seen, input, pos, depth, Some(|es| - k), ext);
    UseRefuses(c, input, fields[i].ty, ms[i], seeds[i], p, depth);
    MemberStep(c, fields, unknown, off, vals, seen, input, p, depth, left, ext', i);
  }

  lemma {:induction false} MembersRefused(c: Config, fields: seq<Field>, unknown: Unknown, off: nat, ms: seq<Value>,
                                          es: seq<M.Member>, idx: seq<nat>, seeds: seq<Value>, k: nat,
                                          input: seq<byte>, pos: nat, depth: nat, ext: Option<Extent>,
                                          prev: Option<seq<byte>>)
    requires !c.collect && Laid(fields, unknown, ms, es, idx) && AllSettled(c, input, fields, ms) && |seeds| == |fields|
    requires |ms| == |fields| && k <= |es| == |idx| && Doomed(fields, ms, idx, k)
    requires EntriesLie(c.opts, input, pos, depth, EntryTrees(M.EntriesOf(es[k..])), ext, prev)
    ensures pos <= |input| && ExtentOk(ext, |input|)
            && LoopAt(c, fields, unknown, off, ms, idx, seeds, k, input, pos, depth, ext).status.Some?
    decreases |es| - k
  {
    hide LoopAt, EntriesLie, Lies, Enc, Tree, NextEntry, NextExtent, NextKey, ValsAt, SeenAt, Laid, FinishStruct,
         EntryTrees, M.EntriesOf;
    hide AllSettled, Lacking, Absent, ValueDecodes, Refuses;
    var u := EntryTrees(M.EntriesOf(es[k..]));
    EntriesFrom(es, k);
    if k == |es| {
      NoneLie(c.opts, input, pos, depth, u, ext, prev);
      LoopEnds(c, fields, unknown, off, ms, idx, seeds, input, pos, depth, ext);
      var i: nat :| Absent(fields, ms, i);
      FinishRefuses(c, fields, unknown, off, ms, es, idx, seeds, i, pos);
    } else {
      EntryLies(c.opts, input, pos, depth, u, ext, prev);
      SettledEntry(c, fields, unknown, ms, es, idx, k, input);
      if Lacking(fields, ms, idx[k]) {
        MemberRefused(c, fields, unknown, off, ms, es, idx, seeds, k, input, pos, depth, ext, prev);
      } else {
        MemberBack(c, fields, unknown, off, ms, es, idx, seeds, k, input, pos, depth, ext, prev);
        var p := pos + |Enc(u.key)|;
        MembersRefused(c, fields, unknown, off, ms, es, idx, seeds, k + 1, input, p + |Enc(u.val)|, depth,
                       NextExtent(c.opts, ext, pos, p),
                       NextKey(c.opts, prev, u.key));
      }
    }
  }

  lemma SettledEntry(c: Config, fields: seq<Field>, unknown: Unknown, ms: seq<Value>, es: seq<M.Member>, idx: seq<nat>,
                     k: nat, input: seq<byte>)
    requires Laid(fields, unknown, ms, es, idx) && AllSettled(c, input, fields, ms) && k < |es| == |idx|
    ensures if Lacking(fields, ms, idx[k]) then Refuses(c, input, fields[idx[k]].ty, ms[idx[k]])
            else ValueDecodes(c, fields, ms, idx, k, input)
  {
    hide Refuses, Decodes, Decodable, IsWritten, SoundKeys;
    PlanNext(fields, ms, unknown.ignore, es, idx, k);
  }

  lemma FinishRefuses(c: Config, fields: seq<Field>, unknown: Unknown, off: nat, ms: seq<Value>, es: seq<M.Member>,
                      idx: seq<nat>, seeds: seq<Value>, i: nat, pos: nat)
    requires !c.collect && Laid(fields, unknown, ms, es, idx) && |seeds| == |fields| && Absent(fields, ms, i)
    ensures FinishStruct(c, fields, off, ValsAt(fields, ms, seeds, idx), SeenAt(fields, idx), pos).status.Some?
  {
    hide ValsAt, SeenAt, Laid, IsWritten, WithDefaults;
    AbsentUnseen(fields, unknown, ms, es, idx, i);
    SomethingMissing(fields, SeenAt(fields, idx), off, 0, i);
  }

  lemma ObjectRefused(c: Config, fields: seq<Field>, unknown: Unknown, seed: Value, ms: seq<Value>, es: seq<M.Member>,
                      idx: seq<nat>, input: seq<byte>, pos: nat, depth: nat)
    requires !c.collect && Laid(fields, unknown, ms, es, idx) && AllSettled(c, input, fields, ms)
             && !MembersDecodable(fields, ms)
    requires Lies(c.opts, input, pos, depth, Map(EntryTrees(M.EntriesOf(es))))
    ensures pos <= |input| && DecodeObject(c, fields, unknown, seed, input, pos, depth).status.Some?
  {
    hide DecodeMembers, EntriesLie, Lies, Enc, Tree, OpenContainer, FinishStruct, MembersOf, ValsAt, SeenAt,
         AllSettled, MembersDecodable;
    hide SoundKeys, PlanAt;
    var u := EntryTrees(M.EntriesOf(es));
    EntriesCount(es);
    MapLies(c.opts, input, pos, depth, u);
    var seeds := MembersOf(fields, seed);
    assert es[0..] == es && idx[..0] == [];
    NothingYet(fields, ms, seeds);
    IsDoomed(fields, unknown, ms, es, idx);
    MembersRefused(c, fields, unknown, pos, ms, es, idx, seeds, 0, input, pos + |ShortHead(MAP, u.Length())|,
                   depth + 1, None, None);
  }

  lemma IsDoomed(fields: seq<Field>, unknown: Unknown, ms: seq<Value>, es: seq<M.Member>, idx: seq<nat>)
    requires Laid(fields, unknown, ms, es, idx) && !MembersDecodable(fields, ms)
    ensures Doomed(fields, ms, idx, 0)
  {
    hide Decodable, IsWritten, SoundKeys, MembersDecodable, PlanAt;
    LackOrAbsent(fields, ms);
    var i: nat :| Lacking(fields, ms, i) || Absent(fields, ms, i);
    if Lacking(fields, ms, i) {
      assert i in idx;
      var j :| 0 <= j < |idx| && idx[j] == i;
      assert Lacking(fields, ms, idx[j]);
    }
  }

  // ---- boxed alternatives ----

  lemma ValueRefused(c: Config, t: Ty, v: Value, off: nat, done: Value, have: bool, es: seq<M.Member>, k: nat,
                     input: seq<byte>, pos: nat, depth: nat, ext: Option<Extent>, prev: Option<seq<byte>>)
    requires Boxed(es, t, v) && k < |es| && es[k].key == TextKey(VALUE) && Refuses(c, input, t, v)
    requires EntriesLie(c.opts, input, pos, depth, EntryTrees(M.EntriesOf(es[k..])), ext, prev)
    ensures pos <= |input| && ExtentOk(ext, |input|)
            && BoxLoop(c, t, off, done, have, |es|, k, input, pos, depth, ext).status.Some?
  {
    hide EntriesLie, Lies, Enc, Tree, NextEntry, NextExtent, SkipItem, ExpectText, WellFormed, DecodeBoxed,
         DecodeBoxValue, SkipBoxed;
    hide Decode, Refuses, DocOf, PushAll, VALUE, EntryTrees, M.EntriesOf;
    var u := EntryTrees(M.EntriesOf(es[k..]));
    EntriesFrom(es, k);
    EntryLies(c.opts, input, pos, depth, u, ext, prev);
    var p := pos + |Enc(u.key)|;
    assert BoxedEntry(es[k], t, v);
    KeyLies(c.opts, input, pos, depth, u.key);
    TextAhead(c.opts, input, pos, es[k].key.text);
    BoxKeyStep(c, t, off, done, have, input, pos, depth, Some(|es| - k), ext);
    UseRefuses(c, input, t, v, done, p, depth);
    BoxValueStep(c, t, off, done, input, p, depth, Some(|es| - k - 1), NextExtent(c.opts, ext, pos, p));
  }

  lemma {:induction false} BoxedRefused(c: Config, t: Ty, v: Value, off: nat, done: Value, es: seq<M.Member>, k: nat,
                                        input: seq<byte>, pos: nat, depth: nat, ext: Option<Extent>,
                                        prev: Option<seq<byte>>)
    requires Boxed(es, t, v) && k <= |es| && Refuses(c, input, t, v) && HasValue(es, k)
    requires EntriesLie(c.opts, input, pos, depth, EntryTrees(M.EntriesOf(es[k..])), ext, prev)
    ensures pos <= |input| && ExtentOk(ext, |input|)
            && BoxLoop(c, t, off, done, false, |es|, k, input, pos, depth, ext).status.Some?
    decreases |es| - k
  {
    hide EntriesLie, Lies, Enc, Tree, NextEntry, NextExtent, NextKey, Refuses, Boxed, VALUE, EntryTrees, M.EntriesOf,
         BoxLoop;
    assert k < |es|;
    var u := EntryTrees(M.EntriesOf(es[k..]));
    EntriesFrom(es, k);
    EntryLies(c.opts, input, pos, depth, u, ext, prev);
    ValueAhead(es, t, v, k);
    if es[k].key == TextKey(VALUE) {
      ValueRefused(c, t, v, off, done, false, es, k, input, pos, depth, ext, prev);
    } else {
      OtherSkipped(c, t, v, off, done, false, es, k, input, pos, depth, ext, prev);
      var p := pos + |Enc(u.key)|;
      BoxedRefused(c, t, v, off, done, es, k + 1, input, p + |Enc(u.val)|, depth, NextExtent(c.opts, ext, pos, p),
                   NextKey(c.opts, prev, u.key));
    }
  }

  lemma BoxRefused(c: Config, t: Ty, v: Value, es: seq<M.Member>, input: seq<byte>, pos: nat, depth: nat)
    requires Boxed(es, t, v) && HasValue(es, 0) && Refuses(c, input, t, v)
    requires Lies(c.opts, input, pos, depth, Map(EntryTrees(M.EntriesOf(es))))
    ensures pos <= |input| && DecodeBox(c, t, input, pos, depth).status.Some?
  {
    hide EntriesLie, Lies, Enc, Tree, OpenContainer, DecodeBoxed, Refuses, Boxed, HasValue, Initial;
    var u := EntryTrees(M.EntriesOf(es));
    EntriesCount(es);
    MapLies(c.opts, input, pos, depth, u);
    assert es[0..] == es;
    BoxedRefused(c, t, v, pos, Initial(t), es, 0, input, pos + |ShortHead(MAP, u.Length())|, depth + 1, None, None);
  }

  // ---- values ----

  lemma EverywhereRefused(c: Config, input: seq<byte>, t: Ty, v: Value)
    requires forall seed: Value, pos: nat, depth: nat ::
               Lies(c.opts, input, pos, depth, Img(t, v)) ==> RefusedAt(c, input, t, seed, pos, depth)
    ensures Refuses(c, input, t, v)
  {
    hide Lies, RefusedAt, Img;
  }

  /** What is null on the wire lacks nothing. */
  lemma {:induction false} NullLacksNothing(t: Ty, v: Value)
    requires Fit(t, v) && IsNull(t, v)
    ensures Decodable(t, v)
    decreases v
  {
    match (t, v)
    case (TOpt(elem), VSome(w)) => NullLacksNothing(elem, w);
    case (TWrap(_, elem), VStruct(ms)) => NullLacksNothing(elem, ms[0]);
    case _ =>
  }

  lemma OptRefused(c: Config, elem: Ty, w: Value, input: seq<byte>)
    requires Sound(elem) && Fit(elem, w) && !Decodable(elem, w) && Refuses(c, input, elem, w)
    ensures Refuses(c, input, TOpt(elem), VSome(w))
  {
    hide Lies, Img, Refuses, Sound, Fit, Decodable, IsNull, PeekKind, Initial;
    if IsNull(elem, w) {
      NullLacksNothing(elem, w);
    }
    forall seed: Value, pos: nat, depth: nat | Lies(c.opts, input, pos, depth, Img(TOpt(elem), VSome(w)))
      ensures RefusedAt(c, input, TOpt(elem), seed, pos, depth)
    {
      OptImg(elem, w, seed);
      NullAhead(c.opts, elem, w, input, pos, depth);
      UseRefuses(c, input, elem, w, Initial(elem), pos, depth);
    }
    EverywhereRefused(c, input, TOpt(elem), VSome(w));
  }

  lemma SeqIsRefused(c: Config, elem: Ty, s: seq<Value>, input: seq<byte>)
    requires (forall i :: 0 <= i < |s| ==> Settled(c, input, elem, s[i])) && exists i ::
                                                                              0 <= i < |s| && !Decodable(elem, s[i])
    ensures Refuses(c, input, TSeq(elem), VSeq(s))
  {
    hide Lies, Enc, Settled, OpenContainer, DecodeElems, ItemsLie, SeqDocs, Decodable;
    forall seed: Value, pos: nat, depth: nat | Lies(c.opts, input, pos, depth, Img(TSeq(elem), VSeq(s)))
      ensures RefusedAt(c, input, TSeq(elem), seed, pos, depth)
    {
      var u := Trees(SeqDocs(elem, s));
      SeqLength(elem, s);
      ArrayLies(c.opts, input, pos, depth, u);
      SeqRefused(c, elem, [], s, input, pos + |ShortHead(ARRAY, |s|)|, depth + 1);
    }
    EverywhereRefused(c, input, TSeq(elem), VSeq(s));
  }

  lemma TupleIsRefused(c: Config, elems: seq<Ty>, s: seq<Value>, input: seq<byte>)
    requires |elems| == |s| && forall i :: 0 <= i < |s| ==> Settled(c, input, elems[i], s[i])
    requires exists i :: 0 <= i < |s| && !Decodable(elems[i], s[i])
    ensures Refuses(c, input, TTuple(elems), VSeq(s))
  {
    hide Lies, Enc, Settled, OpenContainer, DecodeItems, ItemsLie, TupleDocs, BackItems, Places, ItemsOf, Decodable;
    assert elems[0..] == elems && s[0..] == s;
    forall seed: Value, pos: nat, depth: nat | Lies(c.opts, input, pos, depth, Img(TTuple(elems), VSeq(s)))
      ensures RefusedAt(c, input, TTuple(elems), seed, pos, depth)
    {
      var u := Trees(TupleDocs(elems, s));
      TupleLength(elems, s);
      ArrayLies(c.opts, input, pos, depth, u);
      var seeds := ItemsOf(elems, seed);
      AllPlaces(elems, s, seeds);
      TupleRefused(c, elems, pos, s, seeds, 0, input, pos + |ShortHead(ARRAY, |s|)|, depth + 1);
    }
    EverywhereRefused(c, input, TTuple(elems), VSeq(s));
  }

  lemma MapIsRefused(c: Config, keys: KeyType, unique: bool, elem: Ty, ps: seq<Pair>, input: seq<byte>)
    requires (keys.IntKeys? ==> SoundRange(keys.range)) && DistinctPairs(ps)
    requires forall i :: 0 <= i < |ps| ==> FitKey(keys, ps[i].key) && Settled(c, input, elem, ps[i].val)
    requires exists i :: 0 <= i < |ps| && !Decodable(elem, ps[i].val)
    ensures Refuses(c, input, TMap(keys, unique, elem), VMap(ps))
  {
    hide Lies, Enc, Settled, OpenContainer, DecodeEntries, EntriesLie, PairDocs, EntryTrees, SortPairs, FitKey,
         SoundRange, Decodable, Img;
    hide DistinctPairs;
    MapTree(keys, unique, elem, ps);
    SortApart(ps);
    var sorted := SortPairs(ps);
    forall i | 0 <= i < |sorted|
      ensures FitKey(keys, sorted[i].key) && Settled(c, input, elem, sorted[i].val)
    {
      assert sorted[i] in ps;
    }
    var i :| 0 <= i < |ps| && !Decodable(elem, ps[i].val);
    assert ps[i] in sorted;
    assert [] + sorted == sorted;
    forall seed: Value, pos: nat, depth: nat | Lies(c.opts, input, pos, depth, Img(TMap(keys, unique, elem), VMap(ps)))
      ensures RefusedAt(c, input, TMap(keys, unique, elem), seed, pos, depth)
    {
      var u := EntryTrees(PairDocs(keys, elem, sorted));
      MapLies(c.opts, input, pos, depth, u);
      MapRefused(c, keys, unique, elem, [], sorted, input, pos + |ShortHead(MAP, u.Length())|, depth + 1, None, None);
    }
    EverywhereRefused(c, input, TMap(keys, unique, elem), VMap(ps));
  }

  lemma WrapRefused(c: Config, ident: seq<byte>, elem: Ty, ms: seq<Value>, input: seq<byte>)
    requires |ms| == 1 && Refuses(c, input, elem, ms[0])
    ensures Refuses(c, input, TWrap(ident, elem), VStruct(ms))
  {
    hide Lies, Refuses, Tree, InnerOf, PushAll;
    forall seed: Value, pos: nat, depth: nat | Lies(c.opts, input, pos, depth, Img(TWrap(ident, elem), VStruct(ms)))
      ensures RefusedAt(c, input, TWrap(ident, elem), seed, pos, depth)
    {
      UseRefuses(c, input, elem, ms[0], InnerOf(elem, seed), pos, depth);
    }
    EverywhereRefused(c, input, TWrap(ident, elem), VStruct(ms));
  }

  lemma StructRefused(c: Config, fields: seq<Field>, unknown: Unknown, ms: seq<Value>, input: seq<byte>)
    requires !c.collect && |ms| == |fields| && SoundKeys(fields) && M.GoodMembers(Members(fields, ms))
             && !MembersDecodable(fields, ms)
    requires AllSettled(c, input, fields, ms)
    ensures Refuses(c, input, TStruct(fields, unknown), VStruct(ms))
  {
    hide Lies, AllSettled, DecodeObject, EntryTrees, M.EntriesOf, M.Emitted, M.Ordered, Members, MembersDecodable,
         SoundKeys, Plan, M.GoodMembers;
    var es := M.Emitted(M.Ordered(Members(fields, ms)));
    var idx := StructPlan(fields, unknown.ignore, ms);
    forall seed: Value, pos: nat, depth: nat | Lies(c.opts, input, pos, depth,
                                                    Img(TStruct(fields, unknown), VStruct(ms)))
      ensures RefusedAt(c, input, TStruct(fields, unknown), seed, pos, depth)
    {
      ObjectRefused(c, fields, unknown, seed, ms, es, idx, input, pos, depth);
    }
    EverywhereRefused(c, input, TStruct(fields, unknown), VStruct(ms));
  }

  lemma VariantFails(c: Config, tag: seq<byte>, alts: seq<(seq<byte>, Ty)>, i: nat, seed: Value, input: seq<byte>,
                     pos: nat, depth: nat)
    requires pos <= |input| && i < |alts| && FindAlternative(c.opts, tag, alts, input, pos, depth) == Alternative(i)
    requires var t := alts[i].1;
             if t.TStruct? then DecodeObject(c, t.fields, t.unknown.(ignore := tag), Initial(t), input, pos,
                                             depth).status.Some?
             else DecodeBox(c, t, input, pos, depth).status.Some?
    ensures Decode(c, TVariant(tag, alts), seed, input, pos, depth).status.Some?
  {
    hide DecodeBox, DecodeObject, FindAlternative, Initial;
    assert Decode(c, TVariant(tag, alts), seed, input, pos, depth)
           == DecodeVariant(c, tag, alts, seed, input, pos, depth);
  }

  lemma NoVariant(c: Config, tag: seq<byte>, alts: seq<(seq<byte>, Ty)>, seed: Value, input: seq<byte>, pos: nat,
                  depth: nat)
    requires pos <= |input| && FindAlternative(c.opts, tag, alts, input, pos, depth).NoAlternative?
    ensures Decode(c, TVariant(tag, alts), seed, input, pos, depth).status.Some?
  {
    hide DecodeBox, DecodeObject, FindAlternative, Initial;
    assert Decode(c, TVariant(tag, alts), seed, input, pos, depth)
           == DecodeVariant(c, tag, alts, seed, input, pos, depth);
  }

  lemma TaggedRefused(c: Config, tag: seq<byte>, alts: seq<(seq<byte>, Ty)>, i: nat, ms: seq<Value>, input: seq<byte>)
    requires !c.collect && tag != [] && SoundName(tag) && i < |alts| && SoundAlt(tag, alts, i) && alts[i].1.TStruct?
    requires var fields := alts[i].1.fields;
             && |ms| == |fields| && SoundKeys(fields) && FineMembers(W.Options(0, true), Members(fields, ms))
             && (!TextKeyed(fields, ms) || !MembersDecodable(fields, ms)) && AllSettled(c, input, fields, ms)
    ensures Refuses(c, input, TVariant(tag, alts), VAlt(i, VStruct(ms)))
  {
    hide Lies, AllSettled, DecodeObject, EntryTrees, M.EntriesOf, M.Emitted, M.Ordered, Members, MembersDecodable,
         SoundKeys, Plan, M.GoodMembers;
    hide FineMembers, FindAlternative, TaggedEntries, Tagged, HasTag, HasIntKey, TextKeyed, Initial, FindAlt,
         WellFormed, Sound, Enc, Decode;
    var name, t := alts[i].0, alts[i].1;
    var fields := t.fields;
    TaggedFacts(tag, name, fields, ms);
    TaggedTree(tag, name, fields, ms);
    var es := TaggedEntries(tag, name, fields, ms);
    var idx := PlanOf(fields, ms, tag, [M.Discriminator(tag, name)], es);
    assert Img(TVariant(tag, alts), VAlt(i, VStruct(ms))) == Map(EntryTrees(M.EntriesOf(es)));
    forall seed: Value, pos: nat, depth: nat | Lies(c.opts, input, pos, depth,
                                                    Img(TVariant(tag, alts), VAlt(i, VStruct(ms))))
      ensures RefusedAt(c, input, TVariant(tag, alts), seed, pos, depth)
    {
      if TextKeyed(fields, ms) {
        AlternativeFound(c.opts, tag, alts, i, es, input, pos, depth);
        ObjectRefused(c, fields, t.unknown.(ignore := tag), Initial(t), ms, es, idx, input, pos, depth);
        VariantFails(c, tag, alts, i, seed, input, pos, depth);
      } else {
        AlternativeRefused(c.opts, tag, alts, name, es, input, pos, depth);
        NoVariant(c, tag, alts, seed, input, pos, depth);
      }
    }
    EverywhereRefused(c, input, TVariant(tag, alts), VAlt(i, VStruct(ms)));
  }

  lemma BoxIsRefused(c: Config, tag: seq<byte>, alts: seq<(seq<byte>, Ty)>, i: nat, w: Value, input: seq<byte>)
    requires SoundName(tag) && i < |alts| && SoundAlt(tag, alts, i) && !alts[i].1.TStruct?
             && Fine(W.Options(0, true), DocOf(alts[i].1, w))
    requires Refuses(c, input, alts[i].1, w)
    ensures Refuses(c, input, TVariant(tag, alts), VAlt(i, w))
  {
    hide Lies, Enc, Refuses, DecodeBox, EntryTrees, M.EntriesOf, M.Ordered, FindAlternative, Tagged, HasTag, HasIntKey,
         Initial, FindAlt, WellFormed, Sound;
    hide Boxed, HasValue, Fine, BoxEntries, BoxMembers, M.GoodMembers, SortEntries, DocOf, Decode, Img;
    var name, t := alts[i].0, alts[i].1;
    var s := BoxMembers(tag, name, DocOf(t, w));
    BoxFine(W.Options(0, true), tag, name, DocOf(t, w));
    FineIsGood(W.Options(0, true), s);
    SortedMembers(s);
    var es := M.Ordered(s);
    BoxFacts(tag, name, t, w);
    BoxTree(tag, alts, i, w);
    forall seed: Value, pos: nat, depth: nat | Lies(c.opts, input, pos, depth, Img(TVariant(tag, alts), VAlt(i, w)))
      ensures RefusedAt(c, input, TVariant(tag, alts), seed, pos, depth)
    {
      AlternativeFound(c.opts, tag, alts, i, es, input, pos, depth);
      BoxRefused(c, t, w, es, input, pos, depth);
      VariantFails(c, tag, alts, i, seed, input, pos, depth);
    }
    EverywhereRefused(c, input, TVariant(tag, alts), VAlt(i, w));
  }

  // ---- every value ----

  lemma {:induction false} IsSettled(c: Config, t: Ty, v: Value, input: seq<byte>)
    requires !c.collect && Sound(t) && Fit(t, v)
    ensures Settled(c, input, t, v)
    decreases v, 4
  {
    hide Decodes, Refuses, Sound, Fit, Decodable;
    if Decodable(t, v) {
      TypedDecodes(c, t, v, input);
    } else {
      TypedRefuses(c, t, v, input);
    }
  }

  /** A value that lacks a required member somewhere is refused wherever its encoding lies. */
  lemma {:induction false} TypedRefuses(c: Config, t: Ty, v: Value, input: seq<byte>)
    requires !c.collect && Sound(t) && Fit(t, v) && !Decodable(t, v)
    ensures Refuses(c, input, t, v)
    decreases v, 3
  {
    hide Refuses, SoundRange, FitKey, SoundKeys, MembersDecodable, FineMembers, Members, Settled, AllSettled, Fine,
         WellFormed, FindAlt, DocOf;
    match (t, v)
    case (TOpt(elem), VSome(w)) =>
      TypedRefuses(c, elem, w, input);
      OptRefused(c, elem, w, input);
    case (TSeq(elem), VSeq(s)) =>
      forall i | 0 <= i < |s|
        ensures Settled(c, input, elem, s[i])
      {
        IsSettled(c, elem, s[i], input);
      }
      SeqIsRefused(c, elem, s, input);
    case (TTuple(elems), VSeq(s)) =>
      forall i | 0 <= i < |s|
        ensures Settled(c, input, elems[i], s[i])
      {
        IsSettled(c, elems[i], s[i], input);
      }
      TupleIsRefused(c, elems, s, input);
    case (TMap(keys, unique, elem), VMap(ps)) =>
      PairsSettled(c, keys, elem, ps, input);
      MapIsRefused(c, keys, unique, elem, ps, input);
    case (TWrap(ident, elem), VStruct(ms)) =>
      TypedRefuses(c, elem, ms[0], input);
      WrapRefused(c, ident, elem, ms, input);
    case (TStruct(fields, unknown), VStruct(ms)) =>
      FieldsSettled(c, fields, ms, input);
      FieldsFine(W.Options(0, true), fields, ms);
      FineIsGood(W.Options(0, true), Members(fields, ms));
      StructRefused(c, fields, unknown, ms, input);
    case (TVariant(tag, alts), VAlt(i, w)) =>
      assert SoundAlt(tag, alts, i);
      if alts[i].1.TStruct? {
        StructSound(alts[i].1, w);
        FieldsSettled(c, alts[i].1.fields, w.members, input);
        FieldsFine(W.Options(0, true), alts[i].1.fields, w.members);
        TaggedRefused(c, tag, alts, i, w.members, input);
      } else {
        TypedRefuses(c, alts[i].1, w, input);
        TypedFine(W.Options(0, true), alts[i].1, w);
        BoxIsRefused(c, tag, alts, i, w, input);
      }
  }

  lemma {:induction false} PairsSettled(c: Config, keys: KeyType, elem: Ty, ps: seq<Pair>, input: seq<byte>)
    requires !c.collect && Sound(elem) && forall i :: 0 <= i < |ps| ==> FitPair(keys, elem, ps, i)
    ensures forall i :: 0 <= i < |ps| ==> FitKey(keys, ps[i].key) && Settled(c, input, elem, ps[i].val)
    ensures forall i :: 0 <= i < |ps| ==> (PairDecodable(elem, ps, i) <==> Decodable(elem, ps[i].val))
    decreases ps, 0
  {
    hide Settled, Sound, Fit, Decodable, FitKey;
    forall i | 0 <= i < |ps|
      ensures FitKey(keys, ps[i].key) && Settled(c, input, elem, ps[i].val)
    {
      assert FitPair(keys, elem, ps, i);
      assert ps decreases to ps[i];
      IsSettled(c, elem, ps[i].val, input);
    }
  }

  lemma {:induction false} FieldsSettled(c: Config, fields: seq<Field>, ms: seq<Value>, input: seq<byte>)
    requires !c.collect && SoundStruct(fields) && FitMembers(fields, ms)
    ensures AllSettled(c, input, fields, ms)
    decreases ms, 0
  {
    hide Settled, Sound, Fit, SoundKeys, IsWritten;
    forall i | 0 <= i < |fields|
      ensures Settled(c, input, fields[i].ty, ms[i])
    {
      IsSettled(c, fields[i].ty, ms[i], input);
    }
  }

  // ---- the theorem ----

  /** The bytes of a value, and what decoding them from the start comes to. */
  lemma {:induction false} FromBytes(wo: W.Options, c: Config, t: Ty, v: Value) returns (b: seq<byte>)
    requires !c.collect && Sound(t) && Fit(t, v) && Fits(Img(t, v), wo.maxDepth) && Fits(Img(t, v), c.opts.maxDepth)
    ensures Good(DocOf(t, v)) && W.Run(wo, W.Out([]), Calls(DocOf(t, v))) == W.Next(W.Out(b)) && StartOf(b) == 0
    ensures var r := Decode(c, t, Initial(t), b, 0, 0);
            if Decodable(t, v) then r == Res(None, Back(t, v, Initial(t)), |b|, []) else r.status.Some?
  {
    hide Sound, Fit, Decodable, DocOf, Fits, Enc, W.Run, Calls, Img, Decode, Back, Valid, Canonical, Initial,
         ParseHead, IsNull, PeekKind, Refuses;
    hide Good, Clean, Distinct, InKeyOrder;
    TypedFine(wo, t, v);
    b := TypedWritten(wo, t, v);
    assert Lies(c.opts, b, 0, 0, Img(t, v));
    NullAhead(c.opts, t, v, b, 0, 0);
    if Decodable(t, v) {
      FromStart(c, t, v, b);
    } else {
      TypedRefuses(c, t, v, b);
      UseRefuses(c, b, t, v, Initial(t), 0, 0);
    }
  }

  /** Exactly when a typed value survives: its encoding is decoded if and only if every required member is written and
      no alternative with a discriminator writes an integer key, and decoded to the value itself, with its maps in the
      order of their keys, if and only if moreover no optional holds a null and every member that is not written is
      filled in with what it was. */
  lemma {:induction false} TypedRoundTripExact(wo: W.Options, c: Config, t: Ty, v: Value) returns (b: seq<byte>)
    requires Sound(t) && Fit(t, v) && Fits(Img(t, v), wo.maxDepth) && Fits(Img(t, v), c.opts.maxDepth)
    ensures W.Run(wo, W.Out([]), Calls(DocOf(t, v))) == W.Next(W.Out(b))
    ensures DecodeOne(c, t, b).Answer? <==> Decodable(t, v)
    ensures DecodeOne(c, t, b) == Answer(Arranged(v)) <==> Decodable(t, v) && Returns(t, v, Initial(t))
  {
    hide Sound, Fit, Decodable, DocOf, Fits, W.Run, Calls, Img, Decode, Back, Returns, Arranged, Initial, StartOf, Good;
    b := FromBytes(wo, FailFast(c), t, v);
    BackExact(t, v, Initial(t));
  }

  /** The same through the classes: the writer, then the decoder on the writer's bytes. */
  method Roundabout(wo: W.Options, c: Config, t: Ty, v: Value) returns (b: seq<byte>, st: Option<Failure>, w: Value)
    requires !c.collect && Sound(t) && Fit(t, v) && Fits(Img(t, v), wo.maxDepth) && Fits(Img(t, v), c.opts.maxDepth)
    ensures st.None? <==> Decodable(t, v)
    ensures st.None? && w == Arranged(v) <==> Decodable(t, v) && Returns(t, v, Initial(t))
  {
    hide Sound, Fit, Decodable, DocOf, Fits, W.Run, Calls, Img, Decode, Back, Returns, Arranged, Initial, StartOf, Good;
    ghost var bytes := FromBytes(wo, c, t, v);
    BackExact(t, v, Initial(t));
    var writer := new CborWriter.Writer(wo, []);
    var thrown := Encoding.PerformDoc(writer, DocOf(t, v));
    assert thrown == None && writer.State() == W.Out(bytes);
    b := writer.out;
    var builder := new Build.Builder(c, b);
    st, w := builder.DecodeValue(t, Initial(t));
  }
}
