/** Decoding what structs were written as: the member loop over entries in any order, a discriminator among them. */
module TypedStructs {
  import opened Bytes
  import opened Head
  import opened Utf8
  import opened Item
  import opened KeyOrder
  import opened SkipSpec
  import opened ReadSpec
  import opened BuildSpec
  import opened BuildSteps
  import opened WriterTrees
  import opened Typed
  import opened TypedItems
  import opened TypedRead
  import M = StructMaps

  // ---- keys ----

  lemma {:induction false} NoKey(fields: seq<Field>, key: int)
    requires FindKey(fields, key).None?
    ensures forall i :: 0 <= i < |fields| ==> fields[i].key != Some(key)
    decreases |fields|
  {
    if fields != [] {
      NoKey(fields[..|fields| - 1], key);
      assert forall i :: 0 <= i < |fields| - 1 ==> fields[..|fields| - 1][i] == fields[i];
    }
  }

  /** The tree of a member's key. */
  function KeyOf(k: Key): Item {
    LeafItem(M.KeyCallOf(k))
  }

  /** The key of a member selects that member. */
  lemma FieldKeyAhead(o: Options, fields: seq<Field>, i: nat, input: seq<byte>, pos: nat)
    requires i < |fields| && SoundKeys(fields) && At(input, pos, Enc(KeyOf(FieldKey(fields[i]))))
    ensures var k := MemberKeyAt(o, fields, input, pos);
            pos <= |input| && k.FoundKey? && k.member == Some(i) && k.end == pos + |Enc(KeyOf(FieldKey(fields[i])))|
  {
    hide Enc, ExpectUInt, ExpectSInt, ExpectText, PeekKind, WellFormed, KeysApart, Answers;
    var f := fields[i];
    if f.key.Some? {
      IntAhead(o, input, pos, f.key.value);
      IntKeySelects(fields, i);
    } else {
      TextAhead(o, input, pos, f.name);
      NameSelects(fields, i);
    }
  }

  lemma IntKeySelects(fields: seq<Field>, i: nat)
    requires i < |fields| && SoundKeys(fields) && fields[i].key.Some?
    ensures AnyIntKeys(fields) && FindKey(fields, fields[i].key.value) == Some(i)
  {
    hide SoundKey, Answers;
    var key := fields[i].key.value;
    if FindKey(fields, key).None? {
      NoKey(fields, key);
    } else {
      var j := FindKey(fields, key).value;
      assert j != i ==> KeysApart(fields[i], fields[j]);
    }
  }

  lemma NameSelects(fields: seq<Field>, i: nat)
    requires i < |fields| && SoundKeys(fields) && fields[i].key.None?
    ensures FindName(fields, fields[i].name) == Some(i)
  {
    hide SoundKey;
    assert Answers(fields[i], fields[i].name);
    var j := FindName(fields, fields[i].name);
    assert j.Some? && j.value != i ==> KeysApart(fields[i], fields[j.value]);
  }

  /** The discriminator selects no member. */
  lemma TagKeyAhead(o: Options, fields: seq<Field>, tag: seq<byte>, input: seq<byte>, pos: nat)
    requires SoundName(tag) && (forall i :: 0 <= i < |fields| ==> !Answers(fields[i], tag))
             && At(input, pos, Enc(KeyOf(TextKey(tag))))
    ensures pos <= |input| && MemberKeyAt(o, fields, input, pos)
            == FoundKey(None, KeyText(tag), pos + |Enc(KeyOf(TextKey(tag)))|)
  {
    hide Enc, ExpectUInt, ExpectSInt, ExpectText, PeekKind, WellFormed, Answers;
    TextAhead(o, input, pos, tag);
  }

  // ---- which entry is which member ----

  /** Entry `e` is member `i`, which is written, or the discriminator, for `i` behind the last member. */
  ghost predicate PlanAt(fields: seq<Field>, ms: seq<Value>, tag: seq<byte>, e: M.Member, i: nat)
    requires |ms| == |fields|
  {
    if i < |fields| then e == Members(fields, ms)[i] && IsWritten(fields[i], ms[i])
    else
      && i == |fields| && tag != [] && SoundName(tag) && e.key == TextKey(tag)
      && forall j :: 0 <= j < |fields| ==> !Answers(fields[j], tag)
  }

  /** The entries are the written members, each once, in some order. */
  ghost predicate Plan(fields: seq<Field>, ms: seq<Value>, tag: seq<byte>, es: seq<M.Member>, idx: seq<nat>)
    requires |ms| == |fields|
  {
    && |idx| == |es|
    && (forall k :: 0 <= k < |es| ==> PlanAt(fields, ms, tag, es[k], idx[k]))
    && (forall j, k :: 0 <= j < k < |es| ==> idx[j] != idx[k])
    && (forall i :: 0 <= i < |fields| && IsWritten(fields[i], ms[i]) ==> i in idx)
  }

  /** The members when the entries in `done` have been decoded. */
  function ValsAt(fields: seq<Field>, ms: seq<Value>, seeds: seq<Value>, done: seq<nat>): (r: seq<Value>)
    requires |ms| == |fields| == |seeds|
    ensures |r| == |fields|
  {
    seq(|fields|, i requires 0 <= i < |fields| =>
          if i in done && !fields[i].skip then Back(fields[i].ty, ms[i], seeds[i]) else seeds[i])
  }

  function SeenAt(fields: seq<Field>, done: seq<nat>): set<nat> {
    set i | i in done && i < |fields| && !fields[i].skip
  }

  lemma NextMember(fields: seq<Field>, ms: seq<Value>, seeds: seq<Value>, done: seq<nat>, i: nat)
    requires |ms| == |fields| == |seeds| && i <= |fields| && i !in done
    ensures i < |fields| && !fields[i].skip ==>
              && ValsAt(fields, ms, seeds, done)[i] == seeds[i] && i !in SeenAt(fields, done)
              && ValsAt(fields, ms, seeds, done + [i])
                == ValsAt(fields, ms, seeds, done)[i := Back(fields[i].ty, ms[i], seeds[i])]
              && SeenAt(fields, done + [i]) == SeenAt(fields, done) + {i}
    ensures i == |fields| || fields[i].skip ==>
              ValsAt(fields, ms, seeds, done + [i]) == ValsAt(fields, ms, seeds, done)
                && SeenAt(fields, done + [i]) == SeenAt(fields, done)
  {
    hide Back;
    assert forall k :: k in done + [i] <==> k in done || k == i;
  }

  // ---- the end of the loop ----

  lemma {:induction false} NothingMissing(fields: seq<Field>, seen: set<nat>, off: nat, i: nat)
    requires i <= |fields| && forall k :: i <= k < |fields| ==> fields[k].skip || k in seen || !fields[k].required
    ensures MissingErrs(fields, seen, off, i) == []
    decreases |fields| - i
  {
    if i < |fields| {
      NothingMissing(fields, seen, off, i + 1);
    }
  }

  lemma Finished(c: Config, fields: seq<Field>, ms: seq<Value>, tag: seq<byte>, es: seq<M.Member>, idx: seq<nat>,
                 seeds: seq<Value>, off: nat, pos: nat)
    requires |ms| == |fields| == |seeds| && Plan(fields, ms, tag, es, idx) && MembersDecodable(fields, ms)
    ensures FinishStruct(c, fields, off, ValsAt(fields, ms, seeds, idx), SeenAt(fields, idx), pos)
         == Res(None, VStruct(BackMembers(fields, ms, seeds)), pos, [])
  {
    hide Back, Decodable, IsWritten;
    var seen, vals := SeenAt(fields, idx), ValsAt(fields, ms, seeds, idx);
    forall i | 0 <= i < |fields|
      ensures i in idx <==> IsWritten(fields[i], ms[i])
      ensures WithDefaults(fields, seen, vals)[i] == BackMembers(fields, ms, seeds)[i]
    {
      if i in idx {
        var k :| 0 <= k < |idx| && idx[k] == i;
        assert PlanAt(fields, ms, tag, es[k], idx[k]);
      }
    }
    assert WithDefaults(fields, seen, vals) == BackMembers(fields, ms, seeds);
    NothingMissing(fields, seen, off, 0);
  }

  // ---- the loop ----

  lemma {:induction false} EntriesCount(es: seq<M.Member>)
    ensures EntryTrees(M.EntriesOf(es)).Length() == |es|
    decreases |es|
  {
    hide Tree;
    if es != [] {
      EntriesCount(es[1..]);
    }
  }

  /** The entries from the `k`th on begin with that one. */
  lemma EntriesFrom(es: seq<M.Member>, k: nat)
    requires k <= |es|
    ensures var u := EntryTrees(M.EntriesOf(es[k..]));
            && u.Length() == |es| - k
            && (if k == |es| then u.NoEntries?
                else u == Entries(KeyOf(es[k].key), Tree(es[k].val), EntryTrees(M.EntriesOf(es[k + 1..]))))
  {
    hide Tree, LeafItem, M.KeyCallOf;
    EntriesCount(es[k..]);
    if k < |es| {
      assert es[k..][1..] == es[k + 1..];
    }
  }

  /** What a member loop works on. */
  ghost predicate Laid(fields: seq<Field>, unknown: Unknown, ms: seq<Value>, es: seq<M.Member>, idx: seq<nat>) {
    |ms| == |fields| && SoundKeys(fields) && Plan(fields, ms, unknown.ignore, es, idx)
  }

  ghost predicate Ready(c: Config, fields: seq<Field>, unknown: Unknown, ms: seq<Value>, es: seq<M.Member>,
                        idx: seq<nat>, input: seq<byte>) {
    && Laid(fields, unknown, ms, es, idx)
    && forall i ::
         0 <= i < |fields| && IsWritten(fields[i], ms[i]) && !fields[i].skip ==> Decodes(c, input, fields[i].ty, ms[i])
  }

  /** The member of entry `k`, if it is one that is read, decodes. */
  ghost predicate ValueDecodes(c: Config, fields: seq<Field>, ms: seq<Value>, idx: seq<nat>, k: nat, input: seq<byte>)
    requires k < |idx| && |ms| == |fields|
  {
    idx[k] < |fields| && !fields[idx[k]].skip ==> Decodes(c, input, fields[idx[k]].ty, ms[idx[k]])
  }

  /** The member loop in front of entry `k`. */
  ghost function LoopAt(c: Config, fields: seq<Field>, unknown: Unknown, off: nat, ms: seq<Value>, idx: seq<nat>,
                        seeds: seq<Value>, k: nat, input: seq<byte>, pos: nat, depth: nat, ext: Option<Extent>): Res
    requires |ms| == |fields| == |seeds| && k <= |idx| && pos <= |input| && ExtentOk(ext, |input|)
  {
    DecodeMembers(c, fields, unknown, off, ValsAt(fields, ms, seeds, idx[..k]), SeenAt(fields, idx[..k]), input, pos,
                  depth,
                  Some(|idx| - k), ext)
  }

  /** One entry of a struct. */
  lemma MemberBack(c: Config, fields: seq<Field>, unknown: Unknown, off: nat, ms: seq<Value>, es: seq<M.Member>,
                   idx: seq<nat>, seeds: seq<Value>, k: nat, input: seq<byte>, pos: nat, depth: nat,
                   ext: Option<Extent>, prev: Option<seq<byte>>)
    requires Laid(fields, unknown, ms, es, idx) && |seeds| == |fields| && k < |es|
             && ValueDecodes(c, fields, ms, idx, k, input)
    requires EntriesLie(c.opts, input, pos, depth, EntryTrees(M.EntriesOf(es[k..])), ext, prev)
    ensures var u := EntryTrees(M.EntriesOf(es[k..]));
            var p := pos + |Enc(u.key)|;
            var q := p + |Enc(u.val)|;
            && pos < p < q <= |input| && ExtentOk(ext, |input|) && ExtentOk(NextExtent(c.opts, ext, pos, p), |input|)
            && LoopAt(c, fields, unknown, off, ms, idx, seeds, k, input, pos, depth, ext)
               == LoopAt(c, fields, unknown, off, ms, idx, seeds, k + 1, input, q, depth,
                         NextExtent(c.opts, ext, pos, p))
  {
    hide DecodeMembers, Decode, Back, Decodes, EntriesLie, Lies, Enc, Tree, NextEntry, NextExtent, MemberKeyAt,
         SkipItem, SkipThen;
    hide DecodeMember, FinishStruct, Also, PushAll, ValsAt, SeenAt, SoundKeys, IsWritten, IsSyntax, Plan;
    hide M.EntriesOf, EntryTrees;
    var u := EntryTrees(M.EntriesOf(es[k..]));
    EntriesFrom(es, k);
    EntryLies(c.opts, input, pos, depth, u, ext, prev);
    var p := pos + |Enc(u.key)|;
    KeyLies(c.opts, input, pos, depth, u.key);
    PlanNext(fields, ms, unknown.ignore, es, idx, k);
    var i, done := idx[k], idx[..k];
    var vals, seen := ValsAt(fields, ms, seeds, done), SeenAt(fields, done);
    NextMember(fields, ms, seeds, done, i);
    MembersStep(c, fields, unknown, off, vals, seen, input, pos, depth, Some(|es| - k), ext);
    if i == |fields| {
      TagKeyAhead(c.opts, fields, unknown.ignore, input, pos);
      SkipStep(c, fields, unknown, off, vals, seen, input, p, depth, Some(|es| - k - 1),
               NextExtent(c.opts, ext, pos, p));
    } else {
      FieldKeyAhead(c.opts, fields, i, input, pos);
      ValueBack(c, fields, unknown, off, ms, idx, seeds, k, input, p, depth, NextExtent(c.opts, ext, pos, p));
    }
  }

  lemma PlanNext(fields: seq<Field>, ms: seq<Value>, tag: seq<byte>, es: seq<M.Member>, idx: seq<nat>, k: nat)
    requires |ms| == |fields| && Plan(fields, ms, tag, es, idx) && k < |es|
    ensures |idx| == |es| && PlanAt(fields, ms, tag, es[k], idx[k]) && idx[k] !in idx[..k]
            && idx[..k + 1] == idx[..k] + [idx[k]]
  {
    hide PlanAt, IsWritten;
  }

  /** The value behind the key of member `idx[k]`: decoded into its place, or skipped. */
  lemma ValueBack(c: Config, fields: seq<Field>, unknown: Unknown, off: nat, ms: seq<Value>, idx: seq<nat>,
                  seeds: seq<Value>, k: nat, input: seq<byte>, p: nat, depth: nat, ext: Option<Extent>)
    requires |ms| == |fields| == |seeds| && k < |idx| && idx[k] < |fields| && idx[k] !in idx[..k]
             && ExtentOk(ext, |input|)
    requires var i := idx[k];
             Lies(c.opts, input, p, depth, Img(fields[i].ty, ms[i]))
               && (!fields[i].skip ==> Decodes(c, input, fields[i].ty, ms[i]))
             && SkipItem(c.opts, input, p, depth) == Done(p + |Enc(Img(fields[i].ty, ms[i]))|, false)
    ensures var i := idx[k];
            var q := p + |Enc(Img(fields[i].ty, ms[i]))|;
            var vals, seen, left := ValsAt(fields, ms, seeds, idx[..k]), SeenAt(fields, idx[..k]), Some(|idx| - k - 1);
            && p <= |input| && q <= |input| && (!fields[i].skip ==> i !in seen)
            && LoopAt(c, fields, unknown, off, ms, idx, seeds, k + 1, input, q, depth, ext)
               == if fields[i].skip then SkipThen(c, fields, unknown, off, vals, seen, input, p, depth, left, ext)
                  else DecodeMember(c, fields, unknown, off, vals, seen, input, p, depth, left, ext, i)
  {
    hide DecodeMembers, Decode, Back, Decodes, Lies, Enc, Img, SkipItem, SkipThen, DecodeMember, Also, PushAll, ValsAt,
         SeenAt, IsSyntax;
    var i, done := idx[k], idx[..k];
    var vals, seen, left := ValsAt(fields, ms, seeds, done), SeenAt(fields, done), Some(|idx| - k - 1);
    assert idx[..k + 1] == done + [i];
    NextMember(fields, ms, seeds, done, i);
    if fields[i].skip {
      InBounds(c.opts, input, p, depth, Img(fields[i].ty, ms[i]));
      SkipStep(c, fields, unknown, off, vals, seen, input, p, depth, left, ext);
    } else {
      UseDecodes(c, input, fields[i].ty, ms[i], seeds[i], p, depth);
      MemberStep(c, fields, unknown, off, vals, seen, input, p, depth, left, ext, i);
      InBounds(c.opts, input, p, depth, Img(fields[i].ty, ms[i]));
      NoErrs(BuildSpec.Member(fields[i].ident),
             LoopAt(c, fields, unknown, off, ms, idx, seeds, k + 1, input, p + |Enc(Img(fields[i].ty, ms[i]))|, depth,
                    ext));
    }
  }

  lemma LoopEnds(c: Config, fields: seq<Field>, unknown: Unknown, off: nat, ms: seq<Value>, idx: seq<nat>,
                 seeds: seq<Value>, input: seq<byte>, pos: nat, depth: nat, ext: Option<Extent>)
    requires |ms| == |fields| == |seeds| && pos <= |input| && ExtentOk(ext, |input|)
    requires NextEntry(c.opts, input, pos, depth, Some(0), ext) == EntryEnd(pos)
    ensures LoopAt(c, fields, unknown, off, ms, idx, seeds, |idx|, input, pos, depth, ext)
         == FinishStruct(c, fields, off, ValsAt(fields, ms, seeds, idx), SeenAt(fields, idx), pos)
  {
    hide DecodeMembers, NextEntry, FinishStruct, ValsAt, SeenAt;
    assert idx[..|idx|] == idx;
    MembersStep(c, fields, unknown, off, ValsAt(fields, ms, seeds, idx), SeenAt(fields, idx), input, pos, depth,
                Some(0), ext);
  }

  /** The entries from the `k`th on. */
  lemma {:induction false} MembersBack(c: Config, fields: seq<Field>, unknown: Unknown, off: nat, ms: seq<Value>,
                                       es: seq<M.Member>, idx: seq<nat>, seeds: seq<Value>, k: nat, input: seq<byte>,
                                       pos: nat, depth: nat, ext: Option<Extent>, prev: Option<seq<byte>>)
    requires Ready(c, fields, unknown, ms, es, idx, input) && |seeds| == |fields| && k <= |es|
    requires EntriesLie(c.opts, input, pos, depth, EntryTrees(M.EntriesOf(es[k..])), ext, prev)
    ensures pos <= |input| && ExtentOk(ext, |input|)
    ensures LoopAt(c, fields, unknown, off, ms, idx, seeds, k, input, pos, depth, ext)
         == FinishStruct(c, fields, off, ValsAt(fields, ms, seeds, idx), SeenAt(fields, idx),
                         pos + |EncEntries(EntryTrees(M.EntriesOf(es[k..])))|)
    decreases |es| - k
  {
    hide *;
    var u := EntryTrees(M.EntriesOf(es[k..]));
    EntriesFrom(es, k);
    ReadyLength(c, fields, unknown, ms, es, idx, input);
    if k == |es| {
      NoneLie(c.opts, input, pos, depth, u, ext, prev);
      LoopEnds(c, fields, unknown, off, ms, idx, seeds, input, pos, depth, ext);
    } else {
      EntryLies(c.opts, input, pos, depth, u, ext, prev);
      ReadyValue(c, fields, unknown, ms, es, idx, k, input);
      MemberBack(c, fields, unknown, off, ms, es, idx, seeds, k, input, pos, depth, ext, prev);
      var p := pos + |Enc(u.key)|;
      MembersBack(c, fields, unknown, off, ms, es, idx, seeds, k + 1, input, p + |Enc(u.val)|, depth,
                  NextExtent(c.opts, ext, pos, p),
                  NextKey(c.opts, prev, u.key));
    }
  }

  lemma ReadyValue(c: Config, fields: seq<Field>, unknown: Unknown, ms: seq<Value>, es: seq<M.Member>, idx: seq<nat>,
                   k: nat, input: seq<byte>)
    requires Ready(c, fields, unknown, ms, es, idx, input) && k < |es|
    ensures Laid(fields, unknown, ms, es, idx) && k < |idx| && |ms| == |fields|
            && ValueDecodes(c, fields, ms, idx, k, input)
  {
    hide Decodes, SoundKeys, IsWritten;
    PlanNext(fields, ms, unknown.ignore, es, idx, k);
  }

  lemma ReadyLength(c: Config, fields: seq<Field>, unknown: Unknown, ms: seq<Value>, es: seq<M.Member>, idx: seq<nat>,
                    input: seq<byte>)
    requires Ready(c, fields, unknown, ms, es, idx, input)
    ensures |ms| == |fields| && |idx| == |es|
  {
    hide Decodes, SoundKeys, PlanAt, IsWritten;
  }

  lemma NothingYet(fields: seq<Field>, ms: seq<Value>, seeds: seq<Value>)
    requires |ms| == |fields| == |seeds|
    ensures ValsAt(fields, ms, seeds, []) == seeds && SeenAt(fields, []) == {}
  {
    hide Back;
  }

  /** decode_struct, up to what is made of the members that were not there. */
  lemma ObjectEnds(c: Config, fields: seq<Field>, unknown: Unknown, seed: Value, ms: seq<Value>, es: seq<M.Member>,
                   idx: seq<nat>, input: seq<byte>, pos: nat, depth: nat)
    requires Ready(c, fields, unknown, ms, es, idx, input)
    requires Lies(c.opts, input, pos, depth, Map(EntryTrees(M.EntriesOf(es))))
    ensures pos <= |input|
    ensures var seeds := MembersOf(fields, seed);
            DecodeObject(c, fields, unknown, seed, input, pos, depth)
            == FinishStruct(c, fields, pos, ValsAt(fields, ms, seeds, idx), SeenAt(fields, idx),
                            pos + |Enc(Map(EntryTrees(M.EntriesOf(es))))|)
  {
    hide DecodeMembers, EntriesLie, Lies, Enc, Tree, OpenContainer, FinishStruct, Ready, MembersOf, ValsAt, SeenAt;
    var u := EntryTrees(M.EntriesOf(es));
    EntriesCount(es);
    MapLies(c.opts, input, pos, depth, u);
    var seeds := MembersOf(fields, seed);
    ReadyLength(c, fields, unknown, ms, es, idx, input);
    assert es[0..] == es && idx[..0] == [];
    NothingYet(fields, ms, seeds);
    MembersBack(c, fields, unknown, pos, ms, es, idx, seeds, 0, input, pos + |ShortHead(MAP, u.Length())|, depth + 1,
                None, None);
  }

  /** decode_struct. */
  lemma ObjectBack(c: Config, fields: seq<Field>, unknown: Unknown, seed: Value, ms: seq<Value>, es: seq<M.Member>,
                   idx: seq<nat>, input: seq<byte>, pos: nat, depth: nat)
    requires Ready(c, fields, unknown, ms, es, idx, input) && MembersDecodable(fields, ms)
    requires Lies(c.opts, input, pos, depth, Map(EntryTrees(M.EntriesOf(es))))
    ensures pos <= |input|
    ensures DecodeObject(c, fields, unknown, seed, input, pos, depth)
         == Res(None, VStruct(BackMembers(fields, ms, MembersOf(fields, seed))),
                pos + |Enc(Map(EntryTrees(M.EntriesOf(es))))|, [])
  {
    hide DecodeObject, FinishStruct, Decodes, Lies, Enc, Tree, BackMembers, MembersDecodable, SoundKeys, MembersOf,
         Plan;
    ObjectEnds(c, fields, unknown, seed, ms, es, idx, input, pos, depth);
    Finished(c, fields, ms, unknown.ignore, es, idx, MembersOf(fields, seed), pos,
             pos + |Enc(Map(EntryTrees(M.EntriesOf(es))))|);
  }
}
