/** Collecting decode against fail-fast decode: same value, or the same first error. */
module Collect {
  import opened Bytes
  import opened Head
  import opened Utf8
  import opened SkipSpec
  import opened ReadSpec
  import opened BuildSpec

  /** The first error reported: collected errors come before the status. */
  function First(r: Res): Option<Failure> {
    if r.errs != [] then Some(r.errs[0]) else r.status
  }

  /** `f` from fail-fast, `g` from collecting decode. */
  predicate Matches(f: Res, g: Res) {
    f.errs == [] && if f.status.None? then g == f else First(g) == f.status
  }

  function FailFast(c: Config): Config {
    c.(collect := false)
  }

  function Collecting(c: Config): Config {
    c.(collect := true)
  }

  lemma FirstOfAlso(errs: seq<Failure>, r: Res)
    requires errs != []
    ensures First(Also(errs, r)) == Some(errs[0])
  {
  }

  /** A frame that passes an inner answer on with one more step keeps the first error first. */
  lemma PassOn(f: Res, g: Res, s: PathStep)
    requires Matches(f, g) && f.status.Some?
    ensures if g.errs != [] then PushAll(g.errs, s)[0] == Push(f.status.value, s)
            else g.status == f.status && PushAll(g.errs, s) == []
  {
  }

  lemma {:induction false} DecodeMatches(c: Config, t: Ty, seed: Value, input: seq<byte>, pos: nat, depth: nat)
    requires pos <= |input|
    ensures Matches(Decode(FailFast(c), t, seed, input, pos, depth), Decode(Collecting(c), t, seed, input, pos, depth))
    decreases |input| - pos, t, 1
  {
    hide DecodeElems, DecodeEntries, DecodeObject, DecodeItems, DecodeVariant, Named, OpenContainer, PeekKind,
         DecodeBool, DecodeInt;
    hide DecodeText, DecodeNull, DecodeBytes, DecodeEnum, DecodeNamedEnum, Initial, MembersOf, ItemsOf, InnerOf;
    match t
    case TOpt(elem) => DecodeMatches(c, elem, Initial(elem), input, pos, depth);
    case TSeq(elem) =>
      var a := OpenContainer(c.opts, input, pos, depth, ARRAY);
      if a.Opened? {
        ElemsMatch(c, elem, [], input, a.pos, depth + 1, a.remaining);
      }
    case TTuple(elems) =>
      var a := OpenContainer(c.opts, input, pos, depth, ARRAY);
      if a.Opened? {
        ItemsMatch(c, elems, pos, ItemsOf(elems, seed), 0, input, a.pos, depth + 1, a.remaining);
      }
    case TMap(keys, unique, elem) =>
      var m := OpenContainer(c.opts, input, pos, depth, MAP);
      if m.Opened? {
        EntriesMatch(c, keys, unique, elem, [], input, m.pos, depth + 1, m.remaining, None);
      }
    case TWrap(ident, elem) =>
      var inner := InnerOf(elem, seed);
      DecodeMatches(c, elem, inner, input, pos, depth);
      NamedMatches(Decode(FailFast(c), elem, inner, input, pos, depth),
                   Decode(Collecting(c), elem, inner, input, pos, depth), Member(ident));
      NamedKeeps(Decode(FailFast(c), elem, inner, input, pos, depth), Member(ident));
    case TStruct(fields, unknown) => ObjectMatches(c, fields, unknown, seed, input, pos, depth);
    case TVariant(tag, alts) =>
      VariantMatches(c, tag, alts, seed, input, pos, depth);
    case _ =>
  }

  lemma {:induction false} VariantMatches(c: Config, tag: seq<byte>, alts: seq<(seq<byte>, Ty)>, seed: Value,
                                          input: seq<byte>, pos: nat, depth: nat)
    requires pos <= |input|
    ensures Matches(DecodeVariant(FailFast(c), tag, alts, seed, input, pos, depth),
                    DecodeVariant(Collecting(c), tag, alts, seed, input, pos, depth))
    decreases |input| - pos, TVariant(tag, alts), 0
  {
    hide DecodeObject, DecodeBox, FindAlternative, Initial;
    var choice := FindAlternative(c.opts, tag, alts, input, pos, depth);
    if choice.Alternative? {
      var a := alts[choice.i].1;
      if a.TStruct? {
        ObjectMatches(c, a.fields, a.unknown.(ignore := tag), Initial(a), input, pos, depth);
      } else {
        BoxMatches(c, a, input, pos, depth);
      }
    }
  }

  /** Passing both answers on with one more step keeps them in step. */
  lemma NamedMatches(f: Res, g: Res, s: PathStep)
    requires Matches(f, g)
    ensures Matches(Named(f, s), Named(g, s))
  {
    hide Push, PushAll;
    if f.status.Some? {
      PassOn(f, g, s);
    }
    NoErrors(s);
  }

  lemma {:induction false} ObjectMatches(c: Config, fields: seq<Field>, unknown: Unknown, seed: Value,
                                         input: seq<byte>, pos: nat, depth: nat)
    requires pos <= |input|
    ensures Matches(DecodeObject(FailFast(c), fields, unknown, seed, input, pos, depth),
                    DecodeObject(Collecting(c), fields, unknown, seed, input, pos, depth))
    decreases |input| - pos, fields, 1
  {
    hide OpenContainer, DecodeMembers, MembersOf;
    var m := OpenContainer(c.opts, input, pos, depth, MAP);
    if m.Opened? {
      MembersMatch(c, fields, unknown, pos, MembersOf(fields, seed), {}, input, m.pos, depth + 1, m.remaining, None);
    }
  }

  lemma {:induction false} ItemsMatch(c: Config, elems: seq<Ty>, off: nat, vals: seq<Value>, i: nat, input: seq<byte>,
                                      pos: nat, depth: nat, remaining: Option<nat>)
    requires pos <= |input| && |vals| == |elems| && i <= |elems|
    ensures Matches(DecodeItems(FailFast(c), elems, off, vals, i, input, pos, depth, remaining),
                    DecodeItems(Collecting(c), elems, off, vals, i, input, pos, depth, remaining))
    decreases |input| - pos, elems, 2
  {
    hide Decode, CursorNext, SkipSurplus, Named, Push, PushAll;
    var next := CursorNext(input, pos, remaining);
    if next.CursorItem? && i < |elems| {
      var t := elems[i];
      DecodeMatches(c, t, vals[i], input, pos, depth);
      var f, g := Decode(FailFast(c), t, vals[i], input, pos, depth),
        Decode(Collecting(c), t, vals[i], input, pos, depth);
      NamedMatches(f, g, Index(i));
      NamedKeeps(f, Index(i));
      NamedKeeps(g, Index(i));
      NoErrors(Index(i));
      if f.status.None? {
        ItemsMatch(c, elems, off, vals[i := f.value], i + 1, input, f.pos, depth, next.remaining);
      }
    }
  }

  lemma NamedKeeps(r: Res, s: PathStep)
    ensures Named(r, s).status.Some? <==> r.status.Some?
    ensures Named(r, s).value == r.value && Named(r, s).pos == r.pos && (r.errs == [] <==> Named(r, s).errs == [])
    ensures Named(r, s).errs == PushAll(r.errs, s)
  {
    hide Push;
  }

  lemma {:induction false} BoxMatches(c: Config, t: Ty, input: seq<byte>, pos: nat, depth: nat)
    requires pos <= |input|
    ensures Matches(DecodeBox(FailFast(c), t, input, pos, depth), DecodeBox(Collecting(c), t, input, pos, depth))
    decreases |input| - pos, t, 2
  {
    hide OpenContainer, DecodeBoxed, Initial;
    var m := OpenContainer(c.opts, input, pos, depth, MAP);
    if m.Opened? {
      BoxedMatch(c, t, pos, Initial(t), false, input, m.pos, depth + 1, m.remaining, None);
    }
  }

  lemma {:induction false} BoxedMatch(c: Config, t: Ty, off: nat, done: Value, have: bool, input: seq<byte>, pos: nat,
                                      depth: nat, remaining: Option<nat>, prev: Option<Extent>)
    requires pos <= |input| && ExtentOk(prev, |input|)
    ensures Matches(DecodeBoxed(FailFast(c), t, off, done, have, input, pos, depth, remaining, prev),
                    DecodeBoxed(Collecting(c), t, off, done, have, input, pos, depth, remaining, prev))
    decreases |input| - pos, t, 2
  {
    hide DecodeBoxValue, SkipBoxed, NextEntry, ExpectText, VALUE, BoxEnd, Fresh;
    var next := NextEntry(c.opts, input, pos, depth, remaining, prev);
    var key := ExpectText(c.opts, input, pos);
    if next.EntryEnd? {
      BoxEnds(off, done, have, next.pos);
    } else if next.EntryAt? && key.Got? {
      if key.value == VALUE {
        BoxValueMatches(c, t, off, done, input, key.end, depth, next.remaining, next.prev);
      } else {
        SkipBoxedMatches(c, t, off, done, have, input, key.end, depth, next.remaining, next.prev);
      }
    }
  }

  lemma {:induction false} SkipBoxedMatches(c: Config, t: Ty, off: nat, done: Value, have: bool, input: seq<byte>,
                                            pos: nat, depth: nat, remaining: Option<nat>, prev: Option<Extent>)
    requires pos <= |input| && ExtentOk(prev, |input|)
    ensures Matches(SkipBoxed(FailFast(c), t, off, done, have, input, pos, depth, remaining, prev),
                    SkipBoxed(Collecting(c), t, off, done, have, input, pos, depth, remaining, prev))
    decreases |input| - pos, t, 1
  {
    hide DecodeBoxed, SkipItem;
    var skipped := SkipItem(c.opts, input, pos, depth);
    if skipped.Done? {
      BoxedMatch(c, t, off, done, have, input, skipped.pos, depth, remaining, prev);
    }
  }

  lemma {:induction false} BoxValueMatches(c: Config, t: Ty, off: nat, done: Value, input: seq<byte>, pos: nat,
                                           depth: nat, remaining: Option<nat>, prev: Option<Extent>)
    requires pos <= |input| && ExtentOk(prev, |input|)
    ensures Matches(DecodeBoxValue(FailFast(c), t, off, done, input, pos, depth, remaining, prev),
                    DecodeBoxValue(Collecting(c), t, off, done, input, pos, depth, remaining, prev))
    decreases |input| - pos, t, 3
  {
    hide Decode, DecodeBoxed, Named, Push, PushAll;
    DecodeMatches(c, t, done, input, pos, depth);
    var f, g := Decode(FailFast(c), t, done, input, pos, depth), Decode(Collecting(c), t, done, input, pos, depth);
    NamedMatches(f, g, Member(VALUE));
    NamedKeeps(f, Member(VALUE));
    NamedKeeps(g, Member(VALUE));
    NoErrors(Member(VALUE));
    if f.status.None? {
      BoxedMatch(c, t, off, f.value, true, input, f.pos, depth, remaining, prev);
    }
  }

  lemma {:induction false} ElemsMatch(c: Config, elem: Ty, done: seq<Value>, input: seq<byte>, pos: nat, depth: nat,
                                      remaining: Option<nat>)
    requires pos <= |input|
    ensures Matches(DecodeElems(FailFast(c), elem, done, input, pos, depth, remaining),
                    DecodeElems(Collecting(c), elem, done, input, pos, depth, remaining))
    decreases |input| - pos, elem, 2
  {
    hide Decode, CursorNext, Initial, Push, PushAll;
    var next := CursorNext(input, pos, remaining);
    if next.CursorItem? {
      DecodeMatches(c, elem, Initial(elem), input, pos, depth);
      var f, g := Decode(FailFast(c), elem, Initial(elem), input, pos, depth),
        Decode(Collecting(c), elem, Initial(elem), input, pos, depth);
      if f.status.Some? {
        PassOn(f, g, Index(|done|));
      } else {
        NoErrors(Index(|done|));
        ElemsMatch(c, elem, done + [f.value], input, f.pos, depth, next.remaining);
      }
    }
  }

  lemma NoErrors(s: PathStep)
    ensures PushAll([], s) == [] && forall r :: Also([], r) == r
  {
    forall r
      ensures Also([], r) == r
    {
      AlsoNothing(r);
    }
  }

  lemma {:induction false} EntriesMatch(c: Config, keys: KeyType, unique: bool, elem: Ty, done: seq<Pair>,
                                        input: seq<byte>, pos: nat, depth: nat, remaining: Option<nat>,
                                        prev: Option<Extent>)
    requires pos <= |input| && ExtentOk(prev, |input|)
    ensures Matches(DecodeEntries(FailFast(c), keys, unique, elem, done, input, pos, depth, remaining, prev),
                    DecodeEntries(Collecting(c), keys, unique, elem, done, input, pos, depth, remaining, prev))
    decreases |input| - pos, elem, 2
  {
    hide Decode, DecodeEntry, SkipEntry, NextEntry, Push, MapKeyAt, Earlier, StepOf;
    var next := NextEntry(c.opts, input, pos, depth, remaining, prev);
    var key := MapKeyAt(c.opts, keys, input, pos);
    if next.EntryAt? && key.Got? {
      var found := Earlier(unique, done, key.value);
      if found.Some? && c.duplicates.ErrorOnDuplicate? {
      } else if found.Some? && c.duplicates.FirstWins? {
        SkipEntryMatches(c, keys, unique, elem, done, input, key.end, depth, next.remaining, next.prev);
      } else {
        EntryMatches(c, keys, unique, elem, done, input, key.end, depth, next.remaining, next.prev, key.value, found);
      }
    }
  }

  lemma {:induction false} SkipEntryMatches(c: Config, keys: KeyType, unique: bool, elem: Ty, done: seq<Pair>,
                                            input: seq<byte>, pos: nat, depth: nat, remaining: Option<nat>,
                                            prev: Option<Extent>)
    requires pos <= |input| && ExtentOk(prev, |input|)
    ensures Matches(SkipEntry(FailFast(c), keys, unique, elem, done, input, pos, depth, remaining, prev),
                    SkipEntry(Collecting(c), keys, unique, elem, done, input, pos, depth, remaining, prev))
    decreases |input| - pos, elem, 1
  {
    hide DecodeEntries, SkipItem;
    var skipped := SkipItem(c.opts, input, pos, depth);
    if skipped.Done? {
      EntriesMatch(c, keys, unique, elem, done, input, skipped.pos, depth, remaining, prev);
    }
  }

  lemma {:induction false} EntryMatches(c: Config, keys: KeyType, unique: bool, elem: Ty, done: seq<Pair>,
                                        input: seq<byte>, pos: nat, depth: nat, remaining: Option<nat>,
                                        prev: Option<Extent>, key: MapKey, found: Option<nat>)
    requires pos <= |input| && ExtentOk(prev, |input|) && (found.Some? ==> found.value < |done|)
    ensures Matches(DecodeEntry(FailFast(c), keys, unique, elem, done, input, pos, depth, remaining, prev, key, found),
                    DecodeEntry(Collecting(c), keys, unique, elem, done, input, pos, depth, remaining, prev, key,
                                found))
    decreases |input| - pos, elem, 3
  {
    hide Decode, DecodeEntries, Initial, Push, PushAll, StepOf;
    var seed := if found.Some? then done[found.value].val else Initial(elem);
    DecodeMatches(c, elem, seed, input, pos, depth);
    var f, g := Decode(FailFast(c), elem, seed, input, pos, depth),
      Decode(Collecting(c), elem, seed, input, pos, depth);
    if f.status.Some? {
      PassOn(f, g, StepOf(key));
    } else {
      NoErrors(StepOf(key));
      var grown := if found.Some? then done[found.value := Pair(key, f.value)] else done + [Pair(key, f.value)];
      EntriesMatch(c, keys, unique, elem, grown, input, f.pos, depth, remaining, prev);
    }
  }

  lemma {:induction false} MembersMatch(c: Config, fields: seq<Field>, unknown: Unknown, objOff: nat, vals: seq<Value>,
                                        seen: set<nat>, input: seq<byte>, pos: nat, depth: nat, remaining: Option<nat>,
                                        prev: Option<Extent>)
    requires pos <= |input| && ExtentOk(prev, |input|) && |vals| == |fields|
    ensures Matches(DecodeMembers(FailFast(c), fields, unknown, objOff, vals, seen, input, pos, depth, remaining, prev),
                    DecodeMembers(Collecting(c), fields, unknown, objOff, vals, seen, input, pos, depth, remaining,
                                  prev))
    decreases |input| - pos, fields, 2
  {
    hide DecodeMember, NextEntry, Push, MemberKeyAt, SkipItem, SkipThen, EntryTodo, FinishStruct, Also;
    var next := NextEntry(c.opts, input, pos, depth, remaining, prev);
    var key := MemberKeyAt(c.opts, fields, input, pos);
    if next.EntryEnd? {
      FinishMatches(c, fields, objOff, vals, seen, next.pos);
    } else if next.EntryAt? && key.HugeKey? {
      if !unknown.refuse {
        SkipMatches(c, fields, unknown, objOff, vals, seen, input, key.end, depth, next.remaining, next.prev);
      }
    } else if next.EntryAt? && key.FoundKey? {
      TodoSame(c, fields, unknown, seen, pos, key);
      var todo := EntryTodo(c, fields, unknown, seen, pos, key);
      match todo
      case Report(e) =>
        FirstOfAlso([e], SkipThen(Collecting(c), fields, unknown, objOff, vals, seen, input, key.end, depth,
                                  next.remaining, next.prev));
      case SkipOver =>
        SkipMatches(c, fields, unknown, objOff, vals, seen, input, key.end, depth, next.remaining, next.prev);
      case Into(m) =>
        MemberMatches(c, fields, unknown, objOff, vals, seen, input, key.end, depth, next.remaining, next.prev, m);
    }
  }

  lemma TodoSame(c: Config, fields: seq<Field>, unknown: Unknown, seen: set<nat>, keyOff: nat, k: MemberKey)
    requires k.FoundKey? && (k.member.Some? ==> k.member.value < |fields|)
    ensures EntryTodo(FailFast(c), fields, unknown, seen, keyOff, k) == EntryTodo(c, fields, unknown, seen, keyOff, k)
    ensures EntryTodo(Collecting(c), fields, unknown, seen, keyOff, k) == EntryTodo(c, fields, unknown, seen, keyOff, k)
  {
  }

  lemma {:induction false} SkipMatches(c: Config, fields: seq<Field>, unknown: Unknown, objOff: nat, vals: seq<Value>,
                                       seen: set<nat>, input: seq<byte>, pos: nat, depth: nat, remaining: Option<nat>,
                                       prev: Option<Extent>)
    requires pos <= |input| && ExtentOk(prev, |input|) && |vals| == |fields|
    ensures Matches(SkipThen(FailFast(c), fields, unknown, objOff, vals, seen, input, pos, depth, remaining, prev),
                    SkipThen(Collecting(c), fields, unknown, objOff, vals, seen, input, pos, depth, remaining, prev))
    decreases |input| - pos, fields, 1
  {
    hide DecodeMembers, SkipItem;
    var skipped := SkipItem(c.opts, input, pos, depth);
    if skipped.Done? {
      MembersMatch(c, fields, unknown, objOff, vals, seen, input, skipped.pos, depth, remaining, prev);
    }
  }

  lemma {:induction false} MemberMatches(c: Config, fields: seq<Field>, unknown: Unknown, objOff: nat,
                                         vals: seq<Value>, seen: set<nat>, input: seq<byte>, pos: nat, depth: nat,
                                         remaining: Option<nat>, prev: Option<Extent>, m: nat)
    requires pos <= |input| && ExtentOk(prev, |input|) && |vals| == |fields| && m < |fields|
    ensures Matches(DecodeMember(FailFast(c), fields, unknown, objOff, vals, seen, input, pos, depth, remaining, prev,
                                 m),
                    DecodeMember(Collecting(c), fields, unknown, objOff, vals, seen, input, pos, depth, remaining,
                                 prev, m))
    decreases |input| - pos, fields, 3
  {
    hide Decode, DecodeMembers, SkipThen, Push, PushAll, IsSyntax, Also;
    var t, step := fields[m].ty, Member(fields[m].ident);
    DecodeMatches(c, t, vals[m], input, pos, depth);
    var f, g := Decode(FailFast(c), t, vals[m], input, pos, depth),
      Decode(Collecting(c), t, vals[m], input, pos, depth);
    if f.status.None? {
      NoErrors(step);
      MembersMatch(c, fields, unknown, objOff, vals[m := f.value], seen + {m}, input, f.pos, depth, remaining, prev);
    } else {
      PassOn(f, g, step);
      var vals', seen' := vals[m := g.value], seen + {m};
      var errs := PushAll(g.errs, step);
      if g.status.None? {
        FirstOfAlso(errs, DecodeMembers(Collecting(c), fields, unknown, objOff, vals', seen', input, g.pos, depth,
                                        remaining, prev));
      } else {
        var e := Push(g.status.value, step);
        FirstOfAlso(errs + [e], SkipThen(Collecting(c), fields, unknown, objOff, vals', seen', input, pos, depth,
                                         remaining, prev));
      }
    }
  }

  lemma FinishMatches(c: Config, fields: seq<Field>, objOff: nat, vals: seq<Value>, seen: set<nat>, pos: nat)
    requires |vals| == |fields|
    ensures Matches(FinishStruct(FailFast(c), fields, objOff, vals, seen, pos),
                    FinishStruct(Collecting(c), fields, objOff, vals, seen, pos))
  {
  }

  // ---- whole documents ----

  function Reversed(s: seq<PathStep>): (r: seq<PathStep>)
    ensures |r| == |s|
  {
    if s == [] then [] else Reversed(s[1..]) + [s[0]]
  }

  /** finalize: the path from the root. */
  function Finalized(e: Failure): Failure {
    e.(path := Reversed(e.path))
  }

  function FinalizedAll(errs: seq<Failure>): (r: seq<Failure>)
    ensures |r| == |errs| && (errs != [] ==> r[0] == Finalized(errs[0]))
  {
    seq(|errs|, i requires 0 <= i < |errs| => Finalized(errs[i]))
  }

  /** start: a leading self-describe tag is skipped. */
  function StartOf(input: seq<byte>): (p: nat)
    ensures p <= |input|
  {
    var h := ParseHead(input, 0);
    if h.length > 0 && h.mt == TAG && h.value == 55799 then h.length else 0
  }

  datatype Collected = Collected(value: Value, errors: seq<Failure>)

  /** decode_all. */
  function DecodeAll(c: Config, t: Ty, input: seq<byte>): Collected {
    var r := Decode(Collecting(c), t, Initial(t), input, StartOf(input), 0);
    var last := if r.status.Some? then [Finalized(r.status.value)]
                else if r.pos < |input| then [Fresh(Error(TrailingContent, r.pos))] else [];
    Collected(r.value, FinalizedAll(r.errs) + last)
  }

  datatype Answer = Refused(error: Failure) | Answer(value: Value)

  /** decode in fail-fast mode. */
  function DecodeOne(c: Config, t: Ty, input: seq<byte>): Answer {
    var r := Decode(FailFast(c), t, Initial(t), input, StartOf(input), 0);
    if r.status.Some? then Refused(Finalized(r.status.value))
    else if r.pos < |input| then Refused(Fresh(Error(TrailingContent, r.pos)))
    else Answer(r.value)
  }

  /** Collecting decode reports no error exactly when fail-fast decode succeeds, and then with the same value;
      otherwise its first error is the fail-fast error: code, offset and root-first path. */
  lemma CollectExact(c: Config, t: Ty, input: seq<byte>)
    ensures var all, one := DecodeAll(c, t, input), DecodeOne(c, t, input);
            && (all.errors == [] <==> one.Answer?)
            && (one.Answer? ==> all.value == one.value)
            && (one.Refused? ==> all.errors != [] && all.errors[0] == one.error)
  {
    hide Decode, Initial, StartOf, Finalized;
    DecodeMatches(c, t, Initial(t), input, StartOf(input), 0);
  }

  // ---- bounded paths ----

  /** An error passed out through frames that push `steps`, innermost first. */
  function PushedOut(e: Failure, steps: seq<PathStep>): Failure
    decreases |steps|
  {
    if steps == [] then e else PushedOut(Push(e, steps[0]), steps[1..])
  }

  /** The path keeps the innermost steps, up to sixteen, and is marked exactly when it lost some. */
  lemma {:induction false} PathBound(e: Failure, steps: seq<PathStep>)
    requires |e.path| <= MAX_STEPS && (e.truncated ==> |e.path| == MAX_STEPS)
    ensures var r, all := PushedOut(e, steps), e.path + steps;
            && r.path == (if |all| <= MAX_STEPS then all else all[..MAX_STEPS])
            && (r.truncated <==> e.truncated || |all| > MAX_STEPS)
            && r.code == e.code && r.offset == e.offset
    decreases |steps|
  {
    if steps == [] {
      assert e.path + steps == e.path;
    } else {
      PathBound(Push(e, steps[0]), steps[1..]);
      var all := e.path + steps;
      if |e.path| < MAX_STEPS {
        assert Push(e, steps[0]).path + steps[1..] == all;
      } else {
        assert all[..MAX_STEPS] == e.path && (e.path + steps[1..])[..MAX_STEPS] == e.path;
      }
    }
  }
}
