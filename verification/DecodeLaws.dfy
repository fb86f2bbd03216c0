/** What one more entry does to decoding a struct, in both modes and in every encoding. */
module DecodeLaws {
  import opened Bytes
  import opened Head
  import opened Utf8
  import opened Item
  import opened SkipSpec
  import opened BuildSpec
  import opened BuildSteps
  import opened Wires
  import opened WireRead
  import opened Meanings
  import opened MeaningRead
  import opened DecodeMeans

  // ---- what a key selects ----

  predicate TextKey(o: Options, k: Item, name: seq<byte>) {
    Core(o, k) == Some(TextString(name))
  }

  /** An integer key of 64 bits with its sign. */
  predicate IntKey(o: Options, k: Item, i: int) {
    -TWO63 <= i < TWO63 && Core(o, k) == Some(if i >= 0 then UInt(i) else NInt(-1 - i))
  }

  /** The member takes this name; the wire name of a member with an integer key counts only if that is allowed. */
  predicate Takes(f: Field, name: seq<byte>) {
    if name == f.name then f.key.Some? ==> f.textOk else name in f.aliases
  }

  function IntStep(i: int): PathStep {
    KeyInt(if 0 <= i then i else if -TWO64 <= i then TWO64 + i else 0)
  }

  /** No member has this key, which is called `step` in errors. */
  ghost predicate Unanswered(o: Options, fields: seq<Field>, k: Item, step: PathStep) {
    || (step.KeyText? && TextKey(o, k, step.key) && forall j :: 0 <= j < |fields| ==> !Takes(fields[j], step.key))
    || (AnyIntKeys(fields)
        && exists i :: IntKey(o, k, i) && step == IntStep(i)
                       && forall j :: 0 <= j < |fields| ==> fields[j].key != Some(i))
  }

  /** Member `m` has this key and no other has. */
  ghost predicate Selects(o: Options, fields: seq<Field>, k: Item, m: nat, step: PathStep) {
    && m < |fields|
    && (|| (step.KeyText? && TextKey(o, k, step.key) && Takes(fields[m], step.key)
            && forall j :: 0 <= j < |fields| && j != m ==> !Answers(fields[j], step.key))
        || (exists i :: IntKey(o, k, i) && step == IntStep(i) && fields[m].key == Some(i)
                        && forall j :: 0 <= j < |fields| && j != m ==> fields[j].key != Some(i)))
  }

  /** Keys no member has are refused, but for the discriminator of a variant. */
  predicate Denied(unknown: Unknown, step: PathStep) {
    unknown.refuse && !(step.KeyText? && step.key == unknown.ignore && step.key != [])
  }

  lemma UnansweredIs(o: Options, fields: seq<Field>, k: Item, step: PathStep)
    requires Unanswered(o, fields, k, step)
    ensures MemberKeyIn(o, fields, k) == KeyIn(None, step)
  {
    if step.KeyText? && TextKey(o, k, step.key) {
      var f := FindName(fields, step.key);
    } else {
      var i :| IntKey(o, k, i) && step == IntStep(i) && forall j :: 0 <= j < |fields| ==> fields[j].key != Some(i);
      var f := FindKey(fields, i);
    }
  }

  lemma {:induction false} FoundKeyIs(fields: seq<Field>, key: int, m: nat)
    requires m < |fields| && fields[m].key == Some(key)
    requires forall j :: 0 <= j < |fields| && j != m ==> fields[j].key != Some(key)
    ensures FindKey(fields, key) == Some(m)
    decreases |fields|
  {
    if m < |fields| - 1 {
      FoundKeyIs(fields[..|fields| - 1], key, m);
    }
  }

  lemma SelectsIs(o: Options, fields: seq<Field>, k: Item, m: nat, step: PathStep)
    requires Selects(o, fields, k, m, step)
    ensures MemberKeyIn(o, fields, k) == KeyIn(Some(m), step)
  {
    if step.KeyText? && TextKey(o, k, step.key) {
      var f := FindName(fields, step.key);
      assert Answers(fields[m], step.key);
    } else {
      var i :| IntKey(o, k, i) && step == IntStep(i) && fields[m].key == Some(i)
               && forall j :: 0 <= j < |fields| && j != m ==> fields[j].key != Some(i);
      FoundKeyIs(fields, i, m);
    }
  }

  // ---- answers compared ----

  /** The same answer, but for offsets. */
  ghost predicate Alike(r: Res, r': Res) {
    r.value == r'.value && BareAll(r.errs) == BareAll(r'.errs) && BareStatus(r.status) == BareStatus(r'.status)
  }

  /** `r` is `r'` with the error `e`: it is the status, or one more among those collected. */
  ghost predicate Reported(collect: bool, e: Failure, r: Res, r': Res) {
    if !collect then r.status == Some(e)
    else
      && r.value == r'.value && BareStatus(r.status) == BareStatus(r'.status)
      && exists j :: 0 <= j < |r.errs| && r.errs[j] == e && BareAll(r.errs[..j] + r.errs[j + 1..]) == BareAll(r'.errs)
  }

  lemma SaysAlike(r: Res, r': Res, m: Out, end: nat, end': nat)
    requires Says(r, m, end) && Says(r', m, end')
    ensures Alike(r, r')
  {
    BareNothing();
  }

  lemma AlsoAlike(errs: seq<Failure>, errs': seq<Failure>, r: Res, r': Res)
    requires BareAll(errs) == BareAll(errs') && Alike(r, r')
    ensures Alike(Also(errs, r), Also(errs', r'))
  {
    BareJoin(errs, r.errs);
    BareJoin(errs', r'.errs);
  }

  lemma StopsAlike(r: Res, r': Res, m: Out)
    requires StopsAs([], r, m) && StopsAs([], r', m)
    ensures Alike(r, r') && r.status.Some?
  {
    BareNothing();
  }

  lemma AlsoReported(errs: seq<Failure>, errs': seq<Failure>, e: Failure, r: Res, r': Res)
    requires BareAll(errs) == BareAll(errs') && Alike(r, r')
    ensures Reported(true, e, Also(errs, Also([e], r)), Also(errs', r'))
  {
    var whole := Also(errs, Also([e], r));
    var j := |errs|;
    assert whole.errs[j] == e;
    assert whole.errs[..j] + whole.errs[j + 1..] == errs + r.errs;
    BareJoin(errs, r.errs);
    BareJoin(errs', r'.errs);
  }

  // ---- an object ----

  /** Where the entries of an object start. */
  function BodyOf(pos: nat, form: Form, s: WireEntries): nat {
    pos + |FormHead(MAP, form, s.Length())|
  }

  /** The place of the entry behind those of `front`. */
  function EntryPlace(pos: nat, form: Form, front: WireEntries, back: WireEntries): nat {
    After(BodyOf(pos, form, Join(front, back)), front)
  }

  lemma ObjectOpens(c: Config, fields: seq<Field>, unknown: Unknown, seed: Value, input: seq<byte>, pos: nat,
                    depth: nat, form: Form, s: WireEntries)
    requires Lies(c.opts, input, pos, depth, WMap(form, s))
    ensures pos <= |input| && BodyOf(pos, form, s) <= |input|
    ensures EntriesLie(c.opts, input, BodyOf(pos, form, s), depth + 1, form, s)
    ensures Decode(c, TStruct(fields, unknown), seed, input, pos, depth)
         == StructLoop(c, fields, unknown, pos, MembersOf(fields, seed), {}, input, BodyOf(pos, form, s), depth + 1,
                       form, s)
  {
    hide DecodeMembers, OpenContainer, Remaining, FormHead, FormEnd, CodedEntries, FormedEntries, At, MembersOf;
    ContainerTold(c.opts, input, pos, depth, WMap(form, s), MAP);
  }

  /** The loop in front of the entries of `back`, when those of `front` have been passed. */
  ghost predicate Front(c: Config, fields: seq<Field>, unknown: Unknown, input: seq<byte>, pos: nat, depth: nat,
                        form: Form, front: WireEntries, back: WireEntries, r: Res, g: Going, errs: seq<Failure>)
    requires g.Going? ==> |g.vals| == |fields|
  {
    var at := EntryPlace(pos, form, front, back);
    && at <= |input| && EntriesLie(c.opts, input, at, depth + 1, form, back)
    && FrontSays(c, fields, unknown, pos, [], input, at, depth + 1, form, back, r, g, errs)
  }

  /** What the entries of `front` leave. */
  ghost function Start(c: Config, fields: seq<Field>, unknown: Unknown, seed: Value, front: WireEntries): (g: Going)
    ensures g.Going? ==> |g.vals| == |fields|
  {
    FoldOf(c, fields, unknown, MembersOf(fields, seed), {}, [], front)
  }

  lemma Fronts(c: Config, fields: seq<Field>, unknown: Unknown, seed: Value, input: seq<byte>, pos: nat, depth: nat,
               form: Form, front: WireEntries, back: WireEntries) returns (errs: seq<Failure>)
    requires Lies(c.opts, input, pos, depth, WMap(form, Join(front, back)))
    ensures pos <= |input|
    ensures Front(c, fields, unknown, input, pos, depth, form, front, back,
                  Decode(c, TStruct(fields, unknown), seed, input, pos, depth), Start(c, fields, unknown, seed, front),
                  errs)
  {
    hide *;
    ObjectOpens(c, fields, unknown, seed, input, pos, depth, form, Join(front, back));
    errs := FrontTurn(c, fields, unknown, pos, MembersOf(fields, seed), {}, [], input,
                      BodyOf(pos, form, Join(front, back)), depth + 1, form, front, back);
    FrontIs(c, fields, unknown, seed, input, pos, depth, form, front, back,
            Decode(c, TStruct(fields, unknown), seed, input, pos, depth), errs);
  }

  lemma FrontIs(c: Config, fields: seq<Field>, unknown: Unknown, seed: Value, input: seq<byte>, pos: nat, depth: nat,
                form: Form, front: WireEntries, back: WireEntries, r: Res, errs: seq<Failure>)
    requires var at := After(BodyOf(pos, form, Join(front, back)), front);
             && at <= |input| && EntriesLie(c.opts, input, at, depth + 1, form, back)
             && FrontSays(c, fields, unknown, pos, [], input, at, depth + 1, form, back, r,
                          FoldOf(c, fields, unknown, MembersOf(fields, seed), {}, [], front), errs)
    ensures Front(c, fields, unknown, input, pos, depth, form, front, back, r, Start(c, fields, unknown, seed, front),
                  errs)
  {
    hide EntriesLie, FrontSays, After, BodyOf, Join, FoldOf;
  }

  // ---- one entry ----

  /** The entry is passed over: no member has its key and it is not denied, or its member is skipped, or the member
      keeps the value it has. */
  ghost predicate PassedOver(c: Config, fields: seq<Field>, unknown: Unknown, seen: set<nat>, k: Item) {
    var key := MemberKeyIn(c.opts, fields, k);
    || (key.HugeIn? && !unknown.refuse)
    || (key.KeyIn? && key.member.None? && !Denied(unknown, key.step))
    || (key.KeyIn? && key.member.Some? && fields[key.member.value].skip)
    || (key.KeyIn? && key.member.Some? && key.member.value in seen && c.duplicates.FirstWins?)
  }

  lemma PassedTurn(c: Config, fields: seq<Field>, unknown: Unknown, objOff: nat, vals: seq<Value>, seen: set<nat>,
                   input: seq<byte>, pos: nat, depth: nat, form: Form, s: WireEntries)
    requires EntriesLie(c.opts, input, pos, depth, form, s) && s.Pairs? && |vals| == |fields|
    requires PassedOver(c, fields, unknown, seen, TreeOf(s.key))
    ensures pos < Behind(pos, s) <= |input| && EntriesLie(c.opts, input, Behind(pos, s), depth, form, s.rest)
    ensures StructLoop(c, fields, unknown, objOff, vals, seen, input, pos, depth, form, s)
         == StructLoop(c, fields, unknown, objOff, vals, seen, input, Behind(pos, s), depth, form, s.rest)
  {
    hide DecodeMembers, EntriesLie, Coded, TreeOf, MemberKeyIn, Meaning, StopsAs, IsSyntax;
    var errs := EntryTurn(c, fields, unknown, objOff, vals, seen, [], input, pos, depth, form, s);
    EndsBehind(c.opts, input, pos, depth, form, s);
    BareNothing();
    assert |BareAll(errs)| == |errs|;
    AlsoNothing(StructLoop(c, fields, unknown, objOff, vals, seen, input, Behind(pos, s), depth, form, s.rest));
  }

  /** The error an entry is reported with: no member has its key, or the member has a value already. */
  ghost predicate ReportedAs(c: Config, fields: seq<Field>, unknown: Unknown, seen: set<nat>, k: Item, code: Code,
                             step: PathStep) {
    var key := MemberKeyIn(c.opts, fields, k);
    key.KeyIn? && key.step == step
      && if key.member.None? then Denied(unknown, step) && code.UnknownField?
         else !fields[key.member.value].skip && key.member.value in seen && c.duplicates.ErrorOnDuplicate?
              && code.DuplicateKey?
  }

  lemma ReportedTurn(c: Config, fields: seq<Field>, unknown: Unknown, objOff: nat, vals: seq<Value>, seen: set<nat>,
                     input: seq<byte>, pos: nat, depth: nat, form: Form, s: WireEntries, code: Code, step: PathStep)
    requires EntriesLie(c.opts, input, pos, depth, form, s) && s.Pairs? && |vals| == |fields|
    requires ReportedAs(c, fields, unknown, seen, TreeOf(s.key), code, step)
    ensures pos < Behind(pos, s) <= |input| && EntriesLie(c.opts, input, Behind(pos, s), depth, form, s.rest)
    ensures var whole := StructLoop(c, fields, unknown, objOff, vals, seen, input, pos, depth, form, s);
            var e := Failure(code, pos, [step], false);
            if !c.collect then whole.status == Some(e)
            else whole == Also([e], StructLoop(c, fields, unknown, objOff, vals, seen, input, Behind(pos, s), depth,
                                               form, s.rest))
  {
    hide DecodeMembers, EntriesLie, Lies, Coded, TreeOf, NextEntry, SkipItem, MemberKeyAt, MemberKeyIn, Remaining,
         SkipThen, DecodeMember;
    EntryLies(c.opts, input, pos, depth, form, s);
    EndsBehind(c.opts, input, pos, depth, form, s);
    MembersStep(c, fields, unknown, objOff, vals, seen, input, pos, depth, Remaining(form, s.Length()), None);
    MemberKeyTold(c.opts, fields, input, pos, depth, s.key);
    SkipTurn(c, fields, unknown, objOff, vals, seen, input, pos, depth, form, s);
    assert [] + [step] == [step];
  }

  lemma TailsAlike(c: Config, fields: seq<Field>, unknown: Unknown, off: nat, vals: seq<Value>, seen: set<nat>,
                   input: seq<byte>, pos: nat, depth: nat, form: Form, input': seq<byte>, off': nat, pos': nat,
                   form': Form, s: WireEntries)
    requires EntriesLie(c.opts, input, pos, depth, form, s) && |vals| == |fields|
    requires EntriesLie(c.opts, input', pos', depth, form', s)
    ensures pos <= |input| && pos' <= |input'|
    ensures Alike(StructLoop(c, fields, unknown, off, vals, seen, input, pos, depth, form, s),
                  StructLoop(c, fields, unknown, off', vals, seen, input', pos', depth, form', s))
  {
    hide *;
    MembersMeant(c, fields, unknown, off, vals, seen, input, pos, depth, form, s);
    MembersMeant(c, fields, unknown, off', vals, seen, input', pos', depth, form', s);
    SaysAlike(StructLoop(c, fields, unknown, off, vals, seen, input, pos, depth, form, s),
              StructLoop(c, fields, unknown, off', vals, seen, input', pos', depth, form', s),
              ObjectEnd(c, fields, FoldOf(c, fields, unknown, vals, seen, [], s)),
              EntriesEnd(pos, form, s), EntriesEnd(pos', form', s));
  }

  // ---- the laws ----

  /** An object with the entry `k: v` between `front` and `back`, and the object without it, each anywhere. */
  ghost predicate WithEntry(o: Options, input: seq<byte>, pos: nat, form: Form, input': seq<byte>, pos': nat,
                            form': Form, depth: nat, front: WireEntries, k: Wire, v: Wire, back: WireEntries) {
    Lies(o, input, pos, depth, WMap(form, Join(front, Pairs(k, v, back))))
      && Lies(o, input', pos', depth, WMap(form', Join(front, back)))
  }

  /** How decoding the two compares. */
  ghost predicate Compared(c: Config, e: Option<Failure>, stopped: bool, r: Res, r': Res) {
    if stopped then Alike(r, r') && r.status.Some?
    else if e.Some? then Reported(c.collect, e.value, r, r') else Alike(r, r')
  }

  lemma PassedCompared(c: Config, fields: seq<Field>, unknown: Unknown, seed: Value, input: seq<byte>, pos: nat,
                       form: Form, input': seq<byte>, pos': nat, form': Form, depth: nat, front: WireEntries, k: Wire,
                       v: Wire, back: WireEntries)
    requires WithEntry(c.opts, input, pos, form, input', pos', form', depth, front, k, v, back)
    requires var g := Start(c, fields, unknown, seed, front);
             g.Going? ==> PassedOver(c, fields, unknown, g.seen, TreeOf(k))
    ensures pos <= |input| && pos' <= |input'|
    ensures Compared(c, None, Start(c, fields, unknown, seed, front).Stopped?,
                     Decode(c, TStruct(fields, unknown), seed, input, pos, depth),
                     Decode(c, TStruct(fields, unknown), seed, input', pos', depth))
  {
    hide Decode, Lies, EntriesLie, StructLoop, Start, PassedOver, EntryPlace, Alike, Also, StopsAs, SaysOn, TreeOf,
         BareAll, Join, Behind;
    var s := Pairs(k, v, back);
    var g := Start(c, fields, unknown, seed, front);
    var errs := Fronts(c, fields, unknown, seed, input, pos, depth, form, front, s);
    var errs' := Fronts(c, fields, unknown, seed, input', pos', depth, form', front, back);
    var r, r' := Decode(c, TStruct(fields, unknown), seed, input, pos, depth),
                 Decode(c, TStruct(fields, unknown), seed, input', pos', depth);
    if g.Stopped? {
      StopsAlike(r, r', g.out);
    } else {
      var at, at' := EntryPlace(pos, form, front, s), EntryPlace(pos', form', front, back);
      PassedTurn(c, fields, unknown, pos, g.vals, g.seen, input, at, depth + 1, form, s);
      TailsAlike(c, fields, unknown, pos, g.vals, g.seen, input, Behind(at, s), depth + 1, form, input', pos', at',
                 form', back);
      BareNothing();
      AlsoAlike(errs, errs',
                StructLoop(c, fields, unknown, pos, g.vals, g.seen, input, Behind(at, s), depth + 1, form, back),
                StructLoop(c, fields, unknown, pos', g.vals, g.seen, input', at', depth + 1, form', back));
    }
  }

  lemma ReportedCompared(c: Config, fields: seq<Field>, unknown: Unknown, seed: Value, input: seq<byte>, pos: nat,
                         form: Form, input': seq<byte>, pos': nat, form': Form, depth: nat, front: WireEntries, k: Wire,
                         v: Wire, back: WireEntries, code: Code, step: PathStep)
    requires WithEntry(c.opts, input, pos, form, input', pos', form', depth, front, k, v, back)
    requires var g := Start(c, fields, unknown, seed, front);
             g.Going? ==> ReportedAs(c, fields, unknown, g.seen, TreeOf(k), code, step)
    ensures pos <= |input| && pos' <= |input'|
    ensures Compared(c, Some(Failure(code, EntryPlace(pos, form, front, Pairs(k, v, back)), [step], false)),
                     Start(c, fields, unknown, seed, front).Stopped?,
                     Decode(c, TStruct(fields, unknown), seed, input, pos, depth),
                     Decode(c, TStruct(fields, unknown), seed, input', pos', depth))
  {
    hide Decode, Lies, EntriesLie, StructLoop, Start, ReportedAs, EntryPlace, Alike, StopsAs, SaysOn, TreeOf,
         BareAll, Join, Behind;
    var s := Pairs(k, v, back);
    var g := Start(c, fields, unknown, seed, front);
    var errs := Fronts(c, fields, unknown, seed, input, pos, depth, form, front, s);
    var errs' := Fronts(c, fields, unknown, seed, input', pos', depth, form', front, back);
    var r, r' := Decode(c, TStruct(fields, unknown), seed, input, pos, depth),
                 Decode(c, TStruct(fields, unknown), seed, input', pos', depth);
    if g.Stopped? {
      StopsAlike(r, r', g.out);
    } else {
      var at, at' := EntryPlace(pos, form, front, s), EntryPlace(pos', form', front, back);
      ReportedTurn(c, fields, unknown, pos, g.vals, g.seen, input, at, depth + 1, form, s, code, step);
      TailsAlike(c, fields, unknown, pos, g.vals, g.seen, input, Behind(at, s), depth + 1, form, input', pos', at',
                 form', back);
      BareNothing();
      if c.collect {
        AlsoReported(errs, errs', Failure(code, at, [step], false),
                     StructLoop(c, fields, unknown, pos, g.vals, g.seen, input, Behind(at, s), depth + 1, form, back),
                     StructLoop(c, fields, unknown, pos', g.vals, g.seen, input', at', depth + 1, form', back));
      }
    }
  }

  /** An entry no member answers changes nothing, unless such keys are denied: then it is the error, at its key. */
  lemma UnknownEntry(c: Config, fields: seq<Field>, unknown: Unknown, seed: Value, input: seq<byte>, pos: nat,
                     form: Form, input': seq<byte>, pos': nat, form': Form, depth: nat, front: WireEntries, k: Wire,
                     v: Wire, back: WireEntries, step: PathStep)
    requires WithEntry(c.opts, input, pos, form, input', pos', form', depth, front, k, v, back)
    requires Unanswered(c.opts, fields, TreeOf(k), step)
    ensures pos <= |input| && pos' <= |input'|
    ensures var r, r' := Decode(c, TStruct(fields, unknown), seed, input, pos, depth),
                         Decode(c, TStruct(fields, unknown), seed, input', pos', depth);
            var e := Failure(UnknownField, EntryPlace(pos, form, front, Pairs(k, v, back)), [step], false);
            && Compared(c, if Denied(unknown, step) then Some(e) else None,
                        Start(c, fields, unknown, seed, front).Stopped?, r, r')
            && (r'.status.None? ==> if Denied(unknown, step) then Reported(c.collect, e, r, r') else Alike(r, r'))
  {
    hide Decode, WithEntry, Start, EntryPlace, Alike, Reported, TreeOf, MemberKeyIn, Unanswered, Denied;
    UnansweredIs(c.opts, fields, TreeOf(k), step);
    if Denied(unknown, step) {
      ReportedCompared(c, fields, unknown, seed, input, pos, form, input', pos', form', depth, front, k, v, back,
                       UnknownField, step);
    } else {
      PassedCompared(c, fields, unknown, seed, input, pos, form, input', pos', form', depth, front, k, v, back);
    }
    AlikeFails(Decode(c, TStruct(fields, unknown), seed, input, pos, depth),
               Decode(c, TStruct(fields, unknown), seed, input', pos', depth));
  }

  lemma AlikeFails(r: Res, r': Res)
    ensures Alike(r, r') ==> (r.status.Some? <==> r'.status.Some?)
  {
  }

  /** An integer key of 2^63 or more is never a member's; denied, it ends decoding even when errors are collected. */
  lemma HugeEntry(c: Config, fields: seq<Field>, unknown: Unknown, seed: Value, input: seq<byte>, pos: nat,
                  form: Form, input': seq<byte>, pos': nat, form': Form, depth: nat, front: WireEntries, k: Wire,
                  v: Wire, back: WireEntries, u: nat)
    requires WithEntry(c.opts, input, pos, form, input', pos', form', depth, front, k, v, back)
    requires AnyIntKeys(fields) && Core(c.opts, TreeOf(k)) == Some(UInt(u)) && TWO63 <= u < TWO64
    ensures pos <= |input| && pos' <= |input'|
    ensures var r, r', stopped := Decode(c, TStruct(fields, unknown), seed, input, pos, depth),
                                  Decode(c, TStruct(fields, unknown), seed, input', pos', depth),
                                  Start(c, fields, unknown, seed, front).Stopped?;
            var e := Failure(UnknownField, EntryPlace(pos, form, front, Pairs(k, v, back)), [KeyInt(u)], false);
            if unknown.refuse && !stopped then r.status == Some(e) else Compared(c, None, stopped, r, r')
  {
    hide Decode, WithEntry, Start, EntryPlace, Alike, Reported, TreeOf;
    if unknown.refuse && !Start(c, fields, unknown, seed, front).Stopped? {
      HugeRefused(c, fields, unknown, seed, input, pos, form, input', pos', form', depth, front, k, v, back, u);
    } else {
      PassedCompared(c, fields, unknown, seed, input, pos, form, input', pos', form', depth, front, k, v, back);
    }
  }

  lemma HugeRefused(c: Config, fields: seq<Field>, unknown: Unknown, seed: Value, input: seq<byte>, pos: nat,
                    form: Form, input': seq<byte>, pos': nat, form': Form, depth: nat, front: WireEntries, k: Wire,
                    v: Wire, back: WireEntries, u: nat)
    requires WithEntry(c.opts, input, pos, form, input', pos', form', depth, front, k, v, back)
    requires AnyIntKeys(fields) && Core(c.opts, TreeOf(k)) == Some(UInt(u)) && TWO63 <= u < TWO64
    requires unknown.refuse && Start(c, fields, unknown, seed, front).Going?
    ensures pos <= |input| && pos' <= |input'|
    ensures Decode(c, TStruct(fields, unknown), seed, input, pos, depth).status
         == Some(Failure(UnknownField, EntryPlace(pos, form, front, Pairs(k, v, back)), [KeyInt(u)], false))
  {
    hide Decode, Lies, EntriesLie, Start, EntryPlace, SaysOn, TreeOf, BareAll, Join, Behind, DecodeMembers, Coded,
         NextEntry,          SkipItem, MemberKeyAt, Remaining, SkipThen, DecodeMember;
    var s := Pairs(k, v, back);
    var g := Start(c, fields, unknown, seed, front);
    var errs := Fronts(c, fields, unknown, seed, input, pos, depth, form, front, s);
    LiesInside(c.opts, input', pos', depth, WMap(form', Join(front, back)));
    var at := EntryPlace(pos, form, front, s);
    EntryLies(c.opts, input, at, depth + 1, form, s);
    MembersStep(c, fields, unknown, pos, g.vals, g.seen, input, at, depth + 1, Remaining(form, s.Length()), None);
    MemberKeyTold(c.opts, fields, input, at, depth + 1, k);
    assert [] + [KeyInt(u)] == [KeyInt(u)];
  }

  lemma LiesInside(o: Options, input: seq<byte>, pos: nat, depth: nat, w: Wire)
    requires Lies(o, input, pos, depth, w)
    ensures pos <= |input|
  {
  }

  /** An entry of a member with skip_deserializing changes nothing. */
  lemma SkippedEntry(c: Config, fields: seq<Field>, unknown: Unknown, seed: Value, input: seq<byte>, pos: nat,
                     form: Form, input': seq<byte>, pos': nat, form': Form, depth: nat, front: WireEntries, k: Wire,
                     v: Wire, back: WireEntries, m: nat, step: PathStep)
    requires WithEntry(c.opts, input, pos, form, input', pos', form', depth, front, k, v, back)
    requires Selects(c.opts, fields, TreeOf(k), m, step) && fields[m].skip
    ensures pos <= |input| && pos' <= |input'|
    ensures Compared(c, None, Start(c, fields, unknown, seed, front).Stopped?,
                     Decode(c, TStruct(fields, unknown), seed, input, pos, depth),
                     Decode(c, TStruct(fields, unknown), seed, input', pos', depth))
  {
    hide Decode, WithEntry, Start, Alike, Reported, TreeOf, MemberKeyIn, Compared;
    SelectsIs(c.opts, fields, TreeOf(k), m, step);
    PassedCompared(c, fields, unknown, seed, input, pos, form, input', pos', form', depth, front, k, v, back);
  }

  // ---- repeated members ----

  /** One of the entries has a key of member `m`. */
  ghost predicate Occurs(o: Options, fields: seq<Field>, s: WireEntries, m: nat) {
    s.Pairs? && ((exists step :: Selects(o, fields, TreeOf(s.key), m, step)) || Occurs(o, fields, s.rest, m))
  }

  lemma EntryMarks(c: Config, fields: seq<Field>, unknown: Unknown, vals: seq<Value>, seen: set<nat>,
                   was: seq<Complaint>, s: WireEntries, m: nat)
    requires s.Pairs? && |vals| == |fields| && m < |fields| && !fields[m].skip
    ensures var g := EntryOf(c, fields, unknown, vals, seen, was, s);
            g.Going? ==> seen <= g.seen
                         && ((exists step :: Selects(c.opts, fields, TreeOf(s.key), m, step)) ==> m in g.seen)
  {
    hide Meaning, MemberKeyIn, Selects, TreeOf, AllUnder, Under, IsSyntax, Inside;
    if step :| Selects(c.opts, fields, TreeOf(s.key), m, step) {
      SelectsIs(c.opts, fields, TreeOf(s.key), m, step);
    }
  }

  lemma {:induction false} OccurredIsSeen(c: Config, fields: seq<Field>, unknown: Unknown, vals: seq<Value>,
                                          seen: set<nat>, was: seq<Complaint>, front: WireEntries, m: nat)
    requires |vals| == |fields| && m < |fields| && !fields[m].skip
    requires m in seen || Occurs(c.opts, fields, front, m)
    ensures var g := FoldOf(c, fields, unknown, vals, seen, was, front);
            g.Going? ==> m in g.seen
    decreases front
  {
    hide FoldOf, Selects, EntryOf, TreeOf;
    FoldStep(c, fields, unknown, vals, seen, was, front);
    if front.Pairs? {
      EntryMarks(c, fields, unknown, vals, seen, was, front, m);
      var g := EntryOf(c, fields, unknown, vals, seen, was, front);
      if g.Going? {
        OccurredIsSeen(c, fields, unknown, g.vals, g.seen, g.errs, front.rest, m);
      }
    }
  }

  /** A member that has occurred before is an error at its second key, or keeps its first value. */
  lemma RepeatedEntry(c: Config, fields: seq<Field>, unknown: Unknown, seed: Value, input: seq<byte>, pos: nat,
                      form: Form, input': seq<byte>, pos': nat, form': Form, depth: nat, front: WireEntries, k: Wire,
                      v: Wire, back: WireEntries, m: nat, step: PathStep)
    requires WithEntry(c.opts, input, pos, form, input', pos', form', depth, front, k, v, back)
    requires Selects(c.opts, fields, TreeOf(k), m, step) && !fields[m].skip && Occurs(c.opts, fields, front, m)
    requires !c.duplicates.LastWins?
    ensures pos <= |input| && pos' <= |input'|
    ensures var r, r' := Decode(c, TStruct(fields, unknown), seed, input, pos, depth),
                         Decode(c, TStruct(fields, unknown), seed, input', pos', depth);
            var e := Failure(DuplicateKey, EntryPlace(pos, form, front, Pairs(k, v, back)), [step], false);
            var refused := c.duplicates.ErrorOnDuplicate?;
            && Compared(c, if refused then Some(e) else None, Start(c, fields, unknown, seed, front).Stopped?, r, r')
            && (r'.status.None? ==> if refused then Reported(c.collect, e, r, r') else Alike(r, r'))
  {
    hide Decode, WithEntry, EntryPlace, Alike, Reported, TreeOf, MemberKeyIn, Selects, FoldOf, Occurs;
    SelectsIs(c.opts, fields, TreeOf(k), m, step);
    OccurredIsSeen(c, fields, unknown, MembersOf(fields, seed), {}, [], front, m);
    if c.duplicates.ErrorOnDuplicate? {
      ReportedCompared(c, fields, unknown, seed, input, pos, form, input', pos', form', depth, front, k, v, back,
                       DuplicateKey, step);
    } else {
      PassedCompared(c, fields, unknown, seed, input, pos, form, input', pos', form', depth, front, k, v, back);
    }
    AlikeFails(Decode(c, TStruct(fields, unknown), seed, input, pos, depth),
               Decode(c, TStruct(fields, unknown), seed, input', pos', depth));
  }

  // ---- members that occur once or not at all ----

  /** The key is not one of the member's. */
  ghost predicate Apart(o: Options, f: Field, k: Item) {
    && (forall name :: TextKey(o, k, name) ==> !Takes(f, name))
    && (forall i :: IntKey(o, k, i) ==> f.key != Some(i))
  }

  ghost predicate AllApart(o: Options, f: Field, s: WireEntries) {
    s.NoPairs? || (Apart(o, f, TreeOf(s.key)) && AllApart(o, f, s.rest))
  }

  lemma ApartIs(o: Options, fields: seq<Field>, k: Item, m: nat)
    requires m < |fields| && Apart(o, fields[m], k)
    ensures var key := MemberKeyIn(o, fields, k); key.KeyIn? ==> key.member != Some(m)
  {
    var s := TextIn(o, k);
    if s.Seen? {
      assert TextKey(o, k, s.value);
    }
    var u, i := UIntIn(o, k), SIntIn(o, k);
    if u.Seen? && u.value < TWO63 {
      assert IntKey(o, k, u.value);
    }
    if i.Seen? {
      assert IntKey(o, k, i.value);
    }
  }

  lemma EntryLeaves(c: Config, fields: seq<Field>, unknown: Unknown, vals: seq<Value>, seen: set<nat>,
                    was: seq<Complaint>, s: WireEntries, m: nat)
    requires s.Pairs? && |vals| == |fields| && m < |fields|
    requires fields[m].skip || Apart(c.opts, fields[m], TreeOf(s.key))
    ensures var g := EntryOf(c, fields, unknown, vals, seen, was, s);
            g.Going? ==> g.vals[m] == vals[m] && (m in g.seen <==> m in seen) && was <= g.errs
  {
    hide Meaning, MemberKeyIn, Apart, TreeOf, AllUnder, Under, IsSyntax, Inside;
    if !fields[m].skip {
      ApartIs(c.opts, fields, TreeOf(s.key), m);
    }
  }

  lemma EntryAdds(c: Config, fields: seq<Field>, unknown: Unknown, vals: seq<Value>, seen: set<nat>,
                  was: seq<Complaint>, s: WireEntries)
    requires s.Pairs? && |vals| == |fields|
    ensures var g := EntryOf(c, fields, unknown, vals, seen, was, s);
            g.Going? ==> was <= g.errs
  {
    hide Meaning, MemberKeyIn, TreeOf, AllUnder, Under, IsSyntax, Inside;
  }

  /** Entries of other members leave a member alone. */
  lemma {:induction false} FoldLeaves(c: Config, fields: seq<Field>, unknown: Unknown, vals: seq<Value>,
                                      seen: set<nat>, was: seq<Complaint>, s: WireEntries, m: nat)
    requires |vals| == |fields| && m < |fields| && (fields[m].skip || AllApart(c.opts, fields[m], s))
    ensures var g := FoldOf(c, fields, unknown, vals, seen, was, s);
            g.Going? ==> g.vals[m] == vals[m] && (m in g.seen <==> m in seen) && was <= g.errs
    decreases s
  {
    hide FoldOf, Apart, EntryOf, TreeOf;
    FoldStep(c, fields, unknown, vals, seen, was, s);
    if s.Pairs? {
      EntryLeaves(c, fields, unknown, vals, seen, was, s, m);
      var g := EntryOf(c, fields, unknown, vals, seen, was, s);
      if g.Going? {
        FoldLeaves(c, fields, unknown, g.vals, g.seen, g.errs, s.rest, m);
      }
    }
  }

  lemma {:induction false} MissingIn(fields: seq<Field>, seen: set<nat>, objOff: nat, i: nat, m: nat)
    requires i <= m < |fields| && !fields[m].skip && m !in seen && fields[m].required
    ensures Failure(MissingField, objOff, [], false) in MissingErrs(fields, seen, objOff, i)
    decreases m - i
  {
    if i < m {
      MissingIn(fields, seen, objOff, i + 1, m);
    }
  }

  lemma {:induction false} MissingAre(fields: seq<Field>, seen: set<nat>, objOff: nat, i: nat)
    requires i <= |fields|
    ensures forall e :: e in MissingErrs(fields, seen, objOff, i) ==> e == Failure(MissingField, objOff, [], false)
    decreases |fields| - i
  {
    if i < |fields| {
      MissingAre(fields, seen, objOff, i + 1);
    }
  }

  /** Behind the last entry the loop has what the entries leave and ends the struct. */
  lemma StructEnds(c: Config, fields: seq<Field>, unknown: Unknown, seed: Value, input: seq<byte>, pos: nat, depth: nat,
                   form: Form, s: WireEntries) returns (errs: seq<Failure>, end: nat)
    requires Lies(c.opts, input, pos, depth, WMap(form, s))
    ensures pos <= |input|
    ensures var r, g := Decode(c, TStruct(fields, unknown), seed, input, pos, depth),
                        Start(c, fields, unknown, seed, s);
            if g.Stopped? then r.status.Some?
            else g.errs == BareAll(errs) && r == Also(errs, FinishStruct(c, fields, pos, g.vals, g.seen, end))
  {
    hide Decode, Lies, EntriesLie, Start, EntryPlace, TreeOf, Join, DecodeMembers, NextEntry, Remaining, EntriesEnd,
         FinishStruct, Also, SaysOn;
    JoinNothing(s);
    errs := Fronts(c, fields, unknown, seed, input, pos, depth, form, s, NoPairs);
    BareNothing();
    var g := Start(c, fields, unknown, seed, s);
    var at := EntryPlace(pos, form, s, NoPairs);
    NoEntryLies(c.opts, input, at, depth + 1, form);
    end := EntriesEnd(at, form, NoPairs);
    if g.Going? {
      MembersStep(c, fields, unknown, pos, g.vals, g.seen, input, at, depth + 1, Remaining(form, 0), None);
    }
  }

  /** A member without an entry is missing if it is required; otherwise it gets its default, or stays as it was. A
      skipped member stays as it was, whatever entries there are. */
  lemma AbsentMember(c: Config, fields: seq<Field>, unknown: Unknown, seed: Value, input: seq<byte>, pos: nat,
                     depth: nat, form: Form, s: WireEntries, m: nat)
    requires Lies(c.opts, input, pos, depth, WMap(form, s)) && m < |fields|
    requires fields[m].skip || AllApart(c.opts, fields[m], s)
    ensures pos <= |input|
    ensures var r, f := Decode(c, TStruct(fields, unknown), seed, input, pos, depth), fields[m];
            var missing := Failure(MissingField, pos, [], false);
            if Start(c, fields, unknown, seed, s).Stopped? then r.status.Some?
            else
              && r.value.VStruct? && |r.value.members| == |fields|
              && r.value.members[m] == (if !f.skip && !f.required && f.default.Some? then f.default.value
                                        else MembersOf(fields, seed)[m])
              && (f.required && !f.skip ==> if c.collect then missing in r.errs else r.status == Some(missing))
  {
    hide Decode, Lies, TreeOf, MissingErrs, FoldOf, AllApart;
    var errs, end := StructEnds(c, fields, unknown, seed, input, pos, depth, form, s);
    var g := Start(c, fields, unknown, seed, s);
    if g.Going? {
      FoldLeaves(c, fields, unknown, MembersOf(fields, seed), {}, [], s, m);
      MissingAre(fields, g.seen, pos, 0);
      if fields[m].required && !fields[m].skip {
        MissingIn(fields, g.seen, pos, 0, m);
        assert MissingErrs(fields, g.seen, pos, 0)[0] in MissingErrs(fields, g.seen, pos, 0);
      }
    }
  }

  lemma {:induction false} FoldJoin(c: Config, fields: seq<Field>, unknown: Unknown, vals: seq<Value>, seen: set<nat>,
                                    was: seq<Complaint>, front: WireEntries, back: WireEntries)
    requires |vals| == |fields|
    ensures var g := FoldOf(c, fields, unknown, vals, seen, was, front);
            FoldOf(c, fields, unknown, vals, seen, was, Join(front, back))
            == if g.Stopped? then g else FoldOf(c, fields, unknown, g.vals, g.seen, g.errs, back)
    decreases front
  {
    hide FoldOf, EntryOf, Join;
    FoldStep(c, fields, unknown, vals, seen, was, front);
    FoldStep(c, fields, unknown, vals, seen, was, Join(front, back));
    JoinStep(front, back);
    if front.Pairs? {
      SameFirst(c, fields, unknown, vals, seen, was, 0, front, back);
      var g := EntryOf(c, fields, unknown, vals, seen, was, front);
      if g.Going? {
        FoldJoin(c, fields, unknown, g.vals, g.seen, g.errs, front.rest, back);
      }
    }
  }

  /** What the entry of a member without a value yet leaves. */
  lemma EntrySets(c: Config, fields: seq<Field>, unknown: Unknown, vals: seq<Value>, seen: set<nat>,
                  was: seq<Complaint>, s: WireEntries, m: nat, step: PathStep)
    requires s.Pairs? && |vals| == |fields| && Selects(c.opts, fields, TreeOf(s.key), m, step)
    requires !fields[m].skip && m !in seen
    ensures var g, x := EntryOf(c, fields, unknown, vals, seen, was, s),
                        Meaning(c, fields[m].ty, vals[m], TreeOf(s.val));
            g.Going? ==> g.vals[m] == x.value && m in g.seen && was <= g.errs && (g.errs == was ==> x.status.None?)
  {
    hide Meaning, MemberKeyIn, Selects, TreeOf, AllUnder, Under, IsSyntax;
    SelectsIs(c.opts, fields, TreeOf(s.key), m, step);
  }

  /** A member with one entry holds what its value decodes to. */
  lemma PresentMember(c: Config, fields: seq<Field>, unknown: Unknown, seed: Value, input: seq<byte>, pos: nat,
                      depth: nat, form: Form, front: WireEntries, k: Wire, v: Wire, back: WireEntries, m: nat,
                      step: PathStep)
    requires Lies(c.opts, input, pos, depth, WMap(form, Join(front, Pairs(k, v, back)))) && m < |fields|
    requires Selects(c.opts, fields, TreeOf(k), m, step) && !fields[m].skip
    requires AllApart(c.opts, fields[m], front) && AllApart(c.opts, fields[m], back)
    ensures var at := EntryPlace(pos, form, front, Pairs(k, v, back)) + |Coded(k)|;
            && pos <= |input| && at <= |input|
            && var r, x := Decode(c, TStruct(fields, unknown), seed, input, pos, depth),
                           Decode(c, fields[m].ty, MembersOf(fields, seed)[m], input, at, depth + 1);
               r.status.None? && r.errs == [] ==>
                 && x.status.None? && r.value.VStruct? && |r.value.members| == |fields|
                 && r.value.members[m] == x.value
  {
    hide Decode, Lies, TreeOf, MissingErrs, FoldOf, EntryOf, EntryPlace, AllApart, Meaning, Selects, Join, Coded,
         EntriesLie, Says, FrontSays, NextEntry, SkipItem;
    var s, vals := Pairs(k, v, back), MembersOf(fields, seed);
    var none := Fronts(c, fields, unknown, seed, input, pos, depth, form, front, s);
    var place := EntryPlace(pos, form, front, s);
    EntryLies(c.opts, input, place, depth + 1, form, s);
    var at := place + |Coded(k)|;
    var x := Decode(c, fields[m].ty, vals[m], input, at, depth + 1);
    DecodeMeant(c, fields[m].ty, vals[m], input, at, depth + 1, v);
    SaysEnd(x, Meaning(c, fields[m].ty, vals[m], TreeOf(v)), at + |Coded(v)|);
    var errs, end := StructEnds(c, fields, unknown, seed, input, pos, depth, form, Join(front, s));
    FoldJoin(c, fields, unknown, vals, {}, [], front, s);
    FoldLeaves(c, fields, unknown, vals, {}, [], front, m);
    var g := FoldOf(c, fields, unknown, vals, {}, [], front);
    if g.Going? {
      FoldStep(c, fields, unknown, g.vals, g.seen, g.errs, s);
      EntrySets(c, fields, unknown, g.vals, g.seen, g.errs, s, m, step);
      var h := EntryOf(c, fields, unknown, g.vals, g.seen, g.errs, s);
      if h.Going? {
        FoldLeaves(c, fields, unknown, h.vals, h.seen, h.errs, back, m);
      }
    }
  }
}
