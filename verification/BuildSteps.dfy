/** One turn of each decoding loop, and sums of collected errors. */
module BuildSteps {
  import opened Bytes
  import opened Utf8
  import opened SkipSpec
  import opened ReadSpec
  import opened BuildSpec

  /** The next element of an array. */
  lemma ElemsStep(c: Config, elem: Ty, done: seq<Value>, input: seq<byte>, pos: nat, depth: nat, remaining: Option<nat>)
    requires pos <= |input|
    ensures var whole := DecodeElems(c, elem, done, input, pos, depth, remaining);
            var next := CursorNext(input, pos, remaining);
            if next.CursorError? then whole == Failed(Fresh(next.error), VSeq(done), pos)
            else if next.CursorEnd? then whole == Res(None, VSeq(done), next.pos, [])
            else
              var x := Decode(c, elem, Initial(elem), input, pos, depth);
              var errs := PushAll(x.errs, Index(|done|));
              if x.status.Some? then whole == Res(Some(Push(x.status.value, Index(|done|))), VSeq(done), pos, errs)
              else whole == Also(errs, DecodeElems(c, elem, done + [x.value], input, x.pos, depth, next.remaining))
  {
    hide Decode, CursorNext, Initial, Push, PushAll;
  }

  lemma NoErrs(s: PathStep, r: Res)
    ensures PushAll([], s) == [] && Also([], r) == r
  {
  }

  /** The next element of a tuple that still has room. */
  lemma ItemsStep(c: Config, elems: seq<Ty>, off: nat, vals: seq<Value>, i: nat, input: seq<byte>, pos: nat,
                  depth: nat, remaining: Option<nat>)
    requires pos <= |input| && |vals| == |elems| && i < |elems|
    ensures var whole := DecodeItems(c, elems, off, vals, i, input, pos, depth, remaining);
            var next := CursorNext(input, pos, remaining);
            if next.CursorError? then whole == Failed(Fresh(next.error), VSeq(vals), pos)
            else if next.CursorEnd? then whole == Failed(Fresh(Error(TypeMismatch, off)), VSeq(vals), pos)
            else
              var x := Decode(c, elems[i], vals[i], input, pos, depth);
              var errs := PushAll(x.errs, Index(i));
              if x.status.Some? then whole
                 == Res(Some(Push(x.status.value, Index(i))), VSeq(vals[i := x.value]), pos, errs)
              else whole == Also(errs, DecodeItems(c, elems, off, vals[i := x.value], i + 1, input, x.pos, depth,
                                                   next.remaining))
  {
    hide Decode, CursorNext, Push, PushAll;
  }

  /** What may follow the last element of a tuple. */
  lemma ItemsDone(c: Config, elems: seq<Ty>, off: nat, vals: seq<Value>, input: seq<byte>, pos: nat, depth: nat,
                  remaining: Option<nat>)
    requires pos <= |input| && |vals| == |elems|
    ensures var whole := DecodeItems(c, elems, off, vals, |elems|, input, pos, depth, remaining);
            var next := CursorNext(input, pos, remaining);
            if next.CursorError? then whole == Failed(Fresh(next.error), VSeq(vals), pos)
            else if next.CursorEnd? then whole == Res(None, VSeq(vals), next.pos, [])
            else whole == Failed(Fresh(SkipSurplus(c.opts, off, input, pos, depth, remaining)), VSeq(vals), pos)
  {
    hide Decode, CursorNext, SkipSurplus;
  }

  lemma SurplusStep(o: Options, off: nat, input: seq<byte>, pos: nat, depth: nat, remaining: Option<nat>)
    requires pos <= |input| && CursorNext(input, pos, remaining).CursorItem?
    ensures var sk := SkipItem(o, input, pos, depth);
            SkipSurplus(o, off, input, pos, depth, remaining)
            == if sk.Fail? then sk.error
              else SkipSurplus(o, off, input, sk.pos, depth, CursorNext(input, pos, remaining).remaining)
  {
    hide SkipItem, CursorNext;
  }

  /** The next entry under the first pass over a variant. */
  lemma ScanStep(o: Options, tag: seq<byte>, got: Option<(seq<byte>, nat)>, input: seq<byte>, pos: nat, depth: nat,
                 remaining: Option<nat>, prev: Option<Extent>)
    requires pos <= |input| && ExtentOk(prev, |input|)
    ensures var whole := FindTag(o, tag, got, input, pos, depth, remaining, prev);
            var next := NextEntry(o, input, pos, depth, remaining, prev);
            var key := ExpectText(o, input, pos);
            if next.EntryError? then whole == ScanError(next.error)
            else if next.EntryEnd? then whole == Scanned(got)
            else if key.Missed? then whole == ScanError(key.error)
            else if got.None? && key.value == tag then
              var name := ExpectText(o, input, key.end);
              if name.Missed? then whole == ScanError(name.error)
              else whole == FindTag(o, tag, Some((name.value, key.end)), input, name.end, depth, next.remaining,
                                    next.prev)
            else
              var sk := SkipItem(o, input, key.end, depth);
              if sk.Fail? then whole == ScanError(sk.error)
              else whole == FindTag(o, tag, got, input, sk.pos, depth, next.remaining, next.prev)
  {
    hide NextEntry, ExpectText, SkipItem;
  }

  lemma BoxStep(c: Config, t: Ty, off: nat, done: Value, have: bool, input: seq<byte>, pos: nat, depth: nat,
                remaining: Option<nat>, prev: Option<Extent>)
    requires pos <= |input| && ExtentOk(prev, |input|)
    ensures var whole := DecodeBoxed(c, t, off, done, have, input, pos, depth, remaining, prev);
            var next := NextEntry(c.opts, input, pos, depth, remaining, prev);
            && (next.EntryError? ==> whole == Failed(Fresh(next.error), done, pos))
            && (next.EntryEnd? ==> whole == BoxEnd(off, done, have, next.pos))
  {
    hide DecodeBoxValue, SkipBoxed, NextEntry, ExpectText, VALUE, Fresh, BoxEnd, Failed;
  }

  lemma BoxKeyStep(c: Config, t: Ty, off: nat, done: Value, have: bool, input: seq<byte>, pos: nat, depth: nat,
                   remaining: Option<nat>, prev: Option<Extent>)
    requires pos <= |input| && ExtentOk(prev, |input|)
    requires NextEntry(c.opts, input, pos, depth, remaining, prev).EntryAt?
    ensures var whole := DecodeBoxed(c, t, off, done, have, input, pos, depth, remaining, prev);
            var next := NextEntry(c.opts, input, pos, depth, remaining, prev);
            var key := ExpectText(c.opts, input, pos);
            whole == if key.Missed? then Failed(Fresh(key.error), done, pos)
                     else if key.value == VALUE
                          then DecodeBoxValue(c, t, off, done, input, key.end, depth, next.remaining, next.prev)
                     else SkipBoxed(c, t, off, done, have, input, key.end, depth, next.remaining, next.prev)
  {
    hide DecodeBoxValue, SkipBoxed, NextEntry, ExpectText, VALUE, Fresh, BoxEnd, Failed;
  }

  lemma SkipBoxedStep(c: Config, t: Ty, off: nat, done: Value, have: bool, input: seq<byte>, pos: nat, depth: nat,
                      remaining: Option<nat>, prev: Option<Extent>)
    requires pos <= |input| && ExtentOk(prev, |input|)
    ensures var sk := SkipItem(c.opts, input, pos, depth);
            SkipBoxed(c, t, off, done, have, input, pos, depth, remaining, prev)
            == if sk.Fail? then Failed(Fresh(sk.error), done, pos)
               else DecodeBoxed(c, t, off, done, have, input, sk.pos, depth, remaining, prev)
  {
    hide DecodeBoxed, SkipItem;
  }

  lemma BoxValueStep(c: Config, t: Ty, off: nat, done: Value, input: seq<byte>, pos: nat, depth: nat,
                     remaining: Option<nat>, prev: Option<Extent>)
    requires pos <= |input| && ExtentOk(prev, |input|)
    ensures var whole := DecodeBoxValue(c, t, off, done, input, pos, depth, remaining, prev);
            var x := Decode(c, t, done, input, pos, depth);
            var errs := PushAll(x.errs, Member(VALUE));
            if x.status.Some? then whole == Res(Some(Push(x.status.value, Member(VALUE))), x.value, pos, errs)
            else whole == Also(errs, DecodeBoxed(c, t, off, x.value, true, input, x.pos, depth, remaining, prev))
  {
    hide Decode, DecodeBoxed, Push, PushAll, VALUE;
  }

  /** The next entry of a map. */
  lemma EntriesStep(c: Config, keys: KeyType, unique: bool, elem: Ty, done: seq<Pair>, input: seq<byte>, pos: nat,
                    depth: nat, remaining: Option<nat>, prev: Option<Extent>)
    requires pos <= |input| && ExtentOk(prev, |input|)
    ensures var whole := DecodeEntries(c, keys, unique, elem, done, input, pos, depth, remaining, prev);
            var next := NextEntry(c.opts, input, pos, depth, remaining, prev);
            && (next.EntryError? ==> whole == Failed(Fresh(next.error), VMap(done), pos))
            && (next.EntryEnd? ==> whole == Res(None, VMap(done), next.pos, []))
  {
    hide Decode, DecodeEntry, SkipEntry, NextEntry, MapKeyAt, Earlier, StepOf, Push, Fresh, Failed;
  }

  lemma MapKeyStep(c: Config, keys: KeyType, unique: bool, elem: Ty, done: seq<Pair>, input: seq<byte>, pos: nat,
                   depth: nat, remaining: Option<nat>, prev: Option<Extent>)
    requires pos <= |input| && ExtentOk(prev, |input|)
    requires NextEntry(c.opts, input, pos, depth, remaining, prev).EntryAt?
    ensures var whole := DecodeEntries(c, keys, unique, elem, done, input, pos, depth, remaining, prev);
            var next := NextEntry(c.opts, input, pos, depth, remaining, prev);
            var key := MapKeyAt(c.opts, keys, input, pos);
            if key.Missed? then whole == Failed(Fresh(key.error), VMap(done), pos)
            else
              var found := Earlier(unique, done, key.value);
              whole == if found.Some? && c.duplicates.ErrorOnDuplicate? then
                         Failed(Push(Failure(DuplicateKey, pos, [], false), StepOf(key.value)), VMap(done), pos)
                       else if found.Some? && c.duplicates.FirstWins? then
                         SkipEntry(c, keys, unique, elem, done, input, key.end, depth, next.remaining, next.prev)
                       else DecodeEntry(c, keys, unique, elem, done, input, key.end, depth, next.remaining, next.prev,
                                        key.value, found)
  {
    hide Decode, DecodeEntry, SkipEntry, NextEntry, MapKeyAt, Earlier, StepOf, Push, Fresh, Failed;
  }

  lemma SkipEntryStep(c: Config, keys: KeyType, unique: bool, elem: Ty, done: seq<Pair>, input: seq<byte>, pos: nat,
                      depth: nat, remaining: Option<nat>, prev: Option<Extent>)
    requires pos <= |input| && ExtentOk(prev, |input|)
    ensures var sk := SkipItem(c.opts, input, pos, depth);
            SkipEntry(c, keys, unique, elem, done, input, pos, depth, remaining, prev)
            == if sk.Fail? then Failed(Fresh(sk.error), VMap(done), pos)
               else DecodeEntries(c, keys, unique, elem, done, input, sk.pos, depth, remaining, prev)
  {
    hide DecodeEntries, SkipItem;
  }

  /** What decode_struct makes of the value behind a key. */
  ghost function MemberOutcome(c: Config, fields: seq<Field>, unknown: Unknown, objOff: nat, vals: seq<Value>,
                               seen: set<nat>, input: seq<byte>, pos: nat, depth: nat, remaining: Option<nat>,
                               prev: Option<Extent>, todo: Todo): Res
    requires pos <= |input| && ExtentOk(prev, |input|) && |vals| == |fields| && (todo.Into? ==> todo.member < |fields|)
  {
    if todo.Into? then DecodeMember(c, fields, unknown, objOff, vals, seen, input, pos, depth, remaining, prev,
                                    todo.member)
    else if todo.SkipOver? then SkipThen(c, fields, unknown, objOff, vals, seen, input, pos, depth, remaining, prev)
    else if !c.collect then Failed(todo.e, VStruct(vals), pos)
    else Also([todo.e], SkipThen(c, fields, unknown, objOff, vals, seen, input, pos, depth, remaining, prev))
  }

  /** The next entry of an object. */
  lemma MembersStep(c: Config, fields: seq<Field>, unknown: Unknown, objOff: nat, vals: seq<Value>, seen: set<nat>,
                    input: seq<byte>, pos: nat, depth: nat, remaining: Option<nat>, prev: Option<Extent>)
    requires pos <= |input| && ExtentOk(prev, |input|) && |vals| == |fields|
    ensures var whole := DecodeMembers(c, fields, unknown, objOff, vals, seen, input, pos, depth, remaining, prev);
            var next := NextEntry(c.opts, input, pos, depth, remaining, prev);
            var key := MemberKeyAt(c.opts, fields, input, pos);
            if next.EntryError? then whole == Failed(Fresh(next.error), VStruct(vals), pos)
            else if next.EntryEnd? then whole == FinishStruct(c, fields, objOff, vals, seen, next.pos)
            else if key.BadKey? then whole == Failed(Fresh(key.error), VStruct(vals), pos)
            else if key.HugeKey? then
              if !unknown.refuse then whole
                 == SkipThen(c, fields, unknown, objOff, vals, seen, input, key.end, depth, next.remaining, next.prev)
              else
                var sk := SkipItem(c.opts, input, key.end, depth);
                whole == Failed(if sk.Fail? then Fresh(sk.error)
                                else Push(Failure(UnknownField, pos, [], false), KeyInt(key.k)), VStruct(vals), pos)
            else
              var todo := EntryTodo(c, fields, unknown, seen, pos, key);
              whole == MemberOutcome(c, fields, unknown, objOff, vals, seen, input, key.end, depth, next.remaining,
                                     next.prev, todo)
  {
    hide NextEntry, MemberKeyAt, SkipItem, SkipThen, EntryTodo, FinishStruct, DecodeMember, Push;
  }

  lemma MemberStep(c: Config, fields: seq<Field>, unknown: Unknown, objOff: nat, vals: seq<Value>, seen: set<nat>,
                   input: seq<byte>, pos: nat, depth: nat, remaining: Option<nat>, prev: Option<Extent>, m: nat)
    requires pos <= |input| && ExtentOk(prev, |input|) && |vals| == |fields| && m < |fields|
    ensures var whole := DecodeMember(c, fields, unknown, objOff, vals, seen, input, pos, depth, remaining, prev, m);
            var x := Decode(c, fields[m].ty, vals[m], input, pos, depth);
            var errs := PushAll(x.errs, Member(fields[m].ident));
            var vals', seen' := vals[m := x.value], seen + {m};
            if x.status.None? then whole
               == Also(errs, DecodeMembers(c, fields, unknown, objOff, vals', seen', input, x.pos, depth, remaining,
                                           prev))
            else
              var e := Push(x.status.value, Member(fields[m].ident));
              if !c.collect || IsSyntax(e.code) then whole == Res(Some(e), VStruct(vals'), pos, errs)
              else whole == Also(errs + [e],
                                 SkipThen(c, fields, unknown, objOff, vals', seen', input, pos, depth, remaining, prev))
  {
    hide Decode, DecodeMembers, SkipThen, Push, PushAll, IsSyntax;
  }

  lemma SkipStep(c: Config, fields: seq<Field>, unknown: Unknown, objOff: nat, vals: seq<Value>, seen: set<nat>,
                 input: seq<byte>, pos: nat, depth: nat, remaining: Option<nat>, prev: Option<Extent>)
    requires pos <= |input| && ExtentOk(prev, |input|) && |vals| == |fields|
    ensures var sk := SkipItem(c.opts, input, pos, depth);
            SkipThen(c, fields, unknown, objOff, vals, seen, input, pos, depth, remaining, prev)
            == if sk.Fail? then Failed(Fresh(sk.error), VStruct(vals), pos)
               else DecodeMembers(c, fields, unknown, objOff, vals, seen, input, sk.pos, depth, remaining, prev)
  {
    hide DecodeMembers, SkipItem;
  }

  lemma FinishEnds(c: Config, fields: seq<Field>, objOff: nat, vals: seq<Value>, seen: set<nat>, pos: nat)
    requires |vals| == |fields|
    ensures FinishStruct(c, fields, objOff, vals, seen, pos).pos == pos
  {
  }

  lemma EntryIs(c: Config, keys: KeyType, unique: bool, elem: Ty, done: seq<Pair>, input: seq<byte>, pos: nat,
                depth: nat, remaining: Option<nat>, prev: Option<Extent>, key: MapKey, found: Option<nat>)
    requires pos <= |input| && ExtentOk(prev, |input|) && (found.Some? ==> found.value < |done|)
    ensures var x := Decode(c, elem, if found.Some? then done[found.value].val else Initial(elem), input, pos, depth);
            var errs := PushAll(x.errs, StepOf(key));
            DecodeEntry(c, keys, unique, elem, done, input, pos, depth, remaining, prev, key, found)
            == if x.status.Some? then Res(Some(Push(x.status.value, StepOf(key))), VMap(done), pos, errs)
               else
                 var next := if found.Some? then done[found.value := Pair(key, x.value)]
                   else done + [Pair(key, x.value)];
                 Also(errs, DecodeEntries(c, keys, unique, elem, next, input, x.pos, depth, remaining, prev))
  {
    hide Decode, DecodeEntries, PushAll, Push, Initial, StepOf;
  }

  /** What is left of `Also(errs, x)`, on top of what had been collected before. */
  lemma AlsoLeaves(was: seq<Failure>, errs: seq<Failure>, x: Res)
    ensures var y := Also(errs, x);
            && y.status == x.status && y.value == x.value && y.pos == x.pos && was + y.errs == was + errs + x.errs
            && (x.errs == [] ==> was + y.errs == was + errs)
  {
    assert was + (errs + x.errs) == was + errs + x.errs;
  }

  lemma Appended(a: seq<Failure>, b: seq<Failure>, d: seq<Failure>)
    ensures a + b + d == a + (b + d)
  {
  }

  lemma AlsoAlso(a: seq<Failure>, b: seq<Failure>, x: Res)
    ensures Also(a, Also(b, x)) == Also(a + b, x)
  {
    assert a + (b + x.errs) == a + b + x.errs;
  }
}
