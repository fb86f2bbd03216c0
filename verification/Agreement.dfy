/** The validator and the cursor-driven reader accept the same inputs and consume the same bytes. */
module Agreement {
  import opened Bytes
  import opened Head
  import opened Utf8
  import opened Floats
  import opened Item
  import opened SkipSpec
  import opened ReadSpec
  import opened Strict
  import opened Walks

  /** The reader's answer counts in strict mode only when no overlong tag head was skipped. */
  predicate Counts(o: Options, loose: bool) {
    o.requireDeterministic ==> !loose
  }

  // ---- heads and scalars ----

  /** What the validator accepts, and the policies let in, has a head the cursors accept. */
  lemma {:induction false} HeadsSkip(o: Options, input: seq<byte>, pos: nat, depth: nat)
    requires pos <= |input| && SkipItem(o, input, pos, depth).Done? && !Meets(Unwelcome, o, input, pos, depth)
    ensures ItemHead(o, input, pos).HeadAt?
    decreases |input| - pos
  {
    hide SkipLevel, LevelMeets, ParseHead, ReadString, IsPreferred, Widen, WellFormed, FirstBad;
    var h := ParseHead(input, pos);
    if h.mt == TAG {
      HeadsSkip(o, input, pos + h.length, depth);
    }
  }

  /** Tags in front of a head change nothing, unless strict mode minds their length. */
  lemma {:induction false} TagsPass(o: Options, input: seq<byte>, pos: nat, depth: nat)
    requires pos <= |input| && ItemHead(o, input, pos).HeadAt?
    ensures var r := ItemHead(o, input, pos);
            if Counts(o, r.loose) then
              SkipItem(o, input, pos, depth) == SkipItem(o, input, r.at, depth)
              && (Meets(Unwelcome, o, input, pos, depth) <==> Meets(Unwelcome, o, input, r.at, depth))
            else SkipItem(o, input, pos, depth).Fail?
    decreases |input| - pos
  {
    hide SkipLevel, LevelMeets, SkipScalar, ParseHead;
    var h := ParseHead(input, pos);
    if h.mt == TAG {
      TagsPass(o, input, pos + h.length, depth);
    }
  }

  lemma IndefiniteArgument(input: seq<byte>, pos: nat)
    ensures ParseHead(input, pos).indefinite ==> ParseHead(input, pos).value == 0
  {
  }

  /** What item_head has established of the head it answers with. */
  predicate HeadChecked(o: Options, input: seq<byte>, at: nat) {
    var h := ParseHead(input, at);
    HeadError(o, h, at).None? && h.mt != TAG && !(h.mt == SIMPLE && h.ai == 24 && h.value < 32)
  }

  lemma ScalarsAgree(o: Options, input: seq<byte>, at: nat, depth: nat)
    requires at < |input|
    requires HeadChecked(o, input, at) && ParseHead(input, at).mt != ARRAY && ParseHead(input, at).mt != MAP
    ensures var s, r := SkipItem(o, input, at, depth), ReadAt(o, input, at, depth, false);
            && (r.Read? ==> s == Done(r.pos, false) && !r.loose && !Meets(Unwelcome, o, input, at, depth))
            && (s.Done? && !Meets(Unwelcome, o, input, at, depth) ==> r.Read?)
  {
    hide IsPreferred, Widen, ReadString, WellFormed, SkipLevel, LevelMeets, Reject, ReadSeq, ReadMap;
  }

  // ---- containers ----

  /** Entries take at least two bytes each, so a count of 2^63 or more cannot be satisfied. */
  lemma {:induction false} MapBytes(o: Options, input: seq<byte>, pos: nat, depth: nat, n: nat, prev: Option<Extent>)
    requires pos <= |input| && ExtentOk(prev, |input|)
    ensures var r := ReadMap(o, input, pos, depth, Some(n), prev); r.ReadEntries? ==> r.pos - pos >= 2 * n
    decreases |input| - pos
  {
    hide ReadItem, CheckKey;
    if n > 0 && ReadMap(o, input, pos, depth, Some(n), prev).ReadEntries? {
      var k := ReadItem(o, input, pos, depth);
      var v := ReadItem(o, input, k.pos, depth);
      MapBytes(o, input, v.pos, depth, n - 1, CheckKey(o, input, pos, depth, prev).prev);
    }
  }

  /** A level and a sequence cursor at the same place. */
  predicate SameSeq(lv: Level, remaining: Option<nat>, pos: nat) {
    lv.Ok(pos) && !lv.isMap && lv.remaining == remaining && (remaining.Some? ==> remaining.value > 0)
  }

  /** A level waiting for a key and a map cursor at the same place. */
  ghost predicate SameMap(o: Options, lv: Level, remaining: Option<nat>, prev: Option<Extent>, pos: nat) {
    && lv.Ok(pos) && lv.isMap && lv.keyNext && !lv.inKey
    && match remaining {
         case None => lv.remaining.None?
         case Some(n) => 0 < n < TWO63 && lv.remaining == Some(2 * n)
       }
    && (o.requireDeterministic ==> lv.havePrev == prev.Some?)
    && (o.requireDeterministic && prev.Some? ==> prev.value == Extent(lv.prevStart, lv.prevEnd))
  }

  /** What AfterItem does with an array level, counted or not. */
  lemma AfterSeqItem(o: Options, input: seq<byte>, pos: nat, p: nat, lv: Level, remaining: Option<nat>)
    requires pos <= p <= |input| && SameSeq(lv, remaining, pos)
    ensures var left := if remaining.Some? then Some(remaining.value - 1) else None;
            AfterItem(o, input, p, AtItem(o, lv, pos)) == if left == Some(0) then Complete
              else More(lv.(remaining := left))
  {
  }

  lemma BreakEndsSeq(o: Options, input: seq<byte>, pos: nat, depth: nat, lv: Level)
    requires pos < |input| && input[pos] == BREAK && lv.Ok(pos)
    ensures SkipLevel(o, input, pos, depth, lv)
            == if lv.remaining.Some? || (lv.isMap && !lv.keyNext) then Fail(Error(MalformedItem, pos))
              else Done(pos + 1, false)
  {
    hide AfterItem, SkipItem;
  }

  lemma BreakIsNoItem(o: Options, input: seq<byte>, pos: nat, depth: nat)
    requires pos < |input| && input[pos] == BREAK
    ensures SkipItem(o, input, pos, depth).Fail? && ReadItem(o, input, pos, depth).NotRead?
  {
    hide SkipLevel, ReadSeq, ReadMap, ReadScalar;
  }

  /** An accepted level has an accepted next item, or ends with a break. */
  lemma LevelNeedsItem(o: Options, input: seq<byte>, pos: nat, depth: nat, lv: Level, p: nat) returns (q: nat)
    requires pos <= |input| && lv.Ok(pos) && SkipLevel(o, input, pos, depth, lv) == Done(p, false)
    requires lv.remaining.Some? || !(pos < |input| && input[pos] == BREAK)
    ensures pos < |input| && input[pos] != BREAK && pos < q <= |input|
            && SkipItem(o, input, pos, depth) == Done(q, false)
  {
    hide AfterItem;
    if pos < |input| && input[pos] == BREAK {
      BreakEndsSeq(o, input, pos, depth, lv);
    }
    q := SkipItem(o, input, pos, depth).pos;
  }

  /** `welcome` tells that the validator met nothing the reader's policies refuse. Then acceptance on one side is
      acceptance on the other, at the same place; an answer that does not count was refused by the validator. */
  predicate Agree(o: Options, welcome: bool, s: Outcome, r: ReadResult) {
    && (s.Done? && !s.wrapped && welcome ==> r.Read? && r.pos == s.pos && Counts(o, r.loose))
    && (r.Read? ==> if Counts(o, r.loose) then s == Done(r.pos, false) && welcome else s.Fail?)
  }

  predicate AgreeItems(o: Options, welcome: bool, s: Outcome, r: ReadItemsResult) {
    && (s.Done? && !s.wrapped && welcome ==> r.ReadItems? && r.pos == s.pos && Counts(o, r.loose))
    && (r.ReadItems? ==> if Counts(o, r.loose) then s == Done(r.pos, false) && welcome else s.Fail?)
  }

  predicate AgreeEntries(o: Options, welcome: bool, s: Outcome, r: ReadEntriesResult) {
    && (s.Done? && !s.wrapped && welcome ==> r.ReadEntries? && r.pos == s.pos && Counts(o, r.loose))
    && (r.ReadEntries? ==> if Counts(o, r.loose) then s == Done(r.pos, false) && welcome else s.Fail?)
  }

  /** The reader accepts an item up to `p`, its answer counts, and so does the validator. */
  ghost predicate BothTake(o: Options, input: seq<byte>, pos: nat, depth: nat, p: nat)
    requires pos <= |input|
  {
    var r := ReadItem(o, input, pos, depth);
    && r.Read? && r.pos == p && Counts(o, r.loose)
    && SkipItem(o, input, pos, depth) == Done(p, false) && !Meets(Unwelcome, o, input, pos, depth)
  }

  /** The validator and the reader agree on every item. */
  lemma {:induction false} ItemsAgree(o: Options, input: seq<byte>, pos: nat, depth: nat)
    requires |input| < TWO64 && pos <= |input|
    ensures Agree(o, !Meets(Unwelcome, o, input, pos, depth), SkipItem(o, input, pos, depth),
                  ReadItem(o, input, pos, depth))
    decreases |input| - pos, 1
  {
    hide SkipItem, ReadAt, ItemHead, Meets, Reject;
    var s := SkipItem(o, input, pos, depth);
    if s.Done? && !Meets(Unwelcome, o, input, pos, depth) {
      HeadsSkip(o, input, pos, depth);
    }
    var head := ItemHead(o, input, pos);
    if head.HeadAt? {
      TagsPass(o, input, pos, depth);
      HeadsAgree(o, input, head.at, depth);
      LooseAdds(o, input, head.at, depth, head.loose);
    }
  }

  lemma {:induction false} HeadsAgree(o: Options, input: seq<byte>, at: nat, depth: nat)
    requires |input| < TWO64 && at < |input| && HeadChecked(o, input, at)
    ensures Agree(o, !Meets(Unwelcome, o, input, at, depth), SkipItem(o, input, at, depth),
                  ReadAt(o, input, at, depth, false))
    decreases |input| - at, 0
  {
    hide SkipLevel, LevelMeets, ReadSeq, ReadMap, ReadScalar, SkipScalar, ParseHead, Reject;
    var h := ParseHead(input, at);
    IndefiniteArgument(input, at);
    if h.mt != ARRAY && h.mt != MAP {
      ScalarsAgree(o, input, at, depth);
    } else if depth < o.maxDepth {
      var next := at + h.length;
      var n := if h.indefinite then None else Some(h.value);
      if n == Some(0) {
        EmptyContainers(o, input, next, depth + 1);
      } else if h.mt == ARRAY {
        SeqsAgree(o, input, next, depth + 1, n, OpenLevel(h));
      } else if h.value < TWO63 {
        MapsAgree(o, input, next, depth + 1, n, None, OpenLevel(h));
      } else {
        MapBytes(o, input, next, depth + 1, h.value, None);
      }
    }
  }

  lemma EmptyContainers(o: Options, input: seq<byte>, pos: nat, depth: nat)
    requires pos <= |input|
    ensures ReadSeq(o, input, pos, depth, Some(0)) == ReadItems(NoItems, pos, false)
    ensures ReadMap(o, input, pos, depth, Some(0), None) == ReadEntries(NoEntries, pos, false)
  {
  }

  /** One more member of a level, for the walk. */
  lemma LevelMeetsStep(o: Options, input: seq<byte>, pos: nat, depth: nat, lv: Level, q: nat)
    requires pos < |input| && lv.Ok(pos) && input[pos] != BREAK && SkipItem(o, input, pos, depth) == Done(q, false)
    requires !Meets(Unwelcome, o, input, pos, depth)
    ensures var step := AfterItem(o, input, q, AtItem(o, lv, pos));
            LevelMeets(Unwelcome, o, input, pos, depth, lv) <==>
            step.More? && LevelMeets(Unwelcome, o, input, q, depth, step.level)
  {
    hide Meets, AfterItem, SkipItem;
    assert ParseHead(input, pos).length > 0 by {
      HeadOfItem(o, input, pos, depth);
    }
  }

  lemma HeadOfItem(o: Options, input: seq<byte>, pos: nat, depth: nat)
    requires pos <= |input| && SkipItem(o, input, pos, depth).Done?
    ensures ParseHead(input, pos).length > 0 && !ParseHead(input, pos).isBreak
  {
    hide ParseHead, SkipLevel, SkipScalar;
  }

  lemma BreakMeetsNothing(o: Options, input: seq<byte>, pos: nat, depth: nat, lv: Level)
    requires pos < |input| && lv.Ok(pos) && input[pos] == BREAK
    ensures !LevelMeets(Unwelcome, o, input, pos, depth, lv)
  {
  }

  /** A level whose next item the validator refuses, or does not welcome. */
  lemma LevelStopsAtItem(o: Options, input: seq<byte>, pos: nat, depth: nat, lv: Level)
    requires pos < |input| && lv.Ok(pos) && input[pos] != BREAK
    ensures SkipItem(o, input, pos, depth).Fail? ==> SkipLevel(o, input, pos, depth, lv).Fail?
    ensures SkipItem(o, input, pos, depth).Done? && Meets(Unwelcome, o, input, pos, depth)
            ==> LevelMeets(Unwelcome, o, input, pos, depth, lv)
  {
    hide SkipItem, Meets, AfterItem;
    if SkipItem(o, input, pos, depth).Done? {
      HeadOfItem(o, input, pos, depth);
    }
  }

  lemma {:induction false} SeqsAgree(o: Options, input: seq<byte>, pos: nat, depth: nat, remaining: Option<nat>,
                                     lv: Level)
    requires |input| < TWO64 && pos <= |input| && SameSeq(lv, remaining, pos)
    ensures AgreeItems(o, !LevelMeets(Unwelcome, o, input, pos, depth, lv), SkipLevel(o, input, pos, depth, lv),
                       ReadSeq(o, input, pos, depth, remaining))
    decreases |input| - pos, 2
  {
    hide SkipItem, SkipLevel, ReadItem, AfterItem, AtItem, Meets, LevelMeets;
    var s, r := SkipLevel(o, input, pos, depth, lv), ReadSeq(o, input, pos, depth, remaining);
    ItemsAgree(o, input, pos, depth);
    if pos < |input| && input[pos] == BREAK {
      BreakEndsSeq(o, input, pos, depth, lv);
      BreakIsNoItem(o, input, pos, depth);
      BreakMeetsNothing(o, input, pos, depth, lv);
    } else if s.Done? && !s.wrapped && !LevelMeets(Unwelcome, o, input, pos, depth, lv) {
      var q := LevelNeedsItem(o, input, pos, depth, lv, s.pos);
      LevelStopsAtItem(o, input, pos, depth, lv);
      SeqStep(o, input, pos, depth, remaining, lv, q);
    } else if r.ReadItems? {
      LevelStopsAtItem(o, input, pos, depth, lv);
      if Counts(o, ReadItem(o, input, pos, depth).loose) {
        SeqStep(o, input, pos, depth, remaining, lv, ReadItem(o, input, pos, depth).pos);
      }
    }
  }

  lemma {:induction false} SeqStep(o: Options, input: seq<byte>, pos: nat, depth: nat, remaining: Option<nat>,
                                   lv: Level, q: nat)
    requires |input| < TWO64 && pos < q <= |input| && SameSeq(lv, remaining, pos) && input[pos] != BREAK
    requires BothTake(o, input, pos, depth, q)
    ensures AgreeItems(o, !LevelMeets(Unwelcome, o, input, pos, depth, lv), SkipLevel(o, input, pos, depth, lv),
                       ReadSeq(o, input, pos, depth, remaining))
    decreases |input| - pos, 1
  {
    hide SkipItem, SkipLevel, ReadItem, AfterItem, AtItem, Meets, LevelMeets;
    LevelStep(o, input, pos, depth, lv, q, false);
    LevelMeetsStep(o, input, pos, depth, lv, q);
    AfterSeqItem(o, input, pos, q, lv, remaining);
    var left := if remaining.Some? then Some(remaining.value - 1) else None;
    if left == Some(0) {
      EmptyContainers(o, input, q, depth);
    } else {
      SeqsAgree(o, input, q, depth, left, lv.(remaining := left));
    }
  }

  // ---- maps ----

  /** A level after its key, and again after its value. */
  lemma AfterMapKey(o: Options, input: seq<byte>, pos: nat, p: nat, lv: Level, remaining: Option<nat>,
                    prev: Option<Extent>)
    requires pos < p <= |input| && SameMap(o, lv, remaining, prev, pos) && ExtentOk(prev, |input|)
    ensures var key := AtItem(o, lv, pos);
            key.Ok(p) && (o.requireDeterministic && key.isMap && key.keyNext ==> key.inKey)
    ensures var step := AfterItem(o, input, p, AtItem(o, lv, pos));
            if o.requireDeterministic && prev.Some?
               && !KeyInOrder(input[pos..p], input[prev.value.start..prev.value.end]) then step.Bad?
            else step.More? && step.level == MidLevel(o, lv, pos, p)
  {
  }

  function MidLevel(o: Options, lv: Level, pos: nat, p: nat): Level {
    var mid := lv.(keyNext := false,
                   remaining := if lv.remaining.Some?
                     && lv.remaining.value > 0 then Some(lv.remaining.value - 1) else lv.remaining);
    if o.requireDeterministic then mid.(keyStart := pos, prevStart := pos, prevEnd := p, havePrev := true,
                                        inKey := false) else mid
  }

  lemma AfterMapValue(o: Options, input: seq<byte>, pos: nat, p: nat, q: nat, lv: Level, remaining: Option<nat>,
                      prev: Option<Extent>)
    requires pos < p < q <= |input| && SameMap(o, lv, remaining, prev, pos)
    ensures var mid := MidLevel(o, lv, pos, p);
            var left := if remaining.Some? then Some(remaining.value - 1) else None;
            mid.Ok(p) && AtItem(o, mid, p) == mid && mid.Ok(q) && !mid.keyNext
            && (var step := AfterItem(o, input, q, mid);
                if left == Some(0) then step.Complete?
                else step.More? && SameMap(o, step.level, left,
                                           if o.requireDeterministic then Some(Extent(pos, p)) else prev, q))
  {
  }

  lemma {:induction false} MapsAgree(o: Options, input: seq<byte>, pos: nat, depth: nat, remaining: Option<nat>,
                                     prev: Option<Extent>, lv: Level)
    requires |input| < TWO64 && pos <= |input| && SameMap(o, lv, remaining, prev, pos) && ExtentOk(prev, |input|)
    ensures AgreeEntries(o, !LevelMeets(Unwelcome, o, input, pos, depth, lv), SkipLevel(o, input, pos, depth, lv),
                         ReadMap(o, input, pos, depth, remaining, prev))
    decreases |input| - pos, 4
  {
    hide SkipItem, SkipLevel, ReadItem, AfterItem, AtItem, KeyInOrder, Meets, LevelMeets;
    var s, r := SkipLevel(o, input, pos, depth, lv), ReadMap(o, input, pos, depth, remaining, prev);
    ItemsAgree(o, input, pos, depth);
    if pos < |input| && input[pos] == BREAK {
      BreakEndsSeq(o, input, pos, depth, lv);
      BreakIsNoItem(o, input, pos, depth);
      BreakMeetsNothing(o, input, pos, depth, lv);
    } else if s.Done? && !s.wrapped && !LevelMeets(Unwelcome, o, input, pos, depth, lv) {
      var q := LevelNeedsItem(o, input, pos, depth, lv, s.pos);
      LevelStopsAtItem(o, input, pos, depth, lv);
      KeyStep(o, input, pos, depth, remaining, prev, lv, q);
    } else if r.ReadEntries? {
      LevelStopsAtItem(o, input, pos, depth, lv);
      KeyWasRead(o, input, pos, depth, remaining, prev);
      if Counts(o, ReadItem(o, input, pos, depth).loose) {
        KeyStep(o, input, pos, depth, remaining, prev, lv, ReadItem(o, input, pos, depth).pos);
      }
    }
  }

  /** The key at `pos..p` is accepted by both. */
  lemma {:induction false} KeyStep(o: Options, input: seq<byte>, pos: nat, depth: nat, remaining: Option<nat>,
                                   prev: Option<Extent>, lv: Level, p: nat)
    requires |input| < TWO64 && pos < p <= |input| && SameMap(o, lv, remaining, prev, pos) && ExtentOk(prev, |input|)
    requires input[pos] != BREAK && BothTake(o, input, pos, depth, p)
    ensures AgreeEntries(o, !LevelMeets(Unwelcome, o, input, pos, depth, lv), SkipLevel(o, input, pos, depth, lv),
                         ReadMap(o, input, pos, depth, remaining, prev))
    decreases |input| - pos, 3
  {
    hide SkipItem, SkipLevel, ReadItem, AfterItem, AtItem, KeyInOrder, MidLevel, Meets, LevelMeets;
    var s, r := SkipLevel(o, input, pos, depth, lv), ReadMap(o, input, pos, depth, remaining, prev);
    LevelStep(o, input, pos, depth, lv, p, false);
    LevelMeetsStep(o, input, pos, depth, lv, p);
    AfterMapKey(o, input, pos, p, lv, remaining, prev);
    if o.requireDeterministic && prev.Some? && !KeyInOrder(input[pos..p], input[prev.value.start..prev.value.end]) {
      KeyRefused(o, input, pos, depth, remaining, prev, p);
      return;
    }
    var mid := MidLevel(o, lv, pos, p);
    assert s == SkipLevel(o, input, p, depth, mid);
    ItemsAgree(o, input, p, depth);
    if p < |input| && input[p] == BREAK {
      MidNoBreak(o, input, pos, p, depth, lv, remaining, prev);
      BreakIsNoItem(o, input, p, depth);
      if r.ReadEntries? {
        ValueWasRead(o, input, pos, depth, remaining, prev);
      }
    } else if s.Done? && !s.wrapped && !LevelMeets(Unwelcome, o, input, p, depth, mid) {
      var q := LevelNeedsItem(o, input, p, depth, mid, s.pos);
      LevelStopsAtItem(o, input, p, depth, mid);
      ValueStep(o, input, pos, depth, remaining, prev, lv, p, q);
    } else if r.ReadEntries? {
      ValueWasRead(o, input, pos, depth, remaining, prev);
      LevelStopsAtItem(o, input, p, depth, mid);
      if Counts(o, ReadItem(o, input, p, depth).loose) {
        ValueStep(o, input, pos, depth, remaining, prev, lv, p, ReadItem(o, input, p, depth).pos);
      }
    }
  }

  /** An entry whose key is out of order is refused by the cursor before it is read. */
  lemma KeyRefused(o: Options, input: seq<byte>, pos: nat, depth: nat, remaining: Option<nat>, prev: Option<Extent>,
                   p: nat)
    requires pos < p <= |input| && ExtentOk(prev, |input|) && remaining != Some(0) && input[pos] != BREAK
    requires SkipItem(o, input, pos, depth) == Done(p, false)
    requires o.requireDeterministic && prev.Some? && !KeyInOrder(input[pos..p], input[prev.value.start..prev.value.end])
    ensures ReadMap(o, input, pos, depth, remaining, prev).NotReadEntries?
  {
    hide SkipItem, ReadItem, KeyInOrder;
  }

  /** An accepted map has an accepted value after its first key. */
  lemma ValueWasRead(o: Options, input: seq<byte>, pos: nat, depth: nat, remaining: Option<nat>, prev: Option<Extent>)
    requires pos < |input| && ExtentOk(prev, |input|) && remaining != Some(0) && input[pos] != BREAK
    requires ReadMap(o, input, pos, depth, remaining, prev).ReadEntries?
    ensures var k := ReadItem(o, input, pos, depth);
            k.Read? && (var v := ReadItem(o, input, k.pos, depth);
                        v.Read? && (v.loose ==> ReadMap(o, input, pos, depth, remaining, prev).loose))
  {
    hide ReadItem, CheckKey;
  }

  lemma MidNoBreak(o: Options, input: seq<byte>, pos: nat, p: nat, depth: nat, lv: Level, remaining: Option<nat>,
                   prev: Option<Extent>)
    requires pos < p < |input| && input[p] == BREAK && SameMap(o, lv, remaining, prev, pos)
    ensures MidLevel(o, lv, pos, p).Ok(p) && SkipLevel(o, input, p, depth, MidLevel(o, lv, pos, p)).Fail?
  {
    hide SkipLevel;
    BreakEndsSeq(o, input, p, depth, MidLevel(o, lv, pos, p));
  }

  /** The key at `pos..p` and the value at `p..q` are accepted by both, the key in order. */
  lemma {:induction false} ValueStep(o: Options, input: seq<byte>, pos: nat, depth: nat, remaining: Option<nat>,
                                     prev: Option<Extent>, lv: Level, p: nat, q: nat)
    requires |input| < TWO64 && pos < p < q <= |input| && SameMap(o, lv, remaining, prev, pos)
             && ExtentOk(prev, |input|)
    requires input[pos] != BREAK && input[p] != BREAK && BothTake(o, input, pos, depth, p)
             && BothTake(o, input, p, depth, q)
    requires !(o.requireDeterministic && prev.Some?
               && !KeyInOrder(input[pos..p], input[prev.value.start..prev.value.end]))
    requires MidLevel(o, lv, pos, p).Ok(p)
             && SkipLevel(o, input, pos, depth, lv) == SkipLevel(o, input, p, depth, MidLevel(o, lv, pos, p))
    requires LevelMeets(Unwelcome, o, input, pos, depth, lv)
             <==> LevelMeets(Unwelcome, o, input, p, depth, MidLevel(o, lv, pos, p))
    ensures AgreeEntries(o, !LevelMeets(Unwelcome, o, input, pos, depth, lv), SkipLevel(o, input, pos, depth, lv),
                         ReadMap(o, input, pos, depth, remaining, prev))
    decreases |input| - pos, 2
  {
    hide SkipItem, SkipLevel, ReadItem, AfterItem, AtItem, KeyInOrder, SameMap, MidLevel, Meets, LevelMeets;
    var mid := MidLevel(o, lv, pos, p);
    LevelStep(o, input, p, depth, mid, q, false);
    LevelMeetsStep(o, input, p, depth, mid, q);
    AfterMapValue(o, input, pos, p, q, lv, remaining, prev);
    var left := if remaining.Some? then Some(remaining.value - 1) else None;
    var prev' := if o.requireDeterministic then Some(Extent(pos, p)) else prev;
    assert CheckKey(o, input, pos, depth, prev) == KeyOk(prev');
    NotDone(o, lv, remaining, prev, pos);
    if left == Some(0) {
      NoMoreEntries(o, input, q, depth, prev');
    } else {
      MapsAgree(o, input, q, depth, left, prev', AfterItem(o, input, q, mid).level);
    }
    ReadMapStep(o, input, pos, depth, remaining, prev);
  }

  lemma NotDone(o: Options, lv: Level, remaining: Option<nat>, prev: Option<Extent>, pos: nat)
    requires SameMap(o, lv, remaining, prev, pos)
    ensures remaining.Some? ==> remaining.value > 0
  {
  }

  /** An accepted map has an accepted first key. */
  lemma KeyWasRead(o: Options, input: seq<byte>, pos: nat, depth: nat, remaining: Option<nat>, prev: Option<Extent>)
    requires pos <= |input| && ExtentOk(prev, |input|) && remaining != Some(0)
             && !(pos < |input| && input[pos] == BREAK)
    requires ReadMap(o, input, pos, depth, remaining, prev).ReadEntries?
    ensures var k := ReadItem(o, input, pos, depth);
            pos < |input| && input[pos] != BREAK && k.Read?
              && (k.loose ==> ReadMap(o, input, pos, depth, remaining, prev).loose)
  {
    hide ReadItem, CheckKey;
  }

  lemma NoMoreEntries(o: Options, input: seq<byte>, pos: nat, depth: nat, prev: Option<Extent>)
    requires pos <= |input| && ExtentOk(prev, |input|)
    ensures ReadMap(o, input, pos, depth, Some(0), prev) == ReadEntries(NoEntries, pos, false)
  {
  }

  /** One entry of a map cursor, once key and value are read. */
  lemma ReadMapStep(o: Options, input: seq<byte>, pos: nat, depth: nat, remaining: Option<nat>, prev: Option<Extent>)
    requires pos < |input| && ExtentOk(prev, |input|) && remaining != Some(0) && input[pos] != BREAK
    requires CheckKey(o, input, pos, depth, prev).KeyOk? && ReadItem(o, input, pos, depth).Read?
    requires ReadItem(o, input, ReadItem(o, input, pos, depth).pos, depth).Read?
    ensures var k := ReadItem(o, input, pos, depth);
            var v := ReadItem(o, input, k.pos, depth);
            var left := if remaining.Some? then Some(remaining.value - 1) else None;
            var rest := ReadMap(o, input, v.pos, depth, left, CheckKey(o, input, pos, depth, prev).prev);
            ReadMap(o, input, pos, depth, remaining, prev)
            == if rest.NotReadEntries? then rest
               else ReadEntries(Entries(k.item, v.item, rest.entries), rest.pos, k.loose || v.loose || rest.loose)
  {
    hide ReadItem, CheckKey;
  }

  // ---- the theorem ----

  /** The validator accepts an item, meeting no map that claims 2^63 entries or more and nothing that the reader's
      policies refuse, if and only if the reader accepts it without skipping, in strict mode, an overlong tag head.
      Then both end at the same place. An item read past an overlong tag in strict mode is one the validator refuses. */
  lemma ReadersAgree(o: Options, input: seq<byte>, pos: nat, depth: nat)
    requires |input| < TWO64 && pos <= |input|
    ensures var s, r := SkipItem(o, input, pos, depth), ReadItem(o, input, pos, depth);
            var loose := o.requireDeterministic && SkipsLooseTag(o, input, pos, depth);
            && (s.Done? && !Meets(HugeMap, o, input, pos, depth) && !Meets(Unwelcome, o, input, pos, depth)
                <==> r.Read? && !loose)
            && (r.Read? && !loose ==> s.pos == r.pos)
            && (r.Read? && loose ==> s.Fail?)
  {
    hide SkipItem, ReadItem, Meets, SkipsLooseTag;
    ItemsAgree(o, input, pos, depth);
    if SkipItem(o, input, pos, depth).Done? {
      WrappedIsMet(o, input, pos, depth);
    }
    if ReadItem(o, input, pos, depth).Read? {
      LooseIsSkipped(o, input, pos, depth);
    }
  }

  /** On an input without such heads, the two accept the same items, up to the same place. */
  lemma ReadersAgreeOnPlainInput(o: Options, input: seq<byte>, pos: nat, depth: nat)
    requires |input| < TWO64 && pos <= |input|
    requires Nowhere(HugeMap, o, input) && Nowhere(LooseTag, o, input) && Nowhere(Unwelcome, o, input)
    ensures var s, r := SkipItem(o, input, pos, depth), ReadItem(o, input, pos, depth);
            (s.Done? <==> r.Read?) && (r.Read? ==> s.pos == r.pos)
  {
    hide SkipItem, ReadItem, Meets, SkipsLooseTag, Nowhere;
    ReadersAgree(o, input, pos, depth);
    NowhereNotMet(HugeMap, o, input, pos, depth);
    NowhereNotMet(Unwelcome, o, input, pos, depth);
    NowhereNotSkipped(o, input, pos, depth);
  }

  // ---- where the two differ ----

  lemma LooseTagHead(input: seq<byte>)
    requires input == [0xD8, 1, 0]
    ensures ParseHead(input, 0) == ParsedHead(TAG, 24, 1, false, 2, false, false)
    ensures ParseHead(input, 2) == ParsedHead(UINT, 0, 0, false, 1, false, false)
  {
    assert FromBe([1]) == 1;
    assert input[1..2] == [1];
  }

  /** In strict mode the cursors skip this two-byte head of tag 1 unchecked; the validator refuses it. */
  lemma LooseTagDiffers(o: Options)
    requires o.ignoreUnknownTags && o.requireDeterministic
    ensures ReadItem(o, [0xD8, 1, 0], 0, 0) == Read(UInt(0), 3, true)
    ensures SkipItem(o, [0xD8, 1, 0], 0, 0) == Fail(Error(NonDeterministic, 0))
  {
    hide ParseHead;
    var input: seq<byte> := [0xD8, 1, 0];
    LooseTagHead(input);
    assert ItemHead(o, input, 2) == HeadAt(2, ParseHead(input, 2), false);
  }

  /** No reader accepts a map that claims 2^63 entries or more, so a wrapped count is always a difference. */
  lemma HugeMapNotRead(o: Options, input: seq<byte>, pos: nat, depth: nat)
    requires |input| < TWO64 && pos < |input|
    requires var h := ParseHead(input, pos); h.length > 0 && h.mt == MAP && h.value >= TWO63
    ensures ReadItem(o, input, pos, depth).NotRead?
  {
    hide ReadSeq, ReadMap, ReadScalar, FromBe;
    var h := ParseHead(input, pos);
    assert ItemHead(o, input, pos).HeadAt? ==> ItemHead(o, input, pos).at == pos;
    assert !h.indefinite;
    MapBytes(o, input, pos + h.length, depth + 1, h.value, None);
  }
}
