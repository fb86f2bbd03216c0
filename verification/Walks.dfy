/** What the two readers meet on their way through an input, told from the input alone. */
module Walks {
  import opened Bytes
  import opened Head
  import opened Utf8
  import opened SkipSpec
  import opened ReadSpec

  /** Heads that matter: maps that claim 2^63 entries or more, tags longer than needed, and what the reader's
      policies do not let into a generic value. */
  datatype What = HugeMap | LooseTag | Unwelcome

  predicate Is(what: What, o: Options, h: ParsedHead) {
    match what
    case HugeMap => h.mt == MAP && h.value >= TWO63
    case LooseTag => h.mt == TAG && !h.Shortest()
    case Unwelcome => (h.mt == TAG && !o.ignoreUnknownTags) || (h.mt == SIMPLE && h.ai == 23 && !o.undefinedAsNull)
  }

  /** The validator meets such a head in the item at `pos`. */
  ghost predicate Meets(what: What, o: Options, input: seq<byte>, pos: nat, depth: nat)
    requires pos <= |input|
    decreases |input| - pos, 0
  {
    var h := ParseHead(input, pos);
    && HeadError(o, h, pos).None?
    && (Is(what, o, h)
        || (if h.mt == TAG then Meets(what, o, input, pos + h.length, depth)
            else (h.mt == ARRAY || h.mt == MAP) && depth < o.maxDepth && (h.indefinite || h.value != 0)
                 && LevelMeets(what, o, input, pos + h.length, depth + 1, OpenLevel(h))))
  }

  /** The same for the rest of an open container. */
  ghost predicate LevelMeets(what: What, o: Options, input: seq<byte>, pos: nat, depth: nat, lv: Level)
    requires pos <= |input| && lv.Ok(pos)
    decreases |input| - pos, 1
  {
    var h := ParseHead(input, pos);
    && h.length > 0 && !h.isBreak
    && (Meets(what, o, input, pos, depth) || LevelMeetsLater(what, o, input, pos, depth, lv))
  }

  ghost predicate LevelMeetsLater(what: What, o: Options, input: seq<byte>, pos: nat, depth: nat, lv: Level)
    requires pos <= |input| && lv.Ok(pos)
    decreases |input| - pos, 0
  {
    var r := SkipItem(o, input, pos, depth);
    r.Done?
    && (var step := AfterItem(o, input, r.pos, AtItem(o, lv, pos));
        step.More? && LevelMeets(what, o, input, r.pos, depth, step.level))
  }

  /** The cursors skip an overlong tag head in front of the item at `pos`. */
  predicate LooseTags(input: seq<byte>, pos: nat)
    requires pos <= |input|
    decreases |input| - pos
  {
    var h := ParseHead(input, pos);
    h.length > 0 && h.mt == TAG && !h.isBreak && !h.reserved && (!h.Shortest() || LooseTags(input, pos + h.length))
  }

  /** The cursors skip an overlong tag head in front of the item at `pos`, or somewhere in it. */
  ghost predicate SkipsLooseTag(o: Options, input: seq<byte>, pos: nat, depth: nat)
    requires pos <= |input|
    decreases |input| - pos, 1
  {
    LooseTags(input, pos) || (ItemHead(o, input, pos).HeadAt?
                              && SkipsLooseInside(o, input, ItemHead(o, input, pos).at, depth))
  }

  ghost predicate SkipsLooseInside(o: Options, input: seq<byte>, at: nat, depth: nat)
    requires at < |input| && HeadError(o, ParseHead(input, at), at).None?
    decreases |input| - at, 0
  {
    var h := ParseHead(input, at);
    var n := if h.indefinite then None else Some(h.value);
    depth < o.maxDepth
    && (if h.mt == ARRAY then SeqSkipsLoose(o, input, at + h.length, depth + 1, n)
        else h.mt == MAP && MapSkipsLoose(o, input, at + h.length, depth + 1, n, None))
  }

  ghost predicate SeqSkipsLoose(o: Options, input: seq<byte>, pos: nat, depth: nat, remaining: Option<nat>)
    requires pos <= |input|
    decreases |input| - pos, 2
  {
    var next, r := CursorNext(input, pos, remaining), ReadItem(o, input, pos, depth);
    next.CursorItem?
    && (SkipsLooseTag(o, input, pos, depth) || (r.Read? && SeqSkipsLoose(o, input, r.pos, depth, next.remaining)))
  }

  ghost predicate MapSkipsLoose(o: Options, input: seq<byte>, pos: nat, depth: nat, remaining: Option<nat>,
                                prev: Option<Extent>)
    requires pos <= |input| && ExtentOk(prev, |input|)
    decreases |input| - pos, 2
  {
    var next, key, k := CursorNext(input, pos, remaining), CheckKey(o, input, pos, depth, prev),
      ReadItem(o, input, pos, depth);
    next.CursorItem? && key.KeyOk?
    && (SkipsLooseTag(o, input, pos, depth)
        || (k.Read? && (SkipsLooseTag(o, input, k.pos, depth)
                        || (var v := ReadItem(o, input, k.pos, depth);
                            v.Read? && MapSkipsLoose(o, input, v.pos, depth, next.remaining, key.prev)))))
  }

  // ---- the flags of the specifications say exactly this ----

  /** The count of some map wraps exactly when a map that claims 2^63 entries or more is met. */
  lemma {:induction false} WrappedIsMet(o: Options, input: seq<byte>, pos: nat, depth: nat)
    requires pos <= |input| && SkipItem(o, input, pos, depth).Done?
    ensures SkipItem(o, input, pos, depth).wrapped <==> Meets(HugeMap, o, input, pos, depth)
    decreases |input| - pos, 0
  {
    hide SkipLevel, LevelMeets, SkipScalar, ParseHead;
    var h := ParseHead(input, pos);
    var next := pos + h.length;
    if h.mt == TAG {
      WrappedIsMet(o, input, next, depth);
    } else if (h.mt == ARRAY || h.mt == MAP) && (h.indefinite || h.value != 0) {
      LevelWrappedIsMet(o, input, next, depth + 1, OpenLevel(h));
    }
  }

  lemma {:induction false} LevelWrappedIsMet(o: Options, input: seq<byte>, pos: nat, depth: nat, lv: Level)
    requires pos <= |input| && lv.Ok(pos) && SkipLevel(o, input, pos, depth, lv).Done?
    ensures SkipLevel(o, input, pos, depth, lv).wrapped <==> LevelMeets(HugeMap, o, input, pos, depth, lv)
    decreases |input| - pos, 1
  {
    hide SkipItem, Meets, AfterItem, ParseHead;
    var h := ParseHead(input, pos);
    if !h.isBreak {
      WrappedIsMet(o, input, pos, depth);
      var r := SkipItem(o, input, pos, depth);
      var step := AfterItem(o, input, r.pos, AtItem(o, lv, pos));
      if step.More? {
        LevelWrappedIsMet(o, input, r.pos, depth, step.level);
      }
    }
  }

  lemma {:induction false} HeadLooseIsSkipped(o: Options, input: seq<byte>, pos: nat)
    requires pos <= |input| && ItemHead(o, input, pos).HeadAt?
    ensures ItemHead(o, input, pos).loose <==> LooseTags(input, pos)
    decreases |input| - pos
  {
    hide ParseHead, HeadDeterministic;
    var h := ParseHead(input, pos);
    if h.mt == TAG {
      HeadLooseIsSkipped(o, input, pos + h.length);
    }
  }

  /** The reader's answer is loose exactly when the cursors skipped an overlong tag head. */
  lemma {:induction false} LooseIsSkipped(o: Options, input: seq<byte>, pos: nat, depth: nat)
    requires pos <= |input| && ReadItem(o, input, pos, depth).Read?
    ensures ReadItem(o, input, pos, depth).loose <==> SkipsLooseTag(o, input, pos, depth)
    decreases |input| - pos, 1
  {
    hide ReadAt, ItemHead, SkipsLooseInside, LooseTags, Reject;
    var head := ItemHead(o, input, pos);
    HeadLooseIsSkipped(o, input, pos);
    InsideIsSkipped(o, input, head.at, depth);
    LooseAdds(o, input, head.at, depth, head.loose);
  }

  lemma {:induction false} InsideIsSkipped(o: Options, input: seq<byte>, at: nat, depth: nat)
    requires at < |input| && HeadError(o, ParseHead(input, at), at).None? && ParseHead(input, at).mt != TAG
    ensures var r := ReadAt(o, input, at, depth, false);
            r.Read? ==> (r.loose <==> SkipsLooseInside(o, input, at, depth))
    decreases |input| - at, 0
  {
    hide ReadSeq, ReadMap, ReadScalar, ParseHead, Reject, SeqSkipsLoose, MapSkipsLoose;
    var h := ParseHead(input, at);
    var next, n := at + h.length, if h.indefinite then None else Some(h.value);
    if ReadAt(o, input, at, depth, false).Read? {
      if h.mt == ARRAY {
        SeqIsSkipped(o, input, next, depth + 1, n);
      } else if h.mt == MAP {
        MapIsSkipped(o, input, next, depth + 1, n, None);
      } else {
        ScalarsTight(o, input, at);
      }
    }
  }

  lemma ScalarsTight(o: Options, input: seq<byte>, at: nat)
    requires at < |input| && HeadError(o, ParseHead(input, at), at).None?
    requires var m := ParseHead(input, at).mt; m != ARRAY && m != MAP && m != TAG
    ensures ReadScalar(o, input, at, false).Read? ==> !ReadScalar(o, input, at, false).loose
  {
  }

  lemma {:induction false} SeqIsSkipped(o: Options, input: seq<byte>, pos: nat, depth: nat, remaining: Option<nat>)
    requires pos <= |input| && ReadSeq(o, input, pos, depth, remaining).ReadItems?
    ensures ReadSeq(o, input, pos, depth, remaining).loose <==> SeqSkipsLoose(o, input, pos, depth, remaining)
    decreases |input| - pos, 2
  {
    hide ReadItem, SkipsLooseTag, CursorNext;
    var next := CursorNext(input, pos, remaining);
    if next.CursorItem? {
      LooseIsSkipped(o, input, pos, depth);
      SeqIsSkipped(o, input, ReadItem(o, input, pos, depth).pos, depth, next.remaining);
    }
  }

  lemma {:induction false} MapIsSkipped(o: Options, input: seq<byte>, pos: nat, depth: nat, remaining: Option<nat>,
                                        prev: Option<Extent>)
    requires pos <= |input| && ExtentOk(prev, |input|) && ReadMap(o, input, pos, depth, remaining, prev).ReadEntries?
    ensures ReadMap(o, input, pos, depth, remaining, prev).loose
            <==> MapSkipsLoose(o, input, pos, depth, remaining, prev)
    decreases |input| - pos, 2
  {
    hide ReadItem, SkipsLooseTag, CursorNext, CheckKey;
    var next := CursorNext(input, pos, remaining);
    if next.CursorItem? {
      var p := ReadItem(o, input, pos, depth).pos;
      LooseIsSkipped(o, input, pos, depth);
      LooseIsSkipped(o, input, p, depth);
      MapIsSkipped(o, input, ReadItem(o, input, p, depth).pos, depth, next.remaining,
                   CheckKey(o, input, pos, depth, prev).prev);
    }
  }

  // ---- conditions a caller can scan for ----

  /** No position of the input looks like such a head. */
  predicate Nowhere(what: What, o: Options, input: seq<byte>) {
    forall q :: 0 <= q < |input| ==> var h := ParseHead(input, q); h.length > 0 ==> !Is(what, o, h)
  }

  /** What is nowhere in the input is not met on the way. */
  lemma {:induction false} NowhereNotMet(what: What, o: Options, input: seq<byte>, pos: nat, depth: nat)
    requires pos <= |input| && Nowhere(what, o, input)
    ensures !Meets(what, o, input, pos, depth)
    decreases |input| - pos, 0
  {
    hide LevelMeets, Is, ParseHead;
    var h := ParseHead(input, pos);
    if HeadError(o, h, pos).None? {
      var next := pos + h.length;
      if h.mt == TAG {
        NowhereNotMet(what, o, input, next, depth);
      } else if h.mt == ARRAY || h.mt == MAP {
        NowhereInLevel(what, o, input, next, depth + 1, OpenLevel(h));
      }
    }
  }

  lemma {:induction false} NowhereInLevel(what: What, o: Options, input: seq<byte>, pos: nat, depth: nat, lv: Level)
    requires pos <= |input| && lv.Ok(pos) && Nowhere(what, o, input)
    ensures !LevelMeets(what, o, input, pos, depth, lv)
    decreases |input| - pos, 1
  {
    hide Meets, Nowhere, SkipItem, AfterItem, ParseHead;
    NowhereNotMet(what, o, input, pos, depth);
    var r := SkipItem(o, input, pos, depth);
    if r.Done? {
      var step := AfterItem(o, input, r.pos, AtItem(o, lv, pos));
      if step.More? {
        NowhereInLevel(what, o, input, r.pos, depth, step.level);
      }
    }
  }

  lemma {:induction false} NoLooseTags(o: Options, input: seq<byte>, pos: nat)
    requires pos <= |input| && Nowhere(LooseTag, o, input)
    ensures !LooseTags(input, pos)
    decreases |input| - pos
  {
    hide ParseHead;
    var h := ParseHead(input, pos);
    if h.length > 0 && h.mt == TAG {
      NoLooseTags(o, input, pos + h.length);
    }
  }

  /** An input without overlong tag heads has none for the cursors to skip. */
  lemma {:induction false} NowhereNotSkipped(o: Options, input: seq<byte>, pos: nat, depth: nat)
    requires pos <= |input| && Nowhere(LooseTag, o, input)
    ensures !SkipsLooseTag(o, input, pos, depth)
    decreases |input| - pos, 1
  {
    hide Nowhere, LooseTags, SeqSkipsLoose, MapSkipsLoose, ParseHead;
    NoLooseTags(o, input, pos);
    var head := ItemHead(o, input, pos);
    if head.HeadAt? {
      var h := ParseHead(input, head.at);
      var next, n := head.at + h.length, if h.indefinite then None else Some(h.value);
      NowhereInSeq(o, input, next, depth + 1, n);
      NowhereInMap(o, input, next, depth + 1, n, None);
    }
  }

  lemma {:induction false} NowhereInSeq(o: Options, input: seq<byte>, pos: nat, depth: nat, remaining: Option<nat>)
    requires pos <= |input| && Nowhere(LooseTag, o, input)
    ensures !SeqSkipsLoose(o, input, pos, depth, remaining)
    decreases |input| - pos, 2
  {
    hide Nowhere, SkipsLooseTag, ReadItem, CursorNext;
    NowhereNotSkipped(o, input, pos, depth);
    var next, r := CursorNext(input, pos, remaining), ReadItem(o, input, pos, depth);
    if next.CursorItem? && r.Read? {
      NowhereInSeq(o, input, r.pos, depth, next.remaining);
    }
  }

  lemma {:induction false} NowhereInMap(o: Options, input: seq<byte>, pos: nat, depth: nat, remaining: Option<nat>,
                                        prev: Option<Extent>)
    requires pos <= |input| && ExtentOk(prev, |input|) && Nowhere(LooseTag, o, input)
    ensures !MapSkipsLoose(o, input, pos, depth, remaining, prev)
    decreases |input| - pos, 2
  {
    hide Nowhere, SkipsLooseTag, ReadItem, CursorNext, CheckKey;
    var next, key, k := CursorNext(input, pos, remaining), CheckKey(o, input, pos, depth, prev),
      ReadItem(o, input, pos, depth);
    NowhereNotSkipped(o, input, pos, depth);
    if next.CursorItem? && key.KeyOk? && k.Read? {
      NowhereNotSkipped(o, input, k.pos, depth);
      var v := ReadItem(o, input, k.pos, depth);
      if v.Read? {
        NowhereInMap(o, input, v.pos, depth, next.remaining, key.prev);
      }
    }
  }
}
