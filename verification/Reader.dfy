/** The CBOR reader: an input, a position and a nesting depth that its operations move. */
module CborReader {
  import opened Bytes
  import opened Head
  import opened Utf8
  import opened Floats
  import opened SkipSpec
  import opened ReadSpec
  import opened Item

  // ---- the explicit stack of the validator, read as pending work ----

  ghost predicate StackOk(stack: seq<Level>, pos: nat) {
    forall i | 0 <= i < |stack| :: stack[i].Ok(pos)
  }

  /** The enclosing containers of an item in progress are inside that key, if they wait for a key. */
  ghost predicate Entered(o: Options, lv: Level) {
    o.requireDeterministic && lv.isMap && lv.keyNext ==> lv.inKey
  }

  ghost predicate AllEntered(o: Options, stack: seq<Level>) {
    forall i | 0 <= i < |stack| :: Entered(o, stack[i])
  }

  /** An item ended at `pos` inside the containers of `stack`: run everything still pending. */
  ghost function Finish(o: Options, input: seq<byte>, pos: nat, depth: nat, stack: seq<Level>): Outcome
    requires pos <= |input| && |stack| <= depth && StackOk(stack, pos) && AllEntered(o, stack)
    decreases |stack|, 1
  {
    if stack == [] then Done(pos, false)
    else
      var below, top := stack[..|stack| - 1], stack[|stack| - 1];
      match AfterItem(o, input, pos, top)
      case Bad(e) => Fail(e)
      case Complete => Finish(o, input, pos, depth - 1, below)
      case More(next) => Continue(o, input, pos, depth, below, next)
  }

  /** The top container goes on at `pos`; then everything below it. */
  ghost function Continue(o: Options, input: seq<byte>, pos: nat, depth: nat, below: seq<Level>, top: Level): Outcome
    requires pos <= |input| && |below| < depth && StackOk(below, pos) && top.Ok(pos) && AllEntered(o, below)
    decreases |below|, 2
  {
    match SkipLevel(o, input, pos, depth, top)
    case Fail(e) => Fail(e)
    case Done(p, w) => OrWrapped(w, Finish(o, input, p, depth - 1, below))
  }

  /** An item of the top container (or the whole value) is about to be read at `pos`. */
  ghost function Resume(o: Options, input: seq<byte>, pos: nat, depth: nat, stack: seq<Level>): Outcome
    requires pos <= |input| && |stack| <= depth && StackOk(stack, pos) && AllEntered(o, stack)
  {
    match SkipItem(o, input, pos, depth)
    case Fail(e) => Fail(e)
    case Done(p, w) => OrWrapped(w, Finish(o, input, p, depth, stack))
  }

  lemma EnterItem(o: Options, input: seq<byte>, pos: nat, depth: nat, below: seq<Level>, top: Level)
    requires pos <= |input| && |below| < depth && StackOk(below, pos) && top.Ok(pos) && AllEntered(o, below)
    requires ParseHead(input, pos).length > 0 && !ParseHead(input, pos).isBreak
    ensures StackOk(below + [AtItem(o, top, pos)], pos) && AllEntered(o, below + [AtItem(o, top, pos)])
    ensures Continue(o, input, pos, depth, below, top) == Resume(o, input, pos, depth, below + [AtItem(o, top, pos)])
  {
    hide SkipItem;
    var lv := AtItem(o, top, pos);
    var stack := below + [lv];
    assert stack[..|stack| - 1] == below && stack[|stack| - 1] == lv;
    var r := SkipItem(o, input, pos, depth);
    if r.Done? {
      var step := AfterItem(o, input, r.pos, lv);
      if step.More? {
        var rest := SkipLevel(o, input, r.pos, depth, step.level);
        assert SkipLevel(o, input, pos, depth, top) == OrWrapped(r.wrapped, rest);
        assert Finish(o, input, r.pos, depth, stack) == Continue(o, input, r.pos, depth, below, step.level);
      }
    }
  }

  lemma OpenContainer(o: Options, input: seq<byte>, pos: nat, depth: nat, stack: seq<Level>)
    requires pos <= |input| && |stack| <= depth && StackOk(stack, pos) && AllEntered(o, stack)
    requires var h := ParseHead(input, pos); HeadError(o, h, pos).None? && (h.mt == ARRAY || h.mt == MAP)
    requires var h := ParseHead(input, pos); depth < o.maxDepth && (h.indefinite || h.value != 0)
    ensures var h := ParseHead(input, pos);
            Resume(o, input, pos, depth, stack)
            == OrWrapped(h.mt == MAP && h.value >= TWO63,
                         Continue(o, input, pos + h.length, depth + 1, stack, OpenLevel(h)))
  {
    var h := ParseHead(input, pos);
    var r := SkipLevel(o, input, pos + h.length, depth + 1, OpenLevel(h));
    if r.Done? {
      assert SkipItem(o, input, pos, depth) == OrWrapped(h.mt == MAP && h.value >= TWO63, r);
    }
  }

  /** A container that is too deep, or empty. */
  lemma NotOpened(o: Options, input: seq<byte>, pos: nat, depth: nat, stack: seq<Level>)
    requires pos <= |input| && |stack| <= depth && StackOk(stack, pos) && AllEntered(o, stack)
    requires var h := ParseHead(input, pos); HeadError(o, h, pos).None? && (h.mt == ARRAY || h.mt == MAP)
    ensures var h := ParseHead(input, pos);
            if depth >= o.maxDepth then Resume(o, input, pos, depth, stack) == Fail(Error(DepthExceeded, pos))
            else !h.indefinite && h.value == 0
                 ==> Resume(o, input, pos, depth, stack) == Finish(o, input, pos + h.length, depth, stack)
  {
    hide SkipLevel, Finish;
  }

  lemma HeadRefused(o: Options, input: seq<byte>, pos: nat, depth: nat, stack: seq<Level>)
    requires pos <= |input| && |stack| <= depth && StackOk(stack, pos) && AllEntered(o, stack)
    requires HeadError(o, ParseHead(input, pos), pos).Some?
    ensures Resume(o, input, pos, depth, stack) == Fail(HeadError(o, ParseHead(input, pos), pos).value)
  {
    hide Finish, ParseHead, HeadError;
  }

  lemma TaggedItem(o: Options, input: seq<byte>, pos: nat, depth: nat)
    requires pos <= |input|
    requires var h := ParseHead(input, pos); HeadError(o, h, pos).None? && h.mt == TAG
    ensures var next := pos + ParseHead(input, pos).length;
            SkipItem(o, input, pos, depth)
            == if next >= |input| then Fail(Error(Truncated, next))
               else if input[next] == BREAK then Fail(Error(MalformedItem, next))
               else SkipItem(o, input, next, depth)
  {
    hide ParseHead, HeadError;
  }

  lemma ScalarNext(o: Options, input: seq<byte>, pos: nat, depth: nat, stack: seq<Level>)
    requires pos <= |input| && |stack| <= depth && StackOk(stack, pos) && AllEntered(o, stack)
    requires var h := ParseHead(input, pos); HeadError(o, h, pos).None? && h.mt != TAG && h.mt != ARRAY && h.mt != MAP
    ensures var r := SkipScalar(o, input, pos);
            Resume(o, input, pos, depth, stack) == if r.Fail? then r else Finish(o, input, r.pos, depth, stack)
  {
    hide Finish, ParseHead, SkipScalar;
  }

  /** The top container learns that an item begins at `pos`. */
  function Announce(o: Options, stack: seq<Level>, pos: nat): seq<Level>
    requires stack != []
  {
    stack[..|stack| - 1] + [AtItem(o, stack[|stack| - 1], pos)]
  }

  ghost predicate Announced(o: Options, input: seq<byte>, pos: nat, stack: seq<Level>, inItem: bool) {
    if inItem then AllEntered(o, stack) && (stack != [] && pos < |input| ==> input[pos] != BREAK)
    else stack != [] && AllEntered(o, stack[..|stack| - 1])
  }

  /** Everything that is left to do at the top of the loop. */
  ghost function Pending(o: Options, input: seq<byte>, pos: nat, depth: nat, stack: seq<Level>, inItem: bool): Outcome
    requires pos <= |input| && |stack| <= depth && StackOk(stack, pos) && Announced(o, input, pos, stack, inItem)
  {
    if inItem then Resume(o, input, pos, depth, stack)
    else Continue(o, input, pos, depth, stack[..|stack| - 1], stack[|stack| - 1])
  }

  /** Nothing is open: all that is left is the item itself. */
  lemma NothingOpen(o: Options, input: seq<byte>, pos: nat, depth: nat)
    requires pos <= |input|
    ensures Pending(o, input, pos, depth, [], true) == SkipItem(o, input, pos, depth)
  {
    hide SkipItem;
  }

  lemma HeadPastEnd(input: seq<byte>, pos: nat)
    requires pos >= |input|
    ensures ParseHead(input, pos).length == 0
  {
  }

  lemma InputEnds(o: Options, input: seq<byte>, pos: nat, depth: nat, stack: seq<Level>, inItem: bool)
    requires pos <= |input| && |stack| <= depth && StackOk(stack, pos) && Announced(o, input, pos, stack, inItem)
    requires ParseHead(input, pos).length == 0
    ensures Pending(o, input, pos, depth, stack, inItem) == Fail(Error(Truncated, pos))
  {
    hide ParseHead, Finish;
  }

  /** A break ends an indefinite container between its items, and nothing else. */
  lemma BreakEnds(o: Options, input: seq<byte>, pos: nat, depth: nat, stack: seq<Level>, inItem: bool)
    requires pos < |input| && |stack| <= depth && StackOk(stack, pos) && Announced(o, input, pos, stack, inItem)
    requires ParseHead(input, pos).length > 0 && ParseHead(input, pos).isBreak
    ensures if stack == [] || stack[|stack| - 1].remaining.Some?
            || (stack[|stack| - 1].isMap && !stack[|stack| - 1].keyNext) then
              Pending(o, input, pos, depth, stack, inItem) == Fail(Error(MalformedItem, pos))
            else
              AllEntered(o, stack[..|stack| - 1])
              && Pending(o, input, pos, depth, stack, inItem)
                == Finish(o, input, pos + 1, depth - 1, stack[..|stack| - 1])
  {
    hide Finish, AfterItem, SkipScalar;
  }

  datatype Progress = Failed(error: Error) | Tagged | Opened | Ended

  datatype Status = Ok | Err(error: Error)

  // ---- generic values, grown item by item ----

  datatype Decoded = NoValue(error: Error) | Value(item: Item)

  datatype HeadFound = HeadMissing(error: Error) | HeadFound(head: ParsedHead)

  /** The list of `done` followed by `rest`. */
  function OntoItems(done: seq<Item>, rest: Items): Items {
    if done == [] then rest else OntoItems(done[..|done| - 1], Items(done[|done| - 1], rest))
  }

  function OntoEntries(done: seq<(Item, Item)>, rest: Entries): Entries {
    if done == [] then rest else OntoEntries(done[..|done| - 1], Entries(done[|done| - 1].0, done[|done| - 1].1, rest))
  }

  /** The outcome of a whole array, when `done` has been read and `r` is the outcome of the rest. */
  ghost function SeqAfter(done: seq<Item>, loose: bool, r: ReadItemsResult): ReadItemsResult {
    if r.NotReadItems? then r else ReadItems(OntoItems(done, r.items), r.pos, loose || r.loose)
  }

  ghost function MapAfter(done: seq<(Item, Item)>, loose: bool, r: ReadEntriesResult): ReadEntriesResult {
    if r.NotReadEntries? then r else ReadEntries(OntoEntries(done, r.entries), r.pos, loose || r.loose)
  }

  lemma EmptySoFar()
    ensures forall r :: SeqAfter([], false, r) == r
    ensures forall r :: MapAfter([], false, r) == r
  {
  }

  lemma SeqGrows(o: Options, input: seq<byte>, pos: nat, depth: nat, remaining: Option<nat>, done: seq<Item>,
                 loose: bool)
    requires pos < |input| && CursorNext(input, pos, remaining).CursorItem? && ReadItem(o, input, pos, depth).Read?
    ensures var left := CursorNext(input, pos, remaining).remaining;
            var r := ReadItem(o, input, pos, depth);
            SeqAfter(done, loose, ReadSeq(o, input, pos, depth, remaining))
            == SeqAfter(done + [r.item], loose || r.loose, ReadSeq(o, input, r.pos, depth, left))
  {
    hide ReadItem, CursorNext;
    var t := ReadItem(o, input, pos, depth).item;
    assert (done + [t])[..|done + [t]| - 1] == done;
  }

  lemma MapGrows(o: Options, input: seq<byte>, pos: nat, depth: nat, remaining: Option<nat>, prev: Option<Extent>,
                 done: seq<(Item, Item)>, loose: bool)
    requires pos < |input| && ExtentOk(prev, |input|)
    requires CursorNext(input, pos, remaining).CursorItem? && CheckKey(o, input, pos, depth, prev).KeyOk?
    requires ReadItem(o, input, pos, depth).Read? && ReadItem(o, input, ReadItem(o, input, pos, depth).pos, depth).Read?
    ensures var left := CursorNext(input, pos, remaining).remaining;
            var k := ReadItem(o, input, pos, depth);
            var v := ReadItem(o, input, k.pos, depth);
            MapAfter(done, loose, ReadMap(o, input, pos, depth, remaining, prev))
            == MapAfter(done + [(k.item, v.item)], loose || k.loose || v.loose,
                        ReadMap(o, input, v.pos, depth, left, CheckKey(o, input, pos, depth, prev).prev))
  {
    hide ReadItem, CursorNext, CheckKey;
    var k := ReadItem(o, input, pos, depth);
    var e := (k.item, ReadItem(o, input, k.pos, depth).item);
    assert (done + [e])[..|done + [e]| - 1] == done;
  }

  /** vcodec::cbor::reader. */
  class Reader {
    const opts: Options
    const input: seq<byte>
    var pos: nat
    var depth: nat

    constructor (opts: Options, input: seq<byte>)
      ensures this.opts == opts && this.input == input && pos == 0 && depth == 0
    {
      this.opts, this.input, pos, depth := opts, input, 0, 0;
    }

    /** read_string: moves past the string, or past what was read of it when it fails. */
    method ReadStringAt(h: ParsedHead) returns (r: StringResult)
      requires pos + h.length <= |input|
      modifies this`pos
      ensures old(pos) <= pos <= |input| && r == ReadString(opts, input, old(pos), h)
      ensures r.String? ==> pos == r.end
    {
      if !h.indefinite {
        if h.value > |input| - pos - h.length {
          return NoString(Error(Truncated, pos));
        }
        r := String(input[pos + h.length..pos + h.length + h.value], pos + h.length + h.value);
        pos := pos + h.length + h.value;
        return;
      }
      if opts.requireDeterministic {
        return NoString(Error(NonDeterministic, pos));
      }
      pos := pos + h.length;
      r := ReadChunksAt(h.mt);
    }

    method ReadChunkAt(mt: major) returns (r: Chunk)
      requires pos <= |input|
      ensures r == ChunkAt(opts, input, pos, mt)
    {
      hide WellFormed, FirstBad, ParseHead;
      if pos >= |input| {
        return BadChunk(Error(Truncated, pos));
      }
      if input[pos] == BREAK {
        return LastChunk;
      }
      var c := ParseHeadAt(input, pos);
      if c.length == 0 {
        return BadChunk(Error(Truncated, pos));
      }
      if c.mt != mt || c.indefinite {
        return BadChunk(Error(MalformedItem, pos));
      }
      if c.value > |input| - pos - c.length {
        return BadChunk(Error(Truncated, pos));
      }
      var span := input[pos + c.length..pos + c.length + c.value];
      if opts.validateUtf8 && mt == TEXT {
        var bad := ValidateUtf8(span);
        if bad.Some? {
          return BadChunk(Error(InvalidUtf8, pos + c.length + bad.value));
        }
      }
      r := Chunk(span, pos + c.length + c.value);
    }

    method ReadChunksAt(mt: major) returns (r: StringResult)
      requires pos <= |input|
      modifies this`pos
      ensures old(pos) <= pos <= |input| && r == ReadChunks(opts, input, old(pos), mt, [])
      ensures r.String? ==> pos == r.end
    {
      var scratch: seq<byte> := [];
      ghost var goal := ReadChunks(opts, input, pos, mt, []);
      while true
        invariant old(pos) <= pos <= |input|
        invariant ReadChunks(opts, input, pos, mt, scratch) == goal
        decreases |input| - pos
      {
        var c := ReadChunkAt(mt);
        match c
        case BadChunk(e) =>
          return NoString(e);
        case LastChunk =>
          pos := pos + 1;
          return String(scratch, pos);
        case Chunk(span, end) =>
          scratch, pos := scratch + span, end;
      }
    }

    /** An integer, simple value, float or string whose head is `h`. */
    method SkipScalarAt(h: ParsedHead) returns (r: Status)
      requires pos < |input| && h == ParseHead(input, pos)
      requires h.length > 0 && !h.isBreak && !h.reserved && h.mt != ARRAY && h.mt != MAP && h.mt != TAG
      modifies this`pos
      ensures old(pos) <= pos <= |input|
      ensures match SkipScalar(opts, input, old(pos))
              case Done(p, _) => r == Ok && pos == p
              case Fail(e) => r == Err(e)
    {
      if h.mt == UINT || h.mt == NINT {
        pos := pos + h.length;
        return Ok;
      }
      if h.mt == SIMPLE {
        if h.ai == 24 && h.value < 32 {
          return Err(Error(MalformedItem, pos));
        }
        if opts.requireDeterministic && h.ai >= 25 {
          FloatHead(input, pos);
          var w := FloatForm(h.ai, h.value);
          var d := Widen(w);
          if !IsPreferred(d, w) {
            return Err(Error(NonDeterministic, pos));
          }
        }
        pos := pos + h.length;
        return Ok;
      }
      var at := pos;
      var s := ReadStringAt(h);
      if s.NoString? {
        return Err(s.error);
      }
      if opts.validateUtf8 && h.mt == TEXT {
        var bad := ValidateUtf8(s.bytes);
        if bad.Some? {
          return Err(Error(InvalidUtf8, if h.indefinite then at else at + h.length + bad.value));
        }
      }
      return Ok;
    }

    /** An item of `lv` ended at `pos`: check key order, flip between key and value, count down. */
    method CountItem(lv: Level) returns (r: Step)
      requires pos <= |input| && lv.Ok(pos) && Entered(opts, lv)
      ensures r == AfterItem(opts, input, pos, lv)
    {
      var top := lv;
      if opts.requireDeterministic && top.isMap && top.keyNext {
        if top.havePrev {
          var cur, prev := input[top.keyStart..pos], input[top.prevStart..top.prevEnd];
          if Less(cur, prev) || cur == prev {
            return Bad(Error(NonDeterministic, top.keyStart));
          }
        }
        top := top.(prevStart := top.keyStart, prevEnd := pos, havePrev := true, inKey := false);
      }
      if top.isMap {
        top := top.(keyNext := !top.keyNext);
      }
      if top.remaining.Some? {
        top := top.(remaining := Some((top.remaining.value + TWO64 - 1) % TWO64));
        if top.remaining.value == 0 {
          return Complete;
        }
      }
      return More(top);
    }

    /** item_done: an item ended at `pos`; containers it completes are closed. */
    method CloseCompleted(stack: seq<Level>) returns (open: seq<Level>, failed: Option<Error>)
      requires pos <= |input| && |stack| <= depth && StackOk(stack, pos) && AllEntered(opts, stack)
      modifies this`depth
      ensures |open| <= |stack| && depth == old(depth) - (|stack| - |open|) && StackOk(open, pos)
      ensures var done := Finish(opts, input, pos, old(depth), stack);
              if failed.Some? then done == Fail(failed.value)
              else if open == [] then done == Done(pos, false)
              else AllEntered(opts, open[..|open| - 1])
                   && done == Continue(opts, input, pos, depth, open[..|open| - 1], open[|open| - 1])
    {
      open, failed := stack, None;
      ghost var goal := Finish(opts, input, pos, depth, stack);
      while open != []
        invariant |open| <= |stack| && depth == old(depth) - (|stack| - |open|)
        invariant StackOk(open, pos) && AllEntered(opts, open)
        invariant goal == Finish(opts, input, pos, depth, open)
        decreases |open|
      {
        var below := open[..|open| - 1];
        var step := CountItem(open[|open| - 1]);
        match step
        case Bad(e) =>
          failed := Some(e);
          return;
        case Complete =>
          depth, open := depth - 1, below;
        case More(top) =>
          open := below + [top];
          assert open[..|open| - 1] == below;
          return;
      }
    }

    /** The item at `pos`, announced to its containers: read it, or open it and leave the rest to the loop. */
    method SkipHead(stack: seq<Level>, h: ParsedHead) returns (next: seq<Level>, step: Progress, ghost w: bool)
      requires pos < |input| && h == ParseHead(input, pos) && h.length > 0 && !h.isBreak
      requires |stack| <= depth && StackOk(stack, pos) && AllEntered(opts, stack)
      modifies this`pos, this`depth
      ensures old(pos) <= pos <= |input| && StackOk(next, pos) && depth == old(depth) + |next| - |stack|
      ensures !step.Opened? ==> !w
      ensures var goal := Resume(opts, input, old(pos), old(depth), stack);
              match step
              case Failed(e) => goal == Fail(e)
              case Tagged => old(pos) < pos && next == stack && (pos < |input| ==> input[pos] != BREAK)
                             && goal == Resume(opts, input, pos, depth, stack)
              case Opened => old(pos) < pos && |next| == |stack| + 1 && next[..|stack|] == stack
                             && goal == OrWrapped(w, Continue(opts, input, pos, depth, stack, next[|stack|]))
              case Ended => old(pos) < pos && next == stack && goal == Finish(opts, input, pos, depth, stack)
    {
      hide SkipItem, SkipScalar, Resume, Finish, Continue, OpenLevel, HeadDeterministic;
      next, w := stack, false;
      if h.reserved {
        HeadRefused(opts, input, pos, depth, stack);
        return next, Failed(Error(MalformedItem, pos)), w;
      }
      if opts.requireDeterministic && !HeadDeterministic(h) {
        HeadRefused(opts, input, pos, depth, stack);
        return next, Failed(Error(NonDeterministic, pos)), w;
      }
      if h.mt == TAG {
        step := SkipTag(stack, h);
      } else if h.mt == ARRAY || h.mt == MAP {
        next, step, w := SkipOpening(stack, h);
      } else {
        ScalarNext(opts, input, pos, depth, stack);
        var scalar := SkipScalarAt(h);
        step := if scalar.Err? then Failed(scalar.error) else Ended;
      }
    }

    method SkipTag(ghost stack: seq<Level>, h: ParsedHead) returns (step: Progress)
      requires pos < |input| && h == ParseHead(input, pos) && HeadError(opts, h, pos).None? && h.mt == TAG
      requires |stack| <= depth && StackOk(stack, pos) && AllEntered(opts, stack)
      modifies this`pos
      ensures old(pos) <= pos <= |input| && (step.Failed? || step.Tagged?)
      ensures var goal := Resume(opts, input, old(pos), depth, stack);
              if step.Failed? then goal == Fail(step.error)
              else old(pos) < pos && (pos < |input| ==> input[pos] != BREAK)
                   && goal == Resume(opts, input, pos, depth, stack)
    {
      hide SkipItem, Finish;
      TaggedItem(opts, input, pos, depth);
      if pos + h.length >= |input| {
        return Failed(Error(Truncated, pos + h.length));
      }
      if input[pos + h.length] == BREAK {
        return Failed(Error(MalformedItem, pos + h.length));
      }
      pos := pos + h.length;
      return Tagged;
    }

    method SkipOpening(stack: seq<Level>, h: ParsedHead) returns (next: seq<Level>, step: Progress, ghost w: bool)
      requires pos < |input| && h == ParseHead(input, pos) && HeadError(opts, h, pos).None?
               && (h.mt == ARRAY || h.mt == MAP)
      requires |stack| <= depth && StackOk(stack, pos) && AllEntered(opts, stack)
      modifies this`pos, this`depth
      ensures old(pos) <= pos <= |input| && StackOk(next, pos) && depth == old(depth) + |next| - |stack|
      ensures !step.Tagged? && (!step.Opened? ==> !w)
      ensures var goal := Resume(opts, input, old(pos), old(depth), stack);
              if step.Failed? then goal == Fail(step.error)
              else if step.Opened? then
                old(pos) < pos && |next| == |stack| + 1 && next[..|stack|] == stack
                && goal == OrWrapped(w, Continue(opts, input, pos, depth, stack, next[|stack|]))
              else old(pos) < pos && next == stack && goal == Finish(opts, input, pos, depth, stack)
    {
      hide SkipItem, Resume, Finish, Continue;
      next, w := stack, false;
      NotOpened(opts, input, pos, depth, stack);
      if depth >= opts.maxDepth {
        return next, Failed(Error(DepthExceeded, pos)), w;
      }
      if !h.indefinite && h.value == 0 {
        pos := pos + h.length;
        return next, Ended, w;
      }
      OpenContainer(opts, input, pos, depth, stack);
      w := h.mt == MAP && h.value >= TWO63;
      pos, depth := pos + h.length, depth + 1;
      next := stack + [OpenLevel(h)];
      return next, Opened, w;
    }

    /** The same for an item that its container may not know of yet. */
    method SkipNext(stack: seq<Level>, h: ParsedHead, ghost inItem: bool)
      returns (next: seq<Level>, step: Progress, ghost w: bool)
      requires pos < |input| && h == ParseHead(input, pos) && h.length > 0 && !h.isBreak
      requires |stack| <= depth && StackOk(stack, pos) && Announced(opts, input, pos, stack, inItem)
      modifies this`pos, this`depth
      ensures old(pos) <= pos <= |input| && StackOk(next, pos) && depth == old(depth) + |next| - |stack|
      ensures !step.Failed? ==> old(pos) < pos
      ensures step.Tagged? || step.Opened? ==> Announced(opts, input, pos, next, step.Tagged?)
      ensures step.Ended? ==> AllEntered(opts, next)
      ensures Pending(opts, input, old(pos), old(depth), stack, inItem)
              == match step
                 case Failed(e) => Fail(e)
                 case Ended => Finish(opts, input, pos, depth, next)
                 case _ => OrWrapped(w, Pending(opts, input, pos, depth, next, step.Tagged?))
    {
      var announced := stack;
      if stack != [] {
        if !inItem {
          EnterItem(opts, input, pos, depth, stack[..|stack| - 1], stack[|stack| - 1]);
        } else {
          assert Announce(opts, stack, pos) == stack;
        }
        announced := Announce(opts, stack, pos);
      }
      next, step, w := SkipHead(announced, h);
    }

    /** skip_value: one item, validated with an explicit stack of open containers. */
    method SkipValue() returns (r: Status)
      requires pos <= |input|
      modifies this`pos, this`depth
      ensures pos <= |input|
      ensures match SkipItem(opts, input, old(pos), old(depth))
              case Done(p, _) => r == Ok && pos == p && depth == old(depth)
              case Fail(e) => r == Err(e)
    {
      hide SkipItem, Resume, Finish, Continue, ParseHead;
      var stack: seq<Level> := [];
      ghost var goal := SkipItem(opts, input, pos, depth);
      NothingOpen(opts, input, pos, depth);
      ghost var w := false;       // a map head of 2^63 entries or more has been seen
      ghost var inItem := true;   // the item at pos has been announced to its container
      while true
        invariant pos <= |input| && depth == old(depth) + |stack| && StackOk(stack, pos)
        invariant Announced(opts, input, pos, stack, inItem)
        invariant goal == OrWrapped(w, Pending(opts, input, pos, depth, stack, inItem))
        decreases |input| - pos
      {
        if pos >= |input| {
          HeadPastEnd(input, pos);
          InputEnds(opts, input, pos, depth, stack, inItem);
          return Err(Error(Truncated, pos));
        }
        var h := ParseHeadAt(input, pos);
        if h.length == 0 {
          InputEnds(opts, input, pos, depth, stack, inItem);
          return Err(Error(Truncated, pos));
        }
        if h.isBreak {
          BreakEnds(opts, input, pos, depth, stack, inItem);
          if stack == [] || stack[|stack| - 1].remaining.Some?
             || (stack[|stack| - 1].isMap && !stack[|stack| - 1].keyNext) {
            return Err(Error(MalformedItem, pos));
          }
          pos, depth, stack := pos + 1, depth - 1, stack[..|stack| - 1];
        } else {
          var step;
          ghost var wrapped;
          stack, step, wrapped := SkipNext(stack, h, inItem);
          if step.Failed? {
            return Err(step.error);
          }
          if !step.Ended? {
            w, inItem := w || wrapped, step.Tagged?;
            continue;
          }
        }
        var failed;
        stack, failed := CloseCompleted(stack);
        if failed.Some? {
          return Err(failed.value);
        }
        if stack == [] {
          return Ok;
        }
        inItem := false;
      }
    }

    // ---- cursors and generic values ----

    method Peek() returns (k: Kind)
      ensures k == PeekKind(opts, input, pos)
    {
      var p := pos;
      while true
        invariant PeekKind(opts, input, p) == PeekKind(opts, input, pos)
        decreases |input| - p
      {
        var h := ParseHeadAt(input, p);
        if h.length == 0 || h.reserved || h.isBreak {
          return KUndefined;
        }
        if h.mt != TAG || !opts.ignoreUnknownTags {
          return PeekKind(opts, input, p);
        }
        p := p + h.length;
      }
    }

    /** item_head: moves past the tags when it answers with a head. */
    method ItemHeadHere() returns (r: HeadFound)
      requires pos <= |input|
      modifies this`pos
      ensures match ItemHead(opts, input, old(pos))
              case NoHead(e) => r == HeadMissing(e) && pos == old(pos)
              case HeadAt(at, h, _) => r == HeadFound(h) && pos == at
    {
      hide ParseHead, HeadDeterministic;
      var p := pos;
      ghost var loose := false;
      while true
        invariant pos == old(pos) && p <= |input|
        invariant var rest := ItemHead(opts, input, p);
                  ItemHead(opts, input, pos) == if rest.NoHead? then rest else rest.(loose := loose || rest.loose)
        decreases |input| - p
      {
        var h := ParseHeadAt(input, p);
        if h.length == 0 {
          return HeadMissing(Error(Truncated, p));
        }
        if h.isBreak || h.reserved {
          return HeadMissing(Error(MalformedItem, p));
        }
        if h.mt != TAG {
          if h.mt == SIMPLE && h.ai == 24 && h.value < 32 {
            return HeadMissing(Error(MalformedItem, p));
          }
          if opts.requireDeterministic && !HeadDeterministic(h) {
            return HeadMissing(Error(NonDeterministic, p));
          }
          pos := p;
          return HeadFound(h);
        }
        if !opts.ignoreUnknownTags {
          return HeadMissing(Error(TagMismatch, p));
        }
        loose := loose || !h.Shortest();
        p := p + h.length;
      }
    }

    /** The validator's error, or a complaint where it ended. */
    method RejectHere() returns (e: Error)
      requires pos <= |input|
      modifies this`pos, this`depth
      ensures pos <= |input|
      ensures NotRead(e) == Reject(opts, input, old(pos), old(depth))
    {
      var st := SkipValue();
      e := if st.Err? then st.error else Error(UnexpectedToken, pos);
    }

    /** expect_uint, expect_nint, expect_simple, expect_real, expect_text or expect_bytes, once the head is known. */
    method DecodeScalar(h: ParsedHead) returns (r: Decoded)
      requires pos < |input| && h == ParseHead(input, pos) && HeadError(opts, h, pos).None?
      requires h.mt != ARRAY && h.mt != MAP && h.mt != TAG
      modifies this`pos
      ensures pos <= |input|
      ensures match ReadScalar(opts, input, old(pos), false)
              case NotRead(e) => r == NoValue(e)
              case Read(t, p, _) => r == Value(t) && pos == p
    {
      hide Widen, IsPreferred, WellFormed, FirstBad;
      if h.mt == BYTES || h.mt == TEXT {
        var at := pos;
        var s := ReadStringAt(h);
        if s.NoString? {
          return NoValue(s.error);
        }
        if h.mt == BYTES {
          return Value(ByteString(s.bytes));
        }
        if opts.validateUtf8 {
          var bad := ValidateUtf8(s.bytes);
          if bad.Some? {
            return NoValue(Error(InvalidUtf8, if h.indefinite then at else at + h.length + bad.value));
          }
        }
        return Value(TextString(s.bytes));
      }
      if h.mt == UINT {
        r := Value(UInt(h.value));
      } else if h.mt == NINT {
        r := Value(NInt(h.value));
      } else if 25 <= h.ai <= 27 {
        FloatHead(input, pos);
        var w := FloatForm(h.ai, h.value);
        if opts.requireDeterministic && !IsPreferred(Widen(w), w) {
          return NoValue(Error(NonDeterministic, pos));
        }
        r := Value(Float(Widen(w)));
      } else if h.ai == 23 {
        if !opts.undefinedAsNull {
          return NoValue(Error(TypeMismatch, pos));
        }
        r := Value(Simple(22));
      } else {
        r := Value(Simple(h.value));
      }
      pos := pos + h.length;
    }

    /** next of either cursor: leaves the container at its end. */
    method Next(remaining: Option<nat>) returns (r: Cursor)
      requires pos <= |input| && depth > 0
      modifies this`pos, this`depth
      ensures r == CursorNext(input, old(pos), remaining)
      ensures if r.CursorEnd? then pos == r.pos && depth == old(depth) - 1 else pos == old(pos) && depth == old(depth)
    {
      if remaining == Some(0) {
        depth := depth - 1;
        return CursorEnd(pos);
      }
      if pos >= |input| {
        return CursorError(Error(Truncated, pos));
      }
      if remaining.None? && input[pos] == BREAK {
        pos, depth := pos + 1, depth - 1;
        return CursorEnd(pos);
      }
      return CursorItem(if remaining.Some? then Some(remaining.value - 1) else None);
    }

    /** key_ahead: validates the key ahead from a saved position, and restores it. */
    method KeyAheadHere(prev: Option<Extent>) returns (r: KeyAhead)
      requires pos <= |input| && ExtentOk(prev, |input|)
      modifies this`pos, this`depth
      ensures pos == old(pos) && depth == old(depth) && r == CheckKey(opts, input, pos, depth, prev)
    {
      if !opts.requireDeterministic {
        return KeyOk(prev);
      }
      var start, saved := pos, depth;
      var skipped := SkipValue();
      var end := pos;
      pos, depth := start, saved;
      if skipped.Err? {
        return KeyOk(prev);
      }
      if prev.Some? {
        var cur, last := input[start..end], input[prev.value.start..prev.value.end];
        if Less(cur, last) || cur == last {
          return KeyBad(Error(NonDeterministic, start));
        }
      }
      return KeyOk(Some(Extent(start, end)));
    }

    method DecodeArray(h: ParsedHead) returns (r: Decoded)
      requires pos < |input| && h == ParseHead(input, pos) && HeadError(opts, h, pos).None? && h.mt == ARRAY
      modifies this`pos, this`depth
      ensures pos <= |input|
      ensures match ReadAt(opts, input, old(pos), old(depth), false)
              case NotRead(e) => r == NoValue(e)
              case Read(t, p, _) => r == Value(t) && pos == p && depth == old(depth)
      decreases |input| - pos, 0
    {
      hide ReadItem, CursorNext, OntoItems;
      if depth >= opts.maxDepth {
        return NoValue(Error(DepthExceeded, pos));
      }
      ghost var outer := depth;
      pos, depth := pos + h.length, depth + 1;
      var remaining := if h.indefinite then None else Some(h.value);
      var done: seq<Item> := [];
      ghost var goal, loose := ReadSeq(opts, input, pos, depth, remaining), false;
      EmptySoFar();
      while true
        invariant old(pos) < pos <= |input| && depth == outer + 1
        invariant goal == SeqAfter(done, loose, ReadSeq(opts, input, pos, depth, remaining))
        decreases |input| - pos
      {
        var more := Next(remaining);
        match more
        case CursorError(e) =>
          return NoValue(e);
        case CursorEnd(_) =>
          return Value(Array(OntoItems(done, NoItems)));
        case CursorItem(left) =>
          ghost var at := pos;
          var e := DecodeValue();
          if e.NoValue? {
            return NoValue(e.error);
          }
          SeqGrows(opts, input, at, depth, remaining, done, loose);
          loose := loose || ReadItem(opts, input, at, depth).loose;
          done, remaining := done + [e.item], left;
      }
    }

    method DecodeMap(h: ParsedHead) returns (r: Decoded)
      requires pos < |input| && h == ParseHead(input, pos) && HeadError(opts, h, pos).None? && h.mt == MAP
      modifies this`pos, this`depth
      ensures pos <= |input|
      ensures match ReadAt(opts, input, old(pos), old(depth), false)
              case NotRead(e) => r == NoValue(e)
              case Read(t, p, _) => r == Value(t) && pos == p && depth == old(depth)
      decreases |input| - pos, 0
    {
      hide ReadItem, CursorNext, CheckKey, OntoEntries;
      if depth >= opts.maxDepth {
        return NoValue(Error(DepthExceeded, pos));
      }
      ghost var outer := depth;
      pos, depth := pos + h.length, depth + 1;
      var remaining := if h.indefinite then None else Some(h.value);
      var prev: Option<Extent> := None;
      var done: seq<(Item, Item)> := [];
      ghost var goal, loose := ReadMap(opts, input, pos, depth, remaining, prev), false;
      EmptySoFar();
      while true
        invariant old(pos) < pos <= |input| && depth == outer + 1 && ExtentOk(prev, |input|)
        invariant goal == MapAfter(done, loose, ReadMap(opts, input, pos, depth, remaining, prev))
        decreases |input| - pos
      {
        var more := Next(remaining);
        match more
        case CursorError(e) =>
          return NoValue(e);
        case CursorEnd(_) =>
          return Value(Map(OntoEntries(done, NoEntries)));
        case CursorItem(left) =>
          ghost var at := pos;
          var key := KeyAheadHere(prev);
          if key.KeyBad? {
            return NoValue(key.error);
          }
          var k := DecodeValue();
          if k.NoValue? {
            return NoValue(k.error);
          }
          ghost var mid := pos;
          var v := DecodeValue();
          if v.NoValue? {
            return NoValue(v.error);
          }
          MapGrows(opts, input, at, depth, remaining, prev, done, loose);
          loose := loose || ReadItem(opts, input, at, depth).loose || ReadItem(opts, input, mid, depth).loose;
          done, remaining, prev := done + [(k.item, v.item)], left, key.prev;
      }
    }

    /** decode of a generic value: dispatch on peek, then the cursors. */
    method DecodeValue() returns (r: Decoded)
      requires pos <= |input|
      modifies this`pos, this`depth
      ensures pos <= |input|
      ensures match ReadItem(opts, input, old(pos), old(depth))
              case NotRead(e) => r == NoValue(e)
              case Read(t, p, _) => r == Value(t) && pos == p && depth == old(depth)
      decreases |input| - pos, 1
    {
      hide ReadScalar, ItemHead, PeekKind, Reject, ReadSeq, ReadMap, ParseHead;
      var kind := Peek();
      var found := ItemHeadHere();
      if found.HeadMissing? {
        if kind.KUndefined? || kind.KTag? {
          var e := RejectHere();
          return NoValue(e);
        }
        return NoValue(found.error);
      }
      var h := found.head;
      ghost var at, outer := pos, depth;
      LooseAdds(opts, input, pos, depth, ItemHead(opts, input, old(pos)).loose);
      if h.mt == ARRAY {
        r := DecodeArray(h);
      } else if h.mt == MAP {
        r := DecodeMap(h);
      } else if h.mt == SIMPLE && h.ai == 23 && !opts.undefinedAsNull {
        var e := RejectHere();
        return NoValue(e);
      } else {
        r := DecodeScalar(h);
      }
    }
  }
}
