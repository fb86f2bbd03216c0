/** Decoding what variants were written as: the pass for the discriminator, and the second pass for boxed
    alternatives. */
module TypedVariants {
  import opened Bytes
  import opened Head
  import opened Utf8
  import opened Item
  import opened KeyOrder
  import opened SkipSpec
  import opened ReadSpec
  import opened BuildSpec
  import opened BuildSteps
  import W = WriterSpec
  import opened WriterRuns
  import opened WriterTrees
  import opened Typed
  import opened TypedItems
  import opened TypedRead
  import opened TypedStructs
  import opened TypedWrite
  import M = StructMaps

  // ---- sorting entries is ordering members ----

  lemma KeyBytesOf(m: M.Member)
    requires M.GoodMember(m)
    ensures Enc(KeyTree(CallKey(M.KeyCallOf(m.key)))) == M.KeyBytes(m)
  {
    hide WellFormed, Good, ShortHead;
  }

  lemma {:induction false} InsertMember(m: M.Member, s: seq<M.Member>)
    requires M.GoodMember(m) && M.GoodMembers(s)
    ensures InsertEntry(KeyTree(CallKey(M.KeyCallOf(m.key))), Tree(m.val), EntryTrees(M.EntriesOf(s)))
            == EntryTrees(M.EntriesOf(M.Insert(m, s)))
    decreases |s|
  {
    hide Less, Enc, KeyTree, M.KeyCallOf, Tree, M.GoodMember, M.KeyBytes;
    KeyBytesOf(m);
    if s != [] {
      KeyBytesOf(s[0]);
      InsertMember(m, s[1..]);
      var r := [s[0]] + M.Insert(m, s[1..]);
      assert r[1..] == M.Insert(m, s[1..]);
    }
    assert ([m] + s)[1..] == s;
  }

  lemma {:induction false} SortedMembers(s: seq<M.Member>)
    requires M.GoodMembers(s)
    ensures SortEntries(EntryTrees(M.EntriesOf(s))) == EntryTrees(M.EntriesOf(M.Ordered(s)))
    decreases |s|
  {
    hide InsertEntry, KeyTree, M.KeyCallOf, Tree, M.GoodMember, M.Insert;
    if s != [] {
      SortedMembers(s[1..]);
      OrderedGood(s[1..]);
      InsertMember(s[0], M.Ordered(s[1..]));
    }
  }

  lemma OrderedGood(s: seq<M.Member>)
    requires M.GoodMembers(s)
    ensures M.GoodMembers(M.Ordered(s))
  {
    hide M.Ordered, M.GoodMember;
    M.OrderedKeys(s);
    var r := M.Ordered(s);
    forall i | 0 <= i < |r|
      ensures M.GoodMember(r[i])
    {
      assert r[i] in multiset(s);
    }
  }

  // ---- the pass for the discriminator ----

  /** Entries of which at most one is under `tag`, which holds `name`. */
  ghost predicate Tagged(es: seq<M.Member>, tag: seq<byte>, name: seq<byte>) {
    && (forall k :: 0 <= k < |es| ==> TaggedEntry(es[k], tag, name))
    && (forall j, k :: 0 <= j < k < |es| ==> es[j].key != es[k].key)
  }

  ghost predicate TaggedEntry(e: M.Member, tag: seq<byte>, name: seq<byte>) {
    if e.key.IntKey? then -TWO63 <= e.key.i < TWO63
       else SoundName(e.key.text) && (e.key.text == tag ==> e.val == Leaf(W.Text(name)))
  }

  /** Integer keys from entry `k` on. */
  ghost predicate HasIntKey(es: seq<M.Member>, k: nat) {
    exists j :: k <= j < |es| && es[j].key.IntKey?
  }

  ghost predicate HasTag(es: seq<M.Member>, tag: seq<byte>, k: nat) {
    exists j :: k <= j < |es| && es[j].key == TextKey(tag)
  }

  /** One entry under the first pass. */
  lemma TagStep(o: Options, tag: seq<byte>, name: seq<byte>, es: seq<M.Member>, k: nat, got: Option<(seq<byte>, nat)>,
                input: seq<byte>, pos: nat, depth: nat, ext: Option<Extent>, prev: Option<seq<byte>>)
    requires Tagged(es, tag, name) && SoundName(name) && k < |es| && es[k].key.TextKey?
    requires EntriesLie(o, input, pos, depth, EntryTrees(M.EntriesOf(es[k..])), ext, prev)
    ensures var u := EntryTrees(M.EntriesOf(es[k..]));
            var p := pos + |Enc(u.key)|;
            var q := p + |Enc(u.val)|;
            var got' := if got.None? && es[k].key == TextKey(tag) then Some((name, p)) else got;
            && pos < p < q <= |input| && ExtentOk(ext, |input|) && ExtentOk(NextExtent(o, ext, pos, p), |input|)
            && FindTag(o, tag, got, input, pos, depth, Some(|es| - k), ext)
               == FindTag(o, tag, got', input, q, depth, Some(|es| - k - 1), NextExtent(o, ext, pos, p))
  {
    hide EntriesLie, Lies, Enc, Tree, NextEntry, NextExtent, SkipItem, FindTag, ExpectText, WellFormed, EntryTrees,
         M.EntriesOf;
    var u := EntryTrees(M.EntriesOf(es[k..]));
    EntriesFrom(es, k);
    EntryLies(o, input, pos, depth, u, ext, prev);
    var p := pos + |Enc(u.key)|;
    assert TaggedEntry(es[k], tag, name);
    KeyLies(o, input, pos, depth, u.key);
    TextAhead(o, input, pos, es[k].key.text);
    if es[k].key.text == tag {
      TextTree(name);
      KeyLies(o, input, p, depth, u.val);
      TextAhead(o, input, p, name);
    }
    ScanStep(o, tag, got, input, pos, depth, Some(|es| - k), ext);
  }

  lemma TextTree(s: seq<byte>)
    ensures Tree(Leaf(W.Text(s))) == TextString(s)
  {
  }

  lemma {:induction false} TagScan(o: Options, tag: seq<byte>, name: seq<byte>, es: seq<M.Member>, k: nat,
                                   got: Option<(seq<byte>, nat)>, input: seq<byte>, pos: nat, depth: nat,
                                   ext: Option<Extent>, prev: Option<seq<byte>>)
    requires Tagged(es, tag, name) && SoundName(name) && k <= |es| && !HasIntKey(es, k)
    requires EntriesLie(o, input, pos, depth, EntryTrees(M.EntriesOf(es[k..])), ext, prev)
    ensures pos <= |input| && ExtentOk(ext, |input|)
    ensures var r := FindTag(o, tag, got, input, pos, depth, Some(|es| - k), ext);
            r.Scanned? && (got.Some? ==> r.tag == got)
              && (got.None? && HasTag(es, tag, k) ==> r.tag.Some? && r.tag.value.0 == name)
    decreases |es| - k
  {
    hide EntriesLie, Lies, Enc, Tree, NextEntry, NextExtent, NextKey, FindTag, TaggedEntry, EntryTrees, M.EntriesOf;
    var u := EntryTrees(M.EntriesOf(es[k..]));
    EntriesFrom(es, k);
    if k == |es| {
      NoneLie(o, input, pos, depth, u, ext, prev);
      ScanStep(o, tag, got, input, pos, depth, Some(0), ext);
    } else {
      EntryLies(o, input, pos, depth, u, ext, prev);
      assert es[k].key.TextKey?;
      TagStep(o, tag, name, es, k, got, input, pos, depth, ext, prev);
      var p := pos + |Enc(u.key)|;
      var got' := if got.None? && es[k].key == TextKey(tag) then Some((name, p)) else got;
      TagScan(o, tag, name, es, k + 1, got', input, p + |Enc(u.val)|, depth, NextExtent(o, ext, pos, p),
              NextKey(o, prev, u.key));
    }
  }

  /** An integer key is no text. */
  lemma IntNoText(o: Options, input: seq<byte>, pos: nat, i: int)
    requires -TWO63 <= i < TWO63 && At(input, pos, Enc(IntItem(i)))
    ensures ExpectText(o, input, pos).Missed?
  {
    hide ParseHead, ShortHead, ItemHead, ReadScalar;
    if i >= 0 {
      WholeHead(ShortHead(UINT, i));
      HeadAhead(o, input, pos, UINT, i, []);
    } else {
      WholeHead(ShortHead(NINT, -1 - i));
      HeadAhead(o, input, pos, NINT, -1 - i, []);
    }
  }

  lemma IntKeyAhead(es: seq<M.Member>, k: nat)
    requires HasIntKey(es, k) && k < |es| && !es[k].key.IntKey?
    ensures HasIntKey(es, k + 1)
  {
  }

  lemma TagFails(o: Options, tag: seq<byte>, name: seq<byte>, es: seq<M.Member>, k: nat, got: Option<(seq<byte>, nat)>,
                 input: seq<byte>, pos: nat, depth: nat, ext: Option<Extent>, prev: Option<seq<byte>>)
    requires Tagged(es, tag, name) && k < |es| && es[k].key.IntKey?
    requires EntriesLie(o, input, pos, depth, EntryTrees(M.EntriesOf(es[k..])), ext, prev)
    ensures pos <= |input| && ExtentOk(ext, |input|)
            && FindTag(o, tag, got, input, pos, depth, Some(|es| - k), ext).ScanError?
  {
    hide EntriesLie, Lies, Enc, Tree, NextEntry, NextExtent, NextKey, FindTag, EntryTrees, M.EntriesOf, ExpectText;
    var u := EntryTrees(M.EntriesOf(es[k..]));
    EntriesFrom(es, k);
    EntryLies(o, input, pos, depth, u, ext, prev);
    assert TaggedEntry(es[k], tag, name);
    KeyLies(o, input, pos, depth, u.key);
    IntNoText(o, input, pos, es[k].key.i);
    ScanStep(o, tag, got, input, pos, depth, Some(|es| - k), ext);
  }

  /** The first pass fails at an integer key. */
  lemma {:induction false} TagScanFails(o: Options, tag: seq<byte>, name: seq<byte>, es: seq<M.Member>, k: nat,
                                        got: Option<(seq<byte>, nat)>, input: seq<byte>, pos: nat, depth: nat,
                                        ext: Option<Extent>, prev: Option<seq<byte>>)
    requires Tagged(es, tag, name) && SoundName(name) && k <= |es| && HasIntKey(es, k)
    requires EntriesLie(o, input, pos, depth, EntryTrees(M.EntriesOf(es[k..])), ext, prev)
    ensures pos <= |input| && ExtentOk(ext, |input|)
            && FindTag(o, tag, got, input, pos, depth, Some(|es| - k), ext).ScanError?
    decreases |es| - k
  {
    hide EntriesLie, Lies, Enc, Tree, NextEntry, NextExtent, NextKey, FindTag, EntryTrees, M.EntriesOf, Tagged;
    var u := EntryTrees(M.EntriesOf(es[k..]));
    EntriesFrom(es, k);
    EntryLies(o, input, pos, depth, u, ext, prev);
    if es[k].key.IntKey? {
      TagFails(o, tag, name, es, k, got, input, pos, depth, ext, prev);
    } else {
      TagStep(o, tag, name, es, k, got, input, pos, depth, ext, prev);
      var p := pos + |Enc(u.key)|;
      var got' := if got.None? && es[k].key == TextKey(tag) then Some((name, p)) else got;
      IntKeyAhead(es, k);
      TagScanFails(o, tag, name, es, k + 1, got', input, p + |Enc(u.val)|, depth, NextExtent(o, ext, pos, p),
                   NextKey(o, prev, u.key));
    }
  }

  lemma AlternativeRefused(o: Options, tag: seq<byte>, alts: seq<(seq<byte>, Ty)>, name: seq<byte>, es: seq<M.Member>,
                           input: seq<byte>, pos: nat, depth: nat)
    requires Tagged(es, tag, name) && SoundName(name) && HasIntKey(es, 0)
             && Lies(o, input, pos, depth, Map(EntryTrees(M.EntriesOf(es))))
    ensures pos <= |input| && FindAlternative(o, tag, alts, input, pos, depth).NoAlternative?
  {
    hide EntriesLie, Lies, Enc, Tree, OpenContainer, FindTag, Tagged, HasIntKey;
    var u := EntryTrees(M.EntriesOf(es));
    EntriesCount(es);
    MapLies(o, input, pos, depth, u);
    assert es[0..] == es;
    TagScanFails(o, tag, name, es, 0, None, input, pos + |ShortHead(MAP, u.Length())|, depth + 1, None, None);
  }

  /** The first pass finds the alternative. */
  lemma AlternativeFound(o: Options, tag: seq<byte>, alts: seq<(seq<byte>, Ty)>, i: nat, es: seq<M.Member>,
                         input: seq<byte>, pos: nat, depth: nat)
    requires i < |alts| && FindAlt(alts, alts[i].0) == Some(i) && SoundName(alts[i].0)
    requires Tagged(es, tag, alts[i].0) && HasTag(es, tag, 0) && !HasIntKey(es, 0)
             && Lies(o, input, pos, depth, Map(EntryTrees(M.EntriesOf(es))))
    ensures pos <= |input| && FindAlternative(o, tag, alts, input, pos, depth) == Alternative(i)
  {
    hide EntriesLie, Lies, Enc, Tree, OpenContainer, FindTag, Tagged, HasIntKey, HasTag, FindAlt, SoundName,
         EntryTrees, M.EntriesOf;
    var u := EntryTrees(M.EntriesOf(es));
    EntriesCount(es);
    MapLies(o, input, pos, depth, u);
    assert es[0..] == es;
    TagScan(o, tag, alts[i].0, es, 0, None, input, pos + |ShortHead(MAP, u.Length())|, depth + 1, None, None);
  }

  // ---- boxed alternatives ----

  /** Entries of which the one under the value's key holds the value. */
  ghost predicate Boxed(es: seq<M.Member>, t: Ty, v: Value) {
    && (forall k :: 0 <= k < |es| ==> BoxedEntry(es[k], t, v))
    && (forall j, k :: 0 <= j < k < |es| ==> es[j].key != es[k].key)
  }

  ghost predicate BoxedEntry(e: M.Member, t: Ty, v: Value) {
    e.key.TextKey? && SoundName(e.key.text) && (e.key.text == VALUE ==> e.val == DocOf(t, v))
  }

  ghost predicate HasValue(es: seq<M.Member>, k: nat) {
    exists j :: k <= j < |es| && es[j].key == TextKey(VALUE)
  }

  /** The loop over the entries of a boxed alternative in front of entry `k`. */
  ghost function BoxLoop(c: Config, t: Ty, off: nat, done: Value, have: bool, n: nat, k: nat, input: seq<byte>,
                         pos: nat, depth: nat, ext: Option<Extent>): Res
    requires k <= n && pos <= |input| && ExtentOk(ext, |input|)
  {
    DecodeBoxed(c, t, off, done, have, input, pos, depth, Some(n - k), ext)
  }

  /** An entry that is not the value. */
  lemma OtherSkipped(c: Config, t: Ty, v: Value, off: nat, done: Value, have: bool, es: seq<M.Member>, k: nat,
                     input: seq<byte>, pos: nat, depth: nat, ext: Option<Extent>, prev: Option<seq<byte>>)
    requires Boxed(es, t, v) && k < |es| && es[k].key != TextKey(VALUE)
    requires EntriesLie(c.opts, input, pos, depth, EntryTrees(M.EntriesOf(es[k..])), ext, prev)
    ensures var u := EntryTrees(M.EntriesOf(es[k..]));
            var p := pos + |Enc(u.key)|;
            var q := p + |Enc(u.val)|;
            && pos < p < q <= |input| && ExtentOk(ext, |input|) && ExtentOk(NextExtent(c.opts, ext, pos, p), |input|)
            && BoxLoop(c, t, off, done, have, |es|, k, input, pos, depth, ext)
               == BoxLoop(c, t, off, done, have, |es|, k + 1, input, q, depth, NextExtent(c.opts, ext, pos, p))
  {
    hide EntriesLie, Lies, Enc, Tree, NextEntry, NextExtent, SkipItem, ExpectText, WellFormed, DecodeBoxed,
         DecodeBoxValue, SkipBoxed;
    hide Decode, DocOf, VALUE, EntryTrees, M.EntriesOf;
    var u := EntryTrees(M.EntriesOf(es[k..]));
    EntriesFrom(es, k);
    EntryLies(c.opts, input, pos, depth, u, ext, prev);
    var p := pos + |Enc(u.key)|;
    assert BoxedEntry(es[k], t, v);
    KeyLies(c.opts, input, pos, depth, u.key);
    TextAhead(c.opts, input, pos, es[k].key.text);
    BoxKeyStep(c, t, off, done, have, input, pos, depth, Some(|es| - k), ext);
    SkipBoxedStep(c, t, off, done, have, input, p, depth, Some(|es| - k - 1), NextExtent(c.opts, ext, pos, p));
  }

  /** The entry of the value. */
  lemma OwnDecoded(c: Config, t: Ty, v: Value, off: nat, done: Value, have: bool, es: seq<M.Member>, k: nat,
                   input: seq<byte>, pos: nat, depth: nat, ext: Option<Extent>, prev: Option<seq<byte>>)
    requires Boxed(es, t, v) && k < |es| && es[k].key == TextKey(VALUE) && Decodes(c, input, t, v)
    requires EntriesLie(c.opts, input, pos, depth, EntryTrees(M.EntriesOf(es[k..])), ext, prev)
    ensures var u := EntryTrees(M.EntriesOf(es[k..]));
            var p := pos + |Enc(u.key)|;
            var q := p + |Enc(u.val)|;
            && pos < p < q <= |input| && ExtentOk(ext, |input|) && ExtentOk(NextExtent(c.opts, ext, pos, p), |input|)
            && BoxLoop(c, t, off, done, have, |es|, k, input, pos, depth, ext)
               == BoxLoop(c, t, off, Back(t, v, done), true, |es|, k + 1, input, q, depth,
                          NextExtent(c.opts, ext, pos, p))
  {
    hide EntriesLie, Lies, Enc, Tree, NextEntry, NextExtent, SkipItem, ExpectText, WellFormed, DecodeBoxed,
         DecodeBoxValue, SkipBoxed;
    hide Decode, Decodes, Back, DocOf, VALUE, EntryTrees, M.EntriesOf;
    var u := EntryTrees(M.EntriesOf(es[k..]));
    EntriesFrom(es, k);
    EntryLies(c.opts, input, pos, depth, u, ext, prev);
    var p := pos + |Enc(u.key)|;
    assert BoxedEntry(es[k], t, v);
    KeyLies(c.opts, input, pos, depth, u.key);
    TextAhead(c.opts, input, pos, es[k].key.text);
    BoxKeyStep(c, t, off, done, have, input, pos, depth, Some(|es| - k), ext);
    OwnBack(c, t, v, off, done, |es| - k - 1, input, p, depth, NextExtent(c.opts, ext, pos, p));
  }

  lemma OwnBack(c: Config, t: Ty, v: Value, off: nat, done: Value, n: nat, input: seq<byte>, p: nat, depth: nat,
                ext: Option<Extent>)
    requires Decodes(c, input, t, v) && Lies(c.opts, input, p, depth, Img(t, v)) && ExtentOk(ext, |input|)
    ensures var q := p + |Enc(Img(t, v))|;
            && p <= |input| && q <= |input|
            && DecodeBoxValue(c, t, off, done, input, p, depth, Some(n), ext)
               == DecodeBoxed(c, t, off, Back(t, v, done), true, input, q, depth, Some(n), ext)
  {
    hide Lies, Enc, DecodeBoxed, DecodeBoxValue, Decode, Decodes, Back, Img, VALUE, Also, PushAll;
    InBounds(c.opts, input, p, depth, Img(t, v));
    UseDecodes(c, input, t, v, done, p, depth);
    BoxValueStep(c, t, off, done, input, p, depth, Some(n), ext);
    NoErrs(BuildSpec.Member(VALUE),
           DecodeBoxed(c, t, off, Back(t, v, done), true, input, p + |Enc(Img(t, v))|, depth, Some(n), ext));
  }

  lemma BoxLoopEnds(c: Config, t: Ty, off: nat, done: Value, n: nat, input: seq<byte>, pos: nat, depth: nat,
                    ext: Option<Extent>)
    requires pos <= |input| && ExtentOk(ext, |input|)
             && NextEntry(c.opts, input, pos, depth, Some(0), ext) == EntryEnd(pos)
    ensures BoxLoop(c, t, off, done, true, n, n, input, pos, depth, ext) == Res(None, done, pos, [])
  {
    hide DecodeBoxed, NextEntry;
    BoxStep(c, t, off, done, true, input, pos, depth, Some(0), ext);
  }

  /** Behind the value there is none, in front of it there is. */
  lemma ValueAhead(es: seq<M.Member>, t: Ty, v: Value, k: nat)
    requires Boxed(es, t, v) && k < |es|
    ensures var own := es[k].key == TextKey(VALUE);
            (HasValue(es, k) <==> own || HasValue(es, k + 1)) && !(own && HasValue(es, k + 1))
  {
    hide BoxedEntry, VALUE;
    if HasValue(es, k) && es[k].key != TextKey(VALUE) {
      var j :| k <= j < |es| && es[j].key == TextKey(VALUE);
      assert k + 1 <= j;
    }
  }

  lemma NoValueLeft(es: seq<M.Member>)
    ensures !HasValue(es, |es|)
  {
  }

  lemma {:induction false} BoxedBack(c: Config, t: Ty, v: Value, off: nat, done: Value, have: bool, es: seq<M.Member>,
                                     k: nat, input: seq<byte>, pos: nat, depth: nat, ext: Option<Extent>,
                                     prev: Option<seq<byte>>)
    requires Boxed(es, t, v) && k <= |es| && Decodes(c, input, t, v) && (have <==> !HasValue(es, k))
    requires EntriesLie(c.opts, input, pos, depth, EntryTrees(M.EntriesOf(es[k..])), ext, prev)
    ensures pos <= |input| && ExtentOk(ext, |input|)
    ensures BoxLoop(c, t, off, done, have, |es|, k, input, pos, depth, ext)
         == Res(None, if have then done else Back(t, v, done), pos + |EncEntries(EntryTrees(M.EntriesOf(es[k..])))|, [])
    decreases |es| - k
  {
    hide *;
    var u := EntryTrees(M.EntriesOf(es[k..]));
    EntriesFrom(es, k);
    if k == |es| {
      NoneLie(c.opts, input, pos, depth, u, ext, prev);
      assert !HasValue(es, k) by {
        NoValueLeft(es);
      }
      BoxLoopEnds(c, t, off, done, |es|, input, pos, depth, ext);
    } else {
      EntryLies(c.opts, input, pos, depth, u, ext, prev);
      if es[k].key == TextKey(VALUE) {
        OwnDecoded(c, t, v, off, done, have, es, k, input, pos, depth, ext, prev);
      } else {
        OtherSkipped(c, t, v, off, done, have, es, k, input, pos, depth, ext, prev);
      }
      var p := pos + |Enc(u.key)|;
      var own := es[k].key == TextKey(VALUE);
      ValueAhead(es, t, v, k);
      BoxedBack(c, t, v, off, if own then Back(t, v, done) else done, have || own, es, k + 1, input, p + |Enc(u.val)|,
                depth,
                NextExtent(c.opts, ext, pos, p), NextKey(c.opts, prev, u.key));
    }
  }

  lemma BoxBack(c: Config, t: Ty, v: Value, es: seq<M.Member>, input: seq<byte>, pos: nat, depth: nat)
    requires Boxed(es, t, v) && HasValue(es, 0) && Decodes(c, input, t, v)
    requires Lies(c.opts, input, pos, depth, Map(EntryTrees(M.EntriesOf(es))))
    ensures pos <= |input|
    ensures DecodeBox(c, t, input, pos, depth)
            == Res(None, Back(t, v, Initial(t)), pos + |Enc(Map(EntryTrees(M.EntriesOf(es))))|, [])
  {
    hide EntriesLie, Lies, Enc, Tree, OpenContainer, DecodeBoxed, Decodes, Back, Boxed, HasValue, Initial;
    var u := EntryTrees(M.EntriesOf(es));
    EntriesCount(es);
    MapLies(c.opts, input, pos, depth, u);
    assert es[0..] == es;
    BoxedBack(c, t, v, pos, Initial(t), false, es, 0, input, pos + |ShortHead(MAP, u.Length())|, depth + 1, None, None);
  }

  // ---- which entry is which member ----

  lemma EmitsWritten(fields: seq<Field>, ms: seq<Value>, i: nat)
    requires |ms| == |fields| && i < |fields|
    ensures M.Emits(Members(fields, ms)[i]) <==> IsWritten(fields[i], ms[i])
    ensures Members(fields, ms)[i].key == FieldKey(fields[i])
  {
    hide DocOf;
  }

  /** Any rearrangement of the written members, with a discriminator or without, is a plan. */
  lemma PlanOf(fields: seq<Field>, ms: seq<Value>, tag: seq<byte>, front: seq<M.Member>, es: seq<M.Member>)
    returns (idx: seq<nat>)
    requires |ms| == |fields| && SoundKeys(fields)
    requires front == [] || (|front| == 1 && PlanAt(fields, ms, tag, front[0], |fields|))
    requires forall m :: m in es <==> m in front || m in M.Emitted(Members(fields, ms))
    requires forall j, k :: 0 <= j < k < |es| ==> es[j].key != es[k].key
    ensures Plan(fields, ms, tag, es, idx)
  {
    hide DocOf, SoundKeys, IsWritten, M.Emits, M.Emitted, Members, SoundName, Answers;
    var s := Members(fields, ms);
    idx := [];
    for k := 0 to |es|
      invariant |idx| == k && forall j :: 0 <= j < k ==> PlanAt(fields, ms, tag, es[j], idx[j])
    {
      assert es[k] in es;
      if es[k] in front {
        idx := idx + [|fields|];
      } else {
        EmittedFrom(s, es[k]);
        var i :| 0 <= i < |s| && s[i] == es[k];
        EmitsWritten(fields, ms, i);
        idx := idx + [i];
      }
    }
    forall j, k | 0 <= j < k < |es|
      ensures idx[j] != idx[k]
    {
      assert PlanAt(fields, ms, tag, es[j], idx[j]) && PlanAt(fields, ms, tag, es[k], idx[k]);
    }
    forall i | 0 <= i < |fields| && IsWritten(fields[i], ms[i])
      ensures i in idx
    {
      EmitsWritten(fields, ms, i);
      M.EmittedHas(s, s[i]);
      assert s[i] in es;
      var k :| 0 <= k < |es| && es[k] == s[i];
      assert PlanAt(fields, ms, tag, es[k], idx[k]);
      OnlyOne(fields, ms, tag, es[k], idx[k], i);
    }
  }

  lemma OnlyOne(fields: seq<Field>, ms: seq<Value>, tag: seq<byte>, e: M.Member, j: nat, i: nat)
    requires |ms| == |fields| && SoundKeys(fields) && i < |fields| && PlanAt(fields, ms, tag, e, j)
             && e == Members(fields, ms)[i]
    ensures j == i
  {
    hide DocOf, IsWritten, SoundName, SoundKey;
    assert Answers(fields[i], fields[i].name);
    assert forall k :: 0 <= k < |fields| && k != i ==> KeysApart(fields[i], fields[k]);
  }
}
