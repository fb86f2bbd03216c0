/** Typed values that do not survive being written and decoded. */
module TypedExamples {
  import opened Bytes
  import opened Utf8
  import opened Item
  import opened BuildSpec
  import opened Collect
  import W = WriterSpec
  import StructMaps
  import opened WriterRuns
  import opened WriterTrees
  import opened Typed
  import opened TypedRead
  import opened TypedRoundTrip
  import opened TypedRefused

  /** An optional that holds an empty optional comes back empty, whatever is inside. */
  lemma {:induction false} NestedNullCollapses(wo: W.Options, c: Config, elem: Ty) returns (b: seq<byte>)
    requires Sound(elem)
    ensures W.Run(wo, W.Out([]), Calls(DocOf(TOpt(TOpt(elem)), VSome(VNone)))) == W.Next(W.Out(b))
    ensures DecodeOne(c, TOpt(TOpt(elem)), b) == Answer(VNone)
  {
    hide W.Run, DecodeOne, DecodeAll, Arranged, Returns;
    b := WrittenAndDecoded(wo, c, TOpt(TOpt(elem)), VSome(VNone));
  }

  /** An optional flag that is left out when empty, and true when left out. */
  function FlagField(): Field {
    Field([0x61], [0x61], [], None, false, false, false, Omission(false, true, false), Some(VSome(VBool(true))), VNone,
          TOpt(TBool))
  }

  /** skip_if_null beside a default_value: the empty optional is left out and comes back as the default. */
  lemma {:induction false} OmittedNullFilled(wo: W.Options, c: Config) returns (b: seq<byte>)
    requires wo.maxDepth > 0 && c.opts.maxDepth > 0
    ensures W.Run(wo, W.Out([]), Calls(DocOf(TStruct([FlagField()], Unknown(true, [])), VStruct([VNone]))))
            == W.Next(W.Out(b))
    ensures DecodeOne(c, TStruct([FlagField()], Unknown(true, [])), b) == Answer(VStruct([VSome(VBool(true))]))
  {
    hide W.Run, DecodeOne, DecodeAll, Arranged, Sound, Fit, Decodable, Back, Img, Initial, DocOf;
    var t, v := TStruct([FlagField()], Unknown(true, [])), VStruct([VNone]);
    FlagNotWritten();
    FlagFits();
    FlagFilled();
    b := WrittenAndDecoded(wo, c, t, v);
  }

  lemma FlagFits()
    ensures var t, v := TStruct([FlagField()], Unknown(true, [])), VStruct([VNone]);
            Sound(t) && Fit(t, v) && Decodable(t, v)
  {
    hide WellFormed;
    AsciiName(0x61);
    assert !IsWritten(FlagField(), VNone);
  }

  lemma FlagFilled()
    ensures var t, v := TStruct([FlagField()], Unknown(true, [])), VStruct([VNone]);
            Back(t, v, Initial(t)) == VStruct([VSome(VBool(true))])
  {
    assert !IsWritten(FlagField(), VNone);
    assert BackMembers([FlagField()], [VNone], Inits([FlagField()])) == [VSome(VBool(true))];
  }

  lemma AsciiName(b: byte)
    requires b < 0x80
    ensures SoundName([b])
  {
    AsciiWellFormed([b]);
  }

  lemma FlagNotWritten()
    ensures Img(TStruct([FlagField()], Unknown(true, [])), VStruct([VNone])) == Map(NoEntries)
  {
    var s := Members([FlagField()], [VNone]);
    assert s == [s[0]] && !StructMaps.Emits(s[0]);
    assert StructMaps.Ordered(s[1..]) == [];
    assert StructMaps.Ordered(s) == s;
    assert StructMaps.Emitted(s[1..]) == [];
    assert StructMaps.Emitted(s) == [];
  }

  /** A required flag with the integer key 1. */
  function KeyedField(): Field {
    Field([0x61], [0x61], [], Some(1), false, true, false, Omission(false, false, false), None, VBool(false), TBool)
  }

  /** A variant whose one alternative has it, under the discriminator "t". */
  function KeyedVariant(): Ty {
    TVariant([0x74], [([0x41], TStruct([KeyedField()], Unknown(true, [])))])
  }

  /** An alternative with an integer key is written and cannot be decoded again. */
  lemma {:induction false} KeyedVariantRefused(wo: W.Options, c: Config) returns (b: seq<byte>)
    requires wo.maxDepth > 0 && c.opts.maxDepth > 0
    ensures W.Run(wo, W.Out([]), Calls(DocOf(KeyedVariant(), VAlt(0, VStruct([VBool(true)]))))) == W.Next(W.Out(b))
    ensures DecodeOne(c, KeyedVariant(), b).Refused?
  {
    hide W.Run, DecodeOne, Fits, Img, DocOf, Arranged, Returns;
    KeyedSound();
    KeyedFits();
    KeyedDepth(wo.maxDepth);
    KeyedDepth(c.opts.maxDepth);
    b := TypedRoundTripExact(wo, c, KeyedVariant(), VAlt(0, VStruct([VBool(true)])));
  }

  lemma KeyedFits()
    ensures var v := VAlt(0, VStruct([VBool(true)])); Fit(KeyedVariant(), v) && !Decodable(KeyedVariant(), v)
  {
    var fields := [KeyedField()];
    assert IsWritten(fields[0], [VBool(true)][0]) && fields[0].key.Some?;
    assert !TextKeyed(fields, [VBool(true)]);
  }

  lemma KeyedSound()
    ensures Sound(KeyedVariant())
  {
    hide WellFormed;
    AsciiName(0x61);
    AsciiName(0x74);
    AsciiName(0x41);
    var fields := [KeyedField()];
    var alts := [([0x41 as byte], TStruct(fields, Unknown(true, [])))];
    assert FindAlt(alts, [0x41]) == Some(0);
    assert SoundStruct(fields);
    assert SoundAlt([0x74], alts, 0);
  }

  lemma KeyedDepth(n: nat)
    requires n > 0
    ensures Fits(Img(KeyedVariant(), VAlt(0, VStruct([VBool(true)]))), n)
  {
    hide SortEntries, StructMaps.Ordered, StructMaps.Emitted, StructMaps.EntriesOf, EntryTrees, Members;
    var s := Members([KeyedField()], [VBool(true)]);
    var e := StructMaps.EntriesOf([StructMaps.Discriminator([0x74], [0x41])]
                                  + StructMaps.Emitted(StructMaps.Ordered(s)));
    KeyedEntries(n - 1);
    SortFits(EntryTrees(e), n - 1);
    assert DocOf(KeyedVariant(), VAlt(0, VStruct([VBool(true)])))
           == StructMaps.StructDoc(StructMaps.Tagged([0x74], [0x41]), s);
  }

  lemma KeyedEntries(n: nat)
    ensures FitEntries(EntryTrees(StructMaps.EntriesOf(
              [StructMaps.Discriminator([0x74], [0x41])]
                + StructMaps.Emitted(StructMaps.Ordered(Members([KeyedField()], [VBool(true)]))))), n)
  {
    var s := Members([KeyedField()], [VBool(true)]);
    assert s == [s[0]] && StructMaps.Emits(s[0]);
    assert StructMaps.Ordered(s[1..]) == [] && StructMaps.Ordered(s) == s;
    assert StructMaps.Emitted(s[1..]) == [] && StructMaps.Emitted(s) == s;
    var d := StructMaps.Discriminator([0x74], [0x41]);
    assert ([d] + s)[1..] == s && s[1..] == [];
    assert StructMaps.EntriesOf(s) == DocEntries(CallKey(W.KeySInt(1)), Leaf(W.Boolean(true)), NoDocEntries);
    assert StructMaps.EntriesOf([d] + s)
           == DocEntries(CallKey(W.KeyText([0x74])), Leaf(W.Text([0x41])), StructMaps.EntriesOf(s));
    var u := EntryTrees(StructMaps.EntriesOf(s));
    assert u.key == UInt(1) && u.val == Simple(21) && u.rest == NoEntries;
    assert Fits(u.key, n) && Fits(u.val, n) && FitEntries(u.rest, n);
    assert FitEntries(u, n);
    var w := EntryTrees(StructMaps.EntriesOf([d] + s));
    assert w.key == TextString([0x74]) && w.val == TextString([0x41]) && w.rest == u;
    assert Fits(w.key, n) && Fits(w.val, n);
  }
}
