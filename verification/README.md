# vcodec: a verified model of the wire codecs

vcodec encodes and decodes C++ values as CBOR (RFC 8949) and JSON (RFC 8259). This project models its codecs as
state machines over bytes, in the form the code has: readers and writers are classes that move a position or grow an
output, loops are loops, and each is proved against a recursive specification. The theorems are about the
specifications.

How the files build on each other:

- `Bytes`, `Arith`, `Head`, `KeyOrder`, `Utf8`, `Floats`, `Rounding`, `HalfRounding`: bytes and their order, item
  heads, canonical key order, UTF-8, IEEE formats as exact integer magnitudes, and rounding between them.
- `Item`: data-item trees, their encodings, and what canonical means.
- `SkipSpec`, `Reader`, `Strict`: the validator. `SkipSpec.SkipItem` is the recursive reading of the input,
  `CborReader.Reader.SkipValue` the loop with an explicit stack, `Strict.StrictExact` the theorem that strict mode
  accepts exactly the canonical encodings.
- `ReadSpec`, `Walks`, `Agreement`, `ChunkGrammar`: the cursor-driven reader, what both readers meet on their way
  through an input, their agreement, and the grammar of indefinite-length strings.
- `WriterSpec`, `WriterRuns`, `Sorting`, `WriterTrees`, `Writer`, `Encoding`: the deterministic writer with its
  frames, and encoders driving it.
- `Wires`, `WireRead`, `WireExact`: every well-formed encoding of an item, canonical or not, and that lenient mode
  accepts exactly those, in the reader and in the validator.
- `EndToEnd`, `Chunked`, `StructMaps`, `TypedArrays`: round trips through writer and reader, chunked strings, struct
  maps and typed arrays.
- `BuildSpec`, `BuildSteps`, `Collect`, `Build`, `ErrorPaths`: type-directed decoding in fail-fast and collecting
  mode, and the paths of its errors. `Seeds`: when what a target held makes no difference.
- `Meanings`: typed decoding as a function of the data item, without bytes and offsets. `MeaningRead`, `DecodeMeans`,
  `DecodeExact`, `DecodeStrict`: the decoder answers exactly that, on every encoding. `DecodeLaws`, `MapKeys`, `MapLaws`,
  `Recovery`, `DecodeExamples`: unknown, repeated and missing members, keys spelled as text, and what collecting decode
  recovers from.
- `Typed`, `TypedWrite`, `TypedMembers`: the calls a typed value makes, that they are in order, and which members are
  written. `TypedItems`, `TypedRead`,
  `TypedStructs`, `TypedVariants`, `TypedCases`, `TypedRoundTrip`: what decoding makes of them. `TypedRefused`,
  `TypedLossless`, `TypedExamples`: exactly which values survive, types all of whose values do, and some that do not.
- `JsonNumber`, `JsonString`, `JsonEscapes`, `JsonSpec`, `JsonReader`, `JsonGrammar`, `JsonWriterSpec`, `JsonWriter`,
  `JsonLayout`, `JsonRoundTrip`: the JSON side, up to the grammar, the layout and the round trip.
- `Base64`, `RankSort`, `Lookup`, `KeyTables`: the fast forms that must equal simple ones.

`dafny verify dfyconfig.toml` checks everything.

## Findings

Where a property one would expect fails, the code is modelled as it is, a lemma shows an input, and the exact
condition is proved.

- `skip_value` doubles a map count in 64 bits, so a head that claims 2^63 + k entries is taken for k
  (`Strict.WrappedCountAccepted`). Acceptance in strict mode is canonicity exactly when no such head is met
  (`Strict.AcceptedIsCanonicalUnlessWrapped`), and whenever no position of the input parses as one
  (`Strict.StrictExactOnPlainInput`).
- In strict mode the cursors skip tag heads without checking their length, the validator does not
  (`Agreement.LooseTagDiffers`; exact condition on the input in `Agreement.ReadersAgree`).
- A chunk head with reserved additional information passes for an empty chunk (`ChunkGrammar.ReservedChunkAccepted`).
  An accepted indefinite-length string is in the grammar exactly when it has no such head
  (`ChunkGrammar.AcceptedIsGrammarUnlessReserved`, and for the two readers `ChunkGrammar.IndefiniteStringExact` and
  `ChunkGrammar.IndefiniteStringSkipped`).
- A dense key table whose least key is negative overflows in `key_table::find` for keys near the top of the 64-bit
  range (`KeyTables.OverflowExample`; exact condition in `KeyTables.Lookup`).
- The chunked writer cuts text every 4096 bytes and can cut a character, which the reader then refuses
  (`Chunked.StraddlingRefused`; exact condition in `Chunked.ChunkedReadsBack`).
- `to_half_rounded` adds 1024 to a magnitude below 2^-14 before it rounds, and that sum is itself rounded
  (`HalfRounding.NearTieRounded`; exact condition in `HalfRounding.RoundedExact`).
- A step pushed onto a finalized path that is full takes the place of the outermost one, where a step pushed in time
  would have been dropped (`ErrorPaths.LateReplaces`; exact condition in `ErrorPaths.LateIsEarly`). It takes a caller
  of the public `push_*` members on an error that a decode entry point has already finalized.
- Not every typed value survives encoding and decoding. An optional that holds an empty optional comes back empty
  (`TypedExamples.NestedNullCollapses`); an empty optional left out by `skip_if_null` comes back as the `default_value`
  of its member, where docs/annotations.md:160 has the absent key leave it empty (`TypedExamples.OmittedNullFilled`);
  an internally tagged alternative with an integer key is written and refused (`TypedExamples.KeyedVariantRefused`), and
  so is a struct whose required member was left out. `TypedRefused.TypedRoundTripExact` has the exact conditions on the
  value, `TypedLossless.LosslessRoundTrip` one on the type.
- docs/errors.md:686 has denied unknown keys recorded by `decode_all`; an unknown integer key of 2^63 or more ends it
  instead (`DecodeExamples.HugeKeyEnds`; `DecodeLaws.HugeEntry` against `DecodeLaws.UnknownEntry`).
- Under `last_wins` a duplicated member is decoded into what the first occurrence left, so a struct keeps fields of it
  (`Seeds.DuplicateKeeps`). Members that hold no struct in place are replaced (`Seeds.DuplicateReplaces`).

## Model

| member | source | states |
|---|---|---|
| `Head.MakeHead` | include/vcodec/cbor/head.hpp:31-43 | the bytes shifted out are the shortest head of the argument, for every major type and 64-bit argument |
| `Head.ParseHeadAt` | include/vcodec/cbor/head.hpp:105-126 | the parsed head of any position of any input, truncated, reserved, indefinite and break heads included |
| `Head.ParseShortHead` | include/vcodec/cbor/head.hpp:31-126 | a shortest head, wherever it stands, is read back as its type and argument and is recognised as shortest |
| `Head.PlainHeadBytes` | include/vcodec/cbor/head.hpp:105-126 | a complete head consists of exactly the bytes its fields describe |
| `Head.ShortestIsShortHead` | include/vcodec/cbor/head.hpp:92-101 | shortest() holds of a head if and only if its bytes are the ones make_head writes |
| `Head.ShortHeadsPrefixFree` | include/vcodec/cbor/head.hpp:31-43 | no shortest head is a proper prefix of another: what follows is determined too |
| `Head.ShortHeadOrder` | include/vcodec/cbor/head.hpp:31-43 | bytewise order of shortest heads is order by major type, then by argument |
| `KeyOrder.EncodedOrderIsKeyOrder` | include/vcodec/cbor/head.hpp:57-79 | bytewise order of encoded integer and text keys is: non-negative ascending, negative from -1 downwards, text by length then bytes; total, strict, and equal only for equal keys |
| `KeyOrder.KeysPrefixFree` | include/vcodec/cbor/head.hpp:57-79 | an encoded key is self-delimiting: key and remainder are determined by the bytes |
| `Utf8.ValidateUtf8` | include/vcodec/core/lower.hpp:103-129 | the loop accepts exactly well-formed strings, and otherwise answers with the offset of the first bad sequence |
| `Utf8.WellFormedIsScalars` | include/vcodec/core/lower.hpp:101-129 | the byte conditions accept exactly the encodings of Unicode scalar values of section 4 of RFC 3629 |
| `Utf8.EncodeScalarsInjective` | include/vcodec/core/lower.hpp:101-129 | a text has only one reading as scalar values |
| `Utf8.FirstBadIsFirst` | include/vcodec/core/lower.hpp:101-129 | before the reported offset the text is well-formed, and no character starts there |
| `Utf8.ScalarOrder` | include/vcodec/json/read.hpp:498-503 | encodings sort like the scalar values they encode, so with the set of well-formed strings no other choice of bytes is left for any scalar |
| `Floats.ToHalfFromHalf` | include/vcodec/core/lower.hpp:134-167 | to_half inverts from_half on every 16-bit pattern that is not a NaN |
| `Floats.ToHalfIsPattern` | include/vcodec/core/lower.hpp:146-167 | to_half answers with the IEEE binary16 pattern of the value if there is one, and with nothing otherwise |
| `Floats.FitsSingleIsPattern` | include/vcodec/core/lower.hpp:193-197 | surviving a round trip through float is the same as having a binary32 pattern |
| `Floats.PreferredNarrowest` | include/vcodec/cbor/write.hpp:257-262 | half is chosen exactly when half is exact, single exactly when half is not and single is |
| `Floats.WidenPreferred` | include/vcodec/cbor/write.hpp:257-262 | reading the chosen form gives the same double, sign of zero included |
| `Floats.IsPreferredExact` | include/vcodec/cbor/read.hpp:522-534 | the strict check accepts a form if and only if it is the one the writer would emit for its value |
| `Floats.RepresentableIffPattern` | include/vcodec/core/lower.hpp:134-197 | a value has a pattern in a format exactly when some pattern of the format has that value |
| `Rounding.RoundNearest` | include/vcodec/core/lower.hpp:193-197 | of all magnitudes a format has room for none is nearer than the rounded one, and of two equally near ones it is the even one |
| `Rounding.CastNearest` | include/vcodec/cbor/read.hpp:612-618 | a cast to a narrower format gives the nearest value of the format, ties to even, and infinity only where the limit of the format is no further than any value of it |
| `Rounding.CastExact` | include/vcodec/core/lower.hpp:193-197 | a cast changes nothing exactly when the format has the value |
| `HalfRounding.NormalRounded` | include/vcodec/core/lower.hpp:170-190 | from 2^-14 upwards to_half_rounded answers with the nearest half, ties to even, infinity included |
| `HalfRounding.RoundedExact` | include/vcodec/core/lower.hpp:170-190 | to_half_rounded answers with the nearest half, ties to even, if and only if the double is not one of those below 2^-14 whose biased sum is rounded onto a tie that falls to the wrong side |
| `HalfRounding.NearTieRounded` | include/vcodec/core/lower.hpp:180-181 | 2^-25 + 2^-77 is such a double: the sum with 1024 is rounded to a tie, and the answer is not the nearest half |
| `Floats.PatternValue` | include/vcodec/core/lower.hpp:134-197 | the pattern of a value has that value |
| `CborReader.Reader.ReadStringAt` | include/vcodec/cbor/read.hpp:538-574 | definite and chunked strings: contents, end, and the error with its offset |
| `CborReader.Reader.ReadChunksAt` | include/vcodec/cbor/read.hpp:550-573 | the chunk loop appends the chunks up to the break, or fails where the grammar of chunks fails |
| `CborReader.Reader.SkipScalarAt` | include/vcodec/cbor/read.hpp:345-370 | integers, simple values, floats and strings, with all strict checks |
| `CborReader.Reader.CountItem` | include/vcodec/cbor/read.hpp:389-401 | one item of a container: key order, key/value alternation, 64-bit countdown |
| `CborReader.Reader.CloseCompleted` | include/vcodec/cbor/read.hpp:388-402 | all containers an item completes are closed, and the depth goes down with them |
| `CborReader.Reader.SkipValue` | include/vcodec/cbor/read.hpp:323-404 | the loop over an explicit stack answers, for every input, what recursive descent answers: same end or same error, depth restored on success; it terminates on the bytes left whatever counts the heads claim |
| `CborReader.EnterItem` | include/vcodec/cbor/read.hpp:331-343 | telling the innermost level where an item starts does not change what is left to do |
| `CborReader.OpenContainer` | include/vcodec/cbor/read.hpp:377-385 | pushing a level is descending into the container |
| `Strict.SkipEnc` | include/vcodec/cbor/read.hpp:323-404 | every encoding of a valid tree within the depth limit passes, in strict mode whenever its maps are canonical |
| `Strict.StrictItem` | include/vcodec/cbor/read.hpp:323-404 | what strict mode accepts (no map head of 2^63 entries) is the canonical encoding of a tree, which is produced |
| `Strict.EncUnique` | include/vcodec/cbor/read.hpp:323-404 | two trees encoded at the same place are the same tree |
| `Strict.StrictExact` | include/vcodec/cbor/read.hpp:323-404 | strict skip_value accepts a span without meeting a map head of 2^63 entries if and only if it is the canonical encoding of some tree within the depth limit, and that tree is unique |
| `Strict.AcceptedIsCanonicalUnlessWrapped` | include/vcodec/cbor/read.hpp:382-382 | an accepted span is canonical if and only if no map head on the way through the input claims 2^63 entries or more |
| `Strict.StrictExactOnPlainInput` | include/vcodec/cbor/read.hpp:382-382 | where no position of the input parses as such a head, acceptance is canonicity |
| `Walks.WrappedIsMet` | include/vcodec/cbor/read.hpp:382-382 | the validator has wrapped a count on its way through an accepted item exactly when it met such a head, told from the input alone |
| `Walks.NowhereNotMet` | include/vcodec/cbor/read.hpp:323-404 | a head that no position of the input looks like is not met on the way |
| `Strict.WrappedCountAccepted` | include/vcodec/cbor/read.hpp:382-382 | the doubled count wraps: eleven bytes are accepted in every mode, and no tree within the limits has them for its canonical encoding |
| `CborReader.Reader.Peek` | include/vcodec/cbor/read.hpp:51-75 | the kind behind ignorable tags |
| `CborReader.Reader.ItemHeadHere` | include/vcodec/cbor/read.hpp:453-472 | the head behind ignorable tags after all checks; the position moves to it exactly on success |
| `CborReader.Reader.Next` | include/vcodec/cbor/read.hpp:202-212 | both cursors' next: end of a counted or of an indefinite container leaves it, depth and all |
| `CborReader.Reader.KeyAheadHere` | include/vcodec/cbor/read.hpp:243-268 | the key ahead is validated from a saved position; position and depth are restored; keys must increase |
| `CborReader.Reader.DecodeScalar` | include/vcodec/cbor/read.hpp:78-168 | the typed scalar calls on a checked head |
| `CborReader.Reader.DecodeArray` | test/support/dom.hpp:232-244 | the array loop, counted or indefinite, reads exactly the elements the recursive reader reads; which ones those are, for every encoding, is `WireExact.LenientExact` |
| `CborReader.Reader.DecodeMap` | test/support/dom.hpp:187-231 | the map loop, key order check included, reads exactly the entries the recursive reader reads |
| `CborReader.Reader.DecodeValue` | test/support/dom.hpp:169-250 | decoding a generic value through peek and the cursors: value, end, error, depth restored on success |
| `Agreement.ReadersAgree` | include/vcodec/cbor/read.hpp:323-404 | skip_value accepts an item, meeting no map of 2^63 entries and nothing the policies refuse, if and only if the cursor-driven reader accepts it without skipping, in strict mode, an overlong tag head; then both consume the same bytes; and an item read past such a tag is one the strict validator refuses |
| `Agreement.ReadersAgreeOnPlainInput` | include/vcodec/cbor/read.hpp:323-404 | where no position of the input parses as a head of those three kinds, the two accept the same items up to the same place |
| `Walks.LooseIsSkipped` | include/vcodec/cbor/read.hpp:453-472 | reading an item skipped an overlong tag head exactly when there is one on its way, told from the input alone |
| `Agreement.ItemsAgree` | include/vcodec/cbor/read.hpp:323-404 | the same item by item, under every policy, as the induction needs it |
| `Agreement.MapsAgree` | include/vcodec/cbor/read.hpp:218-280 | the same for the rest of an open map, key order included |
| `Agreement.SeqsAgree` | include/vcodec/cbor/read.hpp:199-216 | the same for the rest of an open array |
| `Agreement.LooseTagDiffers` | include/vcodec/cbor/read.hpp:462-468 | tag heads are skipped unchecked by the cursors: a strict reader accepts D8 01 00 and the strict validator refuses it |
| `Agreement.HugeMapNotRead` | include/vcodec/cbor/read.hpp:290-297 | no map that claims 2^63 entries or more is ever read, so a wrapped count is always a difference |
| `ChunkGrammar.ChunksExact` | include/vcodec/cbor/read.hpp:550-574 | from any position the chunk loop accepts chunks up to a break, for a text, if and only if they are definite strings of the type with that text between them, and no head on the way is reserved |
| `ChunkGrammar.AcceptedIsGrammarUnlessReserved` | include/vcodec/cbor/read.hpp:557-558 | what the chunk loop accepts is in the grammar of section 3.2.3 of RFC 8949 if and only if no chunk head up to the break has additional information 28 to 30 |
| `ChunkGrammar.IndefiniteStringExact` | include/vcodec/cbor/read.hpp:538-574 | the same for an indefinite-length string item under the cursor-driven reader: text and end |
| `ChunkGrammar.IndefiniteStringSkipped` | include/vcodec/cbor/read.hpp:363-369 | and under the validator: end |
| `ChunkGrammar.BothReadChunks` | include/vcodec/cbor/read.hpp:538-574 | both readers take an indefinite-length string exactly where the chunk loop does |
| `ChunkGrammar.ReservedChunkAccepted` | include/vcodec/cbor/read.hpp:557-558 | 5F 5C FF is accepted by both readers though no chunks of the grammar spell it |
| `EndToEnd.ReadEnc` | include/vcodec/cbor/read.hpp:199-297 | every encoding reads back as its tree, tags dropped and undefined as null, in strict mode whenever canonical |
| `WireRead.ReadWire` | test/support/dom.hpp:169-250 | in lenient mode every well-formed encoding of an item, whatever its head widths, definite or indefinite, chunked or not, is read as that item, tags dropped and undefined as null, up to its end |
| `WireExact.LenientExact` | test/support/dom.hpp:169-250 | in lenient mode a generic value is read as a tree up to an end if and only if a well-formed encoding the policies welcome stands there, of an item that is that tree; and there is only one encoding at a place |
| `WireExact.WireUnique` | include/vcodec/cbor/read.hpp:199-297 | two well-formed encodings at one place are the same encoding |
| `WireExact.SameTreeReadAlike` | test/support/dom.hpp:169-250 | two encodings of one item read as the same value, wherever they stand |
| `WireExact.SkipExact` | include/vcodec/cbor/read.hpp:323-404 | in lenient mode the validator accepts exactly the well-formed encodings, up to their ends, but for maps that claim 2^63 entries |
| `WireExact.LenientStandard` | include/vcodec/cbor/read.hpp:557-558 | an accepted encoding is one of RFC 8949 if and only if no chunk of it has a reserved head |
| `WireExact.OpenArrayRead` | include/vcodec/cbor/read.hpp:199-212 | 9F 01 02 FF is read as [1, 2] |
| `CborWriter.Writer.AppendBytes` | include/vcodec/cbor/write.hpp:182-192 | bytes go to the innermost buffered frame, else to the output; everything else stays |
| `CborWriter.Writer.OpenFrame` | include/vcodec/cbor/write.hpp:209-228 | maps and unsized arrays are buffered, sized arrays write their head; too deep throws |
| `CborWriter.Writer.CloseFrame` | include/vcodec/cbor/write.hpp:229-256 | a buffered map is cut into entries, sorted and written, or throws on a duplicate; a buffered array is counted and written |
| `CborWriter.Writer.CollectSlices` | include/vcodec/cbor/write.hpp:236-239 | the recorded extents cut a body into its entries |
| `CborWriter.Writer.FindDuplicate` | include/vcodec/cbor/write.hpp:247-249 | adjacent equal keys are noticed |
| `CborWriter.Writer.WriteSlices` | include/vcodec/cbor/write.hpp:250-251 | the head and the entries in order |
| `CborWriter.Writer.Null` | include/vcodec/cbor/write.hpp:34-34 | the null step of the state machine |
| `CborWriter.Writer.Boolean` | include/vcodec/cbor/write.hpp:35-35 | the boolean step |
| `CborWriter.Writer.UInt` | include/vcodec/cbor/write.hpp:36-36 | the unsigned step |
| `CborWriter.Writer.SInt` | include/vcodec/cbor/write.hpp:37-37 | the signed step |
| `CborWriter.Writer.Negative` | include/vcodec/cbor/write.hpp:64-64 | the raw negative step |
| `CborWriter.Writer.Real` | include/vcodec/cbor/write.hpp:257-262 | the preferred-width step |
| `CborWriter.Writer.Text` | include/vcodec/cbor/write.hpp:39-44 | the text step, malformed UTF-8 throws |
| `CborWriter.Writer.Bytes` | include/vcodec/cbor/write.hpp:45-45 | the byte string step |
| `CborWriter.Writer.Simple` | include/vcodec/cbor/write.hpp:66-71 | the simple value step, reserved values throw |
| `CborWriter.Writer.BeginArray` | include/vcodec/cbor/write.hpp:46-46 | the array opening step |
| `CborWriter.Writer.BeginMap` | include/vcodec/cbor/write.hpp:48-48 | the map opening step |
| `CborWriter.Writer.BeginMapOrdered` | include/vcodec/cbor/write.hpp:118-126 | the unbuffered map opening step |
| `CborWriter.Writer.EndArray` | include/vcodec/cbor/write.hpp:47-47 | the array closing step |
| `CborWriter.Writer.EndMap` | include/vcodec/cbor/write.hpp:49-49 | the map closing step |
| `CborWriter.Writer.KeyText` | include/vcodec/cbor/write.hpp:50-55 | the text key step, with its extent recorded |
| `CborWriter.Writer.KeyUInt` | include/vcodec/cbor/write.hpp:56-56 | the unsigned key step |
| `CborWriter.Writer.KeySInt` | include/vcodec/cbor/write.hpp:57-57 | the signed key step |
| `CborWriter.Writer.BeginKey` | include/vcodec/cbor/write.hpp:60-60 | a key of any kind begins |
| `CborWriter.Writer.EndKey` | include/vcodec/cbor/write.hpp:61-61 | and ends |
| `CborWriter.Writer.Tag` | include/vcodec/cbor/write.hpp:62-62 | a tag prefixes an item without counting as one |
| `WriterRuns.RunDoc` | include/vcodec/cbor/write.hpp:165-256 | for every balanced call sequence, maps opened with any count or none included, in every state: the frames append exactly the recursive encoding and leave earlier output untouched, or throw the first error of the recursion |
| `Encoding.PerformDoc` | include/vcodec/cbor/write.hpp:34-72 | driving the writer call by call through any document leaves the state, or throws the error, that the run of its calls on the state machine gives |
| `WriterRuns.SlicesOfFlat` | include/vcodec/cbor/write.hpp:236-239 | the extents recorded while writing entries cut the body back into those entries |
| `WriterTrees.WriteIsEnc` | include/vcodec/cbor/write.hpp:229-256 | the bytes written are the encoding of the tree described, with every buffered map sorted |
| `WriterTrees.WriteSucceeds` | include/vcodec/cbor/write.hpp:209-256 | writing succeeds if and only if depth, text and simple values are fine and no buffered map has two keys with one encoding; if only the last fails, the error is the duplicate key |
| `WriterTrees.TreeCanonical` | include/vcodec/cbor/write.hpp:229-256 | the tree written is canonical, whatever the order of entries in buffered maps |
| `WriterTrees.TreeValid` | include/vcodec/cbor/write.hpp:34-72 | the tree written is valid |
| `WriterTrees.OrderIndependent` | include/vcodec/cbor/write.hpp:229-256 | documents that differ in the order of map entries, at any depth, give the same bytes or both fail |
| `Sorting.AdjacentIsDuplicate` | include/vcodec/cbor/write.hpp:242-249 | adjacent equality after the sort finds a duplicate if and only if there is one anywhere |
| `Sorting.SortPermutation` | include/vcodec/cbor/write.hpp:242-249 | the sorted entries depend on which entries there are, not on their order |
| `Sorting.SortSorted` | include/vcodec/cbor/write.hpp:242-246 | the sort by encoded key sorts |
| `Sorting.SortContents` | include/vcodec/cbor/write.hpp:242-246 | the sort keeps every entry |
| `EndToEnd.RoundTrip` | test/support/dom.hpp:66-250 | for every tag-free tree with distinct keys: running its calls on the writer gives bytes that pass the strict validator; reading them gives the tree up to map order at every depth, and running the calls of that gives the same bytes |
| `EndToEnd.Roundabout` | test/support/dom.hpp:66-250 | the same on the objects: writer, validator, reader and writer again |
| `EndToEnd.TreeOfDoc` | test/support/dom.hpp:66-106 | what a tree's own calls describe is the tree up to map order |
| `EndToEnd.CanonicalTreeOfDoc` | test/support/dom.hpp:66-106 | a canonical tree's calls describe exactly it, with distinct keys |
| `Chunked.WriteChunked` | include/vcodec/cbor/write.hpp:82-106 | one more item, malformed UTF-8 thrown, else one head per 4096 bytes and a break, on the writer's own state |
| `Chunked.ChunksWellExact` | include/vcodec/cbor/read.hpp:561-569 | per-chunk validation of a well-formed text fails if and only if a character straddles a 4096-byte boundary, that is, a boundary byte continues a character |
| `Chunked.CutsAtCharacters` | include/vcodec/cbor/read.hpp:561-569 | a well-formed text may be cut exactly in front of a byte that does not continue a character |
| `Chunked.ChunkedReadsBack` | include/vcodec/cbor/read.hpp:550-574 | the chunked form of any bytes reads back as those bytes, that of any UTF-8 text as that text, except that validation refuses a straddled boundary, in both readers |
| `Chunked.StraddlingRefused` | include/vcodec/cbor/write.hpp:88-88 | 4095 letters and one two-byte character: well-formed, written in two chunks, refused by both readers |
| `StructMaps.CountMembers` | include/vcodec/core/traverse.hpp:216-232 | the count made ahead is the number of members that will be written, in whatever order they are visited |
| `StructMaps.EncodeStruct` | include/vcodec/core/traverse.hpp:206-242 | the calls made for each shape: the one member of a transparent struct; the counted ordered map with the passing members in canonical order; the counted sorting map with the discriminator in front of them, an empty discriminator being none |
| `StructMaps.SplicedIsMember` | include/vcodec/core/traverse.hpp:232-242 | splicing a discriminator in gives the bytes of a struct that declares it as one more member, wherever its key falls; if one throws so does the other |
| `StructMaps.SplicedTwice` | include/vcodec/core/traverse.hpp:232-242 | a discriminator with the key of a member that is written is always refused |
| `StructMaps.EmissionCanonical` | include/vcodec/cbor/traits.hpp:94-109 | the keys that come out are strictly increasing and as many as counted |
| `StructMaps.OrderedEqualsSorted` | include/vcodec/cbor/write.hpp:118-126 | for distinct keys the unbuffered map gives the bytes that buffering and sorting in declaration order would give; if one throws so does the other |
| `StructMaps.OrderedKeys` | include/vcodec/cbor/traits.hpp:101-109 | the member order is a rearrangement of the members, sorted by encoded key |
| `TypedWrite.TypedFine` | include/vcodec/core/traverse.hpp:323-367 | the calls of every fitting value, of any type, are well-formed: no call is refused, maps have distinct keys, struct members come in the order of their encoded keys; which members are written is `TypedMembers.StructWritten` |
| `TypedMembers.StructWritten` | include/vcodec/core/traverse.hpp:180-198 | the map of a struct has the key of a member if and only if the member is not skip_serializing, not a skip_if_null holding an empty optional and not a skip_if_default holding its initial value, with what its value is written as; it has no other keys, and its count is the number of those members |
| `TypedMembers.StructBytes` | include/vcodec/core/traverse.hpp:216-232 | the bytes of a struct begin with a map head of that count, and the entries follow |
| `TypedMembers.DefaultLeftOut` | include/vcodec/core/traverse.hpp:188-191 | a skip_if_default member that holds its default 0 is written as A0, with 5 as A1 61 61 05 |
| `TypedStructs.ObjectBack` | include/vcodec/core/build.hpp:539-717 | decoding the map written for a struct, from any place and into any target, gives every member that was written and read as itself, fills in the others and ends behind it |
| `TypedVariants.AlternativeFound` | include/vcodec/core/build.hpp:722-780 | the first pass over the map written for an alternative without integer keys finds that alternative, wherever its keys sort the discriminator |
| `TypedRoundTrip.TypedDecodes` | include/vcodec/core/build.hpp:833-873 | wherever the encoding of a decodable value lies in an input, decoding it consumes exactly the encoding and gives what `Back` says, whatever the target held |
| `TypedRoundTrip.BackExact` | include/vcodec/core/build.hpp:833-873 | what comes back is the value with its maps in the order of their keys if and only if no optional holds a null and every member not written is filled in with what it was |
| `TypedRoundTrip.WrittenAndDecoded` | include/vcodec/core/build.hpp:877-883 | every decodable value of every type is written, and decoded by decode and decode_all to that same value, in every mode |
| `TypedRefused.TypedRefuses` | include/vcodec/core/build.hpp:685-716 | a value with a required member left out, or an alternative that wrote an integer key, is refused wherever its encoding lies |
| `TypedRefused.TypedRoundTripExact` | include/vcodec/core/build.hpp:877-883 | the bytes written for a value are decoded if and only if it is decodable, and to the value itself if and only if moreover it is one that returns |
| `TypedRefused.Roundabout` | include/vcodec/core/traverse.hpp:323-367 | the same through the writer and the decoder objects |
| `TypedLossless.LosslessReturns` | include/vcodec/core/build.hpp:833-873 | for a type without directly nested optionals, left-out members that stay lost or integer keys under a discriminator, every value is decodable and returns |
| `TypedLossless.LosslessRoundTrip` | include/vcodec/core/build.hpp:877-883 | so every value of such a type is written and decoded to itself, its maps in the order of their keys, by decode and decode_all |
| `TypedExamples.NestedNullCollapses` | include/vcodec/core/build.hpp:239-248 | an optional that holds an empty optional comes back empty, for every type inside |
| `TypedExamples.OmittedNullFilled` | include/vcodec/core/traverse.hpp:183-190 | an empty optional left out by skip_if_null beside a default_value comes back as the default |
| `TypedExamples.KeyedVariantRefused` | include/vcodec/core/build.hpp:733-763 | an internally tagged alternative with an integer key is written and cannot be decoded |
| `Build.Builder.DecodeValue` | include/vcodec/core/build.hpp:833-874 | type-directed decoding leaves status, target, position, depth and collected errors as the recursive decoder says |
| `DecodeExact.Exact` | include/vcodec/core/build.hpp:833-874 | in lenient mode decoding into any type succeeds with a value up to an end, nothing collected, if and only if a well-formed encoding stands there of an item that means that value |
| `DecodeMeans.DecodeMeant` | include/vcodec/core/build.hpp:833-874 | on every well-formed encoding the decoder answers what the item means: value, status and collected errors, of any type in both modes |
| `DecodeStrict.DecodeLoose` | include/vcodec/core/build.hpp:833-874 | success in deterministic mode is success in lenient mode, on every input and into every type, with the same value and end |
| `DecodeStrict.StrictMeans` | include/vcodec/core/build.hpp:833-874 | what deterministic mode decodes is a well-formed encoding of an item that means the value |
| `Build.Builder.TakeVariant` | include/vcodec/core/build.hpp:722-819 | the discriminator is looked for, the position put back, and the alternative decoded from the start of the object |
| `Build.Builder.ScanTag` | include/vcodec/core/build.hpp:733-763 | the first pass finds the first discriminator and still reads the object to its end |
| `Build.Builder.TakeBox` | include/vcodec/core/build.hpp:789-813 | an externally tagged alternative: the value under its key, other entries skipped, a missing value reported |
| `Build.Builder.DecodeTuple` | include/vcodec/core/build.hpp:280-356 | each element into its place; too few or too many are refused, surplus elements skipped first |
| `Build.Builder.TakeEnum` | include/vcodec/core/build.hpp:115-138 | by integer: the value must be one of an enumerator that is not skipped |
| `Build.Builder.DecodeSequence` | include/vcodec/core/build.hpp:252-271 | the element loop, with the index put into every error that passes |
| `Build.Builder.DecodeMap` | include/vcodec/core/build.hpp:373-448 | the entry loop with text or integer keys, its duplicate policies, and ranges of pairs that keep every entry |
| `Build.Builder.TakeMapKey` | include/vcodec/core/build.hpp:384-423 | the key of an entry: text, or an integer in range, which may be spelled in text (`MapKeys.KeyExact`) |
| `MapKeys.KeyExact` | include/vcodec/core/build.hpp:361-371 | a text key is taken as an integer if and only if the type has that integer and the text spells it: an optional minus sign, for signed types, and decimal digits |
| `MapKeys.KeyOutOfRange` | include/vcodec/core/build.hpp:364-367 | it is out of range if and only if it begins with the spelling of an integer the type does not have, whatever follows that is no digit |
| `MapKeys.KeyOfDecimal` | include/vcodec/core/build.hpp:361-371 | every integer of the type is taken from its decimal spelling |
| `MapLaws.RespelledAlike` | include/vcodec/core/build.hpp:400-423 | two encodings of a map with integer keys that differ in keys respelled as text decode alike: same value, same errors but for offsets |
| `DecodeExamples.NegativeKey` | include/vcodec/core/build.hpp:400-405 | A1 62 2D 35 01 is {-5: 1} as a map from signed 8-bit integers |
| `MapLaws.RepeatedPair` | include/vcodec/core/build.hpp:424-438 | an entry whose key has occurred before ends decoding with DuplicateKey at that key, in both modes, or is passed over when the first wins |
| `Build.Builder.DecodeStruct` | include/vcodec/core/build.hpp:539-717 | the member loop: unknown keys, duplicates, recovery in collecting mode, missing members; what it answers is laid down by `DecodeExact.Exact` and the laws of `DecodeLaws` |
| `DecodeLaws.UnknownEntry` | include/vcodec/core/build.hpp:607-634 | an object with one more entry, whose key no member has, decodes as without it when such keys are not denied or the key is the discriminator; when they are, it fails with UnknownField at that key, or collects that error and is otherwise as without it |
| `DecodeLaws.RepeatedEntry` | include/vcodec/core/build.hpp:638-652 | an object with a second entry for a member fails with DuplicateKey at the second key under the error policy, or collects that error and is otherwise as without it; under first_wins it is as without it |
| `DecodeLaws.SkippedEntry` | include/vcodec/core/build.hpp:635-637 | an entry of a skip_deserializing member changes nothing |
| `DecodeLaws.HugeEntry` | include/vcodec/core/build.hpp:576-590 | an integer key of 2^63 or more is never a member's; denied, it ends decoding in both modes |
| `DecodeLaws.AbsentMember` | include/vcodec/core/build.hpp:685-716 | a member no key of the object selects is reported missing at the object if it is required, in both modes; otherwise it holds its default, or what it held |
| `DecodeLaws.PresentMember` | include/vcodec/core/build.hpp:653-667 | a member one key selects holds what decoding the value behind that key gives |
| `DecodeExamples.UnknownKey` | include/vcodec/core/build.hpp:613-634 | A1 61 78 01 into a struct without "x" is ignored, or refused at offset 1 when unknown keys are denied |
| `DecodeExamples.RepeatedKey` | include/vcodec/core/build.hpp:640-652 | {"a": 1, "a": 2} is a duplicate at offset 4 under the error policy, and 1 when the first wins |
| `DecodeExamples.HugeKeyEnds` | include/vcodec/core/build.hpp:580-587 | a denied unknown key 2^63 ends collecting decode, a denied unknown key 2 is collected |
| `Recovery.MemberRecovers` | include/vcodec/error.hpp:47-49 | a member that fails ends a collecting struct exactly when its input is broken (six codes); any other failure is collected and the value skipped |
| `Recovery.WellFormedIsUnfit` | include/vcodec/core/build.hpp:833-874 | decoding a well-formed item never fails as if the input were broken, whatever the type and the mode |
| `Recovery.CollectsToTheEnd` | include/vcodec/core/build.hpp:670-683 | a collecting struct reads every well-formed object whose keys can be looked up to its end, whatever is wrong with its members |
| `Build.Builder.TakeMember` | include/vcodec/core/build.hpp:608-683 | one member: decode, or report and skip, or record the failure, rewind and skip |
| `Build.Builder.TakeMemberKey` | include/vcodec/core/build.hpp:573-606 | the key of an entry and the member it selects, by wire name, alias or integer |
| `Build.Builder.Finish` | include/vcodec/core/build.hpp:685-717 | defaults, then missing members: all of them when collecting, the first when failing fast |
| `Build.Builder.Annotate` | include/vcodec/core/build.hpp:58-64 | exactly the errors collected since the mark get the step |
| `Collect.DecodeMatches` | include/vcodec/core/build.hpp:539-717 | through any nesting of structs, sequences, tuples, maps, variants and optionals, collecting decode ends as fail-fast decode does on success, and otherwise reports the fail-fast error first |
| `Collect.VariantMatches` | include/vcodec/core/build.hpp:722-819 | the same for a variant, whose first pass may fail before anything is decoded |
| `Collect.MembersMatch` | include/vcodec/core/build.hpp:539-717 | the same for the rest of a struct |
| `Collect.CollectExact` | include/vcodec/core/build.hpp:877-883 | decode_all reports no error if and only if decode succeeds, with an equal value; otherwise its first error has the code, offset and root-first path of the fail-fast error |
| `Collect.PathBound` | include/vcodec/error.hpp:178-180 | before it is finalized a path keeps the innermost sixteen steps and is marked as truncated exactly when it lost some |
| `Seeds.SeedIrrelevant` | include/vcodec/core/build.hpp:653-667 | decoding into a target whose type holds no struct in place (directly, or through transparent structs and tuples) does not depend on what the target held |
| `Seeds.DuplicateReplaces` | include/vcodec/core/build.hpp:653-667 | under last wins the duplicate of such a member replaces it: the rest of the object goes on as if the member had held anything else |
| `Seeds.DuplicateKeeps` | include/vcodec/core/build.hpp:653-667 | under last wins the duplicate of a struct member keeps the fields of the first occurrence that it does not repeat |
| `ErrorPaths.PathError.Push` | include/vcodec/error.hpp:172-181 | the push step, early and late |
| `ErrorPaths.PathError.Finalize` | include/vcodec/error.hpp:148-152 | the steps are turned round once |
| `ErrorPaths.PathOf` | include/vcodec/error.hpp:148-181 | for any steps before and any after finalizing: all of them root first if they fit, else the innermost ones with the last step pushed in the outermost place; truncated exactly when one is missing |
| `ErrorPaths.LateIsEarly` | include/vcodec/error.hpp:173-177 | a late push does what an early one would have done if and only if the path has room or the step repeats the outermost one |
| `ErrorPaths.LateReplaces` | include/vcodec/error.hpp:173-177 | on a full path a late push replaces the outermost step, where an early one is dropped |
| `JsonString.ParseStringAt` | include/vcodec/json/read.hpp:406-426 | the borrowing fast path and the switch to the slow one give the same text, end or error as one scan |
| `JsonString.ParseEscaped` | include/vcodec/json/read.hpp:428-485 | runs flushed around escapes give the text of the literal |
| `JsonString.Hex4At` | include/vcodec/json/read.hpp:487-497 | four hexadecimal digits, in either case, or nothing |
| `JsonString.UnicodeEscape` | include/vcodec/json/read.hpp:459-477 | an escape or a surrogate pair; lone surrogates are refused; which character it is, is `JsonEscapes.EscapedScalar` |
| `JsonString.StringExact` | include/vcodec/json/read.hpp:406-503 | parse_string accepts exactly the literals its grammar gives (in UTF-8, when validating), for the text they stand for; `JsonEscapes.LiteralExact` has the same against a table of escapes of its own |
| `JsonEscapes.LiteralExact` | include/vcodec/json/read.hpp:406-485 | parse_string accepts exactly the literals of section 7 of RFC 8259, for the text they stand for, told from a table of the short escapes and from the surrogates of a code point |
| `JsonEscapes.EscapedScalar` | include/vcodec/json/read.hpp:459-477 | every code point, spelled by one \u escape or above 0xFFFF by the two of its surrogate pair, in hexadecimal digits of either case, is read as its UTF-8 encoding |
| `JsonEscapes.EmojiRead` | include/vcodec/json/read.hpp:464-470 | \uD83D\ude00 is read as F0 9F 98 80 |
| `JsonEscapes.WrittenShortest` | include/vcodec/json/escape.hpp:28-42 | write_string spells an ASCII character as shortly as the grammar allows, a \u escape in upper case |
| `JsonString.ParsedTextWellFormed` | include/vcodec/json/read.hpp:428-503 | only the raw literal is validated, yet the unescaped text of every accepted literal is UTF-8 |
| `JsonString.WriteString` | include/vcodec/json/escape.hpp:50-70 | the run loop writes the escaped string between quotes, or reports the first malformed byte |
| `JsonString.StringRoundTrip` | include/vcodec/json/escape.hpp:50-70 | parsing what write_string wrote gives the string back, in any surroundings |
| `JsonNumber.ScanNumberAt` | include/vcodec/json/number.hpp:50-120 | the scanner: extent, exact 64-bit integers, otherwise a double |
| `JsonNumber.Accumulate` | include/vcodec/json/number.hpp:80-87 | the overflow check fires exactly when the value does not fit 64 bits |
| `JsonNumber.ScanIsGrammar` | include/vcodec/json/number.hpp:50-76 | where a number stops, it is accepted if and only if it is a number of section 6 of RFC 8259 |
| `JsonNumber.ScanDec` | include/vcodec/json/number.hpp:17-26 | a 64-bit integer written in decimal is scanned as that integer |
| `JsonReader.Reader.SkipBlanks` | include/vcodec/json/read.hpp:301-306 | white space is skipped up to the first other byte |
| `JsonReader.Reader.TakeScalar` | include/vcodec/json/read.hpp:251-259 | strings, words and numbers |
| `JsonReader.Reader.TakeKey` | include/vcodec/json/read.hpp:192-206 | a key with its colon |
| `JsonReader.Reader.SkipValue` | include/vcodec/json/read.hpp:230-284 | three states and one bit per container answer, for every input and depth limit, what recursive descent answers; the bit stack is never indexed out of range |
| `JsonReader.Reader.Next` | include/vcodec/json/read.hpp:159-170 | both cursors' next, trailing commas refused |
| `JsonReader.Reader.DecodeArray` | test/support/dom.hpp:122-134 | the array loop reads exactly the elements the recursive reader reads |
| `JsonReader.Reader.DecodeObject` | test/support/dom.hpp:135-149 | the object loop reads exactly the members the recursive reader reads |
| `JsonReader.Reader.DecodeValue` | test/support/dom.hpp:110-157 | a generic value through the cursors: value, end, error, depth restored on success |
| `JsonSpec.ValuesAgree` | include/vcodec/json/read.hpp:156-284 | validator and cursors give the same answer on every input: the same end, or the same error in the same place |
| `JsonGrammar.ReadText` | include/vcodec/json/read.hpp:156-227 | every text of the grammar that stops is read whole, for what it means |
| `JsonGrammar.ValueFound` | include/vcodec/json/read.hpp:156-227 | every accepted value is white space and a text of the grammar with that meaning |
| `JsonGrammar.GrammarExact` | include/vcodec/json/read.hpp:286-291 | a document is accepted if and only if it is a JSON text of section 2 of RFC 8259 within the depth limit, for what it means |
| `JsonWriter.Writer.Prepare` | include/vcodec/json/write.hpp:90-96 | the comma and newline in front of a value, and the flags they depend on |
| `JsonWriter.Writer.PutText` | include/vcodec/json/write.hpp:35-35 | the text step, malformed UTF-8 throws |
| `JsonWriter.Writer.PutKey` | include/vcodec/json/write.hpp:41-47 | the key step, in compact and in pretty form |
| `JsonWriter.Writer.PutUInt` | include/vcodec/json/write.hpp:32-32 | the unsigned step |
| `JsonWriter.Writer.PutSInt` | include/vcodec/json/write.hpp:33-33 | the signed step |
| `JsonWriter.Writer.OpenContainer` | include/vcodec/json/write.hpp:101-110 | the opening step, too deep throws |
| `JsonWriter.Writer.CloseContainer` | include/vcodec/json/write.hpp:111-116 | the closing step, with a newline only after members |
| `JsonWriterSpec.RunTree` | include/vcodec/json/write.hpp:30-116 | the calls of a tree write exactly its text, or throw the first error in it |
| `JsonWriterSpec.RunValue` | include/vcodec/json/write.hpp:90-116 | the same wherever a value may stand: after a key, first or later in a container |
| `JsonLayout.PrettyIsLaidOut` | include/vcodec/json/write.hpp:90-116 | the pretty text of a tree is its compact text laid out: a line for every member, indented by its nesting depth |
| `JsonLayout.NestedExample` | include/vcodec/json/write.hpp:97-100 | [[1]] at two spaces a level |
| `JsonRoundTrip.RenderIsText` | include/vcodec/json/write.hpp:90-116 | the text of a tree, compact or with any indent, is a text of the grammar |
| `JsonRoundTrip.WrittenIsRead` | include/vcodec/json/read.hpp:156-284 | what the calls of a tree wrote is accepted by validator and reader as that tree |
| `JsonRoundTrip.RoundTrip` | include/vcodec/json/write.hpp:90-116 | every tree of null, booleans, 64-bit integers, valid text, arrays and objects is written, in any layout, and read back as itself |
| `Base64.EncodeAt` | include/vcodec/core/lower.hpp:42-59 | three bytes at a time, the rest with or without padding |
| `Base64.DecodeDigits` | include/vcodec/core/lower.hpp:68-74 | the 32-bit accumulator yields exactly the whole bytes of the number the digits spell: no live bit is lost |
| `Base64.DecodeAt` | include/vcodec/core/lower.hpp:63-76 | padding stripped, impossible lengths and foreign characters refused |
| `Base64.DigitsValue` | include/vcodec/core/lower.hpp:42-59 | the digits spell the bytes with zero bits behind them |
| `Base64.EncodeInjective` | include/vcodec/core/lower.hpp:42-76 | no two byte sequences have one encoding |
| `Base64.EncodedShape` | include/vcodec/core/lower.hpp:42-59 | the standard form has a length divisible by 4 and padding only at its end, one character for two bytes left over and two for one; the url form has none |
| `Base64.AlphabetIs` | include/vcodec/core/lower.hpp:20-32 | a digit is written as the character at its place in the alphabets of sections 4 and 5 of RFC 4648, and only that character is read as it |
| `Base64.HexAlphabet` | include/vcodec/core/lower.hpp:22-38 | hexadecimal digits are written in lower case and read in either |
| `Base64.RoundTrip` | include/vcodec/core/lower.hpp:42-76 | decoding an encoding gives the bytes back, for every sequence in both alphabets |
| `Base64.HexDecodeAt` | include/vcodec/core/lower.hpp:86-95 | pairs of hexadecimal digits in either case, anything else refused |
| `Base64.HexRoundTrip` | include/vcodec/core/lower.hpp:78-95 | decoding a hexadecimal encoding gives the bytes back |
| `Lookup.Find` | include/vcodec/core/lookup.hpp:46-62 | the scan of one bucket, or of the whole short list, answers for the whole table |
| `Lookup.ChooseSeed` | include/vcodec/core/lookup.hpp:86-96 | the seed chosen has the shortest longest bucket among those tried, early exit included |
| `Lookup.Starts` | include/vcodec/core/lookup.hpp:103-105 | counts and prefix sums give each bucket its start |
| `Lookup.Build` | include/vcodec/core/lookup.hpp:76-112 | the table holds the same entries, each bucket between its start and the next |
| `Lookup.Lookup` | include/vcodec/core/lookup.hpp:36-112 | for distinct names the table finds exactly what a scan finds |
| `KeyTables.Find` | include/vcodec/core/keys.hpp:47-61 | dense slots or binary search; the subtraction overflows exactly when key minus base is not representable |
| `KeyTables.Build` | include/vcodec/core/keys.hpp:65-102 | dense exactly when the keys lie within 256; rejected exactly when their span overflows |
| `KeyTables.Lookup` | include/vcodec/core/keys.hpp:47-102 | for distinct keys the table finds exactly what a scan finds, unless the keys lie close together and the key sought is 2^63 or more above the least |
| `KeyTables.OverflowExample` | include/vcodec/core/keys.hpp:49-49 | the single key -1 meets the condition under which looking up the largest 64-bit integer overflows |
| `KeyTables.AllocatedKey` | include/vcodec/cbor/traits.hpp:42-62 | a member without explicit key gets the positive integer that no explicit key uses and that has as many such below it as there are unkeyed members before |
| `KeyTables.Bump` | include/vcodec/cbor/traits.hpp:50-51 | the next free integer; each taken value is passed at most once |
| `KeyTables.NthFreeUnique` | include/vcodec/cbor/traits.hpp:42-62 | there is only one such integer |
| `KeyTables.KeysDistinct` | include/vcodec/cbor/traits.hpp:42-62 | with distinct explicit keys all keys are distinct |
| `TypedArrays.TagDescribes` | include/vcodec/cbor/traits.hpp:206-222 | the tag arithmetic recovers width, kind, signedness, and the byte order wherever there is one |
| `TypedArrays.TagsDistinct` | include/vcodec/cbor/traits.hpp:206-222 | different element types and byte orders have different tags |
| `TypedArrays.ReadWord` | include/vcodec/cbor/read.hpp:592-599 | bytes put into place one by one give the word in either byte order |
| `TypedArrays.SignExtensionExact` | include/vcodec/cbor/read.hpp:615-616 | the mask from the shifted sign bit, wrapping to 0 at width 64, or-ed into the word is two's complement at every width |
| `TypedArrays.ReadInto` | include/vcodec/cbor/read.hpp:577-630 | into integer and float targets, the copy and the word loop give the elements of the array converted one by one, or the first refusal; malformed lengths, wrong fixed sizes and float128 are refused |
| `TypedArrays.CopyIsConversion` | include/vcodec/cbor/read.hpp:601-606 | what the copy leaves is what converting word by word gives, for every element type and any bytes |
| `TypedArrays.WiderTargetKeeps` | include/vcodec/cbor/read.hpp:611-612 | arrays of halves, singles and doubles keep every value in a float target at least as wide |
| `TypedArrays.SmallIntsKept` | include/vcodec/cbor/read.hpp:617-624 | an integer within the mantissa of a float target is kept exactly |
| `TypedArrays.IntegersChecked` | include/vcodec/cbor/read.hpp:614-627 | an integer array is read into an integer target if and only if every element fits it |
| `TypedArrays.ArrayRoundTrip` | include/vcodec/cbor/write.hpp:127-137 | integers and floats of every width, written on a machine of one byte order and read on one of either: the same elements |

## Left out

- TypedRefused.TypedRoundTripExact: takes names, keys and alternatives of a type to be apart, and the discriminator to be non-empty, no member's name and not `value` for a boxed alternative (`Typed.Sound`); it covers the types of `Build.Builder.DecodeValue`.
- The non-deterministic writer: indefinite-length arrays and maps, and definite maps that are not sorted. The chunked strings of that mode are modelled.
- Writers pinned to a float width, other than the rounding to halves; NaN payloads are one abstract NaN.
- Doubles in JSON: a double is known by its literal; formatting, conversion, and which literals overflow a double are a parameter (`overflows`). JSON round trips cover trees without doubles.
- JsonNumber.ScanNumberAt: takes the range test of the conversion to a double as that parameter.
- JsonReader.Reader.DecodeValue: keeps integers as expect_uint and expect_sint give them, where the generic value of test/support/dom.hpp turns every JSON number into a double.
- `save`/`restore` pack position and depth into one word; the model keeps both, so it assumes positions below 2^48 and depths below 2^16.
- Agreement.ReadersAgree: assumes an input shorter than 2^64 bytes; positions and sizes are otherwise unbounded integers.
- Build.Builder.DecodeValue: has no floating, single-character or borrowed targets, no expected tags, no typed arrays and no user codecs; of an error it keeps code, offset and path, not the texts.
- Build.Builder.DecodeMap: keeps the entries in the order they came, where a container may sort them.
- TypedArrays.ReadInto: 16-byte floats are refused as in the code, and so never have a value.
- Externally tagged variants on the encode side are plain two-entry maps and have no member of their own.
- Lifetimes and borrowing, scratch buffers, and compile-time key blobs: a prepared key is the bytes of the run-time key, and wire names are taken to be UTF-8.
- In the bucket table the hash is masked by a power of two, which is taken as a remainder; ties inside a bucket keep their order, which no lookup can observe.
- The bignum, time-point and self-describe helpers other than the leading tag of a document, error rendering, suggestions, reflection and schema building.
- DecodeExact.Exact: takes an input shorter than 2^64 bytes that nowhere parses as the head of a map of 2^63 entries, because a skipped value may hold one whose count wraps. `DecodeLaws`, `MapLaws` and `Recovery` are about well-formed encodings in lenient mode; in deterministic mode `DecodeStrict.DecodeLoose` carries over what succeeds, not which error is reported.
- DecodeLaws.RepeatedEntry: says nothing of last_wins, which `Seeds.DuplicateReplaces` and `Seeds.DuplicateKeeps` are about.
- EndToEnd.RoundTrip: states tag-free trees only, because reading drops tags; `EndToEnd.ReadEnc` says what is read of a tree with tags.
