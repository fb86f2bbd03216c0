/** CBOR data items as trees, and their encodings with shortest heads and definite lengths. */
module Item {
  import opened Bytes
  import opened Head
  import opened Utf8
  import opened Floats

  datatype Item =
    | UInt(arg: nat)
    | NInt(arg: nat)                       // the number -1 - arg
    | ByteString(bytes: seq<byte>)
    | TextString(text: seq<byte>)
    | Array(items: Items)
    | Map(entries: Entries)
    | Tag(tag: nat, content: Item)
    | Simple(code: nat)                    // 20..23 are false, true, null, undefined
    | Float(value: Double)

  datatype Items = NoItems | Items(head: Item, tail: Items) {
    function Length(): nat {
      if NoItems? then 0 else 1 + tail.Length()
    }
  }

  datatype Entries = NoEntries | Entries(key: Item, val: Item, rest: Entries) {
    function Length(): nat {
      if NoEntries? then 0 else 1 + rest.Length()
    }
  }

  /** Arguments fit 64 bits, text is UTF-8, simple values and doubles exist. */
  predicate Valid(t: Item) {
    match t
    case UInt(arg) => arg < TWO64
    case NInt(arg) => arg < TWO64
    case ByteString(bytes) => |bytes| < TWO64
    case TextString(text) => |text| < TWO64 && WellFormed(text)
    case Array(items) => items.Length() < TWO64 && ValidItems(items)
    case Map(entries) => entries.Length() < TWO63 && ValidEntries(entries)
    case Tag(tag, content) => tag < TWO64 && Valid(content)
    case Simple(code) => code < 24 || 32 <= code < 256
    case Float(value) => IsDouble(value)
  }

  predicate ValidItems(s: Items) {
    s.NoItems? || (Valid(s.head) && ValidItems(s.tail))
  }

  predicate ValidEntries(s: Entries) {
    s.NoEntries? || (Valid(s.key) && Valid(s.val) && ValidEntries(s.rest))
  }

  /** Containers nest at most `room` deep. */
  predicate Fits(t: Item, room: int) {
    match t
    case Array(items) => room > 0 && FitItems(items, room - 1)
    case Map(entries) => room > 0 && FitEntries(entries, room - 1)
    case Tag(_, content) => Fits(content, room)
    case _ => true
  }

  predicate FitItems(s: Items, room: int) {
    s.NoItems? || (Fits(s.head, room) && FitItems(s.tail, room))
  }

  predicate FitEntries(s: Entries, room: int) {
    s.NoEntries? || (Fits(s.key, room) && Fits(s.val, room) && FitEntries(s.rest, room))
  }

  function FloatBytes(w: FloatForm): (s: seq<byte>)
    ensures |s| > 0
  {
    HeadBytes(SIMPLE, if w.ai < 28 then w.ai else 27, w.raw)
  }

  /** The encoding of an item: shortest heads, definite lengths, preferred floats, map entries as they come. */
  function Enc(t: Item): (s: seq<byte>)
    ensures |s| > 0
  {
    match t
    case UInt(arg) => ShortHead(UINT, arg)
    case NInt(arg) => ShortHead(NINT, arg)
    case ByteString(bytes) => ShortHead(BYTES, |bytes|) + bytes
    case TextString(text) => ShortHead(TEXT, |text|) + text
    case Array(items) => ShortHead(ARRAY, items.Length()) + EncItems(items)
    case Map(entries) => ShortHead(MAP, entries.Length()) + EncEntries(entries)
    case Tag(tag, content) => ShortHead(TAG, tag) + Enc(content)
    case Simple(code) => ShortHead(SIMPLE, code)
    case Float(value) => FloatBytes(Preferred(value))
  }

  function EncItems(s: Items): seq<byte> {
    if s.NoItems? then [] else Enc(s.head) + EncItems(s.tail)
  }

  function EncEntries(s: Entries): seq<byte> {
    if s.NoEntries? then [] else Enc(s.key) + (Enc(s.val) + EncEntries(s.rest))
  }

  /** Every map lists its entries by strictly increasing encoded key (section 4.2.1 of RFC 8949). */
  predicate Canonical(t: Item) {
    match t
    case Array(items) => CanonicalItems(items)
    case Map(entries) => CanonicalEntries(entries) && Increasing(entries)
    case Tag(_, content) => Canonical(content)
    case _ => true
  }

  predicate CanonicalItems(s: Items) {
    s.NoItems? || (Canonical(s.head) && CanonicalItems(s.tail))
  }

  predicate CanonicalEntries(s: Entries) {
    s.NoEntries? || (Canonical(s.key) && Canonical(s.val) && CanonicalEntries(s.rest))
  }

  predicate Increasing(s: Entries) {
    s.NoEntries? || Above(Enc(s.key), s.rest)
  }

  /** Keys increase, starting above the encoded key `prev`. */
  predicate Above(prev: seq<byte>, s: Entries)
    decreases s
  {
    s.NoEntries? || (Less(prev, Enc(s.key)) && Above(Enc(s.key), s.rest))
  }

  predicate TagFree(t: Item) {
    match t
    case Array(items) => TagFreeItems(items)
    case Map(entries) => TagFreeEntries(entries)
    case Tag(_, _) => false
    case _ => true
  }

  predicate TagFreeItems(s: Items) {
    s.NoItems? || (TagFree(s.head) && TagFreeItems(s.tail))
  }

  predicate TagFreeEntries(s: Entries) {
    s.NoEntries? || (TagFree(s.key) && TagFree(s.val) && TagFreeEntries(s.rest))
  }
}
