/** Indefinite-length strings in chunks of 4096 bytes (section 3.2.3 of RFC 8949). */
module Chunked {
  import opened Bytes
  import opened Head
  import opened Utf8
  import opened Item
  import opened SkipSpec
  import opened ReadSpec
  import opened Strict
  import W = WriterSpec
  import WriterRuns
  import CborWriter

  const CHUNK: int := 4096

  function ChunkLen(s: seq<byte>): (n: nat)
    ensures n <= |s| && (s != [] ==> n > 0)
  {
    if |s| < CHUNK then |s| else CHUNK
  }

  function Chunks(mt: major, s: seq<byte>): seq<byte>
    decreases |s|
  {
    if s == [] then []
    else
      var n := ChunkLen(s);
      ShortHead(mt, n) + (s[..n] + Chunks(mt, s[n..]))
  }

  /** The chunked form of a byte or text string. */
  function ChunkedBytes(mt: major, s: seq<byte>): (r: seq<byte>)
    requires mt == BYTES || mt == TEXT
    ensures |r| >= 2
  {
    [InitialByte(mt, 31)] + (Chunks(mt, s) + [BREAK])
  }

  lemma NextChunk(mt: major, s: seq<byte>, i: nat, n: nat, done: seq<byte>)
    requires i < |s| && n == ChunkLen(s[i..])
    ensures i + n <= |s| && done + Chunks(mt, s[i..])
            == done + (ShortHead(mt, n) + s[i..i + n]) + Chunks(mt, s[i + n..])
  {
    hide ShortHead;
    assert s[i..][..n] == s[i..i + n] && s[i..][n..] == s[i + n..];
  }

  /** text and bytes under the indefinite annotation: count the item, check text, then one head per 4096 bytes and
      a break. */
  method WriteChunked(w: CborWriter.Writer, mt: major, s: seq<byte>) returns (thrown: Option<W.Errc>)
    requires mt == BYTES || mt == TEXT
    modifies w
    ensures thrown == if mt == TEXT && w.opts.validateUtf8 && !WellFormed(s) then Some(W.InvalidUtf8) else None
    ensures thrown.None? ==> w.State() == W.Emit(old(w.State()), ChunkedBytes(mt, s))
  {
    hide ShortHead, Chunks, CborWriter.StateOf, W.Append, W.Count, WellFormed;
    w.CountItem();
    if mt == TEXT && w.opts.validateUtf8 {
      var bad := ValidateUtf8(s);
      if bad.Some? {
        return Some(W.InvalidUtf8);
      }
    }
    ghost var st := w.State();
    w.AppendBytes([InitialByte(mt, 31)]);
    ghost var done := [InitialByte(mt, 31)];
    ghost var body: seq<byte> := [];
    var i := 0;
    assert s[0..] == s && done + body == done;
    while i < |s|
      invariant 0 <= i <= |s|
      invariant body + Chunks(mt, s[i..]) == Chunks(mt, s)
      invariant w.State() == W.Append(st, done + body)
    {
      var n := if |s| - i < CHUNK then |s| - i else CHUNK;
      ghost var h := ShortHead(mt, n);
      w.WriteHead(mt, n);
      w.AppendBytes(s[i..i + n]);
      NextChunk(mt, s, i, n, body);
      AppendTwice(st, done + body, h, s[i..i + n]);
      assert done + body + (h + s[i..i + n]) == done + (body + (h + s[i..i + n]));
      body := body + (h + s[i..i + n]);
      i := i + n;
    }
    NoChunks(mt);
    assert s[i..] == [] && body == Chunks(mt, s);
    w.AppendBytes([BREAK]);
    WriterRuns.AppendAppend(st, done + body, [BREAK]);
    assert done + body + [BREAK] == ChunkedBytes(mt, s);
    return None;
  }

  lemma AppendTwice(st: W.State, a: seq<byte>, b: seq<byte>, c: seq<byte>)
    ensures W.Append(W.Append(W.Append(st, a), b), c) == W.Append(st, a + (b + c))
  {
    WriterRuns.AppendAppend(st, a, b);
    WriterRuns.AppendAppend(st, a + b, c);
    assert a + b + c == a + (b + c);
  }

  lemma NoChunks(mt: major)
    ensures Chunks(mt, []) == []
  {
  }

  // ---- reading the chunks ----

  /** Every chunk is UTF-8 by itself. */
  predicate ChunksWell(s: seq<byte>)
    decreases |s|
  {
    s == [] || (WellFormed(s[..ChunkLen(s)]) && ChunksWell(s[ChunkLen(s)..]))
  }

  lemma OneChunk(o: Options, input: seq<byte>, pos: nat, mt: major, c: seq<byte>, rest: seq<byte>)
    requires (mt == BYTES || mt == TEXT) && |c| < TWO64 && At(input, pos, ShortHead(mt, |c|) + (c + rest))
    ensures var end := pos + |ShortHead(mt, |c|)| + |c|;
            At(input, end, rest) && end > pos
            && if o.validateUtf8 && mt == TEXT && !WellFormed(c)
               then ChunkAt(o, input, pos, mt).BadChunk? && ChunkAt(o, input, pos, mt).error.code == InvalidUtf8
               else ChunkAt(o, input, pos, mt) == Chunk(c, end)
  {
    hide WellFormed, FirstBad, ParseHead, ShortHead, At;
    HeadThen(input, pos, mt, |c|, c + rest);
    var at := pos + |ShortHead(mt, |c|)|;
    AtConcat(input, at, c, rest);
    HeadNotBreak(mt, |c|);
    FirstByte(input, pos, ShortHead(mt, |c|), c + rest);
    SpanAt(input, at, c);
  }

  lemma FirstByte(input: seq<byte>, pos: nat, head: seq<byte>, rest: seq<byte>)
    requires At(input, pos, head + rest) && head != []
    ensures pos < |input| && input[pos] == head[0]
  {
    assert input[pos] == input[pos..pos + |head + rest|][0];
  }

  lemma HeadNotBreak(mt: major, n: nat)
    requires mt == BYTES || mt == TEXT
    ensures ShortHead(mt, n)[0] != BREAK
  {
  }

  lemma {:induction false} ChunksReadBack(o: Options, input: seq<byte>, pos: nat, mt: major, s: seq<byte>,
                                          scratch: seq<byte>)
    requires (mt == BYTES || mt == TEXT) && At(input, pos, Chunks(mt, s) + [BREAK])
    ensures pos <= |input|
    ensures var r := ReadChunks(o, input, pos, mt, scratch);
            if o.validateUtf8 && mt == TEXT && !ChunksWell(s) then r.NoString? && r.error.code == InvalidUtf8
            else r == String(scratch + s, pos + |Chunks(mt, s)| + 1)
    decreases |s|
  {
    hide WellFormed, ShortHead, ChunkAt;
    if s == [] {
      LastRead(o, input, pos, mt);
      assert scratch + s == scratch;
    } else {
      var n := ChunkLen(s);
      var rest := Chunks(mt, s[n..]) + [BREAK];
      assert Chunks(mt, s) + [BREAK] == ShortHead(mt, n) + (s[..n] + rest);
      OneChunk(o, input, pos, mt, s[..n], rest);
      ChunksReadBack(o, input, pos + |ShortHead(mt, n)| + n, mt, s[n..], scratch + s[..n]);
      assert scratch + s[..n] + s[n..] == scratch + s;
    }
  }

  lemma LastRead(o: Options, input: seq<byte>, pos: nat, mt: major)
    requires At(input, pos, [] + [BREAK])
    ensures pos < |input| && ChunkAt(o, input, pos, mt) == LastChunk
  {
    assert input[pos..pos + 1][0] == input[pos];
  }

  // ---- characters on a boundary ----

  /** Some character reaches over a chunk boundary: the byte after the boundary continues one. */
  predicate Straddles(s: seq<byte>) {
    exists i :: 0 < i < |s| && i % CHUNK == 0 && Continuation(s, i)
  }

  lemma FirstCharacter(s: seq<byte>)
    requires CharLen(s) > 0
    ensures !Continuation(s, 0) && forall k :: 0 < k < CharLen(s) ==> Continuation(s, k)
  {
  }

  /** A well-formed string may be cut exactly in front of a byte that does not continue a character. */
  lemma {:induction false} CutsAtCharacters(s: seq<byte>, i: nat)
    requires WellFormed(s) && i < |s|
    ensures WellFormed(s[..i]) <==> !Continuation(s, i)
    ensures WellFormed(s[..i]) ==> WellFormed(s[i..])
    decreases |s|
  {
    hide CharLen, Continuation;
    var n := CharLen(s);
    FirstCharacter(s);
    if i == 0 {
      assert s[..0] == [] && s[0..] == s;
    } else if i < n {
      if WellFormed(s[..i]) {
        WellFormedConcat(s[..i], s[i..]);
        assert s == s[..i] + s[i..];
        ShortCharacter(s, i);
      }
    } else {
      CutsAtCharacters(s[n..], i - n);
      assert s[n..][..i - n] == s[n..i] && s[n..][i - n..] == s[i..];
      ContinuationShift(s, n, i);
      PrefixCharacter(s, i);
      assert s[..i][n..] == s[n..i];
    }
  }

  lemma ContinuationShift(s: seq<byte>, n: nat, i: nat)
    requires n <= i < |s|
    ensures Continuation(s[n..], i - n) == Continuation(s, i)
  {
  }

  lemma PrefixCharacter(s: seq<byte>, i: nat)
    requires 0 < CharLen(s) <= i <= |s|
    ensures CharLen(s[..i]) == CharLen(s)
  {
    assert s == s[..i] + s[i..];
    CharLenCut(s[..i], s[i..]);
  }

  /** A proper prefix of a character is not a character. */
  lemma ShortCharacter(s: seq<byte>, i: nat)
    requires 0 < i < CharLen(s)
    ensures !WellFormed(s[..i])
  {
    assert s == s[..i] + s[i..];
    if CharLen(s[..i]) > 0 {
      CharLenPrefix(s[..i], s[i..]);
    }
  }

  /** Per-chunk validation of a well-formed text fails exactly when a character straddles a boundary. */
  lemma {:induction false} ChunksWellExact(s: seq<byte>)
    requires WellFormed(s)
    ensures ChunksWell(s) <==> !Straddles(s)
    decreases |s|
  {
    hide WellFormed, Continuation;
    if |s| <= CHUNK {
      if s != [] {
        assert s[..ChunkLen(s)] == s && s[ChunkLen(s)..] == [];
      }
    } else {
      var t := s[CHUNK..];
      CutsAtCharacters(s, CHUNK);
      if Continuation(s, CHUNK) {
        assert CHUNK % CHUNK == 0;
      } else {
        ChunksWellExact(t);
        StraddlesTail(s);
      }
    }
  }

  lemma StraddlesTail(s: seq<byte>)
    requires |s| > CHUNK && !Continuation(s, CHUNK)
    ensures Straddles(s) <==> Straddles(s[CHUNK..])
  {
    var t := s[CHUNK..];
    if i :| 0 < i < |s| && i % CHUNK == 0 && Continuation(s, i) {
      assert Continuation(t, i - CHUNK);
    }
    if i :| 0 < i < |t| && i % CHUNK == 0 && Continuation(t, i) {
      assert Continuation(s, i + CHUNK);
    }
  }

  // ---- the theorem ----

  lemma ChunkedHead(input: seq<byte>, pos: nat, mt: major, s: seq<byte>)
    requires (mt == BYTES || mt == TEXT) && At(input, pos, ChunkedBytes(mt, s))
    ensures pos < |input| && ParseHead(input, pos) == ParsedHead(mt, 31, 0, true, 1, false, false)
    ensures At(input, pos + 1, Chunks(mt, s) + [BREAK])
  {
    AtConcat(input, pos, [InitialByte(mt, 31)], Chunks(mt, s) + [BREAK]);
    assert input[pos..pos + 1][0] == input[pos];
  }

  lemma ChunkedString(o: Options, input: seq<byte>, pos: nat, mt: major, s: seq<byte>)
    requires (mt == BYTES || mt == TEXT) && At(input, pos, ChunkedBytes(mt, s)) && !o.requireDeterministic
    requires mt == TEXT ==> WellFormed(s)
    ensures pos < |input| && ParseHead(input, pos) == ParsedHead(mt, 31, 0, true, 1, false, false)
    ensures var r := ReadString(o, input, pos, ParseHead(input, pos));
            if mt == TEXT && o.validateUtf8 && Straddles(s) then r.NoString? && r.error.code == InvalidUtf8
            else r == String(s, pos + |ChunkedBytes(mt, s)|)
  {
    hide ParseHead, WellFormed, ReadChunks;
    ChunkedHead(input, pos, mt, s);
    ChunksReadBack(o, input, pos + 1, mt, s, []);
    assert [] + s == s;
    if mt == TEXT {
      ChunksWellExact(s);
    }
  }

  /** The chunked form of any bytes reads back as those bytes; that of any UTF-8 text reads back as that text,
      unless chunks are validated and a character straddles a boundary: then both readers refuse it. */
  lemma ChunkedReadsBack(o: Options, input: seq<byte>, pos: nat, depth: nat, mt: major, s: seq<byte>)
    requires (mt == BYTES || mt == TEXT) && At(input, pos, ChunkedBytes(mt, s)) && !o.requireDeterministic
    requires mt == TEXT ==> WellFormed(s)
    ensures var r := ReadItem(o, input, pos, depth);
            if mt == TEXT && o.validateUtf8 && Straddles(s) then r.NotRead? && r.error.code == InvalidUtf8
            else r == Read(if mt == BYTES then ByteString(s) else TextString(s), pos + |ChunkedBytes(mt, s)|, false)
    ensures var k := SkipItem(o, input, pos, depth);
            if mt == TEXT && o.validateUtf8 && Straddles(s) then k.Fail? && k.error.code == InvalidUtf8
            else k == Done(pos + |ChunkedBytes(mt, s)|, false)
  {
    hide ParseHead, WellFormed, ReadString, Straddles, Reject, ReadSeq, ReadMap, SkipLevel, ChunkedBytes;
    ChunkedString(o, input, pos, mt, s);
    assert ItemHead(o, input, pos) == HeadAt(pos, ParseHead(input, pos), false);
  }

  /** 4095 ASCII characters and one character of two bytes across the boundary. */
  function Straddling(): (s: seq<byte>)
    ensures |s| == 4097
  {
    seq(4095, _ => 0x41) + [0xC3, 0xA9]
  }

  /** The text is UTF-8, the writer chunks it, and both readers refuse what was written. */
  lemma StraddlingRefused(o: Options, depth: nat)
    requires o.validateUtf8 && !o.requireDeterministic
    ensures WellFormed(Straddling()) && Straddles(Straddling())
    ensures var input := ChunkedBytes(TEXT, Straddling());
            && ReadItem(o, input, 0, depth).NotRead? && ReadItem(o, input, 0, depth).error.code == InvalidUtf8
            && SkipItem(o, input, 0, depth).Fail? && SkipItem(o, input, 0, depth).error.code == InvalidUtf8
  {
    hide ReadItem, SkipItem, WellFormed, Straddles, ChunkedBytes;
    var s := Straddling();
    StraddlingIs(s);
    var input := ChunkedBytes(TEXT, s);
    assert At(input, 0, input);
    ChunkedReadsBack(o, input, 0, depth, TEXT, s);
  }

  lemma StraddlingIs(s: seq<byte>)
    requires s == Straddling()
    ensures WellFormed(s) && Straddles(s)
  {
    var ascii: seq<byte> := seq(4095, _ => 0x41);
    AsciiWellFormed(ascii);
    var e: seq<byte> := [0xC3, 0xA9];
    assert e[2..] == [] && CharLen(e) == 2 && WellFormed(e);
    WellFormedConcat(ascii, e);
    assert Continuation(s, 4096);
  }
}
