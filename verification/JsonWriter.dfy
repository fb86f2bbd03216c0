/** The JSON writer: an output that grows, a nesting depth, and one flag per open container. */
module JsonWriter {
  import opened Bytes
  import opened Utf8
  import opened JsonNumber
  import opened JsonString
  import opened JsonSpec
  import opened JsonWriterSpec

  /** What a call reports: nothing, or the code of the exception it throws. */
  ghost predicate Took(r: Result, thrown: Option<Errc>, now: State) {
    match r
    case Thrown(code) => thrown == Some(code)
    case Misuse => false
    case Next(st) => thrown == None && now == st
  }

  /** vcodec::json::writer. */
  class Writer {
    const opts: WriterOptions
    const first: array<bool>
    var out: seq<byte>
    var depth: nat
    var afterKey: bool

    ghost predicate Valid()
      reads this
    {
      first.Length == opts.maxDepth + 2 && depth <= opts.maxDepth
    }

    ghost function StateOf(): State
      requires Valid()
      reads this, first
    {
      State(out, afterKey, first[1..depth + 1])
    }

    constructor (opts: WriterOptions)
      ensures Valid() && this.opts == opts && StateOf() == START && fresh(first)
    {
      this.opts := opts;
      first := new bool[opts.maxDepth + 2];
      out, depth, afterKey := [], 0, false;
    }

    method PutNewline()
      modifies this`out
      ensures out == old(out) + Newline(opts, depth)
    {
      if opts.pretty {
        out := out + [0x0A];
        out := out + Spaces(depth * opts.indent);
      }
    }

    /** before_value. */
    method Prepare()
      requires Valid()
      modifies this`out, this`afterKey, first
      ensures Valid() && StateOf() == BeforeValue(opts, old(StateOf()))
    {
      hide Newline;
      if afterKey {
        afterKey := false;
        return;
      }
      if depth == 0 {
        return;
      }
      ghost var was := first[1..depth + 1];
      assert was[depth - 1] == first[depth];
      if first[depth] {
        first[depth] := false;
      } else {
        out := out + [COMMA];
      }
      assert first[1..depth + 1] == was[..depth - 1] + [false];
      PutNewline();
    }

    /** Any scalar but text: its literal. */
    method PutLiteral(s: seq<byte>)
      requires Valid()
      modifies this`out, this`afterKey, first
      ensures Valid() && StateOf() == Put(BeforeValue(opts, old(StateOf())), s)
    {
      Prepare();
      out := out + s;
    }

    method PutNull() returns (thrown: Option<Errc>)
      requires Valid()
      modifies this`out, this`afterKey, first
      ensures Valid() && Took(Step(opts, old(StateOf()), Null), thrown, StateOf())
    {
      PutLiteral(NULL_WORD);
      thrown := None;
    }

    method PutBoolean(b: bool) returns (thrown: Option<Errc>)
      requires Valid()
      modifies this`out, this`afterKey, first
      ensures Valid() && Took(Step(opts, old(StateOf()), Boolean(b)), thrown, StateOf())
    {
      PutLiteral(if b then TRUE_WORD else FALSE_WORD);
      thrown := None;
    }

    method PutUInt(u: nat) returns (thrown: Option<Errc>)
      requires Valid() && u < TWO64
      modifies this`out, this`afterKey, first
      ensures Valid() && Took(Step(opts, old(StateOf()), UIntCall(u)), thrown, StateOf())
    {
      PutLiteral(Dec(u));
      thrown := None;
    }

    method PutSInt(i: int) returns (thrown: Option<Errc>)
      requires Valid() && -TWO63 <= i < TWO63
      modifies this`out, this`afterKey, first
      ensures Valid() && Took(Step(opts, old(StateOf()), SIntCall(i)), thrown, StateOf())
    {
      PutLiteral(DecInt(i));
      thrown := None;
    }

    method PutText(s: seq<byte>) returns (thrown: Option<Errc>)
      requires Valid()
      modifies this`out, this`afterKey, first
      ensures Valid() && Took(Step(opts, old(StateOf()), Text(s)), thrown, StateOf())
    {
      hide WellFormed, Quoted;
      Prepare();
      var r := WriteString(opts.validateUtf8, out, s);
      if r.Malformed? {
        return Some(InvalidUtf8);
      }
      out := r.out;
      thrown := None;
    }

    method PutKey(s: seq<byte>) returns (thrown: Option<Errc>)
      requires Valid()
      modifies this`out, this`afterKey, first
      ensures Valid() && Took(Step(opts, old(StateOf()), KeyCall(s)), thrown, StateOf())
    {
      hide WellFormed, Quoted, BeforeValue;
      Prepare();
      ghost var before := out;
      var r := WriteString(opts.validateUtf8, out, s);
      if r.Malformed? {
        return Some(InvalidUtf8);
      }
      out := r.out + [COLON];
      if opts.pretty {
        out := out + [0x20];
      }
      assert out == before + (Quoted(s) + AfterColon(opts));
      afterKey, thrown := true, None;
    }

    method OpenContainer(obj: bool) returns (thrown: Option<Errc>)
      requires Valid()
      modifies this`out, this`afterKey, this`depth, first
      ensures Valid() && Took(Step(opts, old(StateOf()), if obj then BeginMap else BeginArray), thrown, StateOf())
    {
      hide BeforeValue;
      ghost var b := BeforeValue(opts, StateOf());
      Prepare();
      if depth >= opts.maxDepth {
        return Some(DepthExceeded);
      }
      out, depth := out + [if obj then OPEN_OBJECT else OPEN_ARRAY], depth + 1;
      first[depth] := true;
      assert first[1..depth + 1] == b.first + [true];
      thrown := None;
    }

    method CloseContainer(obj: bool) returns (thrown: Option<Errc>)
      requires Valid() && depth > 0
      modifies this`out, this`depth
      ensures Valid() && Took(Step(opts, old(StateOf()), if obj then EndMap else EndArray), thrown, StateOf())
    {
      hide Newline;
      ghost var was := first[1..depth + 1];
      ghost var before := out;
      var empty := first[depth];
      assert was[|was| - 1] == empty;
      depth := depth - 1;
      if !empty {
        PutNewline();
      }
      ghost var middle := if empty then [] else Newline(opts, depth);
      assert first[1..depth + 1] == was[..|was| - 1];
      out := out + [Closer(obj)];
      assert out == before + (middle + [Closer(obj)]);
      thrown := None;
    }
  }
}
