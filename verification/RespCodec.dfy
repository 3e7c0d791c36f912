/**
 * Encoding, and the Writer and Reader of redis/resp.go, over the syntax and parser in `Resp`:
 * round trips, locality, truncation and progress.
 */
module RespCodec {
  import opened Decimal
  import opened Resp

  // ---------------------------------------------------------------- encoding

  /** The frame with canonical numerals that stands for v; printed, it is v's RESP2 encoding. */
  function Canonical(v: Value): Frame
    decreases v, 0
  {
    match v
    case SimpleString(str) => Status(str)
    case Error(str) => Failing(str)
    case Integer(n) => Number(FormatInt(n))
    case BulkString(str) => Bulk(FormatInt(|str|), str)
    case NullBulkString => NilBulk("-1")
    case Array(items) => List(FormatInt(|items|), Canonicals(items))
    case NullArray => NilList("-1")
  }

  function Canonicals(vs: seq<Value>): (fs: seq<Frame>)
    ensures |fs| == |vs|
    decreases vs, 1
  {
    if vs == [] then [] else [Canonical(vs[0])] + Canonicals(vs[1..])
  }

  function Encode(v: Value): string {
    Print(Canonical(v))
  }

  /** What the wire can carry: lines without a newline, 64-bit integers and lengths. */
  predicate WellFormed(v: Value) {
    match v
    case SimpleString(str) => '\n' !in str
    case Error(str) => '\n' !in str
    case Integer(n) => InInt64(n)
    case BulkString(str) => |str| + 2 <= MAX_INT64
    case NullBulkString => true
    case Array(items) => |items| <= MAX_INT64 && forall i | 0 <= i < |items| :: WellFormed(items[i])
    case NullArray => true
  }

  lemma {:induction false} CanonicalStandsFor(v: Value)
    requires WellFormed(v)
    ensures Legal(Canonical(v)) && Meaning(Canonical(v)) == v
    decreases v, 0
  {
    match v
    case Integer(n) => ParseFormat(n);
    case BulkString(str) => ParseFormat(|str|);
    case Array(items) =>
      ParseFormat(|items|);
      CanonicalsStandFor(items);
    case NullBulkString => ParseFormat(-1);
    case NullArray => ParseFormat(-1);
    case SimpleString(_) =>
    case Error(_) =>
  }

  lemma {:induction false} CanonicalsStandFor(vs: seq<Value>)
    requires forall i | 0 <= i < |vs| :: WellFormed(vs[i])
    ensures AllLegal(Canonicals(vs)) && Meanings(Canonicals(vs)) == vs
    decreases vs, 1
  {
    if vs != [] {
      CanonicalStandsFor(vs[0]);
      CanonicalsStandFor(vs[1..]);
      assert Canonicals(vs)[1..] == Canonicals(vs[1..]);
    }
  }

  // ---------------------------------------------------------------- theorems about reading

  /** Any value tree, encoded and followed by anything, reads back with exactly that left unread. */
  lemma RoundTrip(v: Value, t: string)
    requires WellFormed(v)
    ensures Parse(Encode(v) + t) == Ok(v, t)
  {
    CanonicalStandsFor(v);
    FrameParses(Canonical(v), t);
  }

  /** Values written back to back read back one by one. */
  lemma SequenceRoundTrip(vs: seq<Value>, t: string)
    requires forall i | 0 <= i < |vs| :: WellFormed(vs[i])
    ensures ParseItems(PrintAll(Canonicals(vs)) + t, |vs|) == Ok(vs, t)
  {
    CanonicalsStandFor(vs);
    FramesParse(Canonicals(vs), t);
  }

  /** What a successful read depends on: the bytes it consumed, all of them and no others. */
  lemma ReadingIsLocal(s: string, t: string)
    requires Parse(s).Ok?
    ensures var n := |s| - |Parse(s).rest|;
            && s[n..] == Parse(s).rest
            && Parse(s[..n] + t) == Ok(Parse(s).value, t)
            && forall k | 0 <= k < n :: Parse(s[..n][..k]) == Bad(EndOfInput, "")
  {
    var f := ParsedFrame(s);
    var n := |s| - |Parse(s).rest|;
    assert s[..n] == Print(f);
    FrameParses(f, t);
    forall k | 0 <= k < n
      ensures Parse(s[..n][..k]) == Bad(EndOfInput, "")
    {
      CutFrame(f, k);
    }
  }

  /** Two inputs that read differently differ before the shorter accepted message ends. */
  lemma AcceptedMessagesArePrefixFree(s: string, s': string)
    requires Parse(s).Ok? && Parse(s').Ok?
    ensures var a, b := s[..|s| - |Parse(s).rest|], s'[..|s'| - |Parse(s').rest|];
            a <= b ==> a == b && Parse(s).value == Parse(s').value
  {
    var f := ParsedFrame(s);
    var g := ParsedFrame(s');
    var a, b := Print(f), Print(g);
    assert s[..|a|] == a && s'[..|b|] == b;
    if a <= b {
      SharedPrefix(f, g);
    }
  }

  lemma SharedPrefix(f: Frame, g: Frame)
    requires Legal(f) && Legal(g) && Print(f) <= Print(g)
    ensures Print(f) == Print(g) && Meaning(f) == Meaning(g)
  {
    var more := Print(g)[|Print(f)|..];
    assert Print(f) + more == Print(g) + "";
    FrameParses(f, more);
    FrameParses(g, "");
    assert Print(f) + "" == Print(f);
  }

  function Nodes(v: Value): nat
    decreases v, 0
  {
    if v.Array? then 1 + AllNodes(v.items) else 1
  }

  function AllNodes(vs: seq<Value>): nat
    decreases vs, 1
  {
    if vs == [] then 0 else Nodes(vs[0]) + AllNodes(vs[1..])
  }

  lemma {:induction false} FrameIsLongEnough(f: Frame)
    ensures |Print(f)| >= 3 * Nodes(Meaning(f))
    decreases f, 0
  {
    if f.List? {
      FramesAreLongEnough(f.frames);
    }
  }

  lemma {:induction false} FramesAreLongEnough(fs: seq<Frame>)
    ensures |PrintAll(fs)| >= 3 * AllNodes(Meanings(fs))
    decreases fs, 1
  {
    if fs != [] {
      FrameIsLongEnough(fs[0]);
      FramesAreLongEnough(fs[1..]);
      assert Meanings(fs)[1..] == Meanings(fs[1..]);
    }
  }

  /** A reply of n bytes cannot build more than n / 3 nodes, however its counts are spelled. */
  lemma ThreeBytesPerNode(s: string)
    requires Parse(s).Ok?
    ensures |s| - |Parse(s).rest| >= 3 * Nodes(Parse(s).value)
  {
    var f := ParsedFrame(s);
    FrameIsLongEnough(f);
  }

  lemma {:induction false} MeaningIsWellFormed(f: Frame)
    requires Legal(f)
    ensures WellFormed(Meaning(f))
    decreases f, 0
  {
    if f.List? {
      MeaningsAreWellFormed(f.frames);
    }
  }

  lemma {:induction false} MeaningsAreWellFormed(fs: seq<Frame>)
    requires AllLegal(fs)
    ensures forall i | 0 <= i < |fs| :: WellFormed(Meanings(fs)[i])
    decreases fs, 1
  {
    if fs != [] {
      MeaningIsWellFormed(fs[0]);
      MeaningsAreWellFormed(fs[1..]);
    }
  }

  /** The values reading can return are the values encoding can carry. */
  lemma ReadableIffEncodable(v: Value)
    ensures WellFormed(v) <==> exists s :: Parse(s).Ok? && Parse(s).value == v
  {
    if WellFormed(v) {
      RoundTrip(v, "");
      assert Parse(Encode(v) + "").Ok?;
    }
    forall s | Parse(s).Ok? && Parse(s).value == v
      ensures WellFormed(v)
    {
      var f := ParsedFrame(s);
      MeaningIsWellFormed(f);
    }
  }

  // ---------------------------------------------------------------- the Writer

  function BulkStrings(args: seq<string>): (vs: seq<Value>)
    ensures |vs| == |args| && forall i | 0 <= i < |args| :: vs[i] == BulkString(args[i])
  {
    seq(|args|, i requires 0 <= i < |args| => BulkString(args[i]))
  }

  predicate Sendable(args: seq<string>) {
    |args| <= MAX_INT64 && forall i | 0 <= i < |args| :: |args[i]| + 2 <= MAX_INT64
  }

  lemma {:induction false} PrintAllAppend(fs: seq<Frame>, f: Frame)
    ensures PrintAll(fs + [f]) == PrintAll(fs) + Print(f)
  {
    if fs == [] {
      assert fs + [f] == [f];
    } else {
      assert (fs + [f])[1..] == fs[1..] + [f];
      PrintAllAppend(fs[1..], f);
    }
  }

  lemma {:induction false} CanonicalsAppend(vs: seq<Value>, v: Value)
    ensures Canonicals(vs + [v]) == Canonicals(vs) + [Canonical(v)]
  {
    if vs == [] {
      assert vs + [v] == [v];
    } else {
      assert (vs + [v])[1..] == vs[1..] + [v];
      CanonicalsAppend(vs[1..], v);
    }
  }

  function Arguments(args: seq<string>): string {
    PrintAll(Canonicals(BulkStrings(args)))
  }

  lemma OneMoreArgument(args: seq<string>, arg: string)
    ensures Arguments(args + [arg]) == Arguments(args) + ("$" + FormatInt(|arg|) + CRLF + arg + CRLF)
  {
    var vs, v := BulkStrings(args), BulkString(arg);
    assert BulkStrings(args + [arg]) == vs + [v];
    CanonicalsAppend(vs, v);
    PrintAllAppend(Canonicals(vs), Canonical(v));
    assert Print(Canonical(v)) == "$" + FormatInt(|arg|) + CRLF + arg + CRLF;
  }

  /** The bytes of a command. */
  function Command(args: seq<string>): string {
    "*" + FormatInt(|args|) + CRLF + Arguments(args)
  }

  function Commands(commands: seq<seq<string>>): string {
    if commands == [] then "" else Command(commands[0]) + Commands(commands[1..])
  }

  lemma CommandIsArray(args: seq<string>)
    ensures Command(args) == Encode(Array(BulkStrings(args)))
  {
    assert Body(Canonical(Array(BulkStrings(args)))) == FormatInt(|args|) + CRLF + Arguments(args);
    assert Command(args) == "*" + (FormatInt(|args|) + CRLF + Arguments(args));
  }

  /** A server that reads RESP sees each argument of a command, whatever its bytes, and nothing of what follows. */
  lemma CommandReadsBack(args: seq<string>, t: string)
    requires |args| <= MAX_INT64 && forall i | 0 <= i < |args| :: |args[i]| + 2 <= MAX_INT64
    ensures var o := Parse(Command(args) + t);
            && o.Ok? && o.rest == t && o.value.Array? && |o.value.items| == |args|
            && forall j | 0 <= j < |args| :: o.value.items[j] == BulkString(args[j])
  {
    CommandIsArray(args);
    RoundTrip(Array(BulkStrings(args)), t);
  }

  /** It sees the commands a client wrote back to back in order and apart. */
  lemma {:induction false} CommandsReadBack(commands: seq<seq<string>>, t: string)
    requires forall i | 0 <= i < |commands| ::
      |commands[i]| <= MAX_INT64 && forall j | 0 <= j < |commands[i]| :: |commands[i][j]| + 2 <= MAX_INT64
    ensures var o := ParseItems(Commands(commands) + t, |commands|);
            && o.Ok? && o.rest == t
            && forall i | 0 <= i < |commands| ::
                 && o.value[i].Array? && |o.value[i].items| == |commands[i]|
                 && forall j | 0 <= j < |commands[i]| :: o.value[i].items[j] == BulkString(commands[i][j])
  {
    if commands == [] {
      assert Commands(commands) + t == t;
    } else {
      var tail := Commands(commands[1..]) + t;
      assert Commands(commands) + t == Command(commands[0]) + tail;
      CommandReadsBack(commands[0], tail);
      CommandsReadBack(commands[1..], t);
    }
  }

  class Writer {
    var out: string

    constructor ()
      ensures out == ""
    {
      out := "";
    }

    method WriteCommand(args: seq<string>)
      modifies this
      ensures out == old(out) + Command(args)
      ensures |args| <= MAX_INT64 && (forall i | 0 <= i < |args| :: |args[i]| + 2 <= MAX_INT64) ==>
        forall t: string ::
          var o := Parse(out[|old(out)|..] + t);
          && o.Ok? && o.rest == t && o.value.Array? && |o.value.items| == |args|
          && forall j | 0 <= j < |args| :: o.value.items[j] == BulkString(args[j])
    {
      ghost var before := out;
      var header := "*" + FormatInt(|args|) + CRLF;
      out := out + header;
      for i := 0 to |args|
        invariant out == before + header + Arguments(args[..i])
      {
        var arg := args[i];
        OneMoreArgument(args[..i], arg);
        assert args[..i + 1] == args[..i] + [arg];
        out := out + ("$" + FormatInt(|arg|) + CRLF + arg + CRLF);
      }
      assert args[..|args|] == args;
      assert out[|before|..] == Command(args);
      if Sendable(args) {
        forall t: string
          ensures Parse(Command(args) + t) == Ok(Array(BulkStrings(args)), t)
        {
          CommandIsArray(args);
          RoundTrip(Array(BulkStrings(args)), t);
        }
      }
    }
  }

  // ---------------------------------------------------------------- the Reader

  /** The bytes not yet read; each method takes its share from the front. */
  class Reader {
    var input: string

    constructor (input: string)
      ensures this.input == input
    {
      this.input := input;
    }

    method ReadValue() returns (r: Result<Value>)
      modifies this
      ensures Parse(old(input)) == match r case Success(v) => Ok(v, input) case Failed(e) => Bad(e, input)
      decreases |input|, 0
    {
      if input == "" {
        return Failed(EndOfInput);
      }
      var typeByte := input[0];
      input := input[1..];
      match typeByte
      case '+' => r := ReadSimpleString();
      case '-' => r := ReadError();
      case ':' => r := ReadInteger();
      case '$' => r := ReadBulkString();
      case '*' => r := ReadArray();
      case _ => r := Failed(InvalidResp);
    }

    method ReadLine() returns (r: Result<string>)
      modifies this
      ensures Pending(r, input) == ParseLine(old(input))
    {
      var k := IndexOf(input, '\n');
      if k == |input| {
        input := "";
        return Failed(EndOfInput);
      }
      var line := input[..k + 1];
      input := input[k + 1..];
      if |line| < 2 || line[|line| - 2] != '\r' {
        return Failed(InvalidResp);
      }
      assert line[..|line| - 2] == old(input)[..k - 1];
      return Success(line[..|line| - 2]);
    }

    method ReadSimpleString() returns (r: Result<Value>)
      modifies this
      ensures Pending(r, input) == ParseBody('+', old(input))
    {
      var line := ReadLine();
      r := match line case Success(text) => Success(SimpleString(text)) case Failed(e) => Failed(e);
    }

    method ReadError() returns (r: Result<Value>)
      modifies this
      ensures Pending(r, input) == ParseBody('-', old(input))
    {
      var line := ReadLine();
      r := match line case Success(text) => Success(Error(text)) case Failed(e) => Failed(e);
    }

    method ReadNumber() returns (r: Result<int>)
      modifies this
      ensures Pending(r, input) == ParseNumber(old(input))
    {
      var line := ReadLine();
      if line.Failed? {
        return Failed(line.error);
      }
      var n := ParseInt(line.value);
      r := if n.Some? then Success(n.value) else Failed(InvalidResp);
    }

    method ReadInteger() returns (r: Result<Value>)
      modifies this
      ensures Pending(r, input) == ParseBody(':', old(input))
    {
      var n := ReadNumber();
      r := match n case Success(value) => Success(Integer(value)) case Failed(e) => Failed(e);
    }

    method ReadBulkString() returns (r: Result<Value>)
      modifies this
      ensures Pending(r, input) == ParseBulk(old(input))
    {
      var n := ReadNumber();
      if n.Failed? {
        return Failed(n.error);
      }
      var length := n.value;
      if length == -1 {
        return Success(NullBulkString);
      }
      if length < -1 || length + 2 > MAX_INT64 {
        return Failed(Fault);
      }
      if |input| < length + 2 {
        input := "";
        return Failed(EndOfInput);
      }
      ghost var rest := input;
      var data := input[..length + 2];
      input := input[length + 2..];
      if data[length] != '\r' || data[length + 1] != '\n' {
        return Failed(InvalidResp);
      }
      assert data[..length] == rest[..length];
      return Success(BulkString(data[..length]));
    }

    method ReadArray() returns (r: Result<Value>)
      modifies this
      ensures Pending(r, input) == ParseArray(old(input))
      decreases |input|, 1
    {
      var n := ReadNumber();
      if n.Failed? {
        return Failed(n.error);
      }
      var count := n.value;
      if count == -1 {
        return Success(NullArray);
      }
      if count < -1 {
        return Failed(Fault);
      }
      ghost var items := input;
      var elements := new Value[count](_ => NullArray);
      PrependNothing(ParseItems(items, count));
      assert elements[..0] == [];
      for i := 0 to count
        invariant |input| <= |items| < |old(input)|
        invariant fresh(elements)
        invariant Prepend(elements[..i], ParseItems(input, count - i)) == ParseItems(items, count)
      {
        ghost var before := input;
        var val := ReadValue();
        if val.Failed? {
          return Failed(val.error);
        }
        elements[i] := val.value;
        PrependStep(elements[..i], before, count - i);
        assert elements[..i + 1] == elements[..i] + [val.value];
      }
      assert elements[..count] + [] == elements[..];
      return Success(Array(elements[..]));
    }
  }

  lemma PrependNothing(o: Outcome<seq<Value>>)
    ensures Prepend([], o) == o
  {
    if o.Ok? {
      assert [] + o.value == o.value;
    }
  }

  lemma PrependStep(vs: seq<Value>, s: string, count: nat)
    requires count > 0 && Parse(s).Ok?
    ensures Prepend(vs, ParseItems(s, count)) ==
            Prepend(vs + [Parse(s).value], ParseItems(Parse(s).rest, count - 1))
  {
    var tail := ParseItems(Parse(s).rest, count - 1);
    if tail.Ok? {
      assert vs + ([Parse(s).value] + tail.value) == vs + [Parse(s).value] + tail.value;
    }
  }
}
