/**
 * The client side of RESP2 (redis/resp.go). Byte strings are `string`s, one character a byte;
 * nothing below depends on a character being under 256.
 *
 * `Parse` is what one ReadValue call does to the unread input. `Frame` is the concrete syntax
 * of the protocol, with every numeral spelled out, and is what Parse is proved against.
 */
module Resp {
  import opened Decimal

  datatype Value =
    | SimpleString(str: string)
    | Error(str: string)
    | Integer(n: int)
    | BulkString(str: string)
    | NullBulkString
    | Array(items: seq<Value>)
    | NullArray

  /** Fault is Go's panic on a negative or overflowing length. */
  datatype Failure = EndOfInput | InvalidResp | Fault

  /** What a read returns, together with the input it leaves unread. */
  datatype Outcome<+T> = Ok(value: T, rest: string) | Bad(error: Failure, rest: string)

  datatype Result<+T> = Success(value: T) | Failed(error: Failure)

  function Pending<T>(r: Result<T>, rest: string): Outcome<T> {
    match r
    case Success(v) => Ok(v, rest)
    case Failed(e) => Bad(e, rest)
  }

  const CRLF := "\r\n"

  // ---------------------------------------------------------------- reading, as a function

  function ParseLine(s: string): (o: Outcome<string>)
    ensures |o.rest| <= |s| && (o.Ok? ==> |o.rest| + 2 + |o.value| == |s|)
  {
    var k := IndexOf(s, '\n');
    if k == |s| then Bad(EndOfInput, "")
    else if k < 1 || s[k - 1] != '\r' then Bad(InvalidResp, s[k + 1..])
    else Ok(s[..k - 1], s[k + 1..])
  }

  function ParseNumber(s: string): (o: Outcome<int>)
    ensures |o.rest| <= |s| && (o.Ok? ==> |o.rest| + 3 <= |s|)
  {
    match ParseLine(s)
    case Bad(e, rest) => Bad(e, rest)
    case Ok(line, rest) =>
      match ParseInt(line)
      case None => Bad(InvalidResp, rest)
      case Some(n) => Ok(n, rest)
  }

  function ParseBulk(s: string): (o: Outcome<Value>)
    ensures |o.rest| <= |s| && (o.Ok? ==> |o.rest| + 3 <= |s|)
  {
    match ParseNumber(s)
    case Bad(e, rest) => Bad(e, rest)
    case Ok(length, rest) =>
      if length == -1 then Ok(NullBulkString, rest)
      else if length < -1 || length + 2 > MAX_INT64 then Bad(Fault, rest)
      else if |rest| < length + 2 then Bad(EndOfInput, "")
      else if rest[length] != '\r' || rest[length + 1] != '\n' then Bad(InvalidResp, rest[length + 2..])
      else Ok(BulkString(rest[..length]), rest[length + 2..])
  }

  /** One ReadValue call on input s: the type byte, then what that type asks for. */
  function Parse(s: string): (o: Outcome<Value>)
    ensures |o.rest| <= |s| && (o.Ok? ==> |o.rest| + 3 <= |s|)
    decreases |s|, 0
  {
    if s == "" then Bad(EndOfInput, "") else ParseBody(s[0], s[1..])
  }

  function ParseBody(tag: char, s: string): (o: Outcome<Value>)
    ensures |o.rest| <= |s| && (o.Ok? ==> |o.rest| + 2 <= |s|)
    decreases |s|, 3
  {
    if tag == '+' then
      match ParseLine(s)
      case Bad(e, rest) => Bad(e, rest)
      case Ok(line, rest) => Ok(SimpleString(line), rest)
    else if tag == '-' then
      match ParseLine(s)
      case Bad(e, rest) => Bad(e, rest)
      case Ok(line, rest) => Ok(Error(line), rest)
    else if tag == ':' then
      match ParseNumber(s)
      case Bad(e, rest) => Bad(e, rest)
      case Ok(n, rest) => Ok(Integer(n), rest)
    else if tag == '$' then ParseBulk(s)
    else if tag == '*' then ParseArray(s)
    else Bad(InvalidResp, s)
  }

  function ParseArray(s: string): (o: Outcome<Value>)
    ensures |o.rest| <= |s| && (o.Ok? ==> |o.rest| + 3 <= |s|)
    decreases |s|, 2
  {
    match ParseNumber(s)
    case Bad(e, rest) => Bad(e, rest)
    case Ok(count, rest) =>
      if count == -1 then Ok(NullArray, rest)
      else if count < -1 then Bad(Fault, rest)
      else
        match ParseItems(rest, count)
        case Bad(e, rest') => Bad(e, rest')
        case Ok(vs, rest') => Ok(Array(vs), rest')
  }

  function ParseItems(s: string, count: nat): (o: Outcome<seq<Value>>)
    ensures |o.rest| <= |s|
    ensures o.Ok? ==> |o.value| == count && |o.rest| + 3 * count <= |s|
    decreases |s|, 1, count
  {
    if count == 0 then Ok([], s)
    else
      match Parse(s)
      case Bad(e, rest) => Bad(e, rest)
      case Ok(v, rest) => Prepend([v], ParseItems(rest, count - 1))
  }

  function Prepend(vs: seq<Value>, o: Outcome<seq<Value>>): Outcome<seq<Value>> {
    match o
    case Bad(e, rest) => o
    case Ok(ws, rest) => Ok(vs + ws, rest)
  }

  // ---------------------------------------------------------------- the protocol's syntax

  datatype Frame =
    | Status(text: string)
    | Failing(text: string)
    | Number(numeral: string)
    | Bulk(numeral: string, text: string)
    | NilBulk(numeral: string)
    | List(numeral: string, frames: seq<Frame>)
    | NilList(numeral: string)

  function Tag(f: Frame): char {
    match f
    case Status(_) => '+'
    case Failing(_) => '-'
    case Number(_) => ':'
    case Bulk(_, _) => '$'
    case NilBulk(_) => '$'
    case List(_, _) => '*'
    case NilList(_) => '*'
  }

  function Print(f: Frame): string
    decreases f, 1
  {
    [Tag(f)] + Body(f)
  }

  function Body(f: Frame): string
    decreases f, 0
  {
    match f
    case Status(text) => text + CRLF
    case Failing(text) => text + CRLF
    case Number(numeral) => numeral + CRLF
    case Bulk(numeral, text) => numeral + CRLF + text + CRLF
    case NilBulk(numeral) => numeral + CRLF
    case List(numeral, frames) => numeral + CRLF + PrintAll(frames)
    case NilList(numeral) => numeral + CRLF
  }

  function PrintAll(fs: seq<Frame>): string
    decreases fs, 2
  {
    if fs == [] then "" else Print(fs[0]) + PrintAll(fs[1..])
  }

  /** Lines hold no newline, and numerals say how long what follows is. */
  predicate Legal(f: Frame) {
    match f
    case Status(text) => '\n' !in text
    case Failing(text) => '\n' !in text
    case Number(numeral) => ParseInt(numeral).Some?
    case Bulk(numeral, text) => ParseInt(numeral) == Some(|text|) && |text| + 2 <= MAX_INT64
    case NilBulk(numeral) => ParseInt(numeral) == Some(-1)
    case List(numeral, frames) =>
      ParseInt(numeral) == Some(|frames|) && forall i | 0 <= i < |frames| :: Legal(frames[i])
    case NilList(numeral) => ParseInt(numeral) == Some(-1)
  }

  predicate AllLegal(fs: seq<Frame>) {
    forall i | 0 <= i < |fs| :: Legal(fs[i])
  }

  function Meaning(f: Frame): Value
    decreases f, 0
  {
    match f
    case Status(text) => SimpleString(text)
    case Failing(text) => Error(text)
    case Number(numeral) => Integer(ParseInt(numeral).GetOr(0))
    case Bulk(_, text) => BulkString(text)
    case NilBulk(_) => NullBulkString
    case List(_, frames) => Array(Meanings(frames))
    case NilList(_) => NullArray
  }

  function Meanings(fs: seq<Frame>): (vs: seq<Value>)
    ensures |vs| == |fs|
    decreases fs, 1
  {
    if fs == [] then [] else [Meaning(fs[0])] + Meanings(fs[1..])
  }

  // ---------------------------------------------------------------- the parser accepts exactly the syntax

  lemma LineParses(line: string, t: string)
    requires '\n' !in line
    ensures ParseLine(line + CRLF + t) == Ok(line, t)
  {
    var s := line + CRLF + t;
    assert s == (line + "\r") + "\n" + t;
    IndexOfFirst(line + "\r", '\n', t);
    assert s[..|line|] == line && s[|line| + 2..] == t;
  }

  lemma ParsedLine(s: string)
    requires ParseLine(s).Ok?
    ensures var Ok(line, rest) := ParseLine(s); '\n' !in line && s == line + CRLF + rest
  {
    var k := IndexOf(s, '\n');
    IndexOfIsFirst(s, '\n');
    var line := s[..k - 1];
    assert s[..k] == line + "\r";
    assert s == s[..k] + [s[k]] + s[k + 1..];
  }

  /** A line cut short anywhere, even between its CR and its LF, is an unfinished line. */
  lemma CutLine(line: string, k: nat)
    requires '\n' !in line && k < |line + CRLF|
    ensures ParseLine((line + CRLF)[..k]) == Bad(EndOfInput, "")
  {
    var s := (line + CRLF)[..k];
    assert line + CRLF == (line + "\r") + "\n";
    assert s == (line + "\r")[..k];
    IndexOfAbsent(s, '\n');
  }

  lemma NumeralParses(numeral: string, t: string)
    requires ParseInt(numeral).Some?
    ensures ParseNumber(numeral + CRLF + t) == Ok(ParseInt(numeral).value, t)
  {
    LineParses(numeral, t);
  }

  lemma CutNumeral(numeral: string, k: nat)
    requires ParseInt(numeral).Some? && k < |numeral + CRLF|
    ensures ParseNumber((numeral + CRLF)[..k]) == Bad(EndOfInput, "")
  {
    CutLine(numeral, k);
  }

  lemma BulkParses(numeral: string, text: string, t: string)
    requires Legal(Bulk(numeral, text))
    ensures ParseBulk(numeral + CRLF + text + CRLF + t) == Ok(BulkString(text), t)
  {
    var tail := text + CRLF + t;
    assert numeral + CRLF + text + CRLF + t == numeral + CRLF + tail;
    NumeralParses(numeral, tail);
    assert tail[..|text|] == text && tail[|text| + 2..] == t;
  }

  /** Completeness: every legal frame, whatever follows it, reads as its meaning and no more. */
  lemma {:induction false} FrameParses(f: Frame, t: string)
    requires Legal(f)
    ensures Parse(Print(f) + t) == Ok(Meaning(f), t)
    decreases f, 1
  {
    var s := Print(f) + t;
    assert s[0] == Tag(f) && s[1..] == Body(f) + t;
    BodyParses(f, t);
  }

  lemma LineFrameParses(f: Frame, t: string)
    requires Legal(f) && (f.Status? || f.Failing?)
    ensures ParseBody(Tag(f), Body(f) + t) == Ok(Meaning(f), t)
  {
    LineParses(f.text, t);
  }

  lemma NumeralFrameParses(f: Frame, t: string)
    requires Legal(f) && (f.Number? || f.NilBulk? || f.NilList?)
    ensures ParseBody(Tag(f), Body(f) + t) == Ok(Meaning(f), t)
  {
    NumeralParses(f.numeral, t);
  }

  lemma {:induction false} BodyParses(f: Frame, t: string)
    requires Legal(f)
    ensures ParseBody(Tag(f), Body(f) + t) == Ok(Meaning(f), t)
    decreases f, 0
  {
    if f.List? {
      FramesParse(f.frames, t);
      ListParses(f.numeral, f.frames, t);
    } else if f.Bulk? {
      BulkParses(f.numeral, f.text, t);
    } else if f.Status? || f.Failing? {
      LineFrameParses(f, t);
    } else {
      NumeralFrameParses(f, t);
    }
  }

  lemma ListParses(numeral: string, frames: seq<Frame>, t: string)
    requires ParseInt(numeral) == Some(|frames|)
    requires ParseItems(PrintAll(frames) + t, |frames|) == Ok(Meanings(frames), t)
    ensures ParseArray(numeral + CRLF + PrintAll(frames) + t) == Ok(Array(Meanings(frames)), t)
  {
    var tail := PrintAll(frames) + t;
    assert numeral + CRLF + PrintAll(frames) + t == numeral + CRLF + tail;
    NumeralParses(numeral, tail);
  }

  lemma {:induction false} FramesParse(fs: seq<Frame>, t: string)
    requires AllLegal(fs)
    ensures ParseItems(PrintAll(fs) + t, |fs|) == Ok(Meanings(fs), t)
    decreases fs, 2
  {
    if fs == [] {
      assert PrintAll(fs) + t == t;
    } else {
      var tail := PrintAll(fs[1..]) + t;
      assert PrintAll(fs) + t == Print(fs[0]) + tail;
      FrameParses(fs[0], tail);
      FramesParse(fs[1..], t);
    }
  }

  /** Soundness: whatever ReadValue accepts was a legal frame at the front of its input. */
  lemma {:induction false} ParsedFrame(s: string) returns (f: Frame)
    requires Parse(s).Ok?
    ensures Legal(f) && s == Print(f) + Parse(s).rest && Parse(s).value == Meaning(f)
    decreases |s|, 0
  {
    var tail := s[1..];
    f := ParsedBody(s[0], tail);
    assert s == [s[0]] + tail;
    Regroup([s[0]], Body(f), ParseBody(s[0], tail).rest);
  }

  lemma {:induction false} ParsedBody(tag: char, s: string) returns (f: Frame)
    requires ParseBody(tag, s).Ok?
    ensures Legal(f) && Tag(f) == tag
    ensures s == Body(f) + ParseBody(tag, s).rest && ParseBody(tag, s).value == Meaning(f)
    decreases |s|, 3
  {
    if tag == '$' {
      f := ParsedBulk(s);
    } else if tag == '*' {
      f := ParsedArray(s);
    } else {
      f := ParsedOneLine(tag, s);
    }
  }

  lemma ParsedOneLine(tag: char, s: string) returns (f: Frame)
    requires ParseBody(tag, s).Ok? && tag != '$' && tag != '*'
    ensures Legal(f) && Tag(f) == tag
    ensures s == Body(f) + ParseBody(tag, s).rest && ParseBody(tag, s).value == Meaning(f)
  {
    ParsedLine(s);
    var line := ParseLine(s).value;
    f := if tag == '+' then Status(line) else if tag == '-' then Failing(line) else Number(line);
  }

  lemma ParsedBulk(s: string) returns (f: Frame)
    requires ParseBulk(s).Ok?
    ensures (f.Bulk? || f.NilBulk?) && Legal(f)
    ensures s == Body(f) + ParseBulk(s).rest && ParseBulk(s).value == Meaning(f)
  {
    ParsedLine(s);
    var Ok(line, rest) := ParseLine(s);
    var length := ParseInt(line).value;
    if length == -1 {
      f := NilBulk(line);
    } else {
      var text, after := rest[..length], rest[length + 2..];
      f := Bulk(line, text);
      assert rest == text + CRLF + after;
      assert ParseBulk(s) == Ok(BulkString(text), after);
      assert line + CRLF + (text + CRLF + after) == (line + CRLF + text + CRLF) + after;
    }
  }

  lemma {:induction false} ParsedArray(s: string) returns (f: Frame)
    requires ParseArray(s).Ok?
    ensures (f.List? || f.NilList?) && Legal(f)
    ensures s == Body(f) + ParseArray(s).rest && ParseArray(s).value == Meaning(f)
    decreases |s|, 2
  {
    ParsedLine(s);
    var Ok(line, rest) := ParseLine(s);
    var count := ParseInt(line).value;
    if count == -1 {
      f := NilList(line);
    } else {
      var frames := ParsedFrames(rest, count);
      f := List(line, frames);
      Regroup(line + CRLF, PrintAll(frames), ParseArray(s).rest);
    }
  }

  lemma Regroup(a: string, b: string, c: string)
    ensures a + (b + c) == a + b + c
  {
  }

  lemma {:induction false} ParsedFrames(s: string, count: nat) returns (fs: seq<Frame>)
    requires ParseItems(s, count).Ok?
    ensures |fs| == count && AllLegal(fs)
    ensures s == PrintAll(fs) + ParseItems(s, count).rest
    ensures ParseItems(s, count).value == Meanings(fs)
    decreases |s|, 1, count
  {
    if count == 0 {
      fs := [];
    } else {
      var f := ParsedFrame(s);
      var rest := Parse(s).rest;
      var gs := ParsedFrames(rest, count - 1);
      fs := [f] + gs;
      assert fs[1..] == gs;
      Regroup(Print(f), PrintAll(gs), ParseItems(rest, count - 1).rest);
    }
  }

  /** A legal frame cut short is never mistaken for a value: the reader asks for more input. */
  lemma {:induction false} CutFrame(f: Frame, k: nat)
    requires Legal(f) && k < |Print(f)|
    ensures Parse(Print(f)[..k]) == Bad(EndOfInput, "")
    decreases f, 1
  {
    var s := Print(f)[..k];
    if k > 0 {
      assert s[0] == Tag(f) && s[1..] == Body(f)[..k - 1];
      CutBody(f, k - 1);
    }
  }

  lemma {:induction false} CutBody(f: Frame, k: nat)
    requires Legal(f) && k < |Body(f)|
    ensures ParseBody(Tag(f), Body(f)[..k]) == Bad(EndOfInput, "")
    decreases f, 0
  {
    match f
    case Status(text) => CutLine(text, k);
    case Failing(text) => CutLine(text, k);
    case Number(numeral) => CutNumeral(numeral, k);
    case Bulk(numeral, text) => CutBulk(numeral, text, k);
    case NilBulk(numeral) => CutNumeral(numeral, k);
    case List(numeral, frames) => CutList(numeral, frames, k);
    case NilList(numeral) => CutNumeral(numeral, k);
  }

  lemma CutBulk(numeral: string, text: string, k: nat)
    requires Legal(Bulk(numeral, text)) && k < |numeral + CRLF + text + CRLF|
    ensures ParseBulk((numeral + CRLF + text + CRLF)[..k]) == Bad(EndOfInput, "")
  {
    var head := numeral + CRLF;
    var s := (head + text + CRLF)[..k];
    if k < |head| {
      assert s == head[..k];
      CutNumeral(numeral, k);
    } else {
      var tail := (text + CRLF)[..k - |head|];
      assert s == numeral + CRLF + tail;
      NumeralParses(numeral, tail);
    }
  }

  lemma {:induction false} CutList(numeral: string, frames: seq<Frame>, k: nat)
    requires ParseInt(numeral) == Some(|frames|) && AllLegal(frames)
    requires k < |numeral + CRLF + PrintAll(frames)|
    ensures ParseArray((numeral + CRLF + PrintAll(frames))[..k]) == Bad(EndOfInput, "")
    decreases frames, 3
  {
    var head := numeral + CRLF;
    var s := (head + PrintAll(frames))[..k];
    if k < |head| {
      assert s == head[..k];
      CutNumeral(numeral, k);
    } else {
      var tail := PrintAll(frames)[..k - |head|];
      assert s == numeral + CRLF + tail;
      NumeralParses(numeral, tail);
      CutFrames(frames, k - |head|);
    }
  }

  lemma {:induction false} CutFrames(fs: seq<Frame>, k: nat)
    requires AllLegal(fs) && k < |PrintAll(fs)|
    ensures ParseItems(PrintAll(fs)[..k], |fs|) == Bad(EndOfInput, "")
    decreases fs, 2
  {
    var first := Print(fs[0]);
    if k < |first| {
      assert PrintAll(fs)[..k] == first[..k];
      CutFrame(fs[0], k);
    } else {
      var tail := PrintAll(fs[1..])[..k - |first|];
      assert PrintAll(fs)[..k] == first + tail;
      FrameParses(fs[0], tail);
      CutFrames(fs[1..], k - |first|);
    }
  }

  // ---------------------------------------------------------------- the bytes of each form

  /** A type byte and a line: the one-line forms. */
  lemma LineReads(s: string, line: string, t: string)
    requires s != "" && s[1..] == line + "\r\n" + t && '\n' !in line
    ensures s[0] == '+' ==> Parse(s) == Ok(SimpleString(line), t)
    ensures s[0] == '-' ==> Parse(s) == Ok(Error(line), t)
    ensures s[0] == ':' && ParseInt(line).Some? ==> Parse(s) == Ok(Integer(ParseInt(line).value), t)
    ensures s[0] in [':', '$', '*'] && ParseInt(line).None? ==> Parse(s) == Bad(InvalidResp, t)
  {
    LineParses(line, t);
    assert ParseLine(s[1..]) == Ok(line, t);
    assert ParseBody('*', s[1..]) == ParseArray(s[1..]);
  }

  /** A type byte and a length: nothing, too little input, or a length that panics. */
  lemma LengthReads(s: string, line: string, t: string)
    requires s != "" && s[1..] == line + "\r\n" + t && ParseInt(line).Some?
    ensures ParseInt(line).value == -1 ==> (s[0] == '$' ==> Parse(s) == Ok(NullBulkString, t)) && (s[0] == '*' ==> Parse(s) == Ok(NullArray, t))
    ensures ParseInt(line).value < -1 && s[0] in ['$', '*'] ==> Parse(s) == Bad(Fault, t)
    ensures ParseInt(line).value > 9_223_372_036_854_775_805 && s[0] == '$' ==> Parse(s) == Bad(Fault, t)
    ensures |t| - 2 < ParseInt(line).value <= 9_223_372_036_854_775_805 && ParseInt(line).value >= 0 && s[0] == '$' ==>
              Parse(s) == Bad(EndOfInput, "")
  {
    NumeralParses(line, t);
    assert ParseBody('*', s[1..]) == ParseArray(s[1..]);
  }

  /** The bytes of a bulk string may be any; the two after them must be a CRLF. */
  lemma BulkReads(s: string, line: string, text: string, end: string, t: string)
    requires s != "" && s[0] == '$' && s[1..] == line + "\r\n" + (text + end + t)
    requires ParseInt(line) == Some(|text|) && |text| <= 9_223_372_036_854_775_805 && |end| == 2
    ensures Parse(s) == if end[0] == '\r' && end[1] == '\n' then Ok(BulkString(text), t) else Bad(InvalidResp, t)
  {
    var tail := text + end + t;
    NumeralParses(line, tail);
    assert tail[..|text|] == text && tail[|text|] == end[0] && tail[|text| + 1] == end[1] && tail[|text| + 2..] == t;
  }

  /** The elements of an array are read one after another until one fails. */
  lemma ArrayReads(s: string, line: string, t: string)
    requires s != "" && s[0] == '*' && s[1..] == line + "\r\n" + t && ParseInt(line).Some? && ParseInt(line).value >= 0
    ensures Parse(s) == match ParseItems(t, ParseInt(line).value) case Ok(vs, rest) => Ok(Array(vs), rest) case Bad(e, rest) => Bad(e, rest)
  {
    NumeralParses(line, t);
    assert ParseBody('*', s[1..]) == ParseArray(s[1..]);
  }

  /** Input that ends too soon, a type byte of no form, and a line that ends in a newline alone. */
  lemma OthersAreRefused(s: string, line: string, t: string)
    ensures s == "" ==> Parse(s) == Bad(EndOfInput, "")
    ensures s != "" && s[0] !in "+-:$*" ==> Parse(s) == Bad(InvalidResp, s[1..])
    ensures s != "" && s[0] in "+-:$*" && '\n' !in s[1..] ==> Parse(s) == Bad(EndOfInput, "")
    ensures s != "" && s[0] in "+-:$*" && s[1..] == line + ['\n'] + t && '\n' !in line && (line != "" ==> line[|line| - 1] != '\r')
            ==> Parse(s) == Bad(InvalidResp, t)
  {
    if s != "" && s[0] in "+-:$*" && '\n' !in s[1..] {
      IndexOfAbsent(s[1..], '\n');
      BadLine(s);
    }
    if s != "" && s[0] in "+-:$*" && s[1..] == line + ['\n'] + t && '\n' !in line && (line != "" ==> line[|line| - 1] != '\r') {
      IndexOfFirst(line, '\n', t);
      assert s[1..][|line| + 1..] == t;
      BadLine(s);
    }
  }

  lemma BadLine(s: string)
    requires s != "" && s[0] in "+-:$*" && ParseLine(s[1..]).Bad?
    ensures Parse(s) == Bad(ParseLine(s[1..]).error, ParseLine(s[1..]).rest)
  {
    assert ParseBody('*', s[1..]) == ParseArray(s[1..]);
  }
}
