/** Message IDs: generating, parsing and comparing them (engine/memory_relay.go:168-172, 670-714). */
module MessageIds {
  import opened Decimal

  // ---------------------------------------------------------------- fmt.Sscanf(id, "%d-%d", ...)

  /** White space Sscanf skips before a number; a newline in its way is an error. */
  predicate IsBlank(c: char) {
    c == ' ' || c == '\t' || c == '\r' || c as int == 11 || c as int == 12
  }

  function SkipSpace(s: string): Option<string> {
    if s == "" then Some(s)
    else if s[0] == '\n' then None
    else if IsBlank(s[0]) then SkipSpace(s[1..])
    else Some(s)
  }

  function DigitRun(s: string): (k: nat)
    ensures k <= |s|
  {
    if s == "" || !IsDigit(s[0]) then 0 else 1 + DigitRun(s[1..])
  }

  /** How much of s is an optional sign and the digits after it. */
  function NumeralRun(s: string): (k: nat)
    ensures k <= |s|
  {
    if s != "" && (s[0] == '+' || s[0] == '-') then 1 + DigitRun(s[1..]) else DigitRun(s)
  }

  /** %d: the longest numeral after white space, and what follows it. */
  function ScanInt(s: string): Option<(int, string)> {
    match SkipSpace(s)
    case None => None
    case Some(t) =>
      match ParseInt(t[..NumeralRun(t)])
      case None => None
      case Some(n) => Some((n, t[NumeralRun(t)..]))
  }

  /** The timestamp and the sequence number of an ID; anything may follow them. */
  function ParseMessageID(id: string): Option<(int, int)> {
    match ScanInt(id)
    case None => None
    case Some((ts, rest)) =>
      if rest == "" || rest[0] != '-' then None
      else
        match ScanInt(rest[1..])
        case None => None
        case Some((seq_, _)) => Some((ts, seq_))
  }

  function GenerateMessageID(ts: int, sequence: int): string {
    FormatInt(ts) + "-" + FormatInt(sequence)
  }

  lemma {:induction false} DigitsThenStop(digits: string, t: string)
    requires AllDigits(digits) && (t == "" || !IsDigit(t[0]))
    ensures DigitRun(digits + t) == |digits|
  {
    if digits == "" {
      assert digits + t == t;
    } else {
      assert (digits + t)[1..] == digits[1..] + t && IsDigit(digits[0]);
      DigitsThenStop(digits[1..], t);
    }
  }

  lemma {:induction false} RunStops(s: string)
    ensures AllDigits(s[..DigitRun(s)]) && (DigitRun(s) < |s| ==> !IsDigit(s[DigitRun(s)]))
  {
    if s != "" && IsDigit(s[0]) {
      RunStops(s[1..]);
      assert s[..DigitRun(s)] == [s[0]] + s[1..][..DigitRun(s[1..])];
    }
  }

  predicate AllBlank(s: string) {
    forall i | 0 <= i < |s| :: s[i] in [' ', '\t', '\r', 11 as char, 12 as char]
  }

  lemma {:induction false} SpaceSkipped(blanks: string, u: string)
    requires AllBlank(blanks) && u != "" && u[0] != '\n' && !IsBlank(u[0])
    ensures SkipSpace(blanks + u) == Some(u)
  {
    if blanks == "" {
      assert blanks + u == u;
    } else {
      assert (blanks + u)[1..] == blanks[1..] + u;
      SpaceSkipped(blanks[1..], u);
    }
  }

  lemma {:induction false} SkippedSpace(s: string) returns (blanks: string)
    requires SkipSpace(s).Some?
    ensures AllBlank(blanks) && s == blanks + SkipSpace(s).value
  {
    if s != "" && IsBlank(s[0]) {
      blanks := SkippedSpace(s[1..]);
      blanks := [s[0]] + blanks;
    } else {
      blanks := "";
    }
  }

  /** s is blanks, a numeral for n, and t, which does not go on with a digit. */
  predicate Spelled(s: string, blanks: string, numeral: string, n: int, t: string) {
    s == blanks + (numeral + t) && AllBlank(blanks) && ParseInt(numeral) == Some(n) && (t == "" || !IsDigit(t[0]))
  }

  lemma NumeralThenStop(numeral: string, t: string)
    requires ParseInt(numeral).Some? && (t == "" || !IsDigit(t[0]))
    ensures NumeralRun(numeral + t) == |numeral| > 0
    ensures IsDigit(numeral[0]) || numeral[0] == '+' || numeral[0] == '-'
  {
    if numeral[0] == '+' || numeral[0] == '-' {
      assert (numeral + t)[1..] == numeral[1..] + t;
      DigitsThenStop(numeral[1..], t);
    } else {
      assert IsDigit(numeral[0]);
      DigitsThenStop(numeral, t);
    }
  }

  lemma ScanSpelled(s: string, blanks: string, numeral: string, n: int, t: string)
    requires Spelled(s, blanks, numeral, n, t)
    ensures ScanInt(s) == Some((n, t))
  {
    var u := numeral + t;
    NumeralThenStop(numeral, t);
    SpaceSkipped(blanks, u);
    assert u[..|numeral|] == numeral && u[|numeral|..] == t;
  }

  lemma ScannedWas(s: string) returns (blanks: string, numeral: string)
    requires ScanInt(s).Some?
    ensures Spelled(s, blanks, numeral, ScanInt(s).value.0, ScanInt(s).value.1)
  {
    blanks := SkippedSpace(s);
    var u := SkipSpace(s).value;
    numeral := u[..NumeralRun(u)];
    assert u == numeral + u[NumeralRun(u)..];
    RunStops(u);
    if u != "" {
      RunStops(u[1..]);
    }
  }

  /** An ID parses exactly when it is two numerals with a "-" between them, blanks before either, and anything but a digit after. */
  lemma ParsesIff(id: string, ts: int, sequence: int)
    ensures ParseMessageID(id) == Some((ts, sequence)) <==>
            exists blanks, a, rest, blanks', b, junk ::
              Spelled(id, blanks, a, ts, "-" + rest) && Spelled(rest, blanks', b, sequence, junk)
  {
    if ParseMessageID(id) == Some((ts, sequence)) {
      var blanks, a := ScannedWas(id);
      var tail := ScanInt(id).value.1;
      var rest := tail[1..];
      assert tail == "-" + rest;
      var blanks', b := ScannedWas(rest);
      assert Spelled(id, blanks, a, ts, "-" + rest) && Spelled(rest, blanks', b, sequence, ScanInt(rest).value.1);
    }
    if blanks, a, rest, blanks', b, junk :| Spelled(id, blanks, a, ts, "-" + rest) && Spelled(rest, blanks', b, sequence, junk) {
      ScanSpelled(id, blanks, a, ts, "-" + rest);
      ScanSpelled(rest, blanks', b, sequence, junk);
      assert ("-" + rest)[1..] == rest;
    }
  }

  lemma ScanPrinted(n: int, t: string)
    requires InInt64(n) && (t == "" || !IsDigit(t[0]))
    ensures ScanInt(FormatInt(n) + t) == Some((n, t))
  {
    ParseFormat(n);
    assert "" + (FormatInt(n) + t) == FormatInt(n) + t;
    ScanSpelled(FormatInt(n) + t, "", FormatInt(n), n, t);
  }

  /** Parsing gives back the time and sequence an ID was made from, whatever non-digit follows. */
  lemma ParseGenerated(ts: int, sequence: int, junk: string)
    requires InInt64(ts) && InInt64(sequence) && (junk == "" || !IsDigit(junk[0]))
    ensures ParseMessageID(FormatInt(ts) + "-" + FormatInt(sequence) + junk) == Some((ts, sequence))
  {
    var tail := FormatInt(sequence) + junk;
    ScanPrinted(ts, "-" + tail);
    ScanPrinted(sequence, junk);
    assert ("-" + tail)[1..] == tail;
    Regroup(FormatInt(ts), FormatInt(sequence), junk);
  }

  lemma Regroup(a: string, b: string, c: string)
    ensures a + "-" + b + c == a + ("-" + (b + c))
  {
  }

  lemma GeneratedParses(ts: int, sequence: int)
    requires InInt64(ts) && InInt64(sequence)
    ensures ParseMessageID(GenerateMessageID(ts, sequence)) == Some((ts, sequence))
  {
    ParseGenerated(ts, sequence, "");
    assert GenerateMessageID(ts, sequence) + "" == GenerateMessageID(ts, sequence);
  }

  /** Different (time, sequence) pairs never print alike. */
  lemma GeneratedIdsAreDistinct(ts: int, sequence: int, ts': int, sequence': int)
    requires InInt64(ts) && InInt64(sequence) && InInt64(ts') && InInt64(sequence')
    ensures GenerateMessageID(ts, sequence) == GenerateMessageID(ts', sequence') <==> ts == ts' && sequence == sequence'
  {
    GeneratedParses(ts, sequence);
    GeneratedParses(ts', sequence');
  }

  // ---------------------------------------------------------------- comparing

  /** Go's string comparison, byte by byte. */
  function CompareStrings(a: string, b: string): (r: int)
    ensures r == -1 || r == 0 || r == 1
  {
    if a == "" && b == "" then 0
    else if a == "" then -1
    else if b == "" then 1
    else if a[0] < b[0] then -1
    else if a[0] > b[0] then 1
    else CompareStrings(a[1..], b[1..])
  }

  function CompareInts(a: int, b: int): int {
    if a < b then -1 else if a > b then 1 else 0
  }

  function CompareMessageIDs(a: string, b: string): (r: int)
    ensures r == -1 || r == 0 || r == 1
  {
    match (ParseMessageID(a), ParseMessageID(b))
    case (Some((tsA, seqA)), Some((tsB, seqB))) =>
      if tsA != tsB then CompareInts(tsA, tsB) else CompareInts(seqA, seqB)
    case _ => CompareStrings(a, b)
  }

  lemma {:induction false} StringsMirror(a: string, b: string)
    ensures CompareStrings(a, b) == -CompareStrings(b, a)
    ensures CompareStrings(a, b) == 0 <==> a == b
  {
    if a != "" && b != "" {
      assert a == [a[0]] + a[1..] && b == [b[0]] + b[1..];
      if a[0] == b[0] {
        StringsMirror(a[1..], b[1..]);
      }
    }
  }

  lemma {:induction false} StringsTransitive(a: string, b: string, c: string)
    requires CompareStrings(a, b) <= 0 && CompareStrings(b, c) <= 0
    ensures CompareStrings(a, c) <= 0
  {
    if a != "" && b != "" && c != "" && a[0] == b[0] == c[0] {
      StringsTransitive(a[1..], b[1..], c[1..]);
    }
  }

  /** Byte by byte: a comes first when it goes on to b, or has the smaller byte where they first differ. */
  predicate BytesBefore(a: string, b: string) {
    a < b || exists k | 0 <= k < |a| && k < |b| :: a[..k] == b[..k] && a[k] < b[k]
  }

  lemma SameFirstByte(a: string, b: string)
    requires a != "" && b != "" && a[0] == b[0]
    ensures BytesBefore(a, b) <==> BytesBefore(a[1..], b[1..])
  {
    assert a == [a[0]] + a[1..] && b == [b[0]] + b[1..];
    if k :| 0 <= k < |a| && k < |b| && a[..k] == b[..k] && a[k] < b[k] {
      assert a[1..][..k - 1] == a[..k][1..] == b[..k][1..] == b[1..][..k - 1];
    }
    if k :| 0 <= k < |a[1..]| && k < |b[1..]| && a[1..][..k] == b[1..][..k] && a[1..][k] < b[1..][k] {
      assert a[..k + 1] == [a[0]] + a[1..][..k] && b[..k + 1] == [b[0]] + b[1..][..k];
    }
  }

  lemma OtherFirstByte(a: string, b: string)
    requires a != "" && b != "" && a[0] != b[0]
    ensures BytesBefore(a, b) <==> a[0] < b[0]
  {
    assert a[..0] == b[..0];
    assert forall k | 0 < k < |a| && k < |b| :: a[..k][0] == a[0] && b[..k][0] == b[0];
  }

  lemma {:induction false} StringsMean(a: string, b: string)
    ensures CompareStrings(a, b) < 0 <==> BytesBefore(a, b)
  {
    if a != "" && b != "" {
      if a[0] == b[0] {
        SameFirstByte(a, b);
        StringsMean(a[1..], b[1..]);
      } else {
        OtherFirstByte(a, b);
      }
    }
  }

  /** Times first, then sequence numbers; strings, byte by byte, when one of them does not parse. */
  lemma CompareMeans(a: string, b: string)
    ensures ParseMessageID(a).Some? && ParseMessageID(b).Some? ==>
      (CompareMessageIDs(a, b) < 0 <==>
         || ParseMessageID(a).value.0 < ParseMessageID(b).value.0
         || (ParseMessageID(a).value.0 == ParseMessageID(b).value.0 && ParseMessageID(a).value.1 < ParseMessageID(b).value.1))
    ensures ParseMessageID(a).None? || ParseMessageID(b).None? ==>
      (CompareMessageIDs(a, b) < 0 <==>
         a < b || exists k | 0 <= k < |a| && k < |b| :: a[..k] == b[..k] && a[k] < b[k])
  {
    StringsMean(a, b);
  }

  /** Swapping the arguments swaps the answer, for every two strings. */
  lemma CompareMirrors(a: string, b: string)
    ensures CompareMessageIDs(a, b) == -CompareMessageIDs(b, a)
  {
    StringsMirror(a, b);
  }

  predicate Parses(id: string) {
    ParseMessageID(id).Some?
  }

  /** The numbers of q come strictly before the numbers of p. */
  predicate NumbersBefore(q: string, p: string)
    requires Parses(q) && Parses(p)
  {
    var (tsQ, seqQ), (tsP, seqP) := ParseMessageID(q).value, ParseMessageID(p).value;
    tsQ < tsP || (tsQ == tsP && seqQ < seqP)
  }

  /** When a malformed m lies between q and p as strings, q comes before p as numbers too. */
  predicate Agrees(q: string, m: string, p: string) {
    Parses(q) && Parses(p) && !Parses(m) && CompareStrings(q, m) < 0 && CompareStrings(m, p) < 0 ==> NumbersBefore(q, p)
  }

  ghost predicate TransitiveOn(ids: set<string>) {
    forall a, b, c | a in ids && b in ids && c in ids && CompareMessageIDs(a, b) <= 0 && CompareMessageIDs(b, c) <= 0 ::
      CompareMessageIDs(a, c) <= 0
  }

  lemma TransitiveWhenAgreed(a: string, b: string, c: string)
    requires Agrees(a, b, c) && Agrees(b, c, a) && Agrees(c, a, b)
    requires CompareMessageIDs(a, b) <= 0 && CompareMessageIDs(b, c) <= 0
    ensures CompareMessageIDs(a, c) <= 0
  {
    StringsMirror(a, b);
    StringsMirror(b, c);
    StringsMirror(a, c);
    if CompareStrings(a, b) <= 0 && CompareStrings(b, c) <= 0 {
      StringsTransitive(a, b, c);
    }
  }

  /** The comparison is transitive on a set of IDs exactly when its malformed IDs agree with the others. */
  lemma TransitiveIffAgreed(ids: set<string>)
    ensures TransitiveOn(ids) <==> forall q, m, p | q in ids && m in ids && p in ids :: Agrees(q, m, p)
  {
    if TransitiveOn(ids) {
      forall q, m, p | q in ids && m in ids && p in ids
        ensures Agrees(q, m, p)
      {
        StringsMirror(q, m);
        StringsMirror(m, p);
        StringsMirror(q, p);
        if CompareStrings(q, m) < 0 && CompareStrings(m, p) < 0 {
          StringsTransitive(q, m, p);
        }
      }
    }
    if forall q, m, p | q in ids && m in ids && p in ids :: Agrees(q, m, p) {
      forall a, b, c | a in ids && b in ids && c in ids && CompareMessageIDs(a, b) <= 0 && CompareMessageIDs(b, c) <= 0
        ensures CompareMessageIDs(a, c) <= 0
      {
        TransitiveWhenAgreed(a, b, c);
      }
    }
  }

  /** In particular among IDs that all parse, and among IDs none of which does. */
  lemma TransitiveOnAlike(ids: set<string>)
    requires (forall id | id in ids :: Parses(id)) || (forall id | id in ids :: !Parses(id))
    ensures TransitiveOn(ids)
  {
    TransitiveIffAgreed(ids);
  }

  /** It says "equal" for IDs with the same numbers, and otherwise only for the same string. */
  lemma CompareEqual(a: string, b: string)
    ensures CompareMessageIDs(a, b) == 0 <==>
            a == b || (ParseMessageID(a).Some? && ParseMessageID(a) == ParseMessageID(b))
  {
    StringsMirror(a, b);
  }

  /** Generated IDs compare as their (time, sequence) pairs do. */
  lemma CompareGenerated(ts: int, sequence: int, ts': int, sequence': int)
    requires InInt64(ts) && InInt64(sequence) && InInt64(ts') && InInt64(sequence')
    ensures CompareMessageIDs(GenerateMessageID(ts, sequence), GenerateMessageID(ts', sequence')) < 0 <==>
            ts < ts' || (ts == ts' && sequence < sequence')
  {
    GeneratedParses(ts, sequence);
    GeneratedParses(ts', sequence');
  }

  lemma PrintedNumbers()
    ensures FormatInt(1) == "1" && FormatInt(5) == "5" && FormatInt(9) == "9" && FormatInt(10) == "10"
  {
    assert FormatNat(10) == FormatNat(1) + "0";
  }

  lemma LoneNumberDoesNotParse(n: int)
    requires InInt64(n)
    ensures ParseMessageID(FormatInt(n)) == None
  {
    ScanPrinted(n, "");
    assert FormatInt(n) + "" == FormatInt(n);
  }

  /** With one malformed ID among them, three IDs can be in a cycle: 9-1 < 10-1 < 5 < 9-1. */
  lemma MixedIdsCycle()
    ensures CompareMessageIDs("9-1", "10-1") < 0
    ensures CompareMessageIDs("10-1", "5") < 0
    ensures CompareMessageIDs("5", "9-1") < 0
  {
    PrintedNumbers();
    CompareGenerated(9, 1, 10, 1);
    LoneNumberDoesNotParse(5);
    assert GenerateMessageID(9, 1) == "9-1" && GenerateMessageID(10, 1) == "10-1";
    assert CompareStrings("10-1", "5") == -1 == CompareStrings("5", "9-1");
  }
}
