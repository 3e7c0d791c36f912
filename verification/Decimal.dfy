/** Decimal text of 64-bit integers, as Go's strconv prints and reads it, and a string search. */
module Decimal {
  datatype Option<+T> = None | Some(value: T) {
    function GetOr(default: T): T {
      if Some? then value else default
    }
  }

  const MIN_INT64: int := -0x8000_0000_0000_0000
  const MAX_INT64: int := 0x7fff_ffff_ffff_ffff

  predicate InInt64(n: int) {
    MIN_INT64 <= n <= MAX_INT64
  }

  predicate IsDigit(c: char) {
    '0' <= c <= '9'
  }

  predicate AllDigits(s: string) {
    forall i | 0 <= i < |s| :: IsDigit(s[i])
  }

  function FormatNat(n: nat): (s: string)
    ensures |s| > 0 && AllDigits(s)
  {
    if n < 10 then [(n as char) + '0'] else FormatNat(n / 10) + [((n % 10) as char) + '0']
  }

  /** strconv.FormatInt(n, 10) */
  function FormatInt(n: int): string {
    if n < 0 then "-" + FormatNat(-n) else FormatNat(n)
  }

  function DigitsValue(s: string): nat
    requires AllDigits(s)
  {
    if s == "" then 0 else 10 * DigitsValue(s[..|s| - 1]) + (s[|s| - 1] - '0') as int
  }

  /** The value of an unsigned numeral with a sign in front of it, or None when it does not fit. */
  function Signed(negative: bool, digits: string): Option<int> {
    if digits == "" || !AllDigits(digits) then
      None
    else
      var n := (if negative then -1 else 1) * DigitsValue(digits);
      if InInt64(n) then Some(n) else None
  }

  /** strconv.ParseInt(s, 10, 64): an optional sign, then at least one digit, in range. */
  function ParseInt(s: string): Option<int> {
    if s != "" && (s[0] == '+' || s[0] == '-') then Signed(s[0] == '-', s[1..]) else Signed(false, s)
  }

  lemma {:induction false} FormatNatValue(n: nat)
    ensures DigitsValue(FormatNat(n)) == n
  {
    if n >= 10 {
      FormatNatValue(n / 10);
      assert FormatNat(n)[..|FormatNat(n)| - 1] == FormatNat(n / 10);
    }
  }

  lemma DigitsParse(digits: string)
    requires digits != "" && AllDigits(digits)
    ensures var n := DigitsValue(digits);
            && ParseInt(digits) == (if InInt64(n) then Some(n) else None)
            && ParseInt("-" + digits) == (if InInt64(0 - n) then Some(0 - n) else None)
  {
    assert IsDigit(digits[0]);
    assert ("-" + digits)[1..] == digits;
  }

  /** Printing then reading gives back any 64-bit integer, and no other. */
  lemma ParseFormat(n: int)
    ensures ParseInt(FormatInt(n)) == if -9_223_372_036_854_775_808 <= n <= 9_223_372_036_854_775_807 then Some(n) else None
  {
    var digits := FormatNat(if n < 0 then -n else n);
    FormatNatValue(if n < 0 then -n else n);
    DigitsParse(digits);
  }

  function Power(k: nat): (p: nat)
    ensures p > 0
  {
    if k == 0 then 1 else 10 * Power(k - 1)
  }

  /** The digit of ten to the k. */
  function Digit(n: nat, k: nat): nat {
    n / Power(k) % 10
  }

  lemma LastDigit(n: nat, d: nat)
    requires d < 10
    ensures Digit(10 * n + d, 0) == d
  {
    assert Power(0) == 1;
    assert (10 * n + d) / 1 == 10 * n + d;
  }

  lemma NextDigit(n: nat, d: nat, k: nat)
    requires d < 10
    ensures Digit(10 * n + d, k + 1) == Digit(n, k)
  {
    DropDigit(n, d, Power(k));
  }

  lemma {:induction false} DigitAt(s: string, k: nat)
    requires AllDigits(s) && k < |s|
    ensures Digit(DigitsValue(s), k) == s[|s| - 1 - k] as int - '0' as int
    decreases k
  {
    var rest, last := s[..|s| - 1], (s[|s| - 1] - '0') as int;
    if k > 0 {
      NextDigit(DigitsValue(rest), last, k - 1);
      DigitAt(rest, k - 1);
    } else {
      LastDigit(DigitsValue(rest), last);
    }
  }

  lemma DropDigit(n: nat, d: nat, p: nat)
    requires d < 10 && p > 0
    ensures (10 * n + d) / (10 * p) == n / p
  {
    var q, r := n / p, n % p;
    assert n == q * p + r;
    assert 10 * n + d == q * (10 * p) + (10 * r + d);
    QuotientIs(10 * n + d, 10 * p, q, 10 * r + d);
  }

  lemma QuotientIs(a: nat, b: nat, q: nat, r: nat)
    requires r < b && a == q * b + r
    ensures a / b == q
  {
    var more := a / b - q;
    assert a == (a / b) * b + a % b;
    assert more * b == r - a % b;
    AtLeast(more, b);
  }

  lemma AtLeast(more: int, b: int)
    ensures more > 0 && b > 0 ==> more * b >= b
    ensures more < 0 && b > 0 ==> more * b <= -b
  {
  }

  /** The numerals of n are its decimal digits from the first that is not 0; a minus sign goes before those of -n. */
  lemma {:induction false} FormatDigits(n: nat)
    ensures forall k | 0 <= k < |FormatNat(n)| :: FormatNat(n)[|FormatNat(n)| - 1 - k] as int == 48 + Digit(n, k)
    ensures n > 0 ==> FormatNat(n)[0] != '0'
    ensures n > 0 ==> FormatInt(0 - n) == "-" + FormatInt(n) && FormatInt(n) == FormatNat(n)
  {
    forall k | 0 <= k < |FormatNat(n)|
      ensures FormatNat(n)[|FormatNat(n)| - 1 - k] as int == 48 + Digit(n, k)
    {
      FormatNatValue(n);
      DigitAt(FormatNat(n), k);
    }
    if n >= 10 {
      FormatDigits(n / 10);
    }
  }

  /** s is the digits, which are a number, with or without a sign in front. */
  predicate Spells(s: string, digits: string, n: int) {
    && digits != "" && AllDigits(digits)
    && (s == digits || s == "+" + digits || s == "-" + digits)
    && n == if s == "-" + digits then 0 - DigitsValue(digits) else DigitsValue(digits)
  }

  /** Whatever is accepted is a sign, or none, and digits that spell a 64-bit number; nothing else is. */
  lemma ParsesIff(s: string, n: int)
    ensures ParseInt(s) == Some(n) <==>
            -9_223_372_036_854_775_808 <= n <= 9_223_372_036_854_775_807 && exists digits :: Spells(s, digits, n)
  {
    if ParseInt(s) == Some(n) {
      var digits := if s[0] == '+' || s[0] == '-' then s[1..] else s;
      assert s == digits || s == [s[0]] + digits;
      assert IsDigit(digits[0]);
      assert Spells(s, digits, n);
    }
    if digits :| Spells(s, digits, n) {
      assert IsDigit(digits[0]);
      assert s[1..] == digits || s == digits;
    }
  }

  // ---------------------------------------------------------------- searching a string

  /** The first place of c in s, or the length of s. */
  function IndexOf(s: string, c: char): (k: nat)
    ensures k <= |s|
  {
    if s == "" || s[0] == c then 0 else 1 + IndexOf(s[1..], c)
  }

  lemma {:induction false} IndexOfIsFirst(s: string, c: char)
    ensures c !in s[..IndexOf(s, c)]
    ensures IndexOf(s, c) < |s| ==> s[IndexOf(s, c)] == c
  {
    if s != "" && s[0] != c {
      IndexOfIsFirst(s[1..], c);
      assert s[..IndexOf(s, c)] == [s[0]] + s[1..][..IndexOf(s[1..], c)];
    }
  }

  lemma {:induction false} IndexOfFirst(line: string, c: char, t: string)
    requires c !in line
    ensures IndexOf(line + [c] + t, c) == |line|
  {
    var s := line + [c] + t;
    if line != "" {
      assert s[1..] == line[1..] + [c] + t;
      IndexOfFirst(line[1..], c, t);
    }
  }

  lemma {:induction false} IndexOfAbsent(s: string, c: char)
    requires c !in s
    ensures IndexOf(s, c) == |s|
  {
    if s != "" {
      IndexOfAbsent(s[1..], c);
    }
  }
}
