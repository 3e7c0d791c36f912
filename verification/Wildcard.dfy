/**
 * matchPattern (engine/permissions.go:268-318): a greedy loop without backtracking, against
 * the declarative meaning of `*`.
 *
 * The source collects a literal with string(pattern[pi]), which turns a byte of 128 or more
 * into the two UTF-8 bytes of that code point. `Widened` is the pattern the loop then works on.
 */
module Wildcard {
  import opened Decimal

  type Byte = c: char | c as int < 256 witness 'a'
  type Bytes = seq<Byte>

  const STAR: Byte := '*'

  // ---------------------------------------------------------------- what a pattern should mean

  /** `*` stands for any bytes, every other byte for itself. */
  predicate Glob(p: Bytes, c: Bytes)
    decreases |p|
  {
    if p == [] then c == []
    else if p[0] == STAR then exists k | 0 <= k <= |c| :: Glob(p[1..], c[k..])
    else c != [] && c[0] == p[0] && Glob(p[1..], c[1..])
  }

  /** The same for the part of c from i to e, with `*` taking a byte at a time. */
  predicate GlobAt(p: Bytes, c: Bytes, i: nat, e: nat)
    requires i <= e <= |c|
    decreases |p|, e - i
  {
    if p == [] then i == e
    else if p[0] == STAR then GlobAt(p[1..], c, i, e) || (i < e && GlobAt(p, c, i + 1, e))
    else i < e && c[i] == p[0] && GlobAt(p[1..], c, i + 1, e)
  }

  lemma {:induction false} StarSkips(p: Bytes, c: Bytes, i: nat, j: nat, e: nat)
    requires p != [] && p[0] == STAR && i <= j <= e <= |c| && GlobAt(p[1..], c, j, e)
    ensures GlobAt(p, c, i, e)
    decreases j - i
  {
    if i < j {
      StarSkips(p, c, i + 1, j, e);
    }
  }

  lemma {:induction false} StarSkipped(p: Bytes, c: Bytes, i: nat, e: nat) returns (j: nat)
    requires p != [] && p[0] == STAR && i <= e <= |c| && GlobAt(p, c, i, e)
    ensures i <= j <= e && GlobAt(p[1..], c, j, e)
    decreases e - i
  {
    if GlobAt(p[1..], c, i, e) {
      j := i;
    } else {
      j := StarSkipped(p, c, i + 1, e);
    }
  }

  lemma {:induction false} GlobAtIsGlob(p: Bytes, c: Bytes, i: nat, e: nat)
    requires i <= e <= |c|
    ensures GlobAt(p, c, i, e) <==> Glob(p, c[i..e])
    decreases |p|
  {
    var d := c[i..e];
    if p != [] && p[0] == STAR {
      forall k | 0 <= k <= |d|
        ensures GlobAt(p[1..], c, i + k, e) <==> Glob(p[1..], d[k..])
      {
        assert d[k..] == c[i + k..e];
        GlobAtIsGlob(p[1..], c, i + k, e);
      }
      if GlobAt(p, c, i, e) {
        var j := StarSkipped(p, c, i, e);
        assert Glob(p[1..], d[j - i..]);
      }
      if Glob(p, d) {
        var k :| 0 <= k <= |d| && Glob(p[1..], d[k..]);
        StarSkips(p, c, i, i + k, e);
      }
    } else if p != [] && i < e {
      assert d[1..] == c[i + 1..e];
      GlobAtIsGlob(p[1..], c, i + 1, e);
    }
  }

  predicate EndsInStar(p: Bytes) {
    p != [] && p[|p| - 1] == STAR
  }

  // ---------------------------------------------------------------- leftmost placement

  /** How many bytes come before the first `*`. */
  function Literal(p: Bytes): (k: nat)
    ensures k <= |p|
  {
    if p == [] || p[0] == STAR then 0 else 1 + Literal(p[1..])
  }

  lemma {:induction false} LiteralHasNoStar(p: Bytes)
    ensures STAR !in p[..Literal(p)]
    ensures Literal(p) < |p| ==> p[Literal(p)] == STAR
  {
    if p != [] && p[0] != STAR {
      LiteralHasNoStar(p[1..]);
      assert p[..Literal(p)] == [p[0]] + p[1..][..Literal(p[1..])];
    }
  }

  predicate At(c: Bytes, i: nat, lit: Bytes) {
    i + |lit| <= |c| && c[i..i + |lit|] == lit
  }

  /** The first place of lit in c at or after i. */
  function Find(lit: Bytes, c: Bytes, i: nat): (r: Option<nat>)
    requires i <= |c|
    ensures r.Some? ==> i <= r.value <= |c| - |lit|
    decreases |c| - i
  {
    if At(c, i, lit) then Some(i)
    else if i == |c| then None
    else Find(lit, c, i + 1)
  }

  lemma {:induction false} FindIsFirst(lit: Bytes, c: Bytes, i: nat)
    requires i <= |c|
    ensures Find(lit, c, i).Some? ==> At(c, Find(lit, c, i).value, lit)
    ensures forall k | i <= k <= |c| && At(c, k, lit) :: Find(lit, c, i).Some? && Find(lit, c, i).value <= k
    decreases |c| - i
  {
    if !At(c, i, lit) && i < |c| {
      FindIsFirst(lit, c, i + 1);
    }
  }

  /** The literal after a leading `*`, and the pattern after that literal. */
  function FirstLiteral(p: Bytes): Bytes
    requires p != []
  {
    p[1..][..Literal(p[1..])]
  }

  function AfterLiteral(p: Bytes): (rest: Bytes)
    requires p != []
    ensures |rest| < |p|
  {
    p[1..][Literal(p[1..])..]
  }

  lemma LiteralSplits(p: Bytes)
    requires p != []
    ensures STAR !in FirstLiteral(p) && p[1..] == FirstLiteral(p) + AfterLiteral(p)
    ensures AfterLiteral(p) != [] ==> AfterLiteral(p)[0] == STAR
  {
    LiteralHasNoStar(p[1..]);
  }

  /** Where p ends in c when every literal takes the first place it can, from i on. */
  function Place(p: Bytes, c: Bytes, i: nat): (r: Option<nat>)
    requires i <= |c|
    ensures r.Some? ==> i <= r.value <= |c|
    decreases |p|
  {
    if p == [] then Some(i)
    else if p[0] == STAR then
      match Find(FirstLiteral(p), c, i)
      case None => None
      case Some(j) => Place(AfterLiteral(p), c, j + |FirstLiteral(p)|)
    else if i < |c| && c[i] == p[0] then Place(p[1..], c, i + 1)
    else None
  }

  lemma {:induction false} LiteralOf(lit: Bytes, rest: Bytes)
    requires STAR !in lit && (rest == [] || rest[0] == STAR)
    ensures Literal(lit + rest) == |lit|
  {
    if lit == [] {
      assert lit + rest == rest;
    } else {
      assert lit[0] in lit && (lit + rest)[1..] == lit[1..] + rest;
      LiteralOf(lit[1..], rest);
    }
  }

  /** Placing `*`, a literal and a rest: the rest goes after the literal's first place. */
  lemma PlaceStar(lit: Bytes, rest: Bytes, c: Bytes, i: nat)
    requires STAR !in lit && (rest == [] || rest[0] == STAR) && i <= |c|
    ensures Find(lit, c, i).None? ==> Place([STAR] + (lit + rest), c, i) == None
    ensures Find(lit, c, i).Some? ==>
      Place([STAR] + (lit + rest), c, i) == Place(rest, c, Find(lit, c, i).value + |lit|)
  {
    var p := [STAR] + (lit + rest);
    LiteralOf(lit, rest);
    assert p[1..] == lit + rest;
    assert FirstLiteral(p) == lit && AfterLiteral(p) == rest;
  }

  lemma {:induction false} GlobLiteral(lit: Bytes, rest: Bytes, c: Bytes, i: nat, e: nat)
    requires STAR !in lit && i <= e <= |c|
    ensures GlobAt(lit + rest, c, i, e) <==>
            i + |lit| <= e && At(c, i, lit) && GlobAt(rest, c, i + |lit|, e)
    decreases |lit|
  {
    if lit == [] {
      assert lit + rest == rest;
    } else {
      assert lit[0] in lit && (lit + rest)[1..] == lit[1..] + rest;
      if i < e {
        GlobLiteral(lit[1..], rest, c, i + 1, e);
        if i + |lit| <= e {
          assert c[i..i + |lit|] == [c[i]] + c[i + 1..i + |lit|];
          assert lit == [lit[0]] + lit[1..];
        }
      }
    }
  }

  /** Soundness of placement: the part of c it covers matches. */
  lemma {:induction false} PlaceIsGlob(p: Bytes, c: Bytes, i: nat)
    requires i <= |c| && Place(p, c, i).Some?
    ensures GlobAt(p, c, i, Place(p, c, i).value)
    decreases |p|
  {
    if p != [] {
      if p[0] == STAR {
        var j := Find(FirstLiteral(p), c, i).value;
        FindIsFirst(FirstLiteral(p), c, i);
        PlaceIsGlob(AfterLiteral(p), c, j + |FirstLiteral(p)|);
        StarMatches(p, c, i, j, Place(p, c, i).value);
      } else {
        PlaceIsGlob(p[1..], c, i + 1);
      }
    }
  }

  lemma StarMatches(p: Bytes, c: Bytes, i: nat, j: nat, e: nat)
    requires p != [] && p[0] == STAR && i <= j && j + |FirstLiteral(p)| <= e <= |c|
    requires At(c, j, FirstLiteral(p)) && GlobAt(AfterLiteral(p), c, j + |FirstLiteral(p)|, e)
    ensures GlobAt(p, c, i, e)
  {
    LiteralSplits(p);
    GlobLiteral(FirstLiteral(p), AfterLiteral(p), c, j, e);
    StarSkips(p, c, i, j, e);
  }

  lemma StarMatched(p: Bytes, c: Bytes, i: nat, e: nat) returns (j: nat)
    requires p != [] && p[0] == STAR && i <= e <= |c| && GlobAt(p, c, i, e)
    ensures i <= j && j + |FirstLiteral(p)| <= e
    ensures At(c, j, FirstLiteral(p)) && GlobAt(AfterLiteral(p), c, j + |FirstLiteral(p)|, e)
  {
    LiteralSplits(p);
    j := StarSkipped(p, c, i, e);
    GlobLiteral(FirstLiteral(p), AfterLiteral(p), c, j, e);
  }

  /**
   * The exchange argument: wherever a match of p that starts at i ends, leftmost placement ends
   * no later, started at i itself or, when p begins with `*`, anywhere before i.
   */
  lemma {:induction false} PlaceIsLeftmost(p: Bytes, c: Bytes, i0: nat, i: nat, e: nat)
    requires i0 <= i <= e <= |c| && GlobAt(p, c, i, e)
    requires i0 == i || (p != [] && p[0] == STAR)
    ensures Place(p, c, i0).Some? && Place(p, c, i0).value <= e
    decreases |p|
  {
    if p != [] {
      if p[0] == STAR {
        var d := StarMatched(p, c, i, e);
        LiteralSplits(p);
        var lit, rest := FirstLiteral(p), AfterLiteral(p);
        FindIsFirst(lit, c, i0);
        assert Find(lit, c, i0).Some? && Find(lit, c, i0).value <= d;
        var j := Find(lit, c, i0).value;
        if rest != [] {
          PlaceIsLeftmost(rest, c, j + |lit|, d + |lit|, e);
        }
      } else {
        PlaceIsLeftmost(p[1..], c, i + 1, i + 1, e);
      }
    }
  }

  /** Placement finds the shortest matching prefix, and fails only when no prefix matches. */
  lemma PlaceIsShortest(p: Bytes, c: Bytes)
    ensures forall e | 0 <= e <= |c| && Glob(p, c[..e]) :: Place(p, c, 0).Some? && Place(p, c, 0).value <= e
    ensures Place(p, c, 0).Some? ==> Glob(p, c[..Place(p, c, 0).value])
  {
    forall e | 0 <= e <= |c|
      ensures Glob(p, c[..e]) <==> GlobAt(p, c, 0, e)
    {
      assert c[0..e] == c[..e];
      GlobAtIsGlob(p, c, 0, e);
    }
    forall e | 0 <= e <= |c| && Glob(p, c[..e])
      ensures Place(p, c, 0).Some? && Place(p, c, 0).value <= e
    {
      PlaceIsLeftmost(p, c, 0, 0, e);
    }
    if Place(p, c, 0).Some? {
      PlaceIsGlob(p, c, 0);
    }
  }

  // ---------------------------------------------------------------- the loop's own reading of a pattern

  /** string(b) for a byte: UTF-8 of the code point with that number. */
  function Rune(b: Byte): Bytes {
    if b as int < 128 then [b]
    else [(0xC0 + b as int / 64) as char, (0x80 + b as int % 64) as char]
  }

  /** The two bytes of a code point from 128 to 255: marked as the first and the last of two, they carry its bits. */
  lemma RuneIsUtf8(b: Byte)
    ensures b as int < 128 ==> Rune(b) == [b]
    ensures b as int >= 128 ==>
      && |Rune(b)| == 2 && 0xC0 <= Rune(b)[0] as int < 0xE0 && 0x80 <= Rune(b)[1] as int < 0xC0
      && (Rune(b)[0] as int - 0xC0) * 64 + (Rune(b)[1] as int - 0x80) == b as int
  {
  }

  function Runes(p: Bytes): (r: Bytes)
    ensures |r| >= |p|
  {
    if p == [] then [] else Rune(p[0]) + Runes(p[1..])
  }

  predicate Ascii(p: Bytes) {
    forall i | 0 <= i < |p| :: p[i] as int < 128
  }

  /** The bytes up to the first `*` as they are, the rest rune by rune. */
  function Widened(p: Bytes): Bytes {
    p[..Literal(p)] + Runes(p[Literal(p)..])
  }

  /** What matchPattern answers, by placement. */
  predicate Matches(p: Bytes, c: Bytes) {
    var e := Place(Widened(p), c, 0);
    e.Some? && (EndsInStar(p) || e.value == |c|)
  }

  lemma {:induction false} RunesOfAscii(p: Bytes)
    requires Ascii(p)
    ensures Runes(p) == p
  {
    if p != [] {
      assert p == [p[0]] + p[1..];
      RunesOfAscii(p[1..]);
    }
  }

  lemma {:induction false} RunesAppend(p: Bytes, q: Bytes)
    ensures Runes(p + q) == Runes(p) + Runes(q)
  {
    if p == [] {
      assert p + q == q;
    } else {
      assert (p + q)[1..] == p[1..] + q;
      RunesAppend(p[1..], q);
    }
  }

  lemma RuneKeepsStar(b: Byte)
    ensures b == STAR ==> Rune(b) == [STAR]
    ensures b != STAR ==> STAR !in Rune(b)
  {
  }

  lemma {:induction false} RunesKeepStars(p: Bytes)
    ensures EndsInStar(Runes(p)) <==> EndsInStar(p)
    ensures STAR in p <==> STAR in Runes(p)
  {
    if p != [] {
      RunesKeepStars(p[1..]);
      RuneKeepsStar(p[0]);
      var w := Runes(p[1..]);
      if p[1..] == [] {
        assert Runes(p) == Rune(p[0]);
      } else {
        assert Runes(p)[|Runes(p)| - 1] == w[|w| - 1];
      }
    }
  }

  lemma WidenedKeepsStars(p: Bytes)
    ensures EndsInStar(Widened(p)) <==> EndsInStar(p)
  {
    var k := Literal(p);
    assert p == p[..k] + p[k..];
    RunesKeepStars(p[k..]);
    if k == |p| {
      assert Runes(p[k..]) == [] && Widened(p) == p;
    } else {
      var w := Runes(p[k..]);
      assert Widened(p)[|Widened(p)| - 1] == w[|w| - 1];
    }
  }

  // ---------------------------------------------------------------- what matchPattern means

  /** A match of a pattern ending in `*` stretches to the end. */
  lemma {:induction false} StarStretches(p: Bytes, c: Bytes, i: nat, e: nat, e': nat)
    requires EndsInStar(p) && i <= e <= e' <= |c| && GlobAt(p, c, i, e)
    ensures GlobAt(p, c, i, e')
    decreases |p|
  {
    if p[0] == STAR {
      if |p| == 1 {
        assert GlobAt(p[1..], c, e', e');
        StarSkips(p, c, i, e', e');
      } else {
        var j := StarSkipped(p, c, i, e);
        StarStretches(p[1..], c, j, e, e');
        StarSkips(p, c, i, j, e');
      }
    } else {
      StarStretches(p[1..], c, i + 1, e, e');
    }
  }

  /**
   * For every pattern and channel: a pattern ending in `*` matches what its widened form
   * matches; any other matches exactly when the channel is the shortest of its own prefixes
   * that the widened form matches.
   */
  lemma MatchesMeans(p: Bytes, c: Bytes)
    ensures EndsInStar(p) ==> (Matches(p, c) <==> Glob(Widened(p), c))
    ensures !EndsInStar(p) ==>
      (Matches(p, c) <==> Glob(Widened(p), c) && forall k | 0 <= k < |c| :: !Glob(Widened(p), c[..k]))
  {
    var w := Widened(p);
    WidenedKeepsStars(p);
    PlaceIsShortest(w, c);
    assert c[..|c|] == c && c[0..|c|] == c;
    if EndsInStar(p) && Place(w, c, 0).Some? {
      var e := Place(w, c, 0).value;
      PlaceIsGlob(w, c, 0);
      StarStretches(w, c, 0, e, |c|);
      GlobAtIsGlob(w, c, 0, |c|);
    }
  }

  // ---------------------------------------------------------------- exactly which patterns it serves

  /** No `*` at all, or a `*` at the end and only ASCII after the first `*`. */
  predicate Faithful(p: Bytes) {
    STAR !in p || (EndsInStar(p) && Ascii(p[Literal(p)..]))
  }

  function Plain(p: Bytes): Bytes {
    if p == [] then []
    else if p[0] == STAR then Plain(p[1..])
    else [p[0]] + Plain(p[1..])
  }

  lemma {:induction false} GlobPlain(p: Bytes)
    ensures Glob(p, Plain(p))
  {
    if p != [] {
      GlobPlain(p[1..]);
      if p[0] == STAR {
        assert Plain(p)[0..] == Plain(p[1..]);
      }
    }
  }

  lemma {:induction false} PlainWhenStarFree(p: Bytes)
    requires STAR !in p
    ensures Plain(p) == p
  {
    if p != [] {
      assert p[0] in p;
      PlainWhenStarFree(p[1..]);
    }
  }

  lemma {:induction false} GlobNeedsLiterals(p: Bytes, c: Bytes)
    requires Glob(p, c)
    ensures |c| >= |Plain(p)|
    ensures STAR !in p ==> c == p
    decreases |p|
  {
    if p != [] {
      if p[0] == STAR {
        var k :| 0 <= k <= |c| && Glob(p[1..], c[k..]);
        GlobNeedsLiterals(p[1..], c[k..]);
      } else {
        GlobNeedsLiterals(p[1..], c[1..]);
        assert p == [p[0]] + p[1..] && c == [c[0]] + c[1..];
      }
    }
  }

  lemma {:induction false} GlobConcat(p: Bytes, q: Bytes, c: Bytes, d: Bytes)
    requires Glob(p, c) && Glob(q, d)
    ensures Glob(p + q, c + d)
    decreases |p|
  {
    if p == [] {
      assert p + q == q && c + d == d;
    } else {
      assert (p + q)[1..] == p[1..] + q;
      if p[0] == STAR {
        var k :| 0 <= k <= |c| && Glob(p[1..], c[k..]);
        GlobConcat(p[1..], q, c[k..], d);
        assert (c + d)[k..] == c[k..] + d;
      } else {
        GlobConcat(p[1..], q, c[1..], d);
        assert (c + d)[1..] == c[1..] + d;
      }
    }
  }

  lemma {:induction false} PlainAppend(p: Bytes, q: Bytes)
    ensures Plain(p + q) == Plain(p) + Plain(q)
  {
    if p == [] {
      assert p + q == q;
    } else {
      assert (p + q)[1..] == p[1..] + q;
      PlainAppend(p[1..], q);
    }
  }

  lemma {:induction false} RunesAreLonger(p: Bytes)
    ensures |Plain(Runes(p))| >= |Plain(p)|
    ensures !Ascii(p) ==> |Plain(Runes(p))| > |Plain(p)|
  {
    if p != [] {
      RunesAreLonger(p[1..]);
      PlainAppend(Rune(p[0]), Runes(p[1..]));
      if p[0] as int >= 128 {
        PlainWhenStarFree(Rune(p[0]));
      } else if !Ascii(p) {
        var i :| 0 <= i < |p| && p[i] as int >= 128;
        assert p[1..][i - 1] == p[i];
      }
    }
  }

  lemma FaithfulMatches(p: Bytes, c: Bytes)
    requires Faithful(p)
    ensures Matches(p, c) <==> Glob(p, c)
  {
    MatchesMeans(p, c);
    var k := Literal(p);
    assert p == p[..k] + p[k..];
    if STAR !in p {
      LiteralHasNoStar(p);
      assert k == |p|;
      assert Widened(p) == p;
      assert !EndsInStar(p);
      if Glob(p, c) {
        GlobNeedsLiterals(p, c);
        forall n | 0 <= n < |c|
          ensures !Glob(p, c[..n])
        {
          if Glob(p, c[..n]) {
            GlobNeedsLiterals(p, c[..n]);
          }
        }
      }
    } else {
      WidenedAscii(p);
    }
  }

  /** A channel that the pattern should match and matchPattern rejects. */
  lemma UnfaithfulMisses(p: Bytes) returns (c: Bytes)
    requires !Faithful(p)
    ensures Glob(p, c) && !Matches(p, c)
  {
    if Ascii(p[Literal(p)..]) {
      c := RepeatedLiteral(p);
    } else {
      c := Plain(p);
      WideLiteral(p);
    }
  }

  /** A literal with a non-ASCII byte after a `*` is looked for in a longer form than it has. */
  lemma WideLiteral(p: Bytes)
    requires !Ascii(p[Literal(p)..])
    ensures Glob(p, Plain(p)) && !Matches(p, Plain(p))
  {
    var k := Literal(p);
    assert p == p[..k] + p[k..];
    GlobPlain(p);
    PlainAppend(p[..k], p[k..]);
    PlainAppend(p[..k], Runes(p[k..]));
    RunesAreLonger(p[k..]);
    MatchesMeans(p, Plain(p));
    if Glob(Widened(p), Plain(p)) {
      GlobNeedsLiterals(Widened(p), Plain(p));
    }
  }

  /** A final literal is taken at its first place, so a channel that repeats it is rejected. */
  lemma RepeatedLiteral(p: Bytes) returns (c: Bytes)
    requires STAR in p && !EndsInStar(p) && Ascii(p[Literal(p)..])
    ensures Glob(p, c) && !Matches(p, c)
  {
    WidenedAscii(p);
    var s := LastStar(p);
    var q, lit := p[..s], p[s + 1..];
    assert lit != [] by {
      assert s != |p| - 1;
    }
    GlobBeforeLiteral(q, [], lit);
    GlobBeforeLiteral(q, lit, lit);
    SplitAtStar(p, s);
    c := Plain(q) + (lit + lit);
    DoubledIsLonger(Plain(q), lit);
    ShorterPrefix(p, Plain(q) + ([] + lit), c);
  }

  lemma SplitAtStar(p: Bytes, s: nat)
    requires s < |p| && p[s] == STAR
    ensures p[..s] + ([STAR] + p[s + 1..]) == p
  {
  }

  lemma DoubledIsLonger(x: Bytes, lit: Bytes)
    requires lit != []
    ensures x + ([] + lit) < x + (lit + lit)
  {
    assert x + (lit + lit) == (x + ([] + lit)) + lit;
  }

  lemma WidenedAscii(p: Bytes)
    requires Ascii(p[Literal(p)..])
    ensures Widened(p) == p
  {
    var k := Literal(p);
    var head, tail := p[..k], p[k..];
    RunesOfAscii(tail);
    calc {
      Widened(p);
      head + Runes(tail);
      head + tail;
      p;
    }
  }

  lemma ShorterPrefix(p: Bytes, d: Bytes, c: Bytes)
    requires !EndsInStar(p) && d < c && Glob(Widened(p), d)
    ensures !Matches(p, c)
  {
    MatchesMeans(p, c);
    assert c[..|d|] == d;
  }

  lemma GlobBeforeLiteral(q: Bytes, x: Bytes, lit: Bytes)
    requires STAR !in lit
    ensures Glob(q + ([STAR] + lit), Plain(q) + (x + lit))
  {
    GlobPlain(q);
    GlobPlain(lit);
    PlainWhenStarFree(lit);
    StarTakes(x, lit);
    GlobConcat(q, [STAR] + lit, Plain(q), x + lit);
  }

  lemma StarTakes(x: Bytes, lit: Bytes)
    requires Glob(lit, lit)
    ensures Glob([STAR] + lit, x + lit)
  {
    assert ([STAR] + lit)[1..] == lit && (x + lit)[|x|..] == lit;
  }

  lemma {:induction false} LastStar(p: Bytes) returns (s: nat)
    requires STAR in p
    ensures s < |p| && p[s] == STAR && STAR !in p[s + 1..]
  {
    var n := |p| - 1;
    if p[n] == STAR {
      s := n;
    } else {
      assert p == p[..n] + [p[n]];
      s := LastStar(p[..n]);
      assert p[s + 1..] == p[..n][s + 1..] + [p[n]];
    }
  }

  /** matchPattern agrees with the wildcard relation on every channel exactly for faithful patterns. */
  lemma MatchesAgreesIffFaithful(p: Bytes)
    ensures Faithful(p) <==> forall c :: Matches(p, c) <==> Glob(p, c)
  {
    if Faithful(p) {
      forall c
        ensures Matches(p, c) <==> Glob(p, c)
      {
        FaithfulMatches(p, c);
      }
    } else {
      var c := UnfaithfulMisses(p);
    }
  }

  /** What it accepts is right whenever the bytes after the first `*` are ASCII. */
  lemma MatchesIsSound(p: Bytes, c: Bytes)
    requires Ascii(p[Literal(p)..]) && Matches(p, c)
    ensures Glob(p, c)
  {
    MatchesMeans(p, c);
    WidenedAscii(p);
  }

  lemma {:induction false} GlobPrefix(lit: Bytes, c: Bytes)
    requires STAR !in lit
    ensures Glob(lit + [STAR], c) <==> lit <= c
  {
    var p := lit + [STAR];
    if lit == [] {
      assert p[1..] == [] && Glob([], c[|c|..]);
    } else {
      assert p[1..] == lit[1..] + [STAR];
      if c != [] {
        GlobPrefix(lit[1..], c[1..]);
        assert c == [c[0]] + c[1..] && lit == [lit[0]] + lit[1..];
      }
    }
  }

  /** Patterns without "*" match themselves alone, and those that end in their only "*" match what they begin. */
  lemma CommonPatterns(lit: Bytes, c: Bytes)
    requires '*' !in lit
    ensures Matches(lit, c) <==> c == lit
    ensures Matches(lit + ['*'], c) <==> lit <= c
  {
    var p := lit + [STAR];
    FaithfulMatches(lit, c);
    GlobPlain(lit);
    PlainWhenStarFree(lit);
    if Glob(lit, c) {
      GlobNeedsLiterals(lit, c);
    }
    LiteralOf(lit, [STAR]);
    assert p[|lit|..] == [STAR];
    FaithfulMatches(p, c);
    GlobPrefix(lit, c);
  }
}
