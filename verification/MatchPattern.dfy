/** The matchPattern loop (engine/permissions.go:270-318), proved to compute `Wildcard.Matches`. */
module MatchPatterns {
  import opened Decimal
  import opened Wildcard

  /** The part of the widened pattern that stands for p[pi..]. */
  function Rest(p: Bytes, pi: nat): Bytes
    requires pi <= |p|
  {
    if pi < Literal(p) then p[pi..Literal(p)] + Runes(p[Literal(p)..]) else Runes(p[pi..])
  }

  predicate AllStars(p: Bytes) {
    forall i | 0 <= i < |p| :: p[i] == STAR
  }

  lemma RestFirst(p: Bytes, pi: nat)
    requires pi < Literal(p)
    ensures p[pi] != STAR && Rest(p, pi) == [p[pi]] + Rest(p, pi + 1)
  {
    var k := Literal(p);
    LiteralHasNoStar(p);
    assert p[pi] == p[..k][pi];
    Reassociate(p, pi, k, Runes(p[k..]));
  }

  lemma Reassociate(p: Bytes, pi: nat, k: nat, tail: Bytes)
    requires pi < k <= |p|
    ensures p[pi..k] + tail == [p[pi]] + (if pi + 1 < k then p[pi + 1..k] + tail else tail)
  {
  }

  /** From a `*` on, with the literal p[s..pi] behind it: the star, the literal and the rest. */
  lemma RestSplits(p: Bytes, s: nat, pi: nat, lit: Bytes)
    requires 0 < s <= pi <= |p| && p[s - 1] == STAR
    requires (pi < |p| ==> p[pi] == STAR) && lit == Runes(p[s..pi])
    ensures Rest(p, s - 1) == [STAR] + (lit + Rest(p, pi))
    ensures Rest(p, pi) == [] || Rest(p, pi)[0] == STAR
  {
    LiteralBeforeStar(p, s - 1);
    RunesSplit(p, s, pi);
  }

  lemma Slices(p: Bytes, s: nat, pi: nat)
    requires 0 < s <= pi <= |p|
    ensures p[s - 1..] == [p[s - 1]] + p[s..] && p[s..] == p[s..pi] + p[pi..]
  {
  }

  lemma RunesSplit(p: Bytes, s: nat, pi: nat)
    requires 0 < s <= pi <= |p| && p[s - 1] == STAR
    ensures Runes(p[s - 1..]) == [STAR] + (Runes(p[s..pi]) + Runes(p[pi..]))
  {
    Slices(p, s, pi);
    RunesAppend(p[s..pi], p[pi..]);
    RuneKeepsStar(STAR);
    assert ([STAR] + p[s..])[1..] == p[s..];
  }

  lemma LiteralBeforeStar(p: Bytes, i: nat)
    requires i < |p| && p[i] == STAR
    ensures Literal(p) <= i
  {
    LiteralHasNoStar(p);
    assert forall j | 0 <= j < Literal(p) :: p[..Literal(p)][j] != STAR;
  }

  lemma HasByte(p: Bytes, lit: Bytes, rest: Bytes)
    requires p != [] && p[1..] == lit + rest && lit != [] && STAR !in lit
    ensures !AllStars(p)
  {
    assert p[1] == p[1..][0] == lit[0] && lit[0] in lit;
  }

  lemma {:induction false} PlaceAtEnd(p: Bytes, c: Bytes)
    ensures Place(p, c, |c|) == if AllStars(p) then Some(|c|) else None
    decreases |p|
  {
    if p != [] && p[0] == STAR {
      var lit, rest := FirstLiteral(p), AfterLiteral(p);
      LiteralSplits(p);
      if lit == [] {
        PlaceAtEnd(rest, c);
        assert p == [STAR] + rest;
        AllStarsFirst(STAR, rest);
      } else {
        HasByte(p, lit, rest);
      }
    }
  }

  lemma AllStarsFirst(b: Byte, p: Bytes)
    ensures AllStars([b] + p) <==> b == STAR && AllStars(p)
  {
    assert forall i | 0 <= i < |p| :: ([b] + p)[i + 1] == p[i];
    assert ([b] + p)[0] == b;
  }

  lemma {:induction false} RunesAllStars(p: Bytes)
    ensures AllStars(Runes(p)) <==> AllStars(p)
  {
    if p != [] {
      var w := Runes(p[1..]);
      RunesAllStars(p[1..]);
      RuneKeepsStar(p[0]);
      assert p == [p[0]] + p[1..];
      AllStarsFirst(p[0], p[1..]);
      if p[0] == STAR {
        AllStarsFirst(STAR, w);
      } else {
        assert Runes(p)[0] == Rune(p[0])[0] && Rune(p[0])[0] in Rune(p[0]);
      }
    }
  }

  lemma RestAllStars(p: Bytes, pi: nat)
    requires pi <= |p|
    ensures AllStars(Rest(p, pi)) <==> AllStars(p[pi..])
  {
    if pi < Literal(p) {
      RestFirst(p, pi);
      assert Rest(p, pi)[0] == p[pi] && p[pi..][0] == p[pi];
    } else {
      RunesAllStars(p[pi..]);
    }
  }

  /** The loop ran out of pattern or channel at pattern[stop]; stars were skipped up to pi. */
  lemma LeftOver(whole: Option<nat>, p: Bytes, stop: nat, pi: nat, c: Bytes, ci: nat)
    requires stop <= pi <= |p| && ci <= |c| && (pi < |p| ==> p[pi] != STAR)
    requires forall i | stop <= i < pi :: p[i] == STAR
    requires whole == Place(Rest(p, stop), c, ci)
    requires stop == |p| || ci == |c|
    requires EndsInStar(p) ==> stop < |p|
    ensures whole.Some? && (EndsInStar(p) || whole.value == |c|) <==> pi == |p| && ci == |c|
  {
    if ci == |c| {
      PlaceAtEnd(Rest(p, stop), c);
      RestAllStars(p, stop);
      assert pi < |p| ==> p[stop..][pi - stop] != STAR;
      assert pi == |p| ==> p[stop..] == p[stop..pi];
    } else {
      assert Rest(p, stop) == [];
    }
  }

  lemma NotFound(lit: Bytes, c: Bytes, from: nat)
    requires from < |c| && forall k | from <= k < |c| :: !At(c, k, lit)
    ensures Find(lit, c, from) == None
  {
    assert lit == [] ==> At(c, from, lit);
    FindIsFirst(lit, c, from);
  }

  lemma RunesAppendOne(p: Bytes, s: nat, pi: nat)
    requires s <= pi < |p|
    ensures Runes(p[s..pi + 1]) == Runes(p[s..pi]) + Rune(p[pi])
  {
    RunesAppend(p[s..pi], [p[pi]]);
    assert p[s..pi + 1] == p[s..pi] + [p[pi]];
    assert Runes([p[pi]]) == Rune(p[pi]) + Runes([p[pi]][1..]);
  }

  /** The first inner loop: the literal that starts at s, up to the next `*`. */
  method CollectLiteral(pattern: Bytes, s: nat) returns (pi: nat, nextLiteral: Bytes)
    requires s <= |pattern|
    ensures s <= pi <= |pattern| && STAR !in pattern[s..pi]
    ensures pi < |pattern| ==> pattern[pi] == STAR
    ensures nextLiteral == Runes(pattern[s..pi])
  {
    pi, nextLiteral := s, [];
    while pi < |pattern| && pattern[pi] != STAR
      invariant s <= pi <= |pattern| && STAR !in pattern[s..pi]
      invariant nextLiteral == Runes(pattern[s..pi])
    {
      RunesAppendOne(pattern, s, pi);
      nextLiteral := nextLiteral + Rune(pattern[pi]);
      pi := pi + 1;
    }
  }

  /** The second inner loop: moves ci past the first place of the literal, if it has one. */
  method SearchLiteral(channel: Bytes, from: nat, nextLiteral: Bytes) returns (found: bool, ci: nat)
    requires from < |channel|
    ensures ci <= |channel|
    ensures if found then ci >= |nextLiteral| && Find(nextLiteral, channel, from) == Some(ci - |nextLiteral|)
            else Find(nextLiteral, channel, from) == None
  {
    var clen := |channel|;
    ci, found := from, false;
    while ci < clen
      invariant from <= ci <= clen
      invariant forall k | from <= k < ci :: !At(channel, k, nextLiteral)
    {
      if ci + |nextLiteral| <= clen && channel[ci..ci + |nextLiteral|] == nextLiteral {
        FindIsFirst(nextLiteral, channel, from);
        assert At(channel, ci, nextLiteral);
        return true, ci + |nextLiteral|;
      }
      ci := ci + 1;
    }
    NotFound(nextLiteral, channel, from);
  }

  /**
   * The outer loop stands at pattern[pi] and channel[ci]; `rest` is what it still has to place
   * and `whole` is where that will end.
   */
  ghost predicate Standing(whole: Option<nat>, rest: Bytes, p: Bytes, pi: nat, c: Bytes, ci: nat) {
    && pi <= |p| && ci <= |c|
    && rest == Rest(p, pi) && whole == Place(rest, c, ci)
    && (pi <= Literal(p) || pi == |p| || p[pi] == STAR)
    && (EndsInStar(p) ==> pi < |p|)
  }

  /** Placing the star and its literal, whose first place ends at `to`, leaves the rest to place from there. */
  lemma StarTurn(whole: Option<nat>, rest: Bytes, p: Bytes, s: nat, pi: nat, c: Bytes, ci: nat, lit: Bytes, found: bool, to: nat)
    returns (rest': Bytes)
    requires 0 < s < |p| && p[s - 1] == STAR && Standing(whole, rest, p, s - 1, c, ci)
    requires s <= pi <= |p| && STAR !in p[s..pi] && (pi < |p| ==> p[pi] == STAR) && lit == Runes(p[s..pi])
    requires found ==> to >= |lit|
    requires Find(lit, c, ci) == if found then Some(to - |lit|) else None
    ensures if found then Standing(whole, rest', p, pi, c, to) else whole == None
  {
    rest' := RestOf(p, s, pi, lit);
    var placed := PlaceStarFirst(rest, lit, rest', c, ci, found, to);
  }

  lemma RestOf(p: Bytes, s: nat, pi: nat, lit: Bytes) returns (rest': Bytes)
    requires 0 < s <= pi <= |p| && p[s - 1] == STAR
    requires STAR !in p[s..pi] && (pi < |p| ==> p[pi] == STAR) && lit == Runes(p[s..pi])
    ensures rest' == Rest(p, pi) && Rest(p, s - 1) == [STAR] + (lit + rest')
    ensures (rest' == [] || rest'[0] == STAR) && STAR !in lit
  {
    rest' := Rest(p, pi);
    RestSplits(p, s, pi, lit);
    RunesKeepStars(p[s..pi]);
  }

  lemma PlaceStarFirst(rest: Bytes, lit: Bytes, rest': Bytes, c: Bytes, ci: nat, found: bool, to: nat) returns (whole: Option<nat>)
    requires ci <= |c| && rest == [STAR] + (lit + rest')
    requires (rest' == [] || rest'[0] == STAR) && STAR !in lit
    requires found ==> to >= |lit|
    requires Find(lit, c, ci) == if found then Some(to - |lit|) else None
    ensures whole == Place(rest, c, ci)
    ensures if found then to <= |c| && whole == Place(rest', c, to) else whole == None
  {
    whole := Place(rest, c, ci);
    PlaceStar(lit, rest', c, ci);
  }

  /** `*` at the very end of the pattern takes whatever is left. */
  lemma LastStarTurn(whole: Option<nat>, rest: Bytes, p: Bytes, pi: nat, c: Bytes, ci: nat)
    requires pi + 1 == |p| && p[pi] == STAR && Standing(whole, rest, p, pi, c, ci)
    ensures whole == Some(ci)
  {
    assert p[|p|..|p|] == [];
    RestSplits(p, |p|, |p|, []);
    PlaceStar([], [], c, ci);
    assert At(c, ci, []);
  }

  lemma ByteTurn(whole: Option<nat>, rest: Bytes, p: Bytes, pi: nat, c: Bytes, ci: nat) returns (rest': Bytes)
    requires pi < |p| && ci < |c| && p[pi] != STAR && Standing(whole, rest, p, pi, c, ci)
    ensures if p[pi] == c[ci] then Standing(whole, rest', p, pi + 1, c, ci + 1) else whole == None
  {
    LiteralHasNoStar(p);
    rest' := Rest(p, pi + 1);
    RestFirst(p, pi);
    assert rest[1..] == rest';
  }

  /** The last loop. */
  method SkipStars(pattern: Bytes, stop: nat) returns (pi: nat)
    requires stop <= |pattern|
    ensures stop <= pi <= |pattern| && (pi < |pattern| ==> pattern[pi] != STAR)
    ensures forall i | stop <= i < pi :: pattern[i] == STAR
  {
    pi := stop;
    while pi < |pattern| && pattern[pi] == STAR
      invariant stop <= pi <= |pattern|
      invariant forall i | stop <= i < pi :: pattern[i] == STAR
    {
      pi := pi + 1;
    }
  }

  method MatchPattern(pattern: Bytes, channel: Bytes) returns (matched: bool)
    ensures matched == Matches(pattern, channel)
  {
    var pi: nat, ci: nat := 0, 0;
    ghost var rest := Widened(pattern);
    ghost var whole := Place(rest, channel, 0);
    if pattern == [STAR] {
      LastStarTurn(whole, rest, pattern, pi, channel, ci);
      return true;
    }
    var plen, clen := |pattern|, |channel|;
    while pi < plen && ci < clen
      invariant Standing(whole, rest, pattern, pi, channel, ci)
      decreases plen - pi
    {
      if pattern[pi] == STAR {
        if pi == plen - 1 {
          LastStarTurn(whole, rest, pattern, pi, channel, ci);
          return true;
        }
        var nextLiteral, found;
        ghost var s, from := pi + 1, ci;
        pi, nextLiteral := CollectLiteral(pattern, pi + 1);
        found, ci := SearchLiteral(channel, ci, nextLiteral);
        rest := StarTurn(whole, rest, pattern, s, pi, channel, from, nextLiteral, found, ci);
        if !found {
          return false;
        }
      } else {
        rest := ByteTurn(whole, rest, pattern, pi, channel, ci);
        if pattern[pi] == channel[ci] {
          pi := pi + 1;
          ci := ci + 1;
        } else {
          return false;
        }
      }
    }
    ghost var stop := pi;
    pi := SkipStars(pattern, pi);
    LeftOver(whole, pattern, stop, pi, channel, ci);
    return pi == plen && ci == clen;
  }
}
