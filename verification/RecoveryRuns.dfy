/** What recovery guarantees over whole runs, whatever fails along the way. */
module RecoveryRuns {
  import opened Decimal
  import opened Recovery

  // ---------------------------------------------------------------- where a round starts and ends

  /** The stored text is the ID of the entry before position p, or nothing at the beginning. */
  ghost predicate StoredAt(ids: seq<string>, stored: string, p: nat) {
    p <= |ids| && stored == if p == 0 then "" else ids[p - 1]
  }

  lemma IncreasingTail(read: Reading, ids: seq<string>)
    requires Increasing(read, ids) && ids != []
    ensures Increasing(read, ids[1..])
  {
    forall i, j | 0 <= i < j < |ids[1..]|
      ensures InOrder(read, ids[1..], i, j)
    {
      assert InOrder(read, ids, i + 1, j + 1);
    }
  }

  lemma {:induction false} FirstAfterPosition(read: Reading, ids: seq<string>, p: nat)
    requires Increasing(read, ids) && 0 < p <= |ids|
    ensures read(ids[p - 1]).Some? && FirstAfter(read, ids, read(ids[p - 1]).value) == p
  {
    assert IsId(read, ids[p - 1]);
    if p > 1 {
      assert InOrder(read, ids, 0, p - 1);
      IncreasingTail(read, ids);
      FirstAfterPosition(read, ids[1..], p - 1);
    } else if |ids| > 1 {
      assert InOrder(read, ids, 0, 1);
    }
  }

  function Min(a: int, b: int): int {
    if a < b then a else b
  }

  /** Asking for what follows a position fetches the next entries, at most the limit. */
  lemma RangeFromPosition(read: Reading, ids: seq<string>, stored: string, p: nat, limit: int)
    requires Increasing(read, ids) && StoredAt(ids, stored, p) && limit > 0
    ensures XRange(read, ids, StartOf(stored), limit) == Some(Stretch(p, Min(p + limit, |ids|)))
  {
    if p > 0 {
      FirstAfterPosition(read, ids, p);
      assert IsId(read, stored);
    }
  }

  /** Where delivery starts when FromID is given: at the beginning, or after the entries up to it. */
  function NamedPlace(read: Reading, ids: seq<string>, fromID: string): (a: Option<nat>)
    ensures a.Some? ==> a.value <= |ids|
  {
    if fromID == "" || fromID == "0" || fromID == "-" then Some(0)
    else
      match read(fromID)
      case None => None
      case Some(id) => Some(FirstAfter(read, ids, id))
  }

  /** Where delivery starts with the offset at position p; None is a FromID the server cannot read. */
  function Origin(read: Reading, ids: seq<string>, p: nat, fromID: string, f: Faults): (a: Option<nat>)
    requires p <= |ids|
    ensures a.Some? ==> a.value <= |ids|
  {
    if fromID == "" && !f.offsetReadFails then Some(p) else NamedPlace(read, ids, fromID)
  }

  /** What the server is asked for, by positions. */
  lemma RangeFromOrigin(read: Reading, ids: seq<string>, stored: string, p: nat, opts: RecoveryOptions, f: Faults)
    requires Increasing(read, ids) && StoredAt(ids, stored, p)
    ensures XRange(read, ids, StartOf(LastID(stored, opts, f)), EffectiveLimit(opts.limit)) ==
            match Origin(read, ids, p, opts.fromID, f)
            case None => None
            case Some(a) => Some(Stretch(a, Min(a + EffectiveLimit(opts.limit), |ids|)))
  {
    var id := opts.fromID;
    if id == "" {
      RangeFromPosition(read, ids, LastID(stored, opts, f), if f.offsetReadFails then 0 else p, EffectiveLimit(opts.limit));
    } else if id != "0" && id != "-" {
      assert StartOf(id)[1..] == id;
    }
  }

  /** A round by positions: the stretch delivered, where the offset is afterwards, and success. */
  datatype Move = Move(block: Stretch, offset: nat, ok: bool)

  /** The round that starts at the given place, with the offset at p, in a stream of n entries. */
  function MoveFrom(n: nat, p: nat, origin: Option<nat>, limit: int, f: Faults): (m: Move)
    requires p <= n && (origin.Some? ==> origin.value <= n)
    ensures m.block.begin <= m.block.end <= n && (m.block.begin < m.block.end ==> origin == Some(m.block.begin))
    ensures m.offset == p || (m.offset == m.block.end && m.block.begin < m.block.end)
  {
    if f.rangeFails || origin.None? then Move(Stretch(0, 0), p, false)
    else
      var a, e := origin.value, Min(origin.value + EffectiveLimit(limit), n);
      if 0 <= f.receiveFailsAt < e - a then Move(Stretch(a, a + f.receiveFailsAt), p, false)
      else Move(Stretch(a, e), if a == e || f.saveLost then p else e, true)
  }

  /** The text-level round is the position-level round, whatever the FromID. */
  lemma RoundByPosition(read: Reading, ids: seq<string>, stored: string, p: nat, opts: RecoveryOptions, f: Faults) returns (r: Round)
    requires Increasing(read, ids) && StoredAt(ids, stored, p)
    ensures r == Recover(read, ids, stored, opts, f)
    ensures var m := MoveFrom(|ids|, p, Origin(read, ids, p, opts.fromID, f), opts.limit, f);
            r.block == m.block && r.ok == m.ok && StoredAt(ids, r.stored, m.offset)
  {
    var origin := Origin(read, ids, p, opts.fromID, f);
    RangeFromOrigin(read, ids, stored, p, opts, f);
    if f.rangeFails || origin.None? {
      r := Round(Stretch(0, 0), stored, false);
    } else {
      var s := Stretch(origin.value, Min(origin.value + EffectiveLimit(opts.limit), |ids|));
      r := DeliverByPosition(read, ids, stored, p, s, f);
    }
  }

  lemma DeliverByPosition(read: Reading, ids: seq<string>, stored: string, p: nat, s: Stretch, f: Faults) returns (r: Round)
    requires Increasing(read, ids) && StoredAt(ids, stored, p) && s.begin <= s.end <= |ids|
    ensures r == Deliver(ids, s, stored, f)
    ensures if 0 <= f.receiveFailsAt < s.end - s.begin
            then r == Round(Stretch(s.begin, s.begin + f.receiveFailsAt), stored, false)
            else r.block == s && r.ok && StoredAt(ids, r.stored, if s.begin == s.end || f.saveLost then p else s.end)
  {
    r := Deliver(ids, s, stored, f);
    assert s.begin < s.end ==> IsId(read, ids[s.end - 1]);
  }

  /** The entries up to an ID are those that do not come after it. */
  lemma {:induction false} FirstAfterSplits(read: Reading, ids: seq<string>, id: (nat, nat))
    requires Increasing(read, ids)
    ensures forall i | 0 <= i < |ids| :: i < FirstAfter(read, ids, id) <==> !Before(id, read(ids[i]).value)
  {
    if ids != [] {
      assert IsId(read, ids[0]);
      IncreasingTail(read, ids);
      FirstAfterSplits(read, ids[1..], id);
      forall i | 0 < i < |ids|
        ensures ids[i] == ids[1..][i - 1] && Before(read(ids[0]).value, read(ids[i]).value)
      {
        assert InOrder(read, ids, 0, i);
      }
    }
  }

  /** Where delivery starts: at the offset, at the beginning, or after the entries up to FromID. */
  ghost predicate StartsAt(read: Reading, ids: seq<string>, p: nat, fromID: string, offsetReadFails: bool, a: nat) {
    && a <= |ids|
    && (fromID == "" && !offsetReadFails ==> a == p)
    && (fromID == "" && offsetReadFails ==> a == 0)
    && (fromID == "0" || fromID == "-" ==> a == 0)
    && (fromID != "" && fromID != "0" && fromID != "-" ==>
          && read(fromID).Some?
          && forall i | 0 <= i < |ids| && read(ids[i]).Some? :: i < a <==> !Before(read(fromID).value, read(ids[i]).value))
  }

  lemma OriginStarts(read: Reading, ids: seq<string>, p: nat, fromID: string, f: Faults)
    requires Increasing(read, ids) && p <= |ids|
    requires fromID == "" || fromID == "0" || fromID == "-" || read(fromID).Some?
    ensures var origin := Origin(read, ids, p, fromID, f);
            origin.Some? && StartsAt(read, ids, p, fromID, f.offsetReadFails, origin.value)
  {
    if fromID != "" && fromID != "0" && fromID != "-" {
      FirstAfterSplits(read, ids, read(fromID).value);
    }
  }

  lemma DeliverMeans(read: Reading, ids: seq<string>, stored: string, a: nat, e: nat, f: Faults)
    requires Increasing(read, ids) && a <= e <= |ids|
    ensures Deliver(ids, Stretch(a, e), stored, f) ==
            if 0 <= f.receiveFailsAt < e - a then Round(Stretch(a, a + f.receiveFailsAt), stored, false)
            else Round(Stretch(a, e), if a == e || f.saveLost then stored else ids[e - 1], true)
  {
    assert a < e ==> IsId(read, ids[e - 1]);
  }

  /** A call that gets its entries: where it starts and ends, what it stores and whether it succeeds. */
  lemma RoundMeans(read: Reading, ids: seq<string>, stored: string, p: nat, fromID: string, limit: int, f: Faults)
    returns (a: nat, e: nat)
    requires Increasing(read, ids) && StoredAt(ids, stored, p) && !f.rangeFails
    requires fromID == "" || fromID == "0" || fromID == "-" || read(fromID).Some?
    ensures StartsAt(read, ids, p, fromID, f.offsetReadFails, a)
    ensures var l := if limit <= 0 then 100 else limit; e == if a + l < |ids| then a + l else |ids|
    ensures Recover(read, ids, stored, RecoveryOptions(fromID, limit), f) ==
            if 0 <= f.receiveFailsAt < e - a then Round(Stretch(a, a + f.receiveFailsAt), stored, false)
            else Round(Stretch(a, e), if a == e || f.saveLost then stored else ids[e - 1], true)
  {
    OriginStarts(read, ids, p, fromID, f);
    RangeFromOrigin(read, ids, stored, p, RecoveryOptions(fromID, limit), f);
    a := Origin(read, ids, p, fromID, f).value;
    e := Min(a + EffectiveLimit(limit), |ids|);
    DeliverMeans(read, ids, stored, a, e, f);
  }

  /** A call whose range fails, or whose FromID the server cannot read: nothing is delivered or stored. */
  lemma RoundFails(read: Reading, ids: seq<string>, stored: string, p: nat, fromID: string, limit: int, f: Faults)
    requires Increasing(read, ids) && StoredAt(ids, stored, p)
    requires f.rangeFails || (fromID != "" && fromID != "0" && fromID != "-" && read(fromID).None?)
    ensures var r := Recover(read, ids, stored, RecoveryOptions(fromID, limit), f);
            r.block.begin == r.block.end && r.stored == stored && !r.ok
  {
    RangeFromOrigin(read, ids, stored, p, RecoveryOptions(fromID, limit), f);
  }

  lemma EntryOrigin(read: Reading, ids: seq<string>, p: nat, q: nat, f: Faults)
    requires Increasing(read, ids) && p <= |ids| && q < |ids|
    ensures Origin(read, ids, p, ids[q], f) == Some(q + 1)
  {
    assert IsId(read, ids[q]);
    FirstAfterPosition(read, ids, q + 1);
  }

  /** With FromID naming an entry, delivery starts right after it, and the offset goes to where it ends. */
  lemma RoundFromEntry(read: Reading, ids: seq<string>, stored: string, p: nat, q: nat, limit: int, f: Faults) returns (r: Round)
    requires Increasing(read, ids) && StoredAt(ids, stored, p) && q < |ids|
    ensures r == Recover(read, ids, stored, RecoveryOptions(ids[q], limit), f)
    ensures var m := MoveFrom(|ids|, p, Some(q + 1), limit, f);
            r.block == m.block && r.ok == m.ok && StoredAt(ids, r.stored, m.offset)
  {
    EntryOrigin(read, ids, p, q, f);
    r := RoundByPosition(read, ids, stored, p, RecoveryOptions(ids[q], limit), f);
  }

  lemma PositionIsUnique(read: Reading, ids: seq<string>, stored: string, p: nat, q: nat)
    requires Increasing(read, ids) && StoredAt(ids, stored, p) && StoredAt(ids, stored, q)
    ensures p == q
  {
    assert p > 0 ==> IsId(read, ids[p - 1]);
    assert q > 0 ==> IsId(read, ids[q - 1]);
    assert 0 < p < q ==> InOrder(read, ids, p - 1, q - 1);
    assert 0 < q < p ==> InOrder(read, ids, q - 1, p - 1);
  }

  /**
   * The offset moves back exactly when delivery starts, for whatever reason, more than the limit
   * before it, and neither the range, nor a receive in the block, nor the save fails.
   */
  lemma OffsetMovesBackIff(read: Reading, ids: seq<string>, stored: string, p: nat, p': nat, opts: RecoveryOptions, f: Faults)
    requires Increasing(read, ids) && StoredAt(ids, stored, p)
    requires StoredAt(ids, Recover(read, ids, stored, opts, f).stored, p')
    ensures var origin := Origin(read, ids, p, opts.fromID, f);
            p' < p <==>
            && origin.Some? && origin.value + EffectiveLimit(opts.limit) < p
            && !f.rangeFails && !f.saveLost && !(0 <= f.receiveFailsAt < EffectiveLimit(opts.limit))
  {
    var r := RoundByPosition(read, ids, stored, p, opts, f);
    PositionIsUnique(read, ids, r.stored, p', MoveFrom(|ids|, p, Origin(read, ids, p, opts.fromID, f), opts.limit, f).offset);
  }

  const THREE_IDS := ["1-0", "2-0", "3-0"]

  /** These are the IDs of a stream. */
  lemma ThreeIncrease(ids: seq<string>)
    requires ids == THREE_IDS
    ensures Increasing(RedisId, ids)
  {
    forall k: nat | k < 3
      ensures RedisId(ids[k]) == Some((k + 1, 0)) && IsId(RedisId, ids[k])
    {
      PrintedIdReadsBack(k + 1, 0);
      assert FormatNat(k + 1) + "-" + FormatNat(0) == ids[k];
    }
    assert forall i, j | 0 <= i < j < 3 :: InOrder(RedisId, ids, i, j);
  }

  /** Without any fault, a FromID more than the limit before the offset moves the offset back. */
  lemma EarlyFromIDMovesBack(read: Reading, ids: seq<string>, stored: string, p: nat, q: nat, limit: nat) returns (r: Round)
    requires Increasing(read, ids) && StoredAt(ids, stored, p) && limit > 0 && q + 1 + limit < p
    ensures r == Recover(read, ids, stored, RecoveryOptions(ids[q], limit), NO_FAULTS)
    ensures r == Round(Stretch(q + 1, q + 1 + limit), ids[q + limit], true)
  {
    r := RoundFromEntry(read, ids, stored, p, q, limit, NO_FAULTS);
    assert StoredAt(ids, r.stored, q + 1 + limit);
  }

  lemma FirstOfThreeMovesBack(read: Reading, ids: seq<string>) returns (r: Round)
    requires Increasing(read, ids) && |ids| == 3
    ensures r == Recover(read, ids, ids[2], RecoveryOptions(ids[0], 1), NO_FAULTS)
    ensures r == Round(Stretch(1, 2), ids[1], true)
  {
    r := EarlyFromIDMovesBack(read, ids, ids[2], 3, 0, 1);
  }

  /** For example, with the first of three IDs and a limit of one, from the third entry to the second. */
  lemma FromIDMovesBack() returns (read: Reading, ids: seq<string>, r: Round)
    ensures read == RedisId && ids == THREE_IDS
    ensures Increasing(read, ids) && r == Recover(read, ids, ids[2], RecoveryOptions(ids[0], 1), NO_FAULTS)
    ensures r == Round(Stretch(1, 2), ids[1], true)
  {
    read, ids := RedisId, THREE_IDS;
    ThreeIncrease(ids);
    r := FirstOfThreeMovesBack(read, ids);
  }

  // ---------------------------------------------------------------- runs

  datatype Event = Append(id: string) | Call(opts: RecoveryOptions, faults: Faults)

  /** The IDs in the stream, the stored offset, and the stretch each call delivered. */
  datatype World = World(ids: seq<string>, stored: string, blocks: seq<Stretch>)

  function Step(read: Reading, w: World, e: Event): World {
    match e
    case Append(id) => w.(ids := w.ids + [id])
    case Call(opts, f) =>
      var r := Recover(read, w.ids, w.stored, opts, f);
      w.(stored := r.stored, blocks := w.blocks + [r.block])
  }

  function After(read: Reading, events: seq<Event>): World {
    if events == [] then World([], "", []) else Step(read, After(read, events[..|events| - 1]), events[|events| - 1])
  }

  function Max(a: nat, b: nat): nat {
    if a < b then b else a
  }

  /** How far delivery has got. */
  function HighWater(blocks: seq<Stretch>): nat {
    if blocks == [] then 0
    else
      var last := blocks[|blocks| - 1];
      Max(HighWater(blocks[..|blocks| - 1]), if last.begin < last.end then last.end else 0)
  }

  /** No block with anything in it starts beyond what was delivered before it: no gap is skipped. */
  predicate NoGap(blocks: seq<Stretch>) {
    blocks == [] ||
    (NoGap(blocks[..|blocks| - 1])
     && var last := blocks[|blocks| - 1]; last.begin < last.end ==> last.begin <= HighWater(blocks[..|blocks| - 1]))
  }

  lemma IncreasingBefore(read: Reading, ids: seq<string>, id: string)
    requires Increasing(read, ids + [id])
    ensures Increasing(read, ids)
  {
    assert forall i | 0 <= i < |ids| :: (ids + [id])[i] == ids[i];
    forall i, j | 0 <= i < j < |ids|
      ensures InOrder(read, ids, i, j)
    {
      assert InOrder(read, ids + [id], i, j);
    }
  }

  /** The call's FromID lies beyond what was delivered, with entries after it, and the call gets to deliver one. */
  predicate Jumps(read: Reading, w: World, e: Event) {
    && e.Call? && !e.faults.rangeFails && e.faults.receiveFailsAt != 0
    && var a := NamedPlace(read, w.ids, e.opts.fromID);
       a.Some? && HighWater(w.blocks) < a.value < |w.ids|
  }

  predicate NeverJumps(read: Reading, events: seq<Event>) {
    events == [] ||
    (NeverJumps(read, events[..|events| - 1]) && !Jumps(read, After(read, events[..|events| - 1]), events[|events| - 1]))
  }

  /**
   * Main theorem: whatever fails, the stored offset stays within what was delivered, and a gap is
   * skipped exactly when some call's FromID jumps over it.
   */
  lemma {:induction false} NothingIsSkipped(read: Reading, events: seq<Event>) returns (p: nat)
    requires Increasing(read, After(read, events).ids)
    ensures var w := After(read, events);
            StoredAt(w.ids, w.stored, p) && p <= HighWater(w.blocks) <= |w.ids| && (NoGap(w.blocks) <==> NeverJumps(read, events))
  {
    if events == [] {
      p := 0;
    } else {
      var before, e := After(read, events[..|events| - 1]), events[|events| - 1];
      if e.Append? {
        IncreasingBefore(read, before.ids, e.id);
      }
      p := NothingIsSkipped(read, events[..|events| - 1]);
      if e.Call? {
        p := CallMoves(read, before, p, e);
      }
    }
  }

  /** A call leaves a gap exactly when it jumps. */
  lemma JumpLeavesGap(read: Reading, w: World, p: nat, e: Event) returns (m: Move)
    requires p <= HighWater(w.blocks) <= |w.ids| && e.Call?
    ensures m == MoveFrom(|w.ids|, p, Origin(read, w.ids, p, e.opts.fromID, e.faults), e.opts.limit, e.faults)
    ensures m.block.begin < m.block.end && m.block.begin > HighWater(w.blocks) <==> Jumps(read, w, e)
  {
    m := MoveFrom(|w.ids|, p, Origin(read, w.ids, p, e.opts.fromID, e.faults), e.opts.limit, e.faults);
  }

  lemma CallMoves(read: Reading, w: World, p: nat, e: Event) returns (p': nat)
    requires Increasing(read, w.ids) && StoredAt(w.ids, w.stored, p) && p <= HighWater(w.blocks) <= |w.ids| && e.Call?
    ensures var w' := Step(read, w, e);
            && StoredAt(w'.ids, w'.stored, p') && p' <= HighWater(w'.blocks) <= |w'.ids|
            && (NoGap(w'.blocks) <==> NoGap(w.blocks) && !Jumps(read, w, e))
  {
    var m := JumpLeavesGap(read, w, p, e);
    p' := m.offset;
    var block, stored := StepOfCall(read, w, p, e, m);
  }

  lemma StepOfCall(read: Reading, w: World, p: nat, e: Event, m: Move) returns (block: Stretch, stored: string)
    requires Increasing(read, w.ids) && StoredAt(w.ids, w.stored, p) && e.Call?
    requires m == MoveFrom(|w.ids|, p, Origin(read, w.ids, p, e.opts.fromID, e.faults), e.opts.limit, e.faults)
    ensures Step(read, w, e) == World(w.ids, stored, w.blocks + [block]) && block == m.block && StoredAt(w.ids, stored, m.offset)
  {
    var r := RoundByPosition(read, w.ids, w.stored, p, e.opts, e.faults);
    block, stored := r.block, r.stored;
  }

  predicate WasDelivered(blocks: seq<Stretch>, i: nat) {
    exists b | 0 <= b < |blocks| :: blocks[b].begin <= i < blocks[b].end
  }

  lemma DeliveredOneMore(blocks: seq<Stretch>, block: Stretch, i: nat)
    ensures WasDelivered(blocks + [block], i) <==> WasDelivered(blocks, i) || block.begin <= i < block.end
  {
    var all := blocks + [block];
    assert forall b | 0 <= b < |blocks| :: all[b] == blocks[b];
    assert all[|blocks|] == block;
  }

  /** Nothing above the high-water mark was delivered; without gaps, everything below it was. */
  lemma {:induction false} NoGapMeansPrefix(blocks: seq<Stretch>, i: nat)
    ensures WasDelivered(blocks, i) ==> i < HighWater(blocks)
    ensures NoGap(blocks) && i < HighWater(blocks) ==> WasDelivered(blocks, i)
  {
    if blocks != [] {
      var rest, last := blocks[..|blocks| - 1], blocks[|blocks| - 1];
      NoGapMeansPrefix(rest, i);
      assert blocks == rest + [last];
      DeliveredOneMore(rest, last, i);
    }
  }

  /** Unless a FromID jumps, the entries up to the offset were delivered, and those delivered have none missing before them. */
  lemma DeliveredUpToOffset(read: Reading, events: seq<Event>, i: nat) returns (p: nat)
    requires Increasing(read, After(read, events).ids) && NeverJumps(read, events)
    ensures var w := After(read, events);
            && StoredAt(w.ids, w.stored, p)
            && (i < p ==> WasDelivered(w.blocks, i))
            && (WasDelivered(w.blocks, i) ==> i < |w.ids| && forall j: nat | j < i :: WasDelivered(w.blocks, j))
  {
    p := NothingIsSkipped(read, events);
    forall j: nat
      ensures WasDelivered(After(read, events).blocks, j) <==> j < HighWater(After(read, events).blocks)
    {
      NoGapMeansPrefix(After(read, events).blocks, j);
    }
  }

  /** Calls without a FromID, or with one that means the beginning, never jump. */
  lemma {:induction false} PlainCallsNeverJump(read: Reading, events: seq<Event>)
    requires forall i | 0 <= i < |events| && events[i].Call? :: events[i].opts.fromID in {"", "0", "-"}
    ensures NeverJumps(read, events)
  {
    if events != [] {
      PlainCallsNeverJump(read, events[..|events| - 1]);
    }
  }

  /** For example: three entries, and a call from the second of them before anything was delivered. */
  lemma JumpsPast(read: Reading, ids: seq<string>) returns (events: seq<Event>, e: Event)
    requires Increasing(read, ids) && |ids| == 3
    ensures e == Call(RecoveryOptions(ids[1], 1), NO_FAULTS) && After(read, events) == World(ids, "", [])
    ensures Jumps(read, After(read, events), e)
  {
    events := AppendsGive(read, ids);
    e := Call(RecoveryOptions(ids[1], 1), NO_FAULTS);
    assert IsId(read, ids[1]);
    FirstAfterPosition(read, ids, 2);
  }

  lemma {:induction false} AppendsGive(read: Reading, ids: seq<string>) returns (events: seq<Event>)
    ensures After(read, events) == World(ids, "", [])
  {
    if ids == [] {
      events := [];
    } else {
      var last := |ids| - 1;
      var before := AppendsGive(read, ids[..last]);
      events := before + [Append(ids[last])];
      assert events[..|before|] == before && ids == ids[..last] + [ids[last]];
    }
  }

  /** A jump leaves an entry undelivered that comes before one it delivers. */
  lemma JumpSkips(read: Reading, events: seq<Event>, e: Event) returns (i: nat, j: nat)
    requires Increasing(read, After(read, events).ids) && Jumps(read, After(read, events), e)
    ensures var w := After(read, events + [e]);
            i < j < |w.ids| && !WasDelivered(w.blocks, i) && WasDelivered(w.blocks, j)
  {
    var w := After(read, events);
    var p := NothingIsSkipped(read, events);
    assert (events + [e])[..|events|] == events;
    i, j := HighWater(w.blocks), NamedPlace(read, w.ids, e.opts.fromID).value;
    NoGapMeansPrefix(w.blocks, i);
    var r := RoundByPosition(read, w.ids, w.stored, p, e.opts, e.faults);
    DeliveredOneMore(w.blocks, r.block, i);
    DeliveredOneMore(w.blocks, r.block, j);
  }

  // ---------------------------------------------------------------- draining

  const NO_FAULTS := Faults(false, false, -1, false)

  function TextBefore(stored: string, rounds: seq<Round>, i: nat): string
    requires i <= |rounds|
  {
    if i == 0 then stored else rounds[i - 1].stored
  }

  ghost predicate IsFaultless(read: Reading, ids: seq<string>, stored: string, limit: int, r: Round) {
    r == Recover(read, ids, stored, RecoveryOptions("", limit), NO_FAULTS)
  }

  /** Round i of a series of calls without faults, each starting from the offset the last one left. */
  ghost predicate Follows(read: Reading, ids: seq<string>, stored: string, limit: int, rounds: seq<Round>, i: nat)
    requires i < |rounds|
  {
    IsFaultless(read, ids, TextBefore(stored, rounds, i), limit, rounds[i])
  }

  /** k limits on from p, or the end. */
  function Reach(n: nat, p: nat, limit: int, k: nat): (r: nat)
    requires p <= n
    ensures r <= n
  {
    if k == 0 then p else Min(Reach(n, p, limit, k - 1) + EffectiveLimit(limit), n)
  }

  lemma OneMoreTimes(k: nat, l: nat)
    requires k > 0
    ensures k * l == (k - 1) * l + l >= l
  {
  }

  lemma {:induction false} ReachIsProduct(n: nat, p: nat, limit: int, k: nat)
    requires p <= n
    ensures Reach(n, p, limit, k) == Min(p + k * EffectiveLimit(limit), n)
  {
    if k > 0 {
      ReachIsProduct(n, p, limit, k - 1);
      OneMoreTimes(k, EffectiveLimit(limit));
    }
  }

  function Ceiling(n: nat, l: int): int
    requires l > 0
  {
    (n + l - 1) / l
  }

  lemma CeilingSplits(n: nat, l: int, k: nat)
    requires l > 0
    ensures k < Ceiling(n, l) <==> k * l < n
  {
    var c := Ceiling(n, l);
    assert c * l <= n + l - 1 < c * l + l;
    if k < c {
      assert (k + 1) * l <= c * l;
    } else {
      assert c * l <= k * l;
    }
  }

  lemma ReachMoves(n: nat, p: nat, limit: int, k: nat)
    requires p <= n
    ensures Reach(n, p, limit, k) < Reach(n, p, limit, k + 1) <==> k < Ceiling(n - p, EffectiveLimit(limit))
  {
    ReachIsProduct(n, p, limit, k);
    CeilingSplits(n - p, EffectiveLimit(limit), k);
  }

  lemma FaultlessMove(n: nat, p: nat, limit: int, k: nat)
    requires p <= n
    ensures MoveFrom(n, Reach(n, p, limit, k), Some(Reach(n, p, limit, k)), limit, NO_FAULTS) ==
            Move(Stretch(Reach(n, p, limit, k), Reach(n, p, limit, k + 1)), Reach(n, p, limit, k + 1), true)
  {
  }

  /** Round i delivers the i-th stretch of what was left and moves the offset to its end. */
  lemma {:induction false} RoundsAdvance(read: Reading, ids: seq<string>, stored: string, p: nat, limit: int, rounds: seq<Round>, i: nat)
    requires Increasing(read, ids) && StoredAt(ids, stored, p) && i < |rounds|
    requires forall j | 0 <= j < |rounds| :: Follows(read, ids, stored, limit, rounds, j)
    ensures rounds[i].ok && rounds[i].block == Stretch(Reach(|ids|, p, limit, i), Reach(|ids|, p, limit, i + 1))
    ensures StoredAt(ids, rounds[i].stored, Reach(|ids|, p, limit, i + 1))
  {
    assert Follows(read, ids, stored, limit, rounds, i);
    var text, q := TextBefore(stored, rounds, i), Reach(|ids|, p, limit, i);
    if i > 0 {
      RoundsAdvance(read, ids, stored, p, limit, rounds, i - 1);
    }
    FaultlessMove(|ids|, p, limit, i);
    FaultlessRound(read, ids, text, q, limit, rounds[i], Reach(|ids|, p, limit, i + 1));
  }

  lemma FaultlessRound(read: Reading, ids: seq<string>, text: string, q: nat, limit: int, r: Round, q': nat)
    requires Increasing(read, ids) && StoredAt(ids, text, q)
    requires IsFaultless(read, ids, text, limit, r)
    requires MoveFrom(|ids|, q, Some(q), limit, NO_FAULTS) == Move(Stretch(q, q'), q', true)
    ensures r.ok && r.block == Stretch(q, q') && StoredAt(ids, r.stored, q')
  {
    var r' := RoundByPosition(read, ids, text, q, RecoveryOptions("", limit), NO_FAULTS);
  }

  /**
   * Calls without faults drain the stream: round i delivers something exactly while i is below
   * what was left divided by the limit, rounded up, and the stretches delivered abut.
   */
  lemma CallsDrainTheStream(read: Reading, ids: seq<string>, stored: string, p: nat, limit: int, rounds: seq<Round>, i: nat)
    requires Increasing(read, ids) && StoredAt(ids, stored, p) && i < |rounds|
    requires forall j | 0 <= j < |rounds| :: Follows(read, ids, stored, limit, rounds, j)
    ensures rounds[i].block.begin < rounds[i].block.end <==> i < Ceiling(|ids| - p, EffectiveLimit(limit))
    ensures rounds[i].block.begin == if i == 0 then p else rounds[i - 1].block.end
    ensures i >= Ceiling(|ids| - p, EffectiveLimit(limit)) ==> rounds[i].block.begin == |ids|
  {
    RoundsAdvance(read, ids, stored, p, limit, rounds, i);
    ReachMoves(|ids|, p, limit, i);
    if i > 0 {
      RoundsAdvance(read, ids, stored, p, limit, rounds, i - 1);
    }
  }

  // ---------------------------------------------------------------- whose offset it is

  predicate EndsWith(s: string, t: string) {
    |t| <= |s| && s[|s| - |t|..] == t
  }

  /** Two users can share an offset key exactly when one's ID is ":" and the other's ID at its end. */
  lemma OffsetKeysCollideIff(relay: Relay, user: string, user': string)
    ensures (exists room: string, room': string :: relay.OffsetKey(room, user) == relay.OffsetKey(room', user')) <==>
            user == user' || EndsWith(user', ":" + user) || EndsWith(user, ":" + user')
  {
    forall room: string, room': string
      ensures relay.OffsetKey(room, user) == relay.OffsetKey(room', user') <==> room + ":" + user == room' + ":" + user'
    {
      var p := relay.prefix + "offset:";
      assert relay.OffsetKey(room, user) == p + (room + ":" + user);
      assert relay.OffsetKey(room', user') == p + (room' + ":" + user');
      SamePrefix(p, room + ":" + user, room' + ":" + user');
    }
    if user == user' {
      assert relay.OffsetKey("", user) == relay.OffsetKey("", user');
    } else if EndsWith(user', ":" + user) {
      ShareWithSuffix(relay, user, user');
    } else if EndsWith(user, ":" + user') {
      ShareWithSuffix(relay, user', user);
    } else {
      forall room: string, room': string
        ensures relay.OffsetKey(room, user) != relay.OffsetKey(room', user')
      {
        if room + ":" + user == room' + ":" + user' {
          if |user| <= |user'| {
            SharedKey(room, user, room', user');
          } else {
            SharedKey(room', user', room, user);
          }
        }
      }
    }
  }

  lemma ShareWithSuffix(relay: Relay, user: string, user': string)
    requires EndsWith(user', ":" + user)
    ensures relay.OffsetKey(":" + user'[..|user'| - |user| - 1], user) == relay.OffsetKey("", user')
  {
    var x := user'[..|user'| - |user| - 1];
    assert user' == x + (":" + user);
    assert (":" + x) + ":" + user == "" + ":" + user';
    var p := relay.prefix + "offset:";
    assert relay.OffsetKey(":" + x, user) == p + ((":" + x) + ":" + user);
    assert relay.OffsetKey("", user') == p + ("" + ":" + user');
  }

  lemma SharedKey(room: string, user: string, room': string, user': string)
    requires room + ":" + user == room' + ":" + user' && |user| <= |user'|
    ensures user == user' || EndsWith(user', ":" + user)
  {
    var key := room + ":" + user;
    var n := |key| - |user'|;
    assert key[n..] == user' && key[|key| - |user|..] == user;
    if |user| < |user'| {
      assert key[|key| - |user| - 1..] == ":" + user;
      assert user'[|user'| - |user| - 1..] == key[n..][|user'| - |user| - 1..] == key[|key| - |user| - 1..];
    }
  }
}
