/**
 * Calls of RecoverAndDeliver for one user that overlap (engine/relay.go:344-424). Nothing keeps
 * them apart: each reads the offset, fetches, delivers message by message and saves, and steps of
 * different calls, and of publishers, interleave.
 */
module RecoveryOverlaps {
  import opened Decimal
  import opened Recovery
  import opened RecoveryRuns

  // ---------------------------------------------------------------- calls as steps

  /**
   * How far a call has got; `begin` is where in the stream what it fetched starts, and `named`
   * says that its FromID named a place other than the beginning.
   */
  datatype Phase =
    | Chosen(lastID: string, limit: int, named: bool)
    | Delivering(begin: nat, fetched: seq<string>, at: nat, named: bool)
    | Finished

  datatype State = State(ids: seq<string>, stored: string, calls: map<nat, Phase>, delivered: set<nat>)

  datatype Step =
    | Publish(id: string)
    | Begin(k: nat, opts: RecoveryOptions, offsetReadFails: bool)
    | Fetch(k: nat, fails: bool)
    | Deliver(k: nat, fails: bool)
    | Save(k: nat, lost: bool)

  function To(s: State, k: nat, ph: Phase): State {
    s.(calls := s.calls[k := ph])
  }

  function Fetching(read: Reading, ids: seq<string>, ph: Phase, fails: bool): Phase
    requires ph.Chosen?
  {
    if fails then Finished
    else
      match XRange(read, ids, StartOf(ph.lastID), ph.limit)
      case None => Finished
      case Some(range) => Delivering(range.begin, ids[range.begin..range.end], 0, ph.named)
  }

  predicate Names(opts: RecoveryOptions) {
    opts.fromID != "" && opts.fromID != "0" && opts.fromID != "-"
  }

  /** A step of a call that has not come to it, or is past it, is none. */
  function Apply(read: Reading, s: State, e: Step): State {
    match e
    case Publish(id) => s.(ids := s.ids + [id])
    case Begin(k, opts, fails) =>
      if k in s.calls then s
      else To(s, k, Chosen(LastID(s.stored, opts, Faults(fails, false, -1, false)), EffectiveLimit(opts.limit), Names(opts)))
    case Fetch(k, fails) =>
      if k !in s.calls || !s.calls[k].Chosen? then s
      else To(s, k, Fetching(read, s.ids, s.calls[k], fails))
    case Deliver(k, fails) =>
      if k !in s.calls || !s.calls[k].Delivering? || s.calls[k].at >= |s.calls[k].fetched| then s
      else
        var ph := s.calls[k];
        if fails then To(s, k, Finished)
        else To(s.(delivered := s.delivered + {ph.begin + ph.at}), k, ph.(at := ph.at + 1))
    case Save(k, lost) =>
      if k !in s.calls || !s.calls[k].Delivering? || s.calls[k].at != |s.calls[k].fetched| then s
      else
        var fetched := s.calls[k].fetched;
        var lastID := if fetched == [] then "" else fetched[|fetched| - 1];
        To(if lastID == "" || lost then s else s.(stored := lastID), k, Finished)
  }

  function Run(read: Reading, s: State, steps: seq<Step>): State {
    if steps == [] then s else Apply(read, Run(read, s, steps[..|steps| - 1]), steps[|steps| - 1])
  }

  const START := State([], "", map[], {})

  // ---------------------------------------------------------------- one call alone

  /** The steps of one call, with room for as many messages as the stream has. */
  function CallSteps(k: nat, opts: RecoveryOptions, f: Faults, n: nat): seq<Step> {
    [Begin(k, opts, f.offsetReadFails), Fetch(k, f.rangeFails)] + Receives(k, f.receiveFailsAt, n) + [Save(k, f.saveLost)]
  }

  function Receives(k: nat, failsAt: int, n: nat): seq<Step> {
    seq(n, i => Deliver(k, i == failsAt))
  }

  lemma {:induction false} RunOn(read: Reading, s: State, a: seq<Step>, b: seq<Step>)
    ensures Run(read, s, a + b) == Run(read, Run(read, s, a), b)
  {
    if b == [] {
      assert a + b == a;
    } else {
      assert (a + b)[..|a + b| - 1] == a + b[..|b| - 1];
      RunOn(read, s, a, b[..|b| - 1]);
    }
  }

  lemma RunOne(read: Reading, s: State, e: Step)
    ensures Run(read, s, [e]) == Apply(read, s, e)
  {
    assert [e][..0] == [];
  }

  /** Of the entries fetched, those received before the one that fails, or all. */
  function Got(fetched: nat, failsAt: int): nat {
    if 0 <= failsAt < fetched then failsAt else fetched
  }

  /** After n receives by call k: how many were delivered, and what the call does next. */
  ghost predicate Received(m: State, k: nat, failsAt: int, n: nat, m': State)
    requires k in m.calls && m.calls[k].Delivering?
  {
    var ph := m.calls[k];
    var got := Got(Min(n, |ph.fetched|), failsAt);
    && m'.ids == m.ids && m'.stored == m.stored && k in m'.calls
    && m'.calls[k] == (if 0 <= failsAt < Min(n, |ph.fetched|) then Finished else ph.(at := got))
    && forall i: nat :: i in m'.delivered <==> i in m.delivered || ph.begin <= i < ph.begin + got
  }

  lemma {:induction false} ReceivesReach(read: Reading, m: State, k: nat, failsAt: int, n: nat)
    requires k in m.calls && m.calls[k].Delivering? && m.calls[k].at == 0
    ensures Received(m, k, failsAt, n, Run(read, m, Receives(k, failsAt, n)))
  {
    if n > 0 {
      ReceivesReach(read, m, k, failsAt, n - 1);
      var all, rest := Receives(k, failsAt, n), Receives(k, failsAt, n - 1);
      assert all[..n - 1] == rest && all[n - 1] == Deliver(k, n - 1 == failsAt);
      OneMoreReceive(read, m, k, failsAt, n, Run(read, m, rest));
    }
  }

  lemma OneMoreReceive(read: Reading, m: State, k: nat, failsAt: int, n: nat, m': State)
    requires n > 0 && k in m.calls && m.calls[k].Delivering? && m.calls[k].at == 0 && Received(m, k, failsAt, n - 1, m')
    ensures Received(m, k, failsAt, n, Apply(read, m', Deliver(k, n - 1 == failsAt)))
  {
  }

  /** From s to s', what was delivered and stored is that of the round. */
  ghost predicate AmountsTo(s: State, s': State, r: Round) {
    && s'.stored == r.stored && s'.ids == s.ids
    && forall i: nat :: i in s'.delivered <==> i in s.delivered || r.block.begin <= i < r.block.end
  }

  /** Saving, once everything fetched was received. */
  lemma SaveAlone(read: Reading, m: State, k: nat, f: Faults, m': State)
    requires k in m.calls && m.calls[k].Delivering? && m.calls[k].at == 0
    requires m.calls[k].begin + |m.calls[k].fetched| <= |m.ids|
    requires m.calls[k].fetched == m.ids[m.calls[k].begin..m.calls[k].begin + |m.calls[k].fetched|]
    requires Received(m, k, f.receiveFailsAt, |m.ids|, m')
    ensures var ph := m.calls[k];
            var r := Recovery.Deliver(m.ids, Stretch(ph.begin, ph.begin + |ph.fetched|), m.stored, f);
            AmountsTo(m, Apply(read, m', Save(k, f.saveLost)), r)
  {
  }

  lemma Unfetched(read: Reading, s: State, k: nat, failsAt: int, n: nat, lost: bool)
    requires k in s.calls && s.calls[k].Finished?
    ensures Run(read, s, Receives(k, failsAt, n)) == s == Apply(read, s, Save(k, lost))
  {
    if n > 0 {
      Unfetched(read, s, k, failsAt, n - 1, lost);
      assert Receives(k, failsAt, n)[..n - 1] == Receives(k, failsAt, n - 1);
    }
  }

  /** A call whose steps nothing comes between delivers and stores what RecoverAndDeliver does. */
  lemma AloneIsRecover(read: Reading, s: State, k: nat, opts: RecoveryOptions, f: Faults)
    requires k !in s.calls
    ensures var s' := Run(read, s, CallSteps(k, opts, f, |s.ids|));
            var r := Recover(read, s.ids, s.stored, opts, f);
            && s'.stored == r.stored && s'.ids == s.ids
            && forall i: nat :: i in s'.delivered <==> i in s.delivered || r.block.begin <= i < r.block.end
  {
    var m, r := BeginAndFetch(read, s, k, opts, f);
    CallInParts(read, s, k, opts, f, |s.ids|, m);
    var s' := FinishCall(read, m, k, f, r);
    AmountsFrom(s, m, s', r);
  }

  /** Receiving and saving, after what is fetched or not. */
  lemma FinishCall(read: Reading, m: State, k: nat, f: Faults, r: Round) returns (s': State)
    requires k in m.calls && FetchedFor(m, m.calls[k], f, r)
    ensures s' == Apply(read, Run(read, m, Receives(k, f.receiveFailsAt, |m.ids|)), Save(k, f.saveLost))
    ensures AmountsTo(m, s', r)
  {
    s' := Apply(read, Run(read, m, Receives(k, f.receiveFailsAt, |m.ids|)), Save(k, f.saveLost));
    if m.calls[k].Finished? {
      Unfetched(read, m, k, f.receiveFailsAt, |m.ids|, f.saveLost);
    } else {
      ReceivesReach(read, m, k, f.receiveFailsAt, |m.ids|);
      SaveAlone(read, m, k, f, Run(read, m, Receives(k, f.receiveFailsAt, |m.ids|)));
    }
  }

  /** What the round is, once the call has fetched, or failed to. */
  ghost predicate FetchedFor(m: State, ph: Phase, f: Faults, r: Round) {
    match ph
    case Chosen(_, _, _) => false
    case Delivering(begin, fetched, at, _) =>
      && at == 0 && begin + |fetched| <= |m.ids| && fetched == m.ids[begin..begin + |fetched|]
      && r == Recovery.Deliver(m.ids, Stretch(begin, begin + |fetched|), m.stored, f)
    case Finished => r == Round(Stretch(0, 0), m.stored, false)
  }

  lemma AmountsFrom(s: State, m: State, s': State, r: Round)
    requires m.ids == s.ids && m.stored == s.stored && m.delivered == s.delivered && AmountsTo(m, s', r)
    ensures AmountsTo(s, s', r)
  {
  }

  lemma CallInParts(read: Reading, s: State, k: nat, opts: RecoveryOptions, f: Faults, n: nat, m: State)
    requires m == Apply(read, Apply(read, s, Begin(k, opts, f.offsetReadFails)), Fetch(k, f.rangeFails))
    ensures Run(read, s, CallSteps(k, opts, f, n)) == Apply(read, Run(read, m, Receives(k, f.receiveFailsAt, n)), Save(k, f.saveLost))
  {
    var begin, fetch, save := Begin(k, opts, f.offsetReadFails), Fetch(k, f.rangeFails), Save(k, f.saveLost);
    var receives := Receives(k, f.receiveFailsAt, n);
    RunOn(read, s, [begin, fetch] + receives, [save]);
    RunOn(read, s, [begin, fetch], receives);
    RunOn(read, s, [begin], [fetch]);
    assert [begin] + [fetch] == [begin, fetch];
    RunOne(read, s, begin);
    RunOne(read, Run(read, s, [begin]), fetch);
    RunOne(read, Run(read, m, receives), save);
  }

  lemma BeginAndFetch(read: Reading, s: State, k: nat, opts: RecoveryOptions, f: Faults) returns (m: State, r: Round)
    requires k !in s.calls
    ensures m == Apply(read, Apply(read, s, Begin(k, opts, f.offsetReadFails)), Fetch(k, f.rangeFails))
    ensures m.ids == s.ids && m.stored == s.stored && m.delivered == s.delivered && k in m.calls
    ensures r == Recover(read, s.ids, s.stored, opts, f) && FetchedFor(m, m.calls[k], f, r)
  {
    m := Apply(read, Apply(read, s, Begin(k, opts, f.offsetReadFails)), Fetch(k, f.rangeFails));
    r := Recover(read, s.ids, s.stored, opts, f);
  }

  // ---------------------------------------------------------------- what every step keeps

  ghost predicate Shaped(ids: seq<string>, ph: Phase) {
    match ph
    case Chosen(_, limit, _) => limit > 0
    case Delivering(begin, fetched, at, _) =>
      begin + |fetched| <= |ids| && fetched == ids[begin..begin + |fetched|] && at <= |fetched|
    case Finished => true
  }

  /** The offset stands for place p, and what a call fetched is a stretch of the stream. */
  ghost predicate Shape(read: Reading, s: State, p: nat) {
    && Increasing(read, s.ids) && StoredAt(s.ids, s.stored, p)
    && forall k | k in s.calls :: Shaped(s.ids, s.calls[k])
  }

  lemma ShapedStays(ids: seq<string>, id: string, ph: Phase)
    requires Shaped(ids, ph)
    ensures Shaped(ids + [id], ph)
  {
    if ph.Delivering? {
      assert (ids + [id])[ph.begin..ph.begin + |ph.fetched|] == ids[ph.begin..ph.begin + |ph.fetched|];
    }
  }

  lemma StepKeepsShape(read: Reading, s: State, e: Step, p: nat) returns (p': nat)
    requires Shape(read, s, p) && Increasing(read, Apply(read, s, e).ids)
    ensures Shape(read, Apply(read, s, e), p') && (p' == p || (e.Save? && ReadyToSave(s, e.k)))
  {
    p' := p;
    match e
    case Publish(id) =>
      forall k | k in s.calls
        ensures Shaped(s.ids + [id], s.calls[k])
      {
        ShapedStays(s.ids, id, s.calls[k]);
      }
    case Begin(_, _, _) =>
    case Fetch(_, _) =>
    case Deliver(_, _) =>
    case Save(k, lost) =>
      if ReadyToSave(s, k) {
        p' := SaveMoves(read, s, k, lost, p);
      }
  }

  predicate ReadyToSave(s: State, k: nat) {
    k in s.calls && s.calls[k].Delivering? && s.calls[k].at == |s.calls[k].fetched|
  }

  /** A save puts the offset where the call's block ends. */
  lemma SaveMoves(read: Reading, s: State, k: nat, lost: bool, p: nat) returns (p': nat)
    requires Shape(read, s, p) && ReadyToSave(s, k)
    ensures Shape(read, Apply(read, s, Save(k, lost)), p')
    ensures p' == if lost || s.calls[k].fetched == [] then p else s.calls[k].begin + |s.calls[k].fetched|
  {
    var ph := s.calls[k];
    p' := if lost || ph.fetched == [] then p else ph.begin + |ph.fetched|;
    if ph.fetched != [] {
      assert ph.fetched[|ph.fetched| - 1] == s.ids[ph.begin + |ph.fetched| - 1];
      assert IsId(read, s.ids[ph.begin + |ph.fetched| - 1]);
    }
  }

  /** The text a call goes on from stands for a place up to which everything was delivered. */
  ghost predicate ChosenWithin(ids: seq<string>, lastID: string, h: nat) {
    lastID == "0" || lastID == "-" || exists q: nat :: q <= h && StoredAt(ids, lastID, q)
  }

  /** No call is ahead of what was delivered, but one with a place named that has yet to deliver. */
  ghost predicate Behind(ids: seq<string>, ph: Phase, h: nat) {
    match ph
    case Chosen(lastID, _, named) => named || ChosenWithin(ids, lastID, h)
    case Delivering(begin, _, at, named) => (named && at == 0) || begin + at <= h
    case Finished => true
  }

  /** Exactly the first h entries were delivered, and the offset is among them. */
  ghost predicate Inv(read: Reading, s: State, p: nat, h: nat) {
    && Shape(read, s, p) && p <= h <= |s.ids|
    && (forall i: nat :: i in s.delivered <==> i < h)
    && forall k | k in s.calls :: Behind(s.ids, s.calls[k], h)
  }

  /** A call is to deliver its first message, and one before it in the stream was not delivered. */
  ghost predicate Jumps(s: State, e: Step) {
    && e.Deliver? && !e.fails && e.k in s.calls && s.calls[e.k].Delivering?
    && s.calls[e.k].at == 0 < |s.calls[e.k].fetched|
    && exists i: nat :: i < s.calls[e.k].begin && i !in s.delivered
  }

  lemma StoredStays(ids: seq<string>, id: string, stored: string, p: nat)
    requires StoredAt(ids, stored, p)
    ensures StoredAt(ids + [id], stored, p)
  {
  }

  lemma BehindStays(ids: seq<string>, id: string, ph: Phase, h: nat)
    requires Behind(ids, ph, h)
    ensures Behind(ids + [id], ph, h)
  {
    if ph.Chosen? && !ph.named && ph.lastID != "0" && ph.lastID != "-" {
      var q: nat :| q <= h && StoredAt(ids, ph.lastID, q);
      StoredStays(ids, id, ph.lastID, q);
    }
  }

  lemma AllBehindStay(s: State, id: string, h: nat)
    requires forall k | k in s.calls :: Behind(s.ids, s.calls[k], h)
    ensures forall k | k in s.calls :: Behind(s.ids + [id], s.calls[k], h)
  {
    forall k | k in s.calls
      ensures Behind(s.ids + [id], s.calls[k], h)
    {
      BehindStays(s.ids, id, s.calls[k], h);
    }
  }

  /** What a call without a place named fetches starts where everything before was delivered. */
  lemma FetchedBehind(read: Reading, ids: seq<string>, ph: Phase, fails: bool, h: nat)
    requires Increasing(read, ids) && ph.Chosen? && ph.limit > 0 && Behind(ids, ph, h)
    ensures Behind(ids, Fetching(read, ids, ph, fails), h)
  {
    if !ph.named && ph.lastID != "0" && ph.lastID != "-" {
      var q: nat :| q <= h && StoredAt(ids, ph.lastID, q);
      RangeFromPosition(read, ids, ph.lastID, q, ph.limit);
    }
  }

  lemma StepKeepsInv(read: Reading, s: State, e: Step, p: nat, h: nat) returns (p': nat, h': nat)
    requires Inv(read, s, p, h) && !Jumps(s, e) && Increasing(read, Apply(read, s, e).ids)
    ensures Inv(read, Apply(read, s, e), p', h') && h <= h'
  {
    p' := StepKeepsShape(read, s, e, p);
    h' := h;
    match e
    case Publish(id) => AllBehindStay(s, id, h);
    case Begin(_, _, _) => assert StoredAt(s.ids, "", 0);
    case Fetch(k, fails) =>
      if k in s.calls && s.calls[k].Chosen? {
        FetchedBehind(read, s.ids, s.calls[k], fails, h);
      }
    case Deliver(k, fails) => h' := DeliverKeepsInv(read, s, k, fails, p, h);
    case Save(k, lost) =>
      if ReadyToSave(s, k) {
        p' := SaveMoves(read, s, k, lost, p);
      }
  }

  lemma DeliverKeepsInv(read: Reading, s: State, k: nat, fails: bool, p: nat, h: nat) returns (h': nat)
    requires Inv(read, s, p, h) && !Jumps(s, Deliver(k, fails))
    ensures Inv(read, Apply(read, s, Deliver(k, fails)), p, h') && h <= h'
  {
    var s' := Apply(read, s, Deliver(k, fails));
    if s'.delivered != s.delivered {
      assert s.calls[k].begin + s.calls[k].at <= h by {
        assert h !in s.delivered;
      }
    }
    h' := if h in s'.delivered then h + 1 else h;
    assert forall j | j in s.calls :: Behind(s.ids, s.calls[j], h');
  }

  // ---------------------------------------------------------------- theorems

  /** Whatever precedes a delivered entry was delivered. */
  ghost predicate NoGap(delivered: set<nat>) {
    forall i: nat, j: nat | i < j && j in delivered :: i in delivered
  }

  /** There was no gap at any time. */
  ghost predicate NeverGap(read: Reading, steps: seq<Step>) {
    NoGap(Run(read, START, steps).delivered) && (steps != [] ==> NeverGap(read, steps[..|steps| - 1]))
  }

  ghost predicate NeverJumps(read: Reading, steps: seq<Step>) {
    steps != [] ==>
      NeverJumps(read, steps[..|steps| - 1]) && !Jumps(Run(read, START, steps[..|steps| - 1]), steps[|steps| - 1])
  }

  lemma IncreasingSoFar(read: Reading, steps: seq<Step>)
    requires steps != [] && Increasing(read, Run(read, START, steps).ids)
    ensures Increasing(read, Run(read, START, steps[..|steps| - 1]).ids)
  {
    IncreasingBeforeStep(read, Run(read, START, steps[..|steps| - 1]), steps[|steps| - 1]);
  }

  lemma IncreasingBeforeStep(read: Reading, s: State, e: Step)
    requires Increasing(read, Apply(read, s, e).ids)
    ensures Increasing(read, s.ids)
  {
    if e.Publish? {
      IncreasingBefore(read, s.ids, e.id);
    }
  }

  /** In every reachable state the offset stands for a place in the stream. */
  lemma {:induction false} OffsetHasPlace(read: Reading, steps: seq<Step>) returns (p: nat)
    requires Increasing(read, Run(read, START, steps).ids)
    ensures Shape(read, Run(read, START, steps), p)
  {
    if steps == [] {
      p := 0;
    } else {
      IncreasingSoFar(read, steps);
      p := OffsetHasPlace(read, steps[..|steps| - 1]);
      p := StepKeepsShape(read, Run(read, START, steps[..|steps| - 1]), steps[|steps| - 1], p);
    }
  }

  /**
   * However calls overlap, and whatever fails: unless one jumps, exactly the first h entries were
   * delivered, and the offset is among them.
   */
  lemma {:induction false} DeliveredByOverlap(read: Reading, steps: seq<Step>) returns (p: nat, h: nat)
    requires NeverJumps(read, steps) && Increasing(read, Run(read, START, steps).ids)
    ensures Inv(read, Run(read, START, steps), p, h)
  {
    if steps == [] {
      p, h := 0, 0;
    } else {
      var before, e := steps[..|steps| - 1], steps[|steps| - 1];
      IncreasingSoFar(read, steps);
      p, h := DeliveredByOverlap(read, before);
      p, h := StepKeepsInv(read, Run(read, START, before), e, p, h);
    }
  }

  lemma JumpLeavesGap(read: Reading, s: State, e: Step)
    requires Jumps(s, e)
    ensures !NoGap(Apply(read, s, e).delivered)
  {
    var i: nat :| i < s.calls[e.k].begin && i !in s.delivered;
    assert s.calls[e.k].begin in Apply(read, s, e).delivered && i !in Apply(read, s, e).delivered;
  }

  /** A gap is left at some time exactly when some call jumps. */
  lemma {:induction false} NothingIsSkippedByOverlap(read: Reading, steps: seq<Step>)
    requires Increasing(read, Run(read, START, steps).ids)
    ensures NeverGap(read, steps) <==> NeverJumps(read, steps)
  {
    if steps != [] {
      var before, e := steps[..|steps| - 1], steps[|steps| - 1];
      IncreasingSoFar(read, steps);
      NothingIsSkippedByOverlap(read, before);
      if Jumps(Run(read, START, before), e) {
        JumpLeavesGap(read, Run(read, START, before), e);
      } else if NeverJumps(read, before) {
        var p, h := DeliveredByOverlap(read, steps);
      }
    }
  }

  /** A call without a place named never is the first to jump. */
  lemma JumperIsNamed(read: Reading, s: State, e: Step, p: nat, h: nat)
    requires Inv(read, s, p, h) && Jumps(s, e)
    ensures s.calls[e.k].named
  {
    var i: nat :| i < s.calls[e.k].begin && i !in s.delivered;
  }

  /** FromID, if given, means the beginning. */
  predicate Plain(e: Step) {
    e.Begin? ==> !Names(e.opts)
  }

  ghost predicate NoneNamed(s: State) {
    forall k | k in s.calls && !s.calls[k].Finished? :: !s.calls[k].named
  }

  /** So calls without a FromID, or with one that means the beginning, never jump however they overlap. */
  lemma {:induction false} PlainOverlapNeverJumps(read: Reading, steps: seq<Step>)
    requires forall i | 0 <= i < |steps| && steps[i].Begin? :: steps[i].opts.fromID in {"", "0", "-"}
    requires Increasing(read, Run(read, START, steps).ids)
    ensures NeverJumps(read, steps) && NoneNamed(Run(read, START, steps))
  {
    if steps != [] {
      var before, e := steps[..|steps| - 1], steps[|steps| - 1];
      IncreasingSoFar(read, steps);
      PlainOverlapNeverJumps(read, before);
      var p, h := DeliveredByOverlap(read, before);
      if Jumps(Run(read, START, before), e) {
        JumperIsNamed(read, Run(read, START, before), e, p, h);
      }
    }
  }

  /** In every reachable state a save moves the offset back exactly when the call's block ends before the offset as it now is. */
  lemma SaveMovesBackIff(read: Reading, s: State, k: nat, lost: bool, p: nat, p': nat)
    requires Shape(read, s, p) && ReadyToSave(s, k)
    requires StoredAt(s.ids, Apply(read, s, Save(k, lost)).stored, p')
    ensures p' < p <==> !lost && s.calls[k].fetched != [] && s.calls[k].begin + |s.calls[k].fetched| < p
  {
    var q := SaveMoves(read, s, k, lost, p);
    PositionIsUnique(read, s.ids, Apply(read, s, Save(k, lost)).stored, p', q);
  }

  predicate Faultless(e: Step) {
    match e
    case Publish(_) => true
    case Begin(_, _, offsetReadFails) => !offsetReadFails
    case Fetch(_, fails) => !fails
    case Deliver(_, fails) => !fails
    case Save(_, lost) => !lost
  }

  /** The steps lead from s to m without a fault, and no call in them names a place to start from. */
  ghost predicate Leads(read: Reading, s: State, steps: seq<Step>, m: State) {
    Run(read, s, steps) == m && forall i | 0 <= i < |steps| :: Plain(steps[i]) && Faultless(steps[i])
  }

  lemma LeadsOn(read: Reading, s: State, steps: seq<Step>, m: State, e: Step) returns (steps': seq<Step>, m': State)
    requires Leads(read, s, steps, m) && Plain(e) && Faultless(e)
    ensures steps' == steps + [e] && m' == Apply(read, m, e) && Leads(read, s, steps', m')
  {
    steps', m' := steps + [e], Apply(read, m, e);
    assert steps'[..|steps|] == steps;
  }

  /** A call with nothing stored, the limit given and the stream as it is fetches from the beginning. */
  lemma Fetches(read: Reading, s: State, steps: seq<Step>, m: State, k: nat, limit: nat) returns (steps': seq<Step>, m': State)
    requires Leads(read, s, steps, m) && k !in m.calls && m.stored == "" && 0 < limit <= |m.ids|
    ensures m' == To(m, k, Delivering(0, m.ids[..limit], 0, false)) && Leads(read, s, steps', m')
  {
    var m1;
    steps', m1 := LeadsOn(read, s, steps, m, Begin(k, RecoveryOptions("", limit), false));
    steps', m' := LeadsOn(read, s, steps', m1, Fetch(k, false));
    assert m.ids[0..limit] == m.ids[..limit];
  }

  lemma {:induction false} Delivers(read: Reading, s: State, steps: seq<Step>, m: State, k: nat, n: nat) returns (steps': seq<Step>, m': State)
    requires Leads(read, s, steps, m) && k in m.calls && m.calls[k].Delivering? && m.calls[k].at + n == |m.calls[k].fetched|
    ensures Leads(read, s, steps', m') && m'.ids == m.ids && m'.stored == m.stored
    ensures m'.calls == m.calls[k := m.calls[k].(at := |m.calls[k].fetched|)]
    decreases n
  {
    if n == 0 {
      steps', m' := steps, m;
      assert m.calls[k := m.calls[k]] == m.calls;
    } else {
      var m1;
      steps', m1 := LeadsOn(read, s, steps, m, Deliver(k, false));
      steps', m' := Delivers(read, s, steps', m1, k, n - 1);
    }
  }

  /**
   * Two calls without a fault and without a FromID, the one with the lower limit slower to save:
   * the offset moves back from the second entry to the first.
   */
  lemma OverlapMovesBack(read: Reading, ids: seq<string>) returns (steps: seq<Step>, before: State, after: State)
    requires Increasing(read, ids) && |ids| == 2
    ensures Leads(read, State(ids, "", map[], {}), steps, before)
    ensures Leads(read, State(ids, "", map[], {}), steps + [Save(0, false)], after)
    ensures Run(read, State(ids, "", map[], {}), steps) == before && Apply(read, before, Save(0, false)) == after
    ensures forall i | 0 <= i < |steps| :: Faultless(steps[i]) && (steps[i].Begin? ==> steps[i].opts.fromID in {"", "0", "-"})
    ensures before.stored == ids[1] && after.stored == ids[0]
  {
    var s := State(ids, "", map[], {});
    assert IsId(read, ids[0]) && IsId(read, ids[1]);
    assert Leads(read, s, [], s);
    steps, before := Fetches(read, s, [], s, 0, 1);
    steps, before := Fetches(read, s, steps, before, 1, 2);
    steps, before := Delivers(read, s, steps, before, 0, 1);
    steps, before := Delivers(read, s, steps, before, 1, 2);
    steps, before := LeadsOn(read, s, steps, before, Save(1, false));
    var all;
    all, after := LeadsOn(read, s, steps, before, Save(0, false));
  }
}
