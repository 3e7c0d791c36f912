/**
 * What the deduplication cache of engine/broker.go holds and answers, on values: its entries in
 * order, proved to answer as a query over the whole log of accepts does. The class that keeps
 * these entries in three structures is in DedupeCaches.
 *
 * Each call is given the clock readings it makes: IsDuplicate one to check an age and, when it
 * accepts, one more to record the time.
 */
module Dedupe {
  datatype Entry = Entry(id: string, at: int)

  // ---------------------------------------------------------------- filtering

  function Select(es: seq<Entry>, keep: Entry -> bool): (r: seq<Entry>)
    ensures |r| <= |es|
    ensures forall e :: e in r <==> e in es && keep(e)
  {
    if es == [] then []
    else if keep(es[0]) then [es[0]] + Select(es[1..], keep)
    else Select(es[1..], keep)
  }

  lemma {:induction false} SelectAppend(es: seq<Entry>, fs: seq<Entry>, keep: Entry -> bool)
    ensures Select(es + fs, keep) == Select(es, keep) + Select(fs, keep)
  {
    if es == [] {
      assert es + fs == fs;
    } else {
      assert (es + fs)[1..] == es[1..] + fs;
      SelectAppend(es[1..], fs, keep);
    }
  }

  lemma {:induction false} SelectAgrees(es: seq<Entry>, p: Entry -> bool, q: Entry -> bool)
    requires forall e | e in es :: p(e) == q(e)
    ensures Select(es, p) == Select(es, q)
  {
    if es != [] {
      assert es[0] in es;
      assert forall e | e in es[1..] :: e in es;
      SelectAgrees(es[1..], p, q);
    }
  }

  lemma {:induction false} SelectAll(es: seq<Entry>, keep: Entry -> bool)
    requires forall e | e in es :: keep(e)
    ensures Select(es, keep) == es
  {
    if es != [] {
      assert es[0] in es;
      assert forall e | e in es[1..] :: e in es;
      SelectAll(es[1..], keep);
    }
  }

  lemma {:induction false} SelectTwice(es: seq<Entry>, p: Entry -> bool, q: Entry -> bool)
    ensures Select(Select(es, p), q) == Select(es, e => p(e) && q(e))
  {
    if es != [] {
      SelectTwice(es[1..], p, q);
      if p(es[0]) {
        assert ([es[0]] + Select(es[1..], p))[1..] == Select(es[1..], p);
      }
    }
  }

  // ---------------------------------------------------------------- the reference: a log of accepts

  /** Some accept of id is less than ttl old and has fewer than size accepts after it. */
  predicate Recent(log: seq<Entry>, id: string, now: int, size: int, ttl: int) {
    exists i | 0 <= i < |log| :: log[i].id == id && now - log[i].at < ttl && |log| - 1 - i < size
  }

  function Record(log: seq<Entry>, id: string, checked: int, stored: int, size: int, ttl: int): seq<Entry> {
    if Recent(log, id, checked, size, ttl) then log else log + [Entry(id, stored)]
  }

  // ---------------------------------------------------------------- the cache's contents, oldest first

  predicate Known(es: seq<Entry>, id: string, now: int, ttl: int) {
    exists i | 0 <= i < |es| :: es[i].id == id && now - es[i].at < ttl
  }

  function Without(es: seq<Entry>, id: string): seq<Entry> {
    Select(es, (e: Entry) => e.id != id)
  }

  function Newest(es: seq<Entry>, size: nat): seq<Entry> {
    if |es| > size then es[|es| - size..] else es
  }

  function Checked(es: seq<Entry>, id: string, checked: int, stored: int, size: nat, ttl: int): seq<Entry> {
    if Known(es, id, checked, ttl) then es else Newest(Without(es, id) + [Entry(id, stored)], size)
  }

  function Swept(es: seq<Entry>, now: int, ttl: int): seq<Entry> {
    Select(es, (e: Entry) => now - e.at <= ttl)
  }

  // ---------------------------------------------------------------- runs

  datatype Call = Check(id: string, checked: int, stored: int) | Sweep(now: int)

  function Began(c: Call): int {
    if c.Check? then c.checked else c.now
  }

  function Ended(c: Call): int {
    if c.Check? then c.stored else c.now
  }

  /** The clock never goes back, within a call or from one call to the next. */
  predicate WellTimed(calls: seq<Call>) {
    && (forall i | 0 <= i < |calls| :: Began(calls[i]) <= Ended(calls[i]))
    && (forall i | 0 < i < |calls| :: Ended(calls[i - 1]) <= Began(calls[i]))
  }

  function CacheStep(es: seq<Entry>, c: Call, size: nat, ttl: int): seq<Entry> {
    match c
    case Check(id, checked, stored) => Checked(es, id, checked, stored, size, ttl)
    case Sweep(now) => Swept(es, now, ttl)
  }

  function CacheAfter(calls: seq<Call>, size: nat, ttl: int): seq<Entry> {
    if calls == [] then []
    else CacheStep(CacheAfter(calls[..|calls| - 1], size, ttl), calls[|calls| - 1], size, ttl)
  }

  /** The same call as the simple log sees it; cleaning up is invisible to it. */
  function LogStep(log: seq<Entry>, c: Call, size: nat, ttl: int): seq<Entry> {
    match c
    case Check(id, checked, stored) => Record(log, id, checked, stored, size, ttl)
    case Sweep(_) => log
  }

  function LogAfter(calls: seq<Call>, size: nat, ttl: int): seq<Entry> {
    if calls == [] then []
    else LogStep(LogAfter(calls[..|calls| - 1], size, ttl), calls[|calls| - 1], size, ttl)
  }

  // ---------------------------------------------------------------- the coupling

  /** Times along es never decrease and none is later than the clock. */
  ghost predicate Ordered(es: seq<Entry>, clock: int) {
    && (forall i, j | 0 <= i < j < |es| :: es[i].at <= es[j].at)
    && (forall i | 0 <= i < |es| :: es[i].at <= clock)
  }

  ghost predicate AllStale(es: seq<Entry>, clock: int, ttl: int) {
    forall e | e in es :: clock - e.at >= ttl
  }

  /**
   * The cache is some stale entries followed by log[j..], all of it still fresh; the accepts
   * before j are stale or have size accepts after them.
   */
  ghost predicate CoupledBy(stale: seq<Entry>, j: nat, es: seq<Entry>, log: seq<Entry>, clock: int, size: nat, ttl: int) {
    && j <= |log|
    && es == stale + log[j..]
    && Ordered(log, clock)
    && AllStale(stale, clock, ttl)
    && (forall i | j <= i < |log| :: clock - log[i].at < ttl)
    && (forall i | 0 <= i < j :: clock - log[i].at >= ttl || |log| - 1 - i >= size)
  }

  ghost predicate Coupled(es: seq<Entry>, log: seq<Entry>, clock: int, size: nat, ttl: int) {
    && |es| <= size
    && exists stale: seq<Entry>, j: nat :: CoupledBy(stale, j, es, log, clock, size, ttl)
  }

  /** As the clock advances, a prefix of the fresh part goes stale. */
  lemma TimePasses(stale: seq<Entry>, j: nat, es: seq<Entry>, log: seq<Entry>, clock: int, later: int, size: nat, ttl: int)
    returns (stale': seq<Entry>, k: nat)
    requires CoupledBy(stale, j, es, log, clock, size, ttl) && clock <= later
    ensures CoupledBy(stale', k, es, log, later, size, ttl) && k >= j
  {
    k := j;
    while k < |log| && later - log[k].at >= ttl
      invariant j <= k <= |log|
      invariant forall i | j <= i < k :: later - log[i].at >= ttl
    {
      k := k + 1;
    }
    stale' := stale + log[j..k];
    assert log[j..] == log[j..k] + log[k..];
    forall e | e in log[j..k]
      ensures later - e.at >= ttl
    {
      var i :| j <= i < k && log[i] == e;
    }
  }

  /** The cache answers exactly as the log does. */
  lemma SameAnswer(es: seq<Entry>, log: seq<Entry>, id: string, clock: int, now: int, size: nat, ttl: int)
    requires Coupled(es, log, clock, size, ttl) && clock <= now
    ensures Known(es, id, now, ttl) <==> Recent(log, id, now, size, ttl)
  {
    var stale0: seq<Entry>, j0: nat :| CoupledBy(stale0, j0, es, log, clock, size, ttl);
    var stale, j := TimePasses(stale0, j0, es, log, clock, now, size, ttl);
    assert forall i | 0 <= i < |stale| :: stale[i] in stale && now - stale[i].at >= ttl;
    if Known(es, id, now, ttl) {
      var i :| 0 <= i < |es| && es[i].id == id && now - es[i].at < ttl;
      assert es[i] == log[j + i - |stale|];
    }
    if Recent(log, id, now, size, ttl) {
      var i :| 0 <= i < |log| && log[i].id == id && now - log[i].at < ttl && |log| - 1 - i < size;
      assert log[i] == es[|stale| + i - j];
    }
  }

  /** Filtering that spares the fresh part only thins the stale part. */
  lemma SelectSparingFresh(stale: seq<Entry>, j: nat, es: seq<Entry>, log: seq<Entry>, clock: int, size: nat, ttl: int, keep: Entry -> bool)
    requires CoupledBy(stale, j, es, log, clock, size, ttl)
    requires forall i | j <= i < |log| :: keep(log[i])
    ensures CoupledBy(Select(stale, keep), j, Select(es, keep), log, clock, size, ttl)
  {
    SelectAppend(stale, log[j..], keep);
    SelectAll(log[j..], keep);
  }

  /** The new entry joins the fresh part. */
  lemma JoinKeepsCoupling(stale: seq<Entry>, j: nat, es: seq<Entry>, log: seq<Entry>, e: Entry, size: nat, ttl: int)
    requires CoupledBy(stale, j, es, log, e.at, size, ttl) && 0 < ttl
    ensures CoupledBy(stale, j, es + [e], log + [e], e.at, size, ttl)
  {
    assert (log + [e])[j..] == log[j..] + [e];
  }

  /** One entry too many: the front of the cache is stale, or has size accepts after it. */
  lemma EvictKeepsCoupling(stale: seq<Entry>, j: nat, es: seq<Entry>, log: seq<Entry>, clock: int, size: nat, ttl: int)
    requires CoupledBy(stale, j, es, log, clock, size, ttl) && |es| == size + 1
    ensures Coupled(es[1..], log, clock, size, ttl)
  {
    if stale != [] {
      assert es[1..] == stale[1..] + log[j..];
      assert CoupledBy(stale[1..], j, es[1..], log, clock, size, ttl);
    } else {
      assert es == log[j..];
      assert es[1..] == log[j + 1..];
      assert CoupledBy([], j + 1, es[1..], log, clock, size, ttl);
    }
  }

  /** Accepting: the new entry joins, and at most one entry is evicted from the front. */
  lemma AppendKeepsCoupling(stale: seq<Entry>, j: nat, es: seq<Entry>, log: seq<Entry>, e: Entry, size: nat, ttl: int)
    requires CoupledBy(stale, j, es, log, e.at, size, ttl) && 0 < ttl && |es| <= size
    ensures Coupled(Newest(es + [e], size), log + [e], e.at, size, ttl)
  {
    JoinKeepsCoupling(stale, j, es, log, e, size, ttl);
    if |es| == size {
      EvictKeepsCoupling(stale, j, es + [e], log + [e], e.at, size, ttl);
    }
  }

  lemma CheckKeepsCoupling(es: seq<Entry>, log: seq<Entry>, clock: int, id: string, checked: int, stored: int, size: nat, ttl: int)
    requires Coupled(es, log, clock, size, ttl) && clock <= checked <= stored && size > 0 && ttl > 0
    ensures Coupled(Checked(es, id, checked, stored, size, ttl), Record(log, id, checked, stored, size, ttl), stored, size, ttl)
  {
    SameAnswer(es, log, id, clock, checked, size, ttl);
    var stale0: seq<Entry>, j0: nat :| CoupledBy(stale0, j0, es, log, clock, size, ttl);
    var stale1, j1 := TimePasses(stale0, j0, es, log, clock, checked, size, ttl);
    var stale, j := TimePasses(stale1, j1, es, log, checked, stored, size, ttl);
    if !Known(es, id, checked, ttl) {
      forall i | j <= i < |log|
        ensures log[i].id != id
      {
        assert log[i] == es[|stale1| + i - j1];
      }
      SelectSparingFresh(stale, j, es, log, stored, size, ttl, (e: Entry) => e.id != id);
      AppendKeepsCoupling(Select(stale, (e: Entry) => e.id != id), j, Without(es, id), log, Entry(id, stored), size, ttl);
    }
  }

  lemma SweepKeepsCoupling(es: seq<Entry>, log: seq<Entry>, clock: int, now: int, size: nat, ttl: int)
    requires Coupled(es, log, clock, size, ttl) && clock <= now
    ensures Coupled(Swept(es, now, ttl), log, now, size, ttl)
  {
    var stale0: seq<Entry>, j0: nat :| CoupledBy(stale0, j0, es, log, clock, size, ttl);
    var stale, j := TimePasses(stale0, j0, es, log, clock, now, size, ttl);
    SelectSparingFresh(stale, j, es, log, now, size, ttl, (e: Entry) => now - e.at <= ttl);
  }

  lemma CallKeepsCoupling(es: seq<Entry>, log: seq<Entry>, clock: int, c: Call, size: nat, ttl: int)
    requires Coupled(es, log, clock, size, ttl) && clock <= Began(c) <= Ended(c) && size > 0 && ttl > 0
    ensures Coupled(CacheStep(es, c, size, ttl), LogStep(log, c, size, ttl), Ended(c), size, ttl)
  {
    match c
    case Check(id, checked, stored) => CheckKeepsCoupling(es, log, clock, id, checked, stored, size, ttl);
    case Sweep(now) => SweepKeepsCoupling(es, log, clock, now, size, ttl);
  }

  lemma EmptyIsCoupled(clock: int, size: nat, ttl: int)
    ensures Coupled([], [], clock, size, ttl)
  {
    assert CoupledBy([], 0, [], [], clock, size, ttl);
  }

  /** A run less its last call is well timed, and ends at some time before that call. */
  lemma WellTimedSoFar(calls: seq<Call>) returns (before: int)
    requires WellTimed(calls) && calls != []
    ensures var earlier := calls[..|calls| - 1];
            WellTimed(earlier) && (earlier != [] ==> before == Ended(earlier[|earlier| - 1]))
    ensures before <= Began(calls[|calls| - 1]) <= Ended(calls[|calls| - 1])
  {
    var last := |calls| - 1;
    before := if last == 0 then Began(calls[0]) else Ended(calls[last - 1]);
  }

  lemma {:induction false} RunKeepsCoupling(calls: seq<Call>, clock: int, size: nat, ttl: int)
    returns (es: seq<Entry>, log: seq<Entry>)
    requires WellTimed(calls) && size > 0 && ttl > 0
    requires calls != [] ==> clock == Ended(calls[|calls| - 1])
    ensures es == CacheAfter(calls, size, ttl) && log == LogAfter(calls, size, ttl)
    ensures Coupled(es, log, clock, size, ttl)
  {
    if calls == [] {
      EmptyIsCoupled(clock, size, ttl);
      return [], [];
    } else {
      var last := |calls| - 1;
      var before := WellTimedSoFar(calls);
      var es0, log0 := RunKeepsCoupling(calls[..last], before, size, ttl);
      CallKeepsCoupling(es0, log0, before, calls[last], size, ttl);
      es, log := CacheStep(es0, calls[last], size, ttl), LogStep(log0, calls[last], size, ttl);
    }
  }

  /** Main theorem: after any run, the cache says "duplicate" exactly when the log does. */
  lemma CacheRefinesLog(calls: seq<Call>, id: string, now: int, size: nat, ttl: int)
    requires WellTimed(calls) && size > 0 && ttl > 0
    requires calls != [] ==> Ended(calls[|calls| - 1]) <= now
    ensures Known(CacheAfter(calls, size, ttl), id, now, ttl) <==> Recent(LogAfter(calls, size, ttl), id, now, size, ttl)
  {
    var clock := if calls == [] then now else Ended(calls[|calls| - 1]);
    var es, log := RunKeepsCoupling(calls, clock, size, ttl);
    SameAnswer(es, log, id, clock, now, size, ttl);
  }

  // ---------------------------------------------------------------- consequences

  /** Two accepts of one ID are ttl apart or have at least size accepts between them. */
  ghost predicate Spaced(log: seq<Entry>, size: nat, ttl: int) {
    forall i, j | 0 <= i < j < |log| && log[i].id == log[j].id ::
      log[j].at - log[i].at >= ttl || j - 1 - i >= size
  }

  lemma RecordKeepsSpacing(log: seq<Entry>, id: string, checked: int, stored: int, size: nat, ttl: int)
    requires Spaced(log, size, ttl) && checked <= stored
    ensures Spaced(Record(log, id, checked, stored, size, ttl), size, ttl)
  {
    var log' := Record(log, id, checked, stored, size, ttl);
    forall i, j | 0 <= i < j < |log'| && log'[i].id == log'[j].id
      ensures log'[j].at - log'[i].at >= ttl || j - 1 - i >= size
    {
      if j == |log| {
        assert log'[i] == log[i];
      }
    }
  }

  lemma {:induction false} AcceptsAreSpaced(calls: seq<Call>, size: nat, ttl: int)
    requires WellTimed(calls)
    ensures Spaced(LogAfter(calls, size, ttl), size, ttl)
  {
    if calls != [] {
      var last := |calls| - 1;
      AcceptsAreSpaced(calls[..last], size, ttl);
      if calls[last].Check? {
        RecordKeepsSpacing(LogAfter(calls[..last], size, ttl), calls[last].id, calls[last].checked, calls[last].stored, size, ttl);
      }
    }
  }

  lemma {:induction false} SelectKeepsOrder(es: seq<Entry>, clock: int, keep: Entry -> bool)
    requires Ordered(es, clock)
    ensures Ordered(Select(es, keep), clock)
  {
    if es != [] {
      SelectKeepsOrder(es[1..], clock, keep);
      var rest := Select(es[1..], keep);
      forall i | 0 <= i < |rest|
        ensures es[0].at <= rest[i].at
      {
        assert rest[i] in es[1..];
      }
    }
  }

  /** Along the order of any reachable cache, times never decrease and the size bound holds. */
  lemma {:induction false} CacheIsOrdered(calls: seq<Call>, clock: int, size: nat, ttl: int)
    requires WellTimed(calls) && (calls != [] ==> clock == Ended(calls[|calls| - 1]))
    ensures Ordered(CacheAfter(calls, size, ttl), clock) && |CacheAfter(calls, size, ttl)| <= size
  {
    if calls != [] {
      var last := |calls| - 1;
      var before := WellTimedSoFar(calls);
      CacheIsOrdered(calls[..last], before, size, ttl);
      var es := CacheAfter(calls[..last], size, ttl);
      match calls[last]
      case Check(id, checked, stored) => CheckKeepsOrder(es, before, id, checked, stored, size, ttl);
      case Sweep(now) => SelectKeepsOrder(es, before, (e: Entry) => now - e.at <= ttl);
    }
  }

  lemma CheckKeepsOrder(es: seq<Entry>, clock: int, id: string, checked: int, stored: int, size: nat, ttl: int)
    requires Ordered(es, clock) && |es| <= size && clock <= stored
    ensures Ordered(Checked(es, id, checked, stored, size, ttl), stored)
    ensures |Checked(es, id, checked, stored, size, ttl)| <= size
  {
    var kept := Without(es, id);
    SelectKeepsOrder(es, clock, (e: Entry) => e.id != id);
    JoinKeepsOrder(kept, clock, Entry(id, stored));
    NewestKeepsOrder(kept + [Entry(id, stored)], stored, size);
  }

  lemma JoinKeepsOrder(es: seq<Entry>, clock: int, e: Entry)
    requires Ordered(es, clock) && clock <= e.at
    ensures Ordered(es + [e], e.at)
  {
  }

  lemma NewestKeepsOrder(es: seq<Entry>, clock: int, size: nat)
    requires Ordered(es, clock)
    ensures Ordered(Newest(es, size), clock)
  {
  }

  /** Cleaning up removes a prefix of the order, and it is the entries older than ttl. */
  lemma {:induction false} SweepDropsPrefix(es: seq<Entry>, clock: int, now: int, ttl: int) returns (k: nat)
    requires Ordered(es, clock)
    ensures k <= |es| && Swept(es, now, ttl) == es[k..]
    ensures forall i | 0 <= i < |es| :: i < k <==> now - es[i].at > ttl
  {
    if es == [] || now - es[0].at <= ttl {
      k := 0;
      forall e | e in es
        ensures now - e.at <= ttl
      {
        var i :| 0 <= i < |es| && es[i] == e;
        assert es[0].at <= es[i].at;
      }
      SelectAll(es, (e: Entry) => now - e.at <= ttl);
    } else {
      var k' := SweepDropsPrefix(es[1..], clock, now, ttl);
      k := k' + 1;
      assert es[1..][k'..] == es[k..];
      forall i | 0 <= i < |es|
        ensures i < k <==> now - es[i].at > ttl
      {
        if i > 0 {
          assert es[i] == es[1..][i - 1];
        }
      }
    }
  }

  /** An ID just accepted is in the cache, at the back, whatever was evicted. */
  lemma AcceptedIsKept(es: seq<Entry>, id: string, checked: int, stored: int, size: nat, ttl: int)
    requires size > 0 && !Known(es, id, checked, ttl)
    ensures var es' := Checked(es, id, checked, stored, size, ttl);
            && es' != [] && es'[|es'| - 1] == Entry(id, stored)
            && forall i | 0 <= i < |es'| - 1 :: es'[i] in es && es'[i].id != id
  {
    var kept := Without(es, id);
    var es' := Checked(es, id, checked, stored, size, ttl);
    forall i | 0 <= i < |es'| - 1
      ensures es'[i] in es && es'[i].id != id
    {
      assert es'[i] in kept;
    }
  }
}
