/**
 * Which connection a subscription reads from (redis/client.go:303-357, engine/broker.go:348-381).
 * PSUBSCRIBE goes through Do, which puts its connection back at the end of the pool's queue; every
 * ReadPubSubMessage takes the connection at the front and keeps it.
 */
module Subscriptions {
  import opened Decimal
  import opened Pool

  /** An open pool whose connections are alive, and whose threads from t on were never used. */
  ghost predicate Quiet(size: int, s: State, t: Thread) {
    && Inv(size, s) && !s.pool.closed
    && (forall c | c in s.pool.conns :: c !in s.dead)
    && forall u | u in s.threads :: u < t
  }

  /** The steps of a Get with nobody else about and so many connections in the queue; a dial succeeds. */
  function GetSteps(t: Thread, queued: nat): seq<Step> {
    if queued == 0 then DialSteps(t, true) else [GetBegin(t), TryTake(t), TestTaken(t)]
  }

  function PutSteps(t: Thread): seq<Step> {
    [PutBegin(t), PutCheck(t), PutSend(t)]
  }

  /** n reads one after another, each a Get without a Put, by threads t, t + 1, ... */
  function ReadSteps(t: Thread, queued: nat, n: nat): seq<Step>
    decreases n
  {
    if n == 0 then [] else GetSteps(t, queued) + ReadSteps(t + 1, if queued == 0 then 0 else queued - 1, n - 1)
  }

  /** PSUBSCRIBE through Do, by thread t, and then n reads. */
  function LoopSteps(t: Thread, queued: nat, n: nat): seq<Step> {
    GetSteps(t, queued) + PutSteps(t) + ReadSteps(t + 1, Turn(queued), n)
  }

  /** The queue after Do: as long as it was, or one connection if it was empty. */
  function Turn(queued: nat): nat {
    if queued == 0 then 1 else queued
  }

  /** A Get with nobody else about: the front of the queue, or a new connection. */
  lemma GetAlone(size: int, s: State, t: Thread) returns (steps: seq<Step>, s': State)
    requires Quiet(size, s, t) && (s.pool.conns == [] ==> s.pool.created < size)
    ensures steps == GetSteps(t, |s.pool.conns|) && Runs(size, s, steps, s') && Quiet(size, s', t + 1)
    ensures s' == if s.pool.conns == []
                  then To(s.(pool := s.pool.(created := s.pool.created + 1), next := s.next + 1), t, Held(s.next))
                  else To(s.(pool := s.pool.(conns := s.pool.conns[1..])), t, Held(s.pool.conns[0]))
  {
    if s.pool.conns == [] {
      steps, s' := DialingGet(size, s, t, true);
    } else {
      steps, s' := TakeFront(size, s, t);
    }
    RunKeepsInv(size, s, steps, s');
    assert forall c | c in s'.pool.conns :: c in s.pool.conns;
  }

  lemma TakeFront(size: int, s: State, t: Thread) returns (steps: seq<Step>, s': State)
    requires Quiet(size, s, t) && s.pool.conns != []
    ensures steps == [GetBegin(t), TryTake(t), TestTaken(t)] && Runs(size, s, steps, s')
    ensures s' == To(s.(pool := s.pool.(conns := s.pool.conns[1..])), t, Held(s.pool.conns[0]))
  {
    var s1 := Apply(size, s, GetBegin(t));
    var s2 := Apply(size, s1, TryTake(t));
    s' := Apply(size, s2, TestTaken(t));
    assert Runs(size, s', [], s');
    RunsFrom(size, s2, TestTaken(t), [], s');
    RunsFrom(size, s1, TryTake(t), [TestTaken(t)], s');
    steps := [GetBegin(t)] + [TryTake(t), TestTaken(t)];
    assert [TryTake(t)] + [TestTaken(t)] == [TryTake(t), TestTaken(t)];
    RunsFrom(size, s, GetBegin(t), [TryTake(t), TestTaken(t)], s');
  }

  /** A Put with nobody else about: the back of the queue. */
  lemma PutAlone(size: int, s: State, t: Thread, c: ConnId) returns (steps: seq<Step>, s': State)
    requires Quiet(size, s, t + 1) && PhaseOf(s, t) == Held(c) && c !in s.dead
    ensures steps == PutSteps(t) && Runs(size, s, steps, s') && Quiet(size, s', t + 1)
    ensures s' == To(s.(pool := s.pool.(conns := s.pool.conns + [c])), t, Idle)
  {
    assert t in Slots(s.threads);
    steps, s' := GiveBack(size, s, t, c);
    RunKeepsInv(size, s, steps, s');
    assert forall d | d in s'.pool.conns :: d in s.pool.conns || d == c;
  }

  lemma GiveBack(size: int, s: State, t: Thread, c: ConnId) returns (steps: seq<Step>, s': State)
    requires ShutIsClosed(s) && !s.pool.closed && |s.pool.conns| < size && PhaseOf(s, t) == Held(c) && c !in s.dead
    ensures steps == PutSteps(t) && Runs(size, s, steps, s')
    ensures s' == To(s.(pool := s.pool.(conns := s.pool.conns + [c])), t, Idle)
  {
    var s1 := Apply(size, s, PutBegin(t));
    var s2 := Apply(size, s1, PutCheck(t));
    s' := Apply(size, s2, PutSend(t));
    assert Runs(size, s', [], s');
    RunsFrom(size, s2, PutSend(t), [], s');
    RunsFrom(size, s1, PutCheck(t), [PutSend(t)], s');
    steps := [PutBegin(t)] + [PutCheck(t), PutSend(t)];
    assert [PutCheck(t)] + [PutSend(t)] == [PutCheck(t), PutSend(t)];
    RunsFrom(size, s, PutBegin(t), [PutCheck(t), PutSend(t)], s');
  }

  /** The connection that Get number j gives, counting from 0, when nothing is put in between. */
  function Given(s: State, j: nat): ConnId {
    if j < |s.pool.conns| then s.pool.conns[j] else s.next + (j - |s.pool.conns|)
  }

  /** Of the threads from t on, the first n hold what Gets in their order give. */
  ghost predicate InTurn(s: State, s': State, t: Thread, n: int) {
    forall j: nat | j < n :: PhaseOf(s', t + j) == Held(Given(s, j))
  }

  /** The threads before t are as they were. */
  ghost predicate Kept(s: State, s': State, t: Thread) {
    forall u: Thread | u < t :: PhaseOf(s', u) == PhaseOf(s, u)
  }

  /** m is what a Get by t leaves of s. */
  ghost predicate GaveOne(s: State, m: State, t: Thread) {
    && PhaseOf(m, t) == Held(Given(s, 0)) && Kept(s, m, t)
    && if s.pool.conns == [] then m.pool.conns == [] && m.next == s.next + 1
       else m.pool.conns == s.pool.conns[1..] && m.next == s.next
  }

  lemma HeldInTurn(s: State, m: State, s': State, t: Thread, n: nat)
    requires n > 0 && GaveOne(s, m, t)
    requires Kept(m, s', t + 1) && InTurn(m, s', t + 1, n - 1)
    ensures InTurn(s, s', t, n) && Kept(s, s', t)
  {
    forall j: nat | j < n
      ensures PhaseOf(s', t + j) == Held(Given(s, j))
    {
      if j > 0 {
        assert PhaseOf(s', t + 1 + (j - 1)) == Held(Given(m, j - 1));
      }
    }
  }

  lemma GetOne(size: int, s: State, t: Thread) returns (m: State)
    requires Quiet(size, s, t) && (s.pool.conns == [] ==> s.pool.created < size)
    ensures Runs(size, s, GetSteps(t, |s.pool.conns|), m) && Quiet(size, m, t + 1)
    ensures GaveOne(s, m, t)
    ensures m.pool.created - |m.pool.conns| == s.pool.created - |s.pool.conns| + 1
  {
    var steps;
    steps, m := GetAlone(size, s, t);
  }

  /** n Gets by threads t, t + 1, ... without a Put empty the queue from the front, then dial. */
  lemma {:induction false} Reads(size: int, s: State, t: Thread, n: nat) returns (s': State)
    requires Quiet(size, s, t) && s.pool.created + n <= size + |s.pool.conns|
    ensures Runs(size, s, ReadSteps(t, |s.pool.conns|, n), s') && InTurn(s, s', t, n) && Kept(s, s', t)
    decreases n
  {
    if n == 0 {
      s' := s;
    } else {
      var m := GetOne(size, s, t);
      s' := Reads(size, m, t + 1, n - 1);
      HeldInTurn(s, m, s', t, n);
      RunsInSequence(size, s, GetSteps(t, |s.pool.conns|), m, ReadSteps(t + 1, |m.pool.conns|, n - 1), s');
    }
  }

  /** Do: the connection it used, and the queue with that connection at its back. */
  lemma DoAlone(size: int, s: State, t: Thread) returns (steps: seq<Step>, s': State, c: ConnId)
    requires Quiet(size, s, t) && (s.pool.conns == [] ==> s.pool.created < size)
    ensures steps == GetSteps(t, |s.pool.conns|) + PutSteps(t) && Runs(size, s, steps, s')
    ensures Quiet(size, s', t + 1) && c == Given(s, 0) && c < s'.next
    ensures s'.pool.conns == (if s.pool.conns == [] then [] else s.pool.conns[1..]) + [c]
    ensures s'.pool.created == if s.pool.conns == [] then s.pool.created + 1 else s.pool.created
  {
    var first, m := GetAlone(size, s, t);
    c := Given(s, 0);
    var rest;
    rest, s' := PutAlone(size, m, t, c);
    RunsInSequence(size, s, first, m, rest, s');
    steps := first + rest;
    assert s'.pool.conns[|s'.pool.conns| - 1] == c;
  }

  /** Read j, by thread t + j, got a connection, and c exactly if it is read number `turn`. */
  predicate GotIff(s: State, t: Thread, j: nat, c: ConnId, turn: nat) {
    PhaseOf(s, t + j).Held? && (PhaseOf(s, t + j).conn == c <==> j == turn)
  }

  /** The loop, with nobody else using the pool, runs. */
  lemma LoopRuns(size: int, s: State, t: Thread, n: nat) returns (s': State)
    requires Quiet(size, s, t) && (s.pool.conns == [] ==> s.pool.created < size)
    requires s.pool.created + n <= size + |s.pool.conns|
    ensures Runs(size, s, LoopSteps(t, |s.pool.conns|, n), s')
    ensures forall j: nat | 1 <= j <= n :: GotIff(s', t, j, Given(s, 0), Turn(|s.pool.conns|))
  {
    var first, m, subscribed := DoAlone(size, s, t);
    s' := Reads(size, m, t + 1, n);
    RunsInSequence(size, s, first, m, ReadSteps(t + 1, |m.pool.conns|, n), s');
    forall j: nat | 1 <= j <= n
      ensures GotIff(s', t, j, subscribed, Turn(|s.pool.conns|))
    {
      assert PhaseOf(s', t + 1 + (j - 1)) == Held(Given(m, j - 1));
    }
  }

  /**
   * When PSUBSCRIBE and n reads run one after another, with nobody else using the pool: the read
   * to get the connection that subscribed is that whose number is the number of connections that
   * were idle, or the first if none was; every other read gets another connection.
   */
  lemma ReadGetsSubscribedIff(size: int, s: State, t: Thread, n: nat, s': State)
    requires Quiet(size, s, t) && (s.pool.conns == [] ==> s.pool.created < size)
    requires s.pool.created + n <= size + |s.pool.conns|
    requires Runs(size, s, LoopSteps(t, |s.pool.conns|, n), s')
    ensures forall j: nat | 1 <= j <= n :: GotIff(s', t, j, Given(s, 0), Turn(|s.pool.conns|))
    ensures var subscribed := if s.pool.conns == [] then s.next else s.pool.conns[0];
            forall u: Thread | t < u <= t + n ::
              && PhaseOf(s', u).Held?
              && (PhaseOf(s', u).conn == subscribed <==> u == t + if s.pool.conns == [] then 1 else |s.pool.conns|)
  {
    var m := LoopRuns(size, s, t, n);
    RunsOneWay(size, s, LoopSteps(t, |s.pool.conns|, n), m, s');
    forall u: Thread | t < u <= t + n
      ensures PhaseOf(s', u).Held? && (PhaseOf(s', u).conn == Given(s, 0) <==> u == t + Turn(|s.pool.conns|))
    {
      assert GotIff(s', t, u - t, Given(s, 0), Turn(|s.pool.conns|));
    }
  }

  /**
   * In a new pool the first read -- the only one to be made until a message arrives on its
   * connection -- is on the connection that subscribed exactly when at most one was idle.
   */
  lemma FirstReadIsSubscribedIff(size: int, idle: nat, s: State, s': State)
    requires Initial(size, idle, s) && 0 < size && Runs(size, s, LoopSteps(0, idle, 1), s')
    ensures PhaseOf(s', 1).Held? && (PhaseOf(s', 1).conn == 0 <==> idle <= 1)
  {
    InitialInv(size, idle, s);
    ReadGetsSubscribedIff(size, s, 0, 1, s');
    assert GotIff(s', 0, 1, Given(s, 0), Turn(idle));
  }
}
