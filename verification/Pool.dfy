/**
 * The connection pool of redis/client.go. Get, Put and Close are not atomic: each lock-protected
 * check and each channel operation is a step of its own, and steps of different goroutines interleave.
 * A thread stands for one Get and the Put that may follow it.
 */
module Pool {
  import opened Decimal

  // ---------------------------------------------------------------- the pool's own variables

  datatype PoolVars<C> = PoolVars(conns: seq<C>, created: int, closed: bool)

  /** The non-blocking receive; None is the select's default branch. */
  function Receive<C>(p: PoolVars<C>): (PoolVars<C>, Option<C>) {
    if p.conns == [] then (p, None) else (p.(conns := p.conns[1..]), Some(p.conns[0]))
  }

  function Reserve<C>(p: PoolVars<C>, size: int): (PoolVars<C>, bool) {
    if p.created < size then (p.(created := p.created + 1), true) else (p, false)
  }

  /** The non-blocking send; false is the pool-full branch, which gives the slot back. */
  function Send<C>(p: PoolVars<C>, c: C, size: int): (PoolVars<C>, bool) {
    if |p.conns| < size then (p.(conns := p.conns + [c]), true) else (p.(created := p.created - 1), false)
  }

  // ---------------------------------------------------------------- states and steps

  type ConnId = nat
  type Thread = nat

  datatype Phase =
    | Idle
    | Checked               // Get: the pool was open
    | Taken(conn: ConnId)   // Get: received a connection, not yet tested
    | NeedSlot              // Get: the channel was empty
    | Waiting               // Get: no slot left, blocked on the channel
    | Dialing               // Get: in createConn
    | Held(conn: ConnId)    // Get returned the connection
    | Putting(conn: ConnId) // Put: the connection was alive
    | Sending(conn: ConnId) // Put: the pool was open
    | Panicked              // used the channel after it was closed

  function ConnOf(ph: Phase): Option<ConnId> {
    match ph
    case Taken(c) => Some(c)
    case Held(c) => Some(c)
    case Putting(c) => Some(c)
    case Sending(c) => Some(c)
    case _ => None
  }

  /** The phases in which a thread stands for one of the `created` slots. */
  predicate HasSlot(ph: Phase) {
    ph.Dialing? || ConnOf(ph).Some?
  }

  /**
   * `shut` says that the channel is closed, which happens after `closed` is set. `lost` counts
   * slots that stand for nothing any more; the code has no such counter.
   */
  datatype State = State(pool: PoolVars<ConnId>, shut: bool, threads: map<Thread, Phase>, dead: set<ConnId>, next: ConnId, lost: nat)

  function PhaseOf(s: State, t: Thread): Phase {
    if t in s.threads then s.threads[t] else Idle
  }

  datatype Step =
    | GetBegin(t: Thread)
    | TryTake(t: Thread)
    | TestTaken(t: Thread)
    | TakeSlot(t: Thread)
    | TakeWaiting(t: Thread)
    | Cancel(t: Thread)
    | Dial(t: Thread, ok: bool)
    | PutBegin(t: Thread)
    | PutCheck(t: Thread)
    | PutSend(t: Thread)
    | Die(conn: ConnId)
    | CloseBegin
    | CloseChannel
    | Drain

  predicate Enabled(s: State, e: Step) {
    match e
    case GetBegin(t) => PhaseOf(s, t).Idle?
    case TryTake(t) => PhaseOf(s, t).Checked?
    case TestTaken(t) => PhaseOf(s, t).Taken?
    case TakeSlot(t) => PhaseOf(s, t).NeedSlot?
    case TakeWaiting(t) => PhaseOf(s, t).Waiting? && (s.pool.conns != [] || s.shut)
    case Cancel(t) => PhaseOf(s, t).Waiting?
    case Dial(t, _) => PhaseOf(s, t).Dialing?
    case PutBegin(t) => PhaseOf(s, t).Held?
    case PutCheck(t) => PhaseOf(s, t).Putting?
    case PutSend(t) => PhaseOf(s, t).Sending?
    case Die(conn) => conn < s.next
    case CloseBegin => !s.pool.closed
    case CloseChannel => s.pool.closed && !s.shut
    case Drain => s.shut && s.pool.conns != []
  }

  /** Steps of a thread, as opposed to those of Close and of the network. */
  predicate OfThread(e: Step) {
    !e.Die? && !e.CloseBegin? && !e.CloseChannel? && !e.Drain?
  }

  function To(s: State, t: Thread, ph: Phase): State {
    s.(threads := s.threads[t := ph])
  }

  /** A receive: of a connection, or of the nil that a closed and drained channel gives. */
  function Receiving(s: State, t: Thread): State {
    match Receive(s.pool)
    case (pool, Some(c)) => To(s.(pool := pool), t, Taken(c))
    case (_, None) => To(s, t, if s.shut then Panicked else NeedSlot)
  }

  function Apply(size: int, s: State, e: Step): State
    requires Enabled(s, e)
  {
    match e
    case GetBegin(t) => To(s, t, if s.pool.closed then Idle else Checked)
    case TryTake(t) => Receiving(s, t)
    case TestTaken(t) =>
      var c := PhaseOf(s, t).conn;
      To(s, t, if c in s.dead then Dialing else Held(c))
    case TakeSlot(t) =>
      var (pool, reserved) := Reserve(s.pool, size);
      To(s.(pool := pool), t, if reserved then Dialing else Waiting)
    case TakeWaiting(t) => Receiving(s, t)
    case Cancel(t) => To(s, t, Idle)
    case Dial(t, ok) =>
      if ok then To(s.(next := s.next + 1), t, Held(s.next)) else To(s.(lost := s.lost + 1), t, Idle)
    case PutBegin(t) =>
      var c := PhaseOf(s, t).conn;
      if c in s.dead then To(s.(lost := s.lost + 1), t, Idle) else To(s, t, Putting(c))
    case PutCheck(t) =>
      var c := PhaseOf(s, t).conn;
      if s.pool.closed then To(s.(lost := s.lost + 1, dead := s.dead + {c}), t, Idle) else To(s, t, Sending(c))
    case PutSend(t) =>
      var c := PhaseOf(s, t).conn;
      var (pool, sent) := Send(s.pool, c, size);
      if s.shut then To(s.(lost := s.lost + 1), t, Panicked) else To(s.(pool := pool, dead := if sent then s.dead else s.dead + {c}), t, Idle)
    case Die(conn) => s.(dead := s.dead + {conn})
    case CloseBegin => s.(pool := s.pool.(closed := true))
    case CloseChannel => s.(shut := true)
    case Drain =>
      s.(pool := s.pool.(conns := s.pool.conns[1..]), dead := s.dead + {s.pool.conns[0]}, lost := s.lost + 1)
  }

  ghost predicate Runs(size: int, s: State, steps: seq<Step>, s': State)
    decreases steps
  {
    if steps == [] then s == s'
    else Enabled(s, steps[0]) && Runs(size, Apply(size, s, steps[0]), steps[1..], s')
  }

  /** What NewPool leaves: `idle` fresh connections in the channel and no threads. */
  ghost predicate Initial(size: int, idle: nat, s: State) {
    && idle <= size
    && s == State(PoolVars(seq(idle, i => i), idle, false), false, map[], {}, idle, 0)
  }

  // ---------------------------------------------------------------- the invariant

  function Slots(threads: map<Thread, Phase>): set<Thread> {
    set t | t in threads && HasSlot(threads[t])
  }

  /** Every slot ever created is idle, with a thread, or lost; none has been given back. */
  ghost predicate Accounted(size: int, s: State) {
    s.pool.created == |s.pool.conns| + |Slots(s.threads)| + s.lost <= size
  }

  /** Each connection is in one place: in the channel once, or with one thread. */
  ghost predicate OnePlace(s: State) {
    && (forall i | 0 <= i < |s.pool.conns| :: s.pool.conns[i] < s.next)
    && (forall i, j | 0 <= i < j < |s.pool.conns| :: s.pool.conns[i] != s.pool.conns[j])
    && (forall t | t in s.threads && ConnOf(s.threads[t]).Some? ::
          ConnOf(s.threads[t]).value < s.next && ConnOf(s.threads[t]).value !in s.pool.conns)
    && (forall t, u | t in s.threads && u in s.threads && t != u && ConnOf(s.threads[t]).Some? ::
          ConnOf(s.threads[t]) != ConnOf(s.threads[u]))
  }

  /** Only connections that were made can have died. */
  predicate DeadWereMade(s: State) {
    forall c | c in s.dead :: c < s.next
  }

  /** The channel is closed only after the pool. */
  predicate ShutIsClosed(s: State) {
    s.shut ==> s.pool.closed
  }

  ghost predicate Inv(size: int, s: State) {
    Accounted(size, s) && OnePlace(s) && ShutIsClosed(s) && DeadWereMade(s)
  }

  lemma SlotsChange(threads: map<Thread, Phase>, t: Thread, ph: Phase)
    ensures |Slots(threads[t := ph])| == |Slots(threads) - {t}| + (if HasSlot(ph) then 1 else 0)
    ensures |Slots(threads)| == |Slots(threads) - {t}| + (if t in threads && HasSlot(threads[t]) then 1 else 0)
  {
    var rest := Slots(threads) - {t};
    assert Slots(threads[t := ph]) == if HasSlot(ph) then rest + {t} else rest;
    assert Slots(threads) == if t in threads && HasSlot(threads[t]) then rest + {t} else rest;
  }

  /** The slots after a thread moves: one fewer, one more or as many. */
  lemma MoveKeepsAccounts(size: int, s: State, s': State, t: Thread, ph: Phase)
    requires s'.threads == s.threads[t := ph]
    requires Accounted(size, s)
    requires s'.pool.created - |s'.pool.conns| - s'.lost - (if HasSlot(ph) then 1 else 0) ==
             s.pool.created - |s.pool.conns| - s.lost - (if HasSlot(PhaseOf(s, t)) then 1 else 0)
    requires s'.pool.created <= size
    ensures Accounted(size, s')
  {
    SlotsChange(s.threads, t, ph);
  }

  /** A thread about to send holds a slot of its own, so the channel has room. */
  lemma SenderHasRoom(size: int, s: State, t: Thread)
    requires Accounted(size, s) && PhaseOf(s, t).Sending?
    ensures |s.pool.conns| < size
  {
    assert t in Slots(s.threads);
  }

  lemma StepKeepsAccounts(size: int, s: State, e: Step)
    requires Accounted(size, s) && Enabled(s, e)
    ensures Accounted(size, Apply(size, s, e))
  {
    if OfThread(e) {
      var s' := Apply(size, s, e);
      if e.PutSend? {
        SenderHasRoom(size, s, e.t);
      }
      assert s'.threads == s.threads[e.t := s'.threads[e.t]];
      MoveKeepsAccounts(size, s, s', e.t, s'.threads[e.t]);
    }
  }

  /** A thread that keeps its connection, or gives it up, disturbs nobody. */
  lemma MoveKeepsOnePlace(s: State, t: Thread, ph: Phase)
    requires OnePlace(s)
    requires ConnOf(ph).None? || ConnOf(ph) == ConnOf(PhaseOf(s, t))
    ensures OnePlace(To(s, t, ph))
  {
  }

  lemma ReceivingKeepsOnePlace(s: State, t: Thread)
    requires OnePlace(s)
    ensures OnePlace(Receiving(s, t))
  {
    if s.pool.conns == [] {
      MoveKeepsOnePlace(s, t, if s.shut then Panicked else NeedSlot);
    } else {
      var s' := Receiving(s, t);
      assert s.pool.conns == [s.pool.conns[0]] + s'.pool.conns;
    }
  }

  lemma NewKeepsOnePlace(s: State, t: Thread)
    requires OnePlace(s)
    ensures OnePlace(To(s.(next := s.next + 1), t, Held(s.next)))
  {
  }

  lemma SendKeepsOnePlace(s: State, t: Thread, c: ConnId)
    requires OnePlace(s) && PhaseOf(s, t) == Sending(c)
    ensures OnePlace(To(s.(pool := s.pool.(conns := s.pool.conns + [c])), t, Idle))
  {
    var s' := To(s.(pool := s.pool.(conns := s.pool.conns + [c])), t, Idle);
    forall u | u in s'.threads && ConnOf(s'.threads[u]).Some?
      ensures ConnOf(s'.threads[u]).value !in s'.pool.conns
    {
      assert u != t && u in s.threads && ConnOf(s.threads[u]) != ConnOf(s.threads[t]);
    }
  }

  lemma StepKeepsOnePlace(size: int, s: State, e: Step)
    requires OnePlace(s) && Enabled(s, e)
    ensures OnePlace(Apply(size, s, e))
  {
    var s' := Apply(size, s, e);
    match e
    case TryTake(t) => ReceivingKeepsOnePlace(s, t);
    case TakeWaiting(t) => ReceivingKeepsOnePlace(s, t);
    case Dial(t, ok) =>
      if ok {
        NewKeepsOnePlace(s, t);
      } else {
        MoveKeepsOnePlace(s, t, Idle);
      }
    case PutSend(t) =>
      if !s.shut && |s.pool.conns| < size {
        SendKeepsOnePlace(s, t, PhaseOf(s, t).conn);
      } else {
        MoveKeepsOnePlace(s, t, if s.shut then Panicked else Idle);
      }
    case Die(_) =>
    case CloseBegin =>
    case CloseChannel =>
    case Drain => assert s.pool.conns == [s.pool.conns[0]] + s.pool.conns[1..];
    case _ => MoveKeepsOnePlace(s, e.t, s'.threads[e.t]);
  }

  lemma StepKeepsDead(size: int, s: State, e: Step)
    requires OnePlace(s) && DeadWereMade(s) && Enabled(s, e)
    ensures DeadWereMade(Apply(size, s, e))
  {
    assert forall c | c in s.pool.conns :: c < s.next;
  }

  lemma StepKeepsInv(size: int, s: State, e: Step)
    requires Inv(size, s) && Enabled(s, e)
    ensures Inv(size, Apply(size, s, e))
  {
    StepKeepsAccounts(size, s, e);
    StepKeepsOnePlace(size, s, e);
    StepKeepsDead(size, s, e);
  }

  lemma {:induction false} RunKeepsInv(size: int, s: State, steps: seq<Step>, s': State)
    requires Inv(size, s) && Runs(size, s, steps, s')
    ensures Inv(size, s')
    decreases steps
  {
    if steps != [] {
      StepKeepsInv(size, s, steps[0]);
      RunKeepsInv(size, Apply(size, s, steps[0]), steps[1..], s');
    }
  }

  lemma InitialInv(size: int, idle: nat, s: State)
    requires Initial(size, idle, s)
    ensures Inv(size, s)
  {
    assert Slots(s.threads) == {};
  }

  // ---------------------------------------------------------------- theorems over every interleaving

  function Holders(threads: map<Thread, Phase>): set<Thread> {
    set t | t in threads && ConnOf(threads[t]).Some?
  }

  function Dialers(threads: map<Thread, Phase>): set<Thread> {
    set t | t in threads && threads[t].Dialing?
  }

  /** idle + held + being dialed <= created <= PoolSize, and the difference is exactly `lost`. */
  lemma ConnectionsAreBounded(size: int, idle: nat, s: State, steps: seq<Step>, s': State)
    requires Initial(size, idle, s) && Runs(size, s, steps, s')
    ensures |s'.pool.conns| + |Holders(s'.threads)| + |Dialers(s'.threads)| + s'.lost == s'.pool.created <= size
  {
    InitialInv(size, idle, s);
    RunKeepsInv(size, s, steps, s');
    assert Slots(s'.threads) == Holders(s'.threads) + Dialers(s'.threads);
  }

  /** No connection has two holders, or is idle and held, or idle twice. */
  lemma OneHolder(size: int, idle: nat, s: State, steps: seq<Step>, s': State)
    requires Initial(size, idle, s) && Runs(size, s, steps, s')
    ensures forall t, u | t in Holders(s'.threads) && u in Holders(s'.threads) && t != u ::
              ConnOf(s'.threads[t]) != ConnOf(s'.threads[u])
    ensures forall t | t in Holders(s'.threads) :: ConnOf(s'.threads[t]).value !in s'.pool.conns
    ensures forall i, j | 0 <= i < j < |s'.pool.conns| :: s'.pool.conns[i] != s'.pool.conns[j]
  {
    InitialInv(size, idle, s);
    RunKeepsInv(size, s, steps, s');
  }

  /** Put never finds the pool full: its non-blocking send always succeeds. */
  lemma PutNeverFindsPoolFull(size: int, idle: nat, s: State, steps: seq<Step>, s': State, t: Thread)
    requires Initial(size, idle, s) && Runs(size, s, steps, s') && PhaseOf(s', t).Sending?
    ensures Send(s'.pool, PhaseOf(s', t).conn, size).1
    ensures !s'.shut ==> Apply(size, s', PutSend(t)).pool.conns == s'.pool.conns + [PhaseOf(s', t).conn]
  {
    InitialInv(size, idle, s);
    RunKeepsInv(size, s, steps, s');
    SenderHasRoom(size, s', t);
  }

  /** Slots are never given back, and lost ones are never found again. */
  lemma {:induction false} CountersNeverDecrease(size: int, s: State, steps: seq<Step>, s': State)
    requires Inv(size, s) && Runs(size, s, steps, s')
    ensures s.pool.created <= s'.pool.created && s.lost <= s'.lost
    decreases steps
  {
    if steps != [] {
      if steps[0].PutSend? {
        SenderHasRoom(size, s, steps[0].t);
      }
      StepKeepsInv(size, s, steps[0]);
      CountersNeverDecrease(size, Apply(size, s, steps[0]), steps[1..], s');
    }
  }

  // ---------------------------------------------------------------- no connection leaks

  /** A connection that was made is closed or dead, or in the channel, or with a thread. */
  ghost predicate Placed(s: State, c: ConnId) {
    c in s.dead || c in s.pool.conns || exists t :: t in s.threads && ConnOf(s.threads[t]) == Some(c)
  }

  ghost predicate SomePanicked(s: State) {
    exists t :: t in s.threads && s.threads[t].Panicked?
  }

  /** A thread that moves keeps its connection, unless it was closed, died or went into the channel. */
  lemma MoveKeepsPlaced(s: State, s': State, t: Thread, c: ConnId)
    requires Placed(s, c) && t in s'.threads && s'.threads == s.threads[t := s'.threads[t]] && s.dead <= s'.dead
    requires c in s.pool.conns ==> c in s'.pool.conns || ConnOf(s'.threads[t]) == Some(c)
    requires ConnOf(PhaseOf(s, t)) == Some(c) ==> c in s'.dead || c in s'.pool.conns || ConnOf(s'.threads[t]) == Some(c)
    ensures Placed(s', c)
  {
    if c !in s.dead && c !in s.pool.conns {
      var u :| u in s.threads && ConnOf(s.threads[u]) == Some(c);
      assert u == t || s'.threads[u] == s.threads[u];
    }
  }

  lemma StepKeepsPlaced(size: int, s: State, e: Step, c: ConnId)
    requires Enabled(s, e) && Placed(s, c) && !SomePanicked(Apply(size, s, e))
    ensures Placed(Apply(size, s, e), c)
  {
    var s' := Apply(size, s, e);
    if OfThread(e) {
      var t := e.t;
      assert !s'.threads[t].Panicked?;
      if e.TryTake? || e.TakeWaiting? {
        assert s.pool.conns != [] ==> s.pool.conns == [s.pool.conns[0]] + s'.pool.conns;
      }
      MoveKeepsPlaced(s, s', t, c);
    } else if e.Drain? {
      assert s.pool.conns == [s.pool.conns[0]] + s'.pool.conns;
    }
  }

  lemma StepMakes(size: int, s: State, e: Step)
    requires Enabled(s, e)
    ensures var s' := Apply(size, s, e);
            && s.next <= s'.next <= s.next + 1 && (s'.next > s.next ==> Placed(s', s.next))
            && (SomePanicked(s) ==> SomePanicked(s'))
  {
    var s' := Apply(size, s, e);
    if s'.next > s.next {
      assert ConnOf(s'.threads[e.t]) == Some(s.next);
    }
    if SomePanicked(s) {
      var t :| t in s.threads && s.threads[t].Panicked?;
      assert OfThread(e) ==> PhaseOf(s, e.t) != Panicked;
      assert s'.threads[t].Panicked?;
    }
  }

  lemma {:induction false} AllStayPlaced(size: int, s: State, steps: seq<Step>, s': State)
    requires Runs(size, s, steps, s') && !SomePanicked(s') && forall c: ConnId | c < s.next :: Placed(s, c)
    ensures forall c: ConnId | c < s'.next :: Placed(s', c)
    decreases steps
  {
    if steps != [] {
      var m := Apply(size, s, steps[0]);
      StepMakes(size, s, steps[0]);
      NonePanicsBefore(size, m, steps[1..], s');
      forall c: ConnId | c < m.next
        ensures Placed(m, c)
      {
        if c < s.next {
          StepKeepsPlaced(size, s, steps[0], c);
        }
      }
      AllStayPlaced(size, m, steps[1..], s');
    }
  }

  lemma {:induction false} NonePanicsBefore(size: int, s: State, steps: seq<Step>, s': State)
    requires Runs(size, s, steps, s') && !SomePanicked(s')
    ensures !SomePanicked(s)
    decreases steps
  {
    if steps != [] {
      StepMakes(size, s, steps[0]);
      NonePanicsBefore(size, Apply(size, s, steps[0]), steps[1..], s');
    }
  }

  /**
   * No connection is dropped while it is open: as long as nothing panicked, every one ever made is
   * dead, closed, in the channel or with a thread. So a closed pool that is drained, and whose
   * threads are done, has left none open.
   */
  lemma NoConnectionLeaks(size: int, idle: nat, s: State, steps: seq<Step>, s': State)
    requires Initial(size, idle, s) && Runs(size, s, steps, s') && forall t :: !PhaseOf(s', t).Panicked?
    ensures forall c: ConnId | c < s'.next && c !in s'.dead && c !in s'.pool.conns :: exists t :: ConnOf(PhaseOf(s', t)) == Some(c)
    ensures s'.pool.conns == [] && (forall t :: PhaseOf(s', t).Idle?) ==> forall c: ConnId | c < s'.next :: c in s'.dead
  {
    assert forall c: ConnId | c < s.next :: s.pool.conns[c] == c && Placed(s, c);
    assert forall t | t in s'.threads :: PhaseOf(s', t) == s'.threads[t];
    AllStayPlaced(size, s, steps, s');
    forall c: ConnId | c < s'.next && c !in s'.dead && c !in s'.pool.conns
      ensures exists t :: ConnOf(PhaseOf(s', t)) == Some(c)
    {
      assert Placed(s', c);
      var t :| t in s'.threads && ConnOf(s'.threads[t]) == Some(c);
      assert ConnOf(PhaseOf(s', t)) == Some(c);
    }
  }

  // ---------------------------------------------------------------- when Get can be served

  /** Threads that hold a dead connection: Put will drop it, and its slot with it. */
  function DeadHolders(s: State): set<Thread> {
    set t | t in s.threads && s.threads[t].Held? && s.threads[t].conn in s.dead
  }

  /** The slots that are lost or sure to be. */
  function Spent(s: State): nat {
    s.lost + |DeadHolders(s)|
  }

  lemma SubsetIsSmaller<T>(a: set<T>, b: set<T>)
    requires a <= b
    ensures |a| <= |b| && (|a| == |b| ==> a == b)
  {
    assert |b - a| == |b| - |a|;
    assert |b - a| == 0 ==> b - a == {};
  }

  lemma HoldersAfter(s: State, s': State, t: Thread)
    requires s.dead <= s'.dead && forall u | u != t :: PhaseOf(s, u) == PhaseOf(s', u)
    ensures DeadHolders(s) - {t} <= DeadHolders(s')
  {
    assert forall u | u in DeadHolders(s) && u != t :: PhaseOf(s', u) == s.threads[u];
  }

  /** A spent slot stays spent. */
  lemma StepKeepsSpent(size: int, s: State, e: Step)
    requires Inv(size, s) && Enabled(s, e)
    ensures Spent(s) <= Spent(Apply(size, s, e))
  {
    var s' := Apply(size, s, e);
    var t := if OfThread(e) then e.t else 0;
    HoldersAfter(s, s', t);
    if e.PutBegin? && e.t in DeadHolders(s) {
      SubsetIsSmaller(DeadHolders(s) - {t}, DeadHolders(s'));
    } else {
      assert DeadHolders(s) <= DeadHolders(s');
      SubsetIsSmaller(DeadHolders(s), DeadHolders(s'));
    }
  }

  /** When every slot is spent, the channel is empty and each slot is with the holder of a dead connection. */
  lemma AllSpent(size: int, s: State)
    requires Inv(size, s) && Spent(s) >= size
    ensures s.pool.conns == [] && s.pool.created == size && Slots(s.threads) == DeadHolders(s)
  {
    SubsetIsSmaller(DeadHolders(s), Slots(s.threads));
  }

  lemma NoSlotToGet(size: int, s: State, e: Step, t: Thread)
    requires Enabled(s, e) && s.pool.conns == [] && s.pool.created >= size && !HasSlot(PhaseOf(s, t))
    ensures !HasSlot(PhaseOf(Apply(size, s, e), t))
  {
  }

  /** From there on, a thread without a slot never gets one. */
  lemma {:induction false} NeverServed(size: int, s: State, steps: seq<Step>, s': State, t: Thread)
    requires Inv(size, s) && Spent(s) >= size && !HasSlot(PhaseOf(s, t)) && Runs(size, s, steps, s')
    ensures !HasSlot(PhaseOf(s', t))
    decreases steps
  {
    if steps != [] {
      AllSpent(size, s);
      StepKeepsInv(size, s, steps[0]);
      StepKeepsSpent(size, s, steps[0]);
      NoSlotToGet(size, s, steps[0], t);
      NeverServed(size, Apply(size, s, steps[0]), steps[1..], s', t);
    }
  }

  lemma RunsFrom(size: int, s: State, e: Step, steps: seq<Step>, s': State)
    requires Enabled(s, e) && Runs(size, Apply(size, s, e), steps, s')
    ensures Runs(size, s, [e] + steps, s')
  {
    assert ([e] + steps)[1..] == steps;
  }

  lemma {:induction false} RunsInSequence(size: int, s: State, a: seq<Step>, m: State, b: seq<Step>, s': State)
    requires Runs(size, s, a, m) && Runs(size, m, b, s')
    ensures Runs(size, s, a + b, s')
    decreases a
  {
    if a == [] {
      assert a + b == b;
    } else {
      assert (a + b)[1..] == a[1..] + b;
      RunsInSequence(size, Apply(size, s, a[0]), a[1..], m, b, s');
    }
  }

  /** The steps decide where a run ends. */
  lemma {:induction false} RunsOneWay(size: int, s: State, steps: seq<Step>, m: State, m': State)
    requires Runs(size, s, steps, m) && Runs(size, s, steps, m')
    ensures m == m'
    decreases steps
  {
    if steps != [] {
      RunsOneWay(size, Apply(size, s, steps[0]), steps[1..], m, m');
    }
  }

  /** The phases a thread goes through, in the order it does. */
  function Rank(ph: Phase): nat {
    match ph
    case Idle => 10
    case Checked => 9
    case NeedSlot => 8
    case Waiting => 7
    case Taken(_) => 6
    case Dialing => 5
    case Held(_) => 4
    case Putting(_) => 3
    case Sending(_) => 2
    case Panicked => 0
  }

  /** The step that takes a thread on, its dial succeeding. */
  function Next(s: State, t: Thread): Step
    requires !PhaseOf(s, t).Panicked?
  {
    match PhaseOf(s, t)
    case Idle => GetBegin(t)
    case Checked => TryTake(t)
    case NeedSlot => TakeSlot(t)
    case Waiting => TakeWaiting(t)
    case Taken(_) => TestTaken(t)
    case Dialing => Dial(t, true)
    case Held(_) => PutBegin(t)
    case Putting(_) => PutCheck(t)
    case Sending(_) => PutSend(t)
  }

  /** A thread that has, or can have, a connection Put will give to the channel. */
  predicate CanSupply(size: int, s: State, u: Thread) {
    match PhaseOf(s, u)
    case Idle => s.pool.created < size
    case Checked => s.pool.created < size
    case NeedSlot => s.pool.created < size
    case Waiting => false
    case Panicked => false
    case Held(c) => c !in s.dead
    case _ => true
  }

  /** While the channel is empty, such a thread can be brought to put a connection into it. */
  lemma {:induction false} Supply(size: int, s: State, u: Thread) returns (steps: seq<Step>, s': State)
    requires Inv(size, s) && !s.pool.closed && s.pool.conns == [] && CanSupply(size, s, u)
    ensures Runs(size, s, steps, s') && Inv(size, s') && !s'.pool.closed && s'.pool.conns != []
    ensures forall t | t != u :: PhaseOf(s', t) == PhaseOf(s, t)
    decreases Rank(PhaseOf(s, u))
  {
    var e := Next(s, u);
    var m := Apply(size, s, e);
    StepKeepsInv(size, s, e);
    if e.PutSend? {
      SenderHasRoom(size, s, u);
      steps, s' := [], m;
    } else {
      steps, s' := Supply(size, m, u);
    }
    RunsFrom(size, s, e, steps, s');
    steps := [e] + steps;
  }

  predicate Asking(ph: Phase) {
    ph.Idle? || ph.Checked? || ph.NeedSlot? || ph.Waiting?
  }

  /** The steps lead from s to a state in which t holds a connection. */
  ghost predicate Serves(size: int, s: State, steps: seq<Step>, s': State, t: Thread) {
    Runs(size, s, steps, s') && PhaseOf(s', t).Held?
  }

  /** With a connection in the channel, any thread that asks can be served at once. */
  lemma {:induction false} Serve(size: int, s: State, t: Thread) returns (steps: seq<Step>, s': State)
    requires Inv(size, s) && !s.pool.closed
    requires (Asking(PhaseOf(s, t)) && s.pool.conns != []) || PhaseOf(s, t).Taken? || PhaseOf(s, t).Dialing? || PhaseOf(s, t).Held?
    ensures Serves(size, s, steps, s', t)
    decreases Rank(PhaseOf(s, t))
  {
    if PhaseOf(s, t).Held? {
      steps, s' := [], s;
    } else {
      var e := Next(s, t);
      StepKeepsInv(size, s, e);
      steps, s' := Serve(size, Apply(size, s, e), t);
      RunsFrom(size, s, e, steps, s');
      steps := [e] + steps;
    }
  }

  lemma {:induction false} Unused(threads: map<Thread, Phase>, t: Thread) returns (u: Thread)
    ensures u !in threads && u != t
  {
    u := Above(threads.Keys + {t});
  }

  lemma {:induction false} Above(ts: set<Thread>) returns (u: Thread)
    ensures forall t | t in ts :: t < u
  {
    if ts == {} {
      u := 0;
    } else {
      var t :| t in ts;
      var v := Above(ts - {t});
      u := if t < v then v else t + 1;
      assert forall x | x in ts :: x == t || x in ts - {t};
    }
  }

  /** While some slot is not spent and the channel is empty, some other thread can supply it. */
  lemma Supplier(size: int, s: State, t: Thread) returns (u: Thread)
    requires Inv(size, s) && s.pool.conns == [] && Spent(s) < size && !HasSlot(PhaseOf(s, t))
    ensures u != t && CanSupply(size, s, u)
  {
    if s.pool.created < size {
      u := Unused(s.threads, t);
    } else {
      assert Slots(s.threads) != DeadHolders(s);
      assert DeadHolders(s) <= Slots(s.threads);
      u :| u in Slots(s.threads) && u !in DeadHolders(s);
    }
  }

  /**
   * A thread that asks for a connection can be given one, now or later, exactly while some slot is
   * neither lost nor with the holder of a dead connection.
   */
  lemma GetCanSucceedIffSlotRemains(size: int, s: State, t: Thread)
    requires Inv(size, s) && !s.pool.closed && Asking(PhaseOf(s, t))
    ensures Spent(s) < size <==> exists steps, s' :: Serves(size, s, steps, s', t)
  {
    if Spent(s) < size {
      var first, m := [], s;
      if s.pool.conns == [] {
        var u := Supplier(size, s, t);
        first, m := Supply(size, s, u);
      }
      var more, s' := Serve(size, m, t);
      RunsInSequence(size, s, first, m, more, s');
      assert Serves(size, s, first + more, s', t);
    } else {
      forall steps, s' | Runs(size, s, steps, s')
        ensures !Serves(size, s, steps, s', t)
      {
        NeverServed(size, s, steps, s', t);
      }
    }
  }

  /** The steps of a Get that finds the channel empty and a slot to spare: it dials. */
  function DialSteps(t: Thread, ok: bool): seq<Step> {
    [GetBegin(t), TryTake(t), TakeSlot(t), Dial(t, ok)]
  }

  lemma DialingGet(size: int, s: State, t: Thread, ok: bool) returns (steps: seq<Step>, s': State)
    requires !s.pool.closed && ShutIsClosed(s) && s.pool.conns == [] && s.pool.created < size && PhaseOf(s, t).Idle?
    ensures steps == DialSteps(t, ok) && Runs(size, s, steps, s')
    ensures var m := s.(pool := s.pool.(created := s.pool.created + 1));
            s' == if ok then To(m.(next := s.next + 1), t, Held(s.next)) else To(m.(lost := s.lost + 1), t, Idle)
  {
    var s1 := Apply(size, s, GetBegin(t));
    var s2 := Apply(size, s1, TryTake(t));
    var s3 := Apply(size, s2, TakeSlot(t));
    s' := Apply(size, s3, Dial(t, ok));
    var rest := [TryTake(t), TakeSlot(t), Dial(t, ok)];
    assert Runs(size, s', [], s');
    RunsFrom(size, s3, Dial(t, ok), [], s');
    RunsFrom(size, s2, TakeSlot(t), [Dial(t, ok)], s');
    RunsFrom(size, s1, TryTake(t), [TakeSlot(t), Dial(t, ok)], s');
    assert rest == [TryTake(t)] + [TakeSlot(t), Dial(t, ok)];
    steps := [GetBegin(t)] + rest;
    RunsFrom(size, s, GetBegin(t), rest, s');
  }

  /** So `lost` alone does not decide: one borrower whose connection dies blocks a pool of one, with nothing lost. */
  lemma BrokenBorrowerBlocks(s: State) returns (steps: seq<Step>, s': State)
    requires Initial(1, 0, s)
    ensures Runs(1, s, steps, s') && !s'.pool.closed && s'.lost == 0 && PhaseOf(s', 0).Held?
    ensures forall t, more, s'' | t != 0 && Runs(1, s', more, s'') :: !PhaseOf(s'', t).Held?
  {
    var first, m := DialingGet(1, s, 0, true);
    s' := Apply(1, m, Die(0));
    assert Runs(1, s', [], s');
    RunsFrom(1, m, Die(0), [], s');
    steps := first + [Die(0)];
    RunsInSequence(1, s, first, m, [Die(0)], s');
    InitialInv(1, 0, s);
    RunKeepsInv(1, s, steps, s');
    assert DeadHolders(s') == {0};
    forall t, more, s'' | t != 0 && Runs(1, s', more, s'')
      ensures !PhaseOf(s'', t).Held?
    {
      NeverServed(1, s', more, s'', t);
    }
  }

  // ---------------------------------------------------------------- failed dials use the pool up

  ghost predicate AllIdle(s: State) {
    forall t | t in s.threads :: s.threads[t].Idle?
  }

  /** When every slot is lost no thread has a connection or ever gets one again. */
  lemma ExhaustedForGood(size: int, s: State, steps: seq<Step>, s': State)
    requires Inv(size, s) && s.lost == size && Runs(size, s, steps, s')
    ensures s'.pool.conns == [] && forall t :: !HasSlot(PhaseOf(s', t))
  {
    RunKeepsInv(size, s, steps, s');
    CountersNeverDecrease(size, s, steps, s');
    assert Slots(s'.threads) == {};
    forall t
      ensures !HasSlot(PhaseOf(s', t))
    {
      assert t !in Slots(s'.threads);
    }
  }

  /** How many dials fail. */
  function Failed(steps: seq<Step>): nat {
    if steps == [] then 0 else (if steps[0].Dial? && !steps[0].ok then 1 else 0) + Failed(steps[1..])
  }

  /** Every failed dial loses a slot, whatever else goes on. */
  lemma {:induction false} FailedDialsAreLost(size: int, s: State, steps: seq<Step>, s': State)
    requires Inv(size, s) && Runs(size, s, steps, s')
    ensures s'.lost >= s.lost + Failed(steps)
    decreases steps
  {
    if steps != [] {
      StepKeepsInv(size, s, steps[0]);
      FailedDialsAreLost(size, Apply(size, s, steps[0]), steps[1..], s');
    }
  }

  /** After PoolSize failed dials, in any run, nobody has a connection, and nobody ever gets one again. */
  lemma FailedDialsExhaust(size: int, idle: nat, s: State, steps: seq<Step>, m: State, more: seq<Step>, s': State)
    requires Initial(size, idle, s) && Runs(size, s, steps, m) && Failed(steps) >= size && Runs(size, m, more, s')
    ensures m.lost == size && s'.pool.conns == [] && forall t :: !HasSlot(PhaseOf(s', t))
  {
    InitialInv(size, idle, s);
    RunKeepsInv(size, s, steps, m);
    FailedDialsAreLost(size, s, steps, m);
    ExhaustedForGood(size, m, more, s');
  }

  /** n Gets one after another, by threads 1 to n, all of whose dials fail. */
  function FailingGets(n: nat): seq<Step> {
    if n == 0 then [] else FailingGets(n - 1) + DialSteps(n, false)
  }

  lemma {:induction false} FailedAppend(a: seq<Step>, b: seq<Step>)
    ensures Failed(a + b) == Failed(a) + Failed(b)
  {
    if a == [] {
      assert a + b == b;
    } else {
      assert (a + b)[1..] == a[1..] + b;
      FailedAppend(a[1..], b);
    }
  }

  /** For example, an empty pool of any size with as many Gets in a row. */
  lemma {:induction false} FailingGetsFail(size: nat, s: State, n: nat) returns (s': State)
    requires Initial(size, 0, s) && n <= size
    ensures Runs(size, s, FailingGets(n), s') && Failed(FailingGets(n)) == n
    ensures s'.pool == PoolVars([], n, false) && !s'.shut && AllIdle(s')
  {
    if n == 0 {
      s' := s;
    } else {
      var m := FailingGetsFail(size, s, n - 1);
      var more;
      more, s' := DialingGet(size, m, n, false);
      RunsInSequence(size, s, FailingGets(n - 1), m, more, s');
      FailedAppend(FailingGets(n - 1), more);
      FailedDial(n);
    }
  }

  lemma FailedDial(t: Thread)
    ensures Failed(DialSteps(t, false)) == 1
  {
    var c := [Dial(t, false)];
    assert c[1..] == [];
    assert Failed(c) == 1;
    FailedAppend([GetBegin(t), TryTake(t), TakeSlot(t)], c);
    assert [GetBegin(t), TryTake(t), TakeSlot(t)] + c == DialSteps(t, false);
    var b := [TryTake(t), TakeSlot(t)];
    assert [GetBegin(t), TryTake(t), TakeSlot(t)][1..] == b && b[1..] == [TakeSlot(t)] && [TakeSlot(t)][1..] == [];
    assert Failed(b) == 0;
  }

  // ---------------------------------------------------------------- closing the pool

  function Seeking(threads: map<Thread, Phase>): set<Thread> {
    set t | t in threads && threads[t].NeedSlot?
  }

  /** Some thread has looked at `closed` and is still to use the channel, or may be left waiting on it. */
  ghost predicate Racing(size: int, s: State) {
    || (exists t | t in s.threads :: s.threads[t].Checked? || s.threads[t].Waiting? || s.threads[t].Sending?)
    || s.pool.created + |Seeking(s.threads)| > size
  }

  lemma SeekingChanges(threads: map<Thread, Phase>, t: Thread, ph: Phase)
    requires !ph.NeedSlot?
    ensures Seeking(threads[t := ph]) == Seeking(threads) - {t}
  {
  }

  /** What a thread's step does when the pool is closed and nobody is racing. */
  lemma CalmThreadMoves(size: int, s: State, e: Step) returns (ph: Phase)
    requires s.pool.closed && Enabled(s, e) && !Racing(size, s) && OfThread(e)
    ensures var s' := Apply(size, s, e);
            && s'.threads == s.threads[e.t := ph] && (ph.Idle? || ph.Held? || ph.Dialing? || ph.Putting?)
            && s'.pool.created == s.pool.created + (if e.t in Seeking(s.threads) then 1 else 0)
  {
    var s' := Apply(size, s, e);
    assert e.t in s.threads ==> !s.threads[e.t].Checked? && !s.threads[e.t].Waiting? && !s.threads[e.t].Sending?;
    ph := s'.threads[e.t];
    if e.TakeSlot? {
      assert e.t in Seeking(s.threads);
    }
  }

  /** Once the pool is closed with nobody racing, no thread starts to. */
  lemma StepKeepsCalm(size: int, s: State, e: Step)
    requires s.pool.closed && Enabled(s, e) && !Racing(size, s)
    ensures var s' := Apply(size, s, e);
            s'.pool.closed && !Racing(size, s') && forall t :: PhaseOf(s', t).Panicked? ==> PhaseOf(s, t).Panicked?
  {
    if OfThread(e) {
      var ph := CalmThreadMoves(size, s, e);
      SeekingChanges(s.threads, e.t, ph);
      MoveKeepsCalm(size, s, Apply(size, s, e), e.t, ph);
    }
  }

  lemma MoveKeepsCalm(size: int, s: State, s': State, t: Thread, ph: Phase)
    requires !Racing(size, s) && s'.threads == s.threads[t := ph]
    requires ph.Idle? || ph.Held? || ph.Dialing? || ph.Putting?
    requires s'.pool.created + |Seeking(s'.threads)| <= s.pool.created + |Seeking(s.threads)|
    ensures !Racing(size, s')
    ensures forall u :: PhaseOf(s', u).Panicked? ==> PhaseOf(s, u).Panicked?
  {
  }

  /** Then the channel is never used again, and nothing panics. */
  lemma {:induction false} ClosedPoolIsLeftAlone(size: int, s: State, steps: seq<Step>, s': State)
    requires Inv(size, s) && s.pool.closed && !Racing(size, s) && Runs(size, s, steps, s')
    ensures forall t :: !Enabled(s', TryTake(t)) && !Enabled(s', TakeWaiting(t)) && !Enabled(s', PutSend(t))
    ensures forall t :: PhaseOf(s', t).Panicked? ==> PhaseOf(s, t).Panicked?
    decreases steps
  {
    if steps != [] {
      StepKeepsCalm(size, s, steps[0]);
      StepKeepsInv(size, s, steps[0]);
      ClosedPoolIsLeftAlone(size, Apply(size, s, steps[0]), steps[1..], s');
    }
  }

  lemma {:induction false} DrainAll(size: int, s: State) returns (steps: seq<Step>, s': State)
    requires Inv(size, s) && s.shut
    ensures Runs(size, s, steps, s') && Inv(size, s') && s'.shut && s'.pool.conns == []
    ensures s'.threads == s.threads && s'.pool.created == s.pool.created
    decreases |s.pool.conns|
  {
    if s.pool.conns == [] {
      steps, s' := [], s;
    } else {
      StepKeepsInv(size, s, Drain);
      steps, s' := DrainAll(size, Apply(size, s, Drain));
      RunsFrom(size, s, Drain, steps, s');
      steps := [Drain] + steps;
    }
  }

  /** The steps lead from s to a state in which t has panicked, as it had not before. */
  ghost predicate Panics(size: int, s: State, steps: seq<Step>, s': State, t: Thread) {
    Runs(size, s, steps, s') && PhaseOf(s', t).Panicked? && !PhaseOf(s, t).Panicked?
  }

  /** With the channel closed and empty, a race ends in a panic. */
  lemma {:induction false} RaceIsLost(size: int, s: State) returns (steps: seq<Step>, s': State, t: Thread)
    requires Inv(size, s) && s.shut && s.pool.conns == [] && Racing(size, s)
    ensures Panics(size, s, steps, s', t)
    decreases |Seeking(s.threads)|
  {
    var e;
    if u :| u in s.threads && (s.threads[u].Checked? || s.threads[u].Waiting? || s.threads[u].Sending?) {
      t, e := u, Next(s, u);
      steps, s' := [], Apply(size, s, e);
    } else {
      var u :| u in Seeking(s.threads);
      e := TakeSlot(u);
      var m := Apply(size, s, e);
      StepKeepsInv(size, s, e);
      SeekingChanges(s.threads, u, m.threads[u]);
      assert m.threads[u].Waiting? || m.pool.created == s.pool.created + 1;
      steps, s', t := RaceIsLost(size, m);
    }
    RunsFrom(size, s, e, steps, s');
    steps := [e] + steps;
  }

  /** The rest of Close: the channel is closed, if it is not yet, and drained. */
  lemma FinishClosing(size: int, s: State) returns (steps: seq<Step>, s': State)
    requires Inv(size, s) && s.pool.closed
    ensures Runs(size, s, steps, s') && Inv(size, s') && s'.shut && s'.pool.conns == []
    ensures s'.threads == s.threads && s'.pool.created == s.pool.created
  {
    if s.shut {
      steps, s' := DrainAll(size, s);
    } else {
      StepKeepsInv(size, s, CloseChannel);
      steps, s' := DrainAll(size, Apply(size, s, CloseChannel));
      RunsFrom(size, s, CloseChannel, steps, s');
      steps := [CloseChannel] + steps;
    }
  }

  /** Closing the pool leads to a panic, at once or later, exactly when some thread is racing with it. */
  lemma CloseCanPanicIffRacing(size: int, s: State)
    requires Inv(size, s) && s.pool.closed
    ensures Racing(size, s) <==> exists steps, s', t :: Panics(size, s, steps, s', t)
  {
    if Racing(size, s) {
      var first, m := FinishClosing(size, s);
      var more, s', t := RaceIsLost(size, m);
      RunsInSequence(size, s, first, m, more, s');
      assert Panics(size, s, first + more, s', t);
    } else {
      forall steps, s', t | Runs(size, s, steps, s')
        ensures !Panics(size, s, steps, s', t)
      {
        ClosedPoolIsLeftAlone(size, s, steps, s');
      }
    }
  }

  // ---------------------------------------------------------------- the class, section by section

  class Conn {
    var closed: bool

    constructor ()
      ensures !closed
    {
      closed := false;
    }

    method Close()
      modifies this
      ensures closed
    {
      closed := true;
    }
  }

  class ConnPool {
    const size: nat
    var conns: seq<Conn>
    var closed: bool
    var created: int

    ghost function Vars(): PoolVars<Conn>
      reads this
    {
      PoolVars(conns, created, closed)
    }

    /** NewPool; dials[i] says whether the i-th connection could be made. */
    constructor (poolSize: int, minIdleConns: int, dials: seq<bool>)
      requires |dials| >= minIdleConns
      ensures size == if poolSize <= 0 then 10 else poolSize
      ensures closed <==> exists i | 0 <= i < minIdleConns && i < size :: !dials[i]
      ensures !closed ==>
        && created == |conns| == (if minIdleConns < 0 then 0 else if minIdleConns < size then minIdleConns else size)
        && fresh(conns) && (forall c | c in conns :: !c.closed)
        && forall i, j | 0 <= i < j < |conns| :: conns[i] != conns[j]
      ensures closed ==> conns == []
    {
      size := if poolSize <= 0 then 10 else poolSize;
      conns, closed, created := [], false, 0;
      new;
      var i := 0;
      while i < minIdleConns && i < size
        invariant !closed && created == |conns| == i
        invariant i <= size && (i <= minIdleConns || i == 0)
        invariant forall k | 0 <= k < i :: dials[k]
        invariant fresh(conns) && (forall c | c in conns :: !c.closed)
        invariant forall j, k | 0 <= j < k < |conns| :: conns[j] != conns[k]
      {
        if !dials[i] {
          Close();
          return;
        }
        var conn := new Conn();
        conns := conns + [conn];
        created := created + 1;
        i := i + 1;
      }
    }

    method TryReceive() returns (conn: Option<Conn>)
      modifies this`conns
      ensures (Vars(), conn) == Receive(old(Vars()))
      ensures old(conns) == [] ==> conn == None && conns == []
      ensures old(conns) != [] ==> conn == Some(old(conns)[0]) && conns == old(conns)[1..]
    {
      if conns == [] {
        return None;
      }
      conn := Some(conns[0]);
      conns := conns[1..];
    }

    method ReserveSlot() returns (reserved: bool)
      modifies this`created
      ensures (Vars(), reserved) == Reserve(old(Vars()), size)
      ensures (reserved <==> old(created) < size) && created == old(created) + if reserved then 1 else 0
    {
      reserved := created < size;
      if reserved {
        created := created + 1;
      }
    }

    method TrySend(conn: Conn) returns (sent: bool)
      modifies this`conns, this`created, conn
      ensures (Vars(), sent) == Send(old(Vars()), conn, size)
      ensures sent <==> |old(conns)| < size
      ensures conns == (if sent then old(conns) + [conn] else old(conns)) && created == old(created) - if sent then 0 else 1
      ensures conn.closed == (old(conn.closed) || !sent)
    {
      sent := |conns| < size;
      if sent {
        conns := conns + [conn];
      } else {
        conn.Close();
        created := created - 1;
      }
    }

    method Close()
      modifies this`conns, this`closed, conns
      ensures closed
      ensures old(closed) ==> conns == old(conns)
      ensures !old(closed) ==> conns == [] && forall c | c in old(conns) :: c.closed
    {
      if closed {
        return;
      }
      closed := true;
      ghost var k := 0;
      while conns != []
        invariant closed && 0 <= k <= |old(conns)| && conns == old(conns)[k..]
        invariant forall i | 0 <= i < k :: old(conns)[i].closed
        decreases |conns|
      {
        var conn := conns[0];
        conns := conns[1..];
        conn.Close();
        k := k + 1;
      }
    }
  }
}
