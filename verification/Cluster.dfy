/**
 * Brokers exchanging messages (engine/broker.go): publishing with retries, the filter on the
 * receive path, and a step system of nodes between which copies travel in any order.
 */
module Cluster {
  import opened Dedupe
  import opened DedupeCaches

  // ---------------------------------------------------------------- one broker

  /** What unmarshalling a payload, and then the data inside it, yields. */
  datatype Inner = BadData | NodeMessage(messageID: string)
  datatype Payload = BadPayload | Wrapped(nodeID: string, data: string, inner: Inner)
  datatype PubSubMessage = PubSubMessage(kind: string, channel: string, payload: Payload)
  datatype BrokerMessage = BrokerMessage(channel: string, data: string, nodeID: string, messageID: string)

  /** Subscription noise and undecodable payloads are skipped before anything else. */
  predicate Readable(msg: PubSubMessage) {
    msg.kind == "pmessage" && msg.payload.Wrapped? && msg.payload.inner.NodeMessage?
  }

  /** What becomes of a readable message: the filter of the subscription loop. */
  datatype Verdict = Echo | Duplicate | Dropped | Delivered

  function Judge(nodeID: string, from: string, id: string, cache: seq<Entry>, queued: nat, buffer: nat, now: int, ttl: int): Verdict {
    if from == nodeID then Echo
    else if Known(cache, id, now, ttl) then Duplicate
    else if queued < buffer then Delivered
    else Dropped
  }

  /**
   * How one PUBLISH attempt went: done, answered with an error, or without an answer, in which
   * case it may have reached the server. Only the last is an error to the caller.
   */
  datatype Attempt = Done | ErrorReply | Lost(reached: bool, cancelled: bool)
  datatype PublishResult = Succeeded | Cancelled | Exhausted

  predicate Reaches(a: Attempt) {
    a.Done? || (a.Lost? && a.reached)
  }

  function Reached(attempts: seq<Attempt>): (n: nat)
    ensures n <= |attempts|
  {
    if attempts == [] then 0 else Reached(attempts[..|attempts| - 1]) + (if Reaches(attempts[|attempts| - 1]) then 1 else 0)
  }

  lemma {:induction false} ReachedSome(attempts: seq<Attempt>)
    ensures Reached(attempts) > 0 <==> exists i | 0 <= i < |attempts| :: Reaches(attempts[i])
  {
    if attempts != [] {
      var rest := attempts[..|attempts| - 1];
      ReachedSome(rest);
      assert forall i | 0 <= i < |rest| :: rest[i] == attempts[i];
    }
  }

  /** The attempts that reached the server, by number. */
  function ReachedAt(attempts: seq<Attempt>, n: nat): set<nat>
    requires n <= |attempts|
  {
    set i: nat | i < n && (attempts[i].Done? || (attempts[i].Lost? && attempts[i].reached))
  }

  lemma {:induction false} ReachedCount(attempts: seq<Attempt>, n: nat)
    requires n <= |attempts|
    ensures Reached(attempts[..n]) == |ReachedAt(attempts, n)|
  {
    if n > 0 {
      ReachedCount(attempts, n - 1);
      assert attempts[..n][..n - 1] == attempts[..n - 1];
      assert ReachedAt(attempts, n) == ReachedAt(attempts, n - 1) + (if Reaches(attempts[n - 1]) then {n - 1} else {});
    }
  }

  /** What Publish reports after trying so many of the attempts. */
  predicate Outcome(attempts: seq<Attempt>, maxRetries: nat, result: PublishResult, tried: nat) {
    && tried <= maxRetries <= |attempts|
    && (forall i | 0 <= i < tried - 1 :: attempts[i].Lost? && !attempts[i].cancelled)
    && match result
       case Succeeded => tried > 0 && !attempts[tried - 1].Lost?
       case Cancelled => tried > 0 && attempts[tried - 1].Lost? && attempts[tried - 1].cancelled
       case Exhausted => tried == maxRetries && (tried > 0 ==> attempts[tried - 1].Lost? && !attempts[tried - 1].cancelled)
  }

  /** There is one outcome. */
  lemma OutcomeIsUnique(attempts: seq<Attempt>, maxRetries: nat, r: PublishResult, t: nat, r': PublishResult, t': nat)
    requires Outcome(attempts, maxRetries, r, t) && Outcome(attempts, maxRetries, r', t')
    ensures r == r' && t == t'
  {
  }

  /** A publish reported as a success was published exactly when the last reply was no error, or an earlier attempt got through. */
  lemma SuccessWasPublishedIff(attempts: seq<Attempt>, maxRetries: nat, tried: nat)
    requires Outcome(attempts, maxRetries, Succeeded, tried)
    ensures Reached(attempts[..tried]) > 0 <==>
            !attempts[tried - 1].ErrorReply? || exists i | 0 <= i < tried - 1 :: attempts[i].reached
  {
    ReachedSome(attempts[..tried]);
    assert forall i | 0 <= i < tried :: attempts[..tried][i] == attempts[i];
    if !attempts[tried - 1].ErrorReply? {
      assert Reaches(attempts[..tried][tried - 1]);
    } else if i :| 0 <= i < tried - 1 && attempts[i].reached {
      assert Reaches(attempts[..tried][i]);
    }
  }

  /** For example, an error reply to the first attempt: nothing is published, nothing is tried again, and success is reported. */
  lemma ErrorReplyIsReportedSuccess(attempts: seq<Attempt>, maxRetries: nat, result: PublishResult, tried: nat)
    requires Outcome(attempts, maxRetries, result, tried) && maxRetries > 0 && attempts[0].ErrorReply?
    ensures result == Succeeded && tried == 1 && Reached(attempts[..tried]) == 0
  {
    OutcomeIsUnique(attempts, maxRetries, result, tried, Succeeded, 1);
    assert attempts[..1] == [attempts[0]] && attempts[..1][..0] == [];
  }

  class RedisBroker {
    const nodeID: string
    const maxRetries: nat
    const bufferSize: nat
    const dedupe: DedupeCache
    var msgChan: seq<BrokerMessage>
    var copies: nat

    ghost predicate Valid()
      reads this, dedupe
    {
      dedupe.Valid() && |msgChan| <= bufferSize
    }

    constructor (nodeID: string, maxRetries: int, bufferSize: int, dedupe: DedupeCache)
      requires dedupe.Valid()
      ensures Valid() && this.nodeID == nodeID && this.dedupe == dedupe && msgChan == [] && copies == 0
      ensures this.maxRetries == if maxRetries <= 0 then 3 else maxRetries
      ensures this.bufferSize == if bufferSize <= 0 then 1000 else bufferSize
    {
      this.nodeID := nodeID;
      this.maxRetries := if maxRetries <= 0 then 3 else maxRetries;
      this.bufferSize := if bufferSize <= 0 then 1000 else bufferSize;
      this.dedupe := dedupe;
      msgChan, copies := [], 0;
    }

    /** Publishes until an attempt is answered, the context is cancelled or the retries run out. */
    method Publish(attempts: seq<Attempt>) returns (result: PublishResult, tried: nat)
      requires |attempts| >= maxRetries
      modifies this`copies
      ensures Outcome(attempts, maxRetries, result, tried)
      ensures copies == old(copies) + Reached(attempts[..tried])
      ensures copies == old(copies) + |set i: nat | i < tried && (attempts[i].Done? || (attempts[i].Lost? && attempts[i].reached))|
      ensures forall k | 0 <= k < maxRetries && (!attempts[k].Lost? || attempts[k].cancelled)
                && forall i | 0 <= i < k :: attempts[i].Lost? && !attempts[i].cancelled ::
                tried == k + 1 && result == if attempts[k].Lost? then Cancelled else Succeeded
      ensures (forall i | 0 <= i < maxRetries :: attempts[i].Lost? && !attempts[i].cancelled) ==> tried == maxRetries && result == Exhausted
    {
      for attempt := 0 to maxRetries
        invariant copies == old(copies) + Reached(attempts[..attempt])
        invariant forall i | 0 <= i < attempt :: attempts[i].Lost? && !attempts[i].cancelled
      {
        assert attempts[..attempt + 1][..attempt] == attempts[..attempt];
        if Reaches(attempts[attempt]) {
          copies := copies + 1;
        }
        ReachedCount(attempts, attempt + 1);
        if !attempts[attempt].Lost? {
          return Succeeded, attempt + 1;
        }
        if attempts[attempt].cancelled {
          return Cancelled, attempt + 1;
        }
      }
      ReachedCount(attempts, maxRetries);
      return Exhausted, maxRetries;
    }

    /** What this broker makes of a readable message. */
    ghost function VerdictOn(msg: PubSubMessage, now: int): Verdict
      requires Valid() && Readable(msg)
      reads this, dedupe
    {
      Judge(nodeID, msg.payload.nodeID, msg.payload.inner.messageID, dedupe.Contents(), |msgChan|, bufferSize, now, dedupe.ttl)
    }

    /** One turn of the subscription loop: filter, then a send that never blocks. */
    method Receive(msg: PubSubMessage, checked: int, stored: int) returns (sent: bool)
      requires Valid()
      modifies this`msgChan, dedupe
      ensures Valid()
      ensures dedupe.Contents() ==
              if msg.kind == "pmessage" && msg.payload.Wrapped? && msg.payload.inner.NodeMessage? && msg.payload.nodeID != nodeID
              then Checked(old(dedupe.Contents()), msg.payload.inner.messageID, checked, stored, dedupe.maxSize, dedupe.ttl)
              else old(dedupe.Contents())
      ensures sent <==> Readable(msg) && old(VerdictOn(msg, checked)) == Delivered
      ensures sent <==>
        && msg.kind == "pmessage" && msg.payload.Wrapped? && msg.payload.inner.NodeMessage? && msg.payload.nodeID != nodeID
        && (forall i | 0 <= i < |old(dedupe.Contents())| && old(dedupe.Contents())[i].id == msg.payload.inner.messageID ::
              checked - old(dedupe.Contents())[i].at >= dedupe.ttl)
        && |old(msgChan)| < bufferSize
      ensures sent ==>
        && |msgChan| == |old(msgChan)| + 1 && msgChan[..|old(msgChan)|] == old(msgChan)
        && var last := msgChan[|old(msgChan)|];
           && last.channel == msg.channel && last.data == msg.payload.data
           && last.nodeID == msg.payload.nodeID && last.messageID == msg.payload.inner.messageID
      ensures !sent ==> msgChan == old(msgChan)
    {
      if msg.kind != "pmessage" {
        return false;
      }
      if msg.payload.BadPayload? {
        return false;
      }
      var wrapped := msg.payload;
      if wrapped.nodeID == nodeID {
        return false;
      }
      if wrapped.inner.BadData? {
        return false;
      }
      var duplicate := dedupe.IsDuplicate(wrapped.inner.messageID, checked, stored);
      if duplicate {
        return false;
      }
      if |msgChan| < bufferSize {
        msgChan := msgChan + [BrokerMessage(msg.channel, wrapped.data, wrapped.nodeID, wrapped.inner.messageID)];
        return true;
      }
      return false;
    }
  }

  // ---------------------------------------------------------------- the cluster as a step system

  /**
   * One copy of a published message on its way to one node. The message is `from`, `id` and
   * `number` together: a node may give one ID to several messages, which the code cannot tell apart.
   */
  datatype Copy = Copy(to: string, from: string, id: string, number: nat)

  /** A message put on a node's channel, with the position of its accept in the node's log. */
  datatype Forward = Forward(copy: Copy, accept: nat)

  /** `log` and `accepted` record accepts for the theorems; the code keeps only cache and queue. */
  datatype Node = Node(cache: seq<Entry>, log: seq<Entry>, accepted: seq<Copy>, clock: int, consumed: seq<Forward>, queue: seq<Forward>)

  datatype State = State(nodes: map<string, Node>, wire: multiset<Copy>, published: multiset<Copy>, received: multiset<Copy>)

  datatype Params = Params(size: nat, ttl: int, buffer: nat)

  datatype Event =
    | Publish(from: string, id: string, number: nat, batch: multiset<Copy>)
    | Deliver(copy: Copy, checked: int, stored: int)
    | Clean(name: string, now: int)
    | Consume(name: string)

  function Sent(n: Node): seq<Forward> {
    n.consumed + n.queue
  }

  /** A node's own clock only moves forward. A publish may put any number of copies on the wire. */
  ghost predicate Enabled(s: State, e: Event) {
    match e
    case Publish(from, id, number, batch) =>
      && from in s.nodes
      && forall c | c in batch :: c.from == from && c.id == id && c.number == number && c.to in s.nodes
    case Deliver(copy, checked, stored) =>
      copy in s.wire && copy.to in s.nodes && s.nodes[copy.to].clock <= checked <= stored
    case Clean(name, now) => name in s.nodes && s.nodes[name].clock <= now
    case Consume(name) => name in s.nodes
  }

  /** The receive path of node `name`: echo filter, duplicate check, non-blocking send. */
  function Arrive(p: Params, name: string, n: Node, c: Copy, checked: int, stored: int): Node {
    var cache, log := Checked(n.cache, c.id, checked, stored, p.size, p.ttl), n.log + [Entry(c.id, stored)];
    match Judge(name, c.from, c.id, n.cache, |n.queue|, p.buffer, checked, p.ttl)
    case Echo => n
    case Duplicate => n.(clock := stored)
    case Dropped => n.(cache := cache, log := log, accepted := n.accepted + [c], clock := stored)
    case Delivered =>
      n.(cache := cache, log := log, accepted := n.accepted + [c], clock := stored, queue := n.queue + [Forward(c, |n.log|)])
  }

  /** An arrival changes the cache and the queue as RedisBroker.Receive does. */
  lemma ArriveIsReceive(p: Params, name: string, n: Node, c: Copy, checked: int, stored: int)
    ensures var n' := Arrive(p, name, n, c, checked, stored);
            && n'.cache == (if c.from != name then Checked(n.cache, c.id, checked, stored, p.size, p.ttl) else n.cache)
            && n'.consumed == n.consumed && n.queue <= n'.queue
            && (|n'.queue| == |n.queue| + 1 <==>
                 && c.from != name && |n.queue| < p.buffer
                 && forall i | 0 <= i < |n.cache| && n.cache[i].id == c.id :: checked - n.cache[i].at >= p.ttl)
            && (n'.queue != n.queue ==> n'.queue == n.queue + [Forward(c, |n.log|)])
  {
  }

  /** The application takes the oldest message off the channel, if there is one. */
  function Consumed(n: Node): Node {
    if n.queue == [] then n else n.(consumed := n.consumed + [n.queue[0]], queue := n.queue[1..])
  }

  ghost function Apply(p: Params, s: State, e: Event): State
    requires Enabled(s, e)
  {
    match e
    case Publish(_, _, _, batch) =>
      s.(wire := s.wire + batch, published := s.published + batch)
    case Deliver(copy, checked, stored) =>
      s.(wire := s.wire - multiset{copy}, received := s.received + multiset{copy},
         nodes := s.nodes[copy.to := Arrive(p, copy.to, s.nodes[copy.to], copy, checked, stored)])
    case Clean(name, now) =>
      var n := s.nodes[name];
      s.(nodes := s.nodes[name := n.(cache := Swept(n.cache, now, p.ttl), clock := now)])
    case Consume(name) => s.(nodes := s.nodes[name := Consumed(s.nodes[name])])
  }

  ghost predicate Initial(s: State) {
    && s.wire == s.published == s.received == multiset{}
    && forall name | name in s.nodes :: var n := s.nodes[name]; n.cache == n.log == [] && n.accepted == [] && Sent(n) == []
  }

  /** s' is reached from s by the events in order, each enabled when it happens. */
  ghost predicate Runs(p: Params, s: State, events: seq<Event>, s': State)
    decreases events
  {
    if events == [] then s == s'
    else Enabled(s, events[0]) && Runs(p, Apply(p, s, events[0]), events[1..], s')
  }

  // ---------------------------------------------------------------- what every step keeps

  function AsCopies(sent: seq<Forward>): multiset<Copy> {
    if sent == [] then multiset{}
    else AsCopies(sent[..|sent| - 1]) + multiset{sent[|sent| - 1].copy}
  }

  /** Each forward is of the message accepted at its position, and no position is forwarded twice. */
  ghost predicate Traced(sent: seq<Forward>, accepted: seq<Copy>) {
    && (forall k | 0 <= k < |sent| :: sent[k].accept < |accepted| && accepted[sent[k].accept] == sent[k].copy)
    && (forall k, l | 0 <= k < l < |sent| :: sent[k].accept < sent[l].accept)
  }

  /** The log is that of the messages accepted. */
  ghost predicate Named(n: Node) {
    |n.accepted| == |n.log| && forall i | 0 <= i < |n.log| :: n.accepted[i].id == n.log[i].id
  }

  ghost predicate NodeInv(p: Params, name: string, n: Node, received: multiset<Copy>) {
    && LogInv(p, n)
    && Named(n) && Heard(name, n.accepted, received)
    && QueueInv(p, n, received)
  }

  ghost predicate QueueInv(p: Params, n: Node, received: multiset<Copy>) {
    |n.queue| <= p.buffer && Traced(Sent(n), n.accepted) && AsCopies(Sent(n)) <= received
  }

  predicate Remote(c: Copy) {
    c.from != c.to
  }

  /** Remote messages received, and no others, are accepted; each one itself or another with its ID. */
  ghost predicate Heard(name: string, accepted: seq<Copy>, received: multiset<Copy>) {
    && (forall i | 0 <= i < |accepted| :: accepted[i] in received && accepted[i].to == name && Remote(accepted[i]))
    && (forall c | c in received && c.to == name && Remote(c) :: AcceptedId(accepted, c.id))
  }

  predicate AcceptedId(accepted: seq<Copy>, id: string) {
    exists i | 0 <= i < |accepted| :: accepted[i].id == id
  }

  ghost predicate Inv(p: Params, s: State) {
    && p.size > 0 && p.ttl > 0
    && s.wire + s.received == s.published
    && (forall c | c in s.received :: c.to in s.nodes)
    && forall name | name in s.nodes :: NodeInv(p, name, s.nodes[name], s.received)
  }

  lemma ArriveKeepsNode(p: Params, name: string, n: Node, c: Copy, checked: int, stored: int, received: multiset<Copy>)
    requires p.size > 0 && p.ttl > 0 && NodeInv(p, name, n, received)
    requires c.to == name && n.clock <= checked <= stored
    ensures NodeInv(p, name, Arrive(p, name, n, c, checked, stored), received + multiset{c})
  {
    ArriveKeepsLog(p, name, n, c, checked, stored);
    KnownWasAccepted(p, n, c.id, checked);
    ArriveIsHeard(p, name, n, c, checked, stored, received);
    ArriveKeepsQueue(p, name, n, c, checked, stored, received);
  }

  ghost predicate LogInv(p: Params, n: Node) {
    Coupled(n.cache, n.log, n.clock, p.size, p.ttl) && Spaced(n.log, p.size, p.ttl)
  }

  lemma ArriveKeepsLog(p: Params, name: string, n: Node, c: Copy, checked: int, stored: int)
    requires p.size > 0 && p.ttl > 0 && LogInv(p, n) && c.to == name && n.clock <= checked <= stored
    ensures LogInv(p, Arrive(p, name, n, c, checked, stored))
  {
    if Remote(c) {
      var n' := Arrive(p, name, n, c, checked, stored);
      SameAnswer(n.cache, n.log, c.id, n.clock, checked, p.size, p.ttl);
      CheckKeepsCoupling(n.cache, n.log, n.clock, c.id, checked, stored, p.size, p.ttl);
      RecordKeepsSpacing(n.log, c.id, checked, stored, p.size, p.ttl);
      assert n'.log == Record(n.log, c.id, checked, stored, p.size, p.ttl);
    }
  }

  lemma KnownWasAccepted(p: Params, n: Node, id: string, now: int)
    requires LogInv(p, n) && Named(n) && n.clock <= now
    ensures Known(n.cache, id, now, p.ttl) ==> AcceptedId(n.accepted, id)
  {
    SameAnswer(n.cache, n.log, id, n.clock, now, p.size, p.ttl);
    if Recent(n.log, id, now, p.size, p.ttl) {
      RecentWasAccepted(n, id, now, p.size, p.ttl);
    }
  }

  lemma RecentWasAccepted(n: Node, id: string, now: int, size: nat, ttl: int)
    requires Named(n) && Recent(n.log, id, now, size, ttl)
    ensures AcceptedId(n.accepted, id)
  {
    var i :| 0 <= i < |n.log| && n.log[i].id == id;
    assert n.accepted[i].id == id;
  }

  lemma ArriveIsHeard(p: Params, name: string, n: Node, c: Copy, checked: int, stored: int, received: multiset<Copy>)
    requires Named(n) && Heard(name, n.accepted, received) && c.to == name
    requires Known(n.cache, c.id, checked, p.ttl) ==> AcceptedId(n.accepted, c.id)
    ensures var n' := Arrive(p, name, n, c, checked, stored);
            Named(n') && Heard(name, n'.accepted, received + multiset{c})
  {
    if Remote(c) && !Known(n.cache, c.id, checked, p.ttl) {
      AcceptOneMore(name, n.accepted, received, c);
    }
  }

  lemma AcceptOneMore(name: string, accepted: seq<Copy>, received: multiset<Copy>, c: Copy)
    requires Heard(name, accepted, received) && c.to == name && Remote(c)
    ensures Heard(name, accepted + [c], received + multiset{c})
  {
    var accepted' := accepted + [c];
    assert accepted'[|accepted|] == c;
    forall d | d in received + multiset{c} && d.to == name && Remote(d)
      ensures AcceptedId(accepted', d.id)
    {
      if d in received {
        var i :| 0 <= i < |accepted| && accepted[i].id == d.id;
        assert accepted'[i].id == d.id;
      }
    }
  }

  lemma ArriveKeepsQueue(p: Params, name: string, n: Node, c: Copy, checked: int, stored: int, received: multiset<Copy>)
    requires Named(n) && QueueInv(p, n, received) && c.to == name
    ensures QueueInv(p, Arrive(p, name, n, c, checked, stored), received + multiset{c})
  {
    if Remote(c) && !Known(n.cache, c.id, checked, p.ttl) {
      var n' := SentAfter(p, name, n, c, checked, stored);
      TracedOneMore(Sent(n), n.accepted, c);
      AtMost(AsCopies(Sent(n)), received, c);
      assert Traced(Sent(n'), n'.accepted);
      assert AsCopies(Sent(n')) <= received + multiset{c};
    }
  }

  lemma AtMost(a: multiset<Copy>, b: multiset<Copy>, c: Copy)
    requires a <= b
    ensures a <= b + multiset{c} && a + multiset{c} <= b + multiset{c}
  {
  }

  lemma SentAfter(p: Params, name: string, n: Node, c: Copy, checked: int, stored: int) returns (n': Node)
    requires |n.accepted| == |n.log| && |n.queue| <= p.buffer && c.to == name && Remote(c) && !Known(n.cache, c.id, checked, p.ttl)
    ensures n' == Arrive(p, name, n, c, checked, stored) && n'.accepted == n.accepted + [c] && |n'.queue| <= p.buffer
    ensures Sent(n') == if |n.queue| < p.buffer then Sent(n) + [Forward(c, |n.accepted|)] else Sent(n)
  {
    n' := Arrive(p, name, n, c, checked, stored);
    assert n.consumed + (n.queue + [Forward(c, |n.accepted|)]) == Sent(n) + [Forward(c, |n.accepted|)];
  }

  lemma TracedOneMore(sent: seq<Forward>, accepted: seq<Copy>, c: Copy)
    requires Traced(sent, accepted)
    ensures Traced(sent, accepted + [c]) && Traced(sent + [Forward(c, |accepted|)], accepted + [c])
    ensures AsCopies(sent + [Forward(c, |accepted|)]) == AsCopies(sent) + multiset{c}
  {
    assert (sent + [Forward(c, |accepted|)])[..|sent|] == sent;
  }

  lemma StepKeepsInv(p: Params, s: State, e: Event)
    requires Inv(p, s) && Enabled(s, e)
    ensures Inv(p, Apply(p, s, e))
  {
    var s' := Apply(p, s, e);
    CopiesAreConserved(p, s, e);
    forall name | name in s'.nodes
      ensures NodeInv(p, name, s'.nodes[name], s'.received)
    {
      StepKeepsNode(p, s, e, name);
    }
  }

  lemma CopiesAreConserved(p: Params, s: State, e: Event)
    requires s.wire + s.received == s.published && (forall c | c in s.received :: c.to in s.nodes) && Enabled(s, e)
    ensures Apply(p, s, e).nodes.Keys == s.nodes.Keys
    ensures var s' := Apply(p, s, e);
            && s'.wire + s'.received == s'.published && forall c | c in s'.received :: c.to in s'.nodes
  {
    match e
    case Publish(_, _, _, batch) => Regroup(s.wire, s.received, batch);
    case Deliver(copy, _, _) => MoveOne(s.wire, s.received, copy);
    case Clean(_, _) =>
    case Consume(_) =>
  }

  lemma Regroup(a: multiset<Copy>, b: multiset<Copy>, c: multiset<Copy>)
    ensures (a + c) + b == (a + b) + c
  {
  }

  lemma MoveOne(from: multiset<Copy>, to: multiset<Copy>, c: Copy)
    requires c in from
    ensures (from - multiset{c}) + (to + multiset{c}) == from + to
    ensures forall d | d in to + multiset{c} :: d in to || d == c
  {
  }

  lemma StepKeepsNode(p: Params, s: State, e: Event, name: string)
    requires p.size > 0 && p.ttl > 0
    requires Enabled(s, e) && name in s.nodes && NodeInv(p, name, s.nodes[name], s.received)
    ensures NodeInv(p, name, Apply(p, s, e).nodes[name], Apply(p, s, e).received)
  {
    var n := s.nodes[name];
    match e
    case Publish(_, _, _, _) =>
    case Deliver(copy, checked, stored) =>
      if name == copy.to {
        ArriveKeepsNode(p, name, n, copy, checked, stored, s.received);
      } else {
        OtherNode(p, name, n, copy, s.received);
      }
    case Clean(other, now) =>
      if name == other {
        CleanKeepsNode(p, name, n, now, s.received);
      }
    case Consume(other) =>
      if name == other {
        ConsumeKeepsNode(p, name, n, s.received);
      }
  }

  lemma OtherNode(p: Params, name: string, n: Node, c: Copy, received: multiset<Copy>)
    requires NodeInv(p, name, n, received) && c.to != name
    ensures NodeInv(p, name, n, received + multiset{c})
  {
    assert forall d | d in received + multiset{c} && d.to == name :: d in received;
  }

  lemma CleanKeepsNode(p: Params, name: string, n: Node, now: int, received: multiset<Copy>)
    requires NodeInv(p, name, n, received) && n.clock <= now
    ensures NodeInv(p, name, n.(cache := Swept(n.cache, now, p.ttl), clock := now), received)
  {
    SweepKeepsCoupling(n.cache, n.log, n.clock, now, p.size, p.ttl);
    assert Sent(n.(cache := Swept(n.cache, now, p.ttl), clock := now)) == Sent(n);
  }

  lemma ConsumeKeepsNode(p: Params, name: string, n: Node, received: multiset<Copy>)
    requires NodeInv(p, name, n, received)
    ensures NodeInv(p, name, Consumed(n), received)
  {
    ConsumeKeepsQueue(p, n, received);
  }

  lemma ConsumeKeepsQueue(p: Params, n: Node, received: multiset<Copy>)
    requires QueueInv(p, n, received)
    ensures QueueInv(p, Consumed(n), received)
  {
    assert Sent(Consumed(n)) == Sent(n);
  }

  lemma EmptyNode(p: Params, name: string, n: Node)
    requires n.cache == [] && n.log == [] && n.accepted == [] && Sent(n) == []
    ensures NodeInv(p, name, n, multiset{})
  {
    assert CoupledBy([], 0, n.cache, n.log, n.clock, p.size, p.ttl);
    assert |n.queue| <= |Sent(n)|;
    assert AsCopies([]) == multiset{};
  }

  lemma InitialInv(p: Params, s: State)
    requires Initial(s) && p.size > 0 && p.ttl > 0
    ensures Inv(p, s)
  {
    forall name | name in s.nodes
      ensures NodeInv(p, name, s.nodes[name], s.received)
    {
      EmptyNode(p, name, s.nodes[name]);
    }
    NothingSent(s.wire, s.received, s.published);
  }

  lemma NothingSent(wire: multiset<Copy>, received: multiset<Copy>, published: multiset<Copy>)
    requires wire == multiset{} && received == multiset{} && published == multiset{}
    ensures wire + received == published
  {
  }

  lemma {:induction false} RunKeepsInv(p: Params, s: State, events: seq<Event>, s': State)
    requires Inv(p, s) && Runs(p, s, events, s')
    ensures Inv(p, s')
    decreases events
  {
    if events != [] {
      StepKeepsInv(p, s, events[0]);
      RunKeepsInv(p, Apply(p, s, events[0]), events[1..], s');
    }
  }

  // ---------------------------------------------------------------- theorems over whole runs

  /** No node ever forwards a message it sent itself. */
  lemma NoEcho(p: Params, s: State, events: seq<Event>, s': State, name: string, k: nat)
    requires p.size > 0 && p.ttl > 0 && Initial(s) && Runs(p, s, events, s')
    requires name in s'.nodes && k < |Sent(s'.nodes[name])|
    ensures Sent(s'.nodes[name])[k].copy.from != name
  {
    InitialInv(p, s);
    RunKeepsInv(p, s, events, s');
    assert NodeInv(p, name, s'.nodes[name], s'.received);
  }

  /** A repeat is forwarded only ttl after the first time, or after size other accepts. */
  lemma NoEarlyRepeat(p: Params, s: State, events: seq<Event>, s': State, name: string, k: nat, l: nat)
    requires p.size > 0 && p.ttl > 0 && Initial(s) && Runs(p, s, events, s')
    requires name in s'.nodes && k < l < |Sent(s'.nodes[name])|
    requires Sent(s'.nodes[name])[k].copy.id == Sent(s'.nodes[name])[l].copy.id
    ensures var n := s'.nodes[name];
            var a, b := Sent(n)[k].accept, Sent(n)[l].accept;
            && a < b < |n.log| && n.log[a].id == n.log[b].id == Sent(n)[k].copy.id
            && (n.log[b].at - n.log[a].at >= p.ttl || b - 1 - a >= p.size)
  {
    InitialInv(p, s);
    RunKeepsInv(p, s, events, s');
    assert NodeInv(p, name, s'.nodes[name], s'.received);
  }

  /** Nothing is invented: forwards at a node are among the copies published to it. */
  lemma ForwardsWerePublished(p: Params, s: State, events: seq<Event>, s': State, name: string)
    requires p.size > 0 && p.ttl > 0 && Initial(s) && Runs(p, s, events, s') && name in s'.nodes
    ensures AsCopies(Sent(s'.nodes[name])) <= s'.received
    ensures s'.received + s'.wire == s'.published
  {
    InitialInv(p, s);
    RunKeepsInv(p, s, events, s');
    assert NodeInv(p, name, s'.nodes[name], s'.received);
  }

  /** Every remote message that arrived shares its ID with one that was accepted. */
  lemma ArrivalsWereHeard(p: Params, s: State, events: seq<Event>, s': State, c: Copy)
    requires p.size > 0 && p.ttl > 0 && Initial(s) && Runs(p, s, events, s')
    requires c in s'.received && Remote(c)
    ensures c.to in s'.nodes && AcceptedId(s'.nodes[c.to].accepted, c.id)
    ensures forall a | a in s'.nodes[c.to].accepted :: a in s'.published && a.to == c.to && Remote(a)
  {
    InitialInv(p, s);
    RunKeepsInv(p, s, events, s');
    assert NodeInv(p, c.to, s'.nodes[c.to], s'.received);
  }

  /** No node is sent two different remote messages with one ID. */
  predicate Distinguishable(published: multiset<Copy>) {
    forall a, b | a in published && b in published && a.to == b.to && a.id == b.id && Remote(a) && Remote(b) :: a == b
  }

  ghost predicate AllAccepted(s: State) {
    forall c | c in s.received && Remote(c) :: c.to in s.nodes && c in s.nodes[c.to].accepted
  }

  /** Then every remote message that arrived was itself accepted. */
  lemma ArrivalsWereAccepted(p: Params, s: State, events: seq<Event>, s': State)
    requires p.size > 0 && p.ttl > 0 && Initial(s) && Runs(p, s, events, s') && Distinguishable(s'.published)
    ensures AllAccepted(s')
  {
    forall c | c in s'.received && Remote(c)
      ensures c.to in s'.nodes && c in s'.nodes[c.to].accepted
    {
      ForwardsAreConserved(p, s, events, s');
      ArrivalsWereHeard(p, s, events, s', c);
      var a :| a in s'.nodes[c.to].accepted && a.id == c.id;
      assert c in s'.published && a == c;
    }
  }

  lemma ForwardsAreConserved(p: Params, s: State, events: seq<Event>, s': State)
    requires p.size > 0 && p.ttl > 0 && Initial(s) && Runs(p, s, events, s')
    ensures s'.wire + s'.received == s'.published
  {
    InitialInv(p, s);
    RunKeepsInv(p, s, events, s');
  }

  lemma {:induction false} RunsOn(p: Params, s: State, a: seq<Event>, m: State, b: seq<Event>, s': State)
    requires Runs(p, s, a, m) && Runs(p, m, b, s')
    ensures Runs(p, s, a + b, s')
    decreases a
  {
    if a == [] {
      assert a + b == b;
    } else {
      assert (a + b)[1..] == a[1..] + b;
      RunsOn(p, Apply(p, s, a[0]), a[1..], m, b, s');
    }
  }

  lemma RunsOneMore(p: Params, s: State, a: seq<Event>, m: State, e: Event)
    requires Runs(p, s, a, m) && Enabled(m, e)
    ensures Runs(p, s, a + [e], Apply(p, m, e))
  {
    assert Runs(p, Apply(p, m, e), [e][1..], Apply(p, m, e));
    RunsOn(p, s, a, m, [e], Apply(p, m, e));
  }

  /** Every node a copy comes from or goes to is there. */
  predicate Between(copies: multiset<Copy>, nodes: set<string>) {
    forall c | c in copies :: c.from in nodes && c.to in nodes
  }

  /** Any copies can be published. */
  lemma {:induction false} PublishAll(p: Params, s: State, copies: multiset<Copy>) returns (events: seq<Event>, s': State)
    requires Between(copies, s.nodes.Keys)
    ensures Runs(p, s, events, s')
    ensures s' == s.(wire := s.wire + copies, published := s.published + copies)
    decreases |copies|
  {
    if copies == multiset{} {
      events, s' := [], s;
    } else {
      var c :| c in copies;
      var rest := copies - multiset{c};
      var before, m := PublishAll(p, s, rest);
      var e := Publish(c.from, c.id, c.number, multiset{c});
      RunsOneMore(p, s, before, m, e);
      events, s' := before + [e], Apply(p, m, e);
      assert copies == rest + multiset{c};
    }
  }

  /** Two different messages with one ID, one right after the other: the second is dropped as a duplicate. */
  lemma SecondArrival(p: Params, name: string, n: Node, a: Copy, b: Copy) returns (n1: Node, n2: Node)
    requires p.size > 0 && p.ttl > 0 && n.cache == [] && n.accepted == []
    requires a.id == b.id && a.to == name && b.to == name && Remote(a) && Remote(b)
    ensures n1 == Arrive(p, name, n, a, n.clock, n.clock) && n1.clock == n.clock
    ensures n2 == Arrive(p, name, n1, b, n.clock, n.clock) && n2.accepted == [a]
  {
    n1 := Arrive(p, name, n, a, n.clock, n.clock);
    n2 := Arrive(p, name, n1, b, n.clock, n.clock);
    assert n1.cache == [Entry(a.id, n.clock)];
    assert n1.cache[0].id == b.id;
  }

  lemma DeliverBoth(p: Params, m: State, a: Copy, b: Copy) returns (events: seq<Event>, s': State)
    requires p.size > 0 && p.ttl > 0 && a in m.wire && b in m.wire && a != b && a.to == b.to && a.to in m.nodes
    requires m.nodes[a.to].cache == [] && m.nodes[a.to].accepted == [] && a.id == b.id && Remote(a) && Remote(b)
    ensures Runs(p, m, events, s') && s'.published == m.published
    ensures b in s'.received && b.to in s'.nodes && s'.nodes[b.to].accepted == [a]
  {
    var clock := m.nodes[a.to].clock;
    var n1, n2 := SecondArrival(p, a.to, m.nodes[a.to], a, b);
    var first, second := Deliver(a, clock, clock), Deliver(b, clock, clock);
    var m1 := Apply(p, m, first);
    s' := Apply(p, m1, second);
    assert Runs(p, m, [], m);
    RunsOneMore(p, m, [], m, first);
    RunsOneMore(p, m, [] + [first], m1, second);
    events := [] + [first] + [second];
  }

  /** The run publishes these copies, and a remote message arrives that is not accepted. */
  ghost predicate LosesOne(p: Params, s: State, copies: multiset<Copy>, events: seq<Event>, s': State) {
    Runs(p, s, events, s') && s'.published == copies && !AllAccepted(s')
  }

  lemma SomeIsLost(p: Params, s: State, copies: multiset<Copy>) returns (events: seq<Event>, s': State)
    requires p.size > 0 && p.ttl > 0 && Initial(s) && Between(copies, s.nodes.Keys) && !Distinguishable(copies)
    ensures LosesOne(p, s, copies, events, s')
  {
    var a, b :| a in copies && b in copies && a.to == b.to && a.id == b.id && Remote(a) && Remote(b) && a != b;
    var before, m := PublishAll(p, s, copies);
    var more;
    more, s' := DeliverBoth(p, m, a, b);
    RunsOn(p, s, before, m, more, s');
    events := before + more;
    assert b !in [a];
  }

  /**
   * Whatever the copies published: some run loses a remote message that arrives, exactly when some
   * node is sent two different remote messages with one ID.
   */
  lemma AllAcceptedIffDistinguishable(p: Params, s: State, copies: multiset<Copy>)
    requires p.size > 0 && p.ttl > 0 && Initial(s) && Between(copies, s.nodes.Keys)
    ensures Distinguishable(copies) <==> !exists events, s' :: LosesOne(p, s, copies, events, s')
  {
    if Distinguishable(copies) {
      forall events, s'
        ensures !LosesOne(p, s, copies, events, s')
      {
        if LosesOne(p, s, copies, events, s') {
          ArrivalsWereAccepted(p, s, events, s');
        }
      }
    } else {
      var events, s' := SomeIsLost(p, s, copies);
    }
  }

  // ---------------------------------------------------------------- a full channel only drops

  /** The nodes agree on everything but what was sent, and w has sent every accept. */
  ghost predicate NodeDrops(n: Node, w: Node) {
    && n.cache == w.cache && n.log == w.log && n.accepted == w.accepted && n.clock == w.clock
    && AllSent(w) && forall f | f in Sent(n) :: f in Sent(w)
  }

  ghost predicate AllSent(n: Node) {
    && |Sent(n)| == |n.log| == |n.accepted|
    && forall i | 0 <= i < |n.log| :: Sent(n)[i] == Forward(n.accepted[i], i)
  }

  ghost predicate OnlyDrops(s: State, wide: State) {
    && s.nodes.Keys == wide.nodes.Keys && s.wire == wide.wire
    && s.published == wide.published && s.received == wide.received
    && forall name | name in s.nodes :: NodeDrops(s.nodes[name], wide.nodes[name])
  }

  ghost predicate RoomFor(s: State, room: nat, more: nat) {
    forall name | name in s.nodes :: |s.nodes[name].queue| + more <= room
  }

  lemma StepOnlyDrops(p: Params, s: State, wide: State, e: Event, room: nat)
    requires OnlyDrops(s, wide) && Enabled(s, e)
    requires forall name | name in wide.nodes :: |wide.nodes[name].queue| < room
    ensures Enabled(wide, e)
    ensures OnlyDrops(Apply(p, s, e), Apply(p.(buffer := room), wide, e))
    ensures forall name | name in wide.nodes ::
      |Apply(p.(buffer := room), wide, e).nodes[name].queue| <= |wide.nodes[name].queue| + 1
  {
    var q := p.(buffer := room);
    match e
    case Publish(_, _, _, _) =>
    case Clean(_, _) =>
    case Consume(name) => ConsumeOnlyDrops(s.nodes[name], wide.nodes[name]);
    case Deliver(copy, checked, stored) =>
      ArriveOnlyDrops(p, room, copy.to, s.nodes[copy.to], wide.nodes[copy.to], copy, checked, stored);
  }

  lemma ConsumeOnlyDrops(n: Node, w: Node)
    requires NodeDrops(n, w)
    ensures NodeDrops(Consumed(n), Consumed(w))
  {
    assert Sent(Consumed(n)) == Sent(n) && Sent(Consumed(w)) == Sent(w);
  }

  lemma ArriveOnlyDrops(p: Params, room: nat, name: string, n: Node, w: Node, c: Copy, checked: int, stored: int)
    requires NodeDrops(n, w) && |w.queue| < room
    ensures var n', w' := Arrive(p, name, n, c, checked, stored), Arrive(p.(buffer := room), name, w, c, checked, stored);
            NodeDrops(n', w') && |w'.queue| <= |w.queue| + 1
  {
    if c.from != name && !Known(n.cache, c.id, checked, p.ttl) {
      var f := Forward(c, |n.log|);
      var n', w' := Arrive(p, name, n, c, checked, stored), Arrive(p.(buffer := room), name, w, c, checked, stored);
      assert Sent(w') == Sent(w) + [f];
      assert Sent(n') == Sent(n) + [f] || Sent(n') == Sent(n);
    }
  }

  /**
   * Run the same events with channels too large to fill: the caches, the logs and the wire are
   * the same, every accept is sent, and the real run has sent some of those messages.
   */
  lemma {:induction false} FullChannelsOnlyDrop(p: Params, s: State, wide: State, events: seq<Event>, s': State, room: nat)
    returns (wide': State)
    requires OnlyDrops(s, wide) && Runs(p, s, events, s') && RoomFor(wide, room, |events|)
    ensures Runs(p.(buffer := room), wide, events, wide') && OnlyDrops(s', wide')
    ensures forall name | name in s'.nodes ::
      && name in wide'.nodes && s'.nodes[name].cache == wide'.nodes[name].cache && s'.nodes[name].log == wide'.nodes[name].log
      && (forall f | f in Sent(s'.nodes[name]) :: f in Sent(wide'.nodes[name]))
      && |Sent(wide'.nodes[name])| == |wide'.nodes[name].log| == |wide'.nodes[name].accepted|
      && forall i | 0 <= i < |wide'.nodes[name].log| :: Sent(wide'.nodes[name])[i] == Forward(wide'.nodes[name].accepted[i], i)
    decreases events
  {
    if events == [] {
      wide' := wide;
    } else {
      StepOnlyDrops(p, s, wide, events[0], room);
      var next := Apply(p.(buffer := room), wide, events[0]);
      assert next.nodes.Keys == wide.nodes.Keys;
      wide' := FullChannelsOnlyDrop(p, Apply(p, s, events[0]), next, events[1..], s', room);
    }
  }
}
