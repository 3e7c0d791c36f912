/**
 * Broadcasting a message to a room (engine/room.go:213-333; the in-memory room is alike): one
 * goroutine per subscriber, each appending its result under a lock as it finishes.
 *
 * What a subscriber's Receive answers, attempt by attempt, is given; goroutines interleave freely.
 */
module Broadcasts {
  // ---------------------------------------------------------------- delivering to one subscriber

  datatype Answer = Accepts | Refuses(error: string) | Panics(recovered: string)

  /** What Receive of a user's subscriber answers on its n-th attempt, counting from 0. */
  type Answers = (string, nat) -> Answer

  datatype Status = Success | Failed | Offline
  datatype Problem = NoProblem | Refused(error: string) | Panicked(userID: string, recovered: string)
  datatype DeliveryResult = DeliveryResult(userID: string, status: Status, problem: Problem)

  const ATTEMPTS: nat := 3

  /** The result from attempt k on. */
  function DeliverFrom(uid: string, answers: Answers, k: nat): (r: DeliveryResult)
    requires k < ATTEMPTS
    ensures r.userID == uid && r.status != Offline
    decreases ATTEMPTS - k
  {
    match answers(uid, k)
    case Accepts => DeliveryResult(uid, Success, NoProblem)
    case Panics(recovered) => DeliveryResult(uid, Failed, Panicked(uid, recovered))
    case Refuses(error) =>
      if k + 1 < ATTEMPTS then DeliverFrom(uid, answers, k + 1) else DeliveryResult(uid, Failed, Refused(error))
  }

  function Delivery(uid: string, answers: Answers): DeliveryResult {
    DeliverFrom(uid, answers, 0)
  }

  /** How many attempts a delivery takes. */
  function Attempts(uid: string, answers: Answers): (n: nat)
    ensures 1 <= n <= ATTEMPTS
  {
    if !answers(uid, 0).Refuses? then 1 else if !answers(uid, 1).Refuses? then 2 else 3
  }

  /** Attempt k decides: all before it were refused, and it was accepted, panicked or the last. */
  predicate Decides(uid: string, answers: Answers, k: nat) {
    && k < ATTEMPTS
    && (forall j | 0 <= j < k :: answers(uid, j).Refuses?)
    && (answers(uid, k).Refuses? ==> k + 1 == ATTEMPTS)
  }

  /** Some attempt decides, and the result is what it answered. */
  lemma {:induction false} DeliveryIsDecided(uid: string, answers: Answers, from: nat) returns (k: nat)
    requires from < ATTEMPTS && forall j | 0 <= j < from :: answers(uid, j).Refuses?
    ensures Decides(uid, answers, k) && k >= from
    ensures DeliverFrom(uid, answers, from) ==
            match answers(uid, k)
            case Accepts => DeliveryResult(uid, Success, NoProblem)
            case Panics(recovered) => DeliveryResult(uid, Failed, Panicked(uid, recovered))
            case Refuses(error) => DeliveryResult(uid, Failed, Refused(error))
    decreases ATTEMPTS - from
  {
    if answers(uid, from).Refuses? && from + 1 < ATTEMPTS {
      k := DeliveryIsDecided(uid, answers, from + 1);
    } else {
      k := from;
    }
  }

  /** safeDeliver: up to three attempts; `accepted` counts the calls of Receive that returned nil. */
  method SafeDeliver(uid: string, answers: Answers) returns (result: DeliveryResult, tried: nat, accepted: nat)
    ensures result == Delivery(uid, answers)
    ensures 1 <= tried <= 3 && tried == Attempts(uid, answers)
    ensures forall j | 0 <= j < tried - 1 :: answers(uid, j).Refuses?
    ensures match answers(uid, tried - 1)
            case Accepts => accepted == 1 && result == DeliveryResult(uid, Success, NoProblem)
            case Panics(recovered) => accepted == 0 && result == DeliveryResult(uid, Failed, Panicked(uid, recovered))
            case Refuses(error) => tried == 3 && accepted == 0 && result == DeliveryResult(uid, Failed, Refused(error))
  {
    var lastErr := NoProblem;
    tried, accepted := 0, 0;
    while tried < ATTEMPTS
      invariant tried <= ATTEMPTS && accepted == 0
      invariant tried < ATTEMPTS ==> Delivery(uid, answers) == DeliverFrom(uid, answers, tried)
      invariant forall j | 0 <= j < tried :: answers(uid, j).Refuses?
      invariant tried == ATTEMPTS ==> Delivery(uid, answers) == DeliveryResult(uid, Failed, lastErr)
    {
      var answer := answers(uid, tried);
      tried := tried + 1;
      match answer
      case Accepts =>
        accepted := accepted + 1;
        return DeliveryResult(uid, Success, NoProblem), tried, accepted;
      case Panics(recovered) =>
        return DeliveryResult(uid, Failed, Panicked(uid, recovered)), tried, accepted;
      case Refuses(error) =>
        lastErr := Refused(error);
    }
    return DeliveryResult(uid, Failed, lastErr), tried, accepted;
  }

  // ---------------------------------------------------------------- the fan-out as a step system

  datatype Task = Trying(attempt: nat) | Finished(result: DeliveryResult) | Recorded

  /** The goroutines and the shared results; `order` notes whose result is where. */
  datatype Fan = Fan(tasks: map<string, Task>, results: seq<DeliveryResult>, order: seq<string>)

  function Started(online: set<string>): Fan {
    Fan(map uid | uid in online :: Trying(0), [], [])
  }

  /** One step of the goroutine of uid: one call of Receive, or the append under the lock. */
  function Turn(answers: Answers, fan: Fan, uid: string): Fan {
    if uid !in fan.tasks then fan
    else
      match fan.tasks[uid]
      case Trying(k) =>
        var after := match answers(uid, k)
                     case Accepts => Finished(DeliveryResult(uid, Success, NoProblem))
                     case Panics(recovered) => Finished(DeliveryResult(uid, Failed, Panicked(uid, recovered)))
                     case Refuses(error) =>
                       if k + 1 < ATTEMPTS then Trying(k + 1) else Finished(DeliveryResult(uid, Failed, Refused(error)));
        fan.(tasks := fan.tasks[uid := after])
      case Finished(result) =>
        Fan(fan.tasks[uid := Recorded], fan.results + [result], fan.order + [uid])
      case Recorded => fan
  }

  /** The goroutines take turns in the order of the schedule. */
  function Run(answers: Answers, online: set<string>, schedule: seq<string>): Fan {
    if schedule == [] then Started(online)
    else Turn(answers, Run(answers, online, schedule[..|schedule| - 1]), schedule[|schedule| - 1])
  }

  predicate Complete(fan: Fan) {
    forall uid | uid in fan.tasks :: fan.tasks[uid].Recorded?
  }

  /** Each goroutine is on course for its delivery's result, and recorded exactly when listed. */
  ghost predicate OnCourse(answers: Answers, online: set<string>, fan: Fan) {
    && fan.tasks.Keys == online
    && |fan.results| == |fan.order|
    && (forall i | 0 <= i < |fan.order| :: fan.order[i] in online && fan.results[i] == Delivery(fan.order[i], answers))
    && (forall i, j | 0 <= i < j < |fan.order| :: fan.order[i] != fan.order[j])
    && (forall uid | uid in online :: fan.tasks[uid].Recorded? <==> uid in fan.order)
    && (forall uid | uid in online :: TaskOnCourse(answers, uid, fan.tasks[uid]))
  }

  predicate TaskOnCourse(answers: Answers, uid: string, task: Task) {
    match task
    case Trying(k) => k < ATTEMPTS && DeliverFrom(uid, answers, k) == Delivery(uid, answers)
    case Finished(result) => result == Delivery(uid, answers)
    case Recorded => true
  }

  lemma TurnStaysOnCourse(answers: Answers, online: set<string>, fan: Fan, uid: string)
    requires OnCourse(answers, online, fan)
    ensures OnCourse(answers, online, Turn(answers, fan, uid))
  {
    if uid in online {
      assert TaskOnCourse(answers, uid, fan.tasks[uid]);
    }
  }

  lemma {:induction false} RunStaysOnCourse(answers: Answers, online: set<string>, schedule: seq<string>)
    ensures OnCourse(answers, online, Run(answers, online, schedule))
  {
    if schedule != [] {
      RunStaysOnCourse(answers, online, schedule[..|schedule| - 1]);
      TurnStaysOnCourse(answers, online, Run(answers, online, schedule[..|schedule| - 1]), schedule[|schedule| - 1]);
    }
  }

  function Deliveries(answers: Answers, online: set<string>): set<DeliveryResult> {
    set uid | uid in online :: Delivery(uid, answers)
  }

  lemma {:induction false} DistinctAsMultiset<T>(s: seq<T>)
    requires forall i, j | 0 <= i < j < |s| :: s[i] != s[j]
    ensures multiset(s) == multiset(set x | x in s)
  {
    if s != [] {
      var rest, last := s[..|s| - 1], s[|s| - 1];
      assert s == rest + [last];
      DistinctAsMultiset(rest);
      assert (set x | x in s) == (set x | x in rest) + {last};
      assert last !in rest;
    }
  }

  /** The subscribers whose results have been appended. */
  function RecordedIn(fan: Fan): set<string> {
    set uid | uid in fan.tasks && fan.tasks[uid].Recorded?
  }

  /** Whatever the schedule and however far it got, the results are one per subscriber recorded. */
  lemma RunDelivers(answers: Answers, online: set<string>, schedule: seq<string>)
    ensures var fan := Run(answers, online, schedule);
            RecordedIn(fan) <= online && multiset(fan.results) == multiset(Deliveries(answers, RecordedIn(fan)))
  {
    var fan := Run(answers, online, schedule);
    RunStaysOnCourse(answers, online, schedule);
    forall i, j | 0 <= i < j < |fan.results|
      ensures fan.results[i] != fan.results[j]
    {
      assert fan.results[i].userID == fan.order[i] != fan.order[j] == fan.results[j].userID;
    }
    DistinctAsMultiset(fan.results);
    forall r
      ensures r in fan.results <==> r in Deliveries(answers, RecordedIn(fan))
    {
      if r in fan.results {
        var i :| 0 <= i < |fan.results| && fan.results[i] == r;
        assert fan.order[i] in fan.order && fan.order[i] in RecordedIn(fan);
      }
      if r in Deliveries(answers, RecordedIn(fan)) {
        var uid :| uid in RecordedIn(fan) && r == Delivery(uid, answers);
        assert uid in fan.order;
        var i :| 0 <= i < |fan.order| && fan.order[i] == uid;
        assert fan.results[i] == r;
      }
    }
    assert (set r | r in fan.results) == Deliveries(answers, RecordedIn(fan));
  }

  /** Once all are recorded the results are one per subscriber. */
  lemma CompleteRunDelivers(answers: Answers, online: set<string>, schedule: seq<string>)
    requires Complete(Run(answers, online, schedule))
    ensures multiset(Run(answers, online, schedule).results) == multiset(Deliveries(answers, online))
  {
    RunDelivers(answers, online, schedule);
    RunStaysOnCourse(answers, online, schedule);
    assert RecordedIn(Run(answers, online, schedule)) == online;
  }

  /** How far a goroutine is after so many turns of its own. */
  predicate InTurn(task: Task, turns: nat, attempts: nat) {
    match task
    case Trying(k) => turns == k < attempts
    case Finished(_) => turns == attempts
    case Recorded => turns > attempts
  }

  /** A goroutine takes one turn for each attempt and one to append its result. */
  lemma {:induction false} TurnsDecide(answers: Answers, online: set<string>, schedule: seq<string>, uid: string)
    requires uid in online
    ensures uid in Run(answers, online, schedule).tasks
    ensures InTurn(Run(answers, online, schedule).tasks[uid], multiset(schedule)[uid], Attempts(uid, answers))
  {
    if schedule != [] {
      var rest, last := schedule[..|schedule| - 1], schedule[|schedule| - 1];
      assert schedule == rest + [last];
      TurnsDecide(answers, online, rest, uid);
    }
  }

  /** The result is in exactly when there was one turn more than there are attempts. */
  lemma RecordedIff(answers: Answers, online: set<string>, schedule: seq<string>, uid: string)
    ensures uid in RecordedIn(Run(answers, online, schedule)) <==> uid in online && multiset(schedule)[uid] > Attempts(uid, answers)
  {
    RunStaysOnCourse(answers, online, schedule);
    if uid in online {
      TurnsDecide(answers, online, schedule, uid);
    }
  }

  lemma FairRunCompletes(answers: Answers, online: set<string>, schedule: seq<string>)
    requires forall uid | uid in online :: multiset(schedule)[uid] >= 4
    ensures Complete(Run(answers, online, schedule))
  {
    RunStaysOnCourse(answers, online, schedule);
    forall uid | uid in online
      ensures Run(answers, online, schedule).tasks[uid].Recorded?
    {
      RecordedIff(answers, online, schedule, uid);
    }
  }

  // ---------------------------------------------------------------- the whole broadcast

  predicate Skipped(skipSender: bool, senderID: string, userID: string) {
    skipSender && userID == senderID
  }

  /** The subscribers a goroutine is started for. */
  function Receivers(subscribers: set<string>, skipSender: bool, senderID: string): set<string> {
    set uid | uid in subscribers && !Skipped(skipSender, senderID, uid)
  }

  /** One Offline result for each member entry that is not skipped and not subscribed, in order. */
  function OfflineResults(members: seq<string>, online: set<string>, skipSender: bool, senderID: string): seq<DeliveryResult> {
    if members == [] then []
    else
      var rest, last := OfflineResults(members[..|members| - 1], online, skipSender, senderID), members[|members| - 1];
      if Skipped(skipSender, senderID, last) || last in online then rest
      else rest + [DeliveryResult(last, Offline, NoProblem)]
  }

  /** As many Offline results for a user as the member list has entries for it. */
  lemma {:induction false} OfflineCount(members: seq<string>, online: set<string>, skipSender: bool, senderID: string, userID: string)
    ensures multiset(OfflineResults(members, online, skipSender, senderID))[DeliveryResult(userID, Offline, NoProblem)] ==
            if (skipSender && userID == senderID) || userID in online then 0 else multiset(members)[userID]
  {
    if members != [] {
      var rest, last := members[..|members| - 1], members[|members| - 1];
      assert members == rest + [last];
      OfflineCount(rest, online, skipSender, senderID, userID);
    }
  }

  lemma {:induction false} OfflineOnly(members: seq<string>, online: set<string>, skipSender: bool, senderID: string)
    ensures forall r | r in OfflineResults(members, online, skipSender, senderID) :: r == DeliveryResult(r.userID, Offline, NoProblem)
  {
    if members != [] {
      OfflineOnly(members[..|members| - 1], online, skipSender, senderID);
    }
  }

  /** What the results say of each user, when they are those of the deliveries and the Offline ones. */
  lemma ResultsReport(results: seq<DeliveryResult>, answers: Answers, served: set<string>,
                      members: seq<string>, online: set<string>, skipSender: bool, senderID: string)
    requires multiset(results) == multiset(Deliveries(answers, served)) + multiset(OfflineResults(members, online, skipSender, senderID))
    ensures forall uid :: multiset(results)[Delivery(uid, answers)] == if uid in served then 1 else 0
    ensures forall r | r in results :: r == Delivery(r.userID, answers) || r == DeliveryResult(r.userID, Offline, NoProblem)
    ensures forall uid :: multiset(results)[DeliveryResult(uid, Offline, NoProblem)] ==
              if (skipSender && uid == senderID) || uid in online then 0 else multiset(members)[uid]
  {
    OfflineOnly(members, online, skipSender, senderID);
    var offline := OfflineResults(members, online, skipSender, senderID);
    forall r | r in results
      ensures r == Delivery(r.userID, answers) || r == DeliveryResult(r.userID, Offline, NoProblem)
    {
      assert r in multiset(results);
    }
    forall uid
      ensures multiset(results)[Delivery(uid, answers)] == if uid in served then 1 else 0
    {
      var r := Delivery(uid, answers);
      assert r in multiset(offline) <==> r in offline;
      assert r in Deliveries(answers, served) <==> uid in served;
    }
    forall uid
      ensures multiset(results)[DeliveryResult(uid, Offline, NoProblem)] ==
              if (skipSender && uid == senderID) || uid in online then 0 else multiset(members)[uid]
    {
      OfflineCount(members, online, skipSender, senderID, uid);
    }
  }

  /**
   * The schedule is the order the goroutines ran in until Broadcast returned. It waits for them
   * all unless it is cancelled or times out; what was recorded by then is in the results: one for
   * each subscriber, other than a skipped sender, that made its attempts and appended.
   */
  method Broadcast(subscribers: set<string>, members: seq<string>, skipSender: bool, senderID: string,
                   answers: Answers, schedule: seq<string>) returns (results: seq<DeliveryResult>)
    ensures forall uid :: multiset(results)[Delivery(uid, answers)] ==
              if uid in subscribers && !(skipSender && uid == senderID) && multiset(schedule)[uid] > Attempts(uid, answers) then 1 else 0
    ensures forall uid :: multiset(results)[DeliveryResult(uid, Offline, NoProblem)] ==
              if (skipSender && uid == senderID) || uid in subscribers then 0 else multiset(members)[uid]
    ensures forall r | r in results :: r == Delivery(r.userID, answers) || r == DeliveryResult(r.userID, Offline, NoProblem)
  {
    var receivers := Receivers(subscribers, skipSender, senderID);
    var fan := Started(receivers);
    for i := 0 to |schedule|
      invariant fan == Run(answers, receivers, schedule[..i])
    {
      assert schedule[..i + 1][..i] == schedule[..i];
      fan := Turn(answers, fan, schedule[i]);
    }
    assert schedule[..|schedule|] == schedule;
    ghost var served := RecordedIn(fan);
    RunDelivers(answers, receivers, schedule);
    results := fan.results;
    for i := 0 to |members|
      invariant results == fan.results + OfflineResults(members[..i], subscribers, skipSender, senderID)
    {
      assert members[..i + 1][..i] == members[..i];
      if Skipped(skipSender, senderID, members[i]) {
        continue;
      }
      if members[i] !in subscribers {
        results := results + [DeliveryResult(members[i], Offline, NoProblem)];
      }
    }
    assert members[..|members|] == members;
    ResultsReport(results, answers, served, members, subscribers, skipSender, senderID);
    forall uid
      ensures uid in served <==> uid in receivers && multiset(schedule)[uid] > Attempts(uid, answers)
    {
      RecordedIff(answers, receivers, schedule, uid);
    }
  }
}
