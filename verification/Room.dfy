/**
 * Membership of a room (engine/room.go:49-109, 168-198, 462-475; the in-memory room is alike):
 * two maps kept in step, and subscribers closed when they leave.
 */
module Rooms {
  /** A connection; Close here only marks it. */
  class Subscriber {
    const id: string
    var closed: bool

    constructor (id: string)
      ensures this.id == id && !closed
    {
      this.id := id;
      closed := false;
    }

    method Close()
      modifies this
      ensures closed
    {
      closed := true;
    }
  }

  // ---------------------------------------------------------------- the room as a value

  /** `ever` is every subscriber that was ever added, `closed` those of them that are closed. */
  datatype State = State(subscribers: map<string, Subscriber>, presence: map<string, string>,
                         members: seq<string>, ever: set<Subscriber>, closed: set<Subscriber>)

  function Subscribed(s: State, sub: Subscriber, wasClosed: bool, info: string): State {
    s.(subscribers := s.subscribers[sub.id := sub],
       presence := s.presence[sub.id := info],
       ever := s.ever + {sub},
       closed := s.closed + (if wasClosed then {sub} else {})
                 + (if sub.id in s.subscribers then {s.subscribers[sub.id]} else {}))
  }

  function Unsubscribed(s: State, userID: string): State {
    if userID !in s.subscribers then s
    else s.(subscribers := s.subscribers - {userID}, presence := s.presence - {userID},
            closed := s.closed + {s.subscribers[userID]})
  }

  function WithMember(s: State, userID: string): State {
    if userID in s.members then s else s.(members := s.members + [userID])
  }

  function Except(members: seq<string>, userID: string): (r: seq<string>)
    ensures userID !in r
    ensures forall m | m != userID :: multiset(r)[m] == multiset(members)[m]
  {
    if members == [] then []
    else
      var rest, last := members[..|members| - 1], members[|members| - 1];
      assert members == rest + [last];
      if last == userID then Except(rest, userID) else Except(rest, userID) + [last]
  }

  /** Every other entry stays, in its place. */
  lemma {:induction false} ExceptKeeps(members: seq<string>, userID: string, i: nat)
    requires i < |members|
    ensures Except(members, userID) ==
            Except(members[..i], userID) + (if members[i] == userID then [] else [members[i]]) + Except(members[i + 1..], userID)
  {
    var last := |members| - 1;
    if i < last {
      ExceptKeeps(members[..last], userID, i);
      assert members[..last][..i] == members[..i] && members[..last][i + 1..] == members[i + 1..][..last - i - 1];
    } else {
      assert Except(members[i + 1..], userID) == [];
    }
  }

  function WithoutMember(s: State, userID: string): State {
    Unsubscribed(s.(members := Except(s.members, userID)), userID)
  }

  function ClosedRoom(s: State): State {
    s.(subscribers := map[], presence := map[], closed := s.closed + s.subscribers.Values)
  }

  // ---------------------------------------------------------------- no subscriber leaks

  /**
   * The maps have the same keys, each subscriber is filed under its own ID, and of all the
   * subscribers ever added exactly those in the map are open.
   */
  ghost predicate InStep(s: State) {
    && s.subscribers.Keys == s.presence.Keys && s.closed <= s.ever
    && (forall id | id in s.subscribers :: s.subscribers[id].id == id && s.subscribers[id] in s.ever)
    && (forall sub | sub in s.ever :: sub in s.closed <==> !Filed(s, sub))
  }

  ghost predicate Filed(s: State, sub: Subscriber) {
    sub.id in s.subscribers && s.subscribers[sub.id] == sub
  }

  datatype Op =
    | Subscribe(sub: Subscriber, wasClosed: bool, info: string)
    | Unsubscribe(userID: string)
    | AddMember(userID: string)
    | RemoveMember(userID: string)
    | CloseRoom

  function Apply(s: State, op: Op): State {
    match op
    case Subscribe(sub, wasClosed, info) => Subscribed(s, sub, wasClosed, info)
    case Unsubscribe(userID) => Unsubscribed(s, userID)
    case AddMember(userID) => WithMember(s, userID)
    case RemoveMember(userID) => WithoutMember(s, userID)
    case CloseRoom => ClosedRoom(s)
  }

  function After(members: seq<string>, ops: seq<Op>): State {
    if ops == [] then State(map[], map[], members, {}, {})
    else Apply(After(members, ops[..|ops| - 1]), ops[|ops| - 1])
  }

  /** Every subscribe brings an open subscriber of its own. */
  ghost predicate FreshSubscribers(ops: seq<Op>) {
    && (forall i | 0 <= i < |ops| && ops[i].Subscribe? :: !ops[i].wasClosed)
    && forall i, j | 0 <= i < j < |ops| && ops[i].Subscribe? && ops[j].Subscribe? :: ops[i].sub != ops[j].sub
  }

  /** Subscribing keeps the room in step exactly when the subscriber is open and was never added before. */
  lemma SubscribeKeepsStepIffNew(s: State, sub: Subscriber, wasClosed: bool, info: string)
    requires InStep(s)
    ensures InStep(Subscribed(s, sub, wasClosed, info)) <==> sub !in s.ever && !wasClosed
  {
    var s' := Subscribed(s, sub, wasClosed, info);
    assert Filed(s', sub);
    if sub in s.ever || wasClosed {
      assert sub in s'.closed;
    } else {
      forall other | other in s'.ever
        ensures other in s'.closed <==> !Filed(s', other)
      {
        if other != sub && other in s.ever {
          assert other in s.closed <==> !Filed(s, other);
        }
      }
    }
  }

  lemma {:induction false} EverIsSubscribed(members: seq<string>, ops: seq<Op>, sub: Subscriber)
    ensures sub in After(members, ops).ever <==> exists i | 0 <= i < |ops| :: ops[i].Subscribe? && ops[i].sub == sub
  {
    if ops != [] {
      var rest, last := ops[..|ops| - 1], ops[|ops| - 1];
      EverIsSubscribed(members, rest, sub);
      assert forall i | 0 <= i < |rest| :: rest[i] == ops[i];
    }
  }

  /** Over any run with a subscriber of its own for each subscribe, the room stays in step. */
  lemma {:induction false} RoomStaysInStep(members: seq<string>, ops: seq<Op>)
    requires FreshSubscribers(ops)
    ensures InStep(After(members, ops))
  {
    if ops != [] {
      var rest, last := ops[..|ops| - 1], ops[|ops| - 1];
      RoomStaysInStep(members, rest);
      match last
      case Subscribe(sub, wasClosed, info) =>
        EverIsSubscribed(members, rest, sub);
        SubscribeKeepsStepIffNew(After(members, rest), sub, wasClosed, info);
      case Unsubscribe(userID) =>
      case AddMember(userID) =>
      case RemoveMember(userID) =>
      case CloseRoom =>
    }
  }

  /** No subscriber ever added is left open outside the map. */
  lemma {:induction false} NoneLeaksOpen(members: seq<string>, ops: seq<Op>, i: nat)
    requires FreshSubscribers(ops) && i < |ops| && ops[i].Subscribe?
    ensures var s := After(members, ops);
            ops[i].sub in s.closed || (ops[i].sub.id in s.subscribers && s.subscribers[ops[i].sub.id] == ops[i].sub)
  {
    RoomStaysInStep(members, ops);
    EverIsSubscribed(members, ops, ops[i].sub);
  }

  // ---------------------------------------------------------------- the class

  ghost predicate Reached(s: State, members: seq<string>, ops: seq<Op>) {
    s == After(members, ops)
  }

  lemma ReachedNext(s: State, members: seq<string>, ops: seq<Op>, op: Op) returns (ops': seq<Op>)
    requires Reached(s, members, ops)
    ensures ops' == ops + [op] && Reached(Apply(s, op), members, ops')
  {
    ops' := ops + [op];
    assert ops'[..|ops|] == ops;
  }

  class Room {
    var subscribers: map<string, Subscriber>
    var presence: map<string, string>
    var members: seq<string>
    ghost var ever: set<Subscriber>
    ghost const initialMembers: seq<string>
    ghost var ops: seq<Op>

    ghost function View(): State
      reads this, ever
    {
      State(subscribers, presence, members, ever, set sub | sub in ever && sub.closed)
    }

    ghost predicate Linked()
      reads this
    {
      forall id | id in subscribers :: subscribers[id] in ever
    }

    /** The room is what the calls so far made of it. */
    ghost predicate Valid()
      reads this, ever
    {
      Linked() && Reached(View(), initialMembers, ops)
    }

    constructor (members: seq<string>)
      ensures Valid() && View() == After(members, []) && initialMembers == members && ops == []
    {
      subscribers, presence, this.members, ever := map[], map[], members, {};
      initialMembers, ops := members, [];
    }

    /** After any calls that each brought an open subscriber of its own, the room is in step. */
    lemma IsInStep()
      requires Valid() && FreshSubscribers(ops)
      ensures InStep(View())
      ensures subscribers.Keys == presence.Keys && forall id | id in subscribers :: subscribers[id].id == id
      ensures forall sub | sub in ever :: sub.closed <==> !(sub.id in subscribers && subscribers[sub.id] == sub)
    {
      RoomStaysInStep(initialMembers, ops);
    }

    /** Closes the subscriber filed under the ID and takes it and its presence out of the maps. */
    method Drop(userID: string)
      requires Linked() && userID in subscribers
      modifies this`subscribers, this`presence, subscribers[userID]
      ensures Linked() && View() == Unsubscribed(old(View()), userID)
    {
      subscribers[userID].Close();
      subscribers := subscribers - {userID};
      presence := presence - {userID};
    }

    method Subscribe(sub: Subscriber, info: string)
      requires Valid()
      modifies this, subscribers.Values
      ensures Valid() && ops == old(ops) + [Op.Subscribe(sub, old(sub.closed), info)]
      ensures View() == Subscribed(old(View()), sub, old(sub.closed), info)
      ensures subscribers == old(subscribers)[sub.id := sub] && presence == old(presence)[sub.id := info] && members == old(members)
      ensures sub.id in old(subscribers) ==> old(subscribers)[sub.id].closed
      ensures forall id | id in old(subscribers) && (sub.id in old(subscribers) ==> old(subscribers)[id] != old(subscribers)[sub.id]) ::
        old(subscribers)[id].closed == old(subscribers[id].closed)
    {
      ghost var ops' := ReachedNext(View(), initialMembers, ops, Op.Subscribe(sub, sub.closed, info));
      var userID := sub.id;
      if userID in subscribers {
        subscribers[userID].Close();
      }
      subscribers := subscribers[userID := sub];
      presence := presence[userID := info];
      ever := ever + {sub};
      ops := ops';
    }

    method Unsubscribe(userID: string)
      requires Valid()
      modifies this, subscribers.Values
      ensures Valid() && ops == old(ops) + [Op.Unsubscribe(userID)]
      ensures View() == Unsubscribed(old(View()), userID) && members == old(members)
      ensures userID !in old(subscribers) ==> subscribers == old(subscribers) && presence == old(presence)
      ensures userID in old(subscribers) ==>
        subscribers == old(subscribers) - {userID} && presence == old(presence) - {userID} && old(subscribers)[userID].closed
      ensures forall id | id in old(subscribers) && (userID in old(subscribers) ==> old(subscribers)[id] != old(subscribers)[userID]) ::
        old(subscribers)[id].closed == old(subscribers[id].closed)
    {
      ghost var ops' := ReachedNext(View(), initialMembers, ops, Op.Unsubscribe(userID));
      if userID in subscribers {
        Drop(userID);
      }
      ops := ops';
    }

    method AddMember(userID: string)
      requires Valid()
      modifies this`members, this`ops
      ensures Valid() && ops == old(ops) + [Op.AddMember(userID)]
      ensures View() == WithMember(old(View()), userID)
      ensures members == if userID in old(members) then old(members) else old(members) + [userID]
    {
      ghost var ops' := ReachedNext(View(), initialMembers, ops, Op.AddMember(userID));
      ops := ops';
      for i := 0 to |members|
        invariant members == old(members) && userID !in members[..i]
      {
        if members[i] == userID {
          return;
        }
      }
      members := members + [userID];
    }

    method RemoveMember(userID: string)
      requires Valid()
      modifies this, subscribers.Values
      ensures Valid() && ops == old(ops) + [Op.RemoveMember(userID)]
      ensures View() == WithoutMember(old(View()), userID)
      ensures userID !in members && forall other | other != userID :: multiset(members)[other] == multiset(old(members))[other]
      ensures userID !in old(subscribers) ==> subscribers == old(subscribers) && presence == old(presence)
      ensures userID in old(subscribers) ==>
        subscribers == old(subscribers) - {userID} && presence == old(presence) - {userID} && old(subscribers)[userID].closed
      ensures forall id | id in old(subscribers) && (userID in old(subscribers) ==> old(subscribers)[id] != old(subscribers)[userID]) ::
        old(subscribers)[id].closed == old(subscribers[id].closed)
    {
      ghost var ops' := ReachedNext(View(), initialMembers, ops, Op.RemoveMember(userID));
      var kept := [];
      for i := 0 to |members|
        invariant kept == Except(members[..i], userID)
      {
        assert members[..i + 1][..i] == members[..i];
        if members[i] != userID {
          kept := kept + [members[i]];
        }
      }
      assert members[..|members|] == members;
      members := kept;
      if userID in subscribers {
        Drop(userID);
      }
      ops := ops';
    }

    method Close()
      requires Valid()
      modifies this, subscribers.Values
      ensures Valid() && ops == old(ops) + [Op.CloseRoom]
      ensures View() == ClosedRoom(old(View()))
      ensures subscribers == map[] && presence == map[] && members == old(members)
      ensures forall sub | sub in old(subscribers).Values :: sub.closed
    {
      ghost var ops' := ReachedNext(View(), initialMembers, ops, Op.CloseRoom);
      CloseAll();
      subscribers := map[];
      presence := map[];
      ops := ops';
    }

    /** The loop of Close, over the map in any order. */
    method CloseAll()
      requires Linked()
      modifies subscribers.Values
      ensures forall sub | sub in ever :: sub.closed <==> old(sub.closed) || sub in subscribers.Values
    {
      var todo := subscribers.Keys;
      while todo != {}
        invariant todo <= subscribers.Keys
        invariant forall id | id in subscribers && id !in todo :: subscribers[id].closed
        invariant forall sub | sub in ever :: sub.closed ==> old(sub.closed) || sub in subscribers.Values
        invariant forall sub | sub in ever && old(sub.closed) :: sub.closed
        decreases todo
      {
        var id :| id in todo;
        assert subscribers[id] in subscribers.Values;
        subscribers[id].Close();
        todo := todo - {id};
      }
      forall sub | sub in subscribers.Values
        ensures sub.closed
      {
        var id :| id in subscribers && subscribers[id] == sub;
      }
    }
  }
}
