/** Publishing to in-memory rooms and recovering by message ID (engine/memory_relay.go:168-353). */
module MemoryRelays {
  import opened Decimal
  import opened Messages
  import opened MessageIds
  import opened RingBuffers

  // ---------------------------------------------------------------- what recovery returns

  function Limited(messages: seq<Message>, limit: int): seq<Message> {
    if limit > 0 && |messages| > limit then messages[|messages| - limit..] else messages
  }

  /** RecoverMessages on a room whose persisted messages were log. */
  function Recovered(log: seq<Message>, size: nat, fromID: string, limit: int): seq<Message> {
    Limited(Since(LastOf(log, size), fromID), limit)
  }

  function Stamped(msg: Message, roomID: string, now: int, id: string): Message {
    msg.(roomID := roomID, id := id, timestamp := if msg.timestamp == ZERO_TIME then now else msg.timestamp)
  }

  // ---------------------------------------------------------------- runs

  /** One call of Publish on a room that exists; the clock may say anything. */
  datatype Call = Call(roomID: string, msg: Message, now: int, millis: int)

  /**
   * Publish takes an ID and later, if the message is to persist, stores it. Publishers run at the
   * same time, so other steps may come in between, and storing may happen in any order.
   */
  datatype Step = Take(call: Call) | Store(n: nat, call: Call)

  /** The calls in the order of their sequence numbers, 1 for the first. */
  function Taken(steps: seq<Step>): seq<Call> {
    if steps == [] then []
    else
      var calls, last := Taken(steps[..|steps| - 1]), steps[|steps| - 1];
      if last.Take? then calls + [last.call] else calls
  }

  /** The sequence numbers of the messages stored. */
  function Stored(steps: seq<Step>): set<nat> {
    if steps == [] then {}
    else
      var numbers, last := Stored(steps[..|steps| - 1]), steps[|steps| - 1];
      if last.Store? then numbers + {last.n} else numbers
  }

  /** Call c took number n and has not stored its message. */
  predicate Pending(steps: seq<Step>, n: nat, c: Call) {
    1 <= n <= |Taken(steps)| && Taken(steps)[n - 1] == c && n !in Stored(steps)
  }

  /** Each message is stored at most once, by the call that took its number. */
  predicate Proper(steps: seq<Step>) {
    steps == [] ||
    (var before, last := steps[..|steps| - 1], steps[|steps| - 1];
     Proper(before) && (last.Store? ==> Pending(before, last.n, last.call)))
  }

  function MessageFrom(c: Call, n: nat): Message {
    Stamped(c.msg, c.roomID, c.now, GenerateMessageID(c.millis, n))
  }

  /** The messages of one room, in the order they were stored. */
  function Log(steps: seq<Step>, roomID: string): seq<Message> {
    if steps == [] then []
    else
      var log, last := Log(steps[..|steps| - 1], roomID), steps[|steps| - 1];
      if last.Store? && last.call.roomID == roomID then log + [MessageFrom(last.call, last.n)] else log
  }

  /** A publisher can store its message whatever the others do first. */
  lemma PendingStaysPending(steps: seq<Step>, n: nat, c: Call, e: Step)
    requires Pending(steps, n, c) && (e.Store? ==> e.n != n)
    ensures Pending(steps + [e], n, c)
  {
  }

  lemma {:induction false} StoredWereTaken(steps: seq<Step>)
    requires Proper(steps)
    ensures forall n | n in Stored(steps) :: 1 <= n <= |Taken(steps)|
  {
    if steps != [] {
      StoredWereTaken(steps[..|steps| - 1]);
    }
  }

  lemma TakenIsPending(steps: seq<Step>, c: Call)
    requires Proper(steps)
    ensures |Taken(steps + [Take(c)])| == |Taken(steps)| + 1 && Pending(steps + [Take(c)], |Taken(steps)| + 1, c)
  {
    StoredWereTaken(steps);
  }

  // ---------------------------------------------------------------- histories

  /** What the histories of the given rooms stand for. */
  function Journal(steps: seq<Step>, roomIDs: set<string>): map<string, seq<Option<Message>>> {
    map id | id in roomIDs :: Wrapped(Log(steps, id))
  }

  predicate KnownRooms(steps: seq<Step>, roomIDs: set<string>) {
    forall i | 0 <= i < |steps| :: steps[i].call.roomID in roomIDs
  }

  /** The histories stand for what was stored, and only their rooms were published to. */
  ghost predicate Mirrors(histories: map<string, seq<Option<Message>>>, steps: seq<Step>) {
    Proper(steps) && KnownRooms(steps, histories.Keys) && histories == Journal(steps, histories.Keys)
  }

  /** A room nobody published to has nothing stored. */
  lemma {:induction false} LogOfUnused(steps: seq<Step>, roomID: string)
    requires forall i | 0 <= i < |steps| :: steps[i].call.roomID != roomID
    ensures Log(steps, roomID) == []
  {
    if steps != [] {
      LogOfUnused(steps[..|steps| - 1], roomID);
    }
  }

  lemma NewRoomMirrors(histories: map<string, seq<Option<Message>>>, steps: seq<Step>, roomID: string)
    requires Mirrors(histories, steps) && roomID !in histories
    ensures Mirrors(histories[roomID := []], steps) && Log(steps, roomID) == []
  {
    LogOfUnused(steps, roomID);
    assert histories[roomID := []].Keys == histories.Keys + {roomID};
  }

  /** A publisher takes the next number: no history changes, and it has a message to store. */
  lemma TakeMirrors(histories: map<string, seq<Option<Message>>>, steps: seq<Step>, c: Call) returns (steps': seq<Step>)
    requires Mirrors(histories, steps) && c.roomID in histories
    ensures steps' == steps + [Take(c)] && Mirrors(histories, steps')
    ensures |Taken(steps')| == |Taken(steps)| + 1 && Pending(steps', |Taken(steps')|, c)
  {
    steps' := steps + [Take(c)];
    TakenIsPending(steps, c);
    assert forall id | id in histories :: Log(steps', id) == Log(steps, id);
  }

  /** A publisher stores its message: the history of its room, and no other, gets it. */
  lemma StoreMirrors(histories: map<string, seq<Option<Message>>>, steps: seq<Step>, n: nat, c: Call)
    returns (histories': map<string, seq<Option<Message>>>, steps': seq<Step>)
    requires Mirrors(histories, steps) && c.roomID in histories && Pending(steps, n, c)
    ensures histories' == histories[c.roomID := histories[c.roomID] + [Some(MessageFrom(c, n))]]
    ensures steps' == steps + [Store(n, c)] && Mirrors(histories', steps') && Taken(steps') == Taken(steps)
  {
    histories' := histories[c.roomID := histories[c.roomID] + [Some(MessageFrom(c, n))]];
    steps' := steps + [Store(n, c)];
    assert histories'.Keys == histories.Keys;
    JournalStored(steps, n, c, histories.Keys);
  }

  lemma JournalStored(steps: seq<Step>, n: nat, c: Call, roomIDs: set<string>)
    requires c.roomID in roomIDs
    ensures var before := Journal(steps, roomIDs);
            Journal(steps + [Store(n, c)], roomIDs) == before[c.roomID := before[c.roomID] + [Some(MessageFrom(c, n))]]
  {
    assert forall id | id in roomIDs ::
      Wrapped(Log(steps + [Store(n, c)], id)) == Wrapped(Log(steps, id)) + (if id == c.roomID then [Some(MessageFrom(c, n))] else []);
  }

  function HeldSince(history: seq<Option<Message>>, size: nat, fromID: string): seq<Message> {
    Since(Present(LastOf(history, size)), fromID)
  }

  lemma RecoveredOf(history: seq<Option<Message>>, steps: seq<Step>, roomID: string, size: nat, fromID: string, limit: int)
    returns (r: seq<Message>)
    requires history == Wrapped(Log(steps, roomID))
    ensures r == Recovered(Log(steps, roomID), size, fromID, limit)
    ensures r == Limited(HeldSince(history, size, fromID), limit)
  {
    HeldMessages(Log(steps, roomID), size);
    r := Recovered(Log(steps, roomID), size, fromID, limit);
  }

  // ---------------------------------------------------------------- the relay

  /** RecoverMessages once the room is found. */
  method RecoverFrom(room: RingBuffer, fromID: string, limit: int) returns (messages: seq<Message>)
    requires room.Valid()
    ensures messages == Limited(HeldSince(room.log, room.size, fromID), limit)
  {
    if fromID != "" {
      messages := room.GetSince(fromID);
    } else {
      messages := room.GetAll();
    }
    if limit > 0 && |messages| > limit {
      messages := messages[|messages| - limit..];
    }
  }

  /** Rooms share nothing. */
  ghost predicate Apart(rooms: map<string, RingBuffer>)
    reads rooms.Values, set r | r in rooms.Values :: r.messages
  {
    && (forall id | id in rooms :: rooms[id].Valid())
    && (forall a, b | a in rooms && b in rooms && a != b :: rooms[a].messages != rooms[b].messages)
  }

  lemma ApartWith(rooms: map<string, RingBuffer>, roomID: string, history: RingBuffer)
    requires Apart(rooms) && history.Valid() && forall id | id in rooms :: rooms[id].messages != history.messages
    ensures Apart(rooms[roomID := history])
  {
  }

  class MemoryRelay {
    var rooms: map<string, RingBuffer>
    var messageSeq: nat
    const defaultHistorySize: nat
    ghost var steps: seq<Step>

    ghost function Histories(): map<string, seq<Option<Message>>>
      reads this`rooms, rooms.Values
    {
      map id | id in rooms :: rooms[id].log
    }

    /** Every room's history stands for what the steps so far stored in it. */
    ghost predicate Valid()
      reads this, rooms.Values, set r | r in rooms.Values :: r.messages
    {
      defaultHistorySize > 0 && messageSeq == |Taken(steps)| && Apart(rooms) && Mirrors(Histories(), steps)
    }

    constructor (defaultHistorySize: int)
      ensures Valid() && rooms == map[] && steps == []
      ensures this.defaultHistorySize == if defaultHistorySize <= 0 then 100 else defaultHistorySize
    {
      this.defaultHistorySize := if defaultHistorySize <= 0 then 100 else defaultHistorySize;
      rooms, messageSeq, steps := map[], 0, [];
    }

    method CreateRoom(roomID: string, historySize: int) returns (created: bool)
      requires Valid()
      modifies this`rooms
      ensures Valid() && created == (roomID !in old(rooms))
      ensures !created ==> rooms == old(rooms)
      ensures created ==>
        && roomID in rooms && rooms == old(rooms)[roomID := rooms[roomID]] && fresh(rooms[roomID])
        && Log(steps, roomID) == []
        && rooms[roomID].size == if historySize <= 0 then defaultHistorySize else historySize
    {
      if roomID in rooms {
        return false;
      }
      var n: int := historySize;
      if n <= 0 {
        n := defaultHistorySize;
      }
      NewRoomMirrors(Histories(), steps, roomID);
      AddRoom(roomID, n);
      return true;
    }

    method AddRoom(roomID: string, n: nat)
      requires Apart(rooms) && roomID !in rooms && n > 0
      modifies this`rooms
      ensures roomID in rooms && rooms == old(rooms)[roomID := rooms[roomID]]
      ensures fresh(rooms[roomID]) && rooms[roomID].size == n
      ensures Apart(rooms) && Histories() == old(Histories())[roomID := []]
    {
      var history := new RingBuffer(n);
      ApartWith(rooms, roomID, history);
      rooms := rooms[roomID := history];
    }

    /** The message joins the room's history; which ones there were before is given. */
    method AddMessage(roomID: string, m: Message, ghost before: map<string, seq<Option<Message>>>)
      requires Apart(rooms) && Histories() == before && roomID in rooms
      modifies rooms[roomID], rooms[roomID].messages
      ensures Apart(rooms) && Histories() == before[roomID := before[roomID] + [Some(m)]]
    {
      rooms[roomID].Add(Some(m));
      assert forall id | id in rooms && id != roomID :: unchanged(rooms[id]) && unchanged(rooms[id].messages);
    }

    method GenerateId(millis: int) returns (id: string)
      modifies this`messageSeq
      ensures messageSeq == old(messageSeq) + 1 && id == GenerateMessageID(millis, messageSeq)
    {
      messageSeq := messageSeq + 1;
      id := GenerateMessageID(millis, messageSeq);
    }

    /**
     * Publish up to the point where the message has its ID; `now` and `millis` are what the clock
     * says when it is asked.
     */
    method Prepare(roomID: string, msg: Message, now: int, millis: int) returns (prepared: Option<Message>, ghost c: Call)
      requires Valid()
      modifies this`messageSeq, this`steps
      ensures Valid() && c == Call(roomID, msg, now, millis) && prepared.Some? == (roomID in rooms)
      ensures prepared.Some? ==>
        && steps == old(steps) + [Take(c)] && Pending(steps, messageSeq, c)
        && prepared.value == MessageFrom(c, messageSeq) && messageSeq == old(messageSeq) + 1
        && prepared.value.senderID == msg.senderID && prepared.value.kind == msg.kind
        && prepared.value.content == msg.content && prepared.value.metadata == msg.metadata
        && prepared.value.roomID == roomID && prepared.value.id == FormatInt(millis) + "-" + FormatInt(messageSeq)
        && prepared.value.timestamp == if msg.timestamp == -62_135_596_800_000_000_000 then now else msg.timestamp
      ensures prepared.None? ==> steps == old(steps) && messageSeq == old(messageSeq)
    {
      c := Call(roomID, msg, now, millis);
      if roomID !in rooms {
        return None, c;
      }
      var m := msg;
      if m.timestamp == ZERO_TIME {
        m := m.(timestamp := now);
      }
      m := m.(roomID := roomID);
      ghost var before := Histories();
      steps := TakeMirrors(before, steps, c);
      var id := GenerateId(millis);
      m := m.(id := id);
      assert Apart(rooms) && Histories() == before;
      return Some(m), c;
    }

    /** The persisting half of Publish, any number of other steps later. */
    method Persist(m: Message, ghost n: nat, ghost c: Call)
      requires Valid() && Pending(steps, n, c) && m == MessageFrom(c, n) && m.roomID in rooms
      modifies this`steps, rooms[m.roomID], rooms[m.roomID].messages
      ensures Valid() && steps == old(steps) + [Store(n, c)]
    {
      ghost var before := Histories();
      ghost var histories, steps' := StoreMirrors(before, steps, n, c);
      steps := steps';
      AddMessage(m.roomID, m, before);
      assert Histories() == histories;
    }

    /** Publish when nobody else does anything between its two halves. */
    method Publish(roomID: string, msg: Message, now: int, millis: int, persist: bool) returns (published: Option<Message>)
      requires Valid()
      modifies this`messageSeq, this`steps
      modifies if roomID in rooms then {rooms[roomID]} else {}
      modifies if roomID in rooms then {rooms[roomID].messages} else {}
      ensures Valid() && published.Some? == (roomID in rooms)
      ensures var c := Call(roomID, msg, now, millis);
        if published.Some?
        then && published.value == MessageFrom(c, messageSeq)
             && steps == old(steps) + [Take(c)] + (if persist then [Store(messageSeq, c)] else [])
        else steps == old(steps)
      ensures published.Some? ==>
        && published.value.senderID == msg.senderID && published.value.kind == msg.kind
        && published.value.content == msg.content && published.value.metadata == msg.metadata
        && published.value.roomID == roomID && published.value.id == FormatInt(millis) + "-" + FormatInt(messageSeq)
        && published.value.timestamp == if msg.timestamp == -62_135_596_800_000_000_000 then now else msg.timestamp
    {
      ghost var c;
      published, c := Prepare(roomID, msg, now, millis);
      if published.Some? && persist {
        Persist(published.value, messageSeq, c);
      }
    }

    method RecoverMessages(roomID: string, fromID: string, limit: int) returns (r: Option<seq<Message>>)
      requires Valid()
      ensures r.Some? == (roomID in rooms)
      ensures r.Some? ==> r.value == Recovered(Log(steps, roomID), rooms[roomID].size, fromID, limit)
    {
      if roomID !in rooms {
        return None;
      }
      var room := rooms[roomID];
      assert room.log == Histories()[roomID];
      ghost var expected := RecoveredOf(room.log, steps, roomID, room.size, fromID, limit);
      var messages := RecoverFrom(room, fromID, limit);
      return Some(messages);
    }
  }

  // ---------------------------------------------------------------- stored IDs

  ghost predicate InRange(steps: seq<Step>) {
    |Taken(steps)| <= MAX_INT64 && forall i | 0 <= i < |Taken(steps)| :: InInt64(Taken(steps)[i].millis)
  }

  /** The ID was made for one of the calls with the given numbers. */
  ghost predicate MadeFor(id: string, calls: seq<Call>, numbers: set<nat>) {
    exists n: nat :: n in numbers && 1 <= n <= |calls| && id == GenerateMessageID(calls[n - 1].millis, n)
  }

  /** Each message stored is one that was published to this room, with the room, the ID and a time filled in. */
  lemma {:induction false} LogHoldsMessages(steps: seq<Step>, roomID: string, i: nat) returns (n: nat, c: Call)
    requires Proper(steps) && i < |Log(steps, roomID)|
    ensures 1 <= n <= |Taken(steps)| && Taken(steps)[n - 1] == c && n in Stored(steps) && c.roomID == roomID
    ensures var m := Log(steps, roomID)[i];
            && m.senderID == c.msg.senderID && m.kind == c.msg.kind && m.content == c.msg.content && m.metadata == c.msg.metadata
            && m.roomID == roomID && m.id == FormatInt(c.millis) + "-" + FormatInt(n)
            && m.timestamp == if c.msg.timestamp == -62_135_596_800_000_000_000 then c.now else c.msg.timestamp
  {
    var before, last := steps[..|steps| - 1], steps[|steps| - 1];
    if i < |Log(before, roomID)| {
      n, c := LogHoldsMessages(before, roomID, i);
    } else {
      n, c := last.n, last.call;
    }
  }

  lemma {:induction false} LogIdsAreMade(steps: seq<Step>, roomID: string, i: nat)
    requires Proper(steps) && i < |Log(steps, roomID)|
    ensures MadeFor(Log(steps, roomID)[i].id, Taken(steps), Stored(steps))
  {
    var before, last := steps[..|steps| - 1], steps[|steps| - 1];
    if i < |Log(before, roomID)| {
      LogIdsAreMade(before, roomID, i);
      var n: nat :| n in Stored(before) && 1 <= n <= |Taken(before)| &&
                    Log(before, roomID)[i].id == GenerateMessageID(Taken(before)[n - 1].millis, n);
      assert n in Stored(steps) && Taken(steps)[n - 1] == Taken(before)[n - 1];
    } else {
      assert last.n in Stored(steps);
    }
  }

  /** Every stored message has an ID of its own, and none of the IDs that mean "from the beginning". */
  ghost predicate DistinctIds(log: seq<Message>) {
    && (forall i | 0 <= i < |log| :: !FromTheBeginning(log[i].id))
    && (forall i, j | 0 <= i < j < |log| :: log[i].id != log[j].id)
  }

  /** The ID of a message about to be stored is none of those in the log, in whatever order they were stored. */
  lemma PendingIdIsNew(steps: seq<Step>, roomID: string, n: nat, c: Call)
    requires Proper(steps) && InRange(steps) && Pending(steps, n, c)
    ensures Unused(Log(steps, roomID), GenerateMessageID(c.millis, n))
  {
    var log := Log(steps, roomID);
    forall i | 0 <= i < |log|
      ensures log[i].id != GenerateMessageID(c.millis, n)
    {
      LogIdsAreMade(steps, roomID, i);
      var k: nat :| k in Stored(steps) && 1 <= k <= |Taken(steps)| && log[i].id == GenerateMessageID(Taken(steps)[k - 1].millis, k);
      GeneratedIdsAreDistinct(Taken(steps)[k - 1].millis, k, c.millis, n);
    }
  }

  lemma InRangeBefore(steps: seq<Step>)
    requires InRange(steps) && steps != []
    ensures InRange(steps[..|steps| - 1])
  {
    var before := steps[..|steps| - 1];
    assert forall i | 0 <= i < |Taken(before)| :: Taken(steps)[i] == Taken(before)[i];
  }

  lemma {:induction false} LogIdsAreDistinct(steps: seq<Step>, roomID: string)
    requires Proper(steps) && InRange(steps)
    ensures DistinctIds(Log(steps, roomID))
  {
    if steps != [] {
      var before, last := steps[..|steps| - 1], steps[|steps| - 1];
      InRangeBefore(steps);
      LogIdsAreDistinct(before, roomID);
      if last.Store? && last.call.roomID == roomID {
        PendingIdIsNew(before, roomID, last.n, last.call);
      }
    }
  }

  // ---------------------------------------------------------------- what is recovered

  lemma SinceFinds(all: seq<Message>, i: nat)
    requires DistinctIds(all) && i < |all|
    ensures Since(all, all[i].id) == all[i + 1..]
  {
    assert forall k | 0 <= k < i :: all[..i][k] == all[k];
    SinceFirst(all, all[i].id, i);
  }

  /** Recovering from an ID that is still held gives exactly the messages stored after it, capped from the front. */
  lemma RecoverFromHeld(steps: seq<Step>, roomID: string, size: nat, i: nat, limit: int)
    requires Proper(steps) && InRange(steps) && i < |Log(steps, roomID)| <= i + size
    ensures var log := Log(steps, roomID);
            Recovered(log, size, log[i].id, limit) ==
            if 0 < limit < |log| - i - 1 then log[|log| - limit..] else log[i + 1..]
  {
    var log := Log(steps, roomID);
    LogIdsAreDistinct(steps, roomID);
    var k := HeldAt(log, size, i);
    SinceFinds(LastOf(log, size), k);
  }

  /** Where entry i of the log is among those held. */
  lemma HeldAt(log: seq<Message>, size: nat, i: nat) returns (k: nat)
    requires DistinctIds(log) && i < |log| <= i + size
    ensures var held := LastOf(log, size);
            DistinctIds(held) && k < |held| && held[k] == log[i] && held[k + 1..] == log[i + 1..]
  {
    var d := |log| - |LastOf(log, size)|;
    k := i - d;
    assert log[0..] == log;
    assert LastOf(log, size) == log[d..];
    DistinctSuffix(log, d);
  }

  lemma DistinctSuffix(log: seq<Message>, d: nat)
    requires DistinctIds(log) && d <= |log|
    ensures DistinctIds(log[d..])
  {
    var held := log[d..];
    assert forall i | 0 <= i < |held| :: held[i] == log[d + i];
  }

  /** Recovering from an ID that is no longer held, or never was, gives nothing. */
  lemma RecoverFromLost(steps: seq<Step>, roomID: string, size: nat, id: string, limit: int)
    requires Proper(steps) && InRange(steps) && id != "" && id != "0" && id != "-"
    requires forall i | |Log(steps, roomID)| - size <= i < |Log(steps, roomID)| && i >= 0 :: Log(steps, roomID)[i].id != id
    ensures Recovered(Log(steps, roomID), size, id, limit) == []
  {
    SinceMisses(LastOf(Log(steps, roomID), size), id);
  }

  /** A subscriber that is out of date by size messages or more recovers nothing, however much it missed. */
  lemma FallingBehindRecoversNothing(steps: seq<Step>, roomID: string, size: nat, i: nat, limit: int)
    requires Proper(steps) && InRange(steps) && i + size < |Log(steps, roomID)|
    ensures Recovered(Log(steps, roomID), size, Log(steps, roomID)[i].id, limit) == []
  {
    LogIdsAreDistinct(steps, roomID);
    RecoverFromLost(steps, roomID, size, Log(steps, roomID)[i].id, limit);
  }

  /** Recovering without an ID gives the last of what is held, as many as the limit allows. */
  lemma RecoverFromBeginning(log: seq<Message>, size: nat, id: string, limit: int)
    requires id == "" || id == "0" || id == "-"
    ensures var n := if 0 < limit < size then limit else size;
            Recovered(log, size, id, limit) == if |log| <= n then log else log[|log| - n..]
  {
  }
}
