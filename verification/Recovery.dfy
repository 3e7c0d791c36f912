/**
 * Offset-based recovery (engine/relay.go:343-424): a cursor kept in Redis, read and saved by
 * calls that may fail, over a stream that only grows.
 *
 * A stream is seen through the server's XRANGE, which reads IDs as pairs of numbers; the code
 * handles them as text. Everything holds for any way of reading them; Redis's own is RedisId.
 */
module Recovery {
  import opened Decimal
  import opened Messages

  // ---------------------------------------------------------------- the server's stream

  /** How the server reads the text of an entry ID: as a pair of numbers, compared in that order. */
  type Reading = string -> Option<(nat, nat)>

  predicate Before(a: (nat, nat), b: (nat, nat)) {
    a.0 < b.0 || (a.0 == b.0 && a.1 < b.1)
  }

  /** An ID the server gave to an entry; it is none of the texts the code treats as "no ID". */
  ghost predicate IsId(read: Reading, id: string) {
    read(id).Some? && id != "" && id != "-" && id != "0"
  }

  ghost predicate InOrder(read: Reading, ids: seq<string>, i: nat, j: nat)
    requires i < j < |ids|
  {
    read(ids[i]).Some? && read(ids[j]).Some? && Before(read(ids[i]).value, read(ids[j]).value)
  }

  /** The IDs of a stream are the server's own, in strictly increasing order. */
  ghost predicate Increasing(read: Reading, ids: seq<string>) {
    && (forall i | 0 <= i < |ids| :: IsId(read, ids[i]))
    && (forall i, j | 0 <= i < j < |ids| :: InOrder(read, ids, i, j))
  }

  /** Redis's own reading: "ms-seq" in decimal, or "ms" alone. */
  function RedisId(s: string): Option<(nat, nat)> {
    var k := IndexOf(s, '-');
    var ms := s[..k];
    var n := if k < |s| then s[k + 1..] else "0";
    if ms == "" || n == "" || !AllDigits(ms) || !AllDigits(n) then None
    else Some((DigitsValue(ms), DigitsValue(n)))
  }

  /** A time alone stands for the first ID of that time. */
  lemma TimeAlone(ms: nat)
    ensures RedisId(FormatNat(ms)) == Some((ms, 0))
  {
    FormatNatValue(ms);
    FormatNatValue(0);
    var a := FormatNat(ms);
    assert forall c | c in a :: IsDigit(c);
    IndexOfAbsent(a, '-');
    assert a[..|a|] == a && FormatNat(0) == "0";
  }

  /** The IDs Redis generates are read as the numbers they were printed from, and are proper IDs. */
  lemma PrintedIdReadsBack(ms: nat, n: nat)
    ensures var id := FormatNat(ms) + "-" + FormatNat(n);
            RedisId(id) == Some((ms, n)) && IsId(RedisId, id)
  {
    FormatNatValue(ms);
    FormatNatValue(n);
    var a, b := FormatNat(ms), FormatNat(n);
    assert forall c | c in a :: IsDigit(c);
    IndexOfFirst(a, '-', b);
    var s := a + "-" + b;
    assert s[..|a|] == a && s[|a| + 1..] == b && s[|a|] == '-';
  }

  /** The position of the first entry whose ID comes after the given one. */
  function FirstAfter(read: Reading, ids: seq<string>, id: (nat, nat)): (k: nat)
    ensures k <= |ids|
  {
    if ids == [] || (read(ids[0]).Some? && Before(id, read(ids[0]).value)) then 0
    else 1 + FirstAfter(read, ids[1..], id)
  }

  /** The stretch of the stream from one position up to another. */
  datatype Stretch = Stretch(begin: nat, end: nat)

  function Capped(n: nat, begin: nat, count: int): Stretch {
    Stretch(begin, if 0 < count < n - begin then begin + count else n)
  }

  /** XRANGE key start + [COUNT count], for the two kinds of start the code sends. */
  function XRange(read: Reading, ids: seq<string>, start: string, count: int): (r: Option<Stretch>)
    ensures r.Some? ==> r.value.begin <= r.value.end <= |ids|
  {
    if start == "-" then Some(Capped(|ids|, 0, count))
    else if start != "" && start[0] == '(' then
      match read(start[1..])
      case None => None
      case Some(id) => Some(Capped(|ids|, FirstAfter(read, ids, id), count))
    else None
  }

  // ---------------------------------------------------------------- one round of recovery

  /** FromID and Limit of RecoveryOptions; a nil pointer is RecoveryOptions("", 100). */
  datatype RecoveryOptions = RecoveryOptions(fromID: string, limit: int)

  /**
   * What goes wrong during a call. Receive fails on the message at receiveFailsAt, if there is one.
   * A save is lost when it has no effect, reported or not; whether it is reported, the call ignores.
   */
  datatype Faults = Faults(offsetReadFails: bool, rangeFails: bool, receiveFailsAt: int, saveLost: bool)

  function EffectiveLimit(limit: int): (l: int)
    ensures l > 0
  {
    if limit <= 0 then 100 else limit
  }

  /** The ID to go on from: the caller's, else the stored one, else none. */
  function LastID(stored: string, opts: RecoveryOptions, f: Faults): string {
    if opts.fromID == "" && !f.offsetReadFails then stored else opts.fromID
  }

  function StartOf(lastID: string): string {
    if lastID != "" && lastID != "-" && lastID != "0" then "(" + lastID else "-"
  }

  function Fetched(read: Reading, ids: seq<string>, stored: string, opts: RecoveryOptions, f: Faults): (r: Option<Stretch>)
    ensures r.Some? ==> r.value.begin <= r.value.end <= |ids|
  {
    if f.rangeFails then None else XRange(read, ids, StartOf(LastID(stored, opts, f)), EffectiveLimit(opts.limit))
  }

  /** The stretch delivered, the offset stored afterwards, and whether the call succeeded. */
  datatype Round = Round(block: Stretch, stored: string, ok: bool)

  function Recover(read: Reading, ids: seq<string>, stored: string, opts: RecoveryOptions, f: Faults): (r: Round)
    ensures r.block.begin <= r.block.end <= |ids|
  {
    match Fetched(read, ids, stored, opts, f)
    case None => Round(Stretch(0, 0), stored, false)
    case Some(fetched) => Deliver(ids, fetched, stored, f)
  }

  /** Delivery stops at the first failure; the offset is saved only after the last message. */
  function Deliver(ids: seq<string>, fetched: Stretch, stored: string, f: Faults): (r: Round)
    requires fetched.begin <= fetched.end <= |ids|
    ensures fetched.begin == r.block.begin <= r.block.end <= fetched.end
  {
    var Stretch(begin, end) := fetched;
    if 0 <= f.receiveFailsAt < end - begin then Round(Stretch(begin, begin + f.receiveFailsAt), stored, false)
    else if begin == end || ids[end - 1] == "" || f.saveLost then Round(fetched, stored, true)
    else Round(fetched, ids[end - 1], true)
  }

  // ---------------------------------------------------------------- the code

  class Subscriber {
    const id: string
    var received: seq<Message>

    constructor (id: string)
      ensures this.id == id && received == []
    {
      this.id := id;
      received := [];
    }

    method Receive(msg: Message, fails: bool) returns (ok: bool)
      modifies this
      ensures ok == !fails && received == if fails then old(received) else old(received) + [msg]
    {
      ok := !fails;
      if ok {
        received := received + [msg];
      }
    }
  }

  function IdsOf(entries: seq<StreamEntry>): (ids: seq<string>)
    ensures |ids| == |entries| && forall i | 0 <= i < |ids| :: ids[i] == entries[i].id
  {
    seq(|entries|, i requires 0 <= i < |entries| => entries[i].id)
  }

  function MessagesOf(roomID: string, entries: seq<StreamEntry>, unmarshal: string -> map<string, string>): (ms: seq<Message>)
    ensures |ms| == |entries|
    ensures forall i | 0 <= i < |ms| :: ms[i] == MessageOf(roomID, entries[i], unmarshal)
  {
    seq(|entries|, i requires 0 <= i < |entries| => MessageOf(roomID, entries[i], unmarshal))
  }

  lemma SamePrefix(p: string, a: string, b: string)
    ensures p + a == p + b <==> a == b
  {
    assert (p + a)[|p|..] == a && (p + b)[|p|..] == b;
  }

  /** How a SET went: done, answered with an error, or without an answer, in which case it may have been done. */
  datatype SetReply = Done | ErrorReply | Lost(applied: bool)

  predicate Applied(reply: SetReply) {
    reply.Done? || (reply.Lost? && reply.applied)
  }

  /** The relay with the two Redis keyspaces it uses. */
  class Relay {
    const prefix: string
    const read: Reading
    const marshal: map<string, string> -> string
    const unmarshal: string -> map<string, string>
    var streams: map<string, seq<StreamEntry>>
    var offsets: map<string, string>

    constructor (prefix: string, read: Reading, marshal: map<string, string> -> string, unmarshal: string -> map<string, string>)
      ensures this.prefix == (if prefix == "" then "sr:" else prefix)
      ensures this.read == read && this.marshal == marshal && this.unmarshal == unmarshal
      ensures streams == map[] && offsets == map[]
    {
      this.prefix := if prefix == "" then "sr:" else prefix;
      this.read, this.marshal, this.unmarshal := read, marshal, unmarshal;
      streams, offsets := map[], map[];
    }

    function StreamKey(roomID: string): string {
      prefix + "stream:" + roomID
    }

    function OffsetKey(roomID: string, userID: string): string {
      prefix + "offset:" + roomID + ":" + userID
    }

    function Stream(roomID: string): seq<StreamEntry>
      reads this
    {
      if StreamKey(roomID) in streams then streams[StreamKey(roomID)] else []
    }

    function Stored(roomID: string, userID: string): string
      reads this
    {
      if OffsetKey(roomID, userID) in offsets then offsets[OffsetKey(roomID, userID)] else ""
    }

    /**
     * Appends a message to the room's stream under the ID the server picks. A failed call may
     * still have added the entry. Where it did, recovery reads the message back.
     */
    method PublishToStream(roomID: string, msg: Message, id: string, failed: bool, added: bool) returns (messageID: Option<string>)
      requires failed || added
      modifies this`streams
      ensures messageID == if failed then None else Some(id)
      ensures !added ==> streams == old(streams)
      ensures added ==>
        && StreamKey(roomID) == prefix + "stream:" + roomID
        && StreamKey(roomID) in streams && streams == old(streams)[StreamKey(roomID) := streams[StreamKey(roomID)]]
        && |streams[StreamKey(roomID)]| > 0
        && var entry := streams[StreamKey(roomID)][|streams[StreamKey(roomID)]| - 1];
           && entry.id == id && entry.fields.Keys == {"sender_id", "type", "content", "metadata", "timestamp"}
           && entry.fields["sender_id"] == msg.senderID && entry.fields["type"] == msg.kind && entry.fields["content"] == msg.content
           && entry.fields["metadata"] == (if |msg.metadata| > 0 then marshal(msg.metadata) else "")
           && entry.fields["timestamp"] == FormatInt(msg.timestamp / 1_000_000)
      ensures Stream(roomID) == old(Stream(roomID)) + (if added then [StreamEntry(id, FieldsOf(msg, marshal))] else [])
      ensures forall other | other != roomID :: Stream(other) == old(Stream(other))
      ensures added && Storable(msg, marshal, unmarshal) ==>
        MessagesOf(roomID, Stream(roomID), unmarshal) ==
        MessagesOf(roomID, old(Stream(roomID)), unmarshal) + [msg.(id := id, roomID := roomID, timestamp := Millis(msg.timestamp) * 1_000_000)]
    {
      forall other
        ensures StreamKey(other) == StreamKey(roomID) <==> other == roomID
      {
        SamePrefix(prefix + "stream:", roomID, other);
      }
      var metadata := "";
      if |msg.metadata| > 0 {
        metadata := marshal(msg.metadata);
      }
      var fields := map["sender_id" := msg.senderID,
                        "type" := msg.kind,
                        "content" := msg.content,
                        "metadata" := metadata,
                        "timestamp" := FormatInt(Millis(msg.timestamp))];
      if Storable(msg, marshal, unmarshal) {
        MessageReadsBack(msg, id, roomID, marshal, unmarshal);
      }
      if added {
        streams := streams[StreamKey(roomID) := Stream(roomID) + [StreamEntry(id, fields)]];
      }
      return if failed then None else Some(id);
    }

    /** Success is reported for every reply, an error reply included. */
    method SaveOffset(roomID: string, userID: string, messageID: string, reply: SetReply) returns (ok: bool)
      modifies this`offsets
      ensures ok <==> !reply.Lost?
      ensures offsets == if Applied(reply) then old(offsets)[OffsetKey(roomID, userID) := messageID] else old(offsets)
      ensures offsets ==
        if reply.Done? || (reply.Lost? && reply.applied)
        then old(offsets)[prefix + "offset:" + roomID + ":" + userID := messageID] else old(offsets)
      ensures Stored(roomID, userID) == messageID <==> Applied(reply) || old(Stored(roomID, userID)) == messageID
    {
      if Applied(reply) {
        offsets := offsets[OffsetKey(roomID, userID) := messageID];
      }
      ok := !reply.Lost?;
    }

    method GetOffset(roomID: string, userID: string, fails: bool) returns (offset: Option<string>)
      ensures offset == if fails then None else Some(Stored(roomID, userID))
      ensures offset.Some? ==>
        var key := prefix + "offset:" + roomID + ":" + userID; offset.value == if key in offsets then offsets[key] else ""
    {
      if fails {
        return None;
      }
      offset := Some(Stored(roomID, userID));
    }

    /** The messages of the entries fetched. */
    method RecoverMessages(roomID: string, userID: string, opts: RecoveryOptions, f: Faults) returns (r: Option<seq<Message>>)
      ensures r == match Fetched(read, IdsOf(Stream(roomID)), Stored(roomID, userID), opts, f)
                   case None => None
                   case Some(s) => Some(MessagesOf(roomID, Stream(roomID)[s.begin..s.end], unmarshal))
    {
      var lastID := opts.fromID;
      var limit := opts.limit;
      if limit <= 0 {
        limit := 100;
      }
      if lastID == "" {
        var storedID := GetOffset(roomID, userID, f.offsetReadFails);
        if storedID.Some? && storedID.value != "" {
          lastID := storedID.value;
        }
      }
      var startID := lastID;
      if startID != "" && startID != "-" && startID != "0" {
        startID := "(" + lastID;
      } else {
        startID := "-";
      }
      if f.rangeFails {
        return None;
      }
      var range := XRange(read, IdsOf(Stream(roomID)), startID, limit);
      if range.None? {
        return None;
      }
      var messages := ParseEntries(roomID, Stream(roomID)[range.value.begin..range.value.end]);
      return Some(messages);
    }

    method ParseEntries(roomID: string, entries: seq<StreamEntry>) returns (messages: seq<Message>)
      ensures messages == MessagesOf(roomID, entries, unmarshal)
    {
      messages := [];
      for i := 0 to |entries|
        invariant messages == MessagesOf(roomID, entries[..i], unmarshal)
      {
        var msg := ParseStreamEntry(roomID, entries[i], unmarshal);
        messages := messages + [msg];
      }
      assert entries[..|entries|] == entries;
    }

    method RecoverAndDeliver(roomID: string, sub: Subscriber, opts: RecoveryOptions, f: Faults) returns (ok: bool, ghost round: Round)
      modifies this`offsets, sub
      ensures round == Recover(read, old(IdsOf(Stream(roomID))), old(Stored(roomID, sub.id)), opts, f)
      ensures ok == round.ok
      ensures sub.received == old(sub.received) +
                MessagesOf(roomID, Stream(roomID)[round.block.begin..round.block.end], unmarshal)
      ensures Stored(roomID, sub.id) == round.stored
      ensures offsets == old(offsets) || offsets == old(offsets)[OffsetKey(roomID, sub.id) := round.stored]
    {
      ghost var stream, stored := Stream(roomID), Stored(roomID, sub.id);
      ghost var fetched := Fetched(read, IdsOf(stream), stored, opts, f);
      var messages := RecoverMessages(roomID, sub.id, opts, f);
      round := Recover(read, IdsOf(stream), stored, opts, f);
      if messages.None? {
        return false, round;
      }
      DeliveredMessages(roomID, stream, fetched.value, stored, unmarshal, f, round);
      var lastID;
      ok, lastID := DeliverAll(messages.value, sub, f);
      if !ok {
        return;
      }
      if lastID != "" {
        var saved := SaveOffset(roomID, sub.id, lastID, if f.saveLost then ErrorReply else Done);
      }
    }
  }

  /** What delivering the messages of a stretch amounts to, in terms of the stream. */
  lemma DeliveredMessages(roomID: string, stream: seq<StreamEntry>, s: Stretch, stored: string,
                          unmarshal: string -> map<string, string>, f: Faults, r: Round)
    requires s.begin <= s.end <= |stream|
    requires r == Deliver(IdsOf(stream), s, stored, f)
    ensures r.block.begin <= r.block.end <= |stream|
    ensures var ms := MessagesOf(roomID, stream[s.begin..s.end], unmarshal);
            && r.ok == !(0 <= f.receiveFailsAt < |ms|)
            && MessagesOf(roomID, stream[r.block.begin..r.block.end], unmarshal) == (if r.ok then ms else ms[..f.receiveFailsAt])
            && var lastID := if ms == [] then "" else ms[|ms| - 1].id;
               r.stored == if r.ok && lastID != "" && !f.saveLost then lastID else stored
  {
    MessagesOfStretch(roomID, stream, s, if r.ok then s.end - s.begin else f.receiveFailsAt, unmarshal);
    LastIdOfStretch(roomID, stream, s, unmarshal);
  }

  lemma LastIdOfStretch(roomID: string, stream: seq<StreamEntry>, s: Stretch, unmarshal: string -> map<string, string>)
    requires s.begin <= s.end <= |stream|
    ensures var ms := MessagesOf(roomID, stream[s.begin..s.end], unmarshal);
            ms != [] ==> ms[|ms| - 1].id == IdsOf(stream)[s.end - 1]
  {
  }

  lemma MessagesOfStretch(roomID: string, stream: seq<StreamEntry>, s: Stretch, k: nat, unmarshal: string -> map<string, string>)
    requires s.begin <= s.begin + k <= s.end <= |stream|
    ensures var ms := MessagesOf(roomID, stream[s.begin..s.end], unmarshal);
            MessagesOf(roomID, stream[s.begin..s.begin + k], unmarshal) == ms[..k]
  {
  }

  lemma OneMore<T>(s: seq<T>, i: nat)
    requires i < |s|
    ensures s[..i + 1] == s[..i] + [s[i]]
  {
  }

  /** The delivery loop: stops at the first failure, and otherwise reports the last message's ID. */
  method DeliverAll(messages: seq<Message>, sub: Subscriber, f: Faults) returns (ok: bool, lastID: string)
    modifies sub
    ensures ok == !(0 <= f.receiveFailsAt < |messages|)
    ensures ok ==> sub.received == old(sub.received) + messages
    ensures !ok ==> sub.received == old(sub.received) + messages[..f.receiveFailsAt]
    ensures ok ==> lastID == if messages == [] then "" else messages[|messages| - 1].id
  {
    lastID := "";
    for i := 0 to |messages|
      invariant i <= f.receiveFailsAt || f.receiveFailsAt < 0
      invariant sub.received == old(sub.received) + messages[..i]
      invariant lastID == if i == 0 then "" else messages[i - 1].id
    {
      OneMore(messages, i);
      var received := sub.Receive(messages[i], i == f.receiveFailsAt);
      if !received {
        return false, lastID;
      }
      lastID := messages[i].id;
    }
    assert messages[..|messages|] == messages;
    return true, lastID;
  }
}
