/** Messages and the stream entries they are stored in (engine/relay.go:238-312). */
module Messages {
  import opened Decimal

  datatype StreamEntry = StreamEntry(id: string, fields: map<string, string>)

  /** Times are nanoseconds since 1970; ZERO_TIME is Go's zero time. */
  const ZERO_TIME: int := -62_135_596_800_000_000_000

  datatype Message = Message(id: string, roomID: string, senderID: string, kind: string, content: string,
                             metadata: map<string, string>, timestamp: int)

  function Millis(nanos: int): int {
    nanos / 1_000_000
  }

  /** The fields publishToStream adds; marshal stands for json.Marshal. */
  function FieldsOf(msg: Message, marshal: map<string, string> -> string): map<string, string> {
    map["sender_id" := msg.senderID,
        "type" := msg.kind,
        "content" := msg.content,
        "metadata" := if |msg.metadata| > 0 then marshal(msg.metadata) else "",
        "timestamp" := FormatInt(Millis(msg.timestamp))]
  }

  function Field(fields: map<string, string>, name: string): string {
    if name in fields then fields[name] else ""
  }

  function MessageOf(roomID: string, entry: StreamEntry, unmarshal: string -> map<string, string>): Message {
    var fields := entry.fields;
    var metadata := Field(fields, "metadata");
    var ts := if "timestamp" in fields then ParseInt(fields["timestamp"]) else None;
    Message(entry.id, roomID, Field(fields, "sender_id"), Field(fields, "type"), Field(fields, "content"),
            if metadata != "" then unmarshal(metadata) else map[],
            if ts.Some? then ts.value * 1_000_000 else ZERO_TIME)
  }

  method ParseStreamEntry(roomID: string, entry: StreamEntry, unmarshal: string -> map<string, string>) returns (msg: Message)
    ensures msg == MessageOf(roomID, entry, unmarshal)
    ensures msg.id == entry.id && msg.roomID == roomID
    ensures msg.senderID == if "sender_id" in entry.fields then entry.fields["sender_id"] else ""
    ensures msg.kind == if "type" in entry.fields then entry.fields["type"] else ""
    ensures msg.content == if "content" in entry.fields then entry.fields["content"] else ""
    ensures msg.metadata ==
            if "metadata" in entry.fields && entry.fields["metadata"] != "" then unmarshal(entry.fields["metadata"]) else map[]
    ensures msg.timestamp ==
            if "timestamp" in entry.fields && ParseInt(entry.fields["timestamp"]).Some?
            then ParseInt(entry.fields["timestamp"]).value * 1_000_000
            else -62_135_596_800_000_000_000
  {
    msg := Message(entry.id, roomID, "", "", "", map[], ZERO_TIME);
    if "sender_id" in entry.fields {
      msg := msg.(senderID := entry.fields["sender_id"]);
    }
    if "type" in entry.fields {
      msg := msg.(kind := entry.fields["type"]);
    }
    if "content" in entry.fields {
      msg := msg.(content := entry.fields["content"]);
    }
    if "metadata" in entry.fields && entry.fields["metadata"] != "" {
      msg := msg.(metadata := unmarshal(entry.fields["metadata"]));
    }
    if "timestamp" in entry.fields {
      var ts := ParseInt(entry.fields["timestamp"]);
      if ts.Some? {
        msg := msg.(timestamp := ts.value * 1_000_000);
      }
    }
  }

  /** The time has a 64-bit count of milliseconds, and the metadata survives marshalling. */
  predicate Storable(msg: Message, marshal: map<string, string> -> string, unmarshal: string -> map<string, string>) {
    && InInt64(Millis(msg.timestamp))
    && (|msg.metadata| > 0 ==> marshal(msg.metadata) != "" && unmarshal(marshal(msg.metadata)) == msg.metadata)
  }

  /** A stored message reads back as itself, with the stream's ID and its time cut to milliseconds. */
  lemma MessageReadsBack(msg: Message, id: string, roomID: string,
                         marshal: map<string, string> -> string, unmarshal: string -> map<string, string>)
    requires Storable(msg, marshal, unmarshal)
    ensures MessageOf(roomID, StreamEntry(id, FieldsOf(msg, marshal)), unmarshal) ==
            msg.(id := id, roomID := roomID, timestamp := Millis(msg.timestamp) * 1_000_000)
    ensures 0 <= msg.timestamp - Millis(msg.timestamp) * 1_000_000 < 1_000_000
  {
    ParseFormat(Millis(msg.timestamp));
    assert |msg.metadata| == 0 ==> msg.metadata == map[];
  }
}
