/** Stream entries over RESP: redis/stream.go and the conversions of redis/resp.go. */
module StreamEntries {
  import opened Decimal
  import opened Messages
  import opened Resp
  import opened RespCodec

  // ---------------------------------------------------------------- conversions of a value

  datatype ConversionError = NilResponse | UnexpectedType | OddLength | InvalidEntry
  datatype Conversion<+T> = Got(value: T) | Wrong(error: ConversionError)

  predicate IsNull(v: Value) {
    v.NullBulkString? || v.NullArray?
  }

  function AsString(v: Value): Conversion<string> {
    if IsNull(v) then Wrong(NilResponse)
    else if v.SimpleString? || v.BulkString? then Got(v.str)
    else if v.Integer? then Got(FormatInt(v.n))
    else Wrong(UnexpectedType)
  }

  function AsArray(v: Value): Conversion<seq<Value>> {
    if IsNull(v) then Wrong(NilResponse)
    else if v.Array? then Got(v.items)
    else Wrong(UnexpectedType)
  }

  /** Field-value pairs added to m in order; the first value that is no string decides the error. */
  function MapFrom(items: seq<Value>, m: map<string, string>): Conversion<map<string, string>>
    requires |items| % 2 == 0
  {
    if items == [] then Got(m)
    else
      match (AsString(items[0]), AsString(items[1]))
      case (Wrong(e), _) => Wrong(e)
      case (_, Wrong(e)) => Wrong(e)
      case (Got(key), Got(val)) => MapFrom(items[2..], m[key := val])
  }

  function MapOf(v: Value): Conversion<map<string, string>> {
    match AsArray(v)
    case Wrong(e) => Wrong(e)
    case Got(items) => if |items| % 2 != 0 then Wrong(OddLength) else MapFrom(items, map[])
  }

  /** Strings and integers convert, an integer to its numeral. */
  lemma TextOf(v: Value)
    ensures v.SimpleString? || v.BulkString? ==> AsString(v) == Got(v.str)
    ensures v.Integer? ==> AsString(v) == Got(FormatInt(v.n))
    ensures v.NullBulkString? || v.NullArray? ==> AsString(v) == Wrong(NilResponse)
    ensures v.Error? || v.Array? ==> AsString(v) == Wrong(UnexpectedType)
  {
  }

  /** One more pair: the first value that is no string has decided already, or decides now, or the pair overrides. */
  lemma {:induction false} OneMorePair(items: seq<Value>, key: Value, val: Value, m: map<string, string>)
    requires |items| % 2 == 0
    ensures MapFrom([], m) == Got(m)
    ensures MapFrom(items, m).Wrong? ==> MapFrom(items + [key, val], m) == MapFrom(items, m)
    ensures MapFrom(items, m).Got? ==>
      MapFrom(items + [key, val], m) ==
      if AsString(key).Wrong? then Wrong(AsString(key).error)
      else if AsString(val).Wrong? then Wrong(AsString(val).error)
      else Got(MapFrom(items, m).value[AsString(key).value := AsString(val).value])
    decreases |items|
  {
    var pair := [key, val];
    if items == [] {
      assert items + pair == pair && pair[2..] == [];
    } else {
      assert (items + pair)[2..] == items[2..] + pair;
      if AsString(items[0]).Got? && AsString(items[1]).Got? {
        OneMorePair(items[2..], key, val, m[AsString(items[0]).value := AsString(items[1]).value]);
      }
    }
  }

  method AsMap(v: Value) returns (r: Conversion<map<string, string>>)
    ensures r == MapOf(v)
    ensures v.NullBulkString? || v.NullArray? ==> r == Wrong(NilResponse)
    ensures !v.NullBulkString? && !v.NullArray? && !v.Array? ==> r == Wrong(UnexpectedType)
    ensures v.Array? && |v.items| % 2 == 1 ==> r == Wrong(OddLength)
  {
    var arr := AsArray(v);
    if arr.Wrong? {
      return Wrong(arr.error);
    }
    var items := arr.value;
    if |items| % 2 != 0 {
      return Wrong(OddLength);
    }
    var result: map<string, string> := map[];
    var i := 0;
    while i < |items|
      invariant 0 <= i <= |items| && i % 2 == 0
      invariant MapFrom(items[i..], result) == MapFrom(items, map[])
    {
      var key := AsString(items[i]);
      if key.Wrong? {
        return Wrong(key.error);
      }
      var val := AsString(items[i + 1]);
      if val.Wrong? {
        return Wrong(val.error);
      }
      assert items[i..][2..] == items[i + 2..];
      result := result[key.value := val.value];
      i := i + 2;
    }
    return Got(result);
  }

  // ---------------------------------------------------------------- writing fields

  /** order lists every key of the map once: an order a Go map may be ranged over in. */
  ghost predicate Enumerates(order: seq<string>, keys: set<string>) {
    && (forall i, j | 0 <= i < j < |order| :: order[i] != order[j])
    && (forall k :: k in keys <==> k in order)
  }

  function Flatten(order: seq<string>, fields: map<string, string>): (args: seq<string>)
    requires forall k | k in order :: k in fields
    ensures |args| == 2 * |order|
  {
    if order == [] then []
    else Flatten(order[..|order| - 1], fields) + [order[|order| - 1], fields[order[|order| - 1]]]
  }

  /** Each key in order, with its value right after it. */
  lemma {:induction false} FlattenAt(order: seq<string>, fields: map<string, string>)
    requires forall k | k in order :: k in fields
    ensures forall i | 0 <= i < |order| :: Flatten(order, fields)[2 * i] == order[i] && Flatten(order, fields)[2 * i + 1] == fields[order[i]]
  {
    if order != [] {
      FlattenAt(order[..|order| - 1], fields);
    }
  }

  /** The argument list of XADD, with the fields in whatever order the map offers them. */
  method XAddArgs(key: string, id: string, fields: map<string, string>) returns (args: seq<string>)
    ensures exists order ::
      && (forall i, j | 0 <= i < j < |order| :: order[i] != order[j]) && (forall k :: k in fields <==> k in order)
      && args == ["XADD", key, id] + Flatten(order, fields)
  {
    args := ["XADD", key, id];
    ghost var order := [];
    var todo := fields.Keys;
    while todo != {}
      invariant todo <= fields.Keys
      invariant Enumerates(order, fields.Keys - todo)
      invariant args == ["XADD", key, id] + Flatten(order, fields)
    {
      var k :| k in todo;
      assert (order + [k])[..|order|] == order;
      args := args + [k, fields[k]];
      order := order + [k];
      todo := todo - {k};
    }
    assert Enumerates(order, fields.Keys);
  }

  // ---------------------------------------------------------------- reading entries

  function ParseSingleEntry(v: Value): Conversion<StreamEntry> {
    var arr := AsArray(v);
    if arr.Wrong? || |arr.value| != 2 then Wrong(InvalidEntry)
    else
      match AsString(arr.value[0])
      case Wrong(e) => Wrong(e)
      case Got(id) =>
        match MapOf(arr.value[1])
        case Wrong(e) => Wrong(e)
        case Got(fields) => Got(StreamEntry(id, fields))
  }

  /** All entries of a reply, or the error of the first that is malformed. */
  function EntriesOf(items: seq<Value>): Conversion<seq<StreamEntry>> {
    if items == [] then Got([])
    else
      match EntriesOf(items[..|items| - 1])
      case Wrong(e) => Wrong(e)
      case Got(entries) =>
        match ParseSingleEntry(items[|items| - 1])
        case Wrong(e) => Wrong(e)
        case Got(entry) => Got(entries + [entry])
  }

  lemma {:induction false} FirstErrorDecides(items: seq<Value>, i: nat)
    requires i < |items| && EntriesOf(items[..i]).Got? && ParseSingleEntry(items[i]).Wrong?
    ensures EntriesOf(items) == Wrong(ParseSingleEntry(items[i]).error)
  {
    var last := |items| - 1;
    if i < last {
      assert items[..last][..i] == items[..i];
      FirstErrorDecides(items[..last], i);
    } else {
      assert items[..last] == items[..i];
    }
  }

  /** An entry is an array of two: a string, and an array of pairs. */
  lemma SingleEntryMeans(v: Value)
    ensures !v.Array? || |v.items| != 2 ==> ParseSingleEntry(v) == Wrong(InvalidEntry)
    ensures v.Array? && |v.items| == 2 ==>
      match ParseSingleEntry(v)
      case Got(e) => AsString(v.items[0]) == Got(e.id) && MapOf(v.items[1]) == Got(e.fields)
      case Wrong(error) => AsString(v.items[0]) == Wrong(error) || (AsString(v.items[0]).Got? && MapOf(v.items[1]) == Wrong(error))
  {
  }

  /** All entries, in order, or none when one is malformed. */
  lemma {:induction false} EntriesInOrder(items: seq<Value>)
    ensures EntriesOf(items).Got? <==> forall i | 0 <= i < |items| :: ParseSingleEntry(items[i]).Got?
    ensures EntriesOf(items).Got? ==>
      && |EntriesOf(items).value| == |items|
      && forall i | 0 <= i < |items| :: ParseSingleEntry(items[i]) == Got(EntriesOf(items).value[i])
  {
    if items != [] {
      var last := |items| - 1;
      EntriesInOrder(items[..last]);
      assert forall i | 0 <= i < last :: items[i] == items[..last][i];
    }
  }

  method ParseEntries(resp: Value) returns (r: Conversion<seq<StreamEntry>>)
    ensures resp.NullBulkString? || resp.NullArray? ==> r == Wrong(NilResponse)
    ensures !resp.NullBulkString? && !resp.NullArray? && !resp.Array? ==> r == Wrong(UnexpectedType)
    ensures r == match AsArray(resp) case Wrong(e) => Wrong(e) case Got(items) => EntriesOf(items)
  {
    var arr := AsArray(resp);
    if arr.Wrong? {
      return Wrong(arr.error);
    }
    var items := arr.value;
    var entries := new StreamEntry[|items|](_ => StreamEntry("", map[]));
    assert entries[..0] == [];
    for i := 0 to |items|
      invariant EntriesOf(items[..i]) == Got(entries[..i])
    {
      assert items[..i + 1][..i] == items[..i];
      var entry := ParseSingleEntry(items[i]);
      if entry.Wrong? {
        FirstErrorDecides(items, i);
        return Wrong(entry.error);
      }
      entries[i] := entry.value;
      assert entries[..i + 1] == entries[..i] + [entry.value];
    }
    assert items[..|items|] == items && entries[..|items|] == entries[..];
    return Got(entries[..]);
  }

  // ---------------------------------------------------------------- entries survive the wire

  /** The entry as the server replies it: the ID, then the fields in the order they were added. */
  function EntryValue(id: string, args: seq<string>): Value {
    Array([BulkString(id), Array(BulkStrings(args))])
  }

  lemma {:induction false} FlattenedReadsBack(order: seq<string>, fields: map<string, string>)
    requires forall k | k in order :: k in fields
    ensures MapFrom(BulkStrings(Flatten(order, fields)), map[]) == Got(map k | k in order :: fields[k])
  {
    if order != [] {
      var rest, k := order[..|order| - 1], order[|order| - 1];
      assert order == rest + [k];
      FlattenedReadsBack(rest, fields);
      var items := BulkStrings(Flatten(rest, fields));
      OneMorePair(items, BulkString(k), BulkString(fields[k]), map[]);
      assert BulkStrings(Flatten(order, fields)) == items + [BulkString(k), BulkString(fields[k])];
      assert (map k | k in order :: fields[k]) == (map k | k in rest :: fields[k])[k := fields[k]];
    }
  }

  /** Whatever the order of the map, the entry parses back to the same ID and the same map. */
  lemma EntryReadsBack(id: string, order: seq<string>, fields: map<string, string>)
    requires Enumerates(order, fields.Keys)
    ensures ParseSingleEntry(EntryValue(id, Flatten(order, fields))) == Got(StreamEntry(id, fields))
  {
    FlattenedReadsBack(order, fields);
    assert (map k | k in order :: fields[k]) == fields;
  }

  /** Entries with the order each one's fields were added in. */
  datatype Added = Added(entry: StreamEntry, order: seq<string>)

  ghost predicate Storable(a: Added) {
    && Enumerates(a.order, a.entry.fields.Keys)
    && Sendable([a.entry.id]) && Sendable(Flatten(a.order, a.entry.fields))
  }

  ghost function ReplyEntry(a: Added): Value
    requires Storable(a)
  {
    EntryValue(a.entry.id, Flatten(a.order, a.entry.fields))
  }

  ghost function Reply(added: seq<Added>): (vs: seq<Value>)
    requires forall i | 0 <= i < |added| :: Storable(added[i])
    ensures |vs| == |added| && forall i | 0 <= i < |vs| :: vs[i] == ReplyEntry(added[i])
  {
    if added == [] then [] else Reply(added[..|added| - 1]) + [ReplyEntry(added[|added| - 1])]
  }

  function Entries(added: seq<Added>): (es: seq<StreamEntry>)
    ensures |es| == |added| && forall i | 0 <= i < |es| :: es[i] == added[i].entry
  {
    if added == [] then [] else Entries(added[..|added| - 1]) + [added[|added| - 1].entry]
  }

  lemma {:induction false} ReplyReadsBack(added: seq<Added>)
    requires forall i | 0 <= i < |added| :: Storable(added[i])
    ensures EntriesOf(Reply(added)) == Got(Entries(added))
  {
    if added != [] {
      var rest, last := added[..|added| - 1], added[|added| - 1];
      ReplyReadsBack(rest);
      EntryReadsBack(last.entry.id, last.order, last.entry.fields);
      assert Reply(added)[..|rest|] == Reply(rest);
    }
  }

  /** An XRANGE reply, sent as bytes and followed by anything, yields the entries that were added. */
  lemma EntriesSurviveTheWire(added: seq<Added>, t: string)
    requires |added| <= MAX_INT64
    requires forall i | 0 <= i < |added| :: Storable(added[i])
    ensures var o := Parse(Encode(Array(Reply(added))) + t);
            o.Ok? && o.rest == t && o.value.Array? && EntriesOf(o.value.items) == Got(Entries(added))
  {
    var reply := Array(Reply(added));
    forall i | 0 <= i < |added|
      ensures WellFormed(reply.items[i])
    {
      StorableIsWellFormed(added[i]);
    }
    RoundTrip(reply, t);
    ReplyReadsBack(added);
  }

  lemma StorableIsWellFormed(a: Added)
    requires Storable(a)
    ensures WellFormed(EntryValue(a.entry.id, Flatten(a.order, a.entry.fields)))
  {
    var args := Flatten(a.order, a.entry.fields);
    assert |a.entry.id| == |[a.entry.id][0]|;
    forall i | 0 <= i < |args|
      ensures WellFormed(BulkStrings(args)[i])
    {
    }
  }

  // ---------------------------------------------------------------- messages survive the wire

  /** From publish to recovery: any field order, the bytes of the reply, and the message again. */
  lemma MessageSurvivesTheWire(msg: Message, id: string, roomID: string, order: seq<string>, t: string,
                               marshal: map<string, string> -> string, unmarshal: string -> map<string, string>)
    requires Messages.Storable(msg, marshal, unmarshal)
    requires Storable(Added(StreamEntry(id, FieldsOf(msg, marshal)), order))
    ensures var entry := EntryValue(id, Flatten(order, FieldsOf(msg, marshal)));
            var o := Parse(Encode(entry) + t);
            && o.Ok? && o.rest == t && ParseSingleEntry(o.value).Got?
            && MessageOf(roomID, ParseSingleEntry(o.value).value, unmarshal) ==
               msg.(id := id, roomID := roomID, timestamp := Millis(msg.timestamp) * 1_000_000)
  {
    var fields := FieldsOf(msg, marshal);
    StorableIsWellFormed(Added(StreamEntry(id, fields), order));
    RoundTrip(EntryValue(id, Flatten(order, fields)), t);
    EntryReadsBack(id, order, fields);
    MessageReadsBack(msg, id, roomID, marshal, unmarshal);
  }
}
