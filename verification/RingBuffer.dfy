/** The circular message history of engine/memory_relay.go:46-125. */
module RingBuffers {
  import opened Decimal
  import opened Messages

  // ---------------------------------------------------------------- what the buffer stands for

  function LastOf<T>(s: seq<T>, n: nat): seq<T> {
    if |s| <= n then s else s[|s| - n..]
  }

  /** The messages of a list in which some entries may be nil. */
  function Present(s: seq<Option<Message>>): (r: seq<Message>)
    ensures |r| <= |s|
  {
    if s == [] then []
    else
      var rest := Present(s[..|s| - 1]);
      if s[|s| - 1].Some? then rest + [s[|s| - 1].value] else rest
  }

  predicate FromTheBeginning(afterID: string) {
    afterID == "" || afterID == "0" || afterID == "-"
  }

  /** The messages after the first one with the given ID, if there is one. */
  function Since(all: seq<Message>, afterID: string): seq<Message> {
    if FromTheBeginning(afterID) then all
    else if all == [] then []
    else if all[0].id == afterID then all[1..]
    else Since(all[1..], afterID)
  }

  predicate Unused(log: seq<Message>, id: string) {
    forall i | 0 <= i < |log| :: log[i].id != id
  }

  lemma {:induction false} SinceMisses(all: seq<Message>, id: string)
    requires !FromTheBeginning(id) && Unused(all, id)
    ensures Since(all, id) == []
  {
    if all != [] {
      SinceMisses(all[1..], id);
    }
  }

  lemma {:induction false} SinceFirst(all: seq<Message>, id: string, i: nat)
    requires i < |all| && all[i].id == id && Unused(all[..i], id) && !FromTheBeginning(id)
    ensures Since(all, id) == all[i + 1..]
  {
    if i > 0 {
      assert forall k | 0 <= k < i :: all[k].id == all[..i][k].id;
      assert all[1..][..i - 1] == all[..i][1..];
      SinceFirst(all[1..], id, i - 1);
    }
  }

  /** What GetSince gives: everything for no ID, "0" and "-", and otherwise what follows the first message with the ID. */
  lemma SinceMeans(all: seq<Message>, id: string)
    ensures id == "" || id == "0" || id == "-" ==> Since(all, id) == all
    ensures id != "" && id != "0" && id != "-" && Unused(all, id) ==> Since(all, id) == []
    ensures id != "" && id != "0" && id != "-" ==>
      forall i | 0 <= i < |all| && all[i].id == id && Unused(all[..i], id) :: Since(all, id) == all[i + 1..]
  {
    if !FromTheBeginning(id) && Unused(all, id) {
      SinceMisses(all, id);
    }
    forall i | 0 <= i < |all| && all[i].id == id && Unused(all[..i], id) && !FromTheBeginning(id)
      ensures Since(all, id) == all[i + 1..]
    {
      SinceFirst(all, id, i);
    }
  }

  /** The position of i places after start in a circle of the given size. */
  function Slot(start: nat, i: nat, size: nat): (k: nat)
    requires start < size && i <= size
    ensures k < size
  {
    if start + i < size then start + i else start + i - size
  }

  lemma ModIsSlot(start: nat, i: nat, size: nat)
    requires start < size && i <= size
    ensures (start + i) % size == Slot(start, i, size)
  {
    var k := start + i;
    if k >= size {
      ModMinus(k, size);
    }
  }

  lemma ModMinus(k: nat, size: nat)
    requires 0 < size <= k < 2 * size
    ensures k % size == k - size
  {
    assert k == 1 * size + (k - size);
  }

  /** Where the oldest message is. */
  function Oldest(head: nat, count: nat, size: nat): (k: nat)
    requires head < size && count <= size
    ensures k < size && Slot(k, count, size) == head
  {
    if count <= head then head - count else head - count + size
  }

  /** The array holds the last count entries of the log, from the oldest slot round to the head. */
  ghost predicate Holds(slots: seq<Option<Message>>, head: nat, count: nat, log: seq<Option<Message>>)
    requires head < |slots| && count <= |slots| && count <= |log|
  {
    forall i | 0 <= i < count :: slots[Slot(Oldest(head, count, |slots|), i, |slots|)] == log[|log| - count + i]
  }

  /** Writing at the head and moving it on keeps the picture, with the new entry last. */
  lemma HoldsOneMore(slots: seq<Option<Message>>, head: nat, count: nat, log: seq<Option<Message>>, msg: Option<Message>)
    requires head < |slots| && count <= |slots| && count <= |log| && Holds(slots, head, count, log)
    ensures var count' := if count < |slots| then count + 1 else count;
            Holds(slots[head := msg], Slot(head, 1, |slots|), count', log + [msg])
  {
    var size, log' := |slots|, log + [msg];
    var head', count' := Slot(head, 1, size), if count < size then count + 1 else count;
    var slots' := slots[head := msg];
    var start, start' := Oldest(head, count, size), Oldest(head', count', size);
    var shift := count + 1 - count';
    forall i | 0 <= i < count'
      ensures slots'[Slot(start', i, size)] == log'[|log'| - count' + i]
    {
      if i + 1 < count' {
        assert Slot(start', i, size) == Slot(start, i + shift, size) != head;
        assert slots[Slot(start, i + shift, size)] == log[|log| - count + i + shift];
      } else {
        assert Slot(start', i, size) == head;
      }
    }
  }

  // ---------------------------------------------------------------- the class

  class RingBuffer {
    const messages: array<Option<Message>>
    const size: nat
    var head: nat
    var count: nat
    ghost var log: seq<Option<Message>>

    ghost predicate Valid()
      reads this, messages
    {
      && 0 < size == messages.Length
      && head < size && count == (if |log| <= size then |log| else size)
      && Holds(messages[..], head, count, log)
    }

    constructor (size: int)
      ensures Valid() && log == [] && fresh(messages)
      ensures this.size == if size <= 0 then 100 else size
    {
      var n := if size <= 0 then 100 else size;
      this.size := n;
      messages := new Option<Message>[n](_ => None);
      head, count, log := 0, 0, [];
    }

    method Add(msg: Option<Message>)
      requires Valid()
      modifies this, messages
      ensures Valid() && log == old(log) + [msg]
    {
      HoldsOneMore(messages[..], head, count, log, msg);
      ModIsSlot(head, 1, size);
      ghost var before := messages[..];
      messages[head] := msg;
      assert messages[..] == before[head := msg];
      head := (head + 1) % size;
      if count < size {
        count := count + 1;
      }
      log := log + [msg];
    }

    /** All messages held, oldest first. */
    method GetAll() returns (result: seq<Message>)
      requires Valid()
      ensures result == Present(LastOf(log, size))
      ensures |log| <= size ==> result == Present(log)
      ensures |log| > size ==> result == Present(log[|log| - size..])
    {
      result := [];
      StartIsOldest(head, count, size);
      var start := (head - count + size) % size;
      ghost var held := LastOf(log, size);
      for i := 0 to count
        invariant result == Present(held[..i])
      {
        ModIsSlot(start, i, size);
        var idx := (start + i) % size;
        assert messages[..][idx] == held[i];
        assert held[..i + 1][..i] == held[..i];
        if messages[idx].Some? {
          result := result + [messages[idx].value];
        }
      }
      assert held[..count] == held;
    }

    /** The messages after the one with the given ID. */
    method GetSince(afterID: string) returns (result: seq<Message>)
      requires Valid()
      ensures result == Since(Present(LastOf(log, size)), afterID)
    {
      var all := GetAll();
      result := [];
      var found := FromTheBeginning(afterID);
      for i := 0 to |all|
        invariant Since(all, afterID) == result + (if found then all[i..] else Since(all[i..], afterID))
        invariant !found ==> result == [] && !FromTheBeginning(afterID)
      {
        var msg := all[i];
        assert all[i..] == [msg] + all[i + 1..];
        if found {
          result := result + [msg];
        } else if msg.id == afterID {
          found := true;
        }
      }
    }

    /** The last n messages; a negative n would be out of range in the source too. */
    method GetLast(n: int) returns (result: seq<Message>)
      requires Valid() && n >= 0
      ensures var all := Present(LastOf(log, size)); result == if |all| <= n then all else all[|all| - n..]
    {
      var all := GetAll();
      if |all| <= n {
        return all;
      }
      return all[|all| - n..];
    }
  }

  lemma StartIsOldest(head: nat, count: nat, size: nat)
    requires head < size && count <= size
    ensures (head - count + size) % size == Oldest(head, count, size)
  {
    if count <= head {
      ModMinus(head - count + size, size);
    }
  }

  /** Entry by entry: a nil gives nothing, and a message itself. */
  lemma {:induction false} PresentOf(s: seq<Option<Message>>, i: nat)
    requires i < |s|
    ensures Present(s) == Present(s[..i]) + (if s[i].Some? then [s[i].value] else []) + Present(s[i + 1..])
  {
    var last := |s| - 1;
    if i < last {
      PresentOf(s[..last], i);
      assert s[..last][..i] == s[..i] && s[..last][i + 1..] == s[i + 1..][..last - i - 1];
    } else {
      assert Present(s[i + 1..]) == [];
    }
  }

  // ---------------------------------------------------------------- without nils

  function Wrapped(log: seq<Message>): (r: seq<Option<Message>>)
    ensures |r| == |log| && forall i | 0 <= i < |r| :: r[i] == Some(log[i])
  {
    seq(|log|, i requires 0 <= i < |log| => Some(log[i]))
  }

  /** When no nil was added, the buffer stands for the last size messages of the log. */
  lemma {:induction false} PresentWrapped(log: seq<Message>)
    ensures Present(Wrapped(log)) == log
  {
    if log != [] {
      assert Wrapped(log)[..|log| - 1] == Wrapped(log[..|log| - 1]);
      PresentWrapped(log[..|log| - 1]);
    }
  }

  lemma HeldMessages(log: seq<Message>, size: nat)
    ensures Present(LastOf(Wrapped(log), size)) == LastOf(log, size)
  {
    assert LastOf(Wrapped(log), size) == Wrapped(LastOf(log, size));
    PresentWrapped(LastOf(log, size));
  }
}
