/**
 * The class of engine/broker.go:51-128: a map of times, a list in insertion order and a map
 * from IDs to list elements, kept in step and proved against the functions in `Dedupe`.
 */
module DedupeCaches {
  import opened Dedupe

  /** A container/list element; list operations find it by identity. */
  class Element {
    const value: string

    constructor (value: string)
      ensures this.value == value
    {
      this.value := value;
    }
  }

  function Remove(order: seq<Element>, elem: Element): (r: seq<Element>)
    ensures forall e :: e in r ==> e in order
  {
    if order == [] then []
    else if order[0] == elem then order[1..]
    else [order[0]] + Remove(order[1..], elem)
  }

  predicate Distinct(order: seq<Element>) {
    forall i, j | 0 <= i < j < |order| :: order[i].value != order[j].value
  }

  predicate Timed(order: seq<Element>, times: map<string, int>) {
    forall i | 0 <= i < |order| :: order[i].value in times
  }

  /** The order with the times the map holds. */
  function Entries(order: seq<Element>, times: map<string, int>): (es: seq<Entry>)
    requires Timed(order, times)
    ensures |es| == |order|
    ensures forall i | 0 <= i < |es| :: es[i] == Entry(order[i].value, times[order[i].value])
  {
    seq(|order|, i requires 0 <= i < |order| && Timed(order, times) => Entry(order[i].value, times[order[i].value]))
  }

  lemma {:induction false} RemoveTakesOne(order: seq<Element>, elem: Element)
    requires Distinct(order) && elem in order
    ensures var r := Remove(order, elem);
            && Distinct(r) && |r| == |order| - 1
            && (forall i | 0 <= i < |r| :: r[i].value != elem.value)
            && (forall e | e in order && e != elem :: e in r)
  {
    var rest := order[1..];
    if order[0] != elem {
      RemoveTakesOne(rest, elem);
      var r := Remove(rest, elem);
      forall k | 0 <= k < |r|
        ensures r[k].value != order[0].value
      {
        assert r[k] in rest;
      }
    }
  }

  lemma AllOtherIds(es: seq<Entry>, id: string)
    requires forall i | 0 <= i < |es| :: es[i].id != id
    ensures Without(es, id) == es
  {
    SelectAll(es, (e: Entry) => e.id != id);
  }

  lemma EntriesFirst(elem: Element, order: seq<Element>, times: map<string, int>)
    requires elem.value in times && Timed(order, times)
    ensures Timed([elem] + order, times)
    ensures Entries([elem] + order, times) == [Entry(elem.value, times[elem.value])] + Entries(order, times)
  {
  }

  lemma DistinctFirst(elem: Element, order: seq<Element>)
    requires Distinct([elem] + order)
    ensures Distinct(order) && forall i | 0 <= i < |order| :: order[i].value != elem.value
  {
    var whole := [elem] + order;
    assert whole[0] == elem && whole[1..] == order;
  }

  /** Removing one element from a list of distinct IDs is filtering its ID out. */
  lemma {:induction false} RemoveIsWithout(order: seq<Element>, elem: Element, times: map<string, int>)
    requires Distinct(order) && elem in order && Timed(order, times)
    ensures Timed(Remove(order, elem), times)
    ensures Entries(Remove(order, elem), times) == Without(Entries(order, times), elem.value)
  {
    var first, rest := order[0], order[1..];
    var es := Entries(rest, times);
    assert order == [first] + rest;
    EntriesFirst(first, rest, times);
    DistinctFirst(first, rest);
    if first == elem {
      AllOtherIds(es, elem.value);
    } else {
      var i :| 0 < i < |order| && order[i] == elem;
      RemoveIsWithout(rest, elem, times);
      EntriesFirst(first, Remove(rest, elem), times);
    }
  }

  /** The three structures hold the same IDs, each once, and each element is filed under its ID. */
  ghost predicate InStep(cache: map<string, int>, order: seq<Element>, elements: map<string, Element>) {
    && cache.Keys == elements.Keys
    && Distinct(order)
    && (forall i | 0 <= i < |order| :: order[i].value in elements && elements[order[i].value] == order[i])
    && (forall id | id in elements :: elements[id] in order && elements[id].value == id)
  }

  lemma AddedInStep(cache: map<string, int>, order: seq<Element>, elements: map<string, Element>, elem: Element, at: int)
    requires InStep(cache, order, elements) && elem.value !in cache
    ensures InStep(cache[elem.value := at], order + [elem], elements[elem.value := elem])
    ensures Entries(order + [elem], cache[elem.value := at]) == Entries(order, cache) + [Entry(elem.value, at)]
  {
    var order', elements' := order + [elem], elements[elem.value := elem];
    assert order'[|order|] == elem;
    forall id | id in elements'
      ensures elements'[id] in order'
    {
      if id != elem.value {
        assert elements[id] in order;
      }
    }
  }

  lemma ForgottenInStep(cache: map<string, int>, order: seq<Element>, elements: map<string, Element>, id: string)
    requires InStep(cache, order, elements) && id in cache
    ensures var order' := Remove(order, elements[id]);
            && InStep(cache - {id}, order', elements - {id}) && |order'| == |order| - 1
            && Entries(order', cache - {id}) == Without(Entries(order, cache), id)
  {
    var elem := elements[id];
    var order' := Remove(order, elem);
    RemoveTakesOne(order, elem);
    RemoveIsWithout(order, elem, cache);
    forall i | 0 <= i < |order'|
      ensures order'[i].value in elements && elements[order'[i].value] == order'[i]
    {
      assert order'[i] in order;
    }
    assert Entries(order', cache - {id}) == Entries(order', cache);
  }

  /** A map lookup sees what a scan of the order would see. */
  lemma LookupIsScan(cache: map<string, int>, order: seq<Element>, elements: map<string, Element>, id: string)
    requires InStep(cache, order, elements)
    ensures id in cache <==> exists i | 0 <= i < |order| :: Entries(order, cache)[i].id == id
    ensures forall i | 0 <= i < |order| && Entries(order, cache)[i].id == id :: Entries(order, cache)[i].at == cache[id]
  {
    if id in cache {
      var i :| 0 <= i < |order| && order[i] == elements[id];
      assert Entries(order, cache)[i].id == id;
    }
  }

  /** Forgetting the front of the order leaves the rest of it. */
  lemma FrontIsOldest(cache: map<string, int>, order: seq<Element>, elements: map<string, Element>)
    requires InStep(cache, order, elements) && order != []
    ensures order[0].value in cache
    ensures Without(Entries(order, cache), order[0].value) == Entries(order, cache)[1..]
  {
    var es := Entries(order, cache);
    assert es == [es[0]] + es[1..];
    AllOtherIds(es[1..], order[0].value);
  }

  lemma NewestAfterFront(es: seq<Entry>, size: nat)
    requires |es| > size
    ensures Newest(es[1..], size) == Newest(es, size)
  {
  }

  ghost function Unswept(todo: set<string>, now: int, ttl: int): Entry -> bool {
    (e: Entry) => e.id in todo || now - e.at <= ttl
  }

  /** Visiting one more ID either forgets it or changes nothing. */
  lemma SweepOne(before: seq<Entry>, cache: map<string, int>, order: seq<Element>, elements: map<string, Element>,
                 todo: set<string>, id: string, now: int, ttl: int)
    requires InStep(cache, order, elements) && id in todo && todo <= cache.Keys
    requires Entries(order, cache) == Select(before, Unswept(todo, now, ttl))
    ensures Select(before, Unswept(todo - {id}, now, ttl)) ==
            if now - cache[id] > ttl then Without(Entries(order, cache), id) else Entries(order, cache)
  {
    var keep, keep' := Unswept(todo, now, ttl), Unswept(todo - {id}, now, ttl);
    var other := (e: Entry) => e.id != id;
    var es := Entries(order, cache);
    LookupIsScan(cache, order, elements, id);
    forall e | e in before && e.id == id
      ensures e.at == cache[id]
    {
      assert e in es;
      var i :| 0 <= i < |es| && es[i] == e;
    }
    if now - cache[id] > ttl {
      SelectTwice(before, keep, other);
      SelectAgrees(before, e => keep(e) && other(e), keep');
    } else {
      SelectAgrees(before, keep, keep');
    }
  }

  ghost predicate Follows(es: seq<Entry>, calls: seq<Call>, size: nat, ttl: int) {
    es == CacheAfter(calls, size, ttl)
  }

  /** One more call: what it makes of the cache and, if it is a check, what it has to answer. */
  lemma CallsExtend(es: seq<Entry>, calls: seq<Call>, c: Call, size: nat, ttl: int)
    requires Follows(es, calls, size, ttl) && size > 0 && ttl > 0
    ensures Follows(CacheStep(es, c, size, ttl), calls + [c], size, ttl)
    ensures c.Check? && WellTimed(calls + [c]) ==>
      (Known(es, c.id, c.checked, ttl) <==> Recent(LogAfter(calls, size, ttl), c.id, c.checked, size, ttl))
  {
    assert (calls + [c])[..|calls|] == calls;
    if c.Check? && WellTimed(calls + [c]) {
      WellTimedBefore(calls, c);
      CacheRefinesLog(calls, c.id, c.checked, size, ttl);
    }
  }

  lemma WellTimedBefore(calls: seq<Call>, c: Call)
    requires WellTimed(calls + [c])
    ensures WellTimed(calls) && (calls != [] ==> Ended(calls[|calls| - 1]) <= Began(c))
  {
    var all := calls + [c];
    assert forall i | 0 <= i < |calls| :: all[i] == calls[i];
    assert all[|calls|] == c;
    assert calls != [] ==> Ended(all[|calls| - 1]) <= Began(all[|calls|]);
  }

  class DedupeCache {
    var cache: map<string, int>
    var order: seq<Element>
    var elements: map<string, Element>
    const maxSize: nat
    const ttl: int
    ghost var calls: seq<Call>

    ghost predicate Linked()
      reads this
    {
      maxSize > 0 && ttl > 0 && InStep(cache, order, elements)
    }

    /** The cache is what the calls so far made of it. */
    ghost predicate Valid()
      reads this
    {
      Linked() && |order| <= maxSize && Follows(Contents(), calls, maxSize, ttl)
    }

    ghost function Contents(): seq<Entry>
      requires Linked()
      reads this
    {
      Entries(order, cache)
    }

    constructor (maxSize: int, ttl: int)
      ensures Valid() && Contents() == [] && calls == []
      ensures this.maxSize == if maxSize <= 0 then 10000 else maxSize
      ensures this.ttl == if ttl <= 0 then 300_000_000_000 else ttl
    {
      this.maxSize := if maxSize <= 0 then 10000 else maxSize;
      this.ttl := if ttl <= 0 then 300_000_000_000 else ttl;
      cache, order, elements, calls := map[], [], map[], [];
    }

    /** order.Remove(elem), then both map entries deleted. */
    method Forget(id: string)
      requires Linked() && id in cache
      modifies this`cache, this`order, this`elements
      ensures Linked() && cache == old(cache) - {id} && |order| == old(|order|) - 1
      ensures Contents() == Without(old(Contents()), id)
    {
      ForgottenInStep(cache, order, elements, id);
      order := Remove(order, elements[id]);
      elements := elements - {id};
      cache := cache - {id};
    }

    /**
     * Checks whether an ID was seen within ttl, and marks it as seen. While the clock has not
     * gone back, the answer is that of the log of all accepts.
     */
    method IsDuplicate(messageID: string, checked: int, stored: int) returns (duplicate: bool)
      requires Valid()
      modifies this
      ensures Valid() && calls == old(calls) + [Check(messageID, checked, stored)]
      ensures duplicate == Known(old(Contents()), messageID, checked, ttl)
      ensures Contents() == Checked(old(Contents()), messageID, checked, stored, maxSize, ttl)
      ensures WellTimed(calls) ==>
        var log := LogAfter(old(calls), maxSize, ttl);
        duplicate <==> exists i | 0 <= i < |log| :: log[i].id == messageID && checked - log[i].at < ttl && |log| - 1 - i < maxSize
    {
      duplicate := Look(messageID, checked, stored);
      CallsExtend(old(Contents()), calls, Check(messageID, checked, stored), maxSize, ttl);
      calls := calls + [Check(messageID, checked, stored)];
    }

    /** The body of IsDuplicate, without the record of calls. */
    method Look(messageID: string, checked: int, stored: int) returns (duplicate: bool)
      requires Linked() && |order| <= maxSize
      modifies this`cache, this`order, this`elements
      ensures Linked() && |order| <= maxSize
      ensures duplicate == Known(old(Contents()), messageID, checked, ttl)
      ensures Contents() == Checked(old(Contents()), messageID, checked, stored, maxSize, ttl)
    {
      ghost var before := Contents();
      LookupIsScan(cache, order, elements, messageID);
      if messageID in cache {
        if checked - cache[messageID] < ttl {
          return true;
        }
        Forget(messageID);
      } else {
        AllOtherIds(before, messageID);
      }
      var elem := new Element(messageID);
      AddedInStep(cache, order, elements, elem, stored);
      cache := cache[messageID := stored];
      order := order + [elem];
      elements := elements[messageID := elem];
      EvictOverSize();
      return false;
    }

    method EvictOverSize()
      requires Linked()
      modifies this`cache, this`order, this`elements
      ensures Linked() && |order| <= maxSize
      ensures Contents() == Newest(old(Contents()), maxSize)
    {
      while |order| > maxSize
        invariant Linked()
        invariant Newest(Contents(), maxSize) == Newest(old(Contents()), maxSize)
      {
        var oldest := order[0];
        FrontIsOldest(cache, order, elements);
        NewestAfterFront(Contents(), maxSize);
        Forget(oldest.value);
      }
    }

    /** Removes expired entries, visiting the map in whatever order it offers them. */
    method Cleanup(now: int)
      requires Valid()
      modifies this
      ensures Valid() && calls == old(calls) + [Sweep(now)]
      ensures Contents() == Swept(old(Contents()), now, ttl)
    {
      ghost var before := Contents();
      var todo := cache.Keys;
      SelectAll(before, Unswept(todo, now, ttl));
      while todo != {}
        invariant Linked() && |order| <= maxSize && todo <= cache.Keys && calls == old(calls)
        invariant Contents() == Select(before, Unswept(todo, now, ttl))
      {
        var id :| id in todo;
        SweepOne(before, cache, order, elements, todo, id, now, ttl);
        if now - cache[id] > ttl {
          Forget(id);
        }
        todo := todo - {id};
      }
      SelectAgrees(before, Unswept({}, now, ttl), (e: Entry) => now - e.at <= ttl);
      CallsExtend(before, calls, Sweep(now), maxSize, ttl);
      calls := calls + [Sweep(now)];
    }
  }
}
