/** memoryCache of internal/cache/cache.go: a map of entries, a recency list of
    keys and a running byte counter, kept in step with one recency sequence. */
module Cache {
  import opened Bytes
  import opened Lru

  /** Five minutes, in nanoseconds. */
  const DEFAULT_TTL: int := 300 * 1_000_000_000

  datatype Entry<+V> = Entry(value: V, size: int, storedAt: int)

  ghost predicate AllStored<V>(order: seq<Key>, items: map<Key, Entry<V>>) {
    forall i :: 0 <= i < |order| ==> order[i] in items
  }

  /** The recency sequence the list and the map represent together. */
  function Slots<V>(order: seq<Key>, items: map<Key, Entry<V>>): (s: seq<Slot<V>>)
    requires AllStored(order, items)
    ensures |s| == |order|
    ensures forall i :: 0 <= i < |s| ==> s[i] == SlotOf(order[i], items)
  {
    seq(|order|, i requires 0 <= i < |order| => SlotOf(order[i], items))
  }

  function SlotOf<V>(k: Key, items: map<Key, Entry<V>>): Slot<V>
    requires k in items
  {
    Slot(k, items[k].value, items[k].size, items[k].storedAt)
  }

  /** The list holds each map key exactly once, and nothing else. */
  ghost predicate InStep<V>(order: seq<Key>, items: map<Key, Entry<V>>) {
    && NoRepeat(order)
    && AllStored(order, items)
    && (forall k :: k in items ==> Position(order, k) < |order|)
  }

  lemma {:induction false} FindIsPosition<V>(order: seq<Key>, items: map<Key, Entry<V>>, k: Key)
    requires AllStored(order, items)
    ensures Find(Slots(order, items), k) == Position(order, k)
  {
    if order != [] {
      assert Slots(order, items)[1..] == Slots(order[1..], items);
      FindIsPosition(order[1..], items, k);
    }
  }

  lemma UnlinkedNoRepeat(order: seq<Key>, k: Key)
    requires NoRepeat(order)
    ensures NoRepeat(Unlinked(order, k))
    ensures forall j :: 0 <= j < |Unlinked(order, k)| && Position(order, k) < |order| ==> Unlinked(order, k)[j] != k
  {
    UnlinkedSlices(order, k);
  }

  lemma UnlinkedPosition(order: seq<Key>, k: Key, x: Key)
    requires NoRepeat(order) && x != k && Position(order, x) < |order|
    ensures Position(Unlinked(order, k), x) < |Unlinked(order, k)|
  {
    var i, p := Position(order, k), Position(order, x);
    UnlinkedSlices(order, k);
    if i < |order| { PositionFirst(Unlinked(order, k), x, if p < i then p else p - 1); }
  }

  lemma UnlinkedInStep<V>(order: seq<Key>, items: map<Key, Entry<V>>, k: Key)
    requires InStep(order, items) && k in items
    ensures InStep(Unlinked(order, k), items - {k})
  {
    UnlinkedNoRepeat(order, k);
    UnlinkedSlices(order, k);
    var r, m := Unlinked(order, k), items - {k};
    assert AllStored(r, m);
    forall x | x in m
      ensures Position(r, x) < |r|
    {
      UnlinkedPosition(order, k, x);
    }
  }

  lemma SlotsUnlinked<V>(order: seq<Key>, items: map<Key, Entry<V>>, k: Key)
    requires AllStored(order, items) && AllStored(Unlinked(order, k), items - {k}) && Position(order, k) < |order|
    ensures Slots(Unlinked(order, k), items - {k}) == Without(Slots(order, items), k)
  {
    FindIsPosition(order, items, k);
    UnlinkedSlices(order, k);
    var i, r, m := Position(order, k), Unlinked(order, k), items - {k};
    forall j | 0 <= j < |r|
      ensures Slots(r, m)[j] == Without(Slots(order, items), k)[j]
    {
      var n := if j < i then j else j + 1;
      assert r[j] == order[n];
      assert SlotOf(r[j], m) == SlotOf(order[n], items);
    }
  }

  /** Deleting from list and map deletes from the recency sequence. */
  lemma DeleteInStep<V>(order: seq<Key>, items: map<Key, Entry<V>>, k: Key)
    requires InStep(order, items)
    ensures k in items ==> InStep(Unlinked(order, k), items - {k})
    ensures k in items ==> Slots(Unlinked(order, k), items - {k}) == Without(Slots(order, items), k)
    ensures k in items ==> Sum(Without(Slots(order, items), k)) == Sum(Slots(order, items)) - items[k].size
    ensures k !in items ==> Without(Slots(order, items), k) == Slots(order, items) && Unlinked(order, k) == order
    ensures Lookup(Slots(order, items), k) == if k in items then Some(SlotOf(k, items)) else None
  {
    FindIsPosition(order, items, k);
    if k in items {
      WithoutSum(Slots(order, items), k);
      UnlinkedInStep(order, items, k);
      SlotsUnlinked(order, items, k);
    } else {
      UnlinkedSlices(order, k);
    }
  }

  lemma PushSlots<V>(order: seq<Key>, items: map<Key, Entry<V>>, k: Key, e: Entry<V>)
    requires AllStored(order, items) && k !in items
    ensures AllStored([k] + order, items[k := e])
    ensures Slots([k] + order, items[k := e]) == [Slot(k, e.value, e.size, e.storedAt)] + Slots(order, items)
    ensures Sum(Slots([k] + order, items[k := e])) == e.size + Sum(Slots(order, items))
  {
    var s, t := Slots([k] + order, items[k := e]), Slots(order, items);
    assert s == [Slot(k, e.value, e.size, e.storedAt)] + t;
    assert s[1..] == t;
  }

  lemma PushNoRepeat<V>(order: seq<Key>, items: map<Key, Entry<V>>, k: Key)
    requires NoRepeat(order) && AllStored(order, items) && k !in items
    ensures NoRepeat([k] + order)
  {
    assert forall i :: 0 <= i < |order| ==> order[i] != k;
  }

  lemma PushPosition(order: seq<Key>, k: Key, x: Key)
    requires x == k || Position(order, x) < |order|
    ensures Position([k] + order, x) < |[k] + order|
  {
    if x != k { PositionFirst([k] + order, x, 1 + Position(order, x)); }
  }

  /** Pushing a new front element pushes onto the recency sequence. */
  lemma PushInStep<V>(order: seq<Key>, items: map<Key, Entry<V>>, k: Key, e: Entry<V>)
    requires InStep(order, items) && k !in items
    ensures InStep([k] + order, items[k := e])
    ensures Slots([k] + order, items[k := e]) == [Slot(k, e.value, e.size, e.storedAt)] + Slots(order, items)
    ensures Sum(Slots([k] + order, items[k := e])) == e.size + Sum(Slots(order, items))
  {
    PushSlots(order, items, k, e);
    PushNoRepeat(order, items, k);
    forall x | x in items[k := e]
      ensures Position([k] + order, x) < |[k] + order|
    {
      PushPosition(order, k, x);
    }
  }

  /** MoveToFront on the list moves the slot to the front. */
  lemma MoveInStep<V>(order: seq<Key>, items: map<Key, Entry<V>>, k: Key)
    requires InStep(order, items) && k in items
    ensures var r := [k] + Unlinked(order, k);
            && InStep(r, items)
            && Slots(r, items) == [SlotOf(k, items)] + Without(Slots(order, items), k)
            && Sum(Slots(r, items)) == Sum(Slots(order, items))
  {
    DeleteInStep(order, items, k);
    PushInStep(Unlinked(order, k), items - {k}, k, items[k]);
    assert (items - {k})[k := items[k]] == items;
  }

  class MemoryCache<V> {
    const maxBytes: int
    const ttl: int
    var used: int
    var order: seq<Key>
    var items: map<Key, Entry<V>>

    /** The list holds each map key exactly once and the counter is the sum of
        the resident sizes. */
    ghost predicate Valid()
      reads this
    {
      InStep(order, items) && used == Sum(View())
    }

    ghost function View(): (s: seq<Slot<V>>)
      reads this
      requires InStep(order, items)
    {
      Slots(order, items)
    }

    constructor (maxBytes: int, ttl: int)
      ensures Valid() && View() == []
      ensures this.maxBytes == maxBytes && this.ttl == ttl
    {
      this.maxBytes := maxBytes;
      this.ttl := ttl;
      used, order, items := 0, [], map[];
    }

    method DeleteLocked(key: Key)
      requires Valid()
      modifies this
      ensures Valid()
      ensures View() == Without(old(View()), key)
      ensures order == Unlinked(old(order), key) && items == old(items) - {key}
    {
      DeleteInStep(order, items, key);
      if key in items {
        var e := items[key];
        items := items - {key};
        order := Unlinked(order, key);
        used := used - e.size;
      }
    }

    method Get(key: Key, now: int) returns (r: Option<V>)
      requires Valid()
      modifies this
      ensures Valid()
      ensures (View(), r) == GetStep(old(View()), key, now, ttl)
      ensures var live := key in old(items) && (ttl > 0 ==> now - old(items)[key].storedAt <= ttl);
              if live then
                r == Some(old(items)[key].value) && order == [key] + Unlinked(old(order), key) && items == old(items)
              else
                r == None && order == Unlinked(old(order), key) && items == old(items) - {key}
    {
      DeleteInStep(order, items, key);
      if key !in items { return None; }
      var e := items[key];
      if ttl > 0 && now - e.storedAt > ttl {
        DeleteLocked(key);
        return None;
      }
      MoveInStep(order, items, key);
      order := [key] + Unlinked(order, key); // MoveToFront
      return Some(e.value);
    }

    /** A new entry enters at the front, whatever the budget. */
    method PushFront(key: Key, value: V, size: int, now: int)
      requires Valid() && key !in items
      modifies this
      ensures Valid() && order == [key] + old(order)
      ensures View() == [Slot(key, value, size, now)] + old(View())
    {
      PushInStep(order, items, key, Entry(value, size, now));
      order := [key] + order;
      items := items[key := Entry(value, size, now)];
      used := used + size;
    }

    /** The part of Put before its eviction loop: any old entry goes first. */
    method PushFresh(key: Key, value: V, size: int, now: int)
      requires Valid()
      modifies this
      ensures Valid() && order != [] && order[0] == key
      ensures View() == [Slot(key, value, size, now)] + Without(old(View()), key)
    {
      DeleteInStep(order, items, key);
      if key in items { DeleteLocked(key); }
      PushFront(key, value, size, now);
    }

    method Put(key: Key, value: V, size: int, now: int)
      requires Valid()
      modifies this
      ensures Valid()
      ensures View() == PutStep(old(View()), key, value, size, now, maxBytes)
    {
      PushFresh(key, value, size, now);
      ghost var pushed := View();
      while used > maxBytes
        invariant Valid() && (order != [] ==> order[0] == key)
        invariant Evict(View(), maxBytes) == Evict(pushed, maxBytes)
        decreases |order|
      {
        if order == [] { break; }
        var k := order[|order| - 1];
        BackIsLast(order, items);
        if k == key {
          DeleteLocked(key);
          break;
        }
        DeleteLocked(k);
      }
    }

    method Used() returns (n: int)
      requires Valid()
      ensures n == Sum(View())
    {
      n := used;
    }

    method Len() returns (n: nat)
      requires Valid()
      ensures n == |View()|
    {
      n := |items|;
      KeysCounted();
    }

    lemma KeysCounted()
      requires Valid()
      ensures |items| == |order|
    {
      assert items.Keys == (set k | k in order);
      DistinctCount(order);
    }
  }

  lemma BackIsLast<V>(order: seq<Key>, items: map<Key, Entry<V>>)
    requires InStep(order, items) && order != []
    ensures var k := order[|order| - 1];
            && Unlinked(order, k) == order[..|order| - 1]
            && Without(Slots(order, items), k) == Slots(order, items)[..|order| - 1]
            && (k == order[0] ==> |order| == 1)
  {
    FindIsPosition(order, items, order[|order| - 1]);
    UnlinkedSlices(order, order[|order| - 1]);
  }

  lemma {:induction false} DistinctCount(order: seq<Key>)
    requires NoRepeat(order)
    ensures |set k | k in order| == |order|
  {
    if order != [] {
      DistinctCount(order[1..]);
      assert (set k | k in order) == {order[0]} + (set k | k in order[1..]);
      assert order[0] !in order[1..];
    }
  }
}
