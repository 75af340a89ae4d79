/** The byte-budgeted LRU cache as a function on one recency sequence, most
    recently used first. */
module Lru {
  import opened Bytes

  type Key = Text

  datatype Slot<+V> = Slot(key: Key, value: V, size: int, storedAt: int)

  ghost predicate Distinct<V>(s: seq<Slot<V>>) {
    forall i, j :: 0 <= i < j < |s| ==> s[i].key != s[j].key
  }

  function Sum<V>(s: seq<Slot<V>>): int {
    if s == [] then 0 else s[0].size + Sum(s[1..])
  }

  /** Position of the first slot with key k, or |s| when there is none. */
  function Find<V>(s: seq<Slot<V>>, k: Key): (i: nat)
    ensures i <= |s|
    ensures i < |s| ==> s[i].key == k
  {
    if s == [] || s[0].key == k then 0 else 1 + Find(s[1..], k)
  }

  function Lookup<V>(s: seq<Slot<V>>, k: Key): Option<Slot<V>> {
    var i := Find(s, k);
    if i == |s| then None else Some(s[i])
  }

  function Without<V>(s: seq<Slot<V>>, k: Key): seq<Slot<V>> {
    var i := Find(s, k);
    if i == |s| then s else s[..i] + s[i + 1..]
  }

  /** Drop from the back until the budget holds. */
  function Evict<V>(s: seq<Slot<V>>, max: int): seq<Slot<V>>
    decreases |s|
  {
    if s == [] || Sum(s) <= max then s else Evict(s[..|s| - 1], max)
  }

  predicate Expired<V>(e: Slot<V>, now: int, ttl: int) { ttl > 0 && now - e.storedAt > ttl }

  function GetStep<V>(s: seq<Slot<V>>, k: Key, now: int, ttl: int): (seq<Slot<V>>, Option<V>) {
    match Lookup(s, k)
    case None => (s, None)
    case Some(e) =>
      if Expired(e, now, ttl) then (Without(s, k), None)
      else ([e] + Without(s, k), Some(e.value))
  }

  function PutStep<V>(s: seq<Slot<V>>, k: Key, v: V, size: int, now: int, max: int): seq<Slot<V>> {
    Evict([Slot(k, v, size, now)] + Without(s, k), max)
  }

  // ------------------------------------------------------------ lists of keys

  /** Position of k's element in a list of keys, or the list's length. */
  function Position(ks: seq<Key>, k: Key): (i: nat)
    ensures i <= |ks|
    ensures i < |ks| ==> ks[i] == k
  {
    if ks == [] || ks[0] == k then 0 else 1 + Position(ks[1..], k)
  }

  /** container/list Remove: drop k's element, keep the others in order. */
  function Unlinked(ks: seq<Key>, k: Key): seq<Key> {
    if ks == [] then [] else if ks[0] == k then ks[1..] else [ks[0]] + Unlinked(ks[1..], k)
  }

  ghost predicate NoRepeat(ks: seq<Key>) { forall i, j :: 0 <= i < j < |ks| ==> ks[i] != ks[j] }

  lemma {:induction false} PositionFirst(ks: seq<Key>, k: Key, i: nat)
    requires i < |ks| && ks[i] == k
    ensures Position(ks, k) <= i
  {
    if ks[0] != k { PositionFirst(ks[1..], k, i - 1); }
  }

  lemma {:induction false} UnlinkedSlices(ks: seq<Key>, k: Key)
    ensures var i := Position(ks, k);
            Unlinked(ks, k) == if i == |ks| then ks else ks[..i] + ks[i + 1..]
  {
    if ks != [] && ks[0] != k { UnlinkedSlices(ks[1..], k); }
  }

  // --------------------------------------------------------------- structure

  lemma {:induction false} SumAppend<V>(a: seq<Slot<V>>, b: seq<Slot<V>>)
    ensures Sum(a + b) == Sum(a) + Sum(b)
  {
    if a == [] {
      assert a + b == b;
    } else {
      assert (a + b)[1..] == a[1..] + b;
      SumAppend(a[1..], b);
    }
  }

  lemma {:induction false} FindFirst<V>(s: seq<Slot<V>>, k: Key)
    ensures forall j :: 0 <= j < Find(s, k) ==> s[j].key != k
  {
    if s != [] && s[0].key != k {
      FindFirst(s[1..], k);
      forall j | 0 <= j < Find(s, k) ensures s[j].key != k {
        if j > 0 { assert s[j] == s[1..][j - 1]; }
      }
    }
  }

  lemma WithoutDistinct<V>(s: seq<Slot<V>>, k: Key)
    requires Distinct(s)
    ensures var r := Without(s, k);
            && Distinct(r) && |r| <= |s|
            && (forall i :: 0 <= i < |r| ==> r[i].key != k && r[i] in s)
  {
    FindFirst(s, k);
  }

  lemma WithoutSum<V>(s: seq<Slot<V>>, k: Key)
    requires Find(s, k) < |s|
    ensures Sum(Without(s, k)) == Sum(s) - s[Find(s, k)].size
  {
    var i := Find(s, k);
    assert s == s[..i] + s[i..];
    assert s[i..][1..] == s[i + 1..];
    SumAppend(s[..i], s[i..]);
    SumAppend(s[..i], s[i + 1..]);
  }

  lemma {:induction false} EvictPrefix<V>(s: seq<Slot<V>>, max: int)
    ensures |Evict(s, max)| <= |s| && Evict(s, max) == s[..|Evict(s, max)|]
    decreases |s|
  {
    if !(s == [] || Sum(s) <= max) { EvictPrefix(s[..|s| - 1], max); }
  }

  /** Eviction keeps the longest prefix that fits; nothing survives when none
      does. No sign condition on sizes or budget is needed. */
  lemma {:induction false} EvictKeepsLongestFit<V>(s: seq<Slot<V>>, max: int)
    ensures var p := Evict(s, max);
            && |p| <= |s| && p == s[..|p|]
            && (p == [] || Sum(p) <= max)
            && (forall n :: |p| < n <= |s| ==> Sum(s[..n]) > max)
    decreases |s|
  {
    if s == [] || Sum(s) <= max {
      assert s[..|s|] == s;
    } else {
      var t := s[..|s| - 1];
      EvictKeepsLongestFit(t, max);
      forall n | |Evict(s, max)| < n <= |s|
        ensures Sum(s[..n]) > max
      {
        if n == |s| { assert s[..n] == s; } else { assert s[..n] == t[..n]; }
      }
    }
  }

  /** One statement for replacement, eviction and the oversized entry: the new
      order is the longest prefix of "key, then the old order without key"
      whose sizes fit the budget, and the bytes held never exceed it. */
  lemma PutIsLongestFit<V>(s: seq<Slot<V>>, k: Key, v: V, size: int, now: int, max: int)
    requires Distinct(s) && max >= 0
    ensures var want := [Slot(k, v, size, now)] + Without(s, k);
            var got := PutStep(s, k, v, size, now, max);
            && |got| <= |want| && got == want[..|got|]
            && Sum(got) <= max
            && (forall n :: |got| < n <= |want| ==> Sum(want[..n]) > max)
    ensures size <= max ==> Lookup(PutStep(s, k, v, size, now, max), k) == Some(Slot(k, v, size, now))
    ensures size > max && (forall e :: e in s ==> e.size >= 0) ==> PutStep(s, k, v, size, now, max) == []
  {
    var want := [Slot(k, v, size, now)] + Without(s, k);
    EvictKeepsLongestFit(want, max);
    assert want[..1] == [Slot(k, v, size, now)];
    assert Sum(want[..1]) == size + Sum(want[..1][1..]) == size;
    var got := Evict(want, max);
    if got != [] && size > max && (forall e :: e in s ==> e.size >= 0) {
      assert got[1..] == Without(s, k)[..|got| - 1];
      forall e | e in got[1..] ensures e.size >= 0 { assert e in Without(s, k); }
      SumNonNegative(got[1..]);
    }
  }

  lemma {:induction false} SumNonNegative<V>(s: seq<Slot<V>>)
    requires forall e :: e in s ==> e.size >= 0
    ensures Sum(s) >= 0
  {
    if s != [] { SumNonNegative(s[1..]); }
  }

  /** Reads never invent or alter a slot. */
  lemma GetSlots<V>(s: seq<Slot<V>>, k: Key, now: int, ttl: int)
    requires Distinct(s)
    ensures var r := GetStep(s, k, now, ttl).0;
            && Distinct(r) && |r| <= |s|
            && (forall i :: 0 <= i < |r| ==> r[i] in s)
  {
    WithoutDistinct(s, k);
  }

  /** After a write every slot is the new one or an untouched other one. */
  lemma PutSlots<V>(s: seq<Slot<V>>, k: Key, v: V, size: int, now: int, max: int)
    requires Distinct(s)
    ensures var r := PutStep(s, k, v, size, now, max);
            && Distinct(r)
            && (forall i :: 0 <= i < |r| ==> r[i] == Slot(k, v, size, now) || (r[i] in s && r[i].key != k))
  {
    WithoutDistinct(s, k);
    EvictPrefix([Slot(k, v, size, now)] + Without(s, k), max);
  }
}
