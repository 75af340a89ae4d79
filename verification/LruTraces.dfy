/** Whole-run properties of the cache: freshness, and the stack property that
    makes a larger budget never lose a hit. */
module LruTraces {
  import opened Bytes
  import opened Lru

  // --------------------------------------------------------------- freshness

  datatype Op<+V> = Get(key: Key, now: int) | Put(key: Key, value: V, size: int, now: int)

  function Apply<V>(s: seq<Slot<V>>, op: Op<V>, max: int, ttl: int): seq<Slot<V>> {
    match op
    case Get(k, now) => GetStep(s, k, now, ttl).0
    case Put(k, v, size, now) => PutStep(s, k, v, size, now, max)
  }

  function Run<V>(ops: seq<Op<V>>, max: int, ttl: int): seq<Slot<V>> {
    if ops == [] then [] else Apply(Run(ops[..|ops| - 1], max, ttl), ops[|ops| - 1], max, ttl)
  }

  /** The most recent write of k, reading nothing but the history itself. */
  function LastPut<V>(ops: seq<Op<V>>, k: Key): Option<Op<V>> {
    if ops == [] then None
    else
      var op := ops[|ops| - 1];
      if op.Put? && op.key == k then Some(op) else LastPut(ops[..|ops| - 1], k)
  }

  ghost predicate AllLastPuts<V>(s: seq<Slot<V>>, ops: seq<Op<V>>) {
    forall i :: 0 <= i < |s| ==>
      LastPut(ops, s[i].key) == Some(Op<V>.Put(s[i].key, s[i].value, s[i].size, s[i].storedAt))
  }

  lemma {:induction false} RunHoldsLastPuts<V>(ops: seq<Op<V>>, max: int, ttl: int)
    ensures Distinct(Run(ops, max, ttl)) && AllLastPuts(Run(ops, max, ttl), ops)
  {
    if ops != [] {
      var before, op := ops[..|ops| - 1], ops[|ops| - 1];
      var s, r := Run(before, max, ttl), Run(ops, max, ttl);
      RunHoldsLastPuts(before, max, ttl);
      match op
      case Get(k, now) => GetSlots(s, k, now, ttl);
      case Put(k, v, size, now) => PutSlots(s, k, v, size, now, max);
    }
  }

  /** In every history a hit returns the last value written under that key,
      written at most ttl earlier: reading does not extend a lifetime. */
  lemma HitIsFresh<V>(ops: seq<Op<V>>, k: Key, now: int, max: int, ttl: int)
    ensures match GetStep(Run(ops, max, ttl), k, now, ttl).1
            case None => true
            case Some(v) =>
              match LastPut(ops, k)
              case Some(Put(_, w, _, t)) => w == v && (ttl > 0 ==> now - t <= ttl)
              case _ => false
  {
    RunHoldsLastPuts(ops, max, ttl);
    var s := Run(ops, max, ttl);
    assert Find(s, k) < |s| ==> s[Find(s, k)].key == k;
  }

  /** In every history with a non-negative budget the bytes held fit it. */
  lemma {:induction false} RunWithinBudget<V>(ops: seq<Op<V>>, max: int, ttl: int)
    requires max >= 0 && forall i :: 0 <= i < |ops| && ops[i].Put? ==> ops[i].size >= 0
    ensures Sum(Run(ops, max, ttl)) <= max
    ensures forall i :: 0 <= i < |Run(ops, max, ttl)| ==> Run(ops, max, ttl)[i].size >= 0
  {
    if ops != [] {
      var before, op := ops[..|ops| - 1], ops[|ops| - 1];
      var s := Run(before, max, ttl);
      RunWithinBudget(before, max, ttl);
      RunHoldsLastPuts(before, max, ttl);
      match op
      case Get(k, now) =>
        GetSlots(s, k, now, ttl);
        GetSum(s, k, now, ttl);
      case Put(k, v, size, now) =>
        PutSlots(s, k, v, size, now, max);
        PutIsLongestFit(s, k, v, size, now, max);
    }
  }

  lemma GetSum<V>(s: seq<Slot<V>>, k: Key, now: int, ttl: int)
    requires forall i :: 0 <= i < |s| ==> s[i].size >= 0
    ensures Sum(GetStep(s, k, now, ttl).0) <= Sum(s)
  {
    var i := Find(s, k);
    if i < |s| {
      WithoutSum(s, k);
      assert ([s[i]] + Without(s, k))[1..] == Without(s, k);
    }
  }

  // ------------------------------------------------------------ recency order

  /** The i-th operation used k: it wrote k, or it read k and found it. */
  predicate Uses<V>(ops: seq<Op<V>>, i: nat, k: Key, max: int, ttl: int)
    requires i < |ops|
  {
    ops[i].key == k && (ops[i].Put? || GetStep(Run(ops[..i], max, ttl), k, ops[i].now, ttl).1.Some?)
  }

  /** When k was last used, or -1: a position in the history. */
  function LastUse<V>(ops: seq<Op<V>>, k: Key, max: int, ttl: int): (n: int)
    ensures -1 <= n < |ops|
  {
    if ops == [] then -1
    else if Uses(ops, |ops| - 1, k, max, ttl) then |ops| - 1
    else LastUse(ops[..|ops| - 1], k, max, ttl)
  }

  ghost predicate Falling<V>(s: seq<Slot<V>>, use: Key -> int) {
    forall i, j :: 0 <= i < j < |s| ==> use(s[j].key) < use(s[i].key)
  }

  lemma FallingWithout<V>(s: seq<Slot<V>>, k: Key, use: Key -> int, use': Key -> int)
    requires Falling(s, use) && forall x :: x != k ==> use'(x) == use(x)
    requires Distinct(s)
    ensures Falling(Without(s, k), use')
  {
    WithoutDistinct(s, k);
    var i, r := Find(s, k), Without(s, k);
    forall a, b | 0 <= a < b < |r|
      ensures use'(r[b].key) < use'(r[a].key)
    {
      assert r[a] == s[if a < i then a else a + 1] && r[b] == s[if b < i then b else b + 1];
    }
  }

  lemma FallingFront<V>(e: Slot<V>, s: seq<Slot<V>>, use: Key -> int)
    requires Falling(s, use) && forall i :: 0 <= i < |s| ==> use(s[i].key) < use(e.key)
    ensures Falling([e] + s, use)
  {
  }

  lemma FallingPrefix<V>(s: seq<Slot<V>>, n: nat, use: Key -> int)
    requires Falling(s, use) && n <= |s|
    ensures Falling(s[..n], use)
  {
  }

  /** The key just used goes first, the others keep their order. */
  lemma FallingTouch<V>(s: seq<Slot<V>>, e: Slot<V>, now: int, use: Key -> int, use': Key -> int)
    requires Falling(s, use) && Distinct(s)
    requires forall x :: x != e.key ==> use'(x) == use(x) < now
    requires use'(e.key) == now
    ensures Falling([e] + Without(s, e.key), use')
  {
    FallingWithout(s, e.key, use, use');
    WithoutDistinct(s, e.key);
    FallingFront(e, Without(s, e.key), use');
  }

  lemma UseStep<V>(ops: seq<Op<V>>, x: Key, max: int, ttl: int)
    requires ops != []
    ensures var n, op := |ops| - 1, ops[|ops| - 1];
            var before := ops[..n];
            var used := op.Put? || GetStep(Run(before, max, ttl), op.key, op.now, ttl).1.Some?;
            LastUse(ops, x, max, ttl) == if x == op.key && used then n else LastUse(before, x, max, ttl)
  {
  }

  lemma RecencyStep<V>(ops: seq<Op<V>>, max: int, ttl: int, use: Key -> int, use': Key -> int)
    requires ops != [] && Distinct(Run(ops[..|ops| - 1], max, ttl)) && Falling(Run(ops[..|ops| - 1], max, ttl), use)
    requires forall x :: use(x) == LastUse(ops[..|ops| - 1], x, max, ttl) && use'(x) == LastUse(ops, x, max, ttl)
    ensures Falling(Run(ops, max, ttl), use')
  {
    var n, op := |ops| - 1, ops[|ops| - 1];
    var s := Run(ops[..n], max, ttl);
    forall x
      ensures x != op.key ==> use'(x) == use(x) < n
    {
      UseStep(ops, x, max, ttl);
    }
    UseStep(ops, op.key, max, ttl);
    match op
    case Get(k, now) =>
      if GetStep(s, k, now, ttl).1.Some? {
        FallingTouch(s, s[Find(s, k)], n, use, use');
      } else {
        FallingWithout(s, k, use, use');
      }
    case Put(k, v, size, now) =>
      var e := Slot(k, v, size, now);
      FallingTouch(s, e, n, use, use');
      EvictPrefix([e] + Without(s, k), max);
      FallingPrefix([e] + Without(s, k), |Run(ops, max, ttl)|, use');
  }

  /** LRU order, in every history, for every budget and every ttl: an entry
      nearer the front was used later, by a write or a read that found it. */
  lemma {:induction false} RecencyOrder<V>(ops: seq<Op<V>>, max: int, ttl: int)
    ensures forall i, j :: 0 <= i < j < |Run(ops, max, ttl)| ==>
              LastUse(ops, Run(ops, max, ttl)[j].key, max, ttl) < LastUse(ops, Run(ops, max, ttl)[i].key, max, ttl)
  {
    if ops != [] {
      var before := ops[..|ops| - 1];
      RecencyOrder(before, max, ttl);
      RunHoldsLastPuts(before, max, ttl);
      RecencyStep(ops, max, ttl, x => LastUse(before, x, max, ttl), x => LastUse(ops, x, max, ttl));
    }
  }

  lemma DroppedBehind<V>(want: seq<Slot<V>>, n: nat, lost: Slot<V>, kept: Slot<V>, use: Key -> int)
    requires Falling(want, use) && n <= |want| && lost in want[n..] && kept in want[..n]
    ensures use(lost.key) < use(kept.key)
  {
    var i :| 0 <= i < |want| - n && want[n..][i] == lost;
    var j :| 0 <= j < n && want[..n][j] == kept;
    assert want[n + i] == lost && want[j] == kept;
  }

  lemma RunFalls<V>(ops: seq<Op<V>>, max: int, ttl: int, use: Key -> int)
    requires forall x :: use(x) == LastUse(ops, x, max, ttl)
    ensures Falling(Run(ops, max, ttl), use) && Distinct(Run(ops, max, ttl))
  {
    RecencyOrder(ops, max, ttl);
    RunHoldsLastPuts(ops, max, ttl);
  }

  /** What a write offers to the budget: the new entry, then the others. */
  function Offered<V>(s: seq<Slot<V>>, op: Op<V>): seq<Slot<V>>
    requires op.Put?
  {
    [Slot(op.key, op.value, op.size, op.now)] + Without(s, op.key)
  }

  lemma OfferedFalls<V>(ops: seq<Op<V>>, max: int, ttl: int, use: Key -> int, use': Key -> int)
    requires ops != [] && ops[|ops| - 1].Put?
    requires forall x :: use(x) == LastUse(ops[..|ops| - 1], x, max, ttl) && use'(x) == LastUse(ops, x, max, ttl)
    ensures Falling(Offered(Run(ops[..|ops| - 1], max, ttl), ops[|ops| - 1]), use')
  {
    var n, op := |ops| - 1, ops[|ops| - 1];
    RunFalls(ops[..n], max, ttl, use);
    forall x
      ensures x != op.key ==> use'(x) == use(x) < n
    {
      UseStep(ops, x, max, ttl);
    }
    UseStep(ops, op.key, max, ttl);
    FallingTouch(Run(ops[..n], max, ttl), Slot(op.key, op.value, op.size, op.now), n, use, use');
  }

  lemma KeptOrDropped<V>(want: seq<Slot<V>>, max: int, x: Slot<V>)
    requires x in want
    ensures |Evict(want, max)| <= |want| && Evict(want, max) == want[..|Evict(want, max)|]
    ensures x in Evict(want, max) || x in want[|Evict(want, max)|..]
  {
    EvictPrefix(want, max);
    var n := |Evict(want, max)|;
    assert want == want[..n] + want[n..];
  }

  /** Eviction takes the least recently used: whatever a write drops was last
      used before everything that stays. */
  lemma EvictsLeastRecent<V>(ops: seq<Op<V>>, max: int, ttl: int, lost: Slot<V>, kept: Slot<V>)
    requires ops != [] && ops[|ops| - 1].Put? && lost.key != ops[|ops| - 1].key
    requires lost in Run(ops[..|ops| - 1], max, ttl) && lost !in Run(ops, max, ttl) && kept in Run(ops, max, ttl)
    ensures LastUse(ops, lost.key, max, ttl) < LastUse(ops, kept.key, max, ttl)
  {
    var before, op := ops[..|ops| - 1], ops[|ops| - 1];
    var want := Offered(Run(before, max, ttl), op);
    var use' := (x: Key) => LastUse(ops, x, max, ttl);
    OfferedFalls(ops, max, ttl, x => LastUse(before, x, max, ttl), use');
    StillWanted(Run(before, max, ttl), lost, op.key, want[0]);
    KeptOrDropped(want, max, lost);
    DroppedBehind(want, |Run(ops, max, ttl)|, lost, kept, use');
  }

  lemma StillWanted<V>(s: seq<Slot<V>>, x: Slot<V>, k: Key, e: Slot<V>)
    requires x in s && x.key != k
    ensures x in [e] + Without(s, k)
  {
    var i, n := Find(s, k), |s|;
    var j :| 0 <= j < n && s[j] == x;
    if i < n {
      var m := if j < i then j else j - 1;
      assert Without(s, k)[m] == x;
    }
    assert x in Without(s, k);
  }

  // ---------------------------------------------------------- stack property

  /** One demand-filled reference: read, and on a miss load and store. */
  datatype Ref<+V> = Ref(key: Key, value: V, now: int)

  function Demand<V>(refs: seq<Ref<V>>, size: Key -> nat, max: int): seq<Slot<V>> {
    if refs == [] then []
    else
      var s, r := Demand(refs[..|refs| - 1], size, max), refs[|refs| - 1];
      var (hit, found) := GetStep(s, r.key, r.now, 0);
      if found.Some? then hit else PutStep(hit, r.key, r.value, size(r.key), r.now, max)
  }

  function Keys<V>(s: seq<Slot<V>>): seq<Key> { seq(|s|, i requires 0 <= i < |s| => s[i].key) }

  /** The order of most recent use of every key ever referenced: no budget. */
  function Stack<V>(refs: seq<Ref<V>>): seq<Key> {
    if refs == [] then []
    else [refs[|refs| - 1].key] + Unlinked(Stack(refs[..|refs| - 1]), refs[|refs| - 1].key)
  }

  /** The longest prefix whose sizes fit the budget. */
  function Fit(ks: seq<Key>, size: Key -> nat, max: int): seq<Key> {
    if ks == [] || size(ks[0]) > max then [] else [ks[0]] + Fit(ks[1..], size, max - size(ks[0]))
  }

  /** Bytes up to and including k: its distance from the top of the stack. */
  function Depth(ks: seq<Key>, size: Key -> nat, k: Key): nat {
    if ks == [] then 0
    else size(ks[0]) + if ks[0] == k then 0 else Depth(ks[1..], size, k)
  }

  lemma {:induction false} UnlinkedMember(ks: seq<Key>, k: Key, x: Key)
    requires NoRepeat(ks)
    ensures x in Unlinked(ks, k) <==> x in ks && x != k
  {
    if ks != [] {
      UnlinkedMember(ks[1..], k, x);
      assert x in ks <==> x == ks[0] || x in ks[1..];
    }
  }

  lemma {:induction false} UnlinkedNoRepeat(ks: seq<Key>, k: Key)
    requires NoRepeat(ks)
    ensures NoRepeat(Unlinked(ks, k))
  {
    if ks != [] && ks[0] != k {
      UnlinkedNoRepeat(ks[1..], k);
      UnlinkedMember(ks[1..], k, ks[0]);
    }
  }

  lemma {:induction false} UnlinkedAbsent(ks: seq<Key>, k: Key)
    requires k !in ks
    ensures Unlinked(ks, k) == ks
  {
    if ks != [] { UnlinkedAbsent(ks[1..], k); }
  }

  lemma {:induction false} FitMembers(ks: seq<Key>, size: Key -> nat, max: int)
    ensures Fit(ks, size, max) <= ks
    ensures forall x :: x in Fit(ks, size, max) ==> size(x) <= max
  {
    if ks != [] && size(ks[0]) <= max {
      FitMembers(ks[1..], size, max - size(ks[0]));
      assert ks == [ks[0]] + ks[1..];
    }
  }

  lemma FitHead(ks: seq<Key>, size: Key -> nat, max: int)
    requires NoRepeat(ks) && ks != [] && size(ks[0]) <= max
    ensures var f := Fit(ks[1..], size, max - size(ks[0]));
            && Fit(ks, size, max) == [ks[0]] + f && f <= ks[1..]
            && ks[0] !in f && Unlinked(Fit(ks, size, max), ks[0]) == f
  {
    var f := Fit(ks[1..], size, max - size(ks[0]));
    FitMembers(ks[1..], size, max - size(ks[0]));
    assert forall j :: 0 <= j < |f| ==> f[j] == ks[j + 1];
    assert ([ks[0]] + f)[1..] == f;
  }

  lemma FitCons(x: Key, l: seq<Key>, size: Key -> nat, max: int)
    ensures Fit([x] + l, size, max) == if size(x) > max then [] else [x] + Fit(l, size, max - size(x))
  {
    assert ([x] + l)[1..] == l;
  }

  lemma UnlinkedCons(x: Key, l: seq<Key>, k: Key)
    ensures Unlinked([x] + l, k) == if x == k then l else [x] + Unlinked(l, k)
  {
    assert ([x] + l)[1..] == l;
  }

  ghost predicate Commutes(ks: seq<Key>, size: Key -> nat, max: int, k: Key) {
    var f := Fit(ks, size, max);
    Fit(Unlinked(ks, k), size, max - size(k)) == if k in f then Unlinked(f, k) else Fit(f, size, max - size(k))
  }

  lemma CommutesCons(x: Key, t: seq<Key>, size: Key -> nat, max: int, k: Key)
    requires x != k && size(x) <= max && Commutes(t, size, max - size(x), k)
    ensures Commutes([x] + t, size, max, k)
  {
    var f := Fit(t, size, max - size(x));
    FitCons(x, t, size, max);
    UnlinkedCons(x, t, k);
    UnlinkedCons(x, f, k);
    FitCons(x, Unlinked(t, k), size, max - size(k));
    FitCons(x, f, size, max - size(k));
    FitMembers(t, size, max - size(x));
    assert k in [x] + f <==> k in f;
  }

  /** Removing a key commutes with fitting, whether or not it had fitted. */
  lemma {:induction false} FitUnlinked(ks: seq<Key>, size: Key -> nat, max: int, k: Key)
    requires NoRepeat(ks)
    ensures Commutes(ks, size, max, k)
  {
    if ks != [] && size(ks[0]) <= max {
      FitHead(ks, size, max);
      if ks[0] != k {
        FitUnlinked(ks[1..], size, max - size(ks[0]), k);
        CommutesCons(ks[0], ks[1..], size, max, k);
        assert ks == [ks[0]] + ks[1..];
      }
    }
  }

  lemma KeysAppend<V>(a: seq<Slot<V>>, b: seq<Slot<V>>)
    ensures Keys(a + b) == Keys(a) + Keys(b)
  {
  }

  lemma {:induction false} KeysPosition<V>(s: seq<Slot<V>>, k: Key)
    ensures Position(Keys(s), k) == Find(s, k)
  {
    if s != [] {
      KeysPosition(s[1..], k);
      assert Keys(s)[1..] == Keys(s[1..]);
    }
  }

  lemma KeysUnlinked<V>(s: seq<Slot<V>>, k: Key)
    ensures Keys(Without(s, k)) == Unlinked(Keys(s), k)
  {
    var i := Find(s, k);
    KeysPosition(s, k);
    UnlinkedSlices(Keys(s), k);
    if i < |s| {
      KeysAppend(s[..i], s[i + 1..]);
      assert Keys(s[..i]) == Keys(s)[..i] && Keys(s[i + 1..]) == Keys(s)[i + 1..];
    }
  }

  lemma KeysWithout<V>(s: seq<Slot<V>>, k: Key)
    ensures Keys(Without(s, k)) == Unlinked(Keys(s), k)
    ensures k in Keys(s) <==> Lookup(s, k).Some?
  {
    KeysUnlinked(s, k);
    FindFirst(s, k);
    assert Find(s, k) < |s| ==> Keys(s)[Find(s, k)] == k;
  }

  ghost predicate Sized<V>(s: seq<Slot<V>>, size: Key -> nat) {
    forall i :: 0 <= i < |s| ==> s[i].size == size(s[i].key)
  }

  /** Eviction from the back keeps the same slots as fitting from the front. */
  lemma {:induction false} EvictIsFit<V>(s: seq<Slot<V>>, size: Key -> nat, max: int)
    requires Sized(s, size)
    ensures Keys(Evict(s, max)) == Fit(Keys(s), size, max)
    decreases |s|
  {
    if s == [] {
    } else if Sum(s) <= max {
      FitAll(s, size, max);
    } else {
      var t := s[..|s| - 1];
      EvictIsFit(t, size, max);
      FitLast(s, size, max);
    }
  }

  lemma {:induction false} FitAll<V>(s: seq<Slot<V>>, size: Key -> nat, max: int)
    requires Sized(s, size) && Sum(s) <= max
    ensures Fit(Keys(s), size, max) == Keys(s)
  {
    if s != [] {
      SumSized(s[1..], size);
      assert Keys(s)[1..] == Keys(s[1..]);
      FitAll(s[1..], size, max - s[0].size);
    }
  }

  lemma {:induction false} SumSized<V>(s: seq<Slot<V>>, size: Key -> nat)
    requires Sized(s, size)
    ensures Sum(s) >= 0
  {
    if s != [] { SumSized(s[1..], size); }
  }

  lemma {:induction false} FitLast<V>(s: seq<Slot<V>>, size: Key -> nat, max: int)
    requires Sized(s, size) && s != [] && Sum(s) > max
    ensures Fit(Keys(s), size, max) == Fit(Keys(s[..|s| - 1]), size, max)
  {
    var t := s[..|s| - 1];
    if |s| == 1 {
      assert Sum(s) == s[0].size + Sum(s[1..]);
    } else {
      assert Keys(s)[1..] == Keys(s[1..]);
      assert Keys(t)[1..] == Keys(t[1..]);
      assert s[1..][..|s| - 2] == t[1..];
      FitLast(s[1..], size, max - s[0].size);
    }
  }

  /** Mattson's stack property with sizes: under demand filling without
      expiry, the cache of budget max is always the longest fitting prefix of
      one budget-free stack. */
  lemma {:induction false} StackProperty<V>(refs: seq<Ref<V>>, size: Key -> nat, max: int)
    ensures var s := Demand(refs, size, max);
            && Distinct(s) && Sized(s, size) && NoRepeat(Stack(refs))
            && Keys(s) == Fit(Stack(refs), size, max)
  {
    if refs != [] {
      var before, r := refs[..|refs| - 1], refs[|refs| - 1];
      StackProperty(before, size, max);
      DemandStep(Demand(before, size, max), Stack(before), r, size, max);
    }
  }

  lemma TopNoRepeat(ks: seq<Key>, k: Key)
    requires NoRepeat(ks)
    ensures NoRepeat([k] + Unlinked(ks, k))
  {
    UnlinkedNoRepeat(ks, k);
    UnlinkedMember(ks, k, k);
  }

  lemma FitTop(ks: seq<Key>, size: Key -> nat, max: int, k: Key)
    requires NoRepeat(ks)
    ensures k in Fit(ks, size, max) ==> Fit([k] + Unlinked(ks, k), size, max) == [k] + Unlinked(Fit(ks, size, max), k)
    ensures k !in Fit(ks, size, max) ==>
              Fit([k] + Unlinked(ks, k), size, max) == Fit([k] + Fit(ks, size, max), size, max)
  {
    FitUnlinked(ks, size, max, k);
    FitMembers(ks, size, max);
    assert ([k] + Unlinked(ks, k))[1..] == Unlinked(ks, k);
    assert ([k] + Fit(ks, size, max))[1..] == Fit(ks, size, max);
  }

  lemma DemandHit<V>(s: seq<Slot<V>>, k: Key, now: int, size: Key -> nat)
    requires Distinct(s) && Sized(s, size) && Lookup(s, k).Some?
    ensures var t := GetStep(s, k, now, 0).0;
            Distinct(t) && Sized(t, size) && Keys(t) == [k] + Unlinked(Keys(s), k)
  {
    GetSlots(s, k, now, 0);
    KeysWithout(s, k);
    KeysAppend([s[Find(s, k)]], Without(s, k));
  }

  lemma DemandMiss<V>(s: seq<Slot<V>>, r: Ref<V>, size: Key -> nat, max: int)
    requires Distinct(s) && Sized(s, size) && Lookup(s, r.key).None?
    ensures var t := PutStep(s, r.key, r.value, size(r.key), r.now, max);
            Distinct(t) && Sized(t, size) && Keys(t) == Fit([r.key] + Keys(s), size, max)
  {
    var e := Slot(r.key, r.value, size(r.key), r.now);
    PutSlots(s, r.key, r.value, size(r.key), r.now, max);
    EvictIsFit([e] + s, size, max);
    KeysAppend([e], s);
  }

  lemma DemandStep<V>(s: seq<Slot<V>>, ks: seq<Key>, r: Ref<V>, size: Key -> nat, max: int)
    requires Distinct(s) && Sized(s, size) && NoRepeat(ks) && Keys(s) == Fit(ks, size, max)
    ensures var (hit, found) := GetStep(s, r.key, r.now, 0);
            var t := if found.Some? then hit else PutStep(hit, r.key, r.value, size(r.key), r.now, max);
            && Distinct(t) && Sized(t, size)
            && NoRepeat([r.key] + Unlinked(ks, r.key))
            && Keys(t) == Fit([r.key] + Unlinked(ks, r.key), size, max)
  {
    KeysWithout(s, r.key);
    TopNoRepeat(ks, r.key);
    FitTop(ks, size, max, r.key);
    if Lookup(s, r.key).Some? {
      DemandHit(s, r.key, r.now, size);
    } else {
      DemandMiss(s, r, size, max);
    }
  }

  /** A larger budget holds a superset, in the same order. */
  lemma {:induction false} FitMonotone(ks: seq<Key>, size: Key -> nat, small: int, large: int)
    requires small <= large
    ensures Fit(ks, size, small) <= Fit(ks, size, large)
  {
    if ks != [] && size(ks[0]) <= small {
      FitMonotone(ks[1..], size, small - size(ks[0]), large - size(ks[0]));
    }
  }

  /** LRU inclusion: for every demand-filled history the smaller cache's order
      is a prefix of the larger cache's, so raising the budget never turns a
      hit into a miss. */
  lemma Inclusion<V>(refs: seq<Ref<V>>, size: Key -> nat, small: int, large: int, k: Key)
    requires small <= large
    ensures Keys(Demand(refs, size, small)) <= Keys(Demand(refs, size, large))
    ensures Lookup(Demand(refs, size, small), k).Some? ==> Lookup(Demand(refs, size, large), k).Some?
  {
    StackProperty(refs, size, small);
    StackProperty(refs, size, large);
    FitMonotone(Stack(refs), size, small, large);
    KeysWithout(Demand(refs, size, small), k);
    KeysWithout(Demand(refs, size, large), k);
  }

  lemma {:induction false} FitDepth(ks: seq<Key>, size: Key -> nat, max: int, k: Key)
    requires NoRepeat(ks)
    ensures k in Fit(ks, size, max) <==> k in ks && Depth(ks, size, k) <= max
  {
    if ks != [] {
      FitMembers(ks[1..], size, max - size(ks[0]));
      assert k in ks <==> k == ks[0] || k in ks[1..];
      FitDepth(ks[1..], size, max - size(ks[0]), k);
    }
  }

  /** Exactly when a reference hits: the key was referenced before, and the
      bytes of the distinct keys used since, plus its own, fit the budget. */
  lemma HitIffDepthFits<V>(refs: seq<Ref<V>>, size: Key -> nat, max: int, k: Key)
    ensures Lookup(Demand(refs, size, max), k).Some?
            <==> k in Stack(refs) && Depth(Stack(refs), size, k) <= max
  {
    StackProperty(refs, size, max);
    KeysWithout(Demand(refs, size, max), k);
    FitDepth(Stack(refs), size, max, k);
  }
}
