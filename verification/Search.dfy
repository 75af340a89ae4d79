/** The search tool: limit normalization, cache keys, cutting and caching, over
    runs of concurrent calls (internal/tools/search/search.go). */
module Search {
  import opened Bytes
  import opened Keys
  import opened Lru
  import opened Cache
  import LruTraces

  const DEFAULT_MAX_RESULTS := 10
  const MAX_RESULTS_LIMIT := 50
  const DEFAULT_RESULTS_CACHE_BYTES: int := 1024 * 1024

  datatype Hit = Hit(title: Text, url: Text, content: Text)

  datatype Call = Call(query: Text, limit: int, cacheKey: Text)

  datatype Error = EmptyQuery | BadEndpoint | TransportFailed | JsonDisabled | BadStatus(code: int) | Undecodable

  datatype Outcome = Success(hits: seq<Hit>) | Failure(error: Error)

  /** A decoded body; one without a results field is Payload(None). */
  datatype Decoded = Garbage | Payload(results: Option<seq<Hit>>)

  /** What comes of asking the SearXNG instance. */
  datatype Reply = NoEndpoint | NoResponse | Response(code: int, body: Decoded)

  /** The size the caller gets: defaulted, then capped. */
  function NormalLimit(limit: int): (n: nat)
    ensures 1 <= n <= 50
    ensures 1 <= limit <= 50 ==> n == limit
    ensures limit <= 0 ==> n == 10
    ensures limit > 50 ==> n == 50
  {
    var l := if limit <= 0 then DEFAULT_MAX_RESULTS else limit;
    if l > MAX_RESULTS_LIMIT then MAX_RESULTS_LIMIT else l
  }

  function CacheKey(call: Call): Key { TripleKey(call.cacheKey, call.query, NormalLimit(call.limit)) }

  /** The same caller asks for exactly the same thing. */
  predicate SameQuestion(a: Call, b: Call) {
    a.cacheKey == b.cacheKey && a.query == b.query && NormalLimit(a.limit) == NormalLimit(b.limit)
  }

  /** Two calls share an entry exactly when they come from the same caller and
      ask for exactly the same thing. */
  lemma SharedEntryExactly(a: Call, b: Call)
    requires NulFree(a.cacheKey) && NulFree(b.cacheKey)
    ensures CacheKey(a) == CacheKey(b) <==> SameQuestion(a, b)
  {
    if CacheKey(a) == CacheKey(b) {
      TripleKeyInjective(a.cacheKey, a.query, NormalLimit(a.limit), b.cacheKey, b.query, NormalLimit(b.limit));
    }
  }

  function Size(hits: seq<Hit>): nat {
    if hits == [] then 0
    else Size(hits[..|hits| - 1]) + |hits[|hits| - 1].title| + |hits[|hits| - 1].url| + |hits[|hits| - 1].content|
  }

  /** Size adds up the bytes of the three fields of every hit, and nothing else. */
  lemma {:induction false} SizeIsSum(a: seq<Hit>, b: seq<Hit>, h: Hit)
    ensures Size([]) == 0 && Size([h]) == |h.title| + |h.url| + |h.content|
    ensures Size(a + b) == Size(a) + Size(b)
    decreases |b|
  {
    assert [h][..0] == [];
    if b == [] {
      assert a + b == a;
    } else {
      var t := b[..|b| - 1];
      assert (a + b)[..|a + b| - 1] == a + t;
      SizeIsSum(a, t, h);
    }
  }

  // ------------------------------------------------------------ atomic steps

  function Probe(s: seq<Slot<seq<Hit>>>, call: Call, now: int, ttl: int): (seq<Slot<seq<Hit>>>, Option<seq<Hit>>) {
    if call.cacheKey == [] then (s, None) else GetStep(s, CacheKey(call), now, ttl)
  }

  function Arrive(s: seq<Slot<seq<Hit>>>, call: Call, reply: Reply, now: int): (seq<Slot<seq<Hit>>>, Outcome) {
    match reply
    case NoEndpoint => (s, Failure(BadEndpoint))
    case NoResponse => (s, Failure(TransportFailed))
    case Response(code, body) =>
      if code != 200 then (s, Failure(if code == 403 then JsonDisabled else BadStatus(code)))
      else if body.Garbage? then (s, Failure(Undecodable))
      else
        var all := if body.results.Some? then body.results.value else [];
        var hits := all[..Min(NormalLimit(call.limit), |all|)];
        (if call.cacheKey == [] then s
         else PutStep(s, CacheKey(call), hits, Size(hits), now, DEFAULT_RESULTS_CACHE_BYTES),
         Success(hits))
  }

  /** Anyone asking the same thing as the same caller within the ttl gets the
      stored hits, provided their size fits the budget. */
  lemma SameQuestionHits(
    s: seq<Slot<seq<Hit>>>, a: Call, b: Call, reply: Reply, now: int, later: int, ttl: int)
    requires Distinct(s) && a.cacheKey != [] && SameQuestion(a, b) && later - now <= ttl
    requires Arrive(s, a, reply, now).1.Success?
    requires Size(Arrive(s, a, reply, now).1.hits) <= DEFAULT_RESULTS_CACHE_BYTES
    ensures Probe(Arrive(s, a, reply, now).0, b, later, ttl).1 == Some(Arrive(s, a, reply, now).1.hits)
  {
    var hits := Arrive(s, a, reply, now).1.hits;
    PutIsLongestFit(s, CacheKey(a), hits, Size(hits), now, DEFAULT_RESULTS_CACHE_BYTES);
  }

  /** One whole call with nothing interleaved, and whether it asked the instance. */
  function SearchAlone(
    blank: Text -> bool, ttl: int, s: seq<Slot<seq<Hit>>>, call: Call, reply: Reply, t1: int, t2: int)
    : (seq<Slot<seq<Hit>>>, Outcome, bool)
  {
    if blank(call.query) then (s, Failure(EmptyQuery), false)
    else
      var (c, hit) := Probe(s, call, t1, ttl);
      if hit.Some? then (c, Success(hit.value), false)
      else
        var (d, out) := Arrive(c, call, reply, t2);
        (d, out, true)
  }

  /** What a reply makes of a call that may get n hits. */
  ghost predicate Means(reply: Reply, n: nat, out: Outcome) {
    match reply
    case NoEndpoint => out == Failure(BadEndpoint)
    case NoResponse => out == Failure(TransportFailed)
    case Response(code, body) =>
      if code == 403 then out == Failure(JsonDisabled)
      else if code != 200 then out == Failure(BadStatus(code))
      else
        match body
        case Garbage => out == Failure(Undecodable)
        case Payload(None) => out == Success([])
        case Payload(Some(all)) => out.Success? && |out.hits| == Min(n, |all|) && out.hits == all[..|out.hits|]
  }

  /** Which call asks the instance, what each reply then means, and what is never
      stored: an answer without a cache key, and a failure. */
  lemma SearchExactly(
    blank: Text -> bool, ttl: int, s: seq<Slot<seq<Hit>>>, call: Call, reply: Reply, t1: int, t2: int)
    requires Distinct(s)
    ensures var (d, out, asked) := SearchAlone(blank, ttl, s, call, reply, t1, t2);
            && (blank(call.query) ==> out == Failure(EmptyQuery) && !asked && d == s)
            && (asked <==> !blank(call.query) && Probe(s, call, t1, ttl).1.None?)
            && (asked ==> Means(reply, NormalLimit(call.limit), out))
            && (!asked && !blank(call.query) ==> call.cacheKey != [] && out.Success?)
            && (call.cacheKey == [] ==> d == s && (asked <==> !blank(call.query)))
            && (out.Failure? ==> forall i :: 0 <= i < |d| ==> d[i] in s)
  {
    if call.cacheKey != [] { GetSlots(s, CacheKey(call), t1, ttl); }
  }

  class Searcher {
    const results: MemoryCache<seq<Hit>>
    const blank: Text -> bool

    ghost predicate Valid()
      reads this, results
    {
      results.Valid() && results.maxBytes == DEFAULT_RESULTS_CACHE_BYTES && results.ttl > 0
    }

    constructor (blank: Text -> bool, ttl: int)
      ensures Valid() && fresh(results) && results.View() == []
      ensures results.maxBytes == 1_048_576
      ensures results.ttl == if ttl > 0 then ttl else 300_000_000_000
    {
      var c := new MemoryCache<seq<Hit>>(DEFAULT_RESULTS_CACHE_BYTES, if ttl <= 0 then DEFAULT_TTL else ttl);
      this.blank := blank;
      results := c;
    }

    /** Search performs the probe and, on a miss, the arrival of the reply. */
    method Search(call: Call, reply: Reply, t1: int, t2: int) returns (out: Outcome)
      requires Valid()
      modifies results
      ensures Valid()
      ensures var (s, o, _) := SearchAlone(blank, results.ttl, old(results.View()), call, reply, t1, t2);
              out == o && results.View() == s
    {
      if blank(call.query) { return Failure(EmptyQuery); }
      var limit := call.limit;
      if limit <= 0 { limit := DEFAULT_MAX_RESULTS; }
      if limit > MAX_RESULTS_LIMIT { limit := MAX_RESULTS_LIMIT; }
      var key: Key := [];
      if call.cacheKey != [] {
        key := TripleKey(call.cacheKey, call.query, limit);
        var hit := results.Get(key, t1);
        if hit.Some? { return Success(hit.value); }
      }
      if reply.NoEndpoint? { return Failure(BadEndpoint); }
      if reply.NoResponse? { return Failure(TransportFailed); }
      if reply.code != 200 {
        if reply.code == 403 { return Failure(JsonDisabled); }
        return Failure(BadStatus(reply.code));
      }
      if reply.body.Garbage? { return Failure(Undecodable); }
      var hits := if reply.body.results.Some? then reply.body.results.value else [];
      if |hits| > limit { hits := hits[..limit]; }
      if call.cacheKey != [] {
        var size := 0;
        for i := 0 to |hits|
          invariant size == Size(hits[..i])
        {
          assert hits[..i + 1][..i] == hits[..i];
          size := size + |hits[i].title| + |hits[i].url| + |hits[i].content|;
        }
        assert hits[..|hits|] == hits;
        results.Put(key, hits, size, t2);
      }
      return Success(hits);
    }
  }

  // ---------------------------------------------------------------- the runs

  datatype Phase = Asking(call: Call) | Waiting(call: Call) | Answered(call: Call, outcome: Outcome)

  datatype Event =
    | Begin(pid: nat, call: Call, now: int)
    | Look(pid: nat, now: int)
    | Answer(pid: nat, reply: Reply, now: int)

  datatype System = System(cache: seq<Slot<seq<Hit>>>, procs: map<nat, Phase>)

  function Step(blank: Text -> bool, ttl: int, s: System, e: Event): System {
    match e
    case Begin(pid, call, _) =>
      if pid in s.procs then s
      else s.(procs := s.procs[pid := if blank(call.query) then Answered(call, Failure(EmptyQuery)) else Asking(call)])
    case Look(pid, now) =>
      if pid !in s.procs || !s.procs[pid].Asking? then s
      else
        var call := s.procs[pid].call;
        var (c, hit) := Probe(s.cache, call, now, ttl);
        System(c, s.procs[pid := if hit.Some? then Answered(call, Success(hit.value)) else Waiting(call)])
    case Answer(pid, reply, now) =>
      if pid !in s.procs || !s.procs[pid].Waiting? then s
      else
        var call := s.procs[pid].call;
        var (c, out) := Arrive(s.cache, call, reply, now);
        System(c, s.procs[pid := Answered(call, out)])
  }

  function Run(blank: Text -> bool, ttl: int, es: seq<Event>): System {
    if es == [] then System([], map[]) else Step(blank, ttl, Run(blank, ttl, es[..|es| - 1]), es[|es| - 1])
  }

  // ----------------------------------------------- where answers come from

  /** All isolation asks of a run; the instance may answer anything, and
      differently to different callers or at different times. */
  ghost predicate NulFreeCallers(es: seq<Event>) {
    forall i :: 0 <= i < |es| && es[i].Begin? ==> NulFree(es[i].call.cacheKey)
  }

  /** es[n] is the reply that answered owner's search with hits. */
  ghost predicate AnswerEvent(
    blank: Text -> bool, ttl: int, es: seq<Event>, n: nat, owner: Call, hits: seq<Hit>) {
    && n < |es| && es[n].Answer?
    && var s, e := Run(blank, ttl, es[..n]), es[n];
    && e.pid in s.procs && s.procs[e.pid] == Waiting(owner)
    && Arrive(s.cache, owner, e.reply, e.now).1 == Success(hits)
  }

  /** e holds what some reply answered, under the key of the search it answered,
      stamped with the time of that reply. */
  ghost predicate Traced(blank: Text -> bool, ttl: int, es: seq<Event>, e: Slot<seq<Hit>>) {
    exists n: nat, owner: Call ::
      AnswerEvent(blank, ttl, es, n, owner, e.value) && CacheKey(owner) == e.key && es[n].now == e.storedAt
  }

  ghost predicate AllTraced(blank: Text -> bool, ttl: int, es: seq<Event>, c: seq<Slot<seq<Hit>>>) {
    Distinct(c) && forall i :: 0 <= i < |c| ==> Traced(blank, ttl, es, c[i])
  }

  lemma AnswerEventExtends(
    blank: Text -> bool, ttl: int, es: seq<Event>, n: nat, owner: Call, hits: seq<Hit>)
    requires es != [] && AnswerEvent(blank, ttl, es[..|es| - 1], n, owner, hits)
    ensures AnswerEvent(blank, ttl, es, n, owner, hits) && es[..|es| - 1][n] == es[n]
  {
    var b := es[..|es| - 1];
    assert b[..n] == es[..n] && b[n] == es[n];
  }

  lemma TraceExtends(blank: Text -> bool, ttl: int, es: seq<Event>, e: Slot<seq<Hit>>)
    requires es != [] && Traced(blank, ttl, es[..|es| - 1], e)
    ensures Traced(blank, ttl, es, e)
  {
    var b := es[..|es| - 1];
    var n: nat, owner: Call :|
      AnswerEvent(blank, ttl, b, n, owner, e.value) && CacheKey(owner) == e.key && b[n].now == e.storedAt;
    AnswerEventExtends(blank, ttl, es, n, owner, e.value);
  }

  lemma SameTraced(blank: Text -> bool, ttl: int, es: seq<Event>, a: seq<Slot<seq<Hit>>>, b: seq<Slot<seq<Hit>>>)
    requires es != [] && AllTraced(blank, ttl, es[..|es| - 1], a)
    requires Distinct(b) && forall i :: 0 <= i < |b| ==> b[i] in a || Traced(blank, ttl, es, b[i])
    ensures AllTraced(blank, ttl, es, b)
  {
    forall i | 0 <= i < |b|
      ensures Traced(blank, ttl, es, b[i])
    {
      if b[i] in a { TraceExtends(blank, ttl, es, b[i]); }
    }
  }

  /** A reply that changes the cache stores the answer it gives. */
  lemma ChangeIsAnswer(blank: Text -> bool, ttl: int, es: seq<Event>) returns (owner: Call, hits: seq<Hit>)
    requires es != [] && es[|es| - 1].Answer?
    requires Run(blank, ttl, es).cache != Run(blank, ttl, es[..|es| - 1]).cache
    ensures AnswerEvent(blank, ttl, es, |es| - 1, owner, hits)
    ensures Run(blank, ttl, es).cache
            == PutStep(Run(blank, ttl, es[..|es| - 1]).cache, CacheKey(owner), hits, Size(hits),
                       es[|es| - 1].now, DEFAULT_RESULTS_CACHE_BYTES)
  {
    var s, e := Run(blank, ttl, es[..|es| - 1]), es[|es| - 1];
    owner := s.procs[e.pid].call;
    hits := Arrive(s.cache, owner, e.reply, e.now).1.hits;
  }

  lemma {:induction false} RunTraced(blank: Text -> bool, ttl: int, es: seq<Event>)
    ensures AllTraced(blank, ttl, es, Run(blank, ttl, es).cache)
  {
    if es != [] {
      var b, e := es[..|es| - 1], es[|es| - 1];
      RunTraced(blank, ttl, b);
      var s, c := Run(blank, ttl, b), Run(blank, ttl, es).cache;
      if e.Look? && e.pid in s.procs {
        GetSlots(s.cache, CacheKey(s.procs[e.pid].call), e.now, ttl);
      } else if e.Answer? && c != s.cache {
        var owner, hits := ChangeIsAnswer(blank, ttl, es);
        var slot := Slot(CacheKey(owner), hits, Size(hits), e.now);
        PutSlots(s.cache, slot.key, hits, slot.size, e.now, DEFAULT_RESULTS_CACHE_BYTES);
        assert Traced(blank, ttl, es, slot);
      }
      SameTraced(blank, ttl, es, s.cache, c);
    }
  }

  lemma PrefixNulFree(es: seq<Event>, n: nat)
    requires NulFreeCallers(es) && n <= |es|
    ensures NulFreeCallers(es[..n])
  {
    forall i | 0 <= i < n && es[..n][i].Begin?
      ensures NulFree(es[..n][i].call.cacheKey)
    {
      assert es[..n][i] == es[i];
    }
  }

  lemma {:induction false} ProcsNulFree(blank: Text -> bool, ttl: int, es: seq<Event>, p: nat)
    requires NulFreeCallers(es) && p in Run(blank, ttl, es).procs
    ensures NulFree(Run(blank, ttl, es).procs[p].call.cacheKey)
  {
    if es != [] {
      var b := es[..|es| - 1];
      PrefixNulFree(es, |es| - 1);
      if p in Run(blank, ttl, b).procs { ProcsNulFree(blank, ttl, b, p); }
    }
  }

  /** What a call was answered it stays answered. */
  lemma {:induction false} AnswerIsFinal(blank: Text -> bool, ttl: int, es: seq<Event>, n: nat, p: nat)
    requires n <= |es| && p in Run(blank, ttl, es[..n]).procs && Run(blank, ttl, es[..n]).procs[p].Answered?
    ensures p in Run(blank, ttl, es).procs && Run(blank, ttl, es).procs[p] == Run(blank, ttl, es[..n]).procs[p]
    decreases |es|
  {
    if n == |es| {
      assert es[..n] == es;
    } else {
      var b := es[..|es| - 1];
      assert b[..n] == es[..n];
      AnswerIsFinal(blank, ttl, b, n, p);
    }
  }

  ghost predicate Returned(s: System, pid: nat, call: Call, hits: seq<Hit>) {
    pid in s.procs && s.procs[pid] == Answered(call, Success(hits))
  }

  lemma AnswerReturns(blank: Text -> bool, ttl: int, es: seq<Event>, n: nat, owner: Call, hits: seq<Hit>)
    requires AnswerEvent(blank, ttl, es, n, owner, hits)
    ensures Returned(Run(blank, ttl, es), es[n].pid, owner, hits)
  {
    var b := es[..n + 1];
    assert b[..n] == es[..n];
    assert Run(blank, ttl, b) == Step(blank, ttl, Run(blank, ttl, es[..n]), es[n]);
    AnswerIsFinal(blank, ttl, es, n + 1, es[n].pid);
  }

  // ------------------------------------------------------------ the theorems

  /** Caller isolation and staleness: in every run, whatever the instance
      answers, a cached answer was returned before to the same caller for the
      same query and normalized limit, at most ttl ago. */
  lemma SearchHitIsOwn(blank: Text -> bool, ttl: int, es: seq<Event>, call: Call, now: int)
    requires NulFreeCallers(es) && NulFree(call.cacheKey)
    ensures var hit := Probe(Run(blank, ttl, es).cache, call, now, ttl).1;
            hit.Some? ==>
              exists n: nat, owner: Call ::
                && AnswerEvent(blank, ttl, es, n, owner, hit.value) && SameQuestion(owner, call)
                && (ttl > 0 ==> now - es[n].now <= ttl)
                && Returned(Run(blank, ttl, es), es[n].pid, owner, hit.value)
  {
    var c := Run(blank, ttl, es).cache;
    if Probe(c, call, now, ttl).1.Some? {
      RunTraced(blank, ttl, es);
      var e := c[Find(c, CacheKey(call))];
      assert Traced(blank, ttl, es, e);
      var n: nat, owner: Call :|
        AnswerEvent(blank, ttl, es, n, owner, e.value) && CacheKey(owner) == e.key && es[n].now == e.storedAt;
      PrefixNulFree(es, n);
      ProcsNulFree(blank, ttl, es[..n], es[n].pid);
      SharedEntryExactly(owner, call);
      AnswerReturns(blank, ttl, es, n, owner, e.value);
    }
  }

  lemma AnswerMeans(
    blank: Text -> bool, ttl: int, es: seq<Event>, n: nat, owner: Call, hits: seq<Hit>)
    requires AnswerEvent(blank, ttl, es, n, owner, hits)
    ensures Means(es[n].reply, NormalLimit(owner.limit), Success(hits))
  {
  }

  /** The reply es[n] answered owner, who asked the same question as call, which
      finished at es[m] no later than ttl after. */
  ghost predicate Supplied(
    blank: Text -> bool, ttl: int, es: seq<Event>, n: nat, m: nat, owner: Call, call: Call, hits: seq<Hit>) {
    && AnswerEvent(blank, ttl, es, n, owner, hits) && SameQuestion(owner, call)
    && Means(es[n].reply, NormalLimit(call.limit), Success(hits))
    && n <= m < |es| && (ttl > 0 ==> es[m].now - es[n].now <= ttl)
  }

  lemma IsSupplied(
    blank: Text -> bool, ttl: int, es: seq<Event>, n: nat, m: nat, owner: Call, call: Call, hits: seq<Hit>)
    requires AnswerEvent(blank, ttl, es, n, owner, hits) && SameQuestion(owner, call)
    requires n <= m < |es| && (ttl > 0 ==> es[m].now - es[n].now <= ttl)
    ensures Supplied(blank, ttl, es, n, m, owner, call, hits)
  {
    AnswerMeans(blank, ttl, es, n, owner, hits);
  }

  lemma SuppliedExtends(
    blank: Text -> bool, ttl: int, es: seq<Event>, n: nat, m: nat, owner: Call, call: Call, hits: seq<Hit>)
    requires es != [] && Supplied(blank, ttl, es[..|es| - 1], n, m, owner, call, hits)
    ensures Supplied(blank, ttl, es, n, m, owner, call, hits) && es[..|es| - 1][m] == es[m]
  {
    AnswerEventExtends(blank, ttl, es, n, owner, hits);
  }

  /** The event that finished a call, and the reply its answer goes back to. */
  lemma FinishingStep(blank: Text -> bool, ttl: int, es: seq<Event>, call: Call, hits: seq<Hit>)
    returns (n: nat, owner: Call)
    requires NulFreeCallers(es) && es != []
    requires var pid := es[|es| - 1].pid;
             && Returned(Run(blank, ttl, es), pid, call, hits)
             && !Returned(Run(blank, ttl, es[..|es| - 1]), pid, call, hits)
    ensures Supplied(blank, ttl, es, n, |es| - 1, owner, call, hits)
  {
    var k, b, e := |es| - 1, es[..|es| - 1], es[|es| - 1];
    if e.Look? {
      PrefixNulFree(es, k);
      ProcsNulFree(blank, ttl, b, e.pid);
      SearchHitIsOwn(blank, ttl, b, call, e.now);
      n, owner :|
        && AnswerEvent(blank, ttl, b, n, owner, hits) && SameQuestion(owner, call)
        && (ttl > 0 ==> e.now - b[n].now <= ttl);
      AnswerEventExtends(blank, ttl, es, n, owner, hits);
      IsSupplied(blank, ttl, es, n, k, owner, call, hits);
    } else {
      n, owner := k, call;
      assert AnswerEvent(blank, ttl, es, k, call, hits);
      IsSupplied(blank, ttl, es, k, k, call, call, hits);
    }
  }

  /** And end to end: whatever a call returns is the cut of a decodable 200 reply
      to its own caller for its own question, at most ttl before it finished. */
  lemma {:induction false} EveryAnswerIsOwnAndRecent(
    blank: Text -> bool, ttl: int, es: seq<Event>, pid: nat, call: Call, hits: seq<Hit>)
    requires NulFreeCallers(es) && Returned(Run(blank, ttl, es), pid, call, hits)
    ensures exists n: nat, m: nat, owner: Call ::
              Supplied(blank, ttl, es, n, m, owner, call, hits) && es[m].pid == pid
  {
    if es != [] {
      var b := es[..|es| - 1];
      if Returned(Run(blank, ttl, b), pid, call, hits) {
        PrefixNulFree(es, |es| - 1);
        EveryAnswerIsOwnAndRecent(blank, ttl, b, pid, call, hits);
        var n: nat, m: nat, owner: Call :| Supplied(blank, ttl, b, n, m, owner, call, hits) && b[m].pid == pid;
        SuppliedExtends(blank, ttl, es, n, m, owner, call, hits);
      } else {
        var n, owner := FinishingStep(blank, ttl, es, call, hits);
      }
    }
  }

  /** The instance answers each query from one index. */
  ghost predicate Indexed(blank: Text -> bool, ttl: int, index: Text -> seq<Hit>, es: seq<Event>) {
    forall n :: 0 <= n < |es| ==> Honest(index, Run(blank, ttl, es[..n]), es[n])
  }

  ghost predicate Honest(index: Text -> seq<Hit>, s: System, e: Event) {
    e.Answer? && e.pid in s.procs && s.procs[e.pid].Waiting? && e.reply.Response? && e.reply.body.Payload? ==>
      match e.reply.body.results
      case None => index(s.procs[e.pid].call.query) == []
      case Some(all) => index(s.procs[e.pid].call.query) == all
  }

  lemma HonestAnswer(index: Text -> seq<Hit>, s: System, e: Event, owner: Call, limit: nat, hits: seq<Hit>)
    requires e.Answer? && e.pid in s.procs && s.procs[e.pid] == Waiting(owner) && Honest(index, s, e)
    requires Means(e.reply, limit, Success(hits))
    ensures |hits| == Min(limit, |index(owner.query)|) && hits == index(owner.query)[..|hits|]
  {
  }

  /** Transparency: against such an instance each success in every run is the
      first hits of the index for that query, as many as the call may get,
      cached or not. */
  lemma SearchIsTransparent(
    blank: Text -> bool, ttl: int, index: Text -> seq<Hit>, es: seq<Event>, pid: nat, call: Call, hits: seq<Hit>)
    requires NulFreeCallers(es) && Indexed(blank, ttl, index, es)
    requires Returned(Run(blank, ttl, es), pid, call, hits)
    ensures |hits| == Min(NormalLimit(call.limit), |index(call.query)|)
    ensures hits == index(call.query)[..|hits|]
  {
    EveryAnswerIsOwnAndRecent(blank, ttl, es, pid, call, hits);
    var n: nat, m: nat, owner: Call :| Supplied(blank, ttl, es, n, m, owner, call, hits);
    HonestAnswer(index, Run(blank, ttl, es[..n]), es[n], owner, NormalLimit(call.limit), hits);
  }

  /** The method Search is one schedule of the run model. */
  lemma SearchIsARun(
    blank: Text -> bool, ttl: int, s: System, pid: nat, call: Call, reply: Reply, t0: int, t1: int, t2: int)
    requires pid !in s.procs
    ensures var t := Step(blank, ttl, s, Begin(pid, call, t0));
            var u := Step(blank, ttl, t, Look(pid, t1));
            var v := Step(blank, ttl, u, Answer(pid, reply, t2));
            var (c, out, asked) := SearchAlone(blank, ttl, s.cache, call, reply, t1, t2);
            && v.cache == c && pid in v.procs && v.procs[pid] == Answered(call, out)
            && (asked <==> pid in u.procs && u.procs[pid].Waiting?)
  {
  }

  // ------------------------------------------------------------- bytes held

  /** The bytes of all stored hits. */
  function HeldBytes(c: seq<Slot<seq<Hit>>>): nat {
    if c == [] then 0 else Size(c[0].value) + HeldBytes(c[1..])
  }

  ghost predicate Weighed(c: seq<Slot<seq<Hit>>>) {
    forall i :: 0 <= i < |c| ==> c[i].size == Size(c[i].value)
  }

  lemma {:induction false} HeldIsSum(c: seq<Slot<seq<Hit>>>)
    requires Weighed(c)
    ensures HeldBytes(c) == Sum(c)
  {
    if c != [] { HeldIsSum(c[1..]); }
  }

  lemma {:induction false} RunWeighed(blank: Text -> bool, ttl: int, es: seq<Event>)
    ensures var c := Run(blank, ttl, es).cache;
            Distinct(c) && Weighed(c) && Sum(c) <= DEFAULT_RESULTS_CACHE_BYTES
  {
    if es != [] {
      var b, e := es[..|es| - 1], es[|es| - 1];
      RunWeighed(blank, ttl, b);
      var s, c := Run(blank, ttl, b), Run(blank, ttl, es).cache;
      if e.Look? && e.pid in s.procs {
        GetSlots(s.cache, CacheKey(s.procs[e.pid].call), e.now, ttl);
        LruTraces.GetSum(s.cache, CacheKey(s.procs[e.pid].call), e.now, ttl);
      } else if e.Answer? && c != s.cache {
        var owner, hits := ChangeIsAnswer(blank, ttl, es);
        PutSlots(s.cache, CacheKey(owner), hits, Size(hits), e.now, DEFAULT_RESULTS_CACHE_BYTES);
        PutIsLongestFit(s.cache, CacheKey(owner), hits, Size(hits), e.now, DEFAULT_RESULTS_CACHE_BYTES);
      }
    }
  }

  /** The budget, in the bytes an agent sees: in every run the titles, URLs and
      contents of all cached hits together fit 1 MiB. */
  lemma HeldWithinBudget(blank: Text -> bool, ttl: int, es: seq<Event>)
    ensures HeldBytes(Run(blank, ttl, es).cache) <= 1_048_576
  {
    RunWeighed(blank, ttl, es);
    HeldIsSum(Run(blank, ttl, es).cache);
  }
}
