/** Whole-run properties of the fetcher. A run interleaves the atomic steps of
    any number of concurrent Fetch calls. In a good run the origins serve one
    fixed document per URL but may fail, break off, or be slow at any time. */
module FetchRuns {
  import opened Bytes
  import opened Utf8
  import opened Pages
  import opened Streams
  import opened Keys
  import opened Lru
  import opened Fetch

  // ---------------------------------------------------------------- the runs

  datatype Phase = AtResults(call: Call) | AtSnapshots(call: Call) | AtOrigin(call: Call)
                 | Finished(call: Call, outcome: Outcome)

  datatype Event =
    | Begin(pid: nat, call: Call, now: int)
    | ProbeResults(pid: nat, now: int)
    | ProbeSnapshots(pid: nat, now: int)
    | Reply(pid: nat, reply: Fetch.Reply, finished: bool, now: int)

  datatype System = System(caches: Caches, procs: map<nat, Phase>)

  /** Calls past validation carry a non-negative offset. */
  predicate WellFormed(procs: map<nat, Phase>) {
    forall p | p in procs :: procs[p].Finished? || procs[p].call.offset >= 0
  }

  /** An event that its process is not ready for changes nothing. */
  function Step(cfg: Config, web: Web, s: System, e: Event): (t: System)
    requires WellFormed(s.procs)
    ensures WellFormed(t.procs)
  {
    match e
    case Begin(pid, call, _) =>
      if pid in s.procs then s
      else
        (match Validate(web, call)
         case Some(err) => s.(procs := s.procs[pid := Finished(call, Failure(err))])
         case None => s.(procs := s.procs[pid := AtResults(call)]))
    case ProbeResults(pid, now) =>
      if pid !in s.procs || !s.procs[pid].AtResults? then s
      else
        var call := s.procs[pid].call;
        var (c, hit) := LookResults(cfg, s.caches, call, now);
        System(c, s.procs[pid := if hit.Some? then Finished(call, Success(hit.value)) else AtSnapshots(call)])
    case ProbeSnapshots(pid, now) =>
      if pid !in s.procs || !s.procs[pid].AtSnapshots? then s
      else
        var call := s.procs[pid].call;
        var (c, hit) := LookSnapshots(cfg, web, s.caches, call, now);
        System(c, s.procs[pid := if hit.Some? then Finished(call, Success(hit.value)) else AtOrigin(call)])
    case Reply(pid, reply, finished, now) =>
      if pid !in s.procs || !s.procs[pid].AtOrigin? then s
      else
        var call := s.procs[pid].call;
        var (c, out) := Arrive(cfg, web, s.caches, call, reply, finished, now);
        System(c, s.procs[pid := Finished(call, out)])
  }

  function Run(cfg: Config, web: Web, es: seq<Event>): (s: System)
    ensures WellFormed(s.procs)
  {
    if es == [] then System(Caches([], []), map[])
    else Step(cfg, web, Run(cfg, web, es[..|es| - 1]), es[|es| - 1])
  }

  // -------------------------------------------------------------- the origin

  /** A document, and whether its Content-Length is announced. */
  datatype Document = Document(body: Text, status: int, contentType: Text, declared: bool)

  ghost predicate Serves(reply: Fetch.Reply, doc: Document) {
    reply.Response? && 200 <= reply.status <= 299 ==>
      && reply.status == doc.status && reply.contentType == doc.contentType
      && (if doc.declared then reply.contentLength == |doc.body| else reply.contentLength <= 0)
      && Carries(reply.body, doc.body)
  }

  ghost predicate Honest(docs: Text -> Document, s: System, e: Event) {
    match e
    case Begin(_, call, _) => NulFree(call.cacheKey)
    case Reply(pid, reply, _, _) =>
      pid in s.procs && s.procs[pid].AtOrigin? ==> Serves(reply, docs(s.procs[pid].call.rawURL))
    case _ => true
  }

  ghost predicate GoodRun(cfg: Config, web: Web, docs: Text -> Document, es: seq<Event>) {
    es == [] ||
    (GoodRun(cfg, web, docs, es[..|es| - 1]) && Honest(docs, Run(cfg, web, es[..|es| - 1]), es[|es| - 1]))
  }

  // ------------------------------------------------------- what answers mean

  /** The one length the end-of-body probe misjudges: one byte over budget,
      unannounced, with pages smaller than the budget. */
  ghost predicate OffByOne(cfg: Config, doc: Document) {
    |doc.body| == cfg.cacheBudget + 1 && !doc.declared && cfg.maxBytes < cfg.cacheBudget
  }

  /** The pages that can then be wrong: those that reach the lost byte. */
  ghost predicate Misjudged(cfg: Config, doc: Document, offset: int) {
    OffByOne(cfg, doc) && cfg.cacheBudget - cfg.maxBytes <= offset <= cfg.cacheBudget
  }

  /** What a snapshot of doc holds. */
  function Kept(cfg: Config, doc: Document): Text
    requires cfg.cacheBudget >= 0
  {
    doc.body[..Min(cfg.cacheBudget, |doc.body|)]
  }

  function Answer(web: Web, url: Text, doc: Document, offset: int, p: Page): Result {
    MakeResult(web, url, doc.status, doc.contentType, offset, p)
  }

  /** r is the document's page, by the memory route or the stream route. */
  ghost predicate TrueAnswer(cfg: Config, web: Web, docs: Text -> Document, url: Text, offset: nat, r: Result) {
    || r == Answer(web, url, docs(url), offset, PageFrom(docs(url).body, offset, cfg.maxBytes))
    || r == Answer(web, url, docs(url), offset, StreamPage(docs(url).body, offset, cfg.maxBytes))
  }

  ghost predicate TrueSnapshot(cfg: Config, docs: Text -> Document, e: Slot<DocEntry>) {
    var doc := docs(RestOf(e.key));
    && Sound(cfg)
    && e.value == DocEntry(Kept(cfg, doc), doc.status, doc.contentType)
    && (|doc.body| <= cfg.cacheBudget || OffByOne(cfg, doc))
  }

  ghost predicate TrueResult(cfg: Config, web: Web, docs: Text -> Document, e: Slot<Result>) {
    && NumberOf(e.key) >= 0
    && TrueAnswer(cfg, web, docs, RestOf(PairOf(e.key)), NumberOf(e.key), e.value)
  }

  ghost predicate TrueCaches(cfg: Config, web: Web, docs: Text -> Document, c: Caches) {
    && Distinct(c.snapshots) && Distinct(c.results)
    && (forall i :: 0 <= i < |c.snapshots| ==> TrueSnapshot(cfg, docs, c.snapshots[i]))
    && (forall i :: 0 <= i < |c.results| ==> TrueResult(cfg, web, docs, c.results[i]))
  }

  /** What a call may be answered with: the truth, or for the misjudged length
      the page of the document without its last byte. */
  ghost predicate Admissible(cfg: Config, web: Web, docs: Text -> Document, call: Call, r: Result)
    requires Sound(cfg) && call.offset >= 0
  {
    var doc := docs(call.rawURL);
    || TrueAnswer(cfg, web, docs, call.rawURL, call.offset, r)
    || (OffByOne(cfg, doc)
        && r == Answer(web, call.rawURL, doc, call.offset, PageFrom(Kept(cfg, doc), call.offset, cfg.maxBytes)))
  }

  ghost predicate ProcOk(cfg: Config, web: Web, docs: Text -> Document, ph: Phase)
    requires Sound(cfg)
  {
    match ph
    case Finished(call, Success(r)) => call.offset >= 0 && Admissible(cfg, web, docs, call, r)
    case Finished(_, Failure(_)) => true
    case _ => NulFree(ph.call.cacheKey)
  }

  // ------------------------------------------------------ step by step truth

  lemma SnapKeyParses(call: Call)
    requires NulFree(call.cacheKey)
    ensures CallerOf(SnapKey(call)) == call.cacheKey && RestOf(SnapKey(call)) == call.rawURL
  {
    PairKeyParses(call.cacheKey, call.rawURL);
  }

  lemma ResultKeyParses(call: Call)
    requires NulFree(call.cacheKey) && call.offset >= 0
    ensures PairOf(ResultKey(call)) == SnapKey(call)
    ensures RestOf(PairOf(ResultKey(call))) == call.rawURL && NumberOf(ResultKey(call)) == call.offset
  {
    TripleKeyParses(call.cacheKey, call.rawURL, call.offset);
    SnapKeyParses(call);
  }

  lemma LookResultsTrue(cfg: Config, web: Web, docs: Text -> Document, c: Caches, call: Call, now: int)
    requires Sound(cfg) && TrueCaches(cfg, web, docs, c) && NulFree(call.cacheKey) && call.offset >= 0
    ensures var (d, hit) := LookResults(cfg, c, call, now);
            && TrueCaches(cfg, web, docs, d)
            && (hit.Some? ==> TrueAnswer(cfg, web, docs, call.rawURL, call.offset, hit.value))
  {
    if call.cacheKey != [] {
      ResultKeyParses(call);
      GetSlots(c.results, ResultKey(call), now, cfg.ttl);
    }
  }

  lemma LookSnapshotsTrue(cfg: Config, web: Web, docs: Text -> Document, c: Caches, call: Call, now: int)
    requires Sound(cfg) && TrueCaches(cfg, web, docs, c) && NulFree(call.cacheKey) && call.offset >= 0
    ensures var (d, hit) := LookSnapshots(cfg, web, c, call, now);
            && TrueCaches(cfg, web, docs, d)
            && (hit.Some? ==> Admissible(cfg, web, docs, call, hit.value))
  {
    if call.cacheKey != [] {
      SnapKeyParses(call);
      GetSlots(c.snapshots, SnapKey(call), now, cfg.ttl);
      var doc := docs(call.rawURL);
      if |doc.body| <= cfg.cacheBudget { assert Kept(cfg, doc) == doc.body; }
    }
  }

  lemma StoreResultTrue(cfg: Config, web: Web, docs: Text -> Document, c: Caches, call: Call, r: Result, now: int)
    requires Sound(cfg) && TrueCaches(cfg, web, docs, c) && NulFree(call.cacheKey) && call.offset >= 0
    requires TrueAnswer(cfg, web, docs, call.rawURL, call.offset, r)
    ensures TrueCaches(cfg, web, docs, StoreResult(cfg, c, call, r, now))
  {
    if call.cacheKey != [] {
      ResultKeyParses(call);
      PutSlots(c.results, ResultKey(call), r, |r.content|, now, cfg.cacheBudget);
    }
  }

  lemma ArriveCapturingTrue(
    cfg: Config, web: Web, docs: Text -> Document, c: Caches, call: Call, body: Body, finished: bool, now: int)
    requires Sound(cfg) && TrueCaches(cfg, web, docs, c) && NulFree(call.cacheKey) && call.offset == 0
    requires var doc := docs(call.rawURL);
             Carries(body, doc.body) && (doc.declared ==> |doc.body| <= cfg.cacheBudget)
    ensures var doc := docs(call.rawURL);
            var (d, out) := ArriveCapturing(cfg, web, c, call, doc.status, doc.contentType, body, finished, now);
            && TrueCaches(cfg, web, docs, d)
            && (out.Success? ==> TrueAnswer(cfg, web, docs, call.rawURL, 0, out.result))
  {
    var doc := docs(call.rawURL);
    FirstPageIndependentOfCapture(body, doc.body, cfg.maxBytes, cfg.cacheBudget, finished);
    CaptureExactly(body, cfg.maxBytes, cfg.cacheBudget, finished);
    var r := Answer(web, call.rawURL, doc, 0, PageFrom(doc.body, 0, cfg.maxBytes));
    StoreResultTrue(cfg, web, docs, c, call, r, now);
    match CaptureOutcome(body, cfg.maxBytes, cfg.cacheBudget, finished)
    case CaptureFailed =>
    case PageOnly(_) =>
    case Whole(whole) =>
      if |whole| <= cfg.cacheBudget {
        SnapKeyParses(call);
        assert whole == Kept(cfg, doc);
        var d := DocEntry(whole, doc.status, doc.contentType);
        PutSlots(c.snapshots, SnapKey(call), d, |whole|, now, cfg.cacheBudget);
      }
  }

  lemma ArriveTrue(
    cfg: Config, web: Web, docs: Text -> Document, c: Caches, call: Call, reply: Fetch.Reply, finished: bool, now: int)
    requires Sound(cfg) && TrueCaches(cfg, web, docs, c) && NulFree(call.cacheKey) && call.offset >= 0
    requires Serves(reply, docs(call.rawURL))
    ensures var (d, out) := Arrive(cfg, web, c, call, reply, finished, now);
            && TrueCaches(cfg, web, docs, d)
            && (out.Success? ==> TrueAnswer(cfg, web, docs, call.rawURL, call.offset, out.result))
  {
    if reply.Response? && 200 <= reply.status <= 299 {
      var doc := docs(call.rawURL);
      if Captures(cfg, call, reply.contentLength) {
        ArriveCapturingTrue(cfg, web, docs, c, call, reply.body, finished, now);
      } else {
        ReadIsTheDocuments(reply.body, doc.body, cfg.maxBytes, call.offset);
        var r := Answer(web, call.rawURL, doc, call.offset, StreamPage(doc.body, call.offset, cfg.maxBytes));
        StoreResultTrue(cfg, web, docs, c, call, r, now);
      }
    }
  }

  ghost predicate Inv(cfg: Config, web: Web, docs: Text -> Document, s: System)
    requires Sound(cfg)
  {
    && TrueCaches(cfg, web, docs, s.caches)
    && (forall p :: p in s.procs ==> ProcOk(cfg, web, docs, s.procs[p]))
  }

  lemma StepTrue(cfg: Config, web: Web, docs: Text -> Document, s: System, e: Event)
    requires Sound(cfg) && WellFormed(s.procs) && Inv(cfg, web, docs, s) && Honest(docs, s, e)
    ensures Inv(cfg, web, docs, Step(cfg, web, s, e))
  {
    if e.pid in s.procs && !s.procs[e.pid].Finished? {
      var call := s.procs[e.pid].call;
      assert ProcOk(cfg, web, docs, s.procs[e.pid]);
      match e
      case Begin(_, _, _) =>
      case ProbeResults(_, now) => LookResultsTrue(cfg, web, docs, s.caches, call, now);
      case ProbeSnapshots(_, now) => LookSnapshotsTrue(cfg, web, docs, s.caches, call, now);
      case Reply(pid, reply, finished, now) =>
        if s.procs[pid].AtOrigin? { ArriveTrue(cfg, web, docs, s.caches, call, reply, finished, now); }
    }
  }

  lemma {:induction false} RunTrue(cfg: Config, web: Web, docs: Text -> Document, es: seq<Event>)
    requires Sound(cfg) && GoodRun(cfg, web, docs, es)
    ensures Inv(cfg, web, docs, Run(cfg, web, es))
  {
    if es != [] {
      RunTrue(cfg, web, docs, es[..|es| - 1]);
      StepTrue(cfg, web, docs, Run(cfg, web, es[..|es| - 1]), es[|es| - 1]);
    }
  }

  // ------------------------------------------------------------ the theorems

  /** pid's call has returned r. */
  ghost predicate Returned(s: System, pid: nat, call: Call, r: Result) {
    pid in s.procs && s.procs[pid] == Finished(call, Success(r))
  }

  /** Cache transparency: in every run, whatever was cached, evicted, expired,
      timed out or failed in between, a successful call returns exactly what
      the uncached stream route returns, wherever the two routes agree and the
      page does not reach the lost byte of the misjudged length. */
  lemma Transparency(
    cfg: Config, web: Web, docs: Text -> Document, es: seq<Event>, pid: nat, call: Call, r: Result)
    requires Sound(cfg) && GoodRun(cfg, web, docs, es) && Returned(Run(cfg, web, es), pid, call, r)
    requires !Misjudged(cfg, docs(call.rawURL), call.offset)
    requires call.offset >= 0 ==> RoutesAgree(docs(call.rawURL).body, call.offset, cfg.maxBytes)
    ensures call.offset >= 0
    ensures var doc := docs(call.rawURL);
            && r == Answer(web, call.rawURL, doc, call.offset, StreamPage(doc.body, call.offset, cfg.maxBytes))
            && r == Answer(web, call.rawURL, doc, call.offset, PageFrom(doc.body, call.offset, cfg.maxBytes))
  {
    RunTrue(cfg, web, docs, es);
    assert ProcOk(cfg, web, docs, Run(cfg, web, es).procs[pid]);
    var doc := docs(call.rawURL);
    RoutesAgreeExactly(doc.body, call.offset, cfg.maxBytes);
    if OffByOne(cfg, doc) { ShortSnapshotExactly(doc.body, cfg.maxBytes, cfg.cacheBudget, call.offset); }
  }

  /** In particular for valid UTF-8 at every rune-aligned offset. */
  lemma AlignedTransparency(
    cfg: Config, web: Web, docs: Text -> Document, es: seq<Event>, pid: nat, call: Call, r: Result)
    requires Sound(cfg) && GoodRun(cfg, web, docs, es) && Returned(Run(cfg, web, es), pid, call, r)
    requires var body := docs(call.rawURL).body;
             Valid(body) && 0 <= call.offset <= |body| && Valid(body[..call.offset])
    requires !Misjudged(cfg, docs(call.rawURL), call.offset)
    ensures var doc := docs(call.rawURL);
            && r == Answer(web, call.rawURL, doc, call.offset, StreamPage(doc.body, call.offset, cfg.maxBytes))
            && r == Answer(web, call.rawURL, doc, call.offset, PageFrom(doc.body, call.offset, cfg.maxBytes))
  {
    AlignedRoutesAgree(docs(call.rawURL).body, call.offset, cfg.maxBytes);
    Transparency(cfg, web, docs, es, pid, call, r);
  }

  /** Caching never makes a fetch fail: a reply fails a caching call exactly
      when it fails the same call made without a cache key, with the same
      error, however the capture ends. */
  lemma CachingNeverFails(
    cfg: Config, web: Web, c: Caches, call: Call, reply: Fetch.Reply, finished: bool, finished': bool, now: int)
    requires call.offset >= 0
    ensures var out := Arrive(cfg, web, c, call, reply, finished, now).1;
            var plain := Arrive(cfg, web, c, call.(cacheKey := []), reply, finished', now).1;
            (out.Failure? <==> plain.Failure?) && (out.Failure? ==> out == plain)
  {
  }

  /** And over a whole call: if it fails, it would have failed uncached. */
  lemma FailsOnlyIfUncachedFails(
    cfg: Config, web: Web, c: Caches, call: Call, reply: Fetch.Reply, finished: bool, t1: int, t2: int, t3: int)
    ensures var out := FetchAlone(cfg, web, c, call, reply, finished, t1, t2, t3).1;
            out.Failure? ==> out == FetchAlone(cfg, web, c, call.(cacheKey := []), reply, finished, t1, t2, t3).1
  {
    if call.offset >= 0 {
      var c2 := LookSnapshots(cfg, web, LookResults(cfg, c, call, t1).0, call, t2).0;
      CachingNeverFails(cfg, web, c2, call, reply, finished, finished, t3);
    }
  }

  /** Snapshots are whole documents: in every run, including streams that fail
      mid-read, a stored body is the origin's body exactly when that body fits
      the budget; otherwise it is the misjudged length, short by one byte. */
  lemma SnapshotsAreWhole(cfg: Config, web: Web, docs: Text -> Document, es: seq<Event>, i: nat)
    requires Sound(cfg) && GoodRun(cfg, web, docs, es) && i < |Run(cfg, web, es).caches.snapshots|
    ensures var e := Run(cfg, web, es).caches.snapshots[i];
            var doc := docs(RestOf(e.key));
            && (e.value.body == doc.body <==> !OffByOne(cfg, doc))
            && (OffByOne(cfg, doc) ==> e.value.body == doc.body[..|doc.body| - 1])
            && e.value.statusCode == doc.status && e.value.contentType == doc.contentType
  {
    RunTrue(cfg, web, docs, es);
    var e := Run(cfg, web, es).caches.snapshots[i];
    assert TrueSnapshot(cfg, docs, e);
  }

  /** How the misjudged length shows: which pages of the shortened document
      are wrong. */
  lemma ShortSnapshotExactly(body: Text, maxBytes: nat, budget: nat, offset: nat)
    requires |body| == budget + 1
    ensures PageFrom(body[..budget], offset, maxBytes) == PageFrom(body, offset, maxBytes)
            <==> offset + maxBytes < budget || offset > budget
  {
    var short := body[..budget];
    PageMeaningAt(short, offset, maxBytes);
    PageMeaningAt(body, offset, maxBytes);
    if offset + maxBytes < budget {
      assert short[offset..offset + maxBytes] == body[offset..offset + maxBytes];
    }
  }

  lemma PageMeaningAt(body: Text, offset: nat, maxBytes: nat)
    ensures var p := PageFrom(body, offset, maxBytes);
            && (p.truncated <==> offset + maxBytes < |body|)
            && (offset <= |body| && !p.truncated ==> |p.content| == |body| - offset)
  {
    if offset <= |body| { PageMeaning(body, offset, maxBytes); }
  }

  /** The loss happens: a clean, unannounced body one byte over budget is
      captured without its last byte, and the next call for it is answered
      from that snapshot. */
  lemma OneByteIsLost(cfg: Config, web: Web, c: Caches, call: Call, doc: Document, eager: bool, now: int, offset: nat)
    requires Sound(cfg) && Distinct(c.snapshots) && OffByOne(cfg, doc)
    requires call.cacheKey != [] && call.offset == 0 && 200 <= doc.status <= 299
    ensures var reply := Response(doc.status, doc.contentType, -1, Body(doc.body, CleanEof, eager));
            var (d, _) := Arrive(cfg, web, c, call, reply, true, now);
            var short := doc.body[..cfg.cacheBudget];
            && Serves(reply, doc)
            && LookSnapshots(cfg, web, d, call.(offset := offset), now).1
               == Some(Answer(web, call.rawURL, doc, offset, PageFrom(short, offset, cfg.maxBytes)))
            && (Misjudged(cfg, doc, offset) <==>
                  PageFrom(short, offset, cfg.maxBytes) != PageFrom(doc.body, offset, cfg.maxBytes))
  {
    var b := Body(doc.body, CleanEof, eager);
    var short := doc.body[..cfg.cacheBudget];
    CaptureExactly(b, cfg.maxBytes, cfg.cacheBudget, true);
    assert CaptureOutcome(b, cfg.maxBytes, cfg.cacheBudget, true) == Whole(short);
    var d := DocEntry(short, doc.status, doc.contentType);
    PutIsLongestFit(c.snapshots, SnapKey(call), d, |short|, now, cfg.cacheBudget);
    ShortSnapshotExactly(doc.body, cfg.maxBytes, cfg.cacheBudget, offset);
  }
}
