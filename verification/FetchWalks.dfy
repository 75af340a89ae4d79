/** Consequences for callers over whole runs: an agent's walk rebuilds the
    document, cached answers are the caller's own and recent whatever the origins
    do, and a captured document is not fetched again while its snapshot lives. */
module FetchWalks {
  import opened Bytes
  import opened Utf8
  import opened Pages
  import opened Streams
  import opened Keys
  import opened Lru
  import opened Fetch
  import opened FetchRuns

  // ------------------------------------------------ one call is a short run

  /** The method Fetch is one schedule of the run model: its four steps with
      nothing interleaved. */
  lemma FetchIsARun(
    cfg: Config, web: Web, s: System, pid: nat, call: Call, reply: Fetch.Reply, finished: bool,
    t1: int, t2: int, t3: int)
    requires WellFormed(s.procs) && pid !in s.procs
    ensures var s1 := Step(cfg, web, s, Begin(pid, call, t1));
            var s2 := Step(cfg, web, s1, ProbeResults(pid, t1));
            var s3 := Step(cfg, web, s2, ProbeSnapshots(pid, t2));
            var s4 := Step(cfg, web, s3, Event.Reply(pid, reply, finished, t3));
            var (c, out, contacted) := FetchAlone(cfg, web, s.caches, call, reply, finished, t1, t2, t3);
            && s4.caches == c && pid in s4.procs && s4.procs[pid] == Finished(call, out)
            && (contacted <==> pid in s3.procs && s3.procs[pid].AtOrigin?)
  {
  }

  // ----------------------------------------------------------------- repeats

  lemma PageWithinLimit(bytes: Text, truncated: bool, offset: nat, maxBytes: nat)
    ensures |PageOfChunk(bytes, truncated, offset, maxBytes).content| <= maxBytes
  {
    CutPrefix(if |bytes| > maxBytes then bytes[..maxBytes] else bytes);
  }

  lemma MissIsAbsent<V>(s: seq<Slot<V>>, k: Key, now: int, ttl: int)
    requires Distinct(s) && GetStep(s, k, now, ttl).1.None?
    ensures var r := GetStep(s, k, now, ttl).0; Distinct(r) && Lookup(r, k).None?
  {
    GetSlots(s, k, now, ttl);
    WithoutDistinct(s, k);
    FindFirst(s, k);
  }

  lemma StoredIsFound(cfg: Config, c: Caches, call: Call, r: Result, now: int, later: int)
    requires Sound(cfg) && Distinct(c.results) && call.offset >= 0 && call.cacheKey != []
    requires |r.content| <= cfg.cacheBudget && later - now <= cfg.ttl
    ensures LookResults(cfg, StoreResult(cfg, c, call, r, now), call, later).1 == Some(r)
  {
    PutIsLongestFit(c.results, ResultKey(call), r, |r.content|, now, cfg.cacheBudget);
  }

  /** What one origin contact leaves behind: a success is in the result cache
      or pageable from a snapshot, a failure leaves both caches as they were. */
  lemma ContactLeaves(
    cfg: Config, web: Web, c: Caches, call: Call, reply: Fetch.Reply, finished: bool, now: int, later: int)
    requires Sound(cfg) && Distinct(c.results) && Distinct(c.snapshots)
    requires call.offset >= 0 && call.cacheKey != [] && later - now <= cfg.ttl
    ensures var (d, out) := Arrive(cfg, web, c, call, reply, finished, now);
            match out
            case Failure(_) => d == c
            case Success(r) =>
              || LookResults(cfg, d, call, later).1 == Some(r)
              || (d.results == c.results && LookSnapshots(cfg, web, d, call, later).1 == Some(r))
  {
    var (d, out) := Arrive(cfg, web, c, call, reply, finished, now);
    if out.Success? {
      if Captures(cfg, call, reply.contentLength) {
        var o := CaptureOutcome(reply.body, cfg.maxBytes, cfg.cacheBudget, finished);
        var bytes := if o.Whole? then o.body else o.page;
        PageMeaning(bytes, 0, cfg.maxBytes);
        if o.Whole? && |o.body| <= cfg.cacheBudget {
          CaptureIsResident(cfg, web, c, call, reply.status, reply.contentType, reply.body, finished, now);
        } else {
          StoredIsFound(cfg, c, call, out.result, now, later);
        }
      } else {
        var o := ReadOutcome(reply.body, cfg.maxBytes, call.offset);
        PageWithinLimit(o.bytes, o.truncated, call.offset, cfg.maxBytes);
        StoredIsFound(cfg, c, call, out.result, now, later);
      }
    }
  }

  /** An identical repeat within the ttl gets the identical answer with no
      origin contact, whatever the origin would say by then; after a failure
      the repeat does contact it again. */
  lemma RepeatIsLocal(
    cfg: Config, web: Web, c: Caches, call: Call, reply: Fetch.Reply, finished: bool, t1: int, t2: int, t3: int,
    reply': Fetch.Reply, finished': bool, u1: int, u2: int, u3: int)
    requires Sound(cfg) && Distinct(c.results) && Distinct(c.snapshots) && call.cacheKey != []
    requires u1 - t3 <= cfg.ttl && u2 - t3 <= cfg.ttl
    requires FetchAlone(cfg, web, c, call, reply, finished, t1, t2, t3).2
    ensures var (d, out, _) := FetchAlone(cfg, web, c, call, reply, finished, t1, t2, t3);
            var (_, again, contacted) := FetchAlone(cfg, web, d, call, reply', finished', u1, u2, u3);
            if out.Success? then again == out && !contacted else contacted
  {
    var c1 := LookResults(cfg, c, call, t1).0;
    var c2 := LookSnapshots(cfg, web, c1, call, t2).0;
    MissIsAbsent(c.results, ResultKey(call), t1, cfg.ttl);
    MissIsAbsent(c.snapshots, SnapKey(call), t2, cfg.ttl);
    ContactLeaves(cfg, web, c2, call, reply, finished, t3, u1);
    ContactLeaves(cfg, web, c2, call, reply, finished, t3, u2);
  }

  // ---------------------------------------------------------------- the walk

  ghost predicate Succeeded(s: System, p: nat) {
    p in s.procs && s.procs[p].Finished? && s.procs[p].outcome.Success?
  }

  function CallAt(s: System, p: nat): Call
    requires p in s.procs
  {
    s.procs[p].call
  }

  function ResultAt(s: System, p: nat): Result
    requires Succeeded(s, p)
  {
    s.procs[p].outcome.result
  }

  /** pids are calls an agent has made for url so far: start at 0, always ask for
      the last next_offset while truncated is true. Any caller, any cache state
      and any other traffic may lie between two of them. */
  ghost predicate AgentCalls(s: System, pids: seq<nat>, url: Text) {
    && pids != []
    && (forall i :: 0 <= i < |pids| ==> Succeeded(s, pids[i]) && CallAt(s, pids[i]).rawURL == url)
    && CallAt(s, pids[0]).offset == 0
    && (forall i :: 0 <= i < |pids| - 1 ==>
          && ResultAt(s, pids[i]).truncated
          && CallAt(s, pids[i + 1]).offset == ResultAt(s, pids[i]).nextOffset)
  }

  /** The agent has stopped: the last page was not truncated. */
  ghost predicate AgentWalk(s: System, pids: seq<nat>, url: Text) {
    AgentCalls(s, pids, url) && !ResultAt(s, pids[|pids| - 1]).truncated
  }

  ghost function Contents(s: System, pids: seq<nat>): (got: seq<Text>)
    requires forall i :: 0 <= i < |pids| ==> Succeeded(s, pids[i])
    ensures |got| == |pids|
  {
    if pids == [] then [] else [ResultAt(s, pids[0]).content] + Contents(s, pids[1..])
  }

  /** For any bytes a truncated answer is always the document's page. An answer
      says truncated exactly when the document goes on past its page; the one
      exception is the page that ends where the misjudged length was cut. */
  lemma TruncatedAnswerIsTrue(
    cfg: Config, web: Web, docs: Text -> Document, es: seq<Event>, p: nat, call: Call, r: Result)
    requires Sound(cfg) && GoodRun(cfg, web, docs, es) && Returned(Run(cfg, web, es), p, call, r)
    ensures var doc := docs(call.rawURL);
            && call.offset >= 0
            && (r.truncated ==>
                  && call.offset + cfg.maxBytes < |doc.body|
                  && r == Answer(web, call.rawURL, doc, call.offset, PageFrom(doc.body, call.offset, cfg.maxBytes)))
            && (call.offset + cfg.maxBytes < |doc.body| ==>
                  r.truncated || (OffByOne(cfg, doc) && call.offset + cfg.maxBytes == cfg.cacheBudget))
  {
    RunTrue(cfg, web, docs, es);
    assert ProcOk(cfg, web, docs, Run(cfg, web, es).procs[p]);
    var doc := docs(call.rawURL);
    PageMeaningAt(doc.body, call.offset, cfg.maxBytes);
    RoutesAgreeExactly(doc.body, call.offset, cfg.maxBytes);
    if OffByOne(cfg, doc) {
      PageMeaningAt(Kept(cfg, doc), call.offset, cfg.maxBytes);
      ShortSnapshotExactly(doc.body, cfg.maxBytes, cfg.cacheBudget, call.offset);
    }
  }

  /** Every call but the last lies inside the document, and the next one starts
      where its page ends. */
  lemma NextCall(
    cfg: Config, web: Web, docs: Text -> Document, es: seq<Event>, pids: seq<nat>, url: Text, i: nat)
    requires Sound(cfg) && GoodRun(cfg, web, docs, es) && AgentCalls(Run(cfg, web, es), pids, url)
    requires i + 1 < |pids|
    ensures var s, body := Run(cfg, web, es), docs(url).body;
            var o := CallAt(s, pids[i]).offset;
            && 0 <= o < |body|
            && var p := PageFrom(body, o, cfg.maxBytes);
            && p.truncated && ResultAt(s, pids[i]).content == p.content && CallAt(s, pids[i + 1]).offset == p.next
            && p.next == o + |p.content| <= |body|
  {
    var s := Run(cfg, web, es);
    var call, r := CallAt(s, pids[i]), ResultAt(s, pids[i]);
    TruncatedAnswerIsTrue(cfg, web, docs, es, pids[i], call, r);
    PageMeaning(docs(url).body, call.offset, cfg.maxBytes);
  }

  lemma {:induction false} CallsInside(
    cfg: Config, web: Web, docs: Text -> Document, es: seq<Event>, pids: seq<nat>, url: Text, i: nat)
    requires Sound(cfg) && GoodRun(cfg, web, docs, es) && AgentCalls(Run(cfg, web, es), pids, url)
    requires i < |pids|
    ensures 0 <= CallAt(Run(cfg, web, es), pids[i]).offset <= |docs(url).body|
  {
    if i > 0 { NextCall(cfg, web, docs, es, pids, url, i - 1); }
  }

  /** On valid text every call starts on a rune boundary, and with pages of at
      least 4 bytes each has advanced by maxBytes - 3 or more. */
  lemma {:induction false} CallsAligned(
    cfg: Config, web: Web, docs: Text -> Document, es: seq<Event>, pids: seq<nat>, url: Text, i: nat)
    requires Sound(cfg) && GoodRun(cfg, web, docs, es) && AgentCalls(Run(cfg, web, es), pids, url)
    requires Valid(docs(url).body) && i < |pids|
    ensures var o := CallAt(Run(cfg, web, es), pids[i]).offset;
            && 0 <= o <= |docs(url).body| && Valid(docs(url).body[..o])
            && (cfg.maxBytes >= 4 ==> Times(i, cfg.maxBytes - 3) <= o)
  {
    var body := docs(url).body;
    if i == 0 {
      assert body[..0] == [];
    } else {
      CallsAligned(cfg, web, docs, es, pids, url, i - 1);
      NextCall(cfg, web, docs, es, pids, url, i - 1);
      AlignedPage(body, CallAt(Run(cfg, web, es), pids[i - 1]).offset, cfg.maxBytes);
    }
  }

  lemma AgentAdvances(
    cfg: Config, web: Web, docs: Text -> Document, es: seq<Event>, pids: seq<nat>, url: Text)
    requires Sound(cfg) && GoodRun(cfg, web, docs, es) && AgentCalls(Run(cfg, web, es), pids, url)
    requires Valid(docs(url).body) && cfg.maxBytes >= 4
    ensures Paced(|pids|, cfg.maxBytes, |docs(url).body|)
  {
    CallsAligned(cfg, web, docs, es, pids, url, |pids| - 1);
  }

  /** Termination in the runs: whatever lies between its calls, an agent that
      follows next_offset through a valid document, with pages of at least 4
      bytes, makes at most len/(maxBytes-3)+1 successful calls. */
  lemma AgentStops(
    cfg: Config, web: Web, docs: Text -> Document, es: seq<Event>, pids: seq<nat>, url: Text)
    requires Sound(cfg) && GoodRun(cfg, web, docs, es) && AgentCalls(Run(cfg, web, es), pids, url)
    requires Valid(docs(url).body) && cfg.maxBytes >= 4
    ensures |pids| <= PageBound(|docs(url).body|, cfg.maxBytes)
  {
    AgentAdvances(cfg, web, docs, es, pids, url);
    PageCount(|pids|, cfg.maxBytes, |docs(url).body|);
  }

  /** The routes agree on the page the agent stopped at. */
  ghost predicate LastPageAgrees(cfg: Config, s: System, pids: seq<nat>, url: Text, body: Text)
    requires AgentWalk(s, pids, url)
  {
    var o := CallAt(s, pids[|pids| - 1]).offset;
    o >= 0 && RoutesAgree(body, o, cfg.maxBytes)
  }

  lemma ValidLastPageAgrees(
    cfg: Config, web: Web, docs: Text -> Document, es: seq<Event>, pids: seq<nat>, url: Text)
    requires Sound(cfg) && GoodRun(cfg, web, docs, es) && AgentWalk(Run(cfg, web, es), pids, url)
    requires Valid(docs(url).body)
    ensures LastPageAgrees(cfg, Run(cfg, web, es), pids, url, docs(url).body)
  {
    CallsAligned(cfg, web, docs, es, pids, url, |pids| - 1);
    AlignedRoutesAgree(docs(url).body, CallAt(Run(cfg, web, es), pids[|pids| - 1]).offset, cfg.maxBytes);
  }

  /** The last call's page is where the loop over next_offset stops. */
  lemma LastCallFollows(
    cfg: Config, web: Web, docs: Text -> Document, es: seq<Event>, p: nat, call: Call, r: Result)
    requires Sound(cfg) && GoodRun(cfg, web, docs, es) && Returned(Run(cfg, web, es), p, call, r)
    requires !OffByOne(cfg, docs(call.rawURL)) && !r.truncated
    requires 0 <= call.offset <= |docs(call.rawURL).body|
    requires RoutesAgree(docs(call.rawURL).body, call.offset, cfg.maxBytes)
    ensures Follow(docs(call.rawURL).body, cfg.maxBytes, call.offset) == Done([r.content])
  {
    Transparency(cfg, web, docs, es, p, call, r);
  }

  lemma FollowOn(body: Text, maxBytes: nat, o: nat, rest: seq<Text>)
    requires o < |body|
    requires var p := PageFrom(body, o, maxBytes);
             p.truncated && o <= p.next <= |body| && Follow(body, maxBytes, p.next) == Done(rest)
    ensures Follow(body, maxBytes, o) == Done([PageFrom(body, o, maxBytes).content] + rest)
  {
  }

  lemma {:induction false} WalkFollows(
    cfg: Config, web: Web, docs: Text -> Document, es: seq<Event>, pids: seq<nat>, url: Text, i: nat)
    requires Sound(cfg) && GoodRun(cfg, web, docs, es) && AgentWalk(Run(cfg, web, es), pids, url)
    requires LastPageAgrees(cfg, Run(cfg, web, es), pids, url, docs(url).body)
    requires !OffByOne(cfg, docs(url)) && i < |pids|
    ensures var s := Run(cfg, web, es);
            var o := CallAt(s, pids[i]).offset;
            0 <= o <= |docs(url).body|
            && Follow(docs(url).body, cfg.maxBytes, o) == Done(Contents(s, pids[i..]))
    decreases |pids| - i
  {
    var s, body := Run(cfg, web, es), docs(url).body;
    var call, r := CallAt(s, pids[i]), ResultAt(s, pids[i]);
    CallsInside(cfg, web, docs, es, pids, url, i);
    assert pids[i..][1..] == pids[i + 1..];
    if i + 1 < |pids| {
      NextCall(cfg, web, docs, es, pids, url, i);
      WalkFollows(cfg, web, docs, es, pids, url, i + 1);
      FollowOn(body, cfg.maxBytes, call.offset, Contents(s, pids[i + 1..]));
    } else {
      LastCallFollows(cfg, web, docs, es, pids[i], call, r);
      assert Contents(s, pids[i + 1..]) == [];
    }
  }

  lemma FollowedPages(body: Text, maxBytes: nat, got: seq<Text>)
    requires Follow(body, maxBytes, 0) == Done(got)
    ensures Joined(got) == body
    ensures Valid(body) ==> AllValid(got)
  {
    assert body[..0] == [] && body[0..] == body;
    FinishedWalkIsLossless(body, maxBytes, 0);
    if Valid(body) { WalkPagesValid(body, maxBytes, 0); }
  }

  /** The i-th page of a walk ends where the next one starts. */
  ghost predicate Linked(s: System, body: Text, pids: seq<nat>, i: nat) {
    && i + 1 < |pids| && Succeeded(s, pids[i]) && Succeeded(s, pids[i + 1])
    && 0 <= CallAt(s, pids[i]).offset <= CallAt(s, pids[i + 1]).offset <= |body|
    && ResultAt(s, pids[i]).content == body[CallAt(s, pids[i]).offset..CallAt(s, pids[i + 1]).offset]
  }

  lemma CallsLinked(
    cfg: Config, web: Web, docs: Text -> Document, es: seq<Event>, pids: seq<nat>, url: Text, i: nat)
    requires Sound(cfg) && GoodRun(cfg, web, docs, es) && AgentCalls(Run(cfg, web, es), pids, url)
    requires i + 1 < |pids|
    ensures Linked(Run(cfg, web, es), docs(url).body, pids, i)
  {
    NextCall(cfg, web, docs, es, pids, url, i);
    PageMeaning(docs(url).body, CallAt(Run(cfg, web, es), pids[i]).offset, cfg.maxBytes);
  }

  lemma JoinedStep(s: System, pids: seq<nat>, i: nat)
    requires i < |pids| && forall k :: 0 <= k < |pids| ==> Succeeded(s, pids[k])
    ensures Joined(Contents(s, pids[i..])) == ResultAt(s, pids[i]).content + Joined(Contents(s, pids[i + 1..]))
  {
    assert pids[i..][1..] == pids[i + 1..];
    assert Contents(s, pids[i..])[1..] == Contents(s, pids[i + 1..]);
  }

  lemma PagePutBefore(body: Text, a: nat, b: nat, c: nat, tail: Text)
    requires a <= b <= c <= |body|
    ensures body[a..b] + (body[b..c] + tail) == body[a..c] + tail
  {
  }

  /** All but the last page of a walk lie end to end in the document. */
  lemma {:induction false} LinkedJoin(s: System, body: Text, pids: seq<nat>, i: nat)
    requires i < |pids| && forall k :: 0 <= k < |pids| ==> Succeeded(s, pids[k])
    requires forall k :: 0 <= k < |pids| - 1 ==> Linked(s, body, pids, k)
    requires Succeeded(s, pids[i]) && Succeeded(s, pids[|pids| - 1])
    requires 0 <= CallAt(s, pids[|pids| - 1]).offset <= |body|
    ensures var o, last := CallAt(s, pids[i]).offset, pids[|pids| - 1];
            && 0 <= o <= CallAt(s, last).offset
            && Joined(Contents(s, pids[i..])) == body[o..CallAt(s, last).offset] + ResultAt(s, last).content
    decreases |pids| - i
  {
    var o, last := CallAt(s, pids[i]).offset, pids[|pids| - 1];
    JoinedStep(s, pids, i);
    if i + 1 < |pids| {
      assert Linked(s, body, pids, i);
      LinkedJoin(s, body, pids, i + 1);
      PagePutBefore(body, o, CallAt(s, pids[i + 1]).offset, CallAt(s, last).offset, ResultAt(s, last).content);
    } else {
      assert pids[i + 1..] == [] && body[o..o] == [];
    }
  }

  lemma WalkJoins(
    cfg: Config, web: Web, docs: Text -> Document, es: seq<Event>, pids: seq<nat>, url: Text)
    requires Sound(cfg) && GoodRun(cfg, web, docs, es) && AgentCalls(Run(cfg, web, es), pids, url)
    ensures var s, last := Run(cfg, web, es), pids[|pids| - 1];
            && 0 <= CallAt(s, last).offset <= |docs(url).body|
            && Joined(Contents(s, pids)) == docs(url).body[..CallAt(s, last).offset] + ResultAt(s, last).content
  {
    var s := Run(cfg, web, es);
    forall k | 0 <= k < |pids| - 1
      ensures Linked(s, docs(url).body, pids, k)
    {
      CallsLinked(cfg, web, docs, es, pids, url, k);
    }
    CallsInside(cfg, web, docs, es, pids, url, |pids| - 1);
    LinkedJoin(s, docs(url).body, pids, 0);
    assert pids[0..] == pids;
  }

  lemma UntruncatedCompletes(body: Text, offset: nat, maxBytes: nat)
    requires offset <= |body| && !PageFrom(body, offset, maxBytes).truncated
    ensures body[..offset] + PageFrom(body, offset, maxBytes).content == body
  {
    PageMeaning(body, offset, maxBytes);
    assert body == body[..offset] + body[offset..];
  }

  lemma ShortPageCompletes(body: Text, budget: nat, offset: nat, maxBytes: nat)
    requires |body| == budget + 1 && offset <= |body| && !PageFrom(body[..budget], offset, maxBytes).truncated
    ensures var got := body[..offset] + PageFrom(body[..budget], offset, maxBytes).content;
            got == body || got == body[..budget]
  {
    if offset <= budget {
      UntruncatedCompletes(body[..budget], offset, maxBytes);
      assert body[..budget][..offset] == body[..offset];
    } else {
      assert body[..offset] == body;
    }
  }

  /** With the misjudged length the last page completes the document or the
      document without its last byte. */
  lemma LastPageCompletes(
    cfg: Config, web: Web, docs: Text -> Document, es: seq<Event>, p: nat, call: Call, r: Result)
    requires Sound(cfg) && GoodRun(cfg, web, docs, es) && Returned(Run(cfg, web, es), p, call, r)
    requires OffByOne(cfg, docs(call.rawURL)) && !r.truncated
    requires 0 <= call.offset <= |docs(call.rawURL).body|
    requires RoutesAgree(docs(call.rawURL).body, call.offset, cfg.maxBytes)
    ensures var doc := docs(call.rawURL);
            doc.body[..call.offset] + r.content == doc.body || doc.body[..call.offset] + r.content == Kept(cfg, doc)
  {
    RunTrue(cfg, web, docs, es);
    assert ProcOk(cfg, web, docs, Run(cfg, web, es).procs[p]);
    var doc := docs(call.rawURL);
    RoutesAgreeExactly(doc.body, call.offset, cfg.maxBytes);
    if PageFrom(doc.body, call.offset, cfg.maxBytes).content == r.content
       && !PageFrom(doc.body, call.offset, cfg.maxBytes).truncated {
      UntruncatedCompletes(doc.body, call.offset, cfg.maxBytes);
    } else {
      ShortPageCompletes(doc.body, cfg.cacheBudget, call.offset, cfg.maxBytes);
    }
  }

  /** End to end: in every run, the pages an agent collects by following
      next_offset are together exactly the document, for any bytes provided the
      routes agree on the last page. For valid UTF-8 they always do, and every
      page is valid. Only of a document of the misjudged length can the last
      byte, and nothing else, be missing. */
  lemma AgentRebuildsDocument(
    cfg: Config, web: Web, docs: Text -> Document, es: seq<Event>, pids: seq<nat>, url: Text)
    requires Sound(cfg) && GoodRun(cfg, web, docs, es) && AgentWalk(Run(cfg, web, es), pids, url)
    requires Valid(docs(url).body) || LastPageAgrees(cfg, Run(cfg, web, es), pids, url, docs(url).body)
    ensures var got := Contents(Run(cfg, web, es), pids);
            && (!OffByOne(cfg, docs(url)) ==> Joined(got) == docs(url).body)
            && (OffByOne(cfg, docs(url)) ==> Joined(got) == docs(url).body || Joined(got) == Kept(cfg, docs(url)))
            && (Valid(docs(url).body) && !OffByOne(cfg, docs(url)) ==> AllValid(got))
            && (Valid(docs(url).body) && cfg.maxBytes >= 4 ==>
                  |got| <= PageBound(|docs(url).body|, cfg.maxBytes))
  {
    var s, doc := Run(cfg, web, es), docs(url);
    assert pids[0..] == pids;
    if Valid(doc.body) {
      ValidLastPageAgrees(cfg, web, docs, es, pids, url);
      if cfg.maxBytes >= 4 { AgentStops(cfg, web, docs, es, pids, url); }
    }
    if OffByOne(cfg, doc) {
      var last := pids[|pids| - 1];
      WalkJoins(cfg, web, docs, es, pids, url);
      LastPageCompletes(cfg, web, docs, es, last, CallAt(s, last), ResultAt(s, last));
    } else {
      WalkFollows(cfg, web, docs, es, pids, url, 0);
      FollowedPages(doc.body, cfg.maxBytes, Contents(s, pids));
    }
  }

  // ------------------------------------------- where cached answers come from

  /** es[n] is the origin's reply that answered owner's call with r. */
  ghost predicate AnswerEvent(cfg: Config, web: Web, es: seq<Event>, n: nat, owner: Call, r: Result) {
    && n < |es| && es[n].Reply?
    && var s, e := Run(cfg, web, es[..n]), es[n];
    && e.pid in s.procs && s.procs[e.pid] == AtOrigin(owner)
    && Arrive(cfg, web, s.caches, owner, e.reply, e.finished, e.now).1 == Success(r)
  }

  /** es[n] is the origin's reply to owner's first fetch, read to its end and
      stored as d. */
  ghost predicate CaptureEvent(cfg: Config, web: Web, es: seq<Event>, n: nat, owner: Call, d: DocEntry) {
    && n < |es| && es[n].Reply? && es[n].reply.Response?
    && var s, e := Run(cfg, web, es[..n]), es[n];
    && e.pid in s.procs && s.procs[e.pid] == AtOrigin(owner)
    && 200 <= e.reply.status <= 299 && Captures(cfg, owner, e.reply.contentLength)
    && CaptureOutcome(e.reply.body, cfg.maxBytes, cfg.cacheBudget, e.finished) == Whole(d.body)
    && |d.body| <= cfg.cacheBudget && d.statusCode == e.reply.status && d.contentType == e.reply.contentType
  }

  /** e holds what some reply answered, under the key of the call it answered,
      stamped with the time of that reply. */
  ghost predicate ResultTraced(cfg: Config, web: Web, es: seq<Event>, e: Slot<Result>) {
    exists n: nat, owner: Call ::
      && AnswerEvent(cfg, web, es, n, owner, e.value)
      && owner.offset >= 0 && ResultKey(owner) == e.key && es[n].now == e.storedAt
  }

  ghost predicate SnapshotTraced(cfg: Config, web: Web, es: seq<Event>, e: Slot<DocEntry>) {
    exists n: nat, owner: Call ::
      CaptureEvent(cfg, web, es, n, owner, e.value) && SnapKey(owner) == e.key && es[n].now == e.storedAt
  }

  ghost predicate AllResultsTraced(cfg: Config, web: Web, es: seq<Event>, c: seq<Slot<Result>>) {
    Distinct(c) && forall i :: 0 <= i < |c| ==> ResultTraced(cfg, web, es, c[i])
  }

  ghost predicate AllSnapshotsTraced(cfg: Config, web: Web, es: seq<Event>, c: seq<Slot<DocEntry>>) {
    Distinct(c) && forall i :: 0 <= i < |c| ==> SnapshotTraced(cfg, web, es, c[i])
  }

  lemma ResultTraceExtends(cfg: Config, web: Web, es: seq<Event>, e: Slot<Result>)
    requires es != [] && ResultTraced(cfg, web, es[..|es| - 1], e)
    ensures ResultTraced(cfg, web, es, e)
  {
    var b := es[..|es| - 1];
    var n: nat, owner: Call :| AnswerEvent(cfg, web, b, n, owner, e.value)
                    && owner.offset >= 0 && ResultKey(owner) == e.key && b[n].now == e.storedAt;
    assert b[..n] == es[..n] && b[n] == es[n];
    assert AnswerEvent(cfg, web, es, n, owner, e.value);
  }

  lemma SnapshotTraceExtends(cfg: Config, web: Web, es: seq<Event>, e: Slot<DocEntry>)
    requires es != [] && SnapshotTraced(cfg, web, es[..|es| - 1], e)
    ensures SnapshotTraced(cfg, web, es, e)
  {
    var b := es[..|es| - 1];
    var n: nat, owner: Call :| CaptureEvent(cfg, web, b, n, owner, e.value)
                    && SnapKey(owner) == e.key && b[n].now == e.storedAt;
    assert b[..n] == es[..n] && b[n] == es[n];
    assert CaptureEvent(cfg, web, es, n, owner, e.value);
  }

  lemma SameResultsTraced(cfg: Config, web: Web, es: seq<Event>, a: seq<Slot<Result>>, b: seq<Slot<Result>>)
    requires es != [] && AllResultsTraced(cfg, web, es[..|es| - 1], a)
    requires Distinct(b) && forall i :: 0 <= i < |b| ==> b[i] in a || ResultTraced(cfg, web, es, b[i])
    ensures AllResultsTraced(cfg, web, es, b)
  {
    forall i | 0 <= i < |b|
      ensures ResultTraced(cfg, web, es, b[i])
    {
      if b[i] in a { ResultTraceExtends(cfg, web, es, b[i]); }
    }
  }

  lemma SameSnapshotsTraced(cfg: Config, web: Web, es: seq<Event>, a: seq<Slot<DocEntry>>, b: seq<Slot<DocEntry>>)
    requires es != [] && AllSnapshotsTraced(cfg, web, es[..|es| - 1], a)
    requires Distinct(b) && forall i :: 0 <= i < |b| ==> b[i] in a || SnapshotTraced(cfg, web, es, b[i])
    ensures AllSnapshotsTraced(cfg, web, es, b)
  {
    forall i | 0 <= i < |b|
      ensures SnapshotTraced(cfg, web, es, b[i])
    {
      if b[i] in a { SnapshotTraceExtends(cfg, web, es, b[i]); }
    }
  }

  lemma CapturingStoresResult(
    cfg: Config, web: Web, c: Caches, call: Call, status: int, contentType: Text, body: Body, finished: bool, now: int)
    requires call.offset == 0
    ensures var (t, out) := ArriveCapturing(cfg, web, c, call, status, contentType, body, finished, now);
            t.results == c.results || (out.Success? && t == StoreResult(cfg, c, call, out.result, now))
  {
  }

  /** A reply leaves the result cache alone or stores the returned result. */
  lemma ArriveStoresResult(
    cfg: Config, web: Web, c: Caches, call: Call, reply: Fetch.Reply, finished: bool, now: int)
    requires call.offset >= 0
    ensures var (t, out) := Arrive(cfg, web, c, call, reply, finished, now);
            t.results == c.results || (out.Success? && t == StoreResult(cfg, c, call, out.result, now))
  {
    if reply.Response? && 200 <= reply.status <= 299 && Captures(cfg, call, reply.contentLength) {
      CapturingStoresResult(cfg, web, c, call, reply.status, reply.contentType, reply.body, finished, now);
    }
  }

  /** A reply that changes the results is the answer it stores. */
  lemma ChangeIsAnswer(cfg: Config, web: Web, es: seq<Event>) returns (owner: Call, r: Result)
    requires es != [] && es[|es| - 1].Reply?
    requires Run(cfg, web, es).caches.results != Run(cfg, web, es[..|es| - 1]).caches.results
    ensures AnswerEvent(cfg, web, es, |es| - 1, owner, r) && owner.offset >= 0
    ensures Run(cfg, web, es).caches.results
            == PutStep(Run(cfg, web, es[..|es| - 1]).caches.results, ResultKey(owner), r, |r.content|,
                       es[|es| - 1].now, cfg.cacheBudget)
  {
    var s, e := Run(cfg, web, es[..|es| - 1]), es[|es| - 1];
    owner := s.procs[e.pid].call;
    r := Arrive(cfg, web, s.caches, owner, e.reply, e.finished, e.now).1.result;
    ArriveStoresResult(cfg, web, s.caches, owner, e.reply, e.finished, e.now);
  }

  /** A reply that changes the snapshots is a capture. */
  lemma ChangeIsCapture(cfg: Config, web: Web, es: seq<Event>) returns (owner: Call, d: DocEntry)
    requires es != [] && es[|es| - 1].Reply?
    requires Run(cfg, web, es).caches.snapshots != Run(cfg, web, es[..|es| - 1]).caches.snapshots
    ensures CaptureEvent(cfg, web, es, |es| - 1, owner, d)
    ensures Run(cfg, web, es).caches.snapshots
            == PutStep(Run(cfg, web, es[..|es| - 1]).caches.snapshots, SnapKey(owner), d, |d.body|,
                       es[|es| - 1].now, cfg.cacheBudget)
  {
    var s, e := Run(cfg, web, es[..|es| - 1]), es[|es| - 1];
    owner := s.procs[e.pid].call;
    var w := CaptureOutcome(e.reply.body, cfg.maxBytes, cfg.cacheBudget, e.finished).body;
    d := DocEntry(w, e.reply.status, e.reply.contentType);
  }

  lemma {:induction false} ResultsTraced(cfg: Config, web: Web, es: seq<Event>)
    ensures AllResultsTraced(cfg, web, es, Run(cfg, web, es).caches.results)
  {
    if es != [] {
      var b, e := es[..|es| - 1], es[|es| - 1];
      ResultsTraced(cfg, web, b);
      var s, results := Run(cfg, web, b), Run(cfg, web, es).caches.results;
      if e.ProbeResults? && e.pid in s.procs && s.procs[e.pid].AtResults? {
        GetSlots(s.caches.results, ResultKey(s.procs[e.pid].call), e.now, cfg.ttl);
      } else if e.Reply? && results != s.caches.results {
        var owner, r := ChangeIsAnswer(cfg, web, es);
        var slot := Slot(ResultKey(owner), r, |r.content|, e.now);
        PutSlots(s.caches.results, slot.key, r, slot.size, e.now, cfg.cacheBudget);
        assert ResultTraced(cfg, web, es, slot);
      }
      SameResultsTraced(cfg, web, es, s.caches.results, results);
    }
  }

  lemma {:induction false} SnapshotsTraced(cfg: Config, web: Web, es: seq<Event>)
    ensures AllSnapshotsTraced(cfg, web, es, Run(cfg, web, es).caches.snapshots)
  {
    if es != [] {
      var b, e := es[..|es| - 1], es[|es| - 1];
      SnapshotsTraced(cfg, web, b);
      var s, snaps := Run(cfg, web, b), Run(cfg, web, es).caches.snapshots;
      if e.ProbeSnapshots? && e.pid in s.procs {
        GetSlots(s.caches.snapshots, SnapKey(s.procs[e.pid].call), e.now, cfg.ttl);
      } else if e.Reply? && snaps != s.caches.snapshots {
        var owner, d := ChangeIsCapture(cfg, web, es);
        var slot := Slot(SnapKey(owner), d, |d.body|, e.now);
        PutSlots(s.caches.snapshots, slot.key, d, slot.size, e.now, cfg.cacheBudget);
        assert SnapshotTraced(cfg, web, es, slot);
      }
      SameSnapshotsTraced(cfg, web, es, s.caches.snapshots, snaps);
    }
  }

  /** The page call asks for of a stored document. */
  function SnapshotPage(cfg: Config, web: Web, call: Call, d: DocEntry): Result
    requires call.offset >= 0
  {
    MakeResult(web, call.rawURL, d.statusCode, d.contentType, call.offset, PageFrom(d.body, call.offset, cfg.maxBytes))
  }

  /** A result hit goes back to the reply that answered it, at most ttl ago. */
  lemma ResultHitTrace(cfg: Config, web: Web, es: seq<Event>, call: Call, now: int) returns (n: nat, owner: Call)
    requires call.offset >= 0
    requires LookResults(cfg, Run(cfg, web, es).caches, call, now).1.Some?
    ensures AnswerEvent(cfg, web, es, n, owner, LookResults(cfg, Run(cfg, web, es).caches, call, now).1.value)
    ensures owner.offset >= 0 && ResultKey(owner) == ResultKey(call)
    ensures cfg.ttl > 0 ==> now - es[n].now <= cfg.ttl
  {
    var c := Run(cfg, web, es).caches.results;
    ResultsTraced(cfg, web, es);
    var e := c[Find(c, ResultKey(call))];
    assert ResultTraced(cfg, web, es, e);
    n, owner :| AnswerEvent(cfg, web, es, n, owner, e.value)
                && owner.offset >= 0 && ResultKey(owner) == e.key && es[n].now == e.storedAt;
  }

  /** And a snapshot hit to the capture of the document it is a page of. */
  lemma SnapshotHitTrace(cfg: Config, web: Web, es: seq<Event>, call: Call, now: int)
    returns (n: nat, owner: Call, d: DocEntry)
    requires call.offset >= 0
    requires LookSnapshots(cfg, web, Run(cfg, web, es).caches, call, now).1.Some?
    ensures CaptureEvent(cfg, web, es, n, owner, d) && SnapKey(owner) == SnapKey(call)
    ensures LookSnapshots(cfg, web, Run(cfg, web, es).caches, call, now).1 == Some(SnapshotPage(cfg, web, call, d))
    ensures cfg.ttl > 0 ==> now - es[n].now <= cfg.ttl
  {
    var c := Run(cfg, web, es).caches.snapshots;
    SnapshotsTraced(cfg, web, es);
    var e := c[Find(c, SnapKey(call))];
    assert SnapshotTraced(cfg, web, es, e);
    d := e.value;
    n, owner :| CaptureEvent(cfg, web, es, n, owner, d) && SnapKey(owner) == e.key && es[n].now == e.storedAt;
  }

  /** Staleness: in every run, whatever the origins answer and however the
      entries were read, reordered or evicted, a cached answer is what a reply
      at most ttl ago was answered with, or a page of the document captured from
      such a reply. */
  lemma HitsAreWithinTtl(cfg: Config, web: Web, es: seq<Event>, call: Call, now: int)
    requires Sound(cfg) && call.offset >= 0
    ensures var hit := LookResults(cfg, Run(cfg, web, es).caches, call, now).1;
            hit.Some? ==>
              exists n: nat, owner: Call :: AnswerEvent(cfg, web, es, n, owner, hit.value) && now - es[n].now <= cfg.ttl
    ensures var hit := LookSnapshots(cfg, web, Run(cfg, web, es).caches, call, now).1;
            hit.Some? ==>
              exists n: nat, owner: Call, d: DocEntry ::
                && CaptureEvent(cfg, web, es, n, owner, d) && now - es[n].now <= cfg.ttl
                && hit.value == SnapshotPage(cfg, web, call, d)
  {
    if LookResults(cfg, Run(cfg, web, es).caches, call, now).1.Some? {
      var n, owner := ResultHitTrace(cfg, web, es, call, now);
    }
    if LookSnapshots(cfg, web, Run(cfg, web, es).caches, call, now).1.Some? {
      var n, owner, d := SnapshotHitTrace(cfg, web, es, call, now);
    }
  }

  /** Wholeness, reply by reply, for origins that answer as they like: a stored
      body comes from a reply read to its clean end and is that reply's whole
      body, except that of cacheBudget + 1 bytes the last is missing when pages
      are smaller than the budget. */
  lemma StoredBodyIsItsReply(cfg: Config, web: Web, es: seq<Event>, i: nat)
    requires Sound(cfg) && i < |Run(cfg, web, es).caches.snapshots|
    ensures var e := Run(cfg, web, es).caches.snapshots[i];
            exists n: nat, owner: Call ::
              && CaptureEvent(cfg, web, es, n, owner, e.value)
              && SnapKey(owner) == e.key && es[n].now == e.storedAt
              && es[n].reply.body.ending.CleanEof?
              && var sent := es[n].reply.body.data;
                 var misjudged := |sent| == cfg.cacheBudget + 1 && cfg.maxBytes < cfg.cacheBudget;
                 e.value.body == if misjudged then sent[..cfg.cacheBudget] else sent
  {
    SnapshotsTraced(cfg, web, es);
    var e := Run(cfg, web, es).caches.snapshots[i];
    assert SnapshotTraced(cfg, web, es, e);
    var n: nat, owner: Call :| CaptureEvent(cfg, web, es, n, owner, e.value)
                    && SnapKey(owner) == e.key && es[n].now == e.storedAt;
    CaptureExactly(es[n].reply.body, cfg.maxBytes, cfg.cacheBudget, es[n].finished);
  }

  // -------------------------------------------------------- caller isolation

  /** All isolation asks of a run: callers' keys contain no NUL. Origins may
      answer anything, and differently to different callers or at different
      times. */
  ghost predicate NulFreeCallers(es: seq<Event>) {
    forall i :: 0 <= i < |es| && es[i].Begin? ==> NulFree(es[i].call.cacheKey)
  }

  lemma PrefixNulFree(es: seq<Event>, n: nat)
    requires NulFreeCallers(es) && n <= |es|
    ensures NulFreeCallers(es[..n])
  {
    forall i | 0 <= i < n && es[..n][i].Begin?
      ensures NulFree(es[..n][i].call.cacheKey)
    {
      assert es[..n][i] == es[i];
    }
  }

  lemma {:induction false} ProcsNulFree(cfg: Config, web: Web, es: seq<Event>, p: nat)
    requires NulFreeCallers(es) && p in Run(cfg, web, es).procs
    ensures NulFree(Run(cfg, web, es).procs[p].call.cacheKey)
  {
    if es != [] {
      var b := es[..|es| - 1];
      PrefixNulFree(es, |es| - 1);
      if p in Run(cfg, web, b).procs { ProcsNulFree(cfg, web, b, p); }
    }
  }

  lemma OwnerNulFree(cfg: Config, web: Web, es: seq<Event>, n: nat)
    requires NulFreeCallers(es) && n < |es| && es[n].pid in Run(cfg, web, es[..n]).procs
    ensures NulFree(Run(cfg, web, es[..n]).procs[es[n].pid].call.cacheKey)
  {
    PrefixNulFree(es, n);
    ProcsNulFree(cfg, web, es[..n], es[n].pid);
  }

  /** What a call has returned it has returned for good. */
  lemma {:induction false} ReturnIsFinal(cfg: Config, web: Web, es: seq<Event>, n: nat, p: nat)
    requires n <= |es| && p in Run(cfg, web, es[..n]).procs && Run(cfg, web, es[..n]).procs[p].Finished?
    ensures p in Run(cfg, web, es).procs && Run(cfg, web, es).procs[p] == Run(cfg, web, es[..n]).procs[p]
    decreases |es|
  {
    if n == |es| {
      assert es[..n] == es;
    } else {
      var b := es[..|es| - 1];
      assert b[..n] == es[..n];
      ReturnIsFinal(cfg, web, b, n, p);
    }
  }

  lemma AnswerReturns(cfg: Config, web: Web, es: seq<Event>, n: nat, owner: Call, r: Result)
    requires AnswerEvent(cfg, web, es, n, owner, r)
    ensures Returned(Run(cfg, web, es), es[n].pid, owner, r)
  {
    var b := es[..n + 1];
    assert b[..n] == es[..n];
    assert Run(cfg, web, b) == Step(cfg, web, Run(cfg, web, es[..n]), es[n]);
    ReturnIsFinal(cfg, web, es, n + 1, es[n].pid);
  }

  /** Caller isolation: in every run an answer found in the result cache was
      returned before to an identical call: same caller, URL and offset. */
  lemma ResultHitIsOwn(cfg: Config, web: Web, es: seq<Event>, call: Call, now: int)
    requires NulFreeCallers(es) && NulFree(call.cacheKey) && call.offset >= 0
    ensures var hit := LookResults(cfg, Run(cfg, web, es).caches, call, now).1;
            hit.Some? ==>
              exists n: nat ::
                && AnswerEvent(cfg, web, es, n, call, hit.value)
                && (cfg.ttl > 0 ==> now - es[n].now <= cfg.ttl)
                && Returned(Run(cfg, web, es), es[n].pid, call, hit.value)
  {
    if LookResults(cfg, Run(cfg, web, es).caches, call, now).1.Some? {
      var n, owner := ResultHitTrace(cfg, web, es, call, now);
      OwnerNulFree(cfg, web, es, n);
      TripleKeyInjective(call.cacheKey, call.rawURL, call.offset, owner.cacheKey, owner.rawURL, owner.offset);
      AnswerReturns(cfg, web, es, n, owner, LookResults(cfg, Run(cfg, web, es).caches, call, now).1.value);
    }
  }

  /** And an answer paged from a snapshot, at whatever offset, is the page of a
      document captured byte for byte from the reply to the same caller's own
      first fetch of that URL, which returned that document's page 0. */
  lemma SnapshotHitIsOwn(cfg: Config, web: Web, es: seq<Event>, call: Call, now: int)
    requires NulFreeCallers(es) && NulFree(call.cacheKey) && call.offset >= 0
    ensures var hit := LookSnapshots(cfg, web, Run(cfg, web, es).caches, call, now).1;
            hit.Some? ==>
              exists n: nat, d: DocEntry ::
                && CaptureEvent(cfg, web, es, n, call.(offset := 0), d)
                && (cfg.ttl > 0 ==> now - es[n].now <= cfg.ttl)
                && hit.value == SnapshotPage(cfg, web, call, d)
                && Returned(Run(cfg, web, es), es[n].pid, call.(offset := 0),
                            SnapshotPage(cfg, web, call.(offset := 0), d))
  {
    if LookSnapshots(cfg, web, Run(cfg, web, es).caches, call, now).1.Some? {
      var n, owner, d := SnapshotHitTrace(cfg, web, es, call, now);
      OwnerNulFree(cfg, web, es, n);
      SnapKeyParses(call);
      SnapKeyParses(owner);
      assert owner == call.(offset := 0);
      AnswerReturns(cfg, web, es, n, owner, SnapshotPage(cfg, web, owner, d));
    }
  }

  /** The reply es[n] supplied r to call, which finished at es[m]: as the answer
      to that very call, or as the document r is a page of, captured by the same
      caller's first fetch of the same URL. */
  ghost predicate Supplied(cfg: Config, web: Web, es: seq<Event>, n: nat, m: nat, call: Call, r: Result) {
    && n <= m < |es| && call.offset >= 0
    && (AnswerEvent(cfg, web, es, n, call, r)
        || exists d :: CaptureEvent(cfg, web, es, n, call.(offset := 0), d) && r == SnapshotPage(cfg, web, call, d))
  }

  lemma SuppliedExtends(cfg: Config, web: Web, es: seq<Event>, n: nat, m: nat, call: Call, r: Result)
    requires es != [] && n < |es| - 1 && m < |es| && n <= m && call.offset >= 0
    requires AnswerEvent(cfg, web, es[..|es| - 1], n, call, r)
             || exists d :: CaptureEvent(cfg, web, es[..|es| - 1], n, call.(offset := 0), d)
                            && r == SnapshotPage(cfg, web, call, d)
    ensures Supplied(cfg, web, es, n, m, call, r)
  {
    var b := es[..|es| - 1];
    assert b[..n] == es[..n] && b[n] == es[n];
    if AnswerEvent(cfg, web, b, n, call, r) {
      assert AnswerEvent(cfg, web, es, n, call, r);
    } else {
      var d :| CaptureEvent(cfg, web, b, n, call.(offset := 0), d) && r == SnapshotPage(cfg, web, call, d);
      assert CaptureEvent(cfg, web, es, n, call.(offset := 0), d);
    }
  }

  /** The event that finished a call, and the reply its answer goes back to. */
  lemma FinishingStep(cfg: Config, web: Web, es: seq<Event>, call: Call, r: Result) returns (n: nat)
    requires Sound(cfg) && NulFreeCallers(es) && es != []
    requires var e := es[|es| - 1];
             && Returned(Run(cfg, web, es), e.pid, call, r)
             && !Returned(Run(cfg, web, es[..|es| - 1]), e.pid, call, r)
    ensures Supplied(cfg, web, es, n, |es| - 1, call, r) && es[|es| - 1].now - es[n].now <= cfg.ttl
  {
    var b, e := es[..|es| - 1], es[|es| - 1];
    PrefixNulFree(es, |es| - 1);
    if e.ProbeResults? {
      ProcsNulFree(cfg, web, b, e.pid);
      ResultHitIsOwn(cfg, web, b, call, e.now);
      n :| AnswerEvent(cfg, web, b, n, call, r) && e.now - b[n].now <= cfg.ttl;
      SuppliedExtends(cfg, web, es, n, |es| - 1, call, r);
    } else if e.ProbeSnapshots? {
      ProcsNulFree(cfg, web, b, e.pid);
      SnapshotHitIsOwn(cfg, web, b, call, e.now);
      var d :| exists k: nat :: CaptureEvent(cfg, web, b, k, call.(offset := 0), d) && e.now - b[k].now <= cfg.ttl
                                && r == SnapshotPage(cfg, web, call, d);
      n :| CaptureEvent(cfg, web, b, n, call.(offset := 0), d) && e.now - b[n].now <= cfg.ttl
           && r == SnapshotPage(cfg, web, call, d);
      SuppliedExtends(cfg, web, es, n, |es| - 1, call, r);
    } else {
      n := |es| - 1;
      assert AnswerEvent(cfg, web, es, n, call, r);
    }
  }

  /** End to end, for origins that answer differently to every caller and every
      time: whatever a call returns was supplied by a reply to its own caller
      for its own URL, at most ttl before the call finished. */
  lemma {:induction false} EveryAnswerIsOwnAndRecent(
    cfg: Config, web: Web, es: seq<Event>, pid: nat, call: Call, r: Result)
    requires Sound(cfg) && NulFreeCallers(es) && Returned(Run(cfg, web, es), pid, call, r)
    ensures exists n: nat, m: nat ::
              Supplied(cfg, web, es, n, m, call, r) && es[m].pid == pid && es[m].now - es[n].now <= cfg.ttl
  {
    if es != [] {
      var b := es[..|es| - 1];
      if Returned(Run(cfg, web, b), pid, call, r) {
        PrefixNulFree(es, |es| - 1);
        EveryAnswerIsOwnAndRecent(cfg, web, b, pid, call, r);
        var n: nat, m: nat :| Supplied(cfg, web, b, n, m, call, r) && b[m].pid == pid && b[m].now - b[n].now <= cfg.ttl;
        SuppliedExtends(cfg, web, es, n, m, call, r);
      } else {
        var n := FinishingStep(cfg, web, es, call, r);
      }
    }
  }

  // -------------------------------------------- one origin contact per walk

  ghost predicate Resident(s: System, k: Key, since: int) {
    var i := Find(s.caches.snapshots, k);
    i < |s.caches.snapshots| && s.caches.snapshots[i].storedAt >= since
  }

  /** A capture for a different caller or URL pushed k's snapshot out. */
  ghost predicate EvictedBy(cfg: Config, web: Web, s: System, e: Event, k: Key) {
    && WellFormed(s.procs) && e.Reply? && e.pid in s.procs && SnapKey(s.procs[e.pid].call) != k
    && Find(s.caches.snapshots, k) < |s.caches.snapshots|
    && Find(Step(cfg, web, s, e).caches.snapshots, k) == |Step(cfg, web, s, e).caches.snapshots|
  }

  ghost predicate Ordered(es: seq<Event>) {
    forall i, j :: 0 <= i <= j < |es| ==> es[i].now <= es[j].now
  }

  /** When a capture succeeds its snapshot is resident after Put. */
  lemma CaptureIsResident(
    cfg: Config, web: Web, c: Caches, call: Call, status: int, contentType: Text, body: Body, finished: bool, now: int)
    requires Sound(cfg) && Distinct(c.snapshots) && call.offset == 0
    requires var o := CaptureOutcome(body, cfg.maxBytes, cfg.cacheBudget, finished);
             o.Whole? && |o.body| <= cfg.cacheBudget
    ensures var d := ArriveCapturing(cfg, web, c, call, status, contentType, body, finished, now).0;
            var w := CaptureOutcome(body, cfg.maxBytes, cfg.cacheBudget, finished).body;
            && Lookup(d.snapshots, SnapKey(call))
               == Some(Slot(SnapKey(call), DocEntry(w, status, contentType), |w|, now))
            && d.results == c.results
  {
    var w := CaptureOutcome(body, cfg.maxBytes, cfg.cacheBudget, finished).body;
    PutIsLongestFit(c.snapshots, SnapKey(call), DocEntry(w, status, contentType), |w|, now, cfg.cacheBudget);
  }

  lemma FindInDistinct<V>(s: seq<Slot<V>>, k: Key, i: nat)
    requires Distinct(s) && i < |s| && s[i].key == k
    ensures Find(s, k) == i
  {
    FindFirst(s, k);
    assert Find(s, k) <= i;
  }

  /** Reading one key leaves every other key's entry where it can be found. */
  lemma GetKeepsOthers<V>(s: seq<Slot<V>>, k: Key, other: Key, now: int, ttl: int)
    requires Distinct(s) && Find(s, k) < |s|
    requires other != k || !Expired(s[Find(s, k)], now, ttl)
    ensures var r := GetStep(s, other, now, ttl).0;
            Find(r, k) < |r| && r[Find(r, k)] == s[Find(s, k)]
  {
    GetSlots(s, other, now, ttl);
    var r, i, j := GetStep(s, other, now, ttl).0, Find(s, k), Find(s, other);
    if j < |s| {
      if Expired(s[j], now, ttl) {
        FindInDistinct(r, k, if i < j then i else i - 1);
      } else {
        FindInDistinct(r, k, if i == j then 0 else if i < j then i + 1 else i);
      }
    }
  }

  lemma PutKeepsNewer<V>(s: seq<Slot<V>>, k: Key, other: Key, v: V, size: int, now: int, max: int)
    requires Distinct(s) && Find(s, k) < |s| && s[Find(s, k)].storedAt <= now
    ensures var r := PutStep(s, other, v, size, now, max);
            Find(r, k) < |r| ==> r[Find(r, k)].storedAt >= s[Find(s, k)].storedAt
  {
    PutSlots(s, other, v, size, now, max);
    var r := PutStep(s, other, v, size, now, max);
    var i := Find(r, k);
    if i < |r| && r[i] in s {
      var j :| 0 <= j < |s| && s[j] == r[i];
      FindInDistinct(s, k, j);
    }
  }

  /** One step either keeps k's snapshot as new as it was, or another capture
      evicted it, or a probe found it older than the ttl. */
  lemma ResidencyStep(cfg: Config, web: Web, s: System, e: Event, k: Key, since: int)
    requires Sound(cfg) && WellFormed(s.procs) && Distinct(s.caches.snapshots) && Resident(s, k, since)
    requires forall i :: 0 <= i < |s.caches.snapshots| ==> s.caches.snapshots[i].storedAt <= e.now
    ensures Resident(Step(cfg, web, s, e), k, since)
            || EvictedBy(cfg, web, s, e, k) || e.now - since > cfg.ttl
  {
    if e.pid in s.procs && !s.procs[e.pid].Finished? {
      var call, snaps := s.procs[e.pid].call, s.caches.snapshots;
      match e
      case Begin(_, _, _) =>
      case ProbeResults(_, _) =>
      case ProbeSnapshots(pid, now) =>
        if s.procs[pid].AtSnapshots? && call.cacheKey != [] && e.now - since <= cfg.ttl {
          GetKeepsOthers(snaps, k, SnapKey(call), now, cfg.ttl);
        }
      case Reply(pid, reply, finished, now) =>
        if s.procs[pid].AtOrigin? && Step(cfg, web, s, e).caches.snapshots != snaps {
          var w := CaptureOutcome(reply.body, cfg.maxBytes, cfg.cacheBudget, finished).body;
          var d := DocEntry(w, reply.status, reply.contentType);
          PutKeepsNewer(snaps, k, SnapKey(call), d, |w|, now, cfg.cacheBudget);
          PutIsLongestFit(snaps, SnapKey(call), d, |w|, now, cfg.cacheBudget);
        }
    }
  }

  /** Every snapshot was stored at or before the last event. */
  lemma {:induction false} StoredInThePast(cfg: Config, web: Web, es: seq<Event>, now: int)
    requires Ordered(es) && (es != [] ==> es[|es| - 1].now <= now)
    ensures var snaps := Run(cfg, web, es).caches.snapshots;
            Distinct(snaps) && forall i :: 0 <= i < |snaps| ==> snaps[i].storedAt <= now
  {
    if es != [] {
      var before, e := es[..|es| - 1], es[|es| - 1];
      StoredInThePast(cfg, web, before, e.now);
      var s := Run(cfg, web, before);
      if e.pid in s.procs && !s.procs[e.pid].Finished? {
        var call, snaps := s.procs[e.pid].call, s.caches.snapshots;
        match e
        case Begin(_, _, _) =>
        case ProbeResults(_, _) =>
        case ProbeSnapshots(_, t) => GetSlots(snaps, SnapKey(call), t, cfg.ttl);
        case Reply(_, _, _, t) =>
          if Run(cfg, web, es).caches.snapshots != snaps {
            var owner, d := ChangeIsCapture(cfg, web, es);
            PutSlots(snaps, SnapKey(owner), d, |d.body|, t, cfg.cacheBudget);
          }
      }
    }
  }

  lemma ResidentNextStep(cfg: Config, web: Web, es: seq<Event>, k: Key, since: int)
    requires Sound(cfg) && Ordered(es) && es != [] && Resident(Run(cfg, web, es[..|es| - 1]), k, since)
    ensures Resident(Run(cfg, web, es), k, since)
            || EvictedBy(cfg, web, Run(cfg, web, es[..|es| - 1]), es[|es| - 1], k)
            || es[|es| - 1].now - since > cfg.ttl
  {
    var b, e := es[..|es| - 1], es[|es| - 1];
    StoredInThePast(cfg, web, b, e.now);
    ResidencyStep(cfg, web, Run(cfg, web, b), e, k, since);
  }

  /** Some event from i on was a capture that evicted k's snapshot. */
  ghost predicate EvictedSince(cfg: Config, web: Web, es: seq<Event>, i: nat, k: Key) {
    exists n :: i <= n < |es| && EvictedBy(cfg, web, Run(cfg, web, es[..n]), es[n], k)
  }

  lemma EvictedSinceExtends(cfg: Config, web: Web, es: seq<Event>, i: nat, k: Key)
    requires es != [] && EvictedSince(cfg, web, es[..|es| - 1], i, k)
    ensures EvictedSince(cfg, web, es, i, k)
  {
    var b := es[..|es| - 1];
    var n :| i <= n < |b| && EvictedBy(cfg, web, Run(cfg, web, b[..n]), b[n], k);
    assert b[..n] == es[..n] && b[n] == es[n];
  }

  lemma {:induction false} ResidentUntilLost(cfg: Config, web: Web, es: seq<Event>, i: nat, k: Key, since: int)
    requires Sound(cfg) && Ordered(es) && i <= |es| && Resident(Run(cfg, web, es[..i]), k, since)
    ensures Resident(Run(cfg, web, es), k, since)
            || EvictedSince(cfg, web, es, i, k)
            || (es != [] && es[|es| - 1].now - since > cfg.ttl)
    decreases |es|
  {
    if i == |es| {
      assert es[..i] == es;
    } else {
      var b := es[..|es| - 1];
      assert b[..i] == es[..i];
      ResidentUntilLost(cfg, web, b, i, k, since);
      if Resident(Run(cfg, web, b), k, since) {
        ResidentNextStep(cfg, web, es, k, since);
      } else if EvictedSince(cfg, web, b, i, k) {
        EvictedSinceExtends(cfg, web, es, i, k);
      }
    }
  }

  /** One origin contact per walk: once a snapshot is resident, a later call
      for the same caller and URL is answered from it, whatever its offset,
      unless in between it outlived the ttl or another capture evicted it. */
  lemma ContactMeansExpiredOrEvicted(
    cfg: Config, web: Web, es: seq<Event>, i: nat, call: Call, since: int, now: int)
    requires Sound(cfg) && Ordered(es) && i <= |es| && (es != [] ==> es[|es| - 1].now <= now)
    requires call.cacheKey != [] && call.offset >= 0
    requires Resident(Run(cfg, web, es[..i]), SnapKey(call), since)
    requires LookSnapshots(cfg, web, Run(cfg, web, es).caches, call, now).1.None?
    ensures now - since > cfg.ttl
            || EvictedSince(cfg, web, es, i, SnapKey(call))
  {
    ResidentUntilLost(cfg, web, es, i, SnapKey(call), since);
  }

  lemma CaptureLeavesResident(cfg: Config, web: Web, es: seq<Event>, n: nat, owner: Call, d: DocEntry)
    requires Sound(cfg) && Ordered(es) && CaptureEvent(cfg, web, es, n, owner, d)
    ensures Resident(Run(cfg, web, es[..n + 1]), SnapKey(owner), es[n].now)
  {
    var b, e := es[..n + 1], es[n];
    assert b[..n] == es[..n];
    var s := Run(cfg, web, es[..n]);
    assert Distinct(s.caches.snapshots) by {
      assert Ordered(es[..n]) && forall i :: 0 <= i < n ==> es[..n][i].now <= e.now;
      StoredInThePast(cfg, web, es[..n], e.now);
    }
    CaptureIsResident(cfg, web, s.caches, owner, e.reply.status, e.reply.contentType, e.reply.body, e.finished, e.now);
  }

  /** A probe that sends its call to the origin missed. */
  lemma ProbeMissed(cfg: Config, web: Web, es: seq<Event>, m: nat, call: Call)
    requires m < |es| && es[m].ProbeSnapshots?
    requires var s, t := Run(cfg, web, es[..m]), Run(cfg, web, es[..m + 1]);
             && es[m].pid in s.procs && s.procs[es[m].pid] == AtSnapshots(call)
             && es[m].pid in t.procs && t.procs[es[m].pid] == AtOrigin(call)
    ensures call.offset >= 0
    ensures LookSnapshots(cfg, web, Run(cfg, web, es[..m]).caches, call, es[m].now).1.None?
  {
    assert es[..m + 1][..m] == es[..m];
    assert WellFormed(Run(cfg, web, es[..m]).procs);
  }

  /** One origin contact per walk, event to event: after a capture at es[n], the
      probe at es[m] of any call by the same caller for the same URL sends that
      call to the origin only if the snapshot outlived the ttl by then or
      another capture evicted it in between. */
  lemma ContactAfterCapture(
    cfg: Config, web: Web, es: seq<Event>, n: nat, owner: Call, d: DocEntry, m: nat, call: Call)
    requires Sound(cfg) && Ordered(es) && CaptureEvent(cfg, web, es, n, owner, d) && n < m < |es|
    requires call.cacheKey == owner.cacheKey && call.rawURL == owner.rawURL
    requires es[m].ProbeSnapshots?
    requires var s, t := Run(cfg, web, es[..m]), Run(cfg, web, es[..m + 1]);
             && es[m].pid in s.procs && s.procs[es[m].pid] == AtSnapshots(call)
             && es[m].pid in t.procs && t.procs[es[m].pid] == AtOrigin(call)
    ensures es[m].now - es[n].now > cfg.ttl || EvictedSince(cfg, web, es[..m], n + 1, SnapKey(call))
  {
    var b := es[..m];
    assert Resident(Run(cfg, web, b[..n + 1]), SnapKey(call), es[n].now) by {
      CaptureLeavesResident(cfg, web, es, n, owner, d);
      assert b[..n + 1] == es[..n + 1];
    }
    ProbeMissed(cfg, web, es, m, call);
    assert Ordered(b) && b[|b| - 1] == es[m - 1];
    ContactMeansExpiredOrEvicted(cfg, web, b, n + 1, call, es[n].now, es[m].now);
  }
}
