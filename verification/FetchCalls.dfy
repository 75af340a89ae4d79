/** What one fetch comes to, and what every returned result says about the reply
    it was made from: the outcome of each call, field by field, without the
    functions that compute it (internal/tools/fetch/fetch.go). */
module FetchCalls {
  import opened Bytes
  import opened Utf8
  import opened Pages
  import opened Streams
  import opened Keys
  import opened Lru
  import opened Fetch
  import opened FetchRuns
  import opened FetchWalks
  import LruTraces

  // ---------------------------------------------------------------- one call

  /** "http" or "https", byte by byte. */
  predicate WebScheme(s: Text) {
    s == [0x68, 0x74, 0x74, 0x70] || s == [0x68, 0x74, 0x74, 0x70, 0x73]
  }

  predicate Acceptable(web: Web, call: Call) {
    && !web.blank(call.rawURL) && call.offset >= 0
    && web.parse(call.rawURL).Some? && WebScheme(web.parse(call.rawURL).value.scheme)
  }

  /** The error of a call that is refused, checked in this order. */
  ghost predicate RefusedWith(web: Web, call: Call, e: Error) {
    if web.blank(call.rawURL) then e == EmptyURL
    else if call.offset < 0 then e == NegativeOffset
    else if web.parse(call.rawURL).None? then e == ParseFailed
    else !WebScheme(web.parse(call.rawURL).value.scheme) && e == UnsupportedScheme
  }

  /** The page at offset and the byte behind it arrive before any failure. */
  predicate Readable(b: Body, offset: nat, maxBytes: nat) {
    || b.ending.CleanEof?
    || |b.data| > offset + maxBytes + 1
    || (|b.data| == offset + maxBytes + 1 && !b.eager)
  }

  predicate Usable(reply: Fetch.Reply, offset: nat, maxBytes: nat) {
    reply.Response? && 200 <= reply.status <= 299 && Readable(reply.body, offset, maxBytes)
  }

  ghost predicate FailedWith(reply: Fetch.Reply, offset: nat, maxBytes: nat, e: Error) {
    if reply.NoResponse? then e == TransportFailed
    else if reply.status < 200 || reply.status > 299 then e == BadStatus(reply.status)
    else !Readable(reply.body, offset, maxBytes) && e == ReadBody
  }

  lemma ReadsIffReadable(b: Body, maxBytes: nat, offset: nat)
    ensures ReadOutcome(b, maxBytes, offset).Chunk? <==> Readable(b, offset, maxBytes)
  {
  }

  /** A reply answers a call exactly when it is usable, and otherwise says why
      not, at every offset, with and without a cache key. */
  lemma ReplyOutcome(
    cfg: Config, web: Web, c: Caches, call: Call, reply: Fetch.Reply, finished: bool, now: int)
    requires call.offset >= 0
    ensures var (d, out) := Arrive(cfg, web, c, call, reply, finished, now);
            && (out.Success? <==> Usable(reply, call.offset, cfg.maxBytes))
            && (out.Failure? ==> d == c && FailedWith(reply, call.offset, cfg.maxBytes, out.error))
            && (call.cacheKey == [] ==> d == c)
  {
    if reply.Response? { ReadsIffReadable(reply.body, cfg.maxBytes, call.offset); }
  }

  /** The whole of Fetch: which calls are refused and why, which contact the
      origin, which of those succeed and why the others fail. Without a cache key
      every acceptable call contacts it and nothing is kept. */
  lemma FetchExactly(
    cfg: Config, web: Web, c: Caches, call: Call, reply: Fetch.Reply, finished: bool, t1: int, t2: int, t3: int)
    ensures var (d, out, contacted) := FetchAlone(cfg, web, c, call, reply, finished, t1, t2, t3);
            && (!Acceptable(web, call) ==>
                  d == c && !contacted && out.Failure? && RefusedWith(web, call, out.error))
            && (Acceptable(web, call) ==>
                  (contacted <==>
                    && LookResults(cfg, c, call, t1).1.None?
                    && LookSnapshots(cfg, web, LookResults(cfg, c, call, t1).0, call, t2).1.None?))
            && (Acceptable(web, call) && !contacted ==> out.Success? && call.cacheKey != [])
            && (contacted ==> (out.Success? <==> Usable(reply, call.offset, cfg.maxBytes)))
            && (contacted && out.Failure? ==> FailedWith(reply, call.offset, cfg.maxBytes, out.error))
            && (call.cacheKey == [] ==> d == c && (contacted <==> Acceptable(web, call)))
  {
    if Acceptable(web, call) {
      var c2 := LookSnapshots(cfg, web, LookResults(cfg, c, call, t1).0, call, t2).0;
      ReplyOutcome(cfg, web, c2, call, reply, finished, t3);
    }
  }

  // ---------------------------------------------------------------- captures

  /** The reply whose body becomes a snapshot: first page of a cached call, not
      announced over budget, in time, complete, and within the budget as far as
      the probe at its end can tell. */
  predicate Capturable(cfg: Config, call: Call, reply: Fetch.Reply, finished: bool) {
    && reply.Response? && 200 <= reply.status <= 299
    && call.cacheKey != [] && call.offset == 0
    && (reply.contentLength <= 0 || reply.contentLength <= cfg.cacheBudget)
    && finished && reply.body.ending.CleanEof?
    && |reply.body.data| <= (if cfg.maxBytes < cfg.cacheBudget then cfg.cacheBudget + 1 else cfg.cacheBudget)
  }

  /** Both ways: such a reply is resident under its call's key afterwards, up to
      the budget, and leaves the results alone; any other leaves the snapshots
      alone. */
  lemma CapturedExactly(
    cfg: Config, web: Web, c: Caches, call: Call, reply: Fetch.Reply, finished: bool, now: int)
    requires Sound(cfg) && Distinct(c.snapshots) && call.offset >= 0
    ensures var d := Arrive(cfg, web, c, call, reply, finished, now).0;
            if Capturable(cfg, call, reply, finished) then
              var kept := reply.body.data[..Min(cfg.cacheBudget, |reply.body.data|)];
              && Lookup(d.snapshots, SnapKey(call))
                 == Some(Slot(SnapKey(call), DocEntry(kept, reply.status, reply.contentType), |kept|, now))
              && d.results == c.results
            else d.snapshots == c.snapshots
  {
    if reply.Response? && 200 <= reply.status <= 299 && Captures(cfg, call, reply.contentLength) {
      CaptureExactly(reply.body, cfg.maxBytes, cfg.cacheBudget, finished);
      if Capturable(cfg, call, reply, finished) {
        CaptureIsResident(cfg, web, c, call, reply.status, reply.contentType, reply.body, finished, now);
      }
    }
  }

  // -------------------------------------------------------------- the result

  /** r is the page of data that call asked for, cut on a rune when more
      follows, labelled with call and with the reply's status and type. */
  ghost predicate Describes(
    cfg: Config, web: Web, call: Call, status: int, contentType: Text, data: Text, r: Result) {
    && web.parse(call.rawURL).Some? && r.url == web.parse(call.rawURL).value.redacted
    && r.statusCode == status && r.contentType == contentType
    && call.offset >= 0 && r.offset == call.offset
    && PageOfData(cfg, data, call.offset, r.content, r.truncated)
    && r.bytes == |r.content|
    && r.nextOffset == if r.truncated then r.offset + |r.content| else 0
  }

  ghost predicate PageOfData(cfg: Config, data: Text, offset: nat, content: Text, truncated: bool) {
    && |content| <= cfg.maxBytes
    && (content == [] || (offset + |content| <= |data| && content == data[offset..offset + |content|]))
    && (truncated ==> offset + cfg.maxBytes < |data|
                      && LongestCut(content, data[offset..offset + cfg.maxBytes]))
  }

  lemma CutPartOfData(cfg: Config, data: Text, offset: nat, page: Text, truncated: bool)
    requires offset + |page| <= |data| && page == data[offset..offset + |page|] && |page| <= cfg.maxBytes
    requires truncated ==> |page| == cfg.maxBytes && offset + cfg.maxBytes < |data|
    ensures PageOfData(cfg, data, offset, Cut(page), truncated)
  {
    CutIsLongest(page);
    assert Cut(page) == page[..|Cut(page)|];
  }

  lemma ReadBytes(b: Body, maxBytes: nat, offset: nat)
    requires ReadOutcome(b, maxBytes, offset).Chunk? && offset <= |b.data|
    ensures var o := ReadOutcome(b, maxBytes, offset);
            && o.bytes == b.data[offset..Min(offset + maxBytes + 1, |b.data|)]
            && (o.truncated <==> offset + maxBytes < |b.data|)
  {
  }

  lemma StreamPageOfData(cfg: Config, b: Body, offset: nat)
    requires ReadOutcome(b, cfg.maxBytes, offset).Chunk?
    ensures var o := ReadOutcome(b, cfg.maxBytes, offset);
            var p := PageOfChunk(o.bytes, o.truncated, offset, cfg.maxBytes);
            && PageOfData(cfg, b.data, offset, p.content, p.truncated)
            && p.next == if p.truncated then offset + |p.content| else 0
  {
    if offset <= |b.data| {
      var o, end := ReadOutcome(b, cfg.maxBytes, offset), Min(offset + cfg.maxBytes, |b.data|);
      ReadBytes(b, cfg.maxBytes, offset);
      var page := if |o.bytes| > cfg.maxBytes then o.bytes[..cfg.maxBytes] else o.bytes;
      assert page == b.data[offset..end];
      CutPartOfData(cfg, b.data, offset, page, o.truncated);
    }
  }

  lemma MemoryPageOfData(cfg: Config, body: Text, data: Text, offset: nat)
    requires body <= data
    ensures var p := PageFrom(body, offset, cfg.maxBytes);
            && PageOfData(cfg, data, offset, p.content, p.truncated)
            && p.next == if p.truncated then offset + |p.content| else 0
  {
    var p := PageFrom(body, offset, cfg.maxBytes);
    if offset < |body| {
      PageMeaning(body, offset, cfg.maxBytes);
      assert body[offset..offset + |p.content|] == data[offset..offset + |p.content|];
      if p.truncated {
        PageIsLongest(body, offset, cfg.maxBytes);
        assert body[offset..offset + cfg.maxBytes] == data[offset..offset + cfg.maxBytes];
      }
    }
  }

  lemma CapturedPageDescribes(
    cfg: Config, web: Web, c: Caches, call: Call, reply: Fetch.Reply, finished: bool, now: int)
    requires Sound(cfg) && web.parse(call.rawURL).Some? && call.offset == 0 && reply.Response?
    requires ArriveCapturing(cfg, web, c, call, reply.status, reply.contentType, reply.body, finished, now).1.Success?
    ensures var out := ArriveCapturing(cfg, web, c, call, reply.status, reply.contentType, reply.body, finished, now).1;
            Describes(cfg, web, call, reply.status, reply.contentType, reply.body.data, out.result)
  {
    var o := CaptureOutcome(reply.body, cfg.maxBytes, cfg.cacheBudget, finished);
    CaptureExactly(reply.body, cfg.maxBytes, cfg.cacheBudget, finished);
    MemoryPageOfData(cfg, if o.Whole? then o.body else o.page, reply.body.data, 0);
  }

  lemma AnswerDescribes(
    cfg: Config, web: Web, c: Caches, call: Call, reply: Fetch.Reply, finished: bool, now: int)
    requires Sound(cfg) && web.parse(call.rawURL).Some? && call.offset >= 0
    requires Arrive(cfg, web, c, call, reply, finished, now).1.Success?
    ensures reply.Response? && 200 <= reply.status <= 299
    ensures Describes(cfg, web, call, reply.status, reply.contentType, reply.body.data,
                      Arrive(cfg, web, c, call, reply, finished, now).1.result)
  {
    if Captures(cfg, call, reply.contentLength) {
      CapturedPageDescribes(cfg, web, c, call, reply, finished, now);
    } else {
      StreamPageOfData(cfg, reply.body, call.offset);
    }
  }

  lemma SnapshotDescribes(cfg: Config, web: Web, es: seq<Event>, n: nat, owner: Call, call: Call, d: DocEntry)
    requires Sound(cfg) && web.parse(call.rawURL).Some? && call.offset >= 0
    requires CaptureEvent(cfg, web, es, n, owner, d)
    ensures var reply := es[n].reply;
            Describes(cfg, web, call, reply.status, reply.contentType, reply.body.data, SnapshotPage(cfg, web, call, d))
  {
    CaptureExactly(es[n].reply.body, cfg.maxBytes, cfg.cacheBudget, es[n].finished);
    MemoryPageOfData(cfg, d.body, es[n].reply.body.data, call.offset);
  }

  // ---------------------------------------------------------------- the runs

  /** In every run a call that looks into a cache, waits for an origin or has
      returned a page is for a non-blank http or https URL. */
  lemma {:induction false} OnlyAcceptableCallsGoOn(cfg: Config, web: Web, es: seq<Event>, p: nat)
    requires p in Run(cfg, web, es).procs
    ensures var ph := Run(cfg, web, es).procs[p];
            (ph.Finished? && ph.outcome.Failure?) || Acceptable(web, ph.call)
  {
    if es != [] {
      var b := es[..|es| - 1];
      if p in Run(cfg, web, b).procs { OnlyAcceptableCallsGoOn(cfg, web, b, p); }
    }
  }

  ghost predicate DescribesReply(cfg: Config, web: Web, e: Event, call: Call, r: Result) {
    && e.Reply? && e.reply.Response? && 200 <= e.reply.status <= 299
    && Describes(cfg, web, call, e.reply.status, e.reply.contentType, e.reply.body.data, r)
  }

  lemma SuppliedDescribes(cfg: Config, web: Web, es: seq<Event>, n: nat, m: nat, call: Call, r: Result)
    requires Sound(cfg) && web.parse(call.rawURL).Some? && Supplied(cfg, web, es, n, m, call, r)
    ensures DescribesReply(cfg, web, es[n], call, r)
  {
    if AnswerEvent(cfg, web, es, n, call, r) {
      AnswerDescribes(cfg, web, Run(cfg, web, es[..n]).caches, call, es[n].reply, es[n].finished, es[n].now);
    } else {
      var d :| CaptureEvent(cfg, web, es, n, call.(offset := 0), d) && r == SnapshotPage(cfg, web, call, d);
      SnapshotDescribes(cfg, web, es, n, call.(offset := 0), call, d);
    }
  }

  /** Field by field, in every run and for origins that answer as they like:
      whatever a call returns is the page it asked for of the body of one 2xx
      reply to its own caller for its own URL, with that reply's status and type,
      and next_offset where its bytes end. */
  lemma EveryAnswerDescribesItsReply(cfg: Config, web: Web, es: seq<Event>, pid: nat, call: Call, r: Result)
    requires Sound(cfg) && NulFreeCallers(es) && Returned(Run(cfg, web, es), pid, call, r)
    ensures Acceptable(web, call)
    ensures exists n: nat, m: nat ::
              && Supplied(cfg, web, es, n, m, call, r) && es[m].pid == pid && es[m].now - es[n].now <= cfg.ttl
              && DescribesReply(cfg, web, es[n], call, r)
  {
    OnlyAcceptableCallsGoOn(cfg, web, es, pid);
    EveryAnswerIsOwnAndRecent(cfg, web, es, pid, call, r);
    var n: nat, m: nat :|
      Supplied(cfg, web, es, n, m, call, r) && es[m].pid == pid && es[m].now - es[n].now <= cfg.ttl;
    SuppliedDescribes(cfg, web, es, n, m, call, r);
  }

  // -------------------------------------------------------------- bytes held

  function SnapshotBytes(c: seq<Slot<DocEntry>>): nat {
    if c == [] then 0 else |c[0].value.body| + SnapshotBytes(c[1..])
  }

  function ResultBytes(c: seq<Slot<Result>>): nat {
    if c == [] then 0 else |c[0].value.content| + ResultBytes(c[1..])
  }

  ghost predicate SnapshotsWeighed(c: seq<Slot<DocEntry>>) {
    forall i :: 0 <= i < |c| ==> c[i].size == |c[i].value.body|
  }

  ghost predicate ResultsWeighed(c: seq<Slot<Result>>) {
    forall i :: 0 <= i < |c| ==> c[i].size == |c[i].value.content|
  }

  lemma {:induction false} SnapshotBytesAreSum(c: seq<Slot<DocEntry>>)
    requires SnapshotsWeighed(c)
    ensures SnapshotBytes(c) == Sum(c)
  {
    if c != [] { SnapshotBytesAreSum(c[1..]); }
  }

  lemma {:induction false} ResultBytesAreSum(c: seq<Slot<Result>>)
    requires ResultsWeighed(c)
    ensures ResultBytes(c) == Sum(c)
  {
    if c != [] { ResultBytesAreSum(c[1..]); }
  }

  lemma {:induction false} SnapshotsFit(cfg: Config, web: Web, es: seq<Event>)
    requires cfg.cacheBudget >= 0
    ensures var c := Run(cfg, web, es).caches.snapshots;
            Distinct(c) && SnapshotsWeighed(c) && Sum(c) <= cfg.cacheBudget
  {
    if es != [] {
      var b, e := es[..|es| - 1], es[|es| - 1];
      SnapshotsFit(cfg, web, b);
      var s, c := Run(cfg, web, b), Run(cfg, web, es).caches.snapshots;
      if e.ProbeSnapshots? && e.pid in s.procs {
        GetSlots(s.caches.snapshots, SnapKey(s.procs[e.pid].call), e.now, cfg.ttl);
        LruTraces.GetSum(s.caches.snapshots, SnapKey(s.procs[e.pid].call), e.now, cfg.ttl);
      } else if e.Reply? && c != s.caches.snapshots {
        var owner, d := ChangeIsCapture(cfg, web, es);
        PutSlots(s.caches.snapshots, SnapKey(owner), d, |d.body|, e.now, cfg.cacheBudget);
        PutIsLongestFit(s.caches.snapshots, SnapKey(owner), d, |d.body|, e.now, cfg.cacheBudget);
      }
    }
  }

  lemma {:induction false} ResultsFit(cfg: Config, web: Web, es: seq<Event>)
    requires cfg.cacheBudget >= 0
    ensures var c := Run(cfg, web, es).caches.results;
            Distinct(c) && ResultsWeighed(c) && Sum(c) <= cfg.cacheBudget
  {
    if es != [] {
      var b, e := es[..|es| - 1], es[|es| - 1];
      ResultsFit(cfg, web, b);
      var s, c := Run(cfg, web, b), Run(cfg, web, es).caches.results;
      if e.ProbeResults? && e.pid in s.procs && s.procs[e.pid].AtResults? {
        GetSlots(s.caches.results, ResultKey(s.procs[e.pid].call), e.now, cfg.ttl);
        LruTraces.GetSum(s.caches.results, ResultKey(s.procs[e.pid].call), e.now, cfg.ttl);
      } else if e.Reply? && c != s.caches.results {
        var owner, r := ChangeIsAnswer(cfg, web, es);
        PutSlots(s.caches.results, ResultKey(owner), r, |r.content|, e.now, cfg.cacheBudget);
        PutIsLongestFit(s.caches.results, ResultKey(owner), r, |r.content|, e.now, cfg.cacheBudget);
      }
    }
  }

  /** The budget in actual bytes: in every run the stored documents together,
      and the stored pages together, fit cacheBudget. */
  lemma HeldWithinBudget(cfg: Config, web: Web, es: seq<Event>)
    requires Sound(cfg)
    ensures SnapshotBytes(Run(cfg, web, es).caches.snapshots) <= cfg.cacheBudget
    ensures ResultBytes(Run(cfg, web, es).caches.results) <= cfg.cacheBudget
  {
    SnapshotsFit(cfg, web, es);
    ResultsFit(cfg, web, es);
    SnapshotBytesAreSum(Run(cfg, web, es).caches.snapshots);
    ResultBytesAreSum(Run(cfg, web, es).caches.results);
  }
}
