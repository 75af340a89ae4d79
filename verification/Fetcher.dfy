/** The paginating fetcher: its atomic steps as functions on the two caches,
    and the class whose methods perform them (internal/tools/fetch/fetch.go). */
module Fetch {
  import opened Bytes
  import opened Utf8
  import opened Pages
  import opened Streams
  import opened Keys
  import opened Lru
  import opened Cache

  const DEFAULT_MAX_BYTES: nat := 64 * 1024
  const DEFAULT_CACHE_MAX_BYTES: int := 32 * 1024 * 1024

  datatype Config = Config(maxBytes: nat, cacheBudget: int, ttl: int)

  /** What New establishes whatever it is given. */
  ghost predicate Sound(cfg: Config) {
    cfg.maxBytes > 0 && cfg.cacheBudget >= cfg.maxBytes && cfg.ttl > 0
  }

  datatype URL = URL(scheme: Text, redacted: Text)

  /** strings.TrimSpace(s) == "" and url.Parse, as parameters. */
  datatype Web = Web(blank: Text -> bool, parse: Text -> Option<URL>)

  const HTTP: Text := [0x68, 0x74, 0x74, 0x70]
  const HTTPS: Text := [0x68, 0x74, 0x74, 0x70, 0x73]

  datatype Call = Call(rawURL: Text, offset: int, cacheKey: Text)

  datatype Error = EmptyURL | NegativeOffset | ParseFailed | UnsupportedScheme
                 | TransportFailed | BadStatus(code: int) | ReadBody

  datatype Result = Result(
    url: Text, statusCode: int, contentType: Text, offset: int,
    content: Text, bytes: int, truncated: bool, nextOffset: int)

  datatype Outcome = Success(result: Result) | Failure(error: Error)

  datatype DocEntry = DocEntry(body: Text, statusCode: int, contentType: Text)

  /** What the origin answers one GET with. */
  datatype Reply = NoResponse
                 | Response(status: int, contentType: Text, contentLength: int, body: Body)

  datatype Caches = Caches(snapshots: seq<Slot<DocEntry>>, results: seq<Slot<Result>>)

  function SnapKey(call: Call): Key { PairKey(call.cacheKey, call.rawURL) }

  function ResultKey(call: Call): Key
    requires call.offset >= 0
  {
    TripleKey(call.cacheKey, call.rawURL, call.offset)
  }

  function Redacted(web: Web, rawURL: Text): Text {
    match web.parse(rawURL)
    case Some(u) => u.redacted
    case None => []
  }

  function MakeResult(web: Web, rawURL: Text, status: int, contentType: Text, offset: int, p: Page): Result {
    Result(Redacted(web, rawURL), status, contentType, offset, p.content, |p.content|, p.truncated, p.next)
  }

  // ------------------------------------------------------------ atomic steps

  function Validate(web: Web, call: Call): Option<Error> {
    if web.blank(call.rawURL) then Some(EmptyURL)
    else if call.offset < 0 then Some(NegativeOffset)
    else
      match web.parse(call.rawURL)
      case None => Some(ParseFailed)
      case Some(u) => if u.scheme != HTTP && u.scheme != HTTPS then Some(UnsupportedScheme) else None
  }

  /** The result-cache probe. */
  function LookResults(cfg: Config, c: Caches, call: Call, now: int): (Caches, Option<Result>)
    requires call.offset >= 0
  {
    if call.cacheKey == [] then (c, None)
    else
      var (results, hit) := GetStep(c.results, ResultKey(call), now, cfg.ttl);
      (c.(results := results), hit)
  }

  /** The snapshot-cache probe; a hit is paged from memory. */
  function LookSnapshots(cfg: Config, web: Web, c: Caches, call: Call, now: int): (Caches, Option<Result>)
    requires call.offset >= 0
  {
    if call.cacheKey == [] then (c, None)
    else
      var (snapshots, hit) := GetStep(c.snapshots, SnapKey(call), now, cfg.ttl);
      (c.(snapshots := snapshots),
       match hit
       case None => None
       case Some(d) =>
         Some(MakeResult(web, call.rawURL, d.statusCode, d.contentType, call.offset,
                         PageFrom(d.body, call.offset, cfg.maxBytes))))
  }

  function StoreResult(cfg: Config, c: Caches, call: Call, r: Result, now: int): Caches
    requires call.offset >= 0
  {
    if call.cacheKey == [] then c
    else c.(results := PutStep(c.results, ResultKey(call), r, |r.content|, now, cfg.cacheBudget))
  }

  predicate Captures(cfg: Config, call: Call, contentLength: int) {
    call.cacheKey != [] && call.offset == 0 && (contentLength <= 0 || contentLength <= cfg.cacheBudget)
  }

  /** The origin's reply: page it, and store a snapshot, a result or nothing. */
  function Arrive(cfg: Config, web: Web, c: Caches, call: Call, reply: Reply, finished: bool, now: int)
    : (Caches, Outcome)
    requires call.offset >= 0
  {
    match reply
    case NoResponse => (c, Failure(TransportFailed))
    case Response(status, contentType, contentLength, body) =>
      if status < 200 || status > 299 then (c, Failure(BadStatus(status)))
      else if Captures(cfg, call, contentLength) then
        ArriveCapturing(cfg, web, c, call, status, contentType, body, finished, now)
      else
        match ReadOutcome(body, cfg.maxBytes, call.offset)
        case ReadFailed => (c, Failure(ReadBody))
        case Chunk(bytes, truncated) =>
          var r := MakeResult(web, call.rawURL, status, contentType, call.offset,
                              PageOfChunk(bytes, truncated, call.offset, cfg.maxBytes));
          (StoreResult(cfg, c, call, r, now), Success(r))
  }

  function ArriveCapturing(
    cfg: Config, web: Web, c: Caches, call: Call, status: int, contentType: Text, body: Body, finished: bool, now: int)
    : (Caches, Outcome)
    requires call.offset == 0
  {
    match CaptureOutcome(body, cfg.maxBytes, cfg.cacheBudget, finished)
    case CaptureFailed => (c, Failure(ReadBody))
    case PageOnly(page) =>
      var r := MakeResult(web, call.rawURL, status, contentType, 0, PageFrom(page, 0, cfg.maxBytes));
      (StoreResult(cfg, c, call, r, now), Success(r))
    case Whole(whole) =>
      var r := MakeResult(web, call.rawURL, status, contentType, 0, PageFrom(whole, 0, cfg.maxBytes));
      if |whole| <= cfg.cacheBudget then
        (c.(snapshots := PutStep(c.snapshots, SnapKey(call), DocEntry(whole, status, contentType),
                                 |whole|, now, cfg.cacheBudget)),
         Success(r))
      else
        (StoreResult(cfg, c, call, r, now), Success(r))
  }

  /** One whole call with nothing interleaved, and whether it contacted the
      origin: the three probes run at times t1 <= t2 <= t3. */
  function FetchAlone(
    cfg: Config, web: Web, c: Caches, call: Call, reply: Reply, finished: bool, t1: int, t2: int, t3: int)
    : (Caches, Outcome, bool)
  {
    match Validate(web, call)
    case Some(e) => (c, Failure(e), false)
    case None =>
      var (c1, hit1) := LookResults(cfg, c, call, t1);
      if hit1.Some? then (c1, Success(hit1.value), false)
      else
        var (c2, hit2) := LookSnapshots(cfg, web, c1, call, t2);
        if hit2.Some? then (c2, Success(hit2.value), false)
        else
          var (c3, out) := Arrive(cfg, web, c2, call, reply, finished, t3);
          (c3, out, true)
  }

  // ---------------------------------------------------------------- the class

  class Fetcher {
    const cfg: Config
    const web: Web
    const snapshots: MemoryCache<DocEntry>
    const results: MemoryCache<Result>

    ghost predicate Valid()
      reads this, snapshots, results
    {
      && Sound(cfg)
      && snapshots as object != results
      && snapshots.Valid() && snapshots.maxBytes == cfg.cacheBudget && snapshots.ttl == cfg.ttl
      && results.Valid() && results.maxBytes == cfg.cacheBudget && results.ttl == cfg.ttl
    }

    ghost function View(): Caches
      requires Valid()
      reads this, snapshots, results
    {
      Caches(snapshots.View(), results.View())
    }

    /** New: non-positive settings fall back to the defaults and the budget is
        raised to at least one page. */
    constructor (web: Web, maxBytes: int, cacheBudget: int, ttl: int)
      ensures Valid() && View() == Caches([], []) && this.web == web
      ensures fresh(snapshots) && fresh(results)
      ensures cfg.maxBytes == if maxBytes > 0 then maxBytes else 65_536
      ensures cfg.ttl == if ttl > 0 then ttl else 300_000_000_000
      ensures var b := if cacheBudget > 0 then cacheBudget else 33_554_432;
              cfg.cacheBudget == if b < cfg.maxBytes then cfg.maxBytes else b
    {
      var m: nat := if maxBytes <= 0 then DEFAULT_MAX_BYTES else maxBytes;
      var b := if cacheBudget <= 0 then DEFAULT_CACHE_MAX_BYTES else cacheBudget;
      if b < m { b := m; }
      var t := if ttl <= 0 then DEFAULT_TTL else ttl;
      var s := new MemoryCache<DocEntry>(b, t);
      var r := new MemoryCache<Result>(b, t);
      this.web := web;
      cfg, snapshots, results := Config(m, b, t), s, r;
    }

    /** Fetch performs exactly FetchAlone on the two caches. reply and finished
        stand for the network: they are only looked at on a cache miss. */
    method Fetch(call: Call, reply: Reply, finished: bool, t1: int, t2: int, t3: int)
      returns (out: Outcome, contacted: bool)
      requires Valid()
      modifies snapshots, results
      ensures Valid()
      ensures (View(), out, contacted) == FetchAlone(cfg, web, old(View()), call, reply, finished, t1, t2, t3)
    {
      contacted := false;
      if web.blank(call.rawURL) { return Failure(EmptyURL), false; }
      if call.offset < 0 { return Failure(NegativeOffset), false; }
      var parsed := web.parse(call.rawURL);
      if parsed.None? { return Failure(ParseFailed), false; }
      if parsed.value.scheme != HTTP && parsed.value.scheme != HTTPS { return Failure(UnsupportedScheme), false; }
      if call.cacheKey != [] {
        var hit := results.Get(ResultKey(call), t1);
        if hit.Some? { return Success(hit.value), false; }
        var doc := snapshots.Get(SnapKey(call), t2);
        if doc.Some? {
          var r := PageResult(call.rawURL, doc.value.statusCode, doc.value.contentType, doc.value.body, call.offset);
          return Success(r), false;
        }
      }
      contacted := true;
      if reply.NoResponse? { return Failure(TransportFailed), true; }
      if reply.status < 200 || reply.status > 299 { return Failure(BadStatus(reply.status)), true; }
      var stream := new Stream(reply.body);
      if call.cacheKey != [] && call.offset == 0
         && (reply.contentLength <= 0 || reply.contentLength <= cfg.cacheBudget) {
        var captured;
        out, captured := CaptureAndPage(call, stream, reply.status, reply.contentType, finished, t3);
        if out.Success? && !captured { StoreInResults(call, out.result, t3); }
        return;
      }
      out := PageFromStream(call, stream, reply.status, reply.contentType);
      if out.Success? { StoreInResults(call, out.result, t3); }
    }

    /** storeResult. */
    method StoreInResults(call: Call, r: Result, now: int)
      requires Valid() && call.offset >= 0
      modifies results
      ensures Valid() && View() == StoreResult(cfg, old(View()), call, r, now)
    {
      if call.cacheKey == [] { return; }
      results.Put(ResultKey(call), r, |r.content|, now);
    }

    /** captureAndPage: the first page, and a snapshot when the whole body
        arrived in time and fits the budget. */
    method CaptureAndPage(call: Call, s: Stream, status: int, contentType: Text, finished: bool, now: int)
      returns (out: Outcome, captured: bool)
      requires Valid() && s.Valid() && s.pos == 0 && call.offset == 0 && call.cacheKey != []
      requires s as object != snapshots && s as object != results
      modifies snapshots, s
      ensures Valid()
      ensures results.View() == old(results.View())
      ensures match CaptureOutcome(s.body, cfg.maxBytes, cfg.cacheBudget, finished)
              case CaptureFailed => out == Failure(ReadBody) && !captured && snapshots.View() == old(snapshots.View())
              case PageOnly(page) =>
                && out == Success(MakeResult(web, call.rawURL, status, contentType, 0, PageFrom(page, 0, cfg.maxBytes)))
                && !captured && snapshots.View() == old(snapshots.View())
              case Whole(body) =>
                && out == Success(MakeResult(web, call.rawURL, status, contentType, 0, PageFrom(body, 0, cfg.maxBytes)))
                && (captured <==> |body| <= cfg.cacheBudget)
                && snapshots.View() == if captured
                   then PutStep(old(snapshots.View()), SnapKey(call), DocEntry(body, status, contentType),
                                |body|, now, cfg.cacheBudget)
                   else old(snapshots.View())
    {
      captured := false;
      var c := ReadCapture(s, cfg.maxBytes, cfg.cacheBudget, finished);
      if c.CaptureFailed? { return Failure(ReadBody), false; }
      if c.PageOnly? {
        var r := PageResult(call.rawURL, status, contentType, c.page, 0);
        return Success(r), false;
      }
      var body := c.body;
      if |body| <= cfg.cacheBudget {
        snapshots.Put(SnapKey(call), DocEntry(body, status, contentType), |body|, now);
        captured := true;
      }
      var r := PageResult(call.rawURL, status, contentType, body, 0);
      out := Success(r);
    }

    /** pageFromStream: skip to offset, read one page, cut it whether or not
        the document continues. */
    method PageFromStream(call: Call, s: Stream, status: int, contentType: Text) returns (out: Outcome)
      requires s.Valid() && s.pos == 0 && call.offset >= 0
      modifies s
      ensures out == match ReadOutcome(s.body, cfg.maxBytes, call.offset)
                     case ReadFailed => Failure(ReadBody)
                     case Chunk(bytes, truncated) =>
                       Success(MakeResult(web, call.rawURL, status, contentType, call.offset,
                                          PageOfChunk(bytes, truncated, call.offset, cfg.maxBytes)))
    {
      var c := ReadChunk(s, cfg.maxBytes, call.offset);
      if c.ReadFailed? { return Failure(ReadBody); }
      var page := c.bytes;
      if |page| > cfg.maxBytes { page := page[..cfg.maxBytes]; }
      var content := CutToUTF8Boundary(page);
      var next := 0;
      if c.truncated { next := call.offset + |content|; }
      return Success(MakeResult(web, call.rawURL, status, contentType, call.offset, Page(content, c.truncated, next)));
    }

    /** pageResult. */
    method PageResult(rawURL: Text, status: int, contentType: Text, body: Text, offset: nat) returns (r: Result)
      ensures r == MakeResult(web, rawURL, status, contentType, offset, PageFrom(body, offset, cfg.maxBytes))
    {
      var p := CutPage(body, offset, cfg.maxBytes);
      r := MakeResult(web, rawURL, status, contentType, offset, p);
    }
  }
}
