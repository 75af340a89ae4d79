/** A response body read as a stream, and the readers fetch.go runs over it. */
module Streams {
  import opened Bytes
  import opened Pages

  /** How the stream terminates once its data is exhausted; the outcome is
      sticky. */
  datatype Ending = CleanEof | Broken

  /** eager: the failure arrives together with the last bytes, as io.Reader
      allows, instead of on the read after them. */
  datatype Body = Body(data: Text, ending: Ending, eager: bool)

  function Left(b: Body, pos: nat): nat { if pos <= |b.data| then |b.data| - pos else 0 }

  // ------------------------------------------- what the io helpers deliver

  /** io.ReadAll(io.LimitReader(body, n)): a limit that is not positive reads
      nothing and reports no error. */
  function LimitedCount(b: Body, pos: nat, n: int): nat {
    if n <= 0 then 0 else Min(n, Left(b, pos))
  }

  predicate LimitedFails(b: Body, pos: nat, n: int) {
    n > 0 && b.ending.Broken? && (Left(b, pos) < n || (Left(b, pos) == n && b.eager))
  }

  /** io.ReadFull's error for a buffer of n bytes. */
  datatype ReadError = NoError | Eof | UnexpectedEof | Failed

  function FullError(b: Body, pos: nat, n: nat): ReadError {
    if Left(b, pos) >= n then NoError
    else if b.ending.Broken? then Failed
    else if Left(b, pos) == 0 then Eof
    else UnexpectedEof
  }

  class Stream {
    const body: Body
    var pos: nat

    ghost predicate Valid()
      reads this
    {
      pos <= |body.data|
    }

    constructor (body: Body)
      ensures Valid() && this.body == body && pos == 0
    {
      this.body := body;
      pos := 0;
    }

    method ReadAllLimited(n: int) returns (bytes: Text, failed: bool)
      requires Valid()
      modifies this
      ensures Valid() && pos == old(pos) + LimitedCount(body, old(pos), n)
      ensures bytes == body.data[old(pos)..pos]
      ensures failed <==> LimitedFails(body, old(pos), n)
    {
      var k := LimitedCount(body, pos, n);
      bytes, failed := body.data[pos..pos + k], LimitedFails(body, pos, n);
      pos := pos + k;
    }

    /** io.CopyN(io.Discard, body, n). */
    method Skip(n: nat) returns (skipped: nat, err: ReadError)
      requires Valid()
      modifies this
      ensures Valid() && skipped == Min(n, Left(body, old(pos))) && pos == old(pos) + skipped
      ensures err == if skipped == n then NoError else if body.ending.Broken? then Failed else Eof
    {
      skipped := Min(n, Left(body, pos));
      err := if skipped == n then NoError else if body.ending.Broken? then Failed else Eof;
      pos := pos + skipped;
    }

    /** io.ReadFull into a buffer of n bytes. */
    method ReadFull(n: nat) returns (count: nat, err: ReadError)
      requires Valid()
      modifies this
      ensures Valid() && count == Min(n, Left(body, old(pos))) && pos == old(pos) + count
      ensures err == FullError(body, old(pos), n)
    {
      count, err := Min(n, Left(body, pos)), FullError(body, pos, n);
      pos := pos + count;
    }
  }

  // ---------------------------------------------------------------- bodyEnded

  /** bodyEnded: at most one more byte, then a clean end. A single further
      byte is taken for the end although it belongs to the document. */
  method BodyEnded(s: Stream) returns (ended: bool)
    requires s.Valid()
    modifies s
    ensures s.Valid()
    ensures ended <==> s.body.ending.CleanEof? && |s.body.data| - old(s.pos) <= 1
  {
    var n, err := s.ReadFull(2);
    if err == NoError { return false; }
    if n == 0 { return err == Eof; }
    var _, err2 := s.ReadFull(1);
    if err2 == NoError { return false; }
    return err2 == Eof;
  }

  // ---------------------------------------------------------------- readChunk

  datatype Chunk = ReadFailed | Chunk(bytes: Text, truncated: bool)

  /** What reading one page at offset from a fresh stream comes to. */
  function ReadOutcome(b: Body, maxBytes: nat, offset: nat): Chunk {
    if Left(b, 0) < offset then
      if b.ending.Broken? then ReadFailed else Chunk([], false)
    else if LimitedFails(b, offset, maxBytes + 1) then ReadFailed
    else
      var bytes := b.data[offset..offset + LimitedCount(b, offset, maxBytes + 1)];
      Chunk(bytes, |bytes| > maxBytes)
  }

  method ReadChunk(s: Stream, maxBytes: nat, offset: nat) returns (c: Chunk)
    requires s.Valid() && s.pos == 0
    modifies s
    ensures s.Valid() && c == ReadOutcome(s.body, maxBytes, offset)
    ensures c.Chunk? && offset == 0 ==> s.pos == |c.bytes|
  {
    if offset > 0 {
      var n, err := s.Skip(offset);
      if err != NoError && err != Eof { return ReadFailed; }
      if n < offset { return Chunk([], false); }
    }
    var buf, failed := s.ReadAllLimited(maxBytes + 1);
    if failed { return ReadFailed; }
    return Chunk(buf, |buf| > maxBytes);
  }

  /** The stream carries doc: all of it before a clean end, some prefix of it
      before a failure. */
  ghost predicate Carries(b: Body, doc: Text) {
    b.data <= doc && (b.ending.CleanEof? ==> b.data == doc)
  }

  /** A successful read is the document's chunk, even from a stream that would
      have failed later; only a complete stream or a full chunk succeeds. */
  lemma ReadIsTheDocuments(b: Body, doc: Text, maxBytes: nat, offset: nat)
    requires Carries(b, doc)
    ensures match ReadOutcome(b, maxBytes, offset)
            case ReadFailed => b.ending.Broken?
            case Chunk(bytes, truncated) =>
              bytes == ChunkOf(doc, offset, maxBytes) && (truncated <==> |bytes| > maxBytes)
  {
    if |b.data| > offset && ReadOutcome(b, maxBytes, offset).Chunk? {
      assert b.data == doc[..|b.data|];
    }
  }

  // -------------------------------------------------------------- captureRest

  /** captureRest: nothing when the timer wins; otherwise what was read up to
      the limit and whether the body seemed to end there. The goroutine ignores
      ReadAll's error; bodyEnded meets the sticky failure instead. */
  method CaptureRest(s: Stream, limit: int, finished: bool) returns (rest: Text, done: bool)
    requires s.Valid()
    modifies s
    ensures s.Valid()
    ensures !finished ==> rest == [] && !done
    ensures finished ==>
              var k := LimitedCount(s.body, old(s.pos), limit);
              && rest == s.body.data[old(s.pos)..old(s.pos) + k]
              && (done <==> s.body.ending.CleanEof? && Left(s.body, old(s.pos)) - k <= 1)
  {
    if !finished { return [], false; }
    var failed;
    rest, failed := s.ReadAllLimited(limit);
    done := BodyEnded(s);
  }

  /** The outcome of captureAndPage's reading, before anything is stored. */
  datatype Capture = CaptureFailed | PageOnly(page: Text) | Whole(body: Text)

  function CaptureOutcome(b: Body, maxBytes: nat, budget: int, finished: bool): Capture {
    match ReadOutcome(b, maxBytes, 0)
    case ReadFailed => CaptureFailed
    case Chunk(page, _) =>
      var k := LimitedCount(b, |page|, budget - |page|);
      if finished && b.ending.CleanEof? && Left(b, |page|) - k <= 1
      then Whole(page + b.data[|page|..|page| + k])
      else PageOnly(page)
  }

  /** The reading half of captureAndPage: a page with its probe byte, then the
      rest up to what the budget leaves. */
  method ReadCapture(s: Stream, maxBytes: nat, budget: int, finished: bool) returns (c: Capture)
    requires s.Valid() && s.pos == 0
    modifies s
    ensures c == CaptureOutcome(s.body, maxBytes, budget, finished)
  {
    var first := ReadChunk(s, maxBytes, 0);
    if first.ReadFailed? { return CaptureFailed; }
    var page := first.bytes;
    var rest, done := CaptureRest(s, budget - |page|, finished);
    if !done { return PageOnly(page); }
    return Whole(page + rest);
  }

  /** Exactly when capture takes the body for complete, and what it then holds:
      at most max(maxBytes+1, budget) bytes of the document, one short when the
      document is one byte longer than that. */
  lemma CaptureExactly(b: Body, maxBytes: nat, budget: int, finished: bool)
    requires budget >= maxBytes
    ensures var reach := if budget > maxBytes then budget else maxBytes + 1;
            match CaptureOutcome(b, maxBytes, budget, finished)
            case CaptureFailed => LimitedFails(b, 0, maxBytes + 1)
            case PageOnly(page) =>
              && !LimitedFails(b, 0, maxBytes + 1)
              && !(finished && b.ending.CleanEof? && |b.data| <= reach + 1)
              && page == b.data[..Min(maxBytes + 1, |b.data|)]
            case Whole(body) =>
              && finished && b.ending.CleanEof? && |b.data| <= reach + 1
              && body == b.data[..Min(reach, |b.data|)]
  {
    if !LimitedFails(b, 0, maxBytes + 1) {
      var n := Min(maxBytes + 1, |b.data|);
      var page := b.data[..n];
      assert ReadOutcome(b, maxBytes, 0) == Chunk(page, n > maxBytes);
      var k := LimitedCount(b, n, budget - n);
      assert page + b.data[n..n + k] == b.data[..n + k];
    }
  }

  /** The first page does not depend on how capture ends: finished, timed out,
      over budget or failing after the page, it is the document's page. */
  lemma FirstPageIndependentOfCapture(b: Body, doc: Text, maxBytes: nat, budget: int, finished: bool)
    requires budget >= maxBytes && Carries(b, doc)
    ensures match CaptureOutcome(b, maxBytes, budget, finished)
            case CaptureFailed => b.ending.Broken?
            case PageOnly(page) => PageFrom(page, 0, maxBytes) == PageFrom(doc, 0, maxBytes)
            case Whole(body) => PageFrom(body, 0, maxBytes) == PageFrom(doc, 0, maxBytes)
  {
    CaptureExactly(b, maxBytes, budget, finished);
    ReadIsTheDocuments(b, doc, maxBytes, 0);
    match CaptureOutcome(b, maxBytes, budget, finished)
    case CaptureFailed =>
    case PageOnly(page) => PrefixFirstPage(page, doc, maxBytes);
    case Whole(body) => PrefixFirstPage(body, doc, maxBytes);
  }

  /** The page at 0 only looks at the first maxBytes+1 bytes. */
  lemma PrefixFirstPage(p: Text, doc: Text, maxBytes: nat)
    requires p <= doc && (p == doc || |p| > maxBytes)
    ensures PageFrom(p, 0, maxBytes) == PageFrom(doc, 0, maxBytes)
  {
    if |p| > maxBytes { assert p[0..maxBytes] == doc[0..maxBytes]; }
  }
}
