/** Cutting one document into pages: pageFrom, the stream route's page, and the
    agent's loop over next_offset (internal/tools/fetch/fetch.go). */
module Pages {
  import opened Bytes
  import opened Utf8

  datatype Page = Page(content: Text, truncated: bool, next: int)

  /** pageFrom: a page of a document held in memory. */
  function PageFrom(body: Text, offset: nat, maxBytes: nat): Page {
    if |body| <= offset then Page([], false, 0)
    else
      var end := Min(offset + maxBytes, |body|);
      var chunk := body[offset..end];
      if |body| > offset + maxBytes then
        var cut := Cut(chunk);
        Page(cut, true, offset + |cut|)
      else
        Page(chunk, false, 0)
  }

  /** pageFrom as the code runs it. */
  method CutPage(body: Text, offset: nat, maxBytes: nat) returns (p: Page)
    ensures p == PageFrom(body, offset, maxBytes)
  {
    if |body| <= offset { return Page([], false, 0); }
    var end := offset + maxBytes;
    if end > |body| { end := |body|; }
    var chunk := body[offset..end];
    if |body| > offset + maxBytes {
      chunk := CutToUTF8Boundary(chunk);
      return Page(chunk, true, offset + |chunk|);
    }
    return Page(chunk, false, 0);
  }

  /** What pageFromStream makes of the bytes readChunk returned: at most
      maxBytes plus the probe byte, cut whether or not the document goes on. */
  function PageOfChunk(chunk: Text, truncated: bool, offset: nat, maxBytes: nat): Page {
    var page := if |chunk| > maxBytes then chunk[..maxBytes] else chunk;
    var cut := Cut(page);
    Page(cut, truncated, if truncated then offset + |cut| else 0)
  }

  /** The bytes readChunk returns for a stream that delivers all of body. */
  function ChunkOf(body: Text, offset: nat, maxBytes: nat): Text {
    if |body| <= offset then [] else body[offset..Min(offset + maxBytes + 1, |body|)]
  }

  /** The page the uncached stream route returns: skip to offset, read one. */
  function StreamPage(body: Text, offset: nat, maxBytes: nat): Page {
    var chunk := ChunkOf(body, offset, maxBytes);
    PageOfChunk(chunk, |chunk| > maxBytes, offset, maxBytes)
  }

  /** The guard of the one branch in which the two routes part: a final page
      whose bytes do not end in a rune. */
  predicate RoutesAgree(body: Text, offset: nat, maxBytes: nat) {
    |body| <= offset || offset + maxBytes < |body| || EndsInRune(body[offset..])
  }

  /** The memory route and the stream route give the same page exactly when
      the page is truncated, past the end, or ends in a decodable rune. */
  lemma RoutesAgreeExactly(body: Text, offset: nat, maxBytes: nat)
    ensures PageFrom(body, offset, maxBytes) == StreamPage(body, offset, maxBytes)
            <==> RoutesAgree(body, offset, maxBytes)
  {
    if offset < |body| {
      var chunk := ChunkOf(body, offset, maxBytes);
      if offset + maxBytes < |body| {
        assert chunk[..maxBytes] == body[offset..offset + maxBytes];
      } else {
        assert chunk == body[offset..];
        CutIsLongest(chunk);
      }
    }
  }

  /** On valid text the routes agree at every rune boundary. */
  lemma AlignedRoutesAgree(body: Text, offset: nat, maxBytes: nat)
    requires Valid(body) && offset <= |body| && Valid(body[..offset])
    ensures RoutesAgree(body, offset, maxBytes)
  {
    ValidAfter(body, offset);
    if offset < |body| { ValidEndsInRune(body[offset..]); }
  }

  lemma HalfRuneEndsNothing(k: nat)
    ensures !TailRune([0x61, 0xC3], k)
  {
    var body: Text := [0x61, 0xC3];
    if k == 1 {
      assert Width(body[1..][0]) == 2;
    } else if k == 2 {
      assert Width(body[0..][0]) == 1;
    }
  }

  lemma AsciiEndsInRune()
    ensures EndsInRune([0x61])
  {
    var head: Text := [0x61];
    assert head[0..] == head && StartsRune(head);
    assert TailRune(head, 1);
  }

  lemma HalfRuneNotEnding()
    ensures !EndsInRune([0x61, 0xC3])
  {
    forall k | 1 <= k <= 4
      ensures !TailRune([0x61, 0xC3], k)
    {
      HalfRuneEndsNothing(k);
    }
  }

  lemma CutOneByte(b: Text, head: Text)
    requires b != [] && !EndsInRune(b) && head == b[..|b| - 1] && EndsInRune(head)
    ensures Cut(b) == head
  {
  }

  lemma BrokenTailIsCut()
    ensures Cut([0x61, 0xC3]) == [0x61]
  {
    var body: Text, head: Text := [0x61, 0xC3], [0x61];
    HalfRuneNotEnding();
    AsciiEndsInRune();
    assert head == body[..1];
    CutOneByte(body, head);
  }

  /** A document ending in half a rune: the stream route drops that byte and
      still says the document is complete. */
  lemma RoutesPartOnBrokenTail()
    ensures var body := [0x61, 0xC3];
            && PageFrom(body, 0, 8) == Page([0x61, 0xC3], false, 0)
            && StreamPage(body, 0, 8) == Page([0x61], false, 0)
  {
    var body: Text := [0x61, 0xC3];
    assert ChunkOf(body, 0, 8) == body && body[0..2] == body;
    BrokenTailIsCut();
  }

  /** What one page always satisfies, for any bytes: it is where it says it is,
      it is within the limit, and the continuation starts where it ends. */
  lemma PageMeaning(body: Text, offset: nat, maxBytes: nat)
    requires offset <= |body|
    ensures var p := PageFrom(body, offset, maxBytes);
            && |p.content| <= maxBytes
            && offset + |p.content| <= |body|
            && p.content == body[offset..offset + |p.content|]
            && (p.truncated <==> offset + maxBytes < |body|)
            && p.next == (if p.truncated then offset + |p.content| else 0)
            && (!p.truncated ==> p.content == body[offset..])
  {
    if offset < |body| {
      var chunk := body[offset..Min(offset + maxBytes, |body|)];
      CutPrefix(chunk);
    }
  }

  /** A truncated page is the longest part of its chunk that ends in a rune. */
  lemma PageIsLongest(body: Text, offset: nat, maxBytes: nat)
    requires offset + maxBytes < |body|
    ensures LongestCut(PageFrom(body, offset, maxBytes).content, body[offset..offset + maxBytes])
  {
    CutIsLongest(body[offset..offset + maxBytes]);
  }

  /** The stream route's page is always such a cut, truncated or not. */
  lemma StreamPageMeaning(body: Text, offset: nat, maxBytes: nat)
    ensures var p := StreamPage(body, offset, maxBytes);
            && (p.truncated <==> offset + maxBytes < |body|)
            && p.next == (if p.truncated then offset + |p.content| else 0)
            && (if offset <= |body| then LongestCut(p.content, body[offset..Min(offset + maxBytes, |body|)])
                else p.content == [])
  {
    var chunk := ChunkOf(body, offset, maxBytes);
    CutIsLongest(if |chunk| > maxBytes then chunk[..maxBytes] else chunk);
    if offset + maxBytes < |body| {
      assert chunk[..maxBytes] == body[offset..offset + maxBytes];
    } else if offset <= |body| {
      assert chunk == body[offset..];
    }
  }

  /** A truncated page makes no progress exactly when no non-empty prefix of
      its chunk ends in a decodable rune. */
  lemma StallsExactly(body: Text, offset: nat, maxBytes: nat)
    requires offset + maxBytes < |body|
    ensures var chunk := body[offset..offset + maxBytes];
            PageFrom(body, offset, maxBytes).next == offset
            <==> forall n :: 0 < n <= maxBytes ==> !EndsInRune(chunk[..n])
  {
    var chunk := body[offset..offset + maxBytes];
    CutIsLongest(chunk);
    var c := Cut(chunk);
    assert c == chunk[..|c|];
  }

  lemma AlignedCut(body: Text, offset: nat, maxBytes: nat)
    requires Valid(body) && offset + maxBytes < |body| && Valid(body[..offset])
    ensures var c := Cut(body[offset..offset + maxBytes]);
            && |c| <= maxBytes <= |c| + 3 && c == body[offset..offset + |c|] && Valid(c)
            && (maxBytes > 0 ==> (|c| > 0 <==> RuneLen(body[offset..]) <= maxBytes))
  {
    var rest := body[offset..];
    ValidAfter(body, offset);
    assert rest[..maxBytes] == body[offset..offset + maxBytes];
    CutKeepsValid(rest, maxBytes);
  }

  lemma CutPageIs(body: Text, offset: nat, maxBytes: nat)
    requires offset + maxBytes < |body|
    ensures var c := Cut(body[offset..offset + maxBytes]);
            PageFrom(body, offset, maxBytes) == Page(c, true, offset + |c|)
  {
  }

  /** On valid text at a boundary: a truncated page advances exactly when the
      next rune fits in a page. */
  lemma AlignedProgress(body: Text, offset: nat, maxBytes: nat)
    requires Valid(body) && offset + maxBytes < |body| && Valid(body[..offset]) && maxBytes > 0
    ensures PageFrom(body, offset, maxBytes).next > offset <==> RuneLen(body[offset..]) <= maxBytes
  {
    CutPageIs(body, offset, maxBytes);
    AlignedCut(body, offset, maxBytes);
  }

  lemma AlignedTruncatedPage(body: Text, offset: nat, maxBytes: nat)
    requires Valid(body) && offset + maxBytes < |body| && Valid(body[..offset])
    ensures var p := PageFrom(body, offset, maxBytes);
            && p.truncated && offset <= p.next <= offset + maxBytes <= p.next + 3
            && Valid(p.content) && Valid(body[..p.next])
  {
    CutPageIs(body, offset, maxBytes);
    AlignedCut(body, offset, maxBytes);
    BoundaryAfter(body, offset, |Cut(body[offset..offset + maxBytes])|);
  }

  lemma AlignedLastPage(body: Text, offset: nat, maxBytes: nat)
    requires Valid(body) && offset <= |body| <= offset + maxBytes && Valid(body[..offset])
    ensures Valid(PageFrom(body, offset, maxBytes).content) && !PageFrom(body, offset, maxBytes).truncated
  {
    assert PageFrom(body, offset, maxBytes).content == body[offset..] by { PageMeaning(body, offset, maxBytes); }
    ValidAfter(body, offset);
  }

  /** On valid text at a boundary: every page is valid, and a truncated one
      gives up at most 3 bytes and lands on a boundary again. */
  lemma AlignedPage(body: Text, offset: nat, maxBytes: nat)
    requires Valid(body) && offset <= |body| && Valid(body[..offset])
    ensures var p := PageFrom(body, offset, maxBytes);
            && Valid(p.content)
            && (p.truncated ==> && offset <= p.next <= |body| && Valid(body[..p.next])
                                && p.next <= offset + maxBytes <= p.next + 3)
  {
    if offset + maxBytes < |body| {
      AlignedTruncatedPage(body, offset, maxBytes);
    } else {
      AlignedLastPage(body, offset, maxBytes);
    }
  }

  // -------------------------------------------------------- the agent's loop

  datatype Walk = Done(pages: seq<Text>) | Stuck(at: nat)

  /** Call with the last next_offset, stop when truncated is false. A page
      that does not advance would be asked for again forever. */
  function Follow(body: Text, maxBytes: nat, offset: nat): Walk
    requires offset <= |body|
    decreases |body| - offset
  {
    var p := PageFrom(body, offset, maxBytes);
    if !p.truncated then Done([p.content])
    else if p.next <= offset then Stuck(offset)
    else
      PageMeaning(body, offset, maxBytes);
      match Follow(body, maxBytes, p.next)
      case Done(pages) => Done([p.content] + pages)
      case Stuck(at) => Stuck(at)
  }

  function Joined(pages: seq<Text>): Text {
    if pages == [] then [] else pages[0] + Joined(pages[1..])
  }

  /** A walk that ends has rebuilt the document, for any bytes whatever. */
  lemma {:induction false} FinishedWalkIsLossless(body: Text, maxBytes: nat, offset: nat)
    requires offset <= |body| && Follow(body, maxBytes, offset).Done?
    ensures Joined(Follow(body, maxBytes, offset).pages) == body[offset..]
    decreases |body| - offset
  {
    var p := PageFrom(body, offset, maxBytes);
    PageMeaning(body, offset, maxBytes);
    if p.truncated {
      FinishedWalkIsLossless(body, maxBytes, p.next);
      var pages := Follow(body, maxBytes, p.next).pages;
      assert ([p.content] + pages)[1..] == pages;
      assert body[offset..] == p.content + body[p.next..];
    } else {
      assert Joined([p.content]) == p.content + Joined([]);
    }
  }

  /** Every rune of s occupies at most m bytes. */
  predicate RunesFit(s: Text, m: nat)
    requires Valid(s)
    decreases |s|
  {
    s == [] || (RuneLen(s) <= m && RunesFit(s[RuneLen(s)..], m))
  }

  lemma {:induction false} RunesFitSplit(a: Text, b: Text, m: nat)
    requires Valid(a) && Valid(b) && Valid(a + b)
    ensures RunesFit(a + b, m) <==> RunesFit(a, m) && RunesFit(b, m)
    decreases |a|
  {
    if a == [] {
      assert a + b == b;
    } else {
      var k := RuneLen(a);
      RuneExtend(a, b);
      assert (a + b)[k..] == a[k..] + b;
      RunesFitSplit(a[k..], b, m);
    }
  }

  lemma {:induction false} ShortTextFits(s: Text, m: nat)
    requires Valid(s) && |s| <= m
    ensures RunesFit(s, m)
    decreases |s|
  {
    if s != [] { ShortTextFits(s[RuneLen(s)..], m); }
  }

  lemma ShortPrefixFits(s: Text, a: Text, b: Text, m: nat)
    requires s == a + b && Valid(a) && Valid(s) && |a| <= m
    ensures Valid(b) && (RunesFit(s, m) <==> RunesFit(b, m))
  {
    ValidAppend(a, b);
    RunesFitSplit(a, b, m);
    ShortTextFits(a, m);
  }

  lemma BigRuneDoesNotFit(s: Text, m: nat)
    requires Valid(s) && s != [] && RuneLen(s) > m
    ensures !RunesFit(s, m)
  {
  }

  lemma TruncatedPageSplits(body: Text, offset: nat, maxBytes: nat)
    requires offset <= |body| && PageFrom(body, offset, maxBytes).truncated
    ensures var p := PageFrom(body, offset, maxBytes);
            && offset <= p.next <= |body| && |p.content| <= maxBytes && body[offset..] == p.content + body[p.next..]
  {
    PageMeaning(body, offset, maxBytes);
  }

  lemma AdvancingPageFits(body: Text, offset: nat, maxBytes: nat)
    requires Valid(body) && offset <= |body| && Valid(body[..offset])
    requires Valid(body[offset..]) && PageFrom(body, offset, maxBytes).truncated
    ensures var next := PageFrom(body, offset, maxBytes).next;
            && offset <= next <= |body| && Valid(body[next..])
            && (RunesFit(body[offset..], maxBytes) <==> RunesFit(body[next..], maxBytes))
  {
    var p := PageFrom(body, offset, maxBytes);
    TruncatedPageSplits(body, offset, maxBytes);
    assert Valid(p.content) by { AlignedPage(body, offset, maxBytes); }
    ShortPrefixFits(body[offset..], p.content, body[p.next..], maxBytes);
  }

  /** On valid text the walk from a boundary ends exactly when every remaining
      rune fits in one page. */
  lemma {:induction false} WalkEndsExactly(body: Text, maxBytes: nat, offset: nat)
    requires maxBytes > 0 && Valid(body) && offset <= |body| && Valid(body[..offset])
    ensures Valid(body[offset..])
    ensures Follow(body, maxBytes, offset).Done? <==> RunesFit(body[offset..], maxBytes)
    decreases |body| - offset
  {
    var p := PageFrom(body, offset, maxBytes);
    ValidAfter(body, offset);
    AlignedPage(body, offset, maxBytes);
    assert p.truncated <==> offset + maxBytes < |body|;
    if p.truncated { AlignedProgress(body, offset, maxBytes); }
    if !p.truncated {
      ShortTextFits(body[offset..], maxBytes);
    } else if p.next > offset {
      AdvancingPageFits(body, offset, maxBytes);
      WalkEndsExactly(body, maxBytes, p.next);
    } else {
      BigRuneDoesNotFit(body[offset..], maxBytes);
    }
  }

  ghost predicate AllValid(pages: seq<Text>) { forall i :: 0 <= i < |pages| ==> Valid(pages[i]) }

  lemma AllValidCons(page: Text, rest: seq<Text>)
    requires Valid(page) && AllValid(rest)
    ensures AllValid([page] + rest)
  {
    var all := [page] + rest;
    forall i | 0 <= i < |all|
      ensures Valid(all[i])
    {
      if i == 0 { assert all[i] == page; } else { assert all[i] == rest[i - 1]; }
    }
  }

  /** Every page of a finished walk over valid text is valid UTF-8. */
  lemma {:induction false} WalkPagesValid(body: Text, maxBytes: nat, offset: nat)
    requires Valid(body) && offset <= |body| && Valid(body[..offset])
    ensures var w := Follow(body, maxBytes, offset); w.Done? ==> AllValid(w.pages)
    decreases |body| - offset
  {
    var p := PageFrom(body, offset, maxBytes);
    var w := Follow(body, maxBytes, offset);
    AlignedPage(body, offset, maxBytes);
    if p.truncated && p.next > offset && w.Done? {
      WalkPagesValid(body, maxBytes, p.next);
      AllValidCons(p.content, Follow(body, maxBytes, p.next).pages);
    } else if w.Done? {
      AllValidCons(p.content, []);
    }
  }

  lemma {:induction false} FourBytesSuffice(s: Text, m: nat)
    requires Valid(s) && m >= 4
    ensures RunesFit(s, m)
    decreases |s|
  {
    if s != [] { FourBytesSuffice(s[RuneLen(s)..], m); }
  }

  lemma {:induction false} WalkLength(body: Text, maxBytes: nat, offset: nat)
    requires maxBytes >= 4 && Valid(body) && offset <= |body| && Valid(body[..offset])
    ensures var w := Follow(body, maxBytes, offset);
            w.Done? ==> |w.pages| > 0 && Times(|w.pages| - 1, maxBytes - 3) <= |body| - offset
    decreases |body| - offset
  {
    var p := PageFrom(body, offset, maxBytes);
    if p.truncated && p.next > offset {
      assert p.next <= |body| && Valid(body[..p.next]) && p.next + 3 >= offset + maxBytes by {
        AlignedPage(body, offset, maxBytes);
      }
      WalkLength(body, maxBytes, p.next);
    }
  }

  lemma DivisionTop(total: nat, d: nat)
    requires d > 0
    ensures total < (total / d + 1) * d
  {
    assert total == d * (total / d) + total % d;
    assert (total / d + 1) * d == d * (total / d) + d;
  }

  lemma DivBound(n: nat, d: nat, total: nat)
    requires d > 0 && Times(n, d) <= total
    ensures n <= total / d
  {
    TimesIsProduct(n, d);
    DivisionTop(total, d);
    ProductLess(n, total / d + 1, d);
  }

  /** The most pages of at least maxBytes - 3 bytes, and a last one, that total
      bytes can take. */
  function PageBound(total: nat, maxBytes: nat): nat
    requires maxBytes >= 4
  {
    total / (maxBytes - 3) + 1
  }

  /** n pages, all but the last of at least maxBytes - 3 bytes, out of total. */
  ghost predicate Paced(n: nat, maxBytes: nat, total: nat) {
    n > 0 && maxBytes >= 4 && Times(n - 1, maxBytes - 3) <= total
  }

  lemma PageCount(n: nat, maxBytes: nat, total: nat)
    requires Paced(n, maxBytes, total)
    ensures n <= PageBound(total, maxBytes)
  {
    DivBound(n - 1, maxBytes - 3, total);
  }

  lemma ProductLess(a: nat, b: nat, d: nat)
    requires a * d < b * d
    ensures a < b
  {
  }

  /** The documented promise: for every valid document and every page size of
      at least 4, the loop from offset 0 ends within len/(maxBytes-3)+1 pages,
      every page is valid UTF-8, and the pages are the document. */
  lemma LosslessTerminatingWalk(body: Text, maxBytes: nat)
    requires Valid(body) && maxBytes >= 4
    ensures var w := Follow(body, maxBytes, 0);
            && w.Done?
            && |w.pages| <= PageBound(|body|, maxBytes)
            && AllValid(w.pages)
            && Joined(w.pages) == body
  {
    assert body[0..] == body && body[..0] == [];
    FourBytesSuffice(body, maxBytes);
    WalkEndsExactly(body, maxBytes, 0);
    WalkPagesValid(body, maxBytes, 0);
    FinishedWalkIsLossless(body, maxBytes, 0);
    WalkLength(body, maxBytes, 0);
    PageCount(|Follow(body, maxBytes, 0).pages|, maxBytes, |body|);
  }

  /** With pages of 3 bytes a 4-byte rune can never be delivered. */
  lemma SmallPagesStall()
    ensures var body := [0xF0, 0x9F, 0x98, 0x80];
            Valid(body) && Follow(body, 3, 0) == Stuck(0)
  {
    var body: Text := [0xF0, 0x9F, 0x98, 0x80];
    assert StartsRune(body) && RuneLen(body) == 4 && body[4..] == [];
    AlignedProgress(body, 0, 3);
    PageMeaning(body, 0, 3);
    assert body[0..] == body;
  }
}
