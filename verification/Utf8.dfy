/** UTF-8 as section 3 of RFC 3629 defines it, the forward and backward rune
    decoders of Go's unicode/utf8, and the boundary cut built on the latter. */
module Utf8 {
  import opened Bytes

  const RUNE_ERROR := 0xFFFD

  /** What a decoder returns: a code point and how many bytes it occupied. */
  datatype Decoded = Decoded(rune: int, size: nat)

  predicate IsCont(b: byte) { 0x80 <= b < 0xC0 }

  // ---------------------------------------------------------------- decoding

  /** Bytes announced by a lead byte; 0 when the byte cannot start a rune. */
  function Width(b: byte): nat {
    if b < 0x80 then 1
    else if 0xC2 <= b <= 0xDF then 2
    else if 0xE0 <= b <= 0xEF then 3
    else if 0xF0 <= b <= 0xF4 then 4
    else 0
  }

  /** The second byte's accepted range excludes overlong forms, surrogates and
      values above U+10FFFF. */
  predicate SecondOk(lead: byte, b: byte) {
    && (if lead == 0xE0 then 0xA0 else if lead == 0xF0 then 0x90 else 0x80) <= b
    && b <= (if lead == 0xED then 0x9F else if lead == 0xF4 then 0x8F else 0xBF)
  }

  /** p starts with one complete, well-formed rune. */
  predicate StartsRune(p: Text) {
    && p != []
    && var w := Width(p[0]);
    && 0 < w <= |p|
    && (w >= 2 ==> SecondOk(p[0], p[1]))
    && (w >= 3 ==> IsCont(p[2]))
    && (w >= 4 ==> IsCont(p[3]))
  }

  /** The payload bits of a rune of w bytes. */
  function CodePoint(p: Text, w: nat): int
    requires 1 <= w <= 4 && w <= |p|
  {
    var b0: int := p[0];
    if w == 1 then b0
    else
      var b1: int := p[1];
      if w == 2 then (b0 - 0xC0) * 64 + (b1 - 0x80)
      else
        var b2: int := p[2];
        if w == 3 then (b0 - 0xE0) * 4096 + (b1 - 0x80) * 64 + (b2 - 0x80)
        else
          var b3: int := p[3];
          (b0 - 0xF0) * 262144 + (b1 - 0x80) * 4096 + (b2 - 0x80) * 64 + (b3 - 0x80)
  }

  function DecodeRune(p: Text): Decoded {
    if p == [] then Decoded(RUNE_ERROR, 0)
    else if StartsRune(p) then Decoded(CodePoint(p, Width(p[0])), Width(p[0]))
    else Decoded(RUNE_ERROR, 1)
  }

  /** The test every caller makes: nothing decodable was found. */
  predicate Undecodable(d: Decoded) { d.rune == RUNE_ERROR && d.size <= 1 }

  /** Length of the rune at the head of p; 0 when there is none. */
  function RuneLen(p: Text): (n: nat)
    ensures n <= 4 && n <= |p|
    ensures n == 0 <==> Undecodable(DecodeRune(p))
    ensures n > 0 ==> n == DecodeRune(p).size
  {
    if StartsRune(p) then Width(p[0]) else 0
  }

  /** The backward search of DecodeLastRune for a byte that can start a rune. */
  function ScanBack(p: Text, i: int, lim: nat): (r: int)
    requires lim - 1 <= i < |p|
    ensures lim - 1 <= r <= i
    ensures forall j :: r < j <= i ==> IsCont(p[j])
    ensures r >= lim ==> !IsCont(p[r])
    decreases i - lim
  {
    if i < lim || !IsCont(p[i]) then i else ScanBack(p, i - 1, lim)
  }

  function DecodeLastRune(p: Text): Decoded {
    if p == [] then Decoded(RUNE_ERROR, 0)
    else
      var end := |p|;
      if p[end - 1] < 0x80 then Decoded(p[end - 1], 1)
      else
        var lim := if end < 4 then 0 else end - 4;
        var found := if end == 1 then -1 else ScanBack(p, end - 2, lim);
        var start := if found < 0 then 0 else found;
        var d := DecodeRune(p[start..]);
        if start + d.size != end then Decoded(RUNE_ERROR, 1) else d
  }

  // -------------------------------------------------- the standard's encoder

  predicate IsScalar(c: int) { 0 <= c < 0xD800 || 0xE000 <= c <= 0x10FFFF }

  function Encode(c: int): Text
    requires IsScalar(c)
  {
    if c < 0x80 then [c]
    else if c < 0x800 then [0xC0 + c / 64, 0x80 + c % 64]
    else if c < 0x10000 then [0xE0 + c / 4096, 0x80 + c / 64 % 64, 0x80 + c % 64]
    else [0xF0 + c / 262144, 0x80 + c / 4096 % 64, 0x80 + c / 64 % 64, 0x80 + c % 64]
  }

  ghost predicate AllScalar(cs: seq<int>) { forall i :: 0 <= i < |cs| ==> IsScalar(cs[i]) }

  function EncodeAll(cs: seq<int>): Text
    requires AllScalar(cs)
  {
    if cs == [] then [] else Encode(cs[0]) + EncodeAll(cs[1..])
  }

  /** Decoding inverts encoding, whatever follows. */
  lemma DecodeInvertsEncode(c: int, rest: Text)
    requires IsScalar(c)
    ensures DecodeRune(Encode(c) + rest) == Decoded(c, |Encode(c)|)
    ensures RuneLen(Encode(c) + rest) == |Encode(c)|
  {
    var e := Encode(c);
    var p := e + rest;
    EncodeShape(c);
    assert p[0] == e[0];
    assert |e| > 1 ==> p[1] == e[1];
    assert |e| > 2 ==> p[2] == e[2];
    assert |e| > 3 ==> p[3] == e[3];
    assert StartsRune(p) && Width(p[0]) == |e|;
    assert CodePoint(p, |e|) == CodePoint(e, |e|);
  }

  /** Base-64 digits of c, as the encoder and the decoder each write them. */
  lemma Digits(c: int)
    requires c >= 0
    ensures c / 4096 == c / 64 / 64 && c / 262144 == c / 64 / 64 / 64
    ensures c == 64 * (c / 64) + c % 64
    ensures c / 64 == 64 * (c / 4096) + c / 64 % 64
    ensures c / 4096 == 64 * (c / 262144) + c / 4096 % 64
  {
  }

  lemma EncodeShape2(c: int)
    requires 0x80 <= c < 0x800
    ensures var e := Encode(c); StartsRune(e) && Width(e[0]) == |e| && CodePoint(e, |e|) == c
  {
    Digits(c);
  }

  lemma EncodeShape3(c: int)
    requires IsScalar(c) && 0x800 <= c < 0x10000
    ensures var e := Encode(c); StartsRune(e) && Width(e[0]) == |e| && CodePoint(e, |e|) == c
  {
    Digits(c);
    var x, y, z := c / 4096, c / 64 % 64, c % 64;
    assert c == x * 4096 + y * 64 + z && 0 <= y < 64 && 0 <= z < 64;
    var e: Text := [0xE0 + x, 0x80 + y, 0x80 + z];
    assert Encode(c) == e;
  }

  lemma EncodeShape4(c: int)
    requires IsScalar(c) && c >= 0x10000
    ensures var e := Encode(c); StartsRune(e) && Width(e[0]) == |e| && CodePoint(e, |e|) == c
  {
    Digits(c);
    var w, x, y, z := c / 262144, c / 4096 % 64, c / 64 % 64, c % 64;
    assert c == w * 262144 + x * 4096 + y * 64 + z && 0 <= x < 64 && 0 <= y < 64 && 0 <= z < 64;
    var e: Text := [0xF0 + w, 0x80 + x, 0x80 + y, 0x80 + z];
    assert Encode(c) == e;
  }

  lemma EncodeShape(c: int)
    requires IsScalar(c)
    ensures var e := Encode(c); StartsRune(e) && Width(e[0]) == |e| && CodePoint(e, |e|) == c
  {
    if c < 0x80 {
    } else if c < 0x800 {
      EncodeShape2(c);
    } else if c < 0x10000 {
      EncodeShape3(c);
    } else {
      EncodeShape4(c);
    }
  }

  /** Encoding inverts decoding: no overlong form or surrogate is accepted. */
  lemma EncodeInvertsDecode(p: Text)
    requires RuneLen(p) > 0
    ensures var c := DecodeRune(p).rune; IsScalar(c) && Encode(c) == p[..RuneLen(p)]
  {
    var c := DecodeRune(p).rune;
    var b0: int := p[0];
    if RuneLen(p) == 2 {
      assert c / 64 == b0 - 0xC0;
    } else if RuneLen(p) == 3 {
      var b1: int := p[1];
      assert c / 4096 == b0 - 0xE0;
      assert c / 64 == (b0 - 0xE0) * 64 + (b1 - 0x80);
    } else if RuneLen(p) == 4 {
      var b1: int, b2: int := p[1], p[2];
      assert c / 262144 == b0 - 0xF0;
      assert c / 4096 == (b0 - 0xF0) * 64 + (b1 - 0x80);
      assert c / 64 == (b0 - 0xF0) * 4096 + (b1 - 0x80) * 64 + (b2 - 0x80);
    }
  }

  // ---------------------------------------------------------------- validity

  /** s is a sequence of complete runes. */
  predicate Valid(s: Text)
    decreases |s|
  {
    s == [] || (RuneLen(s) > 0 && Valid(s[RuneLen(s)..]))
  }

  /** Validity is exactly "some scalar values encode to s". */
  lemma {:induction false} ValidIffEncoded(s: Text)
    ensures Valid(s) <==> exists cs :: AllScalar(cs) && EncodeAll(cs) == s
  {
    if Valid(s) {
      var cs := Decode(s);
    }
    forall cs | AllScalar(cs) && EncodeAll(cs) == s
      ensures Valid(s)
    {
      EncodedIsValid(cs);
    }
  }

  lemma EncodeAllCons(c: int, cs: seq<int>)
    requires IsScalar(c) && AllScalar(cs)
    ensures AllScalar([c] + cs) && EncodeAll([c] + cs) == Encode(c) + EncodeAll(cs)
  {
    assert ([c] + cs)[1..] == cs;
  }

  lemma {:induction false} Decode(s: Text) returns (cs: seq<int>)
    requires Valid(s)
    ensures AllScalar(cs) && EncodeAll(cs) == s
    decreases |s|
  {
    if s == [] {
      cs := [];
    } else {
      var c, k := DecodeRune(s).rune, RuneLen(s);
      assert IsScalar(c) && Encode(c) == s[..k] by { EncodeInvertsDecode(s); }
      var rest := Decode(s[k..]);
      EncodeAllCons(c, rest);
      cs := [c] + rest;
    }
  }

  lemma {:induction false} EncodedIsValid(cs: seq<int>)
    requires AllScalar(cs)
    ensures Valid(EncodeAll(cs))
  {
    if cs != [] {
      var rest := EncodeAll(cs[1..]);
      DecodeInvertsEncode(cs[0], rest);
      EncodedIsValid(cs[1..]);
      assert (Encode(cs[0]) + rest)[|Encode(cs[0])|..] == rest;
    }
  }

  // -------------------------------------------------------------- boundaries

  lemma RuneShape(p: Text)
    requires RuneLen(p) > 0
    ensures !IsCont(p[0])
    ensures forall j :: 1 <= j < RuneLen(p) ==> IsCont(p[j])
  {
  }

  /** A rune is recognised by its own bytes alone. */
  lemma RuneLocal(p: Text, n: nat)
    requires RuneLen(p) > 0 && n <= |p|
    ensures RuneLen(p[..n]) == if RuneLen(p) <= n then RuneLen(p) else 0
  {
    var k := RuneLen(p);
    if k <= n {
      assert p[..n][0] == p[0];
      assert k > 1 ==> p[..n][1] == p[1];
      assert k > 2 ==> p[..n][2] == p[2];
      assert k > 3 ==> p[..n][3] == p[3];
    } else if n > 0 {
      assert p[..n][0] == p[0];
    }
  }

  lemma RuneExtend(p: Text, q: Text)
    requires RuneLen(p) > 0
    ensures RuneLen(p + q) == RuneLen(p)
  {
    var k := RuneLen(p);
    assert (p + q)[0] == p[0];
    assert k > 1 ==> (p + q)[1] == p[1];
    assert k > 2 ==> (p + q)[2] == p[2];
    assert k > 3 ==> (p + q)[3] == p[3];
  }

  lemma {:induction false} ValidAppend(a: Text, b: Text)
    requires Valid(a)
    ensures Valid(a + b) <==> Valid(b)
    decreases |a|
  {
    if a == [] {
      assert a + b == b;
    } else {
      var k := RuneLen(a);
      RuneExtend(a, b);
      assert (a + b)[k..] == a[k..] + b;
      ValidAppend(a[k..], b);
    }
  }

  /** UTF-8 is self-synchronising: within valid text a position is a rune
      boundary exactly when its byte is not a continuation byte. */
  lemma {:induction false} Boundary(s: Text, i: nat)
    requires Valid(s) && i <= |s|
    ensures Valid(s[..i]) <==> i == |s| || !IsCont(s[i])
    decreases |s|
  {
    if s != [] {
      var k := RuneLen(s);
      RuneShape(s);
      RuneLocal(s, i);
      if i >= k {
        Boundary(s[k..], i - k);
        assert s[..i][k..] == s[k..][..i - k];
      }
    }
  }

  lemma {:induction false} NearBoundary(s: Text, n: nat) returns (j: nat)
    requires Valid(s) && n <= |s|
    ensures j <= n <= j + 3 && Valid(s[..j])
    ensures n > 0 && RuneLen(s) <= n ==> j > 0
    decreases |s|
  {
    if s == [] || n < RuneLen(s) {
      j := 0;
    } else {
      var k := RuneLen(s);
      var r := NearBoundary(s[k..], n - k);
      j := k + r;
      RuneLocal(s, j);
      assert s[..j][k..] == s[k..][..r];
    }
  }

  // -------------------------------------------------------- the tail decoder

  /** The last k bytes of b are one rune. */
  predicate TailRune(b: Text, k: nat) {
    1 <= k <= |b| && RuneLen(b[|b| - k..]) == k
  }

  predicate EndsInRune(b: Text) {
    exists k :: 1 <= k <= 4 && TailRune(b, k)
  }

  /** The backward decoder succeeds exactly on text ending in a rune, and
      then reports that rune. */
  lemma DecodeLastMeaning(b: Text)
    ensures Undecodable(DecodeLastRune(b)) <==> !EndsInRune(b)
    ensures EndsInRune(b) ==>
              TailRune(b, DecodeLastRune(b).size)
              && DecodeLastRune(b) == DecodeRune(b[|b| - DecodeLastRune(b).size..])
  {
    if EndsInRune(b) {
      var k :| 1 <= k <= 4 && TailRune(b, k);
      DecodeLastFinds(b, k);
    } else if !Undecodable(DecodeLastRune(b)) {
      DecodeLastSound(b);
    }
  }

  lemma DecodeLastFinds(b: Text, k: nat)
    requires 1 <= k <= 4 && TailRune(b, k)
    ensures DecodeLastRune(b) == DecodeRune(b[|b| - k..]) && DecodeLastRune(b).size == k
    ensures !Undecodable(DecodeLastRune(b))
  {
    var t, at := b[|b| - k..], |b| - k;
    RuneShape(t);
    assert b[at] == t[0];
    assert forall j :: 1 <= j < k ==> IsCont(t[j]) && b[at + j] == t[j];
    assert forall j :: at < j < |b| ==> IsCont(b[j]) by {
      forall j | at < j < |b| ensures IsCont(b[j]) { assert b[at + (j - at)] == t[j - at]; }
    }
  }

  lemma DecodeLastSound(b: Text)
    requires !Undecodable(DecodeLastRune(b))
    ensures DecodeLastRune(b).size <= 4 && TailRune(b, DecodeLastRune(b).size)
  {
    if b[|b| - 1] < 0x80 {
      assert b[|b| - 1..] == [b[|b| - 1]];
    }
  }

  lemma TailRuneSuffix(p: Text, i: nat, k: nat)
    requires i <= |p| && TailRune(p[i..], k)
    ensures TailRune(p, k)
  {
    assert p[i..][|p| - i - k..] == p[|p| - k..];
  }

  lemma {:induction false} ValidEndsInRune(p: Text)
    requires Valid(p) && p != []
    ensures EndsInRune(p)
    decreases |p|
  {
    var n := RuneLen(p);
    if n == |p| {
      assert p[|p| - n..] == p;
      assert TailRune(p, n);
    } else {
      ValidEndsInRune(p[n..]);
      var t := p[n..];
      var k: nat :| 1 <= k <= 4 && TailRune(t, k);
      TailRuneSuffix(p, n, k);
    }
  }

  lemma OneRuneIsValid(t: Text)
    requires t != [] && RuneLen(t) == |t|
    ensures Valid(t) && !IsCont(t[0])
  {
    assert t[|t|..] == [];
  }

  lemma TailRuneIsBoundaryAt(s: Text, n: nat, k: nat)
    requires Valid(s) && n <= |s| && TailRune(s[..n], k)
    ensures Valid(s[..n])
  {
    var a, t := s[..n - k], s[n - k..n];
    assert Valid(t) && Valid(a) by {
      assert s[..n][n - k..] == t;
      OneRuneIsValid(t);
      Boundary(s, n - k);
    }
    assert s[..n] == a + t;
    ValidAppend(a, t);
  }

  /** Inside valid text, a prefix ending in a rune is itself valid. */
  lemma TailRuneIsBoundary(s: Text, n: nat)
    requires Valid(s) && n <= |s| && EndsInRune(s[..n])
    ensures Valid(s[..n])
  {
    var k: nat :| 1 <= k <= 4 && TailRune(s[..n], k);
    TailRuneIsBoundaryAt(s, n, k);
  }

  /** Splitting at a boundary leaves valid text on both sides. */
  lemma ValidAfter(s: Text, i: nat)
    requires Valid(s) && i <= |s| && Valid(s[..i])
    ensures Valid(s[i..])
  {
    assert s == s[..i] + s[i..];
    ValidAppend(s[..i], s[i..]);
  }

  /** Boundaries of the rest of a text are boundaries of the text. */
  lemma BoundaryAfter(s: Text, i: nat, n: nat)
    requires i + n <= |s| && Valid(s[..i])
    ensures Valid(s[..i + n]) <==> Valid(s[i..i + n])
  {
    assert s[..i + n] == s[..i] + s[i..i + n];
    ValidAppend(s[..i], s[i..i + n]);
  }

  // ---------------------------------------------------------------- the cut

  /** The result of cutToUTF8Boundary, as a function. */
  function Cut(b: Text): (c: Text)
    decreases |b|
  {
    if b == [] || EndsInRune(b) then b else Cut(b[..|b| - 1])
  }

  lemma {:induction false} CutPrefix(b: Text)
    ensures Cut(b) <= b
    decreases |b|
  {
    if b != [] && !EndsInRune(b) { CutPrefix(b[..|b| - 1]); }
  }

  /** c is the longest prefix of b that is empty or ends in a decodable rune. */
  ghost predicate LongestCut(c: Text, b: Text) {
    && c <= b && (c == [] || EndsInRune(c))
    && forall i :: |c| < i <= |b| ==> !EndsInRune(b[..i])
  }

  /** For arbitrary bytes: the longest prefix that is empty or ends in a
      decodable rune. */
  lemma {:induction false} CutIsLongest(b: Text)
    ensures LongestCut(Cut(b), b)
    decreases |b|
  {
    if b != [] && !EndsInRune(b) {
      var t := b[..|b| - 1];
      CutIsLongest(t);
      forall i | |Cut(b)| < i <= |b|
        ensures !EndsInRune(b[..i])
      {
        if i == |b| { assert b[..i] == b; } else { assert b[..i] == t[..i]; }
      }
    } else {
      assert b[..|b|] == b;
    }
  }

  lemma CutSkipsInvalid(s: Text, n: nat, i: nat)
    requires i <= n <= |s| && |Cut(s[..n])| < i
    ensures !Valid(s[..i])
  {
    var b := s[..n];
    assert b[..i] == s[..i];
    assert !EndsInRune(b[..i]) by { CutIsLongest(b); }
    if Valid(s[..i]) {
      ValidEndsInRune(s[..i]);
      assert false;
    }
  }

  /** On a prefix of valid text the cut is valid, drops at most three bytes, and
      is empty only when the first rune does not fit. */
  lemma CutKeepsValid(s: Text, n: nat)
    requires Valid(s) && n <= |s|
    ensures var c := Cut(s[..n]);
            && |c| <= n <= |c| + 3 && c == s[..|c|] && Valid(c)
            && (n > 0 ==> (c == [] <==> RuneLen(s) > n))
  {
    var c := Cut(s[..n]);
    assert c <= s[..n] && (c == [] || EndsInRune(c)) by { CutIsLongest(s[..n]); }
    assert c == s[..|c|];
    if c != [] {
      TailRuneIsBoundary(s, |c|);
      RuneLocal(s, |c|);
    }
    var j := NearBoundary(s, n);
    if j > |c| {
      CutSkipsInvalid(s, n, j);
      assert false;
    }
  }

  /** On a prefix of valid text the cut is the longest valid prefix. */
  lemma CutOfValid(s: Text, n: nat)
    requires Valid(s) && n <= |s|
    ensures var c := Cut(s[..n]);
            && |c| <= n <= |c| + 3 && c == s[..|c|] && Valid(c)
            && (forall i :: |c| < i <= n ==> !Valid(s[..i]))
  {
    CutKeepsValid(s, n);
    forall i | |Cut(s[..n])| < i <= n
      ensures !Valid(s[..i])
    {
      CutSkipsInvalid(s, n, i);
    }
  }

  /** internal/tools/fetch/fetch.go: drop trailing bytes until the slice is
      empty or its last rune decodes. */
  method CutToUTF8Boundary(b: Text) returns (c: Text)
    ensures c == Cut(b)
  {
    c := b;
    while |c| > 0
      invariant Cut(c) == Cut(b)
    {
      var d := DecodeLastRune(c);
      DecodeLastMeaning(c);
      if d.rune == RUNE_ERROR && d.size <= 1 {
        c := c[..|c| - 1];
      } else {
        break;
      }
    }
  }
}
