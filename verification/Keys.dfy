/** The NUL-joined cache keys of fetch and search, and why they cannot clash. */
module Keys {
  import opened Bytes

  const NUL: byte := 0

  ghost predicate NulFree(s: Text) { forall i :: 0 <= i < |s| ==> s[i] != NUL }

  /** strconv's decimal rendering of a non-negative integer. */
  function Decimal(n: nat): Text {
    if n < 10 then [0x30 + n] else Decimal(n / 10) + [0x30 + n % 10]
  }

  function ParseDecimal(s: Text): int {
    if s == [] then 0
    else
      var d: int := s[|s| - 1];
      ParseDecimal(s[..|s| - 1]) * 10 + (d - 0x30)
  }

  lemma {:induction false} DecimalParses(n: nat)
    ensures ParseDecimal(Decimal(n)) == n && NulFree(Decimal(n)) && Decimal(n) != []
  {
    if n < 10 {
      assert ParseDecimal([]) == 0;
      assert Decimal(n)[..0] == [];
    } else {
      DecimalParses(n / 10);
      assert Decimal(n)[..|Decimal(n)| - 1] == Decimal(n / 10);
    }
  }

  function PairKey(caller: Text, rest: Text): Text { caller + [NUL] + rest }

  /** caller NUL middle NUL decimal: the middle may contain anything. */
  function TripleKey(caller: Text, middle: Text, n: nat): Text {
    PairKey(caller, middle) + [NUL] + Decimal(n)
  }

  function FirstNul(s: Text): nat { FirstWhere(s, (b: byte) => b == NUL) }

  function LastNul(s: Text): int {
    if s == [] then -1 else if s[|s| - 1] == NUL then |s| - 1 else LastNul(s[..|s| - 1])
  }

  lemma FirstNulAt(a: Text, b: Text)
    requires NulFree(a)
    ensures FirstNul(a + [NUL] + b) == |a|
  {
    var s := a + [NUL] + b;
    assert s[|a|] == NUL;
    assert forall j :: 0 <= j < |a| ==> s[j] != NUL;
  }

  lemma {:induction false} LastNulAt(a: Text, b: Text)
    requires NulFree(b)
    ensures LastNul(a + [NUL] + b) == |a|
    decreases |b|
  {
    var s := a + [NUL] + b;
    if b != [] {
      var t := b[..|b| - 1];
      LastNulAt(a, t);
      assert s[..|s| - 1] == a + [NUL] + t;
    }
  }

  /** Reading a key back: what precedes and follows the first NUL, and the
      number after the last one. */
  function CallerOf(key: Text): Text { if FirstNul(key) < |key| then key[..FirstNul(key)] else key }

  function RestOf(key: Text): Text { if FirstNul(key) < |key| then key[FirstNul(key) + 1..] else [] }

  function PairOf(key: Text): Text { if 0 <= LastNul(key) < |key| then key[..LastNul(key)] else key }

  function NumberOf(key: Text): int {
    if 0 <= LastNul(key) < |key| then ParseDecimal(key[LastNul(key) + 1..]) else 0
  }

  /** A NUL-free caller and the rest are recovered from a pair key. */
  lemma PairKeyParses(caller: Text, rest: Text)
    requires NulFree(caller)
    ensures CallerOf(PairKey(caller, rest)) == caller && RestOf(PairKey(caller, rest)) == rest
  {
    FirstNulAt(caller, rest);
  }

  /** The pair key and the number are recovered from a triple key, whatever
      bytes the middle contains. */
  lemma TripleKeyParses(caller: Text, middle: Text, n: nat)
    ensures PairOf(TripleKey(caller, middle, n)) == PairKey(caller, middle)
    ensures NumberOf(TripleKey(caller, middle, n)) == n
  {
    DecimalParses(n);
    LastNulAt(PairKey(caller, middle), Decimal(n));
    assert TripleKey(caller, middle, n)[|PairKey(caller, middle)| + 1..] == Decimal(n);
  }

  /** Equal keys mean the same caller, the same URL or query (even one with
      NUL bytes inside) and the same number. */
  lemma TripleKeyInjective(a: Text, b: Text, m: nat, c: Text, d: Text, n: nat)
    requires NulFree(a) && NulFree(c) && TripleKey(a, b, m) == TripleKey(c, d, n)
    ensures a == c && b == d && m == n
  {
    TripleKeyParses(a, b, m);
    TripleKeyParses(c, d, n);
    PairKeyParses(a, b);
    PairKeyParses(c, d);
  }

  /** Without the condition on callers two agents could share a key. */
  lemma NulInCallerClashes()
    ensures PairKey([1], [2, 0, 3]) == PairKey([1, 0, 2], [3])
  {
    assert [1] + [NUL] + [2, 0, 3] == [1, 0, 2] + [NUL] + [3];
  }
}
