/** Bytes, Go strings as byte sequences, and optional values. */
module Bytes {
  type byte = x: int | 0 <= x < 256

  /** A Go string or byte slice, by value. */
  type Text = seq<byte>

  datatype Option<+T> = None | Some(value: T)

  function Min(a: int, b: int): int { if a < b then a else b }

  /** n * d by repeated addition. */
  function Times(n: nat, d: nat): nat { if n == 0 then 0 else d + Times(n - 1, d) }

  lemma {:induction false} TimesIsProduct(n: nat, d: nat)
    ensures Times(n, d) == n * d
  {
    if n > 0 {
      TimesIsProduct(n - 1, d);
      assert n * d == (n - 1) * d + d;
    }
  }

  /** Position of the first element that satisfies p, or the length. */
  function FirstWhere<T>(t: seq<T>, p: T -> bool): (i: nat)
    ensures i <= |t|
    ensures i < |t| ==> p(t[i])
    ensures forall j :: 0 <= j < i ==> !p(t[j])
  {
    if t == [] || p(t[0]) then 0 else 1 + FirstWhere(t[1..], p)
  }
}
