/** Shared wrappers, 64-bit time arithmetic and integer facts. */
module Common {
  datatype Option<+T> = None | Some(value: T)

  const U64_MAX := 0xFFFF_FFFF_FFFF_FFFF

  type U64 = x: int | 0 <= x <= U64_MAX

  /** `saturating_add` on `u64`. */
  function SaturatingAdd(a: nat, b: nat): U64 {
    if a + b > U64_MAX then U64_MAX else a + b
  }

  /** A sequence without its `i`-th element, index by index. */
  lemma RemovedAt<T>(s: seq<T>, i: nat)
    requires i < |s|
    ensures var r := s[..i] + s[i + 1..];
            |r| == |s| - 1 && forall j :: 0 <= j < |r| ==> r[j] == s[if j < i then j else j + 1]
    ensures var r := s[..i] + s[i + 1..];
            forall k :: 0 <= k < |s| && k != i ==> s[k] == r[if k < i then k else k - 1]
  {
  }

  lemma MulOrder(k: int, m: int, c: int)
    requires k <= m && c > 0
    ensures k * c <= m * c
  {
    assert (m - k) * c >= 0;
  }

  /** Quotient and remainder are determined by the division equation. */
  lemma DivUnique(a: int, c: int, q: int, r: int)
    requires c > 0 && a == q * c + r && 0 <= r < c
    ensures a / c == q && a % c == r
  {
    var p := a / c;
    assert a == p * c + a % c;
    if q > p {
      MulOrder(p + 1, q, c);
    } else if q < p {
      MulOrder(q + 1, p, c);
    }
  }
}
