/** Bytes, and arithmetic as 64-bit integers do it. */
module Bytes {
  type Byte = b: nat | b < 256

  /** A number as a signed 64-bit integer holds it. */
  function Int64(n: int): int {
    var m := n % 0x1_0000_0000_0000_0000;
    if m >= 0x8000_0000_0000_0000 then m - 0x1_0000_0000_0000_0000 else m
  }

  lemma Int64Congruent(n: int) returns (k: int)
    ensures Int64(n) == n - k * 0x1_0000_0000_0000_0000
    ensures -0x8000_0000_0000_0000 <= Int64(n) < 0x8000_0000_0000_0000
  {
    k := n / 0x1_0000_0000_0000_0000;
    if n % 0x1_0000_0000_0000_0000 >= 0x8000_0000_0000_0000 {
      k := k + 1;
    }
  }

  lemma Int64Small(n: int)
    requires -0x8000_0000_0000_0000 <= n < 0x8000_0000_0000_0000
    ensures Int64(n) == n
  {
  }

  /** One wrap up or down brings a sum of two such integers back. */
  lemma Int64Over(n: int)
    requires 0x8000_0000_0000_0000 <= n < 0x1_8000_0000_0000_0000
    ensures Int64(n) == n - 0x1_0000_0000_0000_0000
  {
  }

  /** A difference taken and added again in wrapping arithmetic. */
  lemma Int64Back(a: int, b: int)
    ensures Int64(a + Int64(b - a)) == Int64(b)
  {
    var k := Int64Congruent(b - a);
    var i := Int64Congruent(a + Int64(b - a));
    var j := Int64Congruent(b);
    SameResidue(Int64(a + Int64(b - a)), Int64(b), j - i - k);
  }

  lemma SameResidue(x: int, y: int, k: int)
    requires x == y + k * 0x1_0000_0000_0000_0000
    requires -0x8000_0000_0000_0000 <= x < 0x8000_0000_0000_0000
    requires -0x8000_0000_0000_0000 <= y < 0x8000_0000_0000_0000
    ensures x == y
  {
  }
}
