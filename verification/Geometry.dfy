/** Integer points and the small arithmetic shared by the drawing algorithms. */
module Geometry {

  datatype Point = Point(x: int, y: int)

  function Abs(n: int): nat {
    if n < 0 then -n else n
  }

  function Max(m: int, n: int): int {
    if m < n then n else m
  }

  function Min(m: int, n: int): int {
    if m < n then m else n
  }

  /** How much a square grows with its root. */
  lemma SquareOrder(m: nat, n: nat)
    requires m < n
    ensures m * m + m + n <= n * n
    ensures m * m + 2 * n - 1 <= n * n
  {
    var k := n - m - 1;
    assert n * n == m * m + 2 * m + 1 + 2 * (m * k) + 2 * k + k * k;
    assert 0 <= m * k && 0 <= k * k;
  }

  lemma AbsMaxMin(m: int, n: int)
    ensures Abs(n) == n || Abs(n) == -n
    ensures m <= Max(m, n) && n <= Max(m, n) && Max(m, n) in {m, n}
    ensures Min(m, n) <= m && Min(m, n) <= n && Min(m, n) in {m, n}
  {
  }
}
