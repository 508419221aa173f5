/** Facts on remainders and powers. */
module Arithmetic {

  function Pow256(n: nat): (p: nat)
    ensures p > 0
  {
    if n == 0 then 1 else 256 * Pow256(n - 1)
  }

  lemma MultipleIsFar(a: int, m: int)
    requires m > 0
    ensures a >= 1 ==> a * m >= m
    ensures a <= -1 ==> a * m <= -m
  {
  }

  lemma RemainderIsUnique(q: int, r: int, q': int, r': int, m: int)
    requires m > 0 && 0 <= r < m && 0 <= r' < m && q * m + r == q' * m + r'
    ensures q == q' && r == r'
  {
    assert (q - q') * m == r' - r;
    MultipleIsFar(q - q', m);
  }

  lemma SameRemainder(x: int, k: int, m: int)
    requires m > 0
    ensures (x + k * m) % m == x % m
  {
    var q, r := x / m, x % m;
    assert x + k * m == (q + k) * m + r;
    RemainderIsUnique((x + k * m) / m, (x + k * m) % m, q + k, r, m);
  }

  lemma SmallRemainder(k: nat, r: nat, m: nat)
    requires r < m
    ensures (k * m + r) % m == r
  {
    var x := k * m + r;
    RemainderIsUnique(x / m, x % m, k, r, m);
  }

  lemma Quotient(k: nat, r: nat, m: nat)
    requires r < m
    ensures (k * m + r) / m == k
  {
    var x := k * m + r;
    RemainderIsUnique(x / m, x % m, k, r, m);
  }
}
