/** Facts about products and quotients that the solver does not find by itself. */
module Arith {

  lemma MulAtMost(i: nat, n: nat, s: nat)
    requires i < n
    ensures i * s + s <= n * s
  {
    assert (i + 1) * s <= n * s;
  }

  lemma MulMono(i: nat, n: nat, s: nat)
    requires i <= n
    ensures i * s <= n * s
  {
  }

  lemma MulAssoc(a: nat, b: nat, c: nat)
    ensures a * (b * c) == (a * b) * c
  {
  }

  lemma DivUnique(a: nat, s: nat, q: nat)
    requires s > 0 && q * s <= a < q * s + s
    ensures a / s == q && a % s == a - q * s
  {
    var d := a / s;
    assert a == d * s + a % s;
    if d < q { MulAtMost(d, q, s); }
    if q < d { MulAtMost(q, d, s); }
  }

  lemma DivBelow(a: nat, s: nat, n: nat)
    requires s > 0 && a < n * s
    ensures a / s < n
  {
    var d := a / s;
    assert a == d * s + a % s;
    if n <= d { MulMono(n, d, s); }
  }
}
