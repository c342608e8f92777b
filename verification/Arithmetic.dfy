/** The few facts about integer division that the counters and buffers need. */
module Arithmetic {

  lemma Multiples(u: int, d: int)
    requires u > 0
    ensures d >= 1 ==> u * d >= u
    ensures d <= -1 ==> u * d <= -u
  {
  }

  lemma DivIs(a: int, q: int, r: int, u: int)
    requires u > 0 && a == u * q + r && 0 <= r < u
    ensures a / u == q && a % u == r
  {
    var d := a / u - q;
    assert u * d == r - a % u;
    Multiples(u, d);
  }

  lemma DivAdd(a: int, k: int, u: int)
    requires u > 0
    ensures (a + u * k) / u == a / u + k
    ensures (a + u * k) % u == a % u
  {
    assert a == u * (a / u) + a % u;
    DivIs(a + u * k, a / u + k, a % u, u);
  }
}
