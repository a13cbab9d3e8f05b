// Bounds on products and Euclidean quotients of natural numbers.
module Arithmetic {

  lemma ProductOrder(a: nat, b: nat, t: nat)
    ensures a <= b ==> a * t <= b * t
  {
    if a <= b {
      assert b * t == a * t + (b - a) * t;
    }
  }

  // k is at most the quotient exactly when k * t is at most the dividend.
  lemma QuotientAtLeast(x: nat, t: nat, k: nat)
    requires 0 < t
    ensures k <= x / t <==> k * t <= x
  {
    var q := x / t;
    assert x == q * t + x % t;
    if k <= q {
      ProductOrder(k, q, t);
    } else {
      ProductOrder(q + 1, k, t);
      assert (q + 1) * t == q * t + t;
    }
  }
}
