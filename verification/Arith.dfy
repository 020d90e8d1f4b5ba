/** Facts of integer arithmetic that the solver does not find by itself. */
module Arith {
  lemma MulLe(x: int, y: int, k: int)
    requires x <= y && 0 <= k
    ensures x * k <= y * k
  {}

  lemma Assoc(x: int, y: int, z: int)
    ensures x * y * z == x * (y * z)
  {}

  lemma Distrib(x: int, y: int, k: int)
    ensures (x + y) * k == x * k + y * k
  {}

  lemma DivUnique(x: int, d: int, q: int)
    requires 0 < d
    ensures q * d <= x < q * d + d ==> x / d == q
    ensures x < q * d ==> x / d < q
  {
    var k := x / d;
    assert k * d <= x < k * d + d;
    if k >= q {
      MulLe(q, k, d);
    }
    if k + 1 <= q {
      MulLe(k + 1, q, d);
      assert (k + 1) * d == k * d + d;
    }
    if k >= q + 1 {
      MulLe(q + 1, k, d);
      assert (q + 1) * d == q * d + d;
    }
  }

  lemma AddMultiple(x: int, d: int, k: int)
    requires 0 < d
    ensures (x + k * d) % d == x % d
  {
    var q := x / d;
    assert x == q * d + x % d;
    assert (q + k) * d == q * d + k * d;
    DivUnique(x + k * d, d, q + k);
  }

  /** Two multiples of d are at least d apart. */
  lemma MultiplesGap(b: nat, w: nat, d: nat)
    requires 0 < d && b % d == 0 && w % d == 0 && b < w
    ensures b + d <= w
  {
    var p, q := b / d, w / d;
    assert b == p * d && w == q * d;
    if p >= q {
      MulLe(q, p, d);
    } else {
      MulLe(p + 1, q, d);
      assert (p + 1) * d == p * d + d;
    }
  }

  /** The remainder by d does not see a remainder by a multiple of d. */
  lemma ModOfMod(x: nat, w: nat, d: nat)
    requires 0 < d && 0 < w && w % d == 0
    ensures x % w % d == x % d
  {
    var q, c := x / w, w / d;
    assert w == c * d;
    assert x == x % w + q * w;
    assert q * w == q * (c * d) == (q * c) * d;
    AddMultiple(x % w, d, q * c);
  }
}
