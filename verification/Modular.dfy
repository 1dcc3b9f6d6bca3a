/** Facts about remainders by a variable divisor. */
module Modular {
  lemma MulAtLeast(k: int, d: int)
    requires k >= 1 && d >= 0
    ensures k * d >= d
  {
  }

  lemma ProductFloor(a: nat, b: int)
    requires b >= 0
    ensures a * b >= 0
  {
  }

  /** Quotient and remainder are unique. */
  lemma RemainderIs(x: int, d: int, q: int, r: int)
    requires d > 0 && x == q * d + r && 0 <= r < d
    ensures x % d == r
  {
    var q', r' := x / d, x % d;
    assert x == q' * d + r';
    assert (q - q') * d == r' - r;
    assert (q' - q) * d == r - r';
    if q > q' { MulAtLeast(q - q', d); } else if q < q' { MulAtLeast(q' - q, d); }
  }

  lemma NextRemainder(k: int, d: int)
    requires d > 0
    ensures (k % d + 1) % d == (k + 1) % d
  {
    var q, r := k / d, k % d;
    assert k == q * d + r;
    if r + 1 == d {
      assert k + 1 == (q + 1) * d + 0;
      RemainderIs(k + 1, d, q + 1, 0);
      RemainderIs(r + 1, d, 1, 0);
    } else {
      RemainderIs(k + 1, d, q, r + 1);
      RemainderIs(r + 1, d, 0, r + 1);
    }
  }

  lemma RemaindersDiffer(j: int, k: int, d: int)
    requires d > 0 && 0 < k - j < d
    ensures j % d != k % d
  {
    if j % d == k % d {
      var a, b := j / d, k / d;
      assert j == a * d + j % d && k == b * d + k % d;
      assert k - j == (b - a) * d;
      assert j - k == (a - b) * d;
      if b > a { MulAtLeast(b - a, d); } else if b < a { MulAtLeast(a - b, d); }
    }
  }

  lemma ShiftRemainder(x: int, k: int, d: int)
    requires d > 0
    ensures (x % d + k) % d == (x + k) % d
  {
    var q, r := x / d, x % d;
    var y := r + k;
    assert x == q * d + r;
    assert y == (y / d) * d + y % d;
    assert x + k == (q + y / d) * d + y % d;
    RemainderIs(x + k, d, q + y / d, y % d);
  }
}
