/** Remainders, proved from uniqueness of quotient and remainder. */
module Modular {

  lemma SmallMultiple(n: int, d: int, nd: int)
    requires n > 0 && nd == n * d && -n < nd < n
    ensures d == 0
  {
    if d > 0 {
      MulMonotone(n, 1, d);
    } else if d < 0 {
      MulMonotone(n, 1, -d);
    }
  }

  lemma MulMonotone(n: int, a: int, b: int)
    requires n >= 0 && a <= b
    ensures n * a <= n * b
  {
  }

  /** The remainder of x is the only r in range that differs from x by a multiple of n. */
  lemma ModUnique(x: int, n: int, q: int, r: int)
    requires n > 0 && 0 <= r < n && x == n * q + r
    ensures x % n == r && x / n == q
  {
    var d := x / n - q;
    assert n * d == n * (x / n) - n * q;
    assert x == n * (x / n) + x % n;
    SmallMultiple(n, d, r - x % n);
  }

  lemma ModShift(a: int, n: int, t: int, b: int)
    requires n > 0 && b == a + n * t
    ensures b % n == a % n
  {
    assert a == n * (a / n) + a % n;
    assert b == n * (a / n + t) + a % n by {
      assert n * (a / n + t) == n * (a / n) + n * t;
    }
    ModUnique(b, n, a / n + t, a % n);
  }

  lemma ModSum(a: int, b: int, n: int)
    requires n > 0
    ensures (a % n + b % n) % n == (a + b) % n
  {
    var t := a / n + b / n;
    assert n * t == n * (a / n) + n * (b / n);
    ModShift(a % n + b % n, n, t, a + b);
  }

  lemma ModNegate(e: int, n: int)
    requires n > 0
    ensures (-e) % n == if e % n == 0 then 0 else n - e % n
  {
    var q := e / n;
    assert e == n * q + e % n;
    if e % n == 0 {
      assert -e == n * (-q) + 0;
      ModUnique(-e, n, -q, 0);
    } else {
      assert -e == n * (-q - 1) + (n - e % n);
      ModUnique(-e, n, -q - 1, n - e % n);
    }
  }
}
