/** kiss_fft_next_fast_size: the least length whose only prime factors are 2, 3 and 5. */
module FastSize {
  import opened Modular
  import opened Factor

  /** n is completely factorable by twos, threes and fives. */
  ghost predicate Smooth(n: int) {
    forall p :: Prime(p) && n % p == 0 ==> p == 2 || p == 3 || p == 5
  }

  /** x is divisible by q when d*x is and q is a prime other than the small prime d. */
  lemma BezoutStep(q: int, d: int, x: int, t: int, s: int, u: int, w: int)
    requires q > 0 && d * x == q * w
    requires s * q == d * (s * t + u) + 1
    ensures x % q == 0
  {
    var c := s * t + u;
    assert (s * q) * x == (d * c + 1) * x;
    assert (d * c + 1) * x == c * (d * x) + x;
    assert c * (d * x) == q * (c * w);
    assert (s * q) * x == q * (s * x);
    assert q * (s * x - c * w) == q * (s * x) - q * (c * w);
    ModUnique(x, q, s * x - c * w, 0);
  }

  lemma SmallPrimeCancels(q: int, d: int, x: int)
    requires Prime(q) && (d == 2 || d == 3 || d == 5) && q > 5
    requires (d * x) % q == 0
    ensures x % q == 0
  {
    assert q % d != 0;
    hide Prime;
    var t, r, w := q / d, q % d, (d * x) / q;
    assert q == d * t + r;
    assert d * x == q * w;
    var s := if r == 1 then 1 else if d == 3 then 2 else if r == 2 then 3 else if r == 3 then 2 else 4;
    var u := (s * r - 1) / d;
    assert s * r == d * u + 1;
    InverseModulo(q, d, t, r, s, u);
    BezoutStep(q, d, x, t, s, u, w);
  }

  lemma InverseModulo(q: int, d: int, t: int, r: int, s: int, u: int)
    requires q == d * t + r && s * r == d * u + 1
    ensures s * q == d * (s * t + u) + 1
  {
    assert s * (d * t) == d * (s * t);
  }

  /** m is what remains of n after taking out twos, threes and fives. */
  ghost predicate Remains(n: int, m: int) {
    && 1 <= m <= n
    && forall q :: Prime(q) && q > 5 ==> (n % q == 0 <==> m % q == 0)
  }

  lemma RemainsStep(n: int, m: int, d: int)
    requires Remains(n, m) && (d == 2 || d == 3 || d == 5) && m % d == 0
    ensures Remains(n, m / d) && m / d < m
  {
    var x := m / d;
    assert m == d * x;
    forall q | Prime(q) && q > 5 ensures n % q == 0 <==> x % q == 0 {
      hide Prime;
      if x % q == 0 {
        assert x == q * (x / q);
        assert m == q * (d * (x / q)) + 0;
        ModUnique(m, q, d * (x / q), 0);
      }
      if m % q == 0 {
        SmallPrimeCancels(q, d, x);
      }
    }
  }

  /** One of the three division loops. */
  method DivideOut(m0: int, d: int, ghost n: int) returns (m: int)
    requires m0 >= 1 && (d == 2 || d == 3 || d == 5) && Remains(n, m0)
    ensures Remains(n, m) && m % d != 0
    ensures forall e :: (e == 2 || e == 3 || e == 5) && m0 % e != 0 ==> m % e != 0
  {
    m := m0;
    while m % d == 0
      invariant m >= 1 && Remains(n, m)
      invariant forall e :: (e == 2 || e == 3 || e == 5) && m0 % e != 0 ==> m % e != 0
      decreases m
    {
      hide Remains;
      RemainsStep(n, m, d);
      StaysCoprime(m, d);
      m := m / d;
      RemainsPositive(n, m);
    }
  }

  lemma RemainsPositive(n: int, m: int)
    requires Remains(n, m)
    ensures m >= 1
  {
  }

  lemma StaysCoprime(m: int, d: int)
    requires d > 0 && m % d == 0
    ensures forall e :: (e == 2 || e == 3 || e == 5) && m % e != 0 ==> (m / d) % e != 0
  {
    var x := m / d;
    assert m == d * x;
    forall e | (e == 2 || e == 3 || e == 5) && x % e == 0 ensures m % e == 0 {
      assert x == e * (x / e);
      assert m == e * (d * (x / e)) + 0;
      ModUnique(m, e, d * (x / e), 0);
    }
  }

  /** Every number above one has a least divisor, which is prime. */
  lemma PrimeDivisor(m: int, d: int) returns (p: int)
    requires m >= 2 && 2 <= d <= m && NoDivisorBelow(m, d)
    ensures Prime(p) && m % p == 0
    decreases m - d
  {
    if m % d == 0 {
      LeastDivisorPrime(m, d);
      p := d;
    } else {
      ModUnique(m, m, 1, 0);
      p := PrimeDivisor(m, d + 1);
    }
  }

  /** The loops leave one exactly for the lengths without other prime factors. */
  lemma RemainderDecides(n: int, m: int)
    requires Remains(n, m) && m % 2 != 0 && m % 3 != 0 && m % 5 != 0
    ensures m <= 1 <==> Smooth(n)
  {
    if m <= 1 {
      forall p | Prime(p) && n % p == 0 ensures p == 2 || p == 3 || p == 5 {
        if p > 5 {
          ModUnique(1, p, 0, 1);
        } else {
          assert 4 % 2 == 0;
        }
      }
    } else {
      var p := PrimeDivisor(m, 2);
      assert p > 5 by {
        assert p != 4 by {
          assert 4 % 2 == 0;
        }
      }
    }
  }

  lemma {:induction false} Pow2Smooth(k: nat)
    ensures Smooth(Pow2(k)) && Pow2(k) > k
  {
    if k == 0 {
      forall p | Prime(p) ensures 1 % p != 0 {
        ModUnique(1, p, 0, 1);
      }
    } else {
      Pow2Smooth(k - 1);
      forall p | Prime(p) && Pow2(k) % p == 0 ensures p == 2 || p == 3 || p == 5 {
        if p > 5 {
          SmallPrimeCancels(p, 2, Pow2(k - 1));
        } else {
          assert 4 % 2 == 0;
        }
      }
    }
  }

  /** The least k >= n0 with no prime factor but 2, 3 and 5. */
  method NextFastSize(n0: int) returns (k: int)
    requires n0 >= 1
    ensures k >= n0 && Smooth(k)
    ensures forall j :: n0 <= j < k ==> !Smooth(j)
  {
    hide Smooth, Prime, NoDivisorBelow;
    ghost var bound := Pow2(n0);
    Pow2Smooth(n0);
    k := n0;
    while true
      invariant n0 <= k <= bound
      invariant forall j :: n0 <= j < k ==> !Smooth(j)
      decreases bound - k
    {
      var m := k;
      assert Remains(k, m);
      m := DivideOut(m, 2, k);
      m := DivideOut(m, 3, k);
      m := DivideOut(m, 5, k);
      RemainderDecides(k, m);
      if m <= 1 {
        break;
      }
      k := k + 1;
    }
  }
}
