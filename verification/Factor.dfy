/** kf_factor: the radix chain that steers the recursion of the transform. */
module Factor {
  import opened Modular

  const MAXFACTORS := 32

  ghost predicate Prime(p: int) {
    p >= 2 && NoDivisorBelow(p, p)
  }

  ghost predicate NoDivisorBelow(n: int, p: int) {
    forall d :: 2 <= d < p ==> n % d != 0
  }

  /**
   * p1, m1, p2, m2, ...: each radix times the length it leaves is the length
   * before it, down to length 1. What follows the last pair is unused.
   */
  ghost predicate Chain(factors: seq<int>, n: int)
    decreases |factors|
  {
    && |factors| >= 2
    && factors[0] >= 1
    && factors[1] >= 1
    && factors[0] * factors[1] == n
    && (factors[1] > 1 ==> Chain(factors[2..], factors[1]))
  }

  /** The radices of a chain. */
  ghost function Radices(factors: seq<int>): seq<int>
    decreases |factors|
  {
    if |factors| < 2 then []
    else if factors[1] <= 1 then [factors[0]]
    else [factors[0]] + Radices(factors[2..])
  }

  function Pow2(k: nat): nat {
    if k == 0 then 1 else 2 * Pow2(k - 1)
  }

  lemma {:induction false} Pow2Add(a: nat, b: nat)
    ensures Pow2(a + b) == Pow2(a) * Pow2(b)
  {
    if a > 0 {
      Pow2Add(a - 1, b);
      Regrouped(Pow2(a - 1), Pow2(b));
    }
  }

  lemma Regrouped(u: nat, v: nat)
    ensures 2 * u * v == 2 * (u * v)
  {
  }

  lemma Pow2Bound(k: nat)
    requires k >= 31
    ensures Pow2(k) >= 0x8000_0000
  {
    assert Pow2(3) == 8 && Pow2(5) == 4 * Pow2(3) && Pow2(1) == 2;
    hide Pow2;
    Pow2Add(5, 5);
    Pow2Add(10, 10);
    assert Pow2(20) == 0x10_0000;
    Pow2Add(20, 10);
    Pow2Add(30, 1);
    assert Pow2(31) == 0x8000_0000;
    Pow2Add(31, k - 31);
    Pow2Positive(k - 31);
  }

  lemma {:induction false} Pow2Positive(k: nat)
    ensures Pow2(k) > 0
  {
    if k > 0 {
      Pow2Positive(k - 1);
    }
  }

  /** floor(sqrt((double)n)), which is exact for 31-bit n. */
  function FloorSqrt(n: nat): (r: nat)
    ensures r * r <= n < (r + 1) * (r + 1)
  {
    if n == 0 then 0
    else
      var r := FloorSqrt(n - 1);
      if (r + 1) * (r + 1) <= n then r + 1 else r
  }

  lemma DividesProduct(n: int, p: int, d: int)
    requires p > 0 && d > 0 && n % p == 0 && p % d == 0
    ensures n % d == 0
  {
    var a, b := n / p, p / d;
    assert n == p * a && p == d * b;
    assert n == d * (b * a) + 0 by {
      assert (d * b) * a == d * (b * a);
    }
    ModUnique(n, d, b * a, 0);
  }

  /** The least divisor is prime. */
  lemma LeastDivisorPrime(n: int, p: int)
    requires p >= 2 && n % p == 0 && NoDivisorBelow(n, p)
    ensures Prime(p)
  {
    forall d | 2 <= d < p ensures p % d != 0 {
      if p % d == 0 {
        DividesProduct(n, p, d);
      }
    }
  }

  lemma QuotientKeeps(n: int, p: int, q: int)
    requires p >= 2 && n > 0 && n % p == 0 && NoDivisorBelow(n, q)
    ensures NoDivisorBelow(n / p, q)
  {
    var m := n / p;
    assert n == m * p;
    forall d | 2 <= d < q ensures m % d != 0 {
      if m % d == 0 {
        assert n % m == 0 by {
          assert m > 0;
          ModUnique(n, m, p, 0);
        }
        DividesProduct(n, m, d);
      }
    }
  }

  /** Trial division may stop at the square root. */
  lemma NoSmallDivisor(n: int, p: int)
    requires n >= 2 && p >= 2 && NoDivisorBelow(n, p) && p * p > n
    ensures Prime(n)
  {
    forall d | 2 <= d < n ensures n % d != 0 {
      if n % d == 0 && d >= p {
        var e := n / d;
        assert n == d * e;
        Cofactor(n, d, e, p);
        ModUnique(n, e, d, 0);
      }
    }
  }

  lemma Cofactor(n: int, d: int, e: int, p: int)
    requires n == d * e && 2 <= p <= d < n && p * p > n
    ensures 2 <= e < p
  {
    if e >= p {
      MulMonotone(d, p, e);
      MulMonotone(p, p, d);
    } else if e <= 1 {
      MulMonotone(d, e, 1);
    }
  }

  /** How far the trial division of the remaining n has come when it tries p. */
  ghost predicate Trial(n: int, p: int) {
    || p == 4
    || (p == 2 && n >= 2 && n % 4 != 0)
    || (p >= 3 && p % 2 == 1 && n >= 2 && NoDivisorBelow(n, p))
    || (p == n && (Prime(n) || n == 1))
  }

  /** The candidate after p, before the shortcut. */
  function NextTrial(p: int): int {
    match p
    case 4 => 2
    case 2 => 3
    case _ => p + 2
  }

  ghost function TrialsLeft(n: int, p: int): int {
    if p == 4 then n + 6 else if p == 2 then n + 5 else if p < n then n - p + 1 else 0
  }

  lemma OddNotEven(n: int, d: int)
    requires n % 2 == 1 && d > 0 && d % 2 == 0
    ensures n % d != 0
  {
    if n % d == 0 {
      DividesProduct(n, d, 2);
    }
  }

  lemma TrialBelow(n: int, p: int)
    requires n >= 2 && p >= 3 && p % 2 == 1 && NoDivisorBelow(n, p) && n % p != 0
    ensures p < n && n % 2 == 1 && NoDivisorBelow(n, p + 2) && p + 2 <= n
  {
    assert n % 2 != 0;
    assert n % n == 0;
    OddNotEven(n, p + 1);
  }

  /** No candidate is skipped: the next one has no divisor of n below it. */
  lemma NextHasNoDivisorBelow(n: int, p: int)
    requires n >= 2 && p != n && Trial(n, p) && n % p != 0
    ensures NextTrial(p) >= 2 && NoDivisorBelow(n, NextTrial(p))
    ensures NextTrial(p) == 2 || (NextTrial(p) % 2 == 1 && n % 2 == 1 && NextTrial(p) <= n)
  {
    if p >= 3 && p != 4 {
      TrialBelow(n, p);
    }
  }

  lemma ShortcutSound(n: int, q: int, n0: int, fs: int)
    requires 2 <= n <= n0 && q >= 2 && NoDivisorBelow(n, q)
    requires 0 <= fs < q && n0 < (fs + 1) * (fs + 1)
    ensures Prime(n)
  {
    MulMonotone(fs + 1, fs + 1, q);
    MulMonotone(q, fs + 1, q);
    assert q * q > n;
    NoSmallDivisor(n, q);
  }

  /** Trying the next candidate keeps the trial division sound and makes progress. */
  lemma TrialStep(n: int, p: int, n0: int, fs: int, next: int)
    requires 1 <= n <= n0 && p >= 1 && Trial(n, p) && n % p != 0
    requires fs * fs <= n0 < (fs + 1) * (fs + 1) && fs >= 0
    requires n == 1 ==> n0 == 1
    requires next == if NextTrial(p) > fs then n else NextTrial(p)
    ensures next >= 1 && Trial(n, next)
    ensures 0 <= TrialsLeft(n, next) < TrialsLeft(n, p)
  {
    assert n % n == 0;
    if n == 1 {
      assert p == 4;
      assert fs < 2 by {
        if fs >= 2 {
          MulMonotone(fs, 2, fs);
        }
      }
    } else {
      NextHasNoDivisorBelow(n, p);
      var q := NextTrial(p);
      if q > fs {
        ShortcutSound(n, q, n0, fs);
        assert n != 4 by {
          assert 4 % 2 == 0;
        }
      }
    }
  }

  lemma QuotientFacts(n: int, p: int)
    requires n >= 1 && p >= 1 && n % p == 0
    ensures n == p * (n / p) && n / p >= 1
    ensures p >= 2 ==> n / p < n
  {
    var m := n / p;
    assert n == p * m;
    if m <= 0 {
      MulMonotone(p, m, 0);
    } else if p >= 2 {
      MulMonotone(m, 2, p);
    }
  }

  /** Dividing by an accepted candidate keeps the trial division sound. */
  lemma TrialDivide(n: int, p: int)
    requires n >= 2 && p >= 1 && Trial(n, p) && n % p == 0
    ensures p == 4 || Prime(p)
    ensures n / p > 1 ==> Trial(n / p, p)
    ensures p == 2 ==> (n / p) % 2 == 1
  {
    hide Prime, NoDivisorBelow;
    QuotientFacts(n, p);
    if p == 2 {
      TwoIsPrime();
      HalfOdd(n);
    } else if p != 4 && NoDivisorBelow(n, p) {
      LeastDivisorPrime(n, p);
      QuotientKeeps(n, p, p);
    } else if p == n {
      ModUnique(n, n, 1, 0);
    }
  }

  lemma TwoIsPrime()
    ensures Prime(2)
  {
  }

  lemma HalfOdd(n: int)
    requires n % 4 != 0 && n % 2 == 0
    ensures (n / 2) % 2 == 1
  {
  }

  /* The pairs written so far. */

  /** w holds pairs with radices rs that chain from n0 down to n, and all lengths before n exceed one. */
  ghost predicate Written(w: seq<int>, rs: seq<int>, n0: int, n: int)
    decreases |w|
  {
    if rs == [] then
      w == [] && n == n0
    else
      && |w| >= 2
      && var p, m := w[|w| - 2], w[|w| - 1];
      && p == rs[|rs| - 1]
      && m == n
      && p >= 1
      && m >= 1
      && (|rs| > 1 ==> p * m > 1)
      && Written(w[..|w| - 2], rs[..|rs| - 1], n0, p * m)
  }

  /** What is promised of the radices of a transform longer than one. */
  ghost predicate GoodRadices(rs: seq<int>) {
    && (forall j :: 0 <= j < |rs| ==> rs[j] == 4 || Prime(rs[j]))
    && (forall i, j :: 0 <= i < j < |rs| ==> !(rs[i] == 2 && rs[j] == 2))
  }

  lemma WrittenStep(w: seq<int>, rs: seq<int>, n0: int, n: int, p: int, m: int)
    requires Written(w, rs, n0, n) && (n > 1 || rs == [])
    requires p >= 1 && m >= 1 && n == p * m
    ensures Written(w + [p, m], rs + [p], n0, m)
  {
    assert (w + [p, m])[..|w|] == w && (rs + [p])[..|rs|] == rs;
  }

  /** Prefixing written pairs to a chain gives a chain. */
  lemma {:induction false} ChainOfWritten(w: seq<int>, rs: seq<int>, rest: seq<int>, n0: int, n: int)
    requires Written(w, rs, n0, n) && Chain(rest, n) && (n > 1 || rs == [])
    ensures Chain(w + rest, n0)
    ensures Radices(w + rest) == rs + Radices(rest)
    decreases |w|
  {
    if rs == [] {
      assert w + rest == rest;
    } else {
      var k := |w| - 2;
      var p, m := w[k], w[k + 1];
      assert ([p, m] + rest)[2..] == rest;
      ChainOfWritten(w[..k], rs[..|rs| - 1], [p, m] + rest, n0, p * m);
      assert w[..k] + ([p, m] + rest) == w + rest;
      assert rs[..|rs| - 1] + ([p] + Radices(rest)) == rs + Radices(rest);
    }
  }

  lemma ChainOfAllWritten(facbuf: seq<int>, i: nat, rs: seq<int>, n0: int)
    requires i <= |facbuf| && Written(facbuf[..i], rs, n0, 1) && rs != []
    ensures Chain(facbuf, n0) && Radices(facbuf) == rs
  {
    var w, k := facbuf[..i], i - 2;
    var p := w[k];
    assert facbuf[k..][0] == p && facbuf[k..][1] == 1;
    assert Chain(facbuf[k..], p) && Radices(facbuf[k..]) == [p];
    assert w[..k] == facbuf[..k];
    if |rs| > 1 {
      ChainOfWritten(w[..k], rs[..|rs| - 1], facbuf[k..], n0, p);
      assert facbuf[..k] + facbuf[k..] == facbuf;
      assert rs[..|rs| - 1] + [p] == rs;
    } else {
      assert facbuf[..k] == [];
      assert facbuf[k..] == facbuf;
      assert rs == [p];
    }
  }

  lemma PowerStep(k: nat, n: int, p: int, m: int, n0: int)
    requires Pow2(k) * n <= n0 && n == p * m && p >= 2 && m >= 1
    ensures Pow2(k + 1) * m <= n0
  {
    MulMonotone(m, 2, p);
    MulMonotone(Pow2(k), m * 2, n);
    assert Pow2(k + 1) * m == Pow2(k) * (m * 2);
  }

  lemma PairsFit(k: nat, n: int, n0: int)
    requires Pow2(k) * n <= n0 < 0x8000_0000 && n >= 1
    ensures k <= 30
  {
    MulMonotone(Pow2(k), 1, n);
    if k > 30 {
      Pow2Bound(k);
    }
  }

  /** One search for the next radix: the inner loop of kf_factor. */
  method NextRadix(n: int, p0: int, floorSqrt: nat, ghost n0: int) returns (p: int)
    requires 1 <= n <= n0 && (n == 1 ==> n0 == 1)
    requires floorSqrt * floorSqrt <= n0 < (floorSqrt + 1) * (floorSqrt + 1)
    requires p0 >= 1 && Trial(n, p0)
    ensures p >= 1 && Trial(n, p) && n % p == 0
  {
    p := p0;
    while n % p != 0
      invariant p >= 1 && Trial(n, p)
      decreases TrialsLeft(n, p)
    {
      ghost var was := p;
      p := NextTrial(p);
      if p > floorSqrt {
        p := n;
      }
      TrialStep(n, was, n0, floorSqrt, p);
    }
  }

  /** Between two radices: what is written so far, and what is known of it. */
  ghost predicate Factoring(w: seq<int>, rs: seq<int>, n0: int, n: int) {
    && 1 <= n <= n0 < 0x8000_0000
    && |w| == 2 * |rs|
    && Written(w, rs, n0, n)
    && (n0 > 1 ==> Pow2(|rs|) * n <= n0 && GoodRadices(rs))
    && (n0 == 1 ==> |rs| <= 1)
    && (forall j :: 0 <= j < |rs| && rs[j] == 2 ==> n % 2 == 1)
  }

  lemma GoodStep(rs: seq<int>, p: int, n: int)
    requires GoodRadices(rs) && (p == 4 || Prime(p)) && n % p == 0 && p > 0
    requires forall j :: 0 <= j < |rs| && rs[j] == 2 ==> n % 2 == 1
    ensures GoodRadices(rs + [p])
  {
    hide Prime;
  }

  lemma OddQuotient(n: int, p: int)
    requires n >= 1 && p >= 1 && n % p == 0 && n % 2 == 1
    ensures (n / p) % 2 == 1
  {
    QuotientFacts(n, p);
    OddFactors(p, n / p);
  }

  lemma OddFactors(p: int, m: int)
    requires (p * m) % 2 == 1
    ensures m % 2 == 1
  {
    assert p * m == 2 * (p * (m / 2)) + p * (m % 2);
  }

  lemma FactoringStep(w: seq<int>, rs: seq<int>, n0: int, n: int, p: int, m: int)
    requires Factoring(w, rs, n0, n) && (n > 1 || |rs| == 0)
    requires p >= 1 && Trial(n, p) && n % p == 0 && m == n / p
    ensures Factoring(w + [p, m], rs + [p], n0, m)
    ensures m > 1 ==> Trial(m, p)
    ensures n > 1 ==> m < n
  {
    assert |rs| == 0 ==> n == n0;
    hide Trial, Prime, GoodRadices, Written;
    QuotientFacts(n, p);
    WrittenStep(w, rs, n0, n, p, m);
    if n > 1 {
      TrialDivide(n, p);
      assert p >= 2 by {
        PrimeAtLeastTwo(p);
      }
      PowerStep(|rs|, n, p, m, n0);
      GoodStep(rs, p, n);
    }
    if n % 2 == 1 {
      OddQuotient(n, p);
    }
  }

  lemma PrimeAtLeastTwo(p: int)
    ensures Prime(p) ==> p >= 2
  {
  }

  lemma RoomForPair(w: seq<int>, rs: seq<int>, n0: int, n: int)
    requires Factoring(w, rs, n0, n) && (n > 1 || |rs| == 0)
    ensures |w| == 2 * |rs| && |w| + 1 < 2 * MAXFACTORS
    ensures 1 <= n <= n0 && (n == 1 ==> n0 == 1)
  {
    assert |rs| == 0 ==> n == n0;
    hide Written, GoodRadices;
    if |rs| > 0 {
      PairsFit(|rs|, n, n0);
    }
  }

  lemma FactoringEnd(facbuf: seq<int>, i: nat, rs: seq<int>, n0: int)
    requires i <= |facbuf| && Factoring(facbuf[..i], rs, n0, 1) && |rs| > 0
    ensures Chain(facbuf, n0)
    ensures Radices(facbuf) == rs
    ensures n0 > 1 ==> GoodRadices(rs) && Pow2(|rs|) <= n0
    ensures |rs| < MAXFACTORS
  {
    ChainOfAllWritten(facbuf, i, rs, n0);
    hide Written, GoodRadices, Chain, Radices;
    if n0 > 1 {
      PairsFit(|rs|, 1, n0);
    }
  }

  /** Factor out powers of 4, then a power of 2, then the remaining primes. */
  method KfFactor(n0: int, facbuf: array<int>)
    requires 1 <= n0 < 0x8000_0000 && facbuf.Length == 2 * MAXFACTORS
    modifies facbuf
    ensures Chain(facbuf[..], n0)
    ensures n0 > 1 ==> GoodRadices(Radices(facbuf[..])) && Pow2(|Radices(facbuf[..])|) <= n0
    ensures |Radices(facbuf[..])| < MAXFACTORS
  {
    hide *;
    var n, p, i, floorSqrt := n0, 4, 0, FloorSqrt(n0);
    ghost var rs: seq<int> := [];
    assert facbuf[..0] == [];
    FactoringStart(n0);
    var more := true;
    while more
      invariant 0 <= i <= facbuf.Length && Factoring(facbuf[..i], rs, n0, n)
      invariant p >= 1
      invariant more ==> Trial(n, p) && (n > 1 || |rs| == 0)
      invariant !more ==> n == 1 && |rs| > 0
      decreases n, more
    {
      ghost var w, was := facbuf[..i], n;
      RoomForPair(w, rs, n0, n);
      p := NextRadix(n, p, floorSqrt, n0);
      n := n / p;
      FactoringStep(w, rs, n0, was, p, n);
      facbuf[i], facbuf[i + 1] := p, n;
      assert facbuf[..i + 2] == w + [p, n];
      rs, i := rs + [p], i + 2;
      more := n > 1;
      FactoringRange(facbuf[..i], rs, n0, n);
    }
    FactoringEnd(facbuf[..], i, rs, n0) by {
      assert facbuf[..][..i] == facbuf[..i];
    }
  }

  lemma FactoringStart(n0: int)
    requires 1 <= n0 < 0x8000_0000
    ensures Factoring([], [], n0, n0) && Trial(n0, 4)
  {
    assert Pow2(0) == 1;
  }

  lemma FactoringRange(w: seq<int>, rs: seq<int>, n0: int, n: int)
    requires Factoring(w, rs, n0, n)
    ensures 1 <= n <= n0
  {
  }
}
