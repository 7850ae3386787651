/**
 * Roots of unity as exponent maps, and the discrete Fourier transform they
 * define. A map `w` stands for e -> exp(-2*pi*i*e/n) (or its conjugate); only
 * its algebra is used, so the exact table entries need no trigonometry.
 */
module Roots {
  import opened Complex
  import opened Sums

  /** Adding exponents multiplies powers. */
  ghost predicate Multiplies(w: int -> Cpx) {
    forall a, b {:trigger Mul(w(a), w(b))} :: w(a + b) == Mul(w(a), w(b))
  }

  /** w is a homomorphism from the integers whose period divides n. */
  ghost predicate IsRoot(w: int -> Cpx, n: int) {
    && n > 0
    && w(0) == ONE
    && w(n) == ONE
    && Multiplies(w)
  }

  /** In addition the powers below n differ from one, and w(-e) is conjugate to w(e). */
  ghost predicate IsPrimitive(w: int -> Cpx, n: int) {
    && IsRoot(w, n)
    && (forall d :: 0 < d < n ==> w(d) != ONE)
    && forall e :: w(-e) == Conj(w(e))
  }

  lemma HomIsRoot(w: int -> Cpx, n: int)
    requires n > 0 && w(0) == ONE && w(n) == ONE && Multiplies(w)
    ensures IsRoot(w, n)
  {
  }

  lemma RootMul(w: int -> Cpx, n: int, a: int, b: int, c: int)
    requires IsRoot(w, n)
    requires c == a + b
    ensures w(c) == Mul(w(a), w(b))
  {
  }

  lemma RootUnits(w: int -> Cpx, n: int)
    requires IsRoot(w, n)
    ensures n > 0 && w(0) == ONE && w(n) == ONE
  {
  }

  lemma {:induction false} RootMultiple(w: int -> Cpx, n: int, t: nat, e: int)
    requires IsRoot(w, n)
    requires e == n * t
    ensures w(e) == ONE && w(-e) == ONE
  {
    hide Mul, IsRoot;
    RootUnits(w, n);
    if t > 0 {
      assert e - n == n * (t - 1);
      RootMultiple(w, n, t - 1, e - n);
      RootMul(w, n, e - n, n, e);
      MulUnits(ONE);
    }
    RootMul(w, n, e, -e, 0);
    MulUnits(w(-e));
  }

  /** w only depends on its exponent modulo n. */
  lemma RootPeriod(w: int -> Cpx, n: int, a: int, t: int, b: int)
    requires IsRoot(w, n)
    requires b == a + n * t
    ensures w(b) == w(a)
  {
    hide Mul;
    if t >= 0 {
      RootMultiple(w, n, t, n * t);
    } else {
      RootMultiple(w, n, -t, n * (-t));
      assert -(n * (-t)) == n * t;
    }
    RootMul(w, n, a, n * t, b);
    MulUnits(w(a));
  }

  lemma RootMod(w: int -> Cpx, n: int, e: int)
    requires IsRoot(w, n)
    ensures w(e) == w(e % n)
  {
    RootPeriod(w, n, e % n, e / n, e);
  }

  /** Taking every s-th power of a root of order s*n leaves a root of order n. */
  lemma RootPower(w: int -> Cpx, s: int, n: int, sn: int)
    requires s > 0 && n > 0 && sn == s * n
    requires IsRoot(w, sn)
    ensures IsRoot(e => w(s * e), n)
  {
    hide Mul, IsRoot;
    var v := (e: int) => w(s * e);
    forall a, b {:trigger Mul(v(a), v(b))} ensures v(a + b) == Mul(v(a), v(b)) {
      var sa, sb, sc := s * a, s * b, s * (a + b);
      assert sc == sa + sb;
      RootMul(w, sn, sa, sb, sc);
    }
    RootUnits(w, sn);
    HomIsRoot(v, n);
  }

  lemma PrimitivePower(w: int -> Cpx, s: int, n: int, sn: int)
    requires s > 0 && n > 0 && sn == s * n
    requires IsPrimitive(w, sn)
    ensures IsPrimitive(e => w(s * e), n)
  {
    RootPower(w, s, n, sn);
    var v := (e: int) => w(s * e);
    forall d | 0 < d < n ensures v(d) != ONE {
      assert 0 < s * d < sn;
    }
    forall e ensures v(-e) == Conj(v(e)) {
      assert s * -e == -(s * e);
    }
  }

  /** The discrete Fourier transform of x, bin k. */
  ghost function Dft(x: int -> Cpx, w: int -> Cpx, n: nat, k: int): Cpx {
    Sum(j => Mul(x(j), w(j * k)), n)
  }

  lemma DftAsSum(x: int -> Cpx, w: int -> Cpx, g: int -> Cpx, n: nat, k: int)
    requires forall j :: 0 <= j < n ==> g(j) == Mul(x(j), w(j * k))
    ensures Dft(x, w, n, k) == Sum(g, n)
  {
    hide Mul;
    SumExt(g, j => Mul(x(j), w(j * k)), n);
  }

  lemma DftExt(x: int -> Cpx, y: int -> Cpx, w: int -> Cpx, v: int -> Cpx, n: nat, k: int)
    requires forall j :: 0 <= j < n ==> x(j) == y(j)
    requires forall e :: w(e) == v(e)
    ensures Dft(x, w, n, k) == Dft(y, v, n, k)
  {
    hide Mul;
    SumExt(j => Mul(x(j), w(j * k)), j => Mul(y(j), v(j * k)), n);
  }

  /** The sub-transform of the terms of x in the residue class q modulo p. */
  ghost function SubDft(x: int -> Cpx, v: int -> Cpx, p: nat, m: nat, q: int, k: int): Cpx {
    Dft(j => x(q + p * j), e => v(p * e), m, k)
  }

  lemma DecimatedExponent(v: int -> Cpx, p: nat, m: nat, pm: nat, q: int, j: int, k: int)
    requires m > 0 && pm == p * m && IsRoot(v, pm)
    ensures v((q + p * j) * k) == Mul(v(q * k), v(p * (j * (k % m))))
  {
    hide Mul;
    var t := k / m;
    var base := p * (j * (k % m));
    assert p * (j * k) == base + pm * (j * t) by {
      assert k == k % m + m * t;
      assert j * k == j * (k % m) + j * (m * t);
      assert p * (j * k) == base + p * (j * (m * t));
      assert j * (m * t) == m * (j * t);
      assert p * (m * (j * t)) == pm * (j * t);
    }
    assert (q + p * j) * k == q * k + p * (j * k);
    RootPeriod(v, pm, base, j * t, p * (j * k));
    RootMul(v, pm, q * k, p * (j * k), (q + p * j) * k);
  }

  lemma ClassTransform(x: int -> Cpx, v: int -> Cpx, p: nat, m: nat, pm: nat, q: int, k: int)
    requires m > 0 && pm == p * m && IsRoot(v, pm)
    ensures ClassSum(j => Mul(x(j), v(j * k)), p, m, q) == Mul(v(q * k), SubDft(x, v, p, m, q, k % m))
  {
    hide Mul, IsRoot;
    var f := j => Mul(x(j), v(j * k));
    var g := j => Mul(x(q + p * j), v(p * (j * (k % m))));
    forall j ensures f(q + p * j) == Mul(v(q * k), g(j)) {
      DecimatedExponent(v, p, m, pm, q, j, k);
      MulSwap(x(q + p * j), v(q * k), v(p * (j * (k % m))));
    }
    SumMul(v(q * k), g, j => f(q + p * j), m);
    SumExt(g, j => Mul((j => x(q + p * j))(j), (e => v(p * e))(j * (k % m))), m);
  }

  /** The contribution of sub-transform q to bin k. */
  ghost function DecimatedTerms(x: int -> Cpx, v: int -> Cpx, p: nat, m: nat, k: int): int -> Cpx
    requires m > 0
  {
    q => Mul(v(q * k), SubDft(x, v, p, m, q, k % m))
  }

  /**
   * Decimation in time: every bin of a transform of length p*m is the
   * twiddled sum of the p sub-transforms of length m.
   */
  lemma Decimation(x: int -> Cpx, v: int -> Cpx, p: nat, m: nat, pm: nat, k: int)
    requires m > 0 && pm == p * m && IsRoot(v, pm)
    ensures Dft(x, v, pm, k) == Sum(DecimatedTerms(x, v, p, m, k), p)
  {
    hide Mul, IsRoot, SubDft;
    var f := j => Mul(x(j), v(j * k));
    SumInterleave(f, p, m, pm);
    forall q ensures ClassSum(f, p, m, q) == Mul(v(q * k), SubDft(x, v, p, m, q, k % m)) {
      ClassTransform(x, v, p, m, pm, q, k);
    }
    SumExt(Classes(f, p, m), DecimatedTerms(x, v, p, m, k), p);
  }
}

module Inversion {
  import opened Complex
  import opened Sums
  import opened Roots

  /** The conjugate map: the root system of the inverse transform. */
  ghost function Inverse(w: int -> Cpx): int -> Cpx {
    e => w(-e)
  }

  lemma InversePrimitive(w: int -> Cpx, n: int)
    requires IsPrimitive(w, n)
    ensures IsPrimitive(Inverse(w), n)
  {
    hide Mul, IsRoot;
    InverseRoot(w, n);
    var v := Inverse(w);
    forall e ensures v(-e) == Conj(v(e)) {
      assert w(- -e) == Conj(w(-e));
    }
    forall d | 0 < d < n ensures v(d) != ONE {
      assert w(-d) == Conj(w(d));
      assert Conj(w(-d)) == w(d);
    }
  }

  lemma InverseRoot(w: int -> Cpx, n: int)
    requires IsRoot(w, n)
    ensures IsRoot(Inverse(w), n)
  {
    hide Mul, IsRoot;
    var v := Inverse(w);
    forall a, b {:trigger Mul(v(a), v(b))} ensures v(a + b) == Mul(v(a), v(b)) {
      RootMul(w, n, -a, -b, -(a + b));
    }
    RootUnits(w, n);
    RootPeriod(w, n, 0, -1, -n);
    HomIsRoot(v, n);
  }

  /** A full period of a non-trivial power sums to zero. */
  lemma {:induction false} GeometricSum(w: int -> Cpx, n: int, d: int, m: nat, dm: int)
    requires IsRoot(w, n)
    requires dm == d * m
    ensures Mul(Sub(w(d), ONE), Sum(k => w(d * k), m)) == Sub(w(dm), ONE)
  {
    hide Mul, IsRoot;
    var f := k => w(d * k);
    RootUnits(w, n);
    MulUnits(Sub(w(d), ONE));
    if m > 0 {
      assert dm - d == d * (m - 1);
      GeometricSum(w, n, d, m - 1, dm - d);
      Distribute(Sub(w(d), ONE), Sum(f, m - 1), f(m - 1));
      RootMul(w, n, d, dm - d, dm);
      MulSubOne(w(d), w(dm - d));
    }
  }

  lemma MulSubOne(a: Cpx, b: Cpx)
    ensures Mul(Sub(a, ONE), b) == Sub(Mul(a, b), b)
  {
  }

  lemma Orthogonality(w: int -> Cpx, n: int, d: int)
    requires IsPrimitive(w, n)
    ensures Sum(k => w(d * k), n) == if d % n == 0 then Cpx(n as real, 0.0) else ZERO
  {
    hide Mul, IsRoot;
    RootUnits(w, n);
    var f := k => w(d * k);
    if d % n == 0 {
      forall k | 0 <= k < n ensures f(k) == ONE {
        var t := d / n;
        assert d * k == 0 + n * (t * k);
        RootPeriod(w, n, 0, t * k, d * k);
      }
      SumOnes(f, n);
    } else {
      RootMod(w, n, d);
      assert w(d) != ONE;
      GeometricSum(w, n, d, n, d * n);
      RootPeriod(w, n, 0, d, d * n);
      if Sum(f, n) != ZERO {
        assert Sub(w(d), ONE) != ZERO;
        ProductNonZero(Sub(w(d), ONE), Sum(f, n));
      }
    }
  }

  /** The contribution of x(j) to bin l of the double transform. */
  ghost function CrossTerm(x: int -> Cpx, w: int -> Cpx, l: int, k: int, j: int): Cpx {
    Mul(Mul(x(j), w(j * k)), w(-(k * l)))
  }

  lemma CrossTermProduct(x: int -> Cpx, w: int -> Cpx, n: int, l: int, k: int, j: int)
    requires IsRoot(w, n)
    ensures CrossTerm(x, w, l, k, j) == Mul(x(j), w((j - l) * k))
  {
    hide Mul, IsRoot;
    assert (j - l) * k == j * k + -(k * l);
    RootMul(w, n, j * k, -(k * l), (j - l) * k);
    MulAssoc(x(j), w(j * k), w(-(k * l)));
  }

  lemma SmallRemainder(n: int, d: int)
    requires n > 0 && -n < d < n
    ensures d % n == if d < 0 then d + n else d
  {
  }

  lemma InverseTerm(x: int -> Cpx, w: int -> Cpx, n: nat, l: int, j: int)
    requires IsPrimitive(w, n) && 0 <= j < n && 0 <= l < n
    ensures Sum(k => CrossTerm(x, w, l, k, j), n) == if j == l then Scale(n as real, x(j)) else ZERO
  {
    hide Mul, IsRoot, CrossTerm;
    var f := k => w((j - l) * k);
    forall k ensures CrossTerm(x, w, l, k, j) == Mul(x(j), f(k)) {
      CrossTermProduct(x, w, n, l, k, j);
    }
    SumMul(x(j), f, k => CrossTerm(x, w, l, k, j), n);
    Orthogonality(w, n, j - l);
    hide IsPrimitive;
    if j == l {
      MulReal(x(j), n as real);
    } else {
      SmallRemainder(n, j - l);
      MulUnits(x(j));
    }
  }

  lemma MulReal(a: Cpx, s: real)
    ensures Mul(a, Cpx(s, 0.0)) == Scale(s, a)
  {
  }

  lemma InnerTransform(x: int -> Cpx, w: int -> Cpx, n: nat, l: int, k: int)
    ensures Mul(Dft(x, w, n, k), w(-(k * l))) == Sum(j => CrossTerm(x, w, l, k, j), n)
  {
    hide Mul;
    var c := w(-(k * l));
    var f := j => Mul(x(j), w(j * k));
    forall j ensures CrossTerm(x, w, l, k, j) == Mul(c, f(j)) {
      MulComm(c, f(j));
    }
    SumMul(c, f, j => CrossTerm(x, w, l, k, j), n);
    MulComm(c, Sum(f, n));
  }

  /** Transforming back with the conjugate root gives n times the signal. */
  lemma DftInversion(x: int -> Cpx, w: int -> Cpx, n: nat, l: int)
    requires IsPrimitive(w, n) && 0 <= l < n
    ensures Dft(k => Dft(x, w, n, k), Inverse(w), n, l) == Scale(n as real, x(l))
  {
    var g := (k: int, j: int) => CrossTerm(x, w, l, k, j);
    hide Mul, IsPrimitive, CrossTerm, Dft;
    forall k ensures Mul(Dft(x, w, n, k), w(-(k * l))) == Sum(j => g(k, j), n) {
      InnerTransform(x, w, n, l, k);
      SumExt(j => g(k, j), j => CrossTerm(x, w, l, k, j), n);
    }
    DftAsSum(k => Dft(x, w, n, k), Inverse(w), k => Sum(j => g(k, j), n), n, l);
    SumSwap(g, n, n);
    var h := j => Sum(k => g(k, j), n);
    forall j | 0 <= j < n ensures h(j) == if j == l then Scale(n as real, x(j)) else ZERO {
      InverseTerm(x, w, n, l, j);
      SumExt(k => g(k, j), k => CrossTerm(x, w, l, k, j), n);
    }
    SumSingle(h, n, l);
  }
}
