/** Finite sums of complex-valued functions on the integers. */
module Sums {
  import opened Complex

  ghost function Sum(f: int -> Cpx, n: nat): Cpx {
    if n == 0 then ZERO else Add(Sum(f, n - 1), f(n - 1))
  }

  lemma {:induction false} SumExt(f: int -> Cpx, g: int -> Cpx, n: nat)
    requires forall j :: 0 <= j < n ==> f(j) == g(j)
    ensures Sum(f, n) == Sum(g, n)
  {
    if n > 0 {
      SumExt(f, g, n - 1);
    }
  }

  lemma {:induction false} SumAdd(f: int -> Cpx, g: int -> Cpx, h: int -> Cpx, n: nat)
    requires forall j :: 0 <= j < n ==> h(j) == Add(f(j), g(j))
    ensures Sum(h, n) == Add(Sum(f, n), Sum(g, n))
  {
    if n > 0 {
      SumAdd(f, g, h, n - 1);
    }
  }

  lemma {:induction false} SumMul(c: Cpx, f: int -> Cpx, g: int -> Cpx, n: nat)
    requires forall j :: 0 <= j < n ==> g(j) == Mul(c, f(j))
    ensures Sum(g, n) == Mul(c, Sum(f, n))
  {
    if n == 0 {
      MulUnits(c);
    } else {
      hide Mul;
      SumMul(c, f, g, n - 1);
      Distribute(c, Sum(f, n - 1), f(n - 1));
    }
  }

  lemma {:induction false} SumConj(f: int -> Cpx, g: int -> Cpx, n: nat)
    requires forall j :: 0 <= j < n ==> g(j) == Conj(f(j))
    ensures Sum(g, n) == Conj(Sum(f, n))
  {
    if n > 0 {
      SumConj(f, g, n - 1);
    }
  }

  lemma {:induction false} SumZero(f: int -> Cpx, n: nat)
    requires forall j :: 0 <= j < n ==> f(j) == ZERO
    ensures Sum(f, n) == ZERO
  {
    if n > 0 {
      SumZero(f, n - 1);
    }
  }

  lemma {:induction false} SumOnes(f: int -> Cpx, n: nat)
    requires forall j :: 0 <= j < n ==> f(j) == ONE
    ensures Sum(f, n) == Cpx(n as real, 0.0)
  {
    if n > 0 {
      SumOnes(f, n - 1);
    }
  }

  /** A sum with at most one non-zero term. */
  lemma {:induction false} SumSingle(f: int -> Cpx, n: nat, l: nat)
    requires l < n
    requires forall j :: 0 <= j < n && j != l ==> f(j) == ZERO
    ensures Sum(f, n) == f(l)
  {
    if l == n - 1 {
      SumZero(f, n - 1);
    } else {
      SumSingle(f, n - 1, l);
    }
  }

  ghost function Shift(f: int -> Cpx, b: int): int -> Cpx {
    j => f(b + j)
  }

  lemma {:induction false} SumConcat(f: int -> Cpx, a: nat, b: nat)
    ensures Sum(f, a + b) == Add(Sum(f, a), Sum(Shift(f, a), b))
  {
    if b > 0 {
      SumConcat(f, a, b - 1);
    }
  }

  lemma {:induction false} SumSwap(g: (int, int) -> Cpx, m: nat, n: nat)
    ensures Sum(a => Sum(b => g(a, b), n), m) == Sum(b => Sum(a => g(a, b), m), n)
  {
    if m == 0 {
      SumZero(b => Sum(a => g(a, b), m), n);
    } else {
      SumSwap(g, m - 1, n);
      SumAdd(b => Sum(a => g(a, b), m - 1), b => g(m - 1, b), b => Sum(a => g(a, b), m), n);
    }
  }

  /** The sum of the first m terms of f in the residue class q modulo p. */
  ghost function ClassSum(f: int -> Cpx, p: nat, m: nat, q: int): Cpx {
    Sum(j => f(q + p * j), m)
  }

  ghost function Classes(f: int -> Cpx, p: nat, m: nat): int -> Cpx {
    q => ClassSum(f, p, m, q)
  }

  lemma ClassSumStep(f: int -> Cpx, p: nat, m: nat, q: int, b: int)
    requires m > 0 && b == p * (m - 1)
    ensures Classes(f, p, m)(q) == Add(Classes(f, p, m - 1)(q), Shift(f, b)(q))
  {
    var g := j => f(q + p * j);
    assert Sum(g, m) == Add(Sum(g, m - 1), g(m - 1));
  }

  lemma PreviousProduct(p: nat, m: nat, pm: nat)
    requires pm == p * m && m > 0
    ensures pm - p == p * (m - 1) && pm >= p
  {
    assert p * (m - 1) >= 0;
  }

  lemma ClassSumEmpty(f: int -> Cpx, p: nat)
    ensures Sum(Classes(f, p, 0), p) == ZERO
  {
    SumZero(Classes(f, p, 0), p);
  }

  /** Summing p*m terms residue class by residue class. */
  lemma {:induction false} SumInterleave(f: int -> Cpx, p: nat, m: nat, pm: nat)
    requires pm == p * m
    ensures Sum(f, pm) == Sum(Classes(f, p, m), p)
  {
    if m == 0 {
      ClassSumEmpty(f, p);
    } else {
      PreviousProduct(p, m, pm);
      var b := pm - p;
      SumInterleave(f, p, m - 1, b);
      SumConcat(f, b, p);
      hide *;
      forall q ensures Classes(f, p, m)(q) == Add(Classes(f, p, m - 1)(q), Shift(f, b)(q)) {
        ClassSumStep(f, p, m, q, b);
      }
      SumAdd(Classes(f, p, m - 1), Shift(f, b), Classes(f, p, m), p);
    }
  }
}
