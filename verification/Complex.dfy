/**
 * Exact complex numbers: the floating-point branch of the kiss_fft macros with
 * the rounding taken away. `Mul` is C_MUL, `Add`/`Sub` are C_ADD/C_SUB, and
 * C_FIXDIV is a no-op in that branch.
 */
module Complex {

  datatype Cpx = Cpx(r: real, i: real)

  const ZERO := Cpx(0.0, 0.0)
  const ONE := Cpx(1.0, 0.0)
  const I := Cpx(0.0, 1.0)

  function Add(a: Cpx, b: Cpx): Cpx {
    Cpx(a.r + b.r, a.i + b.i)
  }

  function Sub(a: Cpx, b: Cpx): Cpx {
    Cpx(a.r - b.r, a.i - b.i)
  }

  function Mul(a: Cpx, b: Cpx): Cpx {
    Cpx(a.r * b.r - a.i * b.i, a.r * b.i + a.i * b.r)
  }

  function Neg(a: Cpx): Cpx {
    Cpx(-a.r, -a.i)
  }

  function Conj(a: Cpx): Cpx {
    Cpx(a.r, -a.i)
  }

  /** C_MULBYSCALAR. */
  function Scale(s: real, a: Cpx): Cpx {
    Cpx(s * a.r, s * a.i)
  }

  /** HALF_OF, on both parts. */
  function Half(a: Cpx): Cpx {
    Cpx(a.r * 0.5, a.i * 0.5)
  }

  /** i*a, and the two assignments by which the butterflies add or subtract it. */
  function TimesI(a: Cpx): Cpx {
    Cpx(-a.i, a.r)
  }

  function AddI(a: Cpx, b: Cpx): Cpx {
    Cpx(a.r - b.i, a.i + b.r)
  }

  function SubI(a: Cpx, b: Cpx): Cpx {
    Cpx(a.r + b.i, a.i - b.r)
  }

  lemma DistributeReal(x: real, y: real, c: real)
    ensures c * (x + y) == c * x + c * y && (x + y) * c == x * c + y * c
    ensures c * (x - y) == c * x - c * y && (x - y) * c == x * c - y * c
  {
  }

  lemma AssocReal(x: real, y: real, z: real)
    ensures (x * y) * z == x * (y * z)
  {
  }

  lemma MulAssoc(a: Cpx, b: Cpx, c: Cpx)
    ensures Mul(Mul(a, b), c) == Mul(a, Mul(b, c))
  {
    MulAssocPart(a.r, a.i, b.r, b.i, c.r, c.i);
    MulAssocPart(a.r, a.i, b.r, b.i, c.i, -c.r);
  }

  lemma MulAssocPart(ar: real, ai: real, br: real, bi: real, cr: real, ci: real)
    ensures (ar * br - ai * bi) * cr - (ar * bi + ai * br) * ci
         == ar * (br * cr - bi * ci) - ai * (br * ci + bi * cr)
  {
    DistributeReal(ar * br, ai * bi, cr);
    DistributeReal(ar * bi, ai * br, ci);
    DistributeReal(br * cr, bi * ci, ar);
    DistributeReal(br * ci, bi * cr, ai);
    AssocReal(ar, br, cr);
    AssocReal(ai, bi, cr);
    AssocReal(ar, bi, ci);
    AssocReal(ai, br, ci);
  }

  lemma MulComm(a: Cpx, b: Cpx)
    ensures Mul(a, b) == Mul(b, a)
  {
  }

  lemma MulSwap(a: Cpx, b: Cpx, c: Cpx)
    ensures Mul(a, Mul(b, c)) == Mul(b, Mul(a, c))
  {
    hide Mul;
    MulAssoc(a, b, c);
    MulAssoc(b, a, c);
    MulComm(a, b);
  }

  lemma MulUnits(a: Cpx)
    ensures Mul(a, ONE) == a && Mul(ONE, a) == a
    ensures Mul(a, ZERO) == ZERO && Mul(ZERO, a) == ZERO
  {
  }

  lemma DistributeParts(ar: real, ai: real, br: real, bi: real, cr: real, ci: real)
    ensures ar * (br + cr) - ai * (bi + ci) == (ar * br - ai * bi) + (ar * cr - ai * ci)
    ensures ar * (bi + ci) + ai * (br + cr) == (ar * bi + ai * br) + (ar * ci + ai * cr)
  {
    DistributeReal(br, cr, ar);
    DistributeReal(bi, ci, ai);
    DistributeReal(bi, ci, ar);
    DistributeReal(br, cr, ai);
  }

  lemma Distribute(a: Cpx, b: Cpx, c: Cpx)
    ensures Mul(a, Add(b, c)) == Add(Mul(a, b), Mul(a, c))
    ensures Mul(Add(b, c), a) == Add(Mul(b, a), Mul(c, a))
  {
    DistributeParts(a.r, a.i, b.r, b.i, c.r, c.i);
    assert Mul(a, Add(b, c)) == Add(Mul(a, b), Mul(a, c));
    hide Mul;
    MulComm(a, Add(b, c));
    MulComm(a, b);
    MulComm(a, c);
  }

  lemma ConjLaws(a: Cpx, b: Cpx)
    ensures Conj(Add(a, b)) == Add(Conj(a), Conj(b))
    ensures Conj(Sub(a, b)) == Sub(Conj(a), Conj(b))
    ensures Conj(Mul(a, b)) == Mul(Conj(a), Conj(b))
    ensures Conj(Conj(a)) == a
  {
  }

  lemma ScaleMul(s: real, a: Cpx, b: Cpx)
    ensures Mul(Scale(s, a), b) == Scale(s, Mul(a, b))
  {
    AssocReal(s, a.r, b.r);
    AssocReal(s, a.i, b.i);
    AssocReal(s, a.r, b.i);
    AssocReal(s, a.i, b.r);
    DistributeReal(a.r * b.r, a.i * b.i, s);
    DistributeReal(a.r * b.i, a.i * b.r, s);
  }

  lemma PositiveProduct(x: real, y: real, p: real)
    requires x > 0.0 && y > 0.0 && p == x * y
    ensures p > 0.0
  {
  }

  lemma SquareSign(x: real, s: real)
    requires s == x * x
    ensures s >= 0.0
    ensures s == 0.0 <==> x == 0.0
  {
    if x > 0.0 {
      PositiveProduct(x, x, s);
    } else if x < 0.0 {
      PositiveProduct(-x, -x, s);
    }
  }

  function Norm2(a: Cpx): real {
    a.r * a.r + a.i * a.i
  }

  lemma NormSign(a: Cpx)
    ensures Norm2(a) >= 0.0
    ensures a == ZERO <==> Norm2(a) == 0.0
  {
    SquareSign(a.r, a.r * a.r);
    SquareSign(a.i, a.i * a.i);
  }

  lemma NormMul(a: Cpx, b: Cpx)
    ensures Norm2(Mul(a, b)) == Norm2(a) * Norm2(b)
  {
  }

  /** The complex numbers have no zero divisors. */
  lemma ProductNonZero(a: Cpx, b: Cpx)
    requires a != ZERO && b != ZERO
    ensures Mul(a, b) != ZERO
  {
    hide Norm2, Mul;
    NormSign(a);
    NormSign(b);
    NormMul(a, b);
    NormSign(Mul(a, b));
    PositiveProduct(Norm2(a), Norm2(b), Norm2(Mul(a, b)));
  }
}
