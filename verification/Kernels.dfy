/**
 * The closed forms of one column of a radix 2, 3, 4 or 5 stage, in terms of
 * the twiddled inputs. Each is the general sum of `Stage.Bin` evaluated with
 * the roots of unity of that order.
 */
module Kernels {
  import opened Complex
  import opened Sums
  import opened Roots
  import opened Stage

  lemma Unroll(f: int -> Cpx)
    ensures Sum(f, 2) == Add(f(0), f(1))
    ensures Sum(f, 3) == Add(Add(f(0), f(1)), f(2))
    ensures Sum(f, 4) == Add(Add(Add(f(0), f(1)), f(2)), f(3))
    ensures Sum(f, 5) == Add(Add(Add(Add(f(0), f(1)), f(2)), f(3)), f(4))
  {
    assert Sum(f, 1) == f(0);
    assert Sum(f, 2) == Add(Sum(f, 1), f(1));
    assert Sum(f, 3) == Add(Sum(f, 2), f(2));
    assert Sum(f, 4) == Add(Sum(f, 3), f(3));
    assert Sum(f, 5) == Add(Sum(f, 4), f(4));
  }

  /** Row c of the order-p transform of the twiddled inputs t. */
  ghost predicate IsRow(b: Cpx, t: int -> Cpx, z: int -> Cpx, p: nat, c: nat)
    requires p > 0
  {
    b == Sum(q => Mul(t(q), z((q * c) % p)), p)
  }

  lemma BinIsRow(s: seq<Cpx>, fo: int, v: int -> Cpx, p: nat, m: nat, pm: nat, c: nat, u: int)
    requires p > 0 && pm == p * m && IsRoot(v, pm)
    ensures IsRow(Bin(s, fo, v, p, m, c, u), q => Scratch(s, fo, v, m, u, q), e => Turn(v, m, e), p, c)
  {
    hide Mul, IsRoot, Scratch, Bin, Turn;
    BinOfScratch(s, fo, v, p, m, pm, c, u);
    var t := q => Scratch(s, fo, v, m, u, q);
    var z := e => Turn(v, m, e);
    SumExt(q => Mul(t(q), z((q * c) % p)), q => Mul(Scratch(s, fo, v, m, u, q), Turn(v, m, (q * c) % p)), p);
  }

  lemma MulNeg(a: Cpx)
    ensures Mul(a, Cpx(-1.0, 0.0)) == Neg(a)
  {
  }

  lemma Row2(b: Cpx, t: int -> Cpx, z: int -> Cpx, c: nat)
    requires IsRow(b, t, z, 2, c)
    ensures b == Add(Mul(t(0), z(0)), Mul(t(1), z(c % 2)))
  {
    hide Mul, Sum;
    Unroll(q => Mul(t(q), z((q * c) % 2)));
  }

  lemma Row3(b: Cpx, t: int -> Cpx, z: int -> Cpx, c: nat)
    requires IsRow(b, t, z, 3, c)
    ensures b == Add(Add(Mul(t(0), z(0)), Mul(t(1), z(c % 3))), Mul(t(2), z((2 * c) % 3)))
  {
    hide Mul, Sum;
    Unroll(q => Mul(t(q), z((q * c) % 3)));
  }

  lemma Row4(b: Cpx, t: int -> Cpx, z: int -> Cpx, c: nat)
    requires IsRow(b, t, z, 4, c)
    ensures b == Add(Add(Add(Mul(t(0), z(0)), Mul(t(1), z(c % 4))), Mul(t(2), z((2 * c) % 4))), Mul(t(3), z((3 * c) % 4)))
  {
    hide Mul, Sum;
    Unroll(q => Mul(t(q), z((q * c) % 4)));
  }

  lemma Row5(b: Cpx, t: int -> Cpx, z: int -> Cpx, c: nat)
    requires IsRow(b, t, z, 5, c)
    ensures b == Add(Add(Add(Add(Mul(t(0), z(0)), Mul(t(1), z(c % 5))), Mul(t(2), z((2 * c) % 5))), Mul(t(3), z((3 * c) % 5))), Mul(t(4), z((4 * c) % 5)))
  {
    hide Mul, Sum;
    Unroll(q => Mul(t(q), z((q * c) % 5)));
  }

  /** kf_bfly2, one column. */
  lemma Rows2(b0: Cpx, b1: Cpx, t: int -> Cpx, z: int -> Cpx)
    requires IsRow(b0, t, z, 2, 0) && IsRow(b1, t, z, 2, 1)
    requires z(0) == ONE && z(1) == Neg(ONE)
    ensures b0 == Add(t(0), t(1))
    ensures b1 == Sub(t(0), t(1))
  {
    hide Mul, IsRow, Sum;
    Row2(b0, t, z, 0);
    Row2(b1, t, z, 1);
    MulUnits(t(0));
    MulUnits(t(1));
    MulNeg(t(1));
  }

  /** a*z + b*conj(z), grouped into sums and differences as the butterflies group it. */
  function Pair(a: Cpx, b: Cpx, z: Cpx): Cpx {
    Cpx((a.r + b.r) * z.r - (a.i - b.i) * z.i, (a.i + b.i) * z.r + (a.r - b.r) * z.i)
  }

  lemma PairReal(ar: real, ai: real, br: real, bi: real, zr: real, zi: real)
    ensures (ar * zr - ai * zi) + (br * zr - bi * -zi) == (ar + br) * zr - (ai - bi) * zi
  {
    DistributeReal(ar, br, zr);
    DistributeReal(ai, bi, zi);
    assert bi * -zi == -(bi * zi);
  }

  lemma PairImag(ar: real, ai: real, br: real, bi: real, zr: real, zi: real)
    ensures (ar * zi + ai * zr) + (br * -zi + bi * zr) == (ai + bi) * zr + (ar - br) * zi
  {
    DistributeReal(ai, bi, zr);
    DistributeReal(ar, br, zi);
    assert br * -zi == -(br * zi);
  }

  lemma PairSum(t: Cpx, a: Cpx, b: Cpx, z: Cpx)
    ensures Add(Add(t, Mul(a, z)), Mul(b, Conj(z))) == Add(t, Pair(a, b, z))
    ensures Add(Add(t, Mul(b, Conj(z))), Mul(a, z)) == Add(t, Pair(a, b, z))
  {
    PairIsSum(a, b, z);
    AddGroups(t, Mul(a, z), Mul(b, Conj(z)));
    hide *;
  }

  lemma AddGroups(t: Cpx, u: Cpx, v: Cpx)
    ensures Add(Add(t, u), v) == Add(t, Add(u, v)) == Add(Add(t, v), u)
  {
  }

  lemma PairIsSum(a: Cpx, b: Cpx, z: Cpx)
    ensures Add(Mul(a, z), Mul(b, Conj(z))) == Pair(a, b, z)
  {
    PairReal(a.r, a.i, b.r, b.i, z.r, z.i);
    PairImag(a.r, a.i, b.r, b.i, z.r, z.i);
  }

  /** kf_bfly3, one column. */
  lemma Rows3(b0: Cpx, b1: Cpx, b2: Cpx, t: int -> Cpx, z: int -> Cpx)
    requires IsRow(b0, t, z, 3, 0) && IsRow(b1, t, z, 3, 1) && IsRow(b2, t, z, 3, 2)
    requires z(0) == ONE && z(2) == Conj(z(1))
    ensures b0 == Add(Add(t(0), t(1)), t(2))
    ensures b1 == Add(t(0), Pair(t(1), t(2), z(1)))
    ensures b2 == Add(t(0), Pair(t(2), t(1), z(1)))
  {
    hide *;
    Row3(b0, t, z, 0);
    Row3(b1, t, z, 1);
    Row3(b2, t, z, 2);
    MulUnits(t(0));
    MulUnits(t(1));
    MulUnits(t(2));
    PairSum(t(0), t(1), t(2), z(1));
    PairSum(t(0), t(2), t(1), z(1));
  }

  /** kf_bfly4, one column. */
  lemma Rows4(b0: Cpx, b1: Cpx, b2: Cpx, b3: Cpx, t: int -> Cpx, z: int -> Cpx)
    requires IsRow(b0, t, z, 4, 0) && IsRow(b1, t, z, 4, 1) && IsRow(b2, t, z, 4, 2) && IsRow(b3, t, z, 4, 3)
    requires z(0) == ONE && z(2) == Neg(ONE) && z(3) == Conj(z(1))
    ensures b0 == Add(Add(Add(t(0), t(1)), t(2)), t(3))
    ensures b1 == Add(Sub(t(0), t(2)), Pair(t(1), t(3), z(1)))
    ensures b2 == Sub(Add(Sub(t(0), t(1)), t(2)), t(3))
    ensures b3 == Add(Sub(t(0), t(2)), Pair(t(3), t(1), z(1)))
  {
    hide *;
    Row4(b0, t, z, 0);
    Row4(b1, t, z, 1);
    Row4(b2, t, z, 2);
    Row4(b3, t, z, 3);
    MulUnits(t(0));
    MulUnits(t(1));
    MulUnits(t(2));
    MulUnits(t(3));
    CrossPair(t(0), t(1), t(2), t(3), z(1));
    CrossPair(t(0), t(3), t(2), t(1), z(1));
    Alternate(t(0), t(1), t(2), t(3));
  }

  lemma CrossPair(t: Cpx, a: Cpx, c: Cpx, b: Cpx, z: Cpx)
    ensures Add(Add(Add(t, Mul(a, z)), Mul(c, Neg(ONE))), Mul(b, Conj(z))) == Add(Sub(t, c), Pair(a, b, z))
    ensures Add(Add(Add(t, Mul(b, Conj(z))), Mul(c, Neg(ONE))), Mul(a, z)) == Add(Sub(t, c), Pair(a, b, z))
  {
    PairSum(Sub(t, c), a, b, z);
    MulNeg(c);
    hide Mul, Pair;
  }

  lemma Alternate(t: Cpx, a: Cpx, c: Cpx, b: Cpx)
    ensures Add(Add(Add(t, Mul(a, Neg(ONE))), c), Mul(b, Neg(ONE))) == Sub(Add(Sub(t, a), c), b)
  {
    MulNeg(a);
    MulNeg(b);
    hide Mul;
  }

  /** kf_bfly5, one column. */
  lemma Rows5(b0: Cpx, b1: Cpx, b2: Cpx, b3: Cpx, b4: Cpx, t: int -> Cpx, z: int -> Cpx)
    requires IsRow(b0, t, z, 5, 0) && IsRow(b1, t, z, 5, 1) && IsRow(b2, t, z, 5, 2)
    requires IsRow(b3, t, z, 5, 3) && IsRow(b4, t, z, 5, 4)
    requires z(0) == ONE && z(3) == Conj(z(2)) && z(4) == Conj(z(1))
    ensures b0 == Add(Add(Add(Add(t(0), t(1)), t(2)), t(3)), t(4))
    ensures b1 == Add(Add(t(0), Pair(t(1), t(4), z(1))), Pair(t(2), t(3), z(2)))
    ensures b2 == Add(Add(t(0), Pair(t(1), t(4), z(2))), Pair(t(3), t(2), z(1)))
    ensures b3 == Add(Add(t(0), Pair(t(4), t(1), z(2))), Pair(t(2), t(3), z(1)))
    ensures b4 == Add(Add(t(0), Pair(t(4), t(1), z(1))), Pair(t(3), t(2), z(2)))
  {
    hide *;
    Row5(b0, t, z, 0);
    Row5(b1, t, z, 1);
    Row5(b2, t, z, 2);
    Row5(b3, t, z, 3);
    Row5(b4, t, z, 4);
    MulUnits(t(0));
    MulUnits(t(1));
    MulUnits(t(2));
    MulUnits(t(3));
    MulUnits(t(4));
    TwoPairs(t(0), t(1), t(4), z(1), t(2), t(3), z(2));
    TwoPairs(t(0), t(1), t(4), z(2), t(3), t(2), z(1));
    TwoPairs(t(0), t(4), t(1), z(2), t(2), t(3), z(1));
    TwoPairs(t(0), t(4), t(1), z(1), t(3), t(2), z(2));
  }

  /** Whatever the order in which the four products are added. */
  lemma TwoPairs(t: Cpx, a: Cpx, b: Cpx, y: Cpx, c: Cpx, d: Cpx, z: Cpx)
    ensures var p := Add(Add(t, Pair(a, b, y)), Pair(c, d, z));
            && Add(Add(Add(Add(t, Mul(a, y)), Mul(c, z)), Mul(d, Conj(z))), Mul(b, Conj(y))) == p
            && Add(Add(Add(Add(t, Mul(a, y)), Mul(d, Conj(z))), Mul(c, z)), Mul(b, Conj(y))) == p
            && Add(Add(Add(Add(t, Mul(b, Conj(y))), Mul(c, z)), Mul(d, Conj(z))), Mul(a, y)) == p
            && Add(Add(Add(Add(t, Mul(b, Conj(y))), Mul(d, Conj(z))), Mul(c, z)), Mul(a, y)) == p
  {
    PairSum(t, a, b, y);
    PairSum(t, c, d, z);
    hide Mul, Pair;
  }
}
