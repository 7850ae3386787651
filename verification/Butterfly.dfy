/** What is known of the twiddle table, and what one FFT stage has to compute. */
module Stage {
  import opened Complex
  import opened Sums
  import opened Roots
  import opened Modular

  /** The table as an exponent map: exponents are read modulo the table length. */
  ghost function Twiddle(tw: seq<Cpx>): int -> Cpx {
    e => if |tw| == 0 then ONE else tw[e % |tw|]
  }

  /**
   * The algebra of exact entries exp(-2*pi*i*j/n), or of their conjugates:
   * adding indices multiplies entries, only entry 0 is one, and mirrored
   * entries are conjugate.
   */
  ghost predicate ValidTable(tw: seq<Cpx>) {
    && |tw| > 0
    && tw[0] == ONE
    && (forall a, b {:trigger Mul(tw[a], tw[b])} ::
          0 <= a < |tw| && 0 <= b < |tw| ==> tw[(a + b) % |tw|] == Mul(tw[a], tw[b]))
    && (forall j :: 0 < j < |tw| ==> tw[j] != ONE)
    && (forall j :: 0 < j < |tw| ==> tw[|tw| - j] == Conj(tw[j]))
  }

  lemma TwiddleMul(tw: seq<Cpx>, a: int, b: int)
    requires ValidTable(tw)
    ensures Twiddle(tw)(a + b) == Mul(Twiddle(tw)(a), Twiddle(tw)(b))
  {
    hide *;
    var n := |tw|;
    EntriesMultiply(tw, n);
    ModSum(a, b, n);
    EntryMul(tw, a % n, b % n, (a + b) % n, n);
    TwiddleAt(tw, a, n);
    TwiddleAt(tw, b, n);
    TwiddleAt(tw, a + b, n);
  }

  /* A table of length four, to see that tables of this kind exist. */

  function FourthRoot(k: int): Cpx {
    if k == 0 then Cpx(1.0, 0.0) else if k == 1 then Cpx(0.0, -1.0) else if k == 2 then Cpx(-1.0, 0.0) else Cpx(0.0, 1.0)
  }

  lemma NextFourth(k: int, next: int)
    requires 0 <= k < 4 && next == if k == 3 then 0 else k + 1
    ensures FourthRoot(next) == Mul(FourthRoot(1), FourthRoot(k))
  {
    hide *;
    QuarterBack(k, next);
    MulQuarter(FourthRoot(k));
  }

  lemma QuarterBack(k: int, next: int)
    requires 0 <= k < 4 && next == if k == 3 then 0 else k + 1
    ensures FourthRoot(next) == Cpx(FourthRoot(k).i, -FourthRoot(k).r) && FourthRoot(1) == Cpx(0.0, -1.0)
  {
    hide Mul;
  }

  lemma MulQuarter(a: Cpx)
    ensures Mul(Cpx(0.0, -1.0), a) == Cpx(a.i, -a.r)
  {
  }

  lemma {:induction false} MulFourth(a: int, b: int, c: int)
    requires 0 <= a < 4 && 0 <= b < 4 && c == if a + b < 4 then a + b else a + b - 4
    ensures FourthRoot(c) == Mul(FourthRoot(a), FourthRoot(b))
    decreases a
  {
    hide *;
    FirstFourth();
    if a == 0 {
      MulUnits(FourthRoot(b));
    } else {
      var before := if a - 1 + b < 4 then a - 1 + b else a - 1 + b - 4;
      MulFourth(a - 1, b, before);
      NextFourth(a - 1, a);
      NextFourth(before, c);
      MulAssoc(FourthRoot(1), FourthRoot(a - 1), FourthRoot(b));
    }
  }

  lemma FirstFourth()
    ensures FourthRoot(0) == ONE && FourthRoot(1) == Neg(I) && FourthRoot(2) == Neg(ONE) && FourthRoot(3) == I
    ensures FourthRoot(1) != ONE && FourthRoot(2) != ONE && FourthRoot(3) != ONE
    ensures FourthRoot(3) == Conj(FourthRoot(1)) && FourthRoot(2) == Conj(FourthRoot(2)) && FourthRoot(1) == Conj(FourthRoot(3))
  {
  }

  lemma TableOfFour()
    ensures ValidTable([ONE, Neg(I), Neg(ONE), I])
  {
    FirstFourth();
    hide Mul, FourthRoot, Neg, Conj;
    var tw := [ONE, Neg(I), Neg(ONE), I];
    assert forall k :: 0 <= k < 4 ==> tw[k] == FourthRoot(k);
    forall a, b {:trigger Mul(tw[a], tw[b])} | 0 <= a < 4 && 0 <= b < 4 ensures tw[(a + b) % 4] == Mul(tw[a], tw[b]) {
      MulFourth(a, b, (a + b) % 4);
    }
  }

  lemma TwiddleAt(tw: seq<Cpx>, e: int, n: nat)
    requires n == |tw| > 0
    ensures 0 <= e % n < n && Twiddle(tw)(e) == tw[e % n]
  {
  }

  lemma EntriesMultiply(tw: seq<Cpx>, n: nat)
    requires ValidTable(tw) && n == |tw|
    ensures n > 0
  {
  }

  lemma EntryMul(tw: seq<Cpx>, i: int, j: int, k: int, n: nat)
    requires ValidTable(tw) && n == |tw| && 0 <= i < n && 0 <= j < n && k == (i + j) % n
    ensures 0 <= k < n && tw[k] == Mul(tw[i], tw[j])
  {
    hide Mul;
  }

  lemma TwiddleConj(tw: seq<Cpx>, e: int)
    requires ValidTable(tw)
    ensures Twiddle(tw)(-e) == Conj(Twiddle(tw)(e))
  {
    hide Mul;
    ModNegate(e, |tw|);
  }

  lemma TwiddleEntry(tw: seq<Cpx>, d: int)
    requires ValidTable(tw) && 0 <= d < |tw|
    ensures Twiddle(tw)(d) == tw[d]
    ensures Twiddle(tw)(|tw|) == ONE
    ensures d == 0 <==> tw[d] == ONE
  {
    EntryIsOne(tw, d);
    hide *;
    var n := |tw|;
    ModUnique(d, n, 0, d);
    ModUnique(n, n, 1, 0);
    TwiddleAt(tw, d, n);
    TwiddleAt(tw, n, n);
  }

  lemma EntryIsOne(tw: seq<Cpx>, d: int)
    requires ValidTable(tw) && 0 <= d < |tw|
    ensures tw[0] == ONE && (d == 0 <==> tw[d] == ONE)
  {
    hide Mul;
  }

  lemma TwiddleHom(tw: seq<Cpx>)
    requires ValidTable(tw)
    ensures Multiplies(Twiddle(tw))
  {
    hide ValidTable, Mul, Twiddle;
    var w := Twiddle(tw);
    forall a, b {:trigger Mul(w(a), w(b))} ensures w(a + b) == Mul(w(a), w(b)) {
      TwiddleMul(tw, a, b);
    }
  }

  lemma TwiddleRoot(tw: seq<Cpx>)
    requires ValidTable(tw)
    ensures IsRoot(Twiddle(tw), |tw|)
  {
    hide *;
    EntriesMultiply(tw, |tw|);
    TwiddleEntry(tw, 0);
    TwiddleHom(tw);
    HomIsRoot(Twiddle(tw), |tw|);
  }

  lemma TwiddlePrimitive(tw: seq<Cpx>)
    requires ValidTable(tw)
    ensures IsPrimitive(Twiddle(tw), |tw|)
  {
    assert |tw| > 0;
    hide Mul, IsRoot, ValidTable, Twiddle;
    var w := Twiddle(tw);
    TwiddleRoot(tw);
    forall d | 0 < d < |tw| ensures w(d) != ONE {
      TwiddleEntry(tw, d);
    }
    forall e ensures w(-e) == Conj(w(e)) {
      TwiddleConj(tw, e);
    }
  }

  /* The points of the circle that the specialised butterflies build in. */

  lemma SquareIsOne(z: Cpx)
    requires Mul(z, z) == ONE
    ensures z == ONE || z == Cpx(-1.0, 0.0)
  {
    assert z == Cpx(z.r, z.i);
    assert z.r * z.i == 0.0;
    SquareSign(z.i, z.i * z.i);
    assert (z.r - 1.0) * (z.r + 1.0) == z.i * z.i;
  }

  lemma Rotated(z: Cpx)
    ensures Mul(Cpx(z.i, -z.r), Cpx(z.i, -z.r)) == Neg(Mul(z, z))
  {
  }

  lemma SquareIsMinusOne(z: Cpx)
    requires Mul(z, z) == Cpx(-1.0, 0.0)
    ensures z == I || z == Neg(I)
  {
    var y := Cpx(z.i, -z.r);
    Rotated(z);
    hide Mul;
    SquareIsOne(y);
    assert z == Cpx(-y.i, y.r);
  }

  lemma HalfTurn(w: int -> Cpx, h: int, n: int)
    requires IsPrimitive(w, n) && h > 0 && n == 2 * h
    ensures w(h) == Cpx(-1.0, 0.0)
  {
    hide Mul, IsRoot;
    RootUnits(w, n);
    RootMul(w, n, h, h, n);
    SquareIsOne(w(h));
  }

  lemma QuarterTurn(w: int -> Cpx, h: int, n: int)
    requires IsPrimitive(w, n) && h > 0 && n == 4 * h
    ensures w(h) == I || w(h) == Neg(I)
  {
    hide Mul, IsRoot;
    RootMul(w, n, h, h, 2 * h);
    HalfTurn(w, 2 * h, n);
    SquareIsMinusOne(w(h));
  }

  lemma ThirdTurn(w: int -> Cpx, h: int, n: int)
    requires IsPrimitive(w, n) && h > 0 && n == 3 * h
    ensures w(h).r == -0.5
    ensures w(2 * h) == Conj(w(h))
  {
    hide Mul, IsRoot;
    RootPeriod(w, n, -h, 1, 2 * h);
    GeometricThird(w, h, n);
  }

  lemma GeometricThird(w: int -> Cpx, h: int, n: int)
    requires IsPrimitive(w, n) && h > 0 && n == 3 * h
    ensures Add(ONE, Add(w(h), w(2 * h))) == ZERO
  {
    hide IsRoot, Mul;
    RootUnits(w, n);
    var z, zz := w(h), w(2 * h);
    RootMul(w, n, h, h, 2 * h);
    RootMul(w, n, h, 2 * h, n);
    var s := Add(ONE, Add(z, zz));
    assert Mul(Sub(z, ONE), s) == ZERO by {
      TelescopeThird(z, zz);
    }
    assert Sub(z, ONE) != ZERO;
    if s != ZERO {
      ProductNonZero(Sub(z, ONE), s);
    }
  }

  lemma TelescopeThird(z: Cpx, zz: Cpx)
    requires zz == Mul(z, z) && Mul(z, zz) == ONE
    ensures Mul(Sub(z, ONE), Add(ONE, Add(z, zz))) == ZERO
  {
  }

  /* One stage of the recursion. */

  ghost function At(s: seq<Cpx>, i: int): Cpx {
    if 0 <= i < |s| then s[i] else ZERO
  }

  /** Where output bin c*m + u, and term u of sub-transform c, live. */
  function Slot(fo: int, m: int, c: int, u: int): int {
    fo + (c * m + u)
  }

  /** What each sub-transform contributes to bin c*m + u. */
  ghost function BinTerms(s: seq<Cpx>, fo: int, v: int -> Cpx, m: nat, c: int, u: int): int -> Cpx {
    q => Mul(v(q * (c * m + u)), At(s, Slot(fo, m, q, u)))
  }

  /** Bin c*m + u of the stage that combines the p sub-transforms stored from `fo` on. */
  ghost function Bin(s: seq<Cpx>, fo: int, v: int -> Cpx, p: nat, m: nat, c: int, u: int): Cpx {
    Sum(BinTerms(s, fo, v, m, c, u), p)
  }

  /** Columns below i hold the combined bins, everything else is as before. */
  ghost predicate Done(before: seq<Cpx>, after: seq<Cpx>, fo: int, v: int -> Cpx, p: nat, m: nat, i: nat) {
    && |after| == |before|
    && 0 <= fo
    && (forall c, u :: 0 <= c < p && 0 <= u < m ==> 0 <= Slot(fo, m, c, u) < |before|)
    && (forall c, u :: 0 <= c < p && 0 <= u < m ==>
          after[Slot(fo, m, c, u)]
          == if u < i then Bin(before, fo, v, p, m, c, u) else before[Slot(fo, m, c, u)])
    && (forall x :: 0 <= x < |before| && !(fo <= x < fo + p * m) ==> after[x] == before[x])
  }

  /** The whole stage: bin k of the combined transform at fo + k, nothing else touched. */
  ghost predicate Combined(before: seq<Cpx>, after: seq<Cpx>, fo: int, v: int -> Cpx, p: nat, m: nat) {
    && |after| == |before|
    && m > 0
    && 0 <= fo <= fo + p * m <= |before|
    && (forall k :: 0 <= k < p * m ==> after[fo + k] == Bin(before, fo, v, p, m, k / m, k % m))
    && (forall x :: 0 <= x < |before| && !(fo <= x < fo + p * m) ==> after[x] == before[x])
  }

  lemma SlotRange(fo: int, m: int, p: int, pm: int, c: int, u: int)
    requires pm == p * m && 0 <= c < p && 0 <= u < m
    ensures fo <= Slot(fo, m, c, u) < fo + pm
  {
    MulMonotone(m, 0, c);
    MulMonotone(m, c + 1, p);
    assert m * (c + 1) == c * m + m;
  }

  lemma SlotInjective(fo: int, m: int, c: int, u: int, d: int, w: int)
    requires 0 <= u < m && 0 <= w < m
    requires Slot(fo, m, c, u) == Slot(fo, m, d, w)
    ensures c == d && u == w
  {
    ModUnique(c * m + u, m, c, u);
    ModUnique(d * m + w, m, d, w);
  }

  lemma DoneStart(s: seq<Cpx>, fo: int, v: int -> Cpx, p: nat, m: nat, pm: nat)
    requires pm == p * m && 0 <= fo && fo + pm <= |s|
    ensures Done(s, s, fo, v, p, m, 0)
  {
    hide Bin, Slot;
    forall c, u | 0 <= c < p && 0 <= u < m ensures 0 <= Slot(fo, m, c, u) < |s| {
      SlotRange(fo, m, p, pm, c, u);
    }
  }

  lemma DoneStep(before: seq<Cpx>, s: seq<Cpx>, after: seq<Cpx>, fo: int, v: int -> Cpx, p: nat, m: nat, i: nat)
    requires Done(before, s, fo, v, p, m, i) && i < m
    requires |after| == |s|
    requires forall c :: 0 <= c < p ==> after[Slot(fo, m, c, i)] == Bin(before, fo, v, p, m, c, i)
    requires forall x :: 0 <= x < |s| && (forall c :: 0 <= c < p ==> x != Slot(fo, m, c, i)) ==> after[x] == s[x]
    ensures Done(before, after, fo, v, p, m, i + 1)
  {
    hide Bin, Slot;
    forall c, u | 0 <= c < p && 0 <= u < m && u != i
      ensures after[Slot(fo, m, c, u)] == s[Slot(fo, m, c, u)]
    {
      forall d | 0 <= d < p ensures Slot(fo, m, c, u) != Slot(fo, m, d, i) {
        if Slot(fo, m, c, u) == Slot(fo, m, d, i) {
          SlotInjective(fo, m, c, u, d, i);
        }
      }
    }
    forall x | 0 <= x < |before| && !(fo <= x < fo + p * m) ensures after[x] == before[x] {
      forall d | 0 <= d < p ensures x != Slot(fo, m, d, i) {
        SlotRange(fo, m, p, p * m, d, i);
      }
    }
  }

  lemma DoneFinish(before: seq<Cpx>, after: seq<Cpx>, fo: int, v: int -> Cpx, p: nat, m: nat, pm: nat)
    requires Done(before, after, fo, v, p, m, m)
    requires m > 0 && pm == p * m && fo + pm <= |before|
    ensures Combined(before, after, fo, v, p, m)
  {
    hide Bin;
    forall k | 0 <= k < pm ensures after[fo + k] == Bin(before, fo, v, p, m, k / m, k % m) {
      QuotientRange(k, m, p, pm);
      assert fo + k == Slot(fo, m, k / m, k % m);
    }
  }

  lemma QuotientRange(k: int, m: int, p: int, pm: int)
    requires m > 0 && pm == p * m && 0 <= k < pm
    ensures 0 <= k / m < p && 0 <= k % m < m
    ensures k == (k / m) * m + k % m
  {
    if k / m >= p {
      MulMonotone(m, p, k / m);
    }
  }

  /* The twiddled inputs that every butterfly computes first. */

  ghost function Scratch(s: seq<Cpx>, fo: int, v: int -> Cpx, m: int, u: int, q: int): Cpx {
    Mul(At(s, Slot(fo, m, q, u)), v(q * u))
  }

  lemma BinExponent(v: int -> Cpx, p: nat, m: nat, pm: nat, c: int, u: int, q: int)
    requires p > 0 && pm == p * m && IsRoot(v, pm)
    ensures v(q * (c * m + u)) == Mul(v(q * u), v(m * ((q * c) % p)))
  {
    hide Mul, IsRoot;
    var qc := q * c;
    var r, t := qc % p, qc / p;
    assert qc == p * t + r;
    assert m * qc == m * r + pm * t by {
      assert m * (p * t) == pm * t;
      assert m * (p * t + r) == m * (p * t) + m * r;
    }
    assert q * (c * m + u) == q * u + m * qc;
    RootPeriod(v, pm, m * r, t, m * qc);
    RootMul(v, pm, q * u, m * qc, q * (c * m + u));
  }

  /** The e-th of the p-th roots of unity that a stage of sub-length m combines with. */
  ghost function Turn(v: int -> Cpx, m: int, e: int): Cpx {
    v(m * e)
  }

  /** Output column c only sees p-th roots of unity once the inputs are twiddled. */
  lemma BinOfScratch(s: seq<Cpx>, fo: int, v: int -> Cpx, p: nat, m: nat, pm: nat, c: int, u: int)
    requires p > 0 && pm == p * m && IsRoot(v, pm)
    ensures Bin(s, fo, v, p, m, c, u)
         == Sum(q => Mul(Scratch(s, fo, v, m, u, q), Turn(v, m, (q * c) % p)), p)
  {
    hide Mul, IsRoot, At;
    var f := BinTerms(s, fo, v, m, c, u);
    var g := q => Mul(Scratch(s, fo, v, m, u, q), Turn(v, m, (q * c) % p));
    forall q ensures f(q) == g(q) {
      BinExponent(v, p, m, pm, c, u, q);
      var a, b, d := At(s, Slot(fo, m, q, u)), v(q * u), v(m * ((q * c) % p));
      MulComm(Mul(b, d), a);
      MulAssoc(a, b, d);
    }
    SumExt(f, g, p);
  }
}
