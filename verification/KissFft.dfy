/**
 * The mixed-radix FFT of kiss_fft.c, over exact complex numbers: five in-place
 * butterflies and the recursion that calls them.
 */
module KissFft {
  import opened Complex
  import opened Sums
  import opened Roots
  import opened Modular
  import opened Stage
  import opened Kernels
  import opened Factor

  /** kiss_fft_state: written once by kiss_fft_alloc, then only read. */
  datatype Cfg = Cfg(nfft: int, inverse: bool, factors: seq<int>, twiddles: seq<Cpx>)

  /** A table of exact roots of unity that turns the way `inverse` says. */
  ghost predicate ValidCfg(st: Cfg) {
    && |st.twiddles| == st.nfft
    && ValidTable(st.twiddles)
    && (st.nfft % 4 == 0 ==> (st.twiddles[st.nfft / 4].i > 0.0 <==> st.inverse))
  }

  /** The root of unity a stage with stride `fstride` works with. */
  ghost function StageRoot(st: Cfg, fstride: int): int -> Cpx {
    e => Twiddle(st.twiddles)(fstride * e)
  }

  /** What every stage is called with: fstride * p * m is the transform length. */
  ghost predicate StageFits(len: int, fo: nat, fstride: nat, st: Cfg, p: nat, m: nat) {
    && p > 0
    && m > 0
    && ValidCfg(st)
    && fstride * (p * m) == st.nfft
    && fo + p * m <= len
  }

  lemma StageIsPrimitive(len: int, fo: nat, fstride: nat, st: Cfg, p: nat, m: nat)
    requires StageFits(len, fo, fstride, st, p, m)
    ensures fstride > 0 && IsPrimitive(StageRoot(st, fstride), p * m)
  {
    hide ValidTable, Twiddle, IsPrimitive;
    TwiddlePrimitive(st.twiddles);
    assert st.nfft > 0 by {
      PrimitivePositive(Twiddle(st.twiddles), st.nfft);
    }
    PositiveFactors(fstride, p, m);
    PrimitivePower(Twiddle(st.twiddles), fstride, p * m, st.nfft);
  }

  lemma PrimitivePositive(w: int -> Cpx, n: int)
    requires IsPrimitive(w, n)
    ensures n > 0
  {
  }

  lemma PositiveFactors(s: nat, p: nat, m: nat)
    requires p > 0 && m > 0 && s * (p * m) > 0
    ensures s > 0 && p * m > 0
  {
  }

  /** Index of the twiddle of term q in column u. */
  function TwIndex(fstride: int, q: int, u: int): int {
    fstride * (q * u)
  }

  lemma TwIndexStep(fstride: int, q: int, u: int)
    ensures TwIndex(fstride, q, 0) == 0
    ensures TwIndex(fstride, q, u + 1) == TwIndex(fstride, q, u) + fstride * q
  {
    assert q * (u + 1) == q * u + q;
  }

  lemma TermIndex(fstride: int, p: nat, m: nat, pm: int, n: int, q: nat, u: nat, e: int)
    requires fstride > 0 && pm == p * m && fstride * pm == n
    requires q < p && u < m && e == fstride * (q * u)
    ensures 0 <= e < n
  {
    MulMonotone(q, u, m);
    MulMonotone(m, q + 1, p);
    assert m * (q + 1) == q * m + m;
    ProductBelow(fstride, q * u, pm);
  }

  lemma ProductBelow(s: int, a: int, b: int)
    requires s > 0 && 0 <= a < b
    ensures 0 <= s * a < s * b
  {
  }

  /** The table index of the twiddle of term q in column u, and the twiddled input itself. */
  lemma TermTwiddle(s: seq<Cpx>, fo: nat, fstride: nat, st: Cfg, p: nat, m: nat, q: nat, u: nat, e: int)
    requires StageFits(|s|, fo, fstride, st, p, m)
    requires q < p && u < m && e == TwIndex(fstride, q, u)
    ensures 0 <= e < st.nfft
    ensures fo <= Slot(fo, m, q, u) < fo + p * m
    ensures Scratch(s, fo, StageRoot(st, fstride), m, u, q) == Mul(s[Slot(fo, m, q, u)], st.twiddles[e])
  {
    StageIsPrimitive(|s|, fo, fstride, st, p, m);
    TermIndex(fstride, p, m, p * m, st.nfft, q, u, e);
    SlotRange(fo, m, p, p * m, q, u);
    hide Mul, IsPrimitive, ValidTable, Slot;
    TwiddleEntry(st.twiddles, e);
  }

  /** The twiddled input of term q in column u. */
  ghost function Term(s: seq<Cpx>, fo: nat, fstride: nat, st: Cfg, m: nat, u: nat): int -> Cpx {
    q => Scratch(s, fo, StageRoot(st, fstride), m, u, q)
  }

  /** The e-th power of the root the stage combines with. */
  ghost function StageTurn(st: Cfg, fstride: nat, m: nat): int -> Cpx {
    e => Turn(StageRoot(st, fstride), m, e)
  }

  lemma StageRow(s: seq<Cpx>, fo: nat, fstride: nat, st: Cfg, p: nat, m: nat, c: nat, u: nat)
    requires StageFits(|s|, fo, fstride, st, p, m)
    ensures IsRow(Bin(s, fo, StageRoot(st, fstride), p, m, c, u), Term(s, fo, fstride, st, m, u),
                  StageTurn(st, fstride, m), p, c)
  {
    StageIsPrimitive(|s|, fo, fstride, st, p, m);
    var v := StageRoot(st, fstride);
    BinIsRow(s, fo, v, p, m, p * m, c, u);
    hide Mul, Bin, Scratch, Turn, IsRoot, ValidCfg, StageFits, StageRoot;
    var b := Bin(s, fo, v, p, m, c, u);
    var t, z := Term(s, fo, fstride, st, m, u), StageTurn(st, fstride, m);
    SumExt(q => Mul((q => Scratch(s, fo, v, m, u, q))(q), (e => Turn(v, m, e))((q * c) % p)),
           q => Mul(t(q), z((q * c) % p)), p);
  }

  /** Each power is a table entry. */
  lemma TurnEntry(len: int, fo: nat, fstride: nat, st: Cfg, p: nat, m: nat, e: nat, x: int)
    requires StageFits(len, fo, fstride, st, p, m)
    requires e < p && x == fstride * (m * e)
    ensures 0 <= x < st.nfft
    ensures StageTurn(st, fstride, m)(e) == st.twiddles[x]
    ensures e == 0 ==> StageTurn(st, fstride, m)(e) == ONE
  {
    StageIsPrimitive(len, fo, fstride, st, p, m);
    MulMonotone(m, 0, e);
    MulMonotone(m, e + 1, p);
    assert m * (e + 1) == m * e + m;
    ProductBelow(fstride, m * e, p * m);
    hide ValidTable, IsPrimitive, Mul;
    TwiddleEntry(st.twiddles, x);
  }

  lemma TurnMirror(len: int, fo: nat, fstride: nat, st: Cfg, p: nat, m: nat, e: nat)
    requires StageFits(len, fo, fstride, st, p, m)
    requires 0 < e < p
    ensures StageTurn(st, fstride, m)(p - e) == Conj(StageTurn(st, fstride, m)(e))
  {
    StageIsPrimitive(len, fo, fstride, st, p, m);
    var v, pm, me := StageRoot(st, fstride), p * m, m * e;
    assert m * (p - e) == -me + pm * 1;
    assert v(-me) == Conj(v(me));
    hide Mul, IsPrimitive, IsRoot, StageFits, StageRoot;
    RootPeriod(v, pm, -me, 1, m * (p - e));
  }

  lemma TurnHalf(len: int, fo: nat, fstride: nat, st: Cfg, p: nat, m: nat, h: nat)
    requires StageFits(len, fo, fstride, st, p, m) && h > 0 && p == 2 * h
    ensures StageTurn(st, fstride, m)(h) == Neg(ONE)
  {
    StageIsPrimitive(len, fo, fstride, st, p, m);
    var v, mh := StageRoot(st, fstride), m * h;
    assert p * m == 2 * mh;
    hide Mul, IsPrimitive, IsRoot, StageFits, StageRoot;
    HalfTurn(v, mh, p * m);
  }

  lemma TurnThird(len: int, fo: nat, fstride: nat, st: Cfg, m: nat)
    requires StageFits(len, fo, fstride, st, 3, m)
    ensures StageTurn(st, fstride, m)(1).r == -0.5
  {
    StageIsPrimitive(len, fo, fstride, st, 3, m);
    hide Mul, IsPrimitive, IsRoot, StageFits, StageRoot;
    ThirdTurn(StageRoot(st, fstride), m, 3 * m);
  }

  /** The quarter turn in the direction of the transform. */
  ghost function QuarterRoot(st: Cfg): Cpx {
    if st.inverse then I else Neg(I)
  }

  lemma TurnQuarter(len: int, fo: nat, fstride: nat, st: Cfg, m: nat)
    requires StageFits(len, fo, fstride, st, 4, m)
    ensures StageTurn(st, fstride, m)(1) == QuarterRoot(st)
  {
    StageIsPrimitive(len, fo, fstride, st, 4, m);
    var x := fstride * (m * 1);
    TurnEntry(len, fo, fstride, st, 4, m, 1, x);
    assert st.nfft == 4 * x;
    hide Mul, IsPrimitive, IsRoot, StageRoot, ValidTable;
    QuarterTurn(StageRoot(st, fstride), m, 4 * m);
  }

  lemma TurnZero(len: int, fo: nat, fstride: nat, st: Cfg, p: nat, m: nat)
    requires StageFits(len, fo, fstride, st, p, m)
    ensures StageTurn(st, fstride, m)(0) == ONE
  {
    assert fstride * (m * 0) == 0;
    TurnEntry(len, fo, fstride, st, p, m, 0, 0);
  }

  lemma TermZero(s: seq<Cpx>, fo: nat, fstride: nat, st: Cfg, p: nat, m: nat, u: nat, f: int)
    requires StageFits(|s|, fo, fstride, st, p, m) && u < m && f == fo + u
    ensures 0 <= f < |s|
    ensures Term(s, fo, fstride, st, m, u)(0) == s[f]
  {
    assert 0 * u == 0;
    TermTwiddle(s, fo, fstride, st, p, m, 0, u, 0);
    assert st.twiddles[0] == ONE;
    hide StageFits;
    MulUnits(s[fo + u]);
  }

  lemma TermAt(s: seq<Cpx>, fo: nat, fstride: nat, st: Cfg, p: nat, m: nat, q: nat, u: nat, e: int, f: int)
    requires StageFits(|s|, fo, fstride, st, p, m)
    requires q < p && u < m && e == TwIndex(fstride, q, u) && f == Slot(fo, m, q, u)
    ensures 0 <= e < |st.twiddles| && 0 <= f < |s|
    ensures Term(s, fo, fstride, st, m, u)(q) == Mul(s[f], st.twiddles[e])
  {
    TermTwiddle(s, fo, fstride, st, p, m, q, u, e);
  }

  lemma Column2(s: seq<Cpx>, fo: nat, fstride: nat, st: Cfg, m: nat, u: nat, f0: int, f1: int, e1: int)
    requires StageFits(|s|, fo, fstride, st, 2, m) && u < m
    requires f0 == fo + u && f1 == f0 + m && e1 == TwIndex(fstride, 1, u)
    ensures 0 <= e1 < |st.twiddles| && 0 <= f0 < |s| && 0 <= f1 < |s|
    ensures var t := Mul(s[f1], st.twiddles[e1]);
            && Bin(s, fo, StageRoot(st, fstride), 2, m, 0, u) == Add(s[f0], t)
            && Bin(s, fo, StageRoot(st, fstride), 2, m, 1, u) == Sub(s[f0], t)
  {
    assert f1 == Slot(fo, m, 1, u);
    hide *;
    TermZero(s, fo, fstride, st, 2, m, u, f0);
    TermAt(s, fo, fstride, st, 2, m, 1, u, e1, f1);
    StageRow(s, fo, fstride, st, 2, m, 0, u);
    StageRow(s, fo, fstride, st, 2, m, 1, u);
    TurnZero(|s|, fo, fstride, st, 2, m);
    TurnHalf(|s|, fo, fstride, st, 2, m, 1);
    var v := StageRoot(st, fstride);
    Rows2(Bin(s, fo, v, 2, m, 0, u), Bin(s, fo, v, 2, m, 1, u), Term(s, fo, fstride, st, m, u), StageTurn(st, fstride, m));
  }

  /** One pass of the loop of KfBfly2. */
  lemma Step2(before: seq<Cpx>, s: seq<Cpx>, fo: nat, fstride: nat, st: Cfg, m: nat, u: nat, f0: int, f2: int, e1: int)
    requires StageFits(|s|, fo, fstride, st, 2, m) && u < m
    requires Done(before, s, fo, StageRoot(st, fstride), 2, m, u)
    requires f0 == fo + u && f2 == f0 + m && e1 == TwIndex(fstride, 1, u)
    ensures 0 <= f0 < |s| && 0 <= f2 < |s| && 0 <= e1 < |st.twiddles|
    ensures var t := Mul(s[f2], st.twiddles[e1]);
            Done(before, s[f2 := Sub(s[f0], t)][f0 := Add(s[f0], t)], fo, StageRoot(st, fstride), 2, m, u + 1)
  {
    var v := StageRoot(st, fstride);
    Column2(before, fo, fstride, st, m, u, f0, f2, e1);
    hide Mul, Bin, StageRoot, ValidTable;
    assert s[Slot(fo, m, 0, u)] == before[f0] && s[Slot(fo, m, 1, u)] == before[f2];
    var t := Mul(s[f2], st.twiddles[e1]);
    var after := s[f2 := Sub(s[f0], t)][f0 := Add(s[f0], t)];
    forall c | 0 <= c < 2 ensures after[Slot(fo, m, c, u)] == Bin(before, fo, v, 2, m, c, u) {
      assert c == 0 || c == 1;
    }
    forall x | 0 <= x < |s| && (forall c :: 0 <= c < 2 ==> x != Slot(fo, m, c, u)) ensures after[x] == s[x] {
      assert x != Slot(fo, m, 0, u) && x != Slot(fo, m, 1, u);
    }
    DoneStep(before, s, after, fo, v, 2, m, u);
  }

  /** Radix-2 butterfly. */
  method KfBfly2(fout: array<Cpx>, fo: nat, fstride: nat, st: Cfg, m: nat)
    requires StageFits(fout.Length, fo, fstride, st, 2, m)
    modifies fout
    ensures Combined(old(fout[..]), fout[..], fo, StageRoot(st, fstride), 2, m)
  {
    hide *;
    ghost var before := fout[..];
    ghost var v := StageRoot(st, fstride);
    var f0, f2, tw1, count := fo, fo + m, 0, m;
    RoomForRows(fout.Length, fo, fstride, st, 2, m);
    DoneStart(before, fo, v, 2, m, 2 * m);
    ghost var u := 0;
    TwIndexStep(fstride, 1, 0);
    while count > 0
      invariant 0 <= count <= m && u == m - count
      invariant f0 == fo + u && f2 == f0 + m && tw1 == TwIndex(fstride, 1, u)
      invariant Done(before, fout[..], fo, v, 2, m, u)
    {
      ghost var s := fout[..];
      Step2(before, s, fo, fstride, st, m, u, f0, f2, tw1);
      TwIndexStep(fstride, 1, u);
      var t := Mul(fout[f2], st.twiddles[tw1]);
      tw1 := tw1 + fstride;
      fout[f2] := Sub(fout[f0], t);
      fout[f0] := Add(fout[f0], t);
      assert fout[..] == s[f2 := Sub(s[f0], t)][f0 := Add(s[f0], t)];
      f2 := f2 + 1;
      f0 := f0 + 1;
      u := u + 1;
      count := count - 1;
    }
    DoneFinish(before, fout[..], fo, v, 2, m, 2 * m);
  }

  lemma Column3(s: seq<Cpx>, fo: nat, fstride: nat, st: Cfg, m: nat, u: nat,
                f0: int, f1: int, f2: int, e1: int, e2: int, epi: int)
    requires StageFits(|s|, fo, fstride, st, 3, m) && u < m
    requires f0 == fo + u && f1 == f0 + m && f2 == f0 + 2 * m
    requires e1 == TwIndex(fstride, 1, u) && e2 == TwIndex(fstride, 2, u) && epi == TwIndex(fstride, 1, m)
    ensures 0 <= e1 < |st.twiddles| && 0 <= e2 < |st.twiddles| && 0 <= epi < |st.twiddles|
    ensures 0 <= f0 < |s| && 0 <= f1 < |s| && 0 <= f2 < |s|
    ensures st.twiddles[epi].r == -0.5
    ensures var v := StageRoot(st, fstride);
            var z := st.twiddles[epi];
            var t1, t2 := Mul(s[f1], st.twiddles[e1]), Mul(s[f2], st.twiddles[e2]);
            && Bin(s, fo, v, 3, m, 0, u) == Add(Add(s[f0], t1), t2)
            && Bin(s, fo, v, 3, m, 1, u) == Add(s[f0], Pair(t1, t2, z))
            && Bin(s, fo, v, 3, m, 2, u) == Add(s[f0], Pair(t2, t1, z))
  {
    assert f1 == Slot(fo, m, 1, u) && f2 == Slot(fo, m, 2, u);
    hide *;
    TermZero(s, fo, fstride, st, 3, m, u, f0);
    TermAt(s, fo, fstride, st, 3, m, 1, u, e1, f1);
    TermAt(s, fo, fstride, st, 3, m, 2, u, e2, f2);
    StageRow(s, fo, fstride, st, 3, m, 0, u);
    StageRow(s, fo, fstride, st, 3, m, 1, u);
    StageRow(s, fo, fstride, st, 3, m, 2, u);
    TurnZero(|s|, fo, fstride, st, 3, m);
    TurnAt(|s|, fo, fstride, st, 3, m, 1, epi);
    TurnMirror(|s|, fo, fstride, st, 3, m, 1);
    TurnThird(|s|, fo, fstride, st, m);
    var v := StageRoot(st, fstride);
    Rows3(Bin(s, fo, v, 3, m, 0, u), Bin(s, fo, v, 3, m, 1, u), Bin(s, fo, v, 3, m, 2, u),
          Term(s, fo, fstride, st, m, u), StageTurn(st, fstride, m));
  }

  lemma TurnAt(len: int, fo: nat, fstride: nat, st: Cfg, p: nat, m: nat, e: nat, x: int)
    requires StageFits(len, fo, fstride, st, p, m)
    requires e < p && x == TwIndex(fstride, e, m)
    ensures 0 <= x < |st.twiddles|
    ensures StageTurn(st, fstride, m)(e) == st.twiddles[x]
  {
    assert e * m == m * e;
    TurnEntry(len, fo, fstride, st, p, m, e, x);
  }

  /** The values that the body of KfBfly3 leaves in its three cells. */
  lemma Code3(f: Cpx, t1: Cpx, t2: Cpx, z: Cpx, r0: Cpx, r1: Cpx, r2: Cpx)
    requires z.r == -0.5
    requires r0 == Add(f, Add(t1, t2))
    requires r1 == AddI(Sub(f, Half(Add(t1, t2))), Scale(z.i, Sub(t1, t2)))
    requires r2 == SubI(Sub(f, Half(Add(t1, t2))), Scale(z.i, Sub(t1, t2)))
    ensures r0 == Add(Add(f, t1), t2)
    ensures r1 == Add(f, Pair(t1, t2, z))
    ensures r2 == Add(f, Pair(t2, t1, z))
  {
    NegateProduct(t1.i - t2.i, t2.i - t1.i, z.i);
    NegateProduct(t1.r - t2.r, t2.r - t1.r, z.i);
  }

  lemma NegateProduct(x: real, y: real, c: real)
    requires y == -x
    ensures y * c == -(x * c)
  {
  }

  /** Column u of the region still holds the stage's input when the loop reaches it. */
  lemma Untouched(before: seq<Cpx>, s: seq<Cpx>, fo: nat, v: int -> Cpx, p: nat, m: nat, u: nat, q: nat, f: int)
    requires Done(before, s, fo, v, p, m, u) && u < m && q < p && f == fo + (q * m + u)
    ensures 0 <= f < |s| && s[f] == before[f]
  {
    assert f == Slot(fo, m, q, u);
    hide Bin, Slot;
  }

  /** The cells and table entries a pass reads exist. */
  lemma InRange(len: int, fo: nat, fstride: nat, st: Cfg, p: nat, m: nat, q: nat, u: nat, f: int, e: int)
    requires StageFits(len, fo, fstride, st, p, m)
    requires q < p && u < m && f == fo + (q * m + u) && e == TwIndex(fstride, q, u)
    ensures 0 <= f < len && 0 <= e < |st.twiddles|
  {
    StageIsPrimitive(len, fo, fstride, st, p, m);
    TermIndex(fstride, p, m, p * m, st.nfft, q, u, e);
    SlotRange(fo, m, p, p * m, q, u);
  }

  /** The three cells a pass of KfBfly3 leaves, from its twiddled inputs. */
  ghost function After3(s: seq<Cpx>, f: int, m: nat, t1: Cpx, t2: Cpx, z: Cpx): seq<Cpx>
    requires 0 <= f && f + 2 * m < |s|
  {
    var half, scaled := Sub(s[f], Half(Add(t1, t2))), Scale(z.i, Sub(t1, t2));
    s[f := Add(s[f], Add(t1, t2))][f + m := AddI(half, scaled)][f + 2 * m := SubI(half, scaled)]
  }

  lemma After3Cells(s: seq<Cpx>, f: int, m: nat, t1: Cpx, t2: Cpx, z: Cpx, after: seq<Cpx>)
    requires 0 <= f && m > 0 && f + 2 * m < |s|
    requires after == After3(s, f, m, t1, t2, z) && z.r == -0.5
    ensures |after| == |s|
    ensures after[f] == Add(Add(s[f], t1), t2)
    ensures after[f + m] == Add(s[f], Pair(t1, t2, z))
    ensures after[f + 2 * m] == Add(s[f], Pair(t2, t1, z))
    ensures forall x :: 0 <= x < |s| && x != f && x != f + m && x != f + 2 * m ==> after[x] == s[x]
  {
    hide Add, Sub, Half, AddI, SubI, Pair, Scale;
    Code3(s[f], t1, t2, z, after[f], after[f + m], after[f + 2 * m]);
  }

  /** One pass of the loop of KfBfly3. */
  lemma DoneLength(before: seq<Cpx>, s: seq<Cpx>, fo: nat, v: int -> Cpx, p: nat, m: nat, u: nat)
    requires Done(before, s, fo, v, p, m, u)
    ensures |before| == |s|
  {
    hide Bin, Slot;
  }

  lemma Pass3(before: seq<Cpx>, s: seq<Cpx>, fo: nat, fstride: nat, st: Cfg, m: nat, u: nat,
              f: int, e1: int, e2: int, third: int)
    requires StageFits(|s|, fo, fstride, st, 3, m) && u < m
    requires Done(before, s, fo, StageRoot(st, fstride), 3, m, u)
    requires f == fo + u && third == TwIndex(fstride, 1, m)
    requires e1 == TwIndex(fstride, 1, u) && e2 == TwIndex(fstride, 2, u)
    ensures f + 2 * m < |s|
    ensures 0 <= e1 < |st.twiddles| && 0 <= e2 < |st.twiddles| && 0 <= third < |st.twiddles|
    ensures var t1, t2 := Mul(s[f + m], st.twiddles[e1]), Mul(s[f + 2 * m], st.twiddles[e2]);
            Done(before, After3(s, f, m, t1, t2, st.twiddles[third]), fo, StageRoot(st, fstride), 3, m, u + 1)
  {
    hide *;
    var v := StageRoot(st, fstride);
    var f1, f2 := f + m, f + 2 * m;
    Slots(fo, m, u, f);
    DoneLength(before, s, fo, v, 3, m, u);
    RoomForRows(|s|, fo, fstride, st, 3, m);
    Column3(before, fo, fstride, st, m, u, f, f1, f2, e1, e2, third);
    Untouched(before, s, fo, v, 3, m, u, 0, f);
    Untouched(before, s, fo, v, 3, m, u, 1, f1);
    Untouched(before, s, fo, v, 3, m, u, 2, f2);
    var t1, t2 := Mul(s[f1], st.twiddles[e1]), Mul(s[f2], st.twiddles[e2]);
    var after := After3(s, f, m, t1, t2, st.twiddles[third]);
    After3Cells(s, f, m, t1, t2, st.twiddles[third], after);
    assert after[f] == Bin(before, fo, v, 3, m, 0, u);
    assert after[f1] == Bin(before, fo, v, 3, m, 1, u);
    assert after[f2] == Bin(before, fo, v, 3, m, 2, u);
    Columns(before, s, after, fo, v, 3, m, u, f);
  }

  /** A pass that fills the p cells of column u with their bins, and nothing else, is one step. */
  lemma Columns(before: seq<Cpx>, s: seq<Cpx>, after: seq<Cpx>, fo: nat, v: int -> Cpx, p: nat, m: nat, u: nat, f: int)
    requires Done(before, s, fo, v, p, m, u) && u < m && 2 <= p <= 5
    requires |after| == |s| && f == fo + u && f + m < |s|
    requires (p > 2 ==> f + 2 * m < |s|) && (p > 3 ==> f + 3 * m < |s|) && (p > 4 ==> f + 4 * m < |s|)
    requires after[f] == Bin(before, fo, v, p, m, 0, u)
    requires after[f + m] == Bin(before, fo, v, p, m, 1, u)
    requires p > 2 ==> after[f + 2 * m] == Bin(before, fo, v, p, m, 2, u)
    requires p > 3 ==> after[f + 3 * m] == Bin(before, fo, v, p, m, 3, u)
    requires p > 4 ==> after[f + 4 * m] == Bin(before, fo, v, p, m, 4, u)
    requires forall x ::
               (&& 0 <= x < |s| && x != f && x != f + m && (p > 2 ==> x != f + 2 * m)
                && (p > 3 ==> x != f + 3 * m) && (p > 4 ==> x != f + 4 * m)) ==> after[x] == s[x]
    ensures Done(before, after, fo, v, p, m, u + 1)
  {
    hide Bin, Done;
    forall c | 0 <= c < p ensures after[Slot(fo, m, c, u)] == Bin(before, fo, v, p, m, c, u) {
      ColumnCell(fo, m, u, f, p, c);
    }
    forall x | 0 <= x < |s| && (forall c :: 0 <= c < p ==> x != Slot(fo, m, c, u)) ensures after[x] == s[x] {
      NotInColumn(fo, m, u, f, p, x);
    }
    hide *;
    DoneStep(before, s, after, fo, v, p, m, u);
  }

  lemma ColumnCell(fo: nat, m: nat, u: nat, f: int, p: nat, c: nat)
    requires f == fo + u && c < p <= 5
    ensures c == 0 || c == 1 || c == 2 || c == 3 || c == 4
    ensures c == 0 ==> Slot(fo, m, c, u) == f
    ensures c == 1 ==> Slot(fo, m, c, u) == f + m
    ensures c == 2 ==> Slot(fo, m, c, u) == f + 2 * m
    ensures c == 3 ==> Slot(fo, m, c, u) == f + 3 * m
    ensures c == 4 ==> Slot(fo, m, c, u) == f + 4 * m
  {
  }

  lemma NotInColumn(fo: nat, m: nat, u: nat, f: int, p: nat, x: int)
    requires f == fo + u && 2 <= p <= 5
    requires forall c :: 0 <= c < p ==> x != Slot(fo, m, c, u)
    ensures x != f && x != f + m
    ensures (p > 2 ==> x != f + 2 * m) && (p > 3 ==> x != f + 3 * m) && (p > 4 ==> x != f + 4 * m)
  {
    Slots(fo, m, u, f);
    assert x != Slot(fo, m, 0, u) && x != Slot(fo, m, 1, u);
    assert p > 2 ==> x != Slot(fo, m, 2, u);
    assert p > 3 ==> x != Slot(fo, m, 3, u);
    assert p > 4 ==> x != Slot(fo, m, 4, u);
  }

  lemma Slots(fo: int, m: nat, u: int, f: int)
    requires f == fo + u
    ensures Slot(fo, m, 0, u) == f && Slot(fo, m, 1, u) == f + m && Slot(fo, m, 2, u) == f + 2 * m
    ensures Slot(fo, m, 3, u) == f + 3 * m && Slot(fo, m, 4, u) == f + 4 * m
  {
  }

  /** The writes of one pass of KfBfly3. */
  method Write3(fout: array<Cpx>, f: nat, m: nat, scratch1: Cpx, scratch2: Cpx, epi3: Cpx)
    requires m > 0 && f + 2 * m < fout.Length
    modifies fout
    ensures fout[..] == After3(old(fout[..]), f, m, scratch1, scratch2, epi3)
  {
    hide Add, Sub, Half, AddI, SubI, Scale;
    var m2 := 2 * m;
    var scratch3 := Add(scratch1, scratch2);
    var scratch0 := Sub(scratch1, scratch2);
    fout[f + m] := Sub(fout[f], Half(scratch3));
    scratch0 := Scale(epi3.i, scratch0);
    fout[f] := Add(fout[f], scratch3);
    fout[f + m2] := SubI(fout[f + m], scratch0);
    fout[f + m] := AddI(fout[f + m], scratch0);
  }

  /** Radix-3 butterfly. */
  method KfBfly3(fout: array<Cpx>, fo: nat, fstride: nat, st: Cfg, m: nat)
    requires StageFits(fout.Length, fo, fstride, st, 3, m)
    modifies fout
    ensures Combined(old(fout[..]), fout[..], fo, StageRoot(st, fstride), 3, m)
  {
    hide *;
    ghost var before := fout[..];
    ghost var v := StageRoot(st, fstride);
    RoomForRows(fout.Length, fo, fstride, st, 3, m);
    DoneStart(before, fo, v, 3, m, 3 * m);
    var k, m2, third := m, 2 * m, TwIndex(fstride, 1, m);
    var f, tw1, tw2 := fo, 0, 0;
    ghost var u := 0;
    TwIndexStep(fstride, 1, 0);
    TwIndexStep(fstride, 2, 0);
    Pass3(before, before, fo, fstride, st, m, 0, fo, 0, 0, third);
    var epi3 := st.twiddles[third];
    while k > 0
      invariant 0 <= k <= m && u == m - k
      invariant f == fo + u && tw1 == TwIndex(fstride, 1, u) && tw2 == TwIndex(fstride, 2, u)
      invariant Done(before, fout[..], fo, v, 3, m, u)
    {
      Pass3(before, fout[..], fo, fstride, st, m, u, f, tw1, tw2, third);
      TwIndexStep(fstride, 1, u);
      TwIndexStep(fstride, 2, u);
      var scratch1 := Mul(fout[f + m], st.twiddles[tw1]);
      var scratch2 := Mul(fout[f + m2], st.twiddles[tw2]);
      tw1 := tw1 + fstride;
      tw2 := tw2 + fstride * 2;
      Write3(fout, f, m, scratch1, scratch2, epi3);
      assert Done(before, fout[..], fo, v, 3, m, u + 1);
      assert tw1 == TwIndex(fstride, 1, u + 1);
      assert tw2 == TwIndex(fstride, 2, u + 1);
      f := f + 1;
      u := u + 1;
      k := k - 1;
    }
    assert u == m;
    assert Done(before, fout[..], fo, v, 3, m, m);
    DoneFinish(before, fout[..], fo, v, 3, m, 3 * m);
  }

  /* Radix 4. */

  /** t1, t2 and t3 are the twiddled inputs of column u. */
  ghost predicate Reads4(s: seq<Cpx>, fstride: nat, st: Cfg, u: nat, f: int, m: nat,
                         e1: int, e2: int, e3: int, t1: Cpx, t2: Cpx, t3: Cpx) {
    && 0 <= f && f + 3 * m < |s|
    && e1 == TwIndex(fstride, 1, u) && e2 == TwIndex(fstride, 2, u) && e3 == TwIndex(fstride, 3, u)
    && 0 <= e1 < |st.twiddles| && 0 <= e2 < |st.twiddles| && 0 <= e3 < |st.twiddles|
    && t1 == Mul(s[f + m], st.twiddles[e1])
    && t2 == Mul(s[f + 2 * m], st.twiddles[e2])
    && t3 == Mul(s[f + 3 * m], st.twiddles[e3])
  }

  lemma Bounds4(len: int, fo: nat, fstride: nat, st: Cfg, m: nat, u: nat, f: int, e1: int, e2: int, e3: int)
    requires StageFits(len, fo, fstride, st, 4, m) && u < m && f == fo + u
    requires e1 == TwIndex(fstride, 1, u) && e2 == TwIndex(fstride, 2, u) && e3 == TwIndex(fstride, 3, u)
    ensures 0 <= f && f + 3 * m < len
    ensures 0 <= e1 < |st.twiddles| && 0 <= e2 < |st.twiddles| && 0 <= e3 < |st.twiddles|
  {
    hide *;
    InRange(len, fo, fstride, st, 4, m, 1, u, f + m, e1);
    InRange(len, fo, fstride, st, 4, m, 2, u, f + 2 * m, e2);
    InRange(len, fo, fstride, st, 4, m, 3, u, f + 3 * m, e3);
  }

  lemma Column4(s: seq<Cpx>, fo: nat, fstride: nat, st: Cfg, m: nat, u: nat, f: int,
                e1: int, e2: int, e3: int, t1: Cpx, t2: Cpx, t3: Cpx)
    requires StageFits(|s|, fo, fstride, st, 4, m) && u < m && f == fo + u
    requires Reads4(s, fstride, st, u, f, m, e1, e2, e3, t1, t2, t3)
    ensures var v := StageRoot(st, fstride);
            && Bin(s, fo, v, 4, m, 0, u) == Add(Add(Add(s[f], t1), t2), t3)
            && Bin(s, fo, v, 4, m, 1, u) == Add(Sub(s[f], t2), Pair(t1, t3, QuarterRoot(st)))
            && Bin(s, fo, v, 4, m, 2, u) == Sub(Add(Sub(s[f], t1), t2), t3)
            && Bin(s, fo, v, 4, m, 3, u) == Add(Sub(s[f], t2), Pair(t3, t1, QuarterRoot(st)))
  {
    var f1, f2, f3 := f + m, f + 2 * m, f + 3 * m;
    var t, z := Term(s, fo, fstride, st, m, u), StageTurn(st, fstride, m);
    assert t(0) == s[f] && t(1) == t1 && t(2) == t2 && t(3) == t3 by {
      Slots(fo, m, u, f);
      hide Mul, Slot, StageFits, TwIndex, Term;
      TermZero(s, fo, fstride, st, 4, m, u, f);
      TermAt(s, fo, fstride, st, 4, m, 1, u, e1, f1);
      TermAt(s, fo, fstride, st, 4, m, 2, u, e2, f2);
      TermAt(s, fo, fstride, st, 4, m, 3, u, e3, f3);
    }
    hide *;
    TurnZero(|s|, fo, fstride, st, 4, m);
    TurnHalf(|s|, fo, fstride, st, 4, m, 2);
    TurnQuarter(|s|, fo, fstride, st, m);
    TurnMirror(|s|, fo, fstride, st, 4, m, 1);
    assert z(0) == ONE && z(2) == Neg(ONE);
    assert z(3) == Conj(z(1));
    assert z(1) == QuarterRoot(st);
    StageRow(s, fo, fstride, st, 4, m, 0, u);
    StageRow(s, fo, fstride, st, 4, m, 1, u);
    StageRow(s, fo, fstride, st, 4, m, 2, u);
    StageRow(s, fo, fstride, st, 4, m, 3, u);
    var v := StageRoot(st, fstride);
    var b0, b1, b2, b3 := Bin(s, fo, v, 4, m, 0, u), Bin(s, fo, v, 4, m, 1, u), Bin(s, fo, v, 4, m, 2, u), Bin(s, fo, v, 4, m, 3, u);
    Rows4(b0, b1, b2, b3, t, z);
    assert b0 == Add(Add(Add(s[f], t1), t2), t3);
    assert b1 == Add(Sub(s[f], t2), Pair(t1, t3, QuarterRoot(st)));
    assert b2 == Sub(Add(Sub(s[f], t1), t2), t3);
    assert b3 == Add(Sub(s[f], t2), Pair(t3, t1, QuarterRoot(st)));
  }

  /** The four cells a pass of KfBfly4 leaves, from its twiddled inputs. */
  ghost function After4(s: seq<Cpx>, f: int, m: nat, t1: Cpx, t2: Cpx, t3: Cpx, st: Cfg): seq<Cpx>
    requires 0 <= f && f + 3 * m < |s|
  {
    var even, odd, sum, dif := Add(s[f], t2), Sub(s[f], t2), Add(t1, t3), Sub(t1, t3);
    s[f := Add(even, sum)]
     [f + m := if st.inverse then AddI(odd, dif) else SubI(odd, dif)]
     [f + 2 * m := Sub(even, sum)]
     [f + 3 * m := if st.inverse then SubI(odd, dif) else AddI(odd, dif)]
  }

  lemma Code4(f: Cpx, t1: Cpx, t2: Cpx, t3: Cpx)
    ensures Add(Add(f, t2), Add(t1, t3)) == Add(Add(Add(f, t1), t2), t3)
    ensures Sub(Add(f, t2), Add(t1, t3)) == Sub(Add(Sub(f, t1), t2), t3)
    ensures AddI(Sub(f, t2), Sub(t1, t3)) == Add(Sub(f, t2), Pair(t1, t3, I)) == Add(Sub(f, t2), Pair(t3, t1, Neg(I)))
    ensures SubI(Sub(f, t2), Sub(t1, t3)) == Add(Sub(f, t2), Pair(t1, t3, Neg(I))) == Add(Sub(f, t2), Pair(t3, t1, I))
  {
  }

  lemma After4Cells(s: seq<Cpx>, f: int, m: nat, t1: Cpx, t2: Cpx, t3: Cpx, st: Cfg, after: seq<Cpx>)
    requires 0 <= f && m > 0 && f + 3 * m < |s|
    requires after == After4(s, f, m, t1, t2, t3, st)
    ensures |after| == |s|
    ensures var z := QuarterRoot(st);
            && after[f] == Add(Add(Add(s[f], t1), t2), t3)
            && after[f + m] == Add(Sub(s[f], t2), Pair(t1, t3, z))
            && after[f + 2 * m] == Sub(Add(Sub(s[f], t1), t2), t3)
            && after[f + 3 * m] == Add(Sub(s[f], t2), Pair(t3, t1, z))
    ensures forall x :: 0 <= x < |s| && x != f && x != f + m && x != f + 2 * m && x != f + 3 * m ==> after[x] == s[x]
  {
    hide Add, Sub, AddI, SubI, Pair, Neg;
    Code4(s[f], t1, t2, t3);
  }

  /** One pass of the loop of KfBfly4. */
  lemma Pass4(before: seq<Cpx>, s: seq<Cpx>, fo: nat, fstride: nat, st: Cfg, m: nat, u: nat, f: int,
              e1: int, e2: int, e3: int, t1: Cpx, t2: Cpx, t3: Cpx)
    requires StageFits(|s|, fo, fstride, st, 4, m) && u < m && f == fo + u
    requires Done(before, s, fo, StageRoot(st, fstride), 4, m, u)
    requires Reads4(s, fstride, st, u, f, m, e1, e2, e3, t1, t2, t3)
    ensures Done(before, After4(s, f, m, t1, t2, t3, st), fo, StageRoot(st, fstride), 4, m, u + 1)
  {
    var v := StageRoot(st, fstride);
    assert |before| == |s| && m > 0;
    Untouched(before, s, fo, v, 4, m, u, 0, f);
    Untouched(before, s, fo, v, 4, m, u, 1, f + m);
    Untouched(before, s, fo, v, 4, m, u, 2, f + 2 * m);
    Untouched(before, s, fo, v, 4, m, u, 3, f + 3 * m);
    assert Reads4(before, fstride, st, u, f, m, e1, e2, e3, t1, t2, t3) by {
      hide Mul, TwIndex, StageFits, Done, StageRoot;
    }
    hide *;
    Column4(before, fo, fstride, st, m, u, f, e1, e2, e3, t1, t2, t3);
    var after := After4(s, f, m, t1, t2, t3, st);
    After4Cells(s, f, m, t1, t2, t3, st, after);
    assert after[f] == Bin(before, fo, v, 4, m, 0, u);
    assert after[f + m] == Bin(before, fo, v, 4, m, 1, u);
    assert after[f + 2 * m] == Bin(before, fo, v, 4, m, 2, u);
    assert after[f + 3 * m] == Bin(before, fo, v, 4, m, 3, u);
    Columns(before, s, after, fo, v, 4, m, u, f);
  }

  /** The writes of one pass of KfBfly4. */
  method Write4(fout: array<Cpx>, f: nat, m: nat, scratch0: Cpx, scratch1: Cpx, scratch2: Cpx, st: Cfg)
    requires m > 0 && f + 3 * m < fout.Length
    modifies fout
    ensures fout[..] == After4(old(fout[..]), f, m, scratch0, scratch1, scratch2, st)
  {
    hide Add, Sub, AddI, SubI;
    var m2, m3 := 2 * m, 3 * m;
    var scratch5 := Sub(fout[f], scratch1);
    fout[f] := Add(fout[f], scratch1);
    var scratch3 := Add(scratch0, scratch2);
    var scratch4 := Sub(scratch0, scratch2);
    fout[f + m2] := Sub(fout[f], scratch3);
    fout[f] := Add(fout[f], scratch3);
    if st.inverse {
      fout[f + m] := AddI(scratch5, scratch4);
      fout[f + m3] := SubI(scratch5, scratch4);
    } else {
      fout[f + m] := SubI(scratch5, scratch4);
      fout[f + m3] := AddI(scratch5, scratch4);
    }
  }

  lemma IsReads4(s: seq<Cpx>, fstride: nat, st: Cfg, u: nat, f: int, m: nat,
                 e1: int, e2: int, e3: int, t1: Cpx, t2: Cpx, t3: Cpx)
    requires 0 <= f && f + 3 * m < |s|
    requires e1 == TwIndex(fstride, 1, u) && e2 == TwIndex(fstride, 2, u) && e3 == TwIndex(fstride, 3, u)
    requires 0 <= e1 < |st.twiddles| && 0 <= e2 < |st.twiddles| && 0 <= e3 < |st.twiddles|
    requires t1 == Mul(s[f + m], st.twiddles[e1])
    requires t2 == Mul(s[f + 2 * m], st.twiddles[e2])
    requires t3 == Mul(s[f + 3 * m], st.twiddles[e3])
    ensures Reads4(s, fstride, st, u, f, m, e1, e2, e3, t1, t2, t3)
  {
  }

  /** Radix-4 butterfly, for both directions. */
  method KfBfly4(fout: array<Cpx>, fo: nat, fstride: nat, st: Cfg, m: nat)
    requires StageFits(fout.Length, fo, fstride, st, 4, m)
    modifies fout
    ensures Combined(old(fout[..]), fout[..], fo, StageRoot(st, fstride), 4, m)
  {
    hide *;
    ghost var before := fout[..];
    ghost var v := StageRoot(st, fstride);
    RoomForRows(fout.Length, fo, fstride, st, 4, m);
    DoneStart(before, fo, v, 4, m, 4 * m);
    var k, m2, m3 := m, 2 * m, 3 * m;
    var f, tw1, tw2, tw3 := fo, 0, 0, 0;
    ghost var u := 0;
    TwIndexStep(fstride, 1, 0);
    TwIndexStep(fstride, 2, 0);
    TwIndexStep(fstride, 3, 0);
    while k > 0
      invariant 0 <= k <= m && u == m - k
      invariant f == fo + u && tw1 == TwIndex(fstride, 1, u)
      invariant tw2 == TwIndex(fstride, 2, u) && tw3 == TwIndex(fstride, 3, u)
      invariant Done(before, fout[..], fo, v, 4, m, u)
    {
      Bounds4(fout.Length, fo, fstride, st, m, u, f, tw1, tw2, tw3);
      TwIndexStep(fstride, 1, u);
      TwIndexStep(fstride, 2, u);
      TwIndexStep(fstride, 3, u);
      var scratch0 := Mul(fout[f + m], st.twiddles[tw1]);
      var scratch1 := Mul(fout[f + m2], st.twiddles[tw2]);
      var scratch2 := Mul(fout[f + m3], st.twiddles[tw3]);
      IsReads4(fout[..], fstride, st, u, f, m, tw1, tw2, tw3, scratch0, scratch1, scratch2);
      Pass4(before, fout[..], fo, fstride, st, m, u, f, tw1, tw2, tw3, scratch0, scratch1, scratch2);
      tw1 := tw1 + fstride;
      tw2 := tw2 + fstride * 2;
      tw3 := tw3 + fstride * 3;
      Write4(fout, f, m, scratch0, scratch1, scratch2, st);
      assert Done(before, fout[..], fo, v, 4, m, u + 1);
      assert tw1 == TwIndex(fstride, 1, u + 1);
      assert tw2 == TwIndex(fstride, 2, u + 1);
      assert tw3 == TwIndex(fstride, 3, u + 1);
      f := f + 1;
      u := u + 1;
      k := k - 1;
    }
    assert u == m;
    assert Done(before, fout[..], fo, v, 4, m, m);
    DoneFinish(before, fout[..], fo, v, 4, m, 4 * m);
  }

  /* Radix 5. */

  /** The twiddled inputs of one column of KfBfly5, and its two roots. */
  datatype Scratch5 = Scratch5(t1: Cpx, t2: Cpx, t3: Cpx, t4: Cpx, ya: Cpx, yb: Cpx)

  /** What the loop of KfBfly5 has read when it reaches column u. */
  ghost predicate Reads5(s: seq<Cpx>, fstride: nat, st: Cfg, m: nat, u: nat, f: int, t: Scratch5) {
    && 0 <= f && f + 4 * m < |s|
    && 0 <= TwIndex(fstride, 1, u) < |st.twiddles| && 0 <= TwIndex(fstride, 2, u) < |st.twiddles|
    && 0 <= TwIndex(fstride, 3, u) < |st.twiddles| && 0 <= TwIndex(fstride, 4, u) < |st.twiddles|
    && 0 <= TwIndex(fstride, 1, m) < |st.twiddles| && 0 <= TwIndex(fstride, 2, m) < |st.twiddles|
    && t == Scratch5(
              Mul(s[f + m], st.twiddles[TwIndex(fstride, 1, u)]),
              Mul(s[f + 2 * m], st.twiddles[TwIndex(fstride, 2, u)]),
              Mul(s[f + 3 * m], st.twiddles[TwIndex(fstride, 3, u)]),
              Mul(s[f + 4 * m], st.twiddles[TwIndex(fstride, 4, u)]),
              st.twiddles[TwIndex(fstride, 1, m)],
              st.twiddles[TwIndex(fstride, 2, m)])
  }

  lemma Bounds5(len: int, fo: nat, fstride: nat, st: Cfg, m: nat, u: nat, f: int)
    requires StageFits(len, fo, fstride, st, 5, m) && u < m && f == fo + u
    ensures 0 <= f && f + 4 * m < len
    ensures 0 <= TwIndex(fstride, 1, u) < |st.twiddles| && 0 <= TwIndex(fstride, 2, u) < |st.twiddles|
    ensures 0 <= TwIndex(fstride, 3, u) < |st.twiddles| && 0 <= TwIndex(fstride, 4, u) < |st.twiddles|
    ensures 0 <= TwIndex(fstride, 1, m) < |st.twiddles| && 0 <= TwIndex(fstride, 2, m) < |st.twiddles|
  {
    hide *;
    InRange(len, fo, fstride, st, 5, m, 1, u, f + m, TwIndex(fstride, 1, u));
    InRange(len, fo, fstride, st, 5, m, 2, u, f + 2 * m, TwIndex(fstride, 2, u));
    InRange(len, fo, fstride, st, 5, m, 3, u, f + 3 * m, TwIndex(fstride, 3, u));
    InRange(len, fo, fstride, st, 5, m, 4, u, f + 4 * m, TwIndex(fstride, 4, u));
    TurnAt(len, fo, fstride, st, 5, m, 1, TwIndex(fstride, 1, m));
    TurnAt(len, fo, fstride, st, 5, m, 2, TwIndex(fstride, 2, m));
  }

  lemma Column5(s: seq<Cpx>, fo: nat, fstride: nat, st: Cfg, m: nat, u: nat, f: int, r: Scratch5)
    requires StageFits(|s|, fo, fstride, st, 5, m) && u < m && f == fo + u
    requires Reads5(s, fstride, st, m, u, f, r)
    ensures var v := StageRoot(st, fstride);
            && Bin(s, fo, v, 5, m, 0, u) == Add(Add(Add(Add(s[f], r.t1), r.t2), r.t3), r.t4)
            && Bin(s, fo, v, 5, m, 1, u) == Add(Add(s[f], Pair(r.t1, r.t4, r.ya)), Pair(r.t2, r.t3, r.yb))
            && Bin(s, fo, v, 5, m, 2, u) == Add(Add(s[f], Pair(r.t1, r.t4, r.yb)), Pair(r.t3, r.t2, r.ya))
            && Bin(s, fo, v, 5, m, 3, u) == Add(Add(s[f], Pair(r.t4, r.t1, r.yb)), Pair(r.t2, r.t3, r.ya))
            && Bin(s, fo, v, 5, m, 4, u) == Add(Add(s[f], Pair(r.t4, r.t1, r.ya)), Pair(r.t3, r.t2, r.yb))
  {
    var f1, f2, f3, f4 := f + m, f + 2 * m, f + 3 * m, f + 4 * m;
    var t, z := Term(s, fo, fstride, st, m, u), StageTurn(st, fstride, m);
    assert t(0) == s[f] && t(1) == r.t1 && t(2) == r.t2 && t(3) == r.t3 && t(4) == r.t4 by {
      Slots(fo, m, u, f);
      hide Mul, Slot, StageFits, TwIndex, Term;
      TermZero(s, fo, fstride, st, 5, m, u, f);
      TermAt(s, fo, fstride, st, 5, m, 1, u, TwIndex(fstride, 1, u), f1);
      TermAt(s, fo, fstride, st, 5, m, 2, u, TwIndex(fstride, 2, u), f2);
      TermAt(s, fo, fstride, st, 5, m, 3, u, TwIndex(fstride, 3, u), f3);
      TermAt(s, fo, fstride, st, 5, m, 4, u, TwIndex(fstride, 4, u), f4);
    }
    assert z(1) == r.ya && z(2) == r.yb by {
      hide Mul, StageFits, TwIndex, StageTurn;
      TurnAt(|s|, fo, fstride, st, 5, m, 1, TwIndex(fstride, 1, m));
      TurnAt(|s|, fo, fstride, st, 5, m, 2, TwIndex(fstride, 2, m));
    }
    hide *;
    TurnZero(|s|, fo, fstride, st, 5, m);
    TurnMirror(|s|, fo, fstride, st, 5, m, 1);
    TurnMirror(|s|, fo, fstride, st, 5, m, 2);
    assert z(4) == Conj(z(1)) && z(3) == Conj(z(2));
    StageRow(s, fo, fstride, st, 5, m, 0, u);
    StageRow(s, fo, fstride, st, 5, m, 1, u);
    StageRow(s, fo, fstride, st, 5, m, 2, u);
    StageRow(s, fo, fstride, st, 5, m, 3, u);
    StageRow(s, fo, fstride, st, 5, m, 4, u);
    var v := StageRoot(st, fstride);
    Rows5(Bin(s, fo, v, 5, m, 0, u), Bin(s, fo, v, 5, m, 1, u), Bin(s, fo, v, 5, m, 2, u), Bin(s, fo, v, 5, m, 3, u),
          Bin(s, fo, v, 5, m, 4, u), t, z);
  }

  /** The five cells a pass of KfBfly5 leaves. */
  ghost function After5(s: seq<Cpx>, f: int, m: nat, t: Scratch5): seq<Cpx>
    requires 0 <= f && f + 4 * m < |s|
  {
    var s7, s10, s8, s9 := Add(t.t1, t.t4), Sub(t.t1, t.t4), Add(t.t2, t.t3), Sub(t.t2, t.t3);
    var s5 := Add(Add(s[f], Scale(t.ya.r, s7)), Scale(t.yb.r, s8));
    var s6 := Neg(TimesI(Add(Scale(t.ya.i, s10), Scale(t.yb.i, s9))));
    var s11 := Add(Add(s[f], Scale(t.yb.r, s7)), Scale(t.ya.r, s8));
    var s12 := TimesI(Sub(Scale(t.yb.i, s10), Scale(t.ya.i, s9)));
    s[f := Add(s[f], Add(s7, s8))][f + m := Sub(s5, s6)][f + 4 * m := Add(s5, s6)]
     [f + 2 * m := Add(s11, s12)][f + 3 * m := Sub(s11, s12)]
  }

  lemma PairScaled(a: Cpx, b: Cpx, z: Cpx)
    ensures Pair(a, b, z) == Add(Scale(z.r, Add(a, b)), TimesI(Scale(z.i, Sub(a, b))))
    ensures Pair(b, a, z) == Sub(Scale(z.r, Add(a, b)), TimesI(Scale(z.i, Sub(a, b))))
  {
    NegateProduct(a.r - b.r, b.r - a.r, z.i);
    NegateProduct(a.i - b.i, b.i - a.i, z.i);
  }

  lemma Code5(f: Cpx, t: Scratch5)
    ensures var s7, s10, s8, s9 := Add(t.t1, t.t4), Sub(t.t1, t.t4), Add(t.t2, t.t3), Sub(t.t2, t.t3);
            var s5 := Add(Add(f, Scale(t.ya.r, s7)), Scale(t.yb.r, s8));
            var s6 := Neg(TimesI(Add(Scale(t.ya.i, s10), Scale(t.yb.i, s9))));
            var s11 := Add(Add(f, Scale(t.yb.r, s7)), Scale(t.ya.r, s8));
            var s12 := TimesI(Sub(Scale(t.yb.i, s10), Scale(t.ya.i, s9)));
            && Add(f, Add(s7, s8)) == Add(Add(Add(Add(f, t.t1), t.t2), t.t3), t.t4)
            && Sub(s5, s6) == Add(Add(f, Pair(t.t1, t.t4, t.ya)), Pair(t.t2, t.t3, t.yb))
            && Add(s11, s12) == Add(Add(f, Pair(t.t1, t.t4, t.yb)), Pair(t.t3, t.t2, t.ya))
            && Sub(s11, s12) == Add(Add(f, Pair(t.t4, t.t1, t.yb)), Pair(t.t2, t.t3, t.ya))
            && Add(s5, s6) == Add(Add(f, Pair(t.t4, t.t1, t.ya)), Pair(t.t3, t.t2, t.yb))
  {
    PairScaled(t.t1, t.t4, t.ya);
    PairScaled(t.t1, t.t4, t.yb);
    PairScaled(t.t2, t.t3, t.ya);
    PairScaled(t.t2, t.t3, t.yb);
    hide Pair, Scale;
  }

  lemma After5Cells(s: seq<Cpx>, f: int, m: nat, t: Scratch5, after: seq<Cpx>)
    requires 0 <= f && m > 0 && f + 4 * m < |s|
    requires after == After5(s, f, m, t)
    ensures |after| == |s|
    ensures after[f] == Add(Add(Add(Add(s[f], t.t1), t.t2), t.t3), t.t4)
    ensures after[f + m] == Add(Add(s[f], Pair(t.t1, t.t4, t.ya)), Pair(t.t2, t.t3, t.yb))
    ensures after[f + 2 * m] == Add(Add(s[f], Pair(t.t1, t.t4, t.yb)), Pair(t.t3, t.t2, t.ya))
    ensures after[f + 3 * m] == Add(Add(s[f], Pair(t.t4, t.t1, t.yb)), Pair(t.t2, t.t3, t.ya))
    ensures after[f + 4 * m] == Add(Add(s[f], Pair(t.t4, t.t1, t.ya)), Pair(t.t3, t.t2, t.yb))
    ensures forall x :: 0 <= x < |s| && x != f && x != f + m && x != f + 2 * m && x != f + 3 * m && x != f + 4 * m
              ==> after[x] == s[x]
  {
    hide Add, Sub, TimesI, Pair, Scale, Neg;
    Code5(s[f], t);
  }

  /** One pass of the loop of KfBfly5. */
  lemma Pass5(before: seq<Cpx>, s: seq<Cpx>, fo: nat, fstride: nat, st: Cfg, m: nat, u: nat, f: int, r: Scratch5)
    requires StageFits(|s|, fo, fstride, st, 5, m) && u < m && f == fo + u
    requires Done(before, s, fo, StageRoot(st, fstride), 5, m, u)
    requires Reads5(s, fstride, st, m, u, f, r)
    ensures Done(before, After5(s, f, m, r), fo, StageRoot(st, fstride), 5, m, u + 1)
  {
    var v := StageRoot(st, fstride);
    assert |before| == |s| && m > 0;
    Untouched(before, s, fo, v, 5, m, u, 0, f);
    Untouched(before, s, fo, v, 5, m, u, 1, f + m);
    Untouched(before, s, fo, v, 5, m, u, 2, f + 2 * m);
    Untouched(before, s, fo, v, 5, m, u, 3, f + 3 * m);
    Untouched(before, s, fo, v, 5, m, u, 4, f + 4 * m);
    assert Reads5(before, fstride, st, m, u, f, r) by {
      hide Mul, TwIndex, StageFits, Done, StageRoot;
    }
    hide *;
    Column5(before, fo, fstride, st, m, u, f, r);
    var after := After5(s, f, m, r);
    After5Cells(s, f, m, r, after);
    assert after[f] == Bin(before, fo, v, 5, m, 0, u);
    assert after[f + m] == Bin(before, fo, v, 5, m, 1, u);
    assert after[f + 2 * m] == Bin(before, fo, v, 5, m, 2, u);
    assert after[f + 3 * m] == Bin(before, fo, v, 5, m, 3, u);
    assert after[f + 4 * m] == Bin(before, fo, v, 5, m, 4, u);
    Columns(before, s, after, fo, v, 5, m, u, f);
  }

  /** The writes of one pass of KfBfly5. */
  method Write5(fout: array<Cpx>, f: nat, m: nat, t: Scratch5)
    requires m > 0 && f + 4 * m < fout.Length
    modifies fout
    ensures fout[..] == After5(old(fout[..]), f, m, t)
  {
    hide Add, Sub, TimesI, Neg, Scale;
    var scratch0 := fout[f];
    var scratch7, scratch10 := Add(t.t1, t.t4), Sub(t.t1, t.t4);
    var scratch8, scratch9 := Add(t.t2, t.t3), Sub(t.t2, t.t3);
    fout[f] := Add(fout[f], Add(scratch7, scratch8));
    var scratch5 := Add(Add(scratch0, Scale(t.ya.r, scratch7)), Scale(t.yb.r, scratch8));
    var scratch6 := Neg(TimesI(Add(Scale(t.ya.i, scratch10), Scale(t.yb.i, scratch9))));
    fout[f + m] := Sub(scratch5, scratch6);
    fout[f + 4 * m] := Add(scratch5, scratch6);
    var scratch11 := Add(Add(scratch0, Scale(t.yb.r, scratch7)), Scale(t.ya.r, scratch8));
    var scratch12 := TimesI(Sub(Scale(t.yb.i, scratch10), Scale(t.ya.i, scratch9)));
    fout[f + 2 * m] := Add(scratch11, scratch12);
    fout[f + 3 * m] := Sub(scratch11, scratch12);
  }

  /** Radix-5 butterfly. */
  method KfBfly5(fout: array<Cpx>, fo: nat, fstride: nat, st: Cfg, m: nat)
    requires StageFits(fout.Length, fo, fstride, st, 5, m)
    modifies fout
    ensures Combined(old(fout[..]), fout[..], fo, StageRoot(st, fstride), 5, m)
  {
    hide *;
    ghost var before := fout[..];
    ghost var v := StageRoot(st, fstride);
    RoomForRows(fout.Length, fo, fstride, st, 5, m);
    DoneStart(before, fo, v, 5, m, 5 * m);
    Bounds5(|before|, fo, fstride, st, m, 0, fo);
    var ya, yb := st.twiddles[TwIndex(fstride, 1, m)], st.twiddles[TwIndex(fstride, 2, m)];
    var f := fo;
    for u := 0 to m
      invariant f == fo + u
      invariant Done(before, fout[..], fo, v, 5, m, u)
    {
      var t := Read5(fout, fo, fstride, st, m, u, f, ya, yb);
      assert Reads5(fout[..], fstride, st, m, u, f, t);
      Pass5(before, fout[..], fo, fstride, st, m, u, f, t);
      Bounds5(fout.Length, fo, fstride, st, m, u, f);
      assert f + 4 * m < fout.Length;
      Write5(fout, f, m, t);
      assert Done(before, fout[..], fo, v, 5, m, u + 1);
      f := f + 1;
    }
    assert Done(before, fout[..], fo, v, 5, m, m);
    DoneFinish(before, fout[..], fo, v, 5, m, 5 * m);
  }

  /** The reads of one pass of KfBfly5. */
  method Read5(fout: array<Cpx>, fo: nat, fstride: nat, st: Cfg, m: nat, u: nat, f: nat, ya: Cpx, yb: Cpx)
    returns (t: Scratch5)
    requires StageFits(fout.Length, fo, fstride, st, 5, m) && u < m && f == fo + u
    requires 0 <= TwIndex(fstride, 1, m) < |st.twiddles| && ya == st.twiddles[TwIndex(fstride, 1, m)]
    requires 0 <= TwIndex(fstride, 2, m) < |st.twiddles| && yb == st.twiddles[TwIndex(fstride, 2, m)]
    ensures Reads5(fout[..], fstride, st, m, u, f, t)
  {
    Bounds5(fout.Length, fo, fstride, st, m, u, f);
    hide StageFits, TwIndex, Bin, Mul, Add, Sub, Pair;
    t := Scratch5(Mul(fout[f + m], st.twiddles[TwIndex(fstride, 1, u)]),
                  Mul(fout[f + 2 * m], st.twiddles[TwIndex(fstride, 2, u)]),
                  Mul(fout[f + 3 * m], st.twiddles[TwIndex(fstride, 3, u)]),
                  Mul(fout[f + 4 * m], st.twiddles[TwIndex(fstride, 4, u)]), ya, yb);
  }

  /* Any radix. */

  /** The running table index of the generic butterfly after q additions of fstride*k. */
  ghost function RunningIndex(fstride: int, k: int, n: int, q: int): int
    requires n > 0
  {
    (fstride * (q * k)) % n
  }

  lemma WrapOnce(x: int, step: int, n: int, y: int)
    requires n > 0 && 0 <= step < n && y == x + step
    ensures y % n == if x % n + step >= n then x % n + step - n else x % n + step
  {
    var r := x % n;
    assert x == n * (x / n) + r;
    if r + step >= n {
      assert n * (x / n + 1) == n * (x / n) + n;
      ModUnique(y, n, x / n + 1, r + step - n);
    } else {
      ModUnique(y, n, x / n, r + step);
    }
  }

  lemma NextMultiple(fstride: int, k: int, q: int)
    ensures fstride * ((q + 1) * k) == fstride * (q * k) + fstride * k
  {
    assert (q + 1) * k == q * k + k;
  }

  /** One conditional subtraction is enough to stay inside the table. */
  lemma RunningIndexStep(fstride: int, k: int, n: int, q: int, step: int)
    requires n > 0 && step == fstride * k && 0 <= step < n
    ensures RunningIndex(fstride, k, n, 0) == 0
    ensures 0 <= RunningIndex(fstride, k, n, q) < n
    ensures var next := RunningIndex(fstride, k, n, q) + step;
            RunningIndex(fstride, k, n, q + 1) == if next >= n then next - n else next
  {
    NextMultiple(fstride, k, q);
    WrapOnce(fstride * (q * k), step, n, fstride * ((q + 1) * k));
    assert fstride * (0 * k) == 0;
  }

  /** Adding term q to a bin summed over the terms before it. */
  lemma BinStep(s: seq<Cpx>, fo: nat, fstride: nat, st: Cfg, m: nat, c: nat, u: nat, q: nat, k: int, e: int)
    requires ValidCfg(st) && st.nfft > 0 && k == c * m + u
    requires e == RunningIndex(fstride, k, st.nfft, q)
    ensures 0 <= e < |st.twiddles|
    ensures Bin(s, fo, StageRoot(st, fstride), q + 1, m, c, u)
         == Add(Bin(s, fo, StageRoot(st, fstride), q, m, c, u), Mul(At(s, Slot(fo, m, q, u)), st.twiddles[e]))
  {
    hide Mul, ValidTable;
    var v := StageRoot(st, fstride);
    var x := fstride * (q * k);
    assert Twiddle(st.twiddles)(x) == st.twiddles[x % |st.twiddles|];
    assert v(q * k) == st.twiddles[e];
    MulComm(v(q * k), At(s, Slot(fo, m, q, u)));
    var f := BinTerms(s, fo, v, m, c, u);
    assert Sum(f, q + 1) == Add(Sum(f, q), f(q));
  }

  lemma BinEmpty(s: seq<Cpx>, fo: nat, fstride: nat, st: Cfg, p: nat, m: nat, c: nat, u: nat)
    requires StageFits(|s|, fo, fstride, st, p, m) && u < m && c < p
    ensures Bin(s, fo, StageRoot(st, fstride), 1, m, c, u) == At(s, Slot(fo, m, 0, u))
  {
    StageIsPrimitive(|s|, fo, fstride, st, p, m);
    var v := StageRoot(st, fstride);
    RootUnits(v, p * m);
    hide Mul, StageFits, IsPrimitive, IsRoot;
    var k := c * m + u;
    var f := BinTerms(s, fo, v, m, c, u);
    assert 0 * k == 0;
    assert Sum(f, 0) == ZERO;
    assert Sum(f, 1) == Add(Sum(f, 0), f(0));
    MulUnits(At(s, Slot(fo, m, 0, u)));
  }

  lemma StepInTable(fstride: nat, p: nat, m: nat, n: int, c: nat, u: nat, k: int)
    requires fstride > 0 && fstride * (p * m) == n && c < p && u < m && k == c * m + u
    ensures 0 <= fstride * k < n && 0 <= k < p * m
  {
    SlotRange(0, m, p, p * m, c, u);
    ProductBelow(fstride, k, p * m);
  }

  /** The innermost loop of KfBflyGeneric: bin c*m + u, summed in place. */
  method Accumulate(fout: array<Cpx>, ghost s: seq<Cpx>, scratch: array<Cpx>, fo: nat, fstride: nat, st: Cfg, m: nat,
                    p: nat, ghost c: nat, ghost u: nat, k: nat)
    requires StageFits(|s|, fo, fstride, st, p, m) && fout.Length == |s|
    requires c < p && u < m && k == c * m + u
    requires fout != scratch && scratch.Length == p
    requires forall q :: 0 <= q < p ==> scratch[q] == At(s, Slot(fo, m, q, u))
    modifies fout
    ensures fo + k < |s|
    ensures fout[..] == old(fout[..])[fo + k := Bin(s, fo, StageRoot(st, fstride), p, m, c, u)]
  {
    StageIsPrimitive(|s|, fo, fstride, st, p, m);
    StepInTable(fstride, p, m, st.nfft, c, u, k);
    BinEmpty(s, fo, fstride, st, p, m, c, u);
    ghost var v := StageRoot(st, fstride);
    var norig, step := st.nfft, fstride * k;
    assert ValidCfg(st) && norig > 0 && 0 <= step < norig && fo + k < |s| && p > 0;
    hide *;
    var twidx := 0;
    RunningIndexStep(fstride, k, norig, 0, step);
    fout[fo + k] := scratch[0];
    for q := 1 to p
      invariant twidx == RunningIndex(fstride, k, norig, q - 1)
      invariant fout[fo + k] == Bin(s, fo, v, q, m, c, u)
      invariant forall x :: 0 <= x < fout.Length && x != fo + k ==> fout[x] == old(fout[x])
    {
      RunningIndexStep(fstride, k, norig, q - 1, step);
      twidx := twidx + step;
      if twidx >= norig {
        twidx := twidx - norig;
      }
      BinStep(s, fo, fstride, st, m, c, u, q, k, twidx);
      var t := Mul(scratch[q], st.twiddles[twidx]);
      fout[fo + k] := Add(fout[fo + k], t);
      assert fout[fo + k] == Bin(s, fo, v, q + 1, m, c, u);
    }
  }

  /** Rows below c of column u hold their bins, every other cell is as in s. */
  ghost predicate RowsDone(before: seq<Cpx>, s: seq<Cpx>, after: seq<Cpx>, fo: int, v: int -> Cpx, p: nat, m: nat,
                           u: nat, c: nat) {
    && |after| == |s|
    && (forall d :: 0 <= d < c ==> 0 <= Slot(fo, m, d, u) < |s| && after[Slot(fo, m, d, u)] == Bin(before, fo, v, p, m, d, u))
    && (forall x :: 0 <= x < |s| && (forall d :: 0 <= d < c ==> x != Slot(fo, m, d, u)) ==> after[x] == s[x])
  }

  lemma RowsStep(before: seq<Cpx>, s: seq<Cpx>, cur: seq<Cpx>, fo: nat, v: int -> Cpx, p: nat, m: nat,
                 u: nat, c: nat, x: int)
    requires RowsDone(before, s, cur, fo, v, p, m, u, c) && u < m
    requires x == Slot(fo, m, c, u) && 0 <= x < |s|
    ensures RowsDone(before, s, cur[x := Bin(before, fo, v, p, m, c, u)], fo, v, p, m, u, c + 1)
  {
    hide Bin, Slot;
    forall d | 0 <= d < c ensures Slot(fo, m, d, u) != x {
      if Slot(fo, m, d, u) == x {
        SlotInjective(fo, m, d, u, c, u);
      }
    }
  }

  lemma RowsFinish(before: seq<Cpx>, s: seq<Cpx>, after: seq<Cpx>, fo: nat, v: int -> Cpx, p: nat, m: nat, u: nat)
    requires Done(before, s, fo, v, p, m, u) && u < m
    requires RowsDone(before, s, after, fo, v, p, m, u, p)
    ensures Done(before, after, fo, v, p, m, u + 1)
  {
    hide Bin, Slot, Done;
    DoneStep(before, s, after, fo, v, p, m, u);
  }

  lemma NextRow(fo: nat, m: nat, p: nat, c: nat, u: nat, k: int, len: int)
    requires c < p && u < m && k == c * m + u && fo + p * m <= len
    ensures Slot(fo, m, c, u) == fo + k && 0 <= fo + k < len
    ensures k + m == (c + 1) * m + u
  {
    SlotRange(fo, m, p, p * m, c, u);
  }

  /** The first inner loop of KfBflyGeneric: the inputs of column u. */
  method Gather(fout: array<Cpx>, scratch: array<Cpx>, fo: nat, m: nat, p: nat, u: nat)
    requires fout != scratch && scratch.Length == p && u < m && fo + p * m <= fout.Length
    modifies scratch
    ensures forall q :: 0 <= q < p ==> scratch[q] == At(fout[..], Slot(fo, m, q, u))
  {
    var k := u;
    for q1 := 0 to p
      invariant k == q1 * m + u
      invariant forall q :: 0 <= q < q1 ==> scratch[q] == At(fout[..], Slot(fo, m, q, u))
    {
      NextRow(fo, m, p, q1, u, k, fout.Length);
      scratch[q1] := fout[fo + k];
      k := k + m;
    }
  }

  /** The second inner loop of KfBflyGeneric: the bins of column u, row by row. */
  method Scatter(fout: array<Cpx>, ghost before: seq<Cpx>, scratch: array<Cpx>, fo: nat, fstride: nat, st: Cfg, m: nat,
                 p: nat, u: nat)
    requires StageFits(|before|, fo, fstride, st, p, m) && fout.Length == |before| && u < m
    requires fout != scratch && scratch.Length == p
    requires forall q :: 0 <= q < p ==> scratch[q] == At(before, Slot(fo, m, q, u))
    requires Done(before, fout[..], fo, StageRoot(st, fstride), p, m, u)
    modifies fout
    ensures Done(before, fout[..], fo, StageRoot(st, fstride), p, m, u + 1)
  {
    hide *;
    ghost var s, v := fout[..], StageRoot(st, fstride);
    RoomForRows(|before|, fo, fstride, st, p, m);
    var k := u;
    NoRows(before, s, fo, v, p, m, u);
    for q1 := 0 to p
      invariant k == q1 * m + u
      invariant RowsDone(before, s, fout[..], fo, v, p, m, u, q1)
    {
      ghost var cur := fout[..];
      NextRow(fo, m, p, q1, u, k, fout.Length);
      Accumulate(fout, before, scratch, fo, fstride, st, m, p, q1, u, k);
      RowsStep(before, s, cur, fo, v, p, m, u, q1, fo + k);
      assert RowsDone(before, s, fout[..], fo, v, p, m, u, q1 + 1);
      k := k + m;
    }
    assert RowsDone(before, s, fout[..], fo, v, p, m, u, p);
    RowsFinish(before, s, fout[..], fo, v, p, m, u);
  }

  lemma RoomForRows(length: nat, fo: nat, fstride: nat, st: Cfg, p: nat, m: nat)
    requires StageFits(length, fo, fstride, st, p, m)
    ensures p > 0 && m > 0 && fo + p * m <= length
  {
  }

  lemma NoRows(before: seq<Cpx>, s: seq<Cpx>, fo: int, v: int -> Cpx, p: nat, m: nat, u: nat)
    ensures RowsDone(before, s, s, fo, v, p, m, u, 0)
  {
  }

  /** Butterfly of any radix. */
  method KfBflyGeneric(fout: array<Cpx>, fo: nat, fstride: nat, st: Cfg, m: nat, p: nat)
    requires StageFits(fout.Length, fo, fstride, st, p, m)
    modifies fout
    ensures Combined(old(fout[..]), fout[..], fo, StageRoot(st, fstride), p, m)
  {
    hide *;
    ghost var before := fout[..];
    ghost var v := StageRoot(st, fstride);
    RoomForRows(fout.Length, fo, fstride, st, p, m);
    DoneStart(before, fo, v, p, m, p * m);
    var scratch := new Cpx[p];
    for u := 0 to m
      invariant Done(before, fout[..], fo, v, p, m, u)
    {
      Gather(fout, scratch, fo, m, p, u);
      GatheredBefore(before, fout[..], fo, v, p, m, u);
      Scatter(fout, before, scratch, fo, fstride, st, m, p, u);
    }
    DoneFinish(before, fout[..], fo, v, p, m, p * m);
  }

  lemma GatheredBefore(before: seq<Cpx>, s: seq<Cpx>, fo: nat, v: int -> Cpx, p: nat, m: nat, u: nat)
    requires Done(before, s, fo, v, p, m, u) && u < m
    ensures forall q :: 0 <= q < p ==> At(before, Slot(fo, m, q, u)) == At(s, Slot(fo, m, q, u))
  {
    hide Bin, Slot;
  }

  /* The recursion. */

  /** The signal read from position `fi` on, `step` cells apart. */
  ghost function Strided(f: seq<Cpx>, fi: int, step: int): int -> Cpx {
    j => At(f, fi + step * j)
  }

  /** Cells fo .. fo+n hold the transform of the signal, nothing else has changed. */
  ghost predicate Transformed(before: seq<Cpx>, after: seq<Cpx>, fo: int, x: int -> Cpx, w: int -> Cpx, n: nat) {
    && |after| == |before|
    && 0 <= fo && fo + n <= |after|
    && (forall k :: 0 <= k < n ==> after[fo + k] == Dft(x, w, n, k))
    && (forall i :: 0 <= i < |before| && !(fo <= i < fo + n) ==> after[i] == before[i])
  }

  /** The first c sub-transforms are in place. */
  ghost predicate SubsDone(before: seq<Cpx>, s: seq<Cpx>, fo: int, x: int -> Cpx, v: int -> Cpx, p: nat, m: nat, c: nat) {
    && |s| == |before|
    && 0 <= fo
    && (forall q, u :: 0 <= q < c && 0 <= u < m ==>
          && fo <= Slot(fo, m, q, u) < fo + c * m
          && Slot(fo, m, q, u) < |s|
          && s[Slot(fo, m, q, u)] == SubDft(x, v, p, m, q, u))
    && (forall i :: 0 <= i < |before| && !(fo <= i < fo + c * m) ==> s[i] == before[i])
  }

  lemma StridedSub(f: seq<Cpx>, fi: int, fstride: int, inStride: int, p: int, q: int, step: int, next: int, j: int)
    requires step == fstride * inStride && next == (fstride * p) * inStride
    ensures (fi + q * step) + next * j == fi + step * (q + p * j)
  {
    assert next == step * p;
    assert step * (q + p * j) == step * q + step * (p * j);
    assert (step * p) * j == step * (p * j);
  }

  lemma PowerSub(fstride: int, p: int, e: int)
    ensures (fstride * p) * e == fstride * (p * e)
  {
  }

  /** The sub-transform that call q of the recursion computes is the one decimation asks for. */
  lemma SubCall(f: seq<Cpx>, fi: int, fstride: nat, inStride: nat, st: Cfg, p: nat, m: nat, q: nat, u: int, step: int, next: int)
    requires step == fstride * inStride && next == (fstride * p) * inStride
    ensures Dft(Strided(f, fi + q * step, next), StageRoot(st, fstride * p), m, u)
         == SubDft(Strided(f, fi, step), StageRoot(st, fstride), p, m, q, u)
  {
    var x, v := Strided(f, fi, step), StageRoot(st, fstride);
    var y, w := Strided(f, fi + q * step, next), StageRoot(st, fstride * p);
    forall j ensures y(j) == x(q + p * j) {
      StridedSub(f, fi, fstride, inStride, p, q, step, next, j);
    }
    forall e ensures w(e) == v(p * e) {
      PowerSub(fstride, p, e);
    }
    hide Mul, Strided, StageRoot, Dft;
    DftExt(y, j => x(q + p * j), w, e => v(p * e), m, u);
  }

  lemma SubsStep(before: seq<Cpx>, s: seq<Cpx>, after: seq<Cpx>, fo: nat, x: int -> Cpx, v: int -> Cpx, p: nat, m: nat,
                 c: nat, fc: int, y: int -> Cpx, w: int -> Cpx)
    requires SubsDone(before, s, fo, x, v, p, m, c) && m > 0
    requires fc == fo + c * m
    requires Transformed(s, after, fc, y, w, m)
    requires forall u :: 0 <= u < m ==> Dft(y, w, m, u) == SubDft(x, v, p, m, c, u)
    ensures SubsDone(before, after, fo, x, v, p, m, c + 1)
  {
    assert (c + 1) * m == c * m + m;
    hide Dft, SubDft;
    forall q, u | 0 <= q < c + 1 && 0 <= u < m
      ensures fo <= Slot(fo, m, q, u) < fo + (c + 1) * m
      ensures Slot(fo, m, q, u) < |after|
      ensures after[Slot(fo, m, q, u)] == SubDft(x, v, p, m, q, u)
    {
      SlotRange(fo, m, c + 1, (c + 1) * m, q, u);
      if q < c {
        SlotRange(fo, m, c, c * m, q, u);
      } else {
        assert Slot(fo, m, q, u) == fc + u;
      }
    }
  }

  lemma StageTerm(s: seq<Cpx>, fo: nat, v: int -> Cpx, x: int -> Cpx, p: nat, m: nat, k: nat, c: nat, u: nat, q: nat)
    requires RowColumn(k, m, c, u) && m > 0
    requires At(s, Slot(fo, m, q, u)) == SubDft(x, v, p, m, q, u)
    ensures BinTerms(s, fo, v, m, c, u)(q) == DecimatedTerms(x, v, p, m, k)(q)
  {
    var e := c * m + u;
    assert BinTerms(s, fo, v, m, c, u)(q) == Mul(v(q * e), At(s, Slot(fo, m, q, u))) by {
      hide Mul, At, Slot;
    }
    assert DecimatedTerms(x, v, p, m, k)(q) == Mul(v(q * k), SubDft(x, v, p, m, q, u)) by {
      hide Mul, SubDft;
    }
  }

  lemma BinIsSum(s: seq<Cpx>, fo: nat, v: int -> Cpx, p: nat, m: nat, c: nat, u: nat)
    ensures Bin(s, fo, v, p, m, c, u) == Sum(BinTerms(s, fo, v, m, c, u), p)
  {
  }

  /** Output k of a stage is row c of column u. */
  ghost predicate RowColumn(k: nat, m: nat, c: nat, u: nat) {
    m > 0 && k == c * m + u && u == k % m
  }

  lemma DecimationOver(x: int -> Cpx, v: int -> Cpx, p: nat, m: nat, n: nat, k: nat, c: nat, u: nat)
    requires n == p * m && IsRoot(v, n) && RowColumn(k, m, c, u)
    ensures m > 0 && Dft(x, v, n, k) == Sum(DecimatedTerms(x, v, p, m, k), p)
  {
    hide *;
    assert m > 0 by {
      RowColumnPositive(k, m, c, u);
    }
    Decimation(x, v, p, m, n, k);
  }

  lemma RowColumnPositive(k: nat, m: nat, c: nat, u: nat)
    requires RowColumn(k, m, c, u)
    ensures m > 0
  {
  }

  /** The stage applied to finished sub-transforms is the transform. */
  lemma StageIsDft(s: seq<Cpx>, fo: nat, v: int -> Cpx, x: int -> Cpx, p: nat, m: nat, k: nat, c: nat, u: nat)
    requires RowColumn(k, m, c, u) && m > 0
    requires forall q :: 0 <= q < p ==> At(s, Slot(fo, m, q, u)) == SubDft(x, v, p, m, q, u)
    ensures Bin(s, fo, v, p, m, c, u) == Sum(DecimatedTerms(x, v, p, m, k), p)
  {
    hide *;
    var f, g := BinTerms(s, fo, v, m, c, u), DecimatedTerms(x, v, p, m, k);
    forall q | 0 <= q < p ensures f(q) == g(q) {
      StageTerm(s, fo, v, x, p, m, k, c, u, q);
    }
    SumExt(f, g, p);
    BinIsSum(s, fo, v, p, m, c, u);
  }

  lemma SubsAt(before: seq<Cpx>, s: seq<Cpx>, fo: nat, x: int -> Cpx, v: int -> Cpx, p: nat, m: nat, u: nat)
    requires SubsDone(before, s, fo, x, v, p, m, p) && u < m
    ensures forall q :: 0 <= q < p ==> At(s, Slot(fo, m, q, u)) == SubDft(x, v, p, m, q, u)
  {
    hide SubDft, Slot;
  }

  lemma RowColumnOf(k: nat, m: nat, p: nat, n: nat)
    requires m > 0 && n == p * m && k < n
    ensures RowColumn(k, m, k / m, k % m) && k % m < m
  {
    QuotientRange(k, m, p, n);
  }

  lemma StageBin(before: seq<Cpx>, s: seq<Cpx>, fo: nat, v: int -> Cpx, x: int -> Cpx, p: nat, m: nat, k: nat,
                 c: nat, u: nat)
    requires RowColumn(k, m, c, u) && m > 0 && u < m
    requires SubsDone(before, s, fo, x, v, p, m, p)
    ensures Bin(s, fo, v, p, m, c, u) == Sum(DecimatedTerms(x, v, p, m, k), p)
  {
    hide *;
    SubsAt(before, s, fo, x, v, p, m, u);
    StageIsDft(s, fo, v, x, p, m, k, c, u);
  }

  lemma StageTransforms(before: seq<Cpx>, s: seq<Cpx>, after: seq<Cpx>, fo: nat, fstride: nat, st: Cfg,
                        x: int -> Cpx, p: nat, m: nat, n: nat)
    requires StageFits(|s|, fo, fstride, st, p, m) && n == p * m
    requires SubsDone(before, s, fo, x, StageRoot(st, fstride), p, m, p)
    requires Combined(s, after, fo, StageRoot(st, fstride), p, m)
    ensures Transformed(before, after, fo, x, StageRoot(st, fstride), n)
  {
    hide *;
    var v := StageRoot(st, fstride);
    StageRootOf(|s|, fo, fstride, st, p, m, n);
    CombinedLength(s, after, fo, v, p, m);
    forall k | 0 <= k < n ensures after[fo + k] == Dft(x, v, n, k) {
      CombinedAt(s, after, fo, v, p, m, n, k);
      RowColumnOf(k, m, p, n);
      StageBin(before, s, fo, v, x, p, m, k, k / m, k % m);
      DecimationOver(x, v, p, m, n, k, k / m, k % m);
    }
    NothingElse(before, s, after, fo, x, v, p, m, n);
  }

  lemma StageRootOf(len: int, fo: nat, fstride: nat, st: Cfg, p: nat, m: nat, n: nat)
    requires StageFits(len, fo, fstride, st, p, m) && n == p * m
    ensures p > 0 && m > 0 && n > 0 && fo + n <= len && IsRoot(StageRoot(st, fstride), n)
  {
    StageIsPrimitive(len, fo, fstride, st, p, m);
  }

  lemma CombinedAt(s: seq<Cpx>, after: seq<Cpx>, fo: nat, v: int -> Cpx, p: nat, m: nat, n: nat, k: nat)
    requires Combined(s, after, fo, v, p, m) && n == p * m && k < n && m > 0
    ensures fo + k < |after| && after[fo + k] == Bin(s, fo, v, p, m, k / m, k % m)
  {
    hide Bin;
  }

  lemma CombinedLength(s: seq<Cpx>, after: seq<Cpx>, fo: nat, v: int -> Cpx, p: nat, m: nat)
    requires Combined(s, after, fo, v, p, m)
    ensures |after| == |s|
  {
    hide Bin;
  }

  lemma NothingElse(before: seq<Cpx>, s: seq<Cpx>, after: seq<Cpx>, fo: nat, x: int -> Cpx, v: int -> Cpx, p: nat, m: nat, n: nat)
    requires n == p * m && fo + n <= |s| && SubsDone(before, s, fo, x, v, p, m, p) && Combined(s, after, fo, v, p, m)
    requires fo + n <= |after| && forall k :: 0 <= k < n ==> after[fo + k] == Dft(x, v, n, k)
    ensures Transformed(before, after, fo, x, v, n)
  {
    hide Bin, Dft, SubDft, Slot;
  }

  /** Every term a call reads lies inside the input. */
  ghost predicate InputFits(len: int, fi: nat, fstride: nat, inStride: nat, n: nat) {
    forall j :: 0 <= j < n ==> 0 <= fi + (fstride * inStride) * j < len
  }

  lemma InputSub(len: int, fi: nat, fstride: nat, inStride: nat, p: nat, m: nat, n: nat, q: nat, step: int)
    requires InputFits(len, fi, fstride, inStride, n)
    requires n == p * m && q < p && step == fstride * inStride
    ensures fi + q * step >= 0
    ensures InputFits(len, fi + q * step, fstride * p, inStride, m)
  {
    assert q * step >= 0;
    var next := (fstride * p) * inStride;
    forall j | 0 <= j < m ensures 0 <= (fi + q * step) + next * j < len {
      StridedSub([], fi, fstride, inStride, p, q, step, next, j);
      TermRange(p, m, n, q, j);
    }
  }

  lemma TermRange(p: nat, m: nat, n: nat, q: nat, j: nat)
    requires n == p * m && q < p && j < m
    ensures 0 <= q + p * j < n
  {
    MulMonotone(p, j + 1, m);
    assert p * (j + 1) == p * j + p;
  }

  lemma SingleTerm(x: int -> Cpx, st: Cfg, fstride: nat, p: nat, q: nat)
    requires ValidCfg(st)
    ensures SubDft(x, StageRoot(st, fstride), p, 1, q, 0) == x(q)
  {
    assert |st.twiddles| > 0 && st.twiddles[0] == ONE;
    hide Mul, ValidTable;
    var v := StageRoot(st, fstride);
    var y, w := j => x(q + p * j), e => v(p * e);
    assert p * 0 == 0 && fstride * 0 == 0;
    TwiddleEntry(st.twiddles, 0);
    assert w(0) == ONE;
    assert y(0) == x(q);
    var g := j => Mul(y(j), w(j * 0));
    assert Sum(g, 0) == ZERO;
    assert Sum(g, 1) == Add(Sum(g, 0), g(0));
    MulUnits(x(q));
  }

  /** The leaf loop: copying p terms gives p transforms of length one. */
  method CopyTerms(fout: array<Cpx>, fo: nat, f: array<Cpx>, fi: nat, fstride: nat, inStride: nat, st: Cfg, p: nat)
    requires fout != f && ValidCfg(st)
    requires fo + p <= fout.Length && InputFits(f.Length, fi, fstride, inStride, p)
    modifies fout
    ensures SubsDone(old(fout[..]), fout[..], fo, Strided(f[..], fi, fstride * inStride), StageRoot(st, fstride), p, 1, p)
  {
    hide *;
    ghost var before, x := fout[..], Strided(f[..], fi, fstride * inStride);
    var step := fstride * inStride;
    var at := fi;
    assert at == fi + step * 0;
    for q := 0 to p
      invariant at == fi + step * q
      invariant forall d :: 0 <= d < q ==> fout[fo + d] == x(d)
      invariant forall i :: 0 <= i < fout.Length && !(fo <= i < fo + q) ==> fout[i] == before[i]
    {
      InputAt(f[..], fi, fstride, inStride, p, step, q, at);
      fout[fo + q] := f[at];
      at := at + step;
    }
    CopiedSubs(before, fout[..], fo, x, fstride, st, p);
  }

  lemma InputAt(f: seq<Cpx>, fi: nat, fstride: nat, inStride: nat, p: nat, step: int, q: nat, at: int)
    requires InputFits(|f|, fi, fstride, inStride, p) && step == fstride * inStride && q < p && at == fi + step * q
    ensures 0 <= at < |f| && f[at] == Strided(f, fi, step)(q)
    ensures fi + step * (q + 1) == at + step
  {
  }

  lemma CopiedSubs(before: seq<Cpx>, s: seq<Cpx>, fo: nat, x: int -> Cpx, fstride: nat, st: Cfg, p: nat)
    requires ValidCfg(st) && |s| == |before| && fo + p <= |s|
    requires forall d :: 0 <= d < p ==> s[fo + d] == x(d)
    requires forall i :: 0 <= i < |s| && !(fo <= i < fo + p) ==> s[i] == before[i]
    ensures SubsDone(before, s, fo, x, StageRoot(st, fstride), p, 1, p)
  {
    hide SubDft, StageRoot, ValidCfg;
    forall q, u | 0 <= q < p && 0 <= u < 1
      ensures Slot(fo, 1, q, u) == fo + q
      ensures s[Slot(fo, 1, q, u)] == SubDft(x, StageRoot(st, fstride), p, 1, q, u)
    {
      SingleTerm(x, st, fstride, p, q);
    }
  }

  /** The radix dispatch of kf_work. */
  method Recombine(fout: array<Cpx>, fo: nat, fstride: nat, st: Cfg, p: nat, m: nat)
    requires StageFits(fout.Length, fo, fstride, st, p, m)
    modifies fout
    ensures Combined(old(fout[..]), fout[..], fo, StageRoot(st, fstride), p, m)
  {
    match p {
      case 2 => KfBfly2(fout, fo, fstride, st, m);
      case 3 => KfBfly3(fout, fo, fstride, st, m);
      case 4 => KfBfly4(fout, fo, fstride, st, m);
      case 5 => KfBfly5(fout, fo, fstride, st, m);
      case _ => KfBflyGeneric(fout, fo, fstride, st, m, p);
    }
  }

  /** The recursive mixed-radix transform. */
  method KfWork(fout: array<Cpx>, fo: nat, f: array<Cpx>, fi: nat, fstride: nat, inStride: nat,
                factors: seq<int>, st: Cfg, ghost n: nat)
    requires fout != f && ValidCfg(st) && Chain(factors, n) && fstride * n == st.nfft
    requires fo + n <= fout.Length && InputFits(f.Length, fi, fstride, inStride, n)
    modifies fout
    ensures Transformed(old(fout[..]), fout[..], fo, Strided(f[..], fi, fstride * inStride), StageRoot(st, fstride), n)
    decreases |factors|, 0
  {
    var p, m := factors[0], factors[1];
    ghost var before := fout[..];
    ghost var v, x := StageRoot(st, fstride), Strided(f[..], fi, fstride * inStride);
    assert StageFits(fout.Length, fo, fstride, st, p, m);
    if m == 1 {
      CopyTerms(fout, fo, f, fi, fstride, inStride, st, p);
    } else {
      SubTransforms(fout, fo, f, fi, fstride, inStride, factors[2..], st, p, m, n);
    }
    ghost var s := fout[..];
    Recombine(fout, fo, fstride, st, p, m);
    hide *;
    StageTransforms(before, s, fout[..], fo, fstride, st, x, p, m, n);
  }

  /** The recursive calls of kf_work: p transforms of length m over decimated inputs. */
  method SubTransforms(fout: array<Cpx>, fo: nat, f: array<Cpx>, fi: nat, fstride: nat, inStride: nat,
                       factors: seq<int>, st: Cfg, p: nat, m: nat, ghost n: nat)
    requires fout != f && ValidCfg(st) && Chain(factors, m) && m > 0 && n == p * m && fstride * n == st.nfft
    requires fo + n <= fout.Length && InputFits(f.Length, fi, fstride, inStride, n)
    modifies fout
    ensures SubsDone(old(fout[..]), fout[..], fo, Strided(f[..], fi, fstride * inStride), StageRoot(st, fstride), p, m, p)
    decreases |factors|, 1
  {
    hide *;
    ghost var before := fout[..];
    ghost var v, x := StageRoot(st, fstride), Strided(f[..], fi, fstride * inStride);
    var step, next := fstride * inStride, fstride * p;
    NextStride(fstride, p, m, n, next);
    NoSubs(before, fo, x, v, p, m);
    var at, fc := fi, fo;
    for q := 0 to p
      invariant at == fi + q * step && fc == fo + q * m
      invariant SubsDone(before, fout[..], fo, x, v, p, m, q)
    {
      ghost var s := fout[..];
      InputSub(f.Length, fi, fstride, inStride, p, m, n, q, step);
      NextSub(fo, m, p, n, q, fc, step);
      ghost var y, w := Strided(f[..], at, next * inStride), StageRoot(st, next);
      assert InputFits(f.Length, at, next, inStride, m);
      KfWork(fout, fc, f, at, next, inStride, factors, st, m);
      ghost var after := fout[..];
      assert Transformed(s, after, fc, y, w, m);
      forall u | 0 <= u < m ensures Dft(y, w, m, u) == SubDft(x, v, p, m, q, u) {
        SubCall(f[..], fi, fstride, inStride, st, p, m, q, u, step, next * inStride);
      }
      assert forall u :: 0 <= u < m ==> Dft(y, w, m, u) == SubDft(x, v, p, m, q, u);
      assert fc == fo + q * m;
      SubsStep(before, s, after, fo, x, v, p, m, q, fc, y, w);
      assert SubsDone(before, fout[..], fo, x, v, p, m, q + 1);
      at := at + step;
      fc := fc + m;
    }
  }

  lemma NextStride(fstride: nat, p: nat, m: nat, n: nat, next: nat)
    requires n == p * m && next == fstride * p
    ensures next * m == fstride * n
  {
  }

  lemma NoSubs(s: seq<Cpx>, fo: nat, x: int -> Cpx, v: int -> Cpx, p: nat, m: nat)
    ensures SubsDone(s, s, fo, x, v, p, m, 0)
  {
  }

  lemma NextSub(fo: nat, m: nat, p: nat, n: nat, q: nat, fc: int, step: int)
    requires n == p * m && q < p && fc == fo + q * m
    ensures fc + m <= fo + n
    ensures (q + 1) * m == q * m + m && (q + 1) * step == q * step + step
  {
    MulMonotone(m, q + 1, p);
  }
}
