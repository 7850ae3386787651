/**
 * kiss_fftr and kiss_fftri: a real signal of even length 2n, carried by one
 * complex transform of length n.
 */
module RealTransform {
  import opened Complex
  import opened Sums
  import opened Roots
  import opened Inversion
  import opened Modular
  import opened Stage
  import opened Kernels
  import opened KissFft
  import opened Factor
  import opened Transform

  /* The mathematics of the packing. */

  function RealPart(a: Cpx): Cpx {
    Cpx(a.r, 0.0)
  }

  function ImagPart(a: Cpx): Cpx {
    Cpx(a.i, 0.0)
  }

  /** The even-numbered samples of the packed signal z, and the odd-numbered ones. */
  ghost function Even(z: int -> Cpx): int -> Cpx {
    j => RealPart(z(j))
  }

  ghost function Odd(z: int -> Cpx): int -> Cpx {
    j => ImagPart(z(j))
  }

  /** The real signal stored pairwise in z: sample 2j is z(j).r, sample 2j+1 is z(j).i. */
  ghost function Samples(z: int -> Cpx): int -> Cpx {
    j => if j % 2 == 0 then RealPart(z(j / 2)) else ImagPart(z(j / 2))
  }

  /** Every second power of a root of order 2n. */
  ghost function Squared(h: int -> Cpx): int -> Cpx {
    e => h(2 * e)
  }

  lemma MulSplit(z: Cpx, w: Cpx)
    ensures Mul(z, w) == Add(Mul(RealPart(z), w), TimesI(Mul(ImagPart(z), w)))
  {
  }

  lemma {:induction false} SumTimesI(f: int -> Cpx, g: int -> Cpx, n: nat)
    requires forall j :: 0 <= j < n ==> g(j) == TimesI(f(j))
    ensures Sum(g, n) == TimesI(Sum(f, n))
  {
    if n > 0 {
      SumTimesI(f, g, n - 1);
    }
  }

  /** The terms of a transform, by name. */
  ghost function DftTerms(x: int -> Cpx, w: int -> Cpx, k: int): int -> Cpx {
    j => Mul(x(j), w(j * k))
  }

  lemma DftIsSum(x: int -> Cpx, w: int -> Cpx, n: nat, k: int)
    ensures Dft(x, w, n, k) == Sum(DftTerms(x, w, k), n)
  {
    hide Mul;
    DftAsSum(x, w, DftTerms(x, w, k), n, k);
  }

  /** The packed transform is the even one plus i times the odd one. */
  lemma PackedSpectrum(z: int -> Cpx, w: int -> Cpx, n: nat, k: int)
    ensures Dft(z, w, n, k) == Add(Dft(Even(z), w, n, k), TimesI(Dft(Odd(z), w, n, k)))
  {
    DftIsSum(z, w, n, k);
    DftIsSum(Even(z), w, n, k);
    DftIsSum(Odd(z), w, n, k);
    var e, o, t := DftTerms(Even(z), w, k), DftTerms(Odd(z), w, k), DftTerms(z, w, k);
    hide Mul, Dft;
    forall j ensures t(j) == Add(e(j), TimesI(o(j))) {
      MulSplit(z(j), w(j * k));
    }
    hide DftTerms;
    SumTimesI(o, j => TimesI(o(j)), n);
    SumAdd(e, j => TimesI(o(j)), t, n);
  }

  ghost predicate IsReal(x: int -> Cpx) {
    forall j :: x(j) == Conj(x(j))
  }

  lemma PartsAreReal(z: int -> Cpx)
    ensures IsReal(Even(z)) && IsReal(Odd(z))
  {
    forall j ensures Even(z)(j) == Conj(Even(z)(j)) && Odd(z)(j) == Conj(Odd(z)(j)) {
      assert Conj(RealPart(z(j))) == RealPart(z(j));
      assert Conj(ImagPart(z(j))) == ImagPart(z(j));
    }
  }

  /** The spectrum of a real signal is conjugate-symmetric. */
  lemma RealSpectrum(x: int -> Cpx, w: int -> Cpx, n: nat, k: int)
    requires IsPrimitive(w, n) && IsReal(x)
    ensures Dft(x, w, n, n - k) == Conj(Dft(x, w, n, k))
  {
    DftIsSum(x, w, n, k);
    DftIsSum(x, w, n, n - k);
    var f, g := DftTerms(x, w, k), DftTerms(x, w, n - k);
    hide Mul, Dft, IsRoot;
    forall j ensures g(j) == Conj(f(j)) {
      assert j * (n - k) == -(j * k) + n * j;
      RootPeriod(w, n, -(j * k), j, j * (n - k));
      assert w(-(j * k)) == Conj(w(j * k));
      ConjLaws(x(j), w(j * k));
    }
    hide DftTerms;
    SumConj(f, g, n);
  }

  lemma SpectrumPeriod(x: int -> Cpx, w: int -> Cpx, n: nat, k: int)
    requires IsRoot(w, n)
    ensures Dft(x, w, n, k + n) == Dft(x, w, n, k)
  {
    DftIsSum(x, w, n, k);
    DftIsSum(x, w, n, k + n);
    var f, g := DftTerms(x, w, k), DftTerms(x, w, k + n);
    hide Mul, Dft, IsRoot;
    forall j ensures g(j) == f(j) {
      assert j * (k + n) == j * k + n * j;
      RootPeriod(w, n, j * k, j, j * (k + n));
    }
    hide DftTerms;
    SumExt(f, g, n);
  }

  /** Bin k of the full-length transform, from the two half-length ones. */
  ghost function Bins(z: int -> Cpx, h: int -> Cpx, n: nat, k: int): Cpx {
    Add(Dft(Even(z), Squared(h), n, k), Mul(h(k), Dft(Odd(z), Squared(h), n, k)))
  }

  lemma TwoTerms(z: int -> Cpx, h: int -> Cpx, n: nat, k: nat, c: nat)
    requires n > 0 && c == k % n && h(0) == ONE
    ensures DecimatedTerms(Samples(z), h, 2, n, k)(0) == SubDft(Samples(z), h, 2, n, 0, c)
    ensures DecimatedTerms(Samples(z), h, 2, n, k)(1) == Mul(h(k), SubDft(Samples(z), h, 2, n, 1, c))
  {
    hide Mul, SubDft;
    assert 0 * k == 0 && 1 * k == k;
    MulUnits(SubDft(Samples(z), h, 2, n, 0, c));
  }

  lemma FullBinAt(z: int -> Cpx, h: int -> Cpx, n: nat, k: nat, c: nat)
    requires n > 0 && c == k % n && IsRoot(h, 2 * n)
    ensures Dft(Samples(z), h, 2 * n, k)
         == Add(Dft(Even(z), Squared(h), n, c), Mul(h(k), Dft(Odd(z), Squared(h), n, c)))
  {
    hide Mul, IsRoot, Sum, SubDft, DecimatedTerms, Samples, Even, Odd, Squared, Dft;
    Decimation(Samples(z), h, 2, n, 2 * n, k);
    RootUnits(h, 2 * n);
    TwoTerms(z, h, n, k, c);
    SubDftParts(z, h, n, c);
    Unroll(DecimatedTerms(Samples(z), h, 2, n, k));
  }

  lemma FullBin(z: int -> Cpx, h: int -> Cpx, n: nat, k: nat)
    requires n > 0 && k < n && IsRoot(h, 2 * n)
    ensures Dft(Samples(z), h, 2 * n, k) == Bins(z, h, n, k)
  {
    hide *;
    ModUnique(k, n, 0, k);
    FullBinAt(z, h, n, k, k);
    BinsAre(z, h, n, k);
  }

  lemma BinsAre(z: int -> Cpx, h: int -> Cpx, n: nat, k: nat)
    ensures Bins(z, h, n, k) == Add(Dft(Even(z), Squared(h), n, k), Mul(h(k), Dft(Odd(z), Squared(h), n, k)))
  {
    hide Dft, Mul, Add;
  }

  lemma SubDftParts(z: int -> Cpx, h: int -> Cpx, n: nat, k: nat)
    ensures SubDft(Samples(z), h, 2, n, 0, k) == Dft(Even(z), Squared(h), n, k)
    ensures SubDft(Samples(z), h, 2, n, 1, k) == Dft(Odd(z), Squared(h), n, k)
  {
    var x := Samples(z);
    hide Mul, Dft;
    DftExt(j => x(0 + 2 * j), Even(z), e => h(2 * e), Squared(h), n, k);
    DftExt(j => x(1 + 2 * j), Odd(z), e => h(2 * e), Squared(h), n, k);
  }

  lemma DcBin(z: int -> Cpx, h: int -> Cpx, n: nat)
    requires n > 0 && IsPrimitive(h, 2 * n)
    ensures Dft(Samples(z), h, 2 * n, 0)
         == Add(Dft(Even(z), Squared(h), n, 0), Dft(Odd(z), Squared(h), n, 0))
  {
    hide Mul, IsRoot, Sum, SubDft, DecimatedTerms, Samples, Even, Odd, Squared, Dft;
    RootUnits(h, 2 * n);
    FullBin(z, h, n, 0);
    MulUnits(Dft(Odd(z), Squared(h), n, 0));
  }

  lemma NyquistBin(z: int -> Cpx, h: int -> Cpx, n: nat)
    requires n > 0 && IsPrimitive(h, 2 * n)
    ensures Dft(Samples(z), h, 2 * n, n)
         == Sub(Dft(Even(z), Squared(h), n, 0), Dft(Odd(z), Squared(h), n, 0))
  {
    HalfTurn(h, n, 2 * n);
    assert IsRoot(h, 2 * n);
    hide Mul, IsPrimitive, IsRoot, Samples, Even, Odd, Squared, Dft;
    ModUnique(n, n, 1, 0);
    FullBinAt(z, h, n, n, 0);
    NegTurn(h(n), Dft(Odd(z), Squared(h), n, 0));
  }

  lemma NegTurn(h: Cpx, o: Cpx)
    requires h == Cpx(-1.0, 0.0)
    ensures Mul(h, o) == Neg(o)
  {
  }

  /** What one pass of the loops works with: e and o are the even and odd spectra at k. */
  ghost predicate Spectra(z: int -> Cpx, h: int -> Cpx, n: nat, k: nat, e: Cpx, o: Cpx) {
    && 0 < k < n
    && IsPrimitive(h, 2 * n)
    && e == Dft(Even(z), Squared(h), n, k)
    && o == Dft(Odd(z), Squared(h), n, k)
  }

  lemma SquaredPrimitive(h: int -> Cpx, n: nat)
    requires n > 0 && IsPrimitive(h, 2 * n)
    ensures IsPrimitive(Squared(h), n)
  {
    hide Mul, IsRoot;
    PrimitivePower(h, 2, n, 2 * n);
    var v, w := (e: int) => h(2 * e), Squared(h);
    forall a, b {:trigger Mul(w(a), w(b))} ensures w(a + b) == Mul(w(a), w(b)) {
      RootMul(v, n, a, b, a + b);
    }
    RootUnits(v, n);
    HomIsRoot(w, n);
    forall d | 0 < d < n ensures w(d) != ONE {
      assert v(d) != ONE;
    }
    forall e ensures w(-e) == Conj(w(e)) {
      assert v(-e) == Conj(v(e));
    }
  }

  lemma MirrorSpectra(z: int -> Cpx, h: int -> Cpx, n: nat, k: nat, e: Cpx, o: Cpx)
    requires Spectra(z, h, n, k, e, o)
    ensures Dft(Even(z), Squared(h), n, n - k) == Conj(e)
    ensures Dft(Odd(z), Squared(h), n, n - k) == Conj(o)
  {
    hide Mul, IsPrimitive, Squared, Dft, Even, Odd, IsReal;
    SquaredPrimitive(h, n);
    PartsAreReal(z);
    RealSpectrum(Even(z), Squared(h), n, k);
    RealSpectrum(Odd(z), Squared(h), n, k);
  }

  lemma ConjTimesI(e: Cpx, o: Cpx)
    ensures Add(Conj(e), TimesI(Conj(o))) == Conj(Sub(e, TimesI(o)))
  {
  }

  /** Bins k and n-k of the packed transform. */
  lemma PackedPair(z: int -> Cpx, h: int -> Cpx, n: nat, k: nat, e: Cpx, o: Cpx)
    requires Spectra(z, h, n, k, e, o)
    ensures Dft(z, Squared(h), n, k) == Add(e, TimesI(o))
    ensures Dft(z, Squared(h), n, n - k) == Conj(Sub(e, TimesI(o)))
  {
    MirrorSpectra(z, h, n, k, e, o);
    PackedSpectrum(z, Squared(h), n, k);
    PackedSpectrum(z, Squared(h), n, n - k);
    ConjTimesI(e, o);
  }

  lemma HalfTurnMirror(h: int -> Cpx, n: int, k: int)
    requires 0 < k < n && IsPrimitive(h, 2 * n)
    ensures h(n - k) == Neg(Conj(h(k)))
    ensures Mul(h(k), Conj(h(k))) == ONE
  {
    hide Mul, IsRoot;
    HalfTurn(h, n, 2 * n);
    RootUnits(h, 2 * n);
    assert h(-k) == Conj(h(k));
    RootMul(h, 2 * n, n, -k, n - k);
    RootMul(h, 2 * n, k, -k, 0);
    MulComm(h(n), Conj(h(k)));
    MulNeg(Conj(h(k)));
  }

  lemma MulNegConj(h: Cpx, o: Cpx)
    ensures Mul(Neg(Conj(h)), Conj(o)) == Neg(Conj(Mul(h, o)))
  {
  }

  /** Bins k and n-k of the full transform. */
  lemma FullPair(z: int -> Cpx, h: int -> Cpx, n: nat, k: nat, e: Cpx, o: Cpx)
    requires Spectra(z, h, n, k, e, o)
    ensures Dft(Samples(z), h, 2 * n, k) == Add(e, Mul(h(k), o))
    ensures Dft(Samples(z), h, 2 * n, n - k) == Conj(Sub(e, Mul(h(k), o)))
  {
    assert n > 0 && IsRoot(h, 2 * n);
    hide Mul, IsPrimitive, IsRoot, Squared, Dft, Even, Odd, Samples;
    MirrorSpectra(z, h, n, k, e, o);
    FullBin(z, h, n, k);
    FullBin(z, h, n, n - k);
    HalfTurnMirror(h, n, k);
    MulNegConj(h(k), o);
  }

  lemma UnpackTwiddle(h: Cpx, o: Cpx)
    ensures Mul(TimesI(o), Mul(h, Neg(I))) == Mul(h, o)
  {
    assert Mul(h, Neg(I)) == Cpx(h.i, -h.r);
  }

  /** The values kiss_fftr writes at k and n-k, from the packed bins there. */
  lemma UnpackPair(zk: Cpx, zn: Cpx, sup: Cpx, e: Cpx, o: Cpx, h: Cpx)
    requires zk == Add(e, TimesI(o)) && zn == Conj(Sub(e, TimesI(o))) && sup == Mul(h, Neg(I))
    ensures var f1, tw := Add(zk, Conj(zn)), Mul(Sub(zk, Conj(zn)), sup);
            && Half(Add(f1, tw)) == Add(e, Mul(h, o))
            && Cpx((f1.r - tw.r) * 0.5, (tw.i - f1.i) * 0.5) == Conj(Sub(e, Mul(h, o)))
  {
    UnpackTwiddle(h, o);
    assert Sub(zk, Conj(zn)) == Add(TimesI(o), TimesI(o));
    Distribute(sup, TimesI(o), TimesI(o));
    hide Mul;
  }

  lemma PackTwiddle(h: Cpx, o: Cpx)
    requires Mul(h, Conj(h)) == ONE
    ensures Mul(Mul(h, o), Mul(Conj(h), I)) == TimesI(o)
  {
    hide Mul;
    MulAssoc(Mul(h, o), Conj(h), I);
    MulComm(h, o);
    MulAssoc(o, h, Conj(h));
    MulUnits(o);
    TimesIIsMul(o);
  }

  lemma TimesIIsMul(o: Cpx)
    ensures Mul(o, I) == TimesI(o)
  {
  }

  /** The values kiss_fftri writes at k and n-k, from the full bins there. */
  lemma PackPair(fk: Cpx, fn: Cpx, sup: Cpx, e: Cpx, o: Cpx, h: Cpx)
    requires fk == Add(e, Mul(h, o)) && fn == Conj(Sub(e, Mul(h, o)))
    requires Mul(h, Conj(h)) == ONE && sup == Mul(Conj(h), I)
    ensures var fek, fok := Add(fk, Conj(fn)), Mul(Sub(fk, Conj(fn)), sup);
            && Add(fek, fok) == Scale(2.0, Add(e, TimesI(o)))
            && Conj(Sub(fek, fok)) == Scale(2.0, Conj(Sub(e, TimesI(o))))
  {
    PackTwiddle(h, o);
    Distribute(sup, Mul(h, o), Mul(h, o));
    hide Mul;
    assert Sub(fk, Conj(fn)) == Add(Mul(h, o), Mul(h, o));
  }

  /* The methods. */

  datatype Option<T> = None | Some(value: T)

  /** kiss_fftr_state: a half-length configuration, its scratch buffer and the half-step roots. */
  datatype RealCfg = RealCfg(substate: Cfg, tmpbuf: array<Cpx>, superTwiddles: seq<Cpx>)

  /** The half-step root h belongs to the configuration, and super_twiddles is made from it. */
  ghost predicate ReadyReal(st: RealCfg, h: int -> Cpx) {
    IsPrimitive(h, 2 * st.substate.nfft) && MadeFrom(st, h)
  }

  /** The tables of the configuration are those of h. */
  ghost predicate MadeFrom(st: RealCfg, h: int -> Cpx) {
    var n := st.substate.nfft;
    && ReadyCfg(st.substate)
    && (forall e :: Root(st.substate)(e) == h(2 * e))
    && st.tmpbuf.Length == n
    && |st.superTwiddles| == n / 2
    && (forall k :: 1 <= k <= n / 2 ==>
          st.superTwiddles[k - 1] == Mul(h(k), if st.substate.inverse then I else Neg(I)))
  }

  /** kiss_fftr_alloc: an odd length is refused; a length of 2n takes n scratch cells and n/2 half-step roots. */
  method AllocReal(nfft: int, inverse: bool, twiddles: seq<Cpx>, superTwiddles: seq<Cpx>, ghost h: int -> Cpx)
    returns (r: Option<RealCfg>)
    requires 2 <= nfft < 0x8000_0000
    requires var n := nfft / 2;
             && ValidCfg(Cfg(n, inverse, [], twiddles))
             && IsPrimitive(h, 2 * n)
             && (forall e :: Twiddle(twiddles)(e) == h(2 * e))
             && |superTwiddles| == n / 2
             && (forall k :: 1 <= k <= n / 2 ==> superTwiddles[k - 1] == Mul(h(k), if inverse then I else Neg(I)))
    ensures r.None? <==> nfft % 2 == 1
    ensures r.Some? ==> ReadyReal(r.value, h) && fresh(r.value.tmpbuf)
    ensures r.Some? ==> 2 * r.value.substate.nfft == nfft && r.value.substate.inverse == inverse
    ensures r.Some? ==> r.value.tmpbuf.Length + |r.value.superTwiddles| <= (nfft / 2) * 3 / 2
  {
    hide ValidTable, IsPrimitive, Mul, Chain, GoodRadices, Radices, Twiddle;
    if nfft % 2 == 1 {
      return None;
    }
    var n := nfft / 2;
    var substate := Alloc(n, inverse, twiddles);
    var tmpbuf := new Cpx[n];
    r := Some(RealCfg(substate, tmpbuf, superTwiddles));
  }

  /** Bin k of the full-length transform of the packed signal z. */
  ghost function RealBin(z: int -> Cpx, h: int -> Cpx, n: nat, k: int): Cpx {
    Dft(Samples(z), h, 2 * n, k)
  }

  lemma RealBins(z: int -> Cpx, h: int -> Cpx, n: nat)
    ensures forall k :: RealBin(z, h, n, k) == Dft(Samples(z), h, 2 * n, k)
  {
    hide Dft, Samples;
  }

  /** The complex half-length spectrum the real transform starts from. */
  ghost predicate HalfSpectrum(t: seq<Cpx>, z: int -> Cpx, h: int -> Cpx, n: nat) {
    |t| == n && forall k :: 0 <= k < n ==> t[k] == Dft(z, Squared(h), n, k)
  }

  lemma HalfSpectrumOf(before: seq<Cpx>, t: seq<Cpx>, z: int -> Cpx, st: RealCfg, h: int -> Cpx)
    requires ReadyReal(st, h)
    requires Transformed(before, t, 0, z, Root(st.substate), st.substate.nfft) && |t| == st.substate.nfft
    ensures HalfSpectrum(t, z, h, st.substate.nfft)
  {
    var n := st.substate.nfft;
    hide Mul, IsPrimitive, ReadyCfg, Dft, Root;
    forall k | 0 <= k < n ensures t[k] == Dft(z, Squared(h), n, k) {
      assert t[0 + k] == Dft(z, Root(st.substate), n, k);
      DftExt(z, z, Root(st.substate), Squared(h), n, k);
    }
  }

  lemma DcIsReal(z: int -> Cpx, w: int -> Cpx, n: nat)
    requires IsPrimitive(w, n)
    ensures Dft(Even(z), w, n, 0).i == 0.0 && Dft(Odd(z), w, n, 0).i == 0.0
  {
    hide Mul, Even, Odd, IsReal, Dft;
    PartsAreReal(z);
    SpectrumPeriod(Even(z), w, n, 0);
    SpectrumPeriod(Odd(z), w, n, 0);
    hide IsPrimitive;
    RealSpectrum(Even(z), w, n, 0);
    RealSpectrum(Odd(z), w, n, 0);
  }

  /** The two bins that need no twiddle. */
  lemma UnpackEnds(t: seq<Cpx>, z: int -> Cpx, h: int -> Cpx, n: nat)
    requires n > 0 && IsPrimitive(h, 2 * n) && HalfSpectrum(t, z, h, n)
    ensures Cpx(t[0].r + t[0].i, 0.0) == RealBin(z, h, n, 0)
    ensures Cpx(t[0].r - t[0].i, 0.0) == RealBin(z, h, n, n)
  {
    hide Mul, Even, Odd, Dft, IsPrimitive, Squared, Samples;
    DcBin(z, h, n);
    NyquistBin(z, h, n);
    PackedSpectrum(z, Squared(h), n, 0);
    SquaredPrimitive(h, n);
    DcIsReal(z, Squared(h), n);
    var e, o := Dft(Even(z), Squared(h), n, 0), Dft(Odd(z), Squared(h), n, 0);
    assert t[0] == Add(e, TimesI(o));
  }

  /** What a pass of kiss_fftr writes, from the half-length bins k and n-k. */
  lemma UnpackAt(t: seq<Cpx>, z: int -> Cpx, h: int -> Cpx, n: nat, k: nat, sup: Cpx)
    requires n > 0 && IsPrimitive(h, 2 * n) && HalfSpectrum(t, z, h, n)
    requires 0 < k && 2 * k <= n && sup == Mul(h(k), Neg(I)) && k < n
    ensures var f1, tw := Add(t[k], Conj(t[n - k])), Mul(Sub(t[k], Conj(t[n - k])), sup);
            && Half(Add(f1, tw)) == RealBin(z, h, n, k)
            && Cpx((f1.r - tw.r) * 0.5, (tw.i - f1.i) * 0.5) == RealBin(z, h, n, n - k)
  {
    var e, o := Dft(Even(z), Squared(h), n, k), Dft(Odd(z), Squared(h), n, k);
    assert Spectra(z, h, n, k, e, o);
    hide Mul, Even, Odd, Dft, IsPrimitive, Squared, Samples, Spectra;
    PackedPair(z, h, n, k, e, o);
    FullPair(z, h, n, k, e, o);
    UnpackPair(t[k], t[n - k], sup, e, o, h(k));
  }

  /** The part of kiss_fftr after the complex transform. */
  method Unpack(tmpbuf: array<Cpx>, superTwiddles: seq<Cpx>, freqdata: array<Cpx>, ncfft: nat,
                ghost z: int -> Cpx, ghost h: int -> Cpx)
    requires ncfft > 0 && IsPrimitive(h, 2 * ncfft)
    requires tmpbuf.Length == ncfft && HalfSpectrum(tmpbuf[..], z, h, ncfft)
    requires |superTwiddles| == ncfft / 2
    requires forall k :: 1 <= k <= ncfft / 2 ==> superTwiddles[k - 1] == Mul(h(k), Neg(I))
    requires freqdata != tmpbuf && freqdata.Length > ncfft
    modifies freqdata
    ensures forall i :: 0 <= i <= ncfft ==> freqdata[i] == RealBin(z, h, ncfft, i)
    ensures forall i :: ncfft < i < freqdata.Length ==> freqdata[i] == old(freqdata[i])
  {
    hide *;
    ghost var t := tmpbuf[..];
    UnpackEnds(t, z, h, ncfft);
    var tdc := tmpbuf[0];
    freqdata[0] := Cpx(tdc.r + tdc.i, 0.0);
    freqdata[ncfft] := Cpx(tdc.r - tdc.i, 0.0);
    for k := 1 to ncfft / 2 + 1
      invariant forall i :: (0 <= i < k || ncfft - k < i <= ncfft) ==> freqdata[i] == RealBin(z, h, ncfft, i)
      invariant forall i :: ncfft < i < freqdata.Length ==> freqdata[i] == old(freqdata[i])
    {
      UnpackAt(t, z, h, ncfft, k, superTwiddles[k - 1]);
      var fpk, fpnk := tmpbuf[k], Conj(tmpbuf[ncfft - k]);
      var f1k, f2k := Add(fpk, fpnk), Sub(fpk, fpnk);
      var tw := Mul(f2k, superTwiddles[k - 1]);
      freqdata[k] := Half(Add(f1k, tw));
      freqdata[ncfft - k] := Cpx((f1k.r - tw.r) * 0.5, (tw.i - f1k.i) * 0.5);
    }
  }

  /** The forward transform of 2n real samples, which exits on an inverse configuration. */
  method KissFftr(st: RealCfg, timedata: array<Cpx>, freqdata: array<Cpx>, ghost h: int -> Cpx) returns (ok: bool)
    requires ReadyReal(st, h)
    requires timedata.Length >= st.substate.nfft && freqdata.Length >= st.substate.nfft + 1
    requires st.tmpbuf != timedata && st.tmpbuf != freqdata
    modifies st.tmpbuf, freqdata
    ensures ok <==> !st.substate.inverse
    ensures ok ==> forall k :: 0 <= k <= st.substate.nfft ==>
              freqdata[k] == Dft(Samples(Strided(old(timedata[..]), 0, 1)), h, 2 * st.substate.nfft, k)
    ensures !ok ==> freqdata[..] == old(freqdata[..])
    ensures forall i :: st.substate.nfft < i < freqdata.Length ==> freqdata[i] == old(freqdata[i])
  {
    if st.substate.inverse {
      return false;
    }
    ok := true;
    var ncfft := st.substate.nfft;
    assert ncfft > 0 && IsPrimitive(h, 2 * ncfft) && ReadyCfg(st.substate) && st.tmpbuf.Length == ncfft;
    assert |st.superTwiddles| == ncfft / 2;
    assert forall k :: 1 <= k <= ncfft / 2 ==> st.superTwiddles[k - 1] == Mul(h(k), Neg(I));
    ghost var z, before := Strided(timedata[..], 0, 1), st.tmpbuf[..];
    hide *;
    Fft(st.substate, timedata, st.tmpbuf);
    HalfSpectrumOf(before, st.tmpbuf[..], z, st, h);
    Unpack(st.tmpbuf, st.superTwiddles, freqdata, ncfft, z, h);
    RealBins(z, h, ncfft);
  }

  /** The half-length spectrum kiss_fftri rebuilds from bins 0..n; for k = n/2 the later write counts. */
  ghost function Packed(f: seq<Cpx>, sup: seq<Cpx>, n: nat, k: int): Cpx
    requires |f| > n && |sup| == n / 2
  {
    if k <= 0 || k >= n then
      Cpx(f[0].r + f[n].r, f[0].r - f[n].r)
    else if 2 * k < n then
      Add(Add(f[k], Conj(f[n - k])), Mul(Sub(f[k], Conj(f[n - k])), sup[k - 1]))
    else
      Conj(Sub(Add(f[n - k], Conj(f[k])), Mul(Sub(f[n - k], Conj(f[k])), sup[n - k - 1])))
  }

  ghost function PackedSignal(f: seq<Cpx>, sup: seq<Cpx>, n: nat): int -> Cpx
    requires |f| > n && |sup| == n / 2
  {
    k => Packed(f, sup, n, k)
  }

  lemma PackedAt(f: seq<Cpx>, sup: seq<Cpx>, n: nat, k: nat, fek: Cpx, fok: Cpx)
    requires |f| > n && |sup| == n / 2 && 1 <= k && 2 * k <= n && k < n
    requires fek == Add(f[k], Conj(f[n - k])) && fok == Mul(Sub(f[k], Conj(f[n - k])), sup[k - 1])
    ensures 2 * k < n ==> Packed(f, sup, n, k) == Add(fek, fok)
    ensures Packed(f, sup, n, n - k) == Conj(Sub(fek, fok))
  {
    hide Mul, Add, Sub, Conj;
  }

  /** The part of kiss_fftri before the complex transform. */
  method Pack(tmpbuf: array<Cpx>, superTwiddles: seq<Cpx>, freqdata: array<Cpx>, ncfft: nat)
    requires ncfft > 0 && tmpbuf.Length == ncfft && |superTwiddles| == ncfft / 2
    requires freqdata != tmpbuf && freqdata.Length > ncfft
    modifies tmpbuf
    ensures forall i :: 0 <= i < ncfft ==> tmpbuf[i] == Packed(freqdata[..], superTwiddles, ncfft, i)
  {
    ghost var f := freqdata[..];
    assert Packed(f, superTwiddles, ncfft, 0) == Cpx(f[0].r + f[ncfft].r, f[0].r - f[ncfft].r);
    hide *;
    tmpbuf[0] := Cpx(freqdata[0].r + freqdata[ncfft].r, freqdata[0].r - freqdata[ncfft].r);
    for k := 1 to ncfft / 2 + 1
      invariant forall i :: (0 <= i < k || ncfft - k < i < ncfft) ==> tmpbuf[i] == Packed(f, superTwiddles, ncfft, i)
    {
      var fk, fnkc := freqdata[k], Conj(freqdata[ncfft - k]);
      var fek, tmp := Add(fk, fnkc), Sub(fk, fnkc);
      var fok := Mul(tmp, superTwiddles[k - 1]);
      tmpbuf[k] := Add(fek, fok);
      tmpbuf[ncfft - k] := Conj(Sub(fek, fok));
      PackedAt(f, superTwiddles, ncfft, k, fek, fok);
    }
  }

  /** The inverse transform of n+1 bins, which exits on a forward configuration. */
  method KissFftri(st: RealCfg, freqdata: array<Cpx>, timedata: array<Cpx>, ghost h: int -> Cpx) returns (ok: bool)
    requires ReadyReal(st, h)
    requires timedata.Length >= st.substate.nfft && freqdata.Length >= st.substate.nfft + 1
    requires st.tmpbuf != timedata && st.tmpbuf != freqdata
    modifies st.tmpbuf, timedata
    ensures ok <==> st.substate.inverse
    ensures ok ==> forall l :: 0 <= l < st.substate.nfft ==>
              timedata[l] == Dft(PackedSignal(old(freqdata[..]), st.superTwiddles, st.substate.nfft),
                                 Root(st.substate), st.substate.nfft, l)
    ensures !ok ==> timedata[..] == old(timedata[..])
    ensures forall i :: st.substate.nfft <= i < timedata.Length ==> timedata[i] == old(timedata[i])
  {
    if !st.substate.inverse {
      return false;
    }
    ok := true;
    var ncfft := st.substate.nfft;
    assert ncfft > 0 && |st.superTwiddles| == ncfft / 2 && st.tmpbuf.Length == ncfft;
    ghost var f, sup := freqdata[..], st.superTwiddles;
    hide ReadyReal, ReadyCfg, Packed;
    Pack(st.tmpbuf, st.superTwiddles, freqdata, ncfft);
    ghost var t, was := st.tmpbuf[..], timedata[..];
    assert ReadyCfg(st.substate);
    Fft(st.substate, st.tmpbuf, timedata);
    hide Strided, PackedSignal, Dft, Root;
    InverseOutput(was, timedata[..], t, f, sup, st.substate);
  }

  lemma InverseOutput(before: seq<Cpx>, after: seq<Cpx>, t: seq<Cpx>, f: seq<Cpx>, sup: seq<Cpx>, st: Cfg)
    requires st.nfft > 0 && |t| == st.nfft && |f| > st.nfft && |sup| == st.nfft / 2
    requires forall i :: 0 <= i < st.nfft ==> t[i] == Packed(f, sup, st.nfft, i)
    requires Transformed(before, after, 0, Strided(t, 0, 1), Root(st), st.nfft)
    ensures forall l :: 0 <= l < st.nfft ==> after[l] == Dft(PackedSignal(f, sup, st.nfft), Root(st), st.nfft, l)
  {
    var n := st.nfft;
    hide Dft, Root, Packed, Mul;
    forall l | 0 <= l < n ensures after[l] == Dft(PackedSignal(f, sup, n), Root(st), n, l) {
      assert after[0 + l] == Dft(Strided(t, 0, 1), Root(st), n, l);
      DftExt(Strided(t, 0, 1), PackedSignal(f, sup, n), Root(st), Root(st), n, l);
    }
  }

  /* Forward and back. */

  /** Two real configurations of one length, one per direction. */
  ghost predicate OppositeReal(forward: RealCfg, inverse: RealCfg, h: int -> Cpx) {
    && ReadyReal(forward, h)
    && MadeFrom(inverse, Inverse(h))
    && forward.substate.nfft == inverse.substate.nfft
    && !forward.substate.inverse
    && inverse.substate.inverse
  }

  /** The inverse configuration is ready for its own transform: conjugate roots are primitive too. */
  lemma OppositeReady(forward: RealCfg, inverse: RealCfg, h: int -> Cpx)
    requires OppositeReal(forward, inverse, h)
    ensures ReadyReal(inverse, Inverse(h))
  {
    hide IsPrimitive, MadeFrom;
    InversePrimitive(h, 2 * forward.substate.nfft);
  }

  /** One pass of kiss_fftri turns full bins c and n-c into twice the packed ones. */
  lemma PackedPairIsDouble(z: int -> Cpx, h: int -> Cpx, n: nat, f: seq<Cpx>, sup: seq<Cpx>, c: nat)
    requires n > 0 && IsPrimitive(h, 2 * n) && 1 <= c && 2 * c <= n && c < n
    requires |f| > n && f[c] == RealBin(z, h, n, c) && f[n - c] == RealBin(z, h, n, n - c)
    requires |sup| == n / 2 && sup[c - 1] == Mul(Conj(h(c)), I)
    ensures 2 * c < n ==> Packed(f, sup, n, c) == Scale(2.0, Dft(z, Squared(h), n, c))
    ensures Packed(f, sup, n, n - c) == Scale(2.0, Dft(z, Squared(h), n, n - c))
  {
    var e, o := Dft(Even(z), Squared(h), n, c), Dft(Odd(z), Squared(h), n, c);
    assert Spectra(z, h, n, c, e, o);
    hide Mul, Even, Odd, Dft, IsPrimitive, Squared, Samples, Spectra, Scale, Add, Sub, Conj, Packed;
    HalfTurnMirror(h, n, c);
    PackedPair(z, h, n, c, e, o);
    FullPair(z, h, n, c, e, o);
    PackPair(f[c], f[n - c], sup[c - 1], e, o, h(c));
    PackedAt(f, sup, n, c, Add(f[c], Conj(f[n - c])), Mul(Sub(f[c], Conj(f[n - c])), sup[c - 1]));
  }

  /** From the bins of a real signal, kiss_fftri rebuilds twice the packed spectrum. */
  lemma PackedIsDouble(z: int -> Cpx, h: int -> Cpx, n: nat, f: seq<Cpx>, sup: seq<Cpx>, k: nat)
    requires n > 0 && IsPrimitive(h, 2 * n) && k < n
    requires |f| > n && forall i :: 0 <= i <= n ==> f[i] == RealBin(z, h, n, i)
    requires |sup| == n / 2 && forall i :: 1 <= i <= n / 2 ==> sup[i - 1] == Mul(Conj(h(i)), I)
    ensures Packed(f, sup, n, k) == Scale(2.0, Dft(z, Squared(h), n, k))
  {
    if k == 0 {
      PackedDc(z, h, n, f);
    } else {
      hide *;
      PackedPairIsDouble(z, h, n, f, sup, if 2 * k < n then k else n - k);
    }
  }

  lemma PackedDc(z: int -> Cpx, h: int -> Cpx, n: nat, f: seq<Cpx>)
    requires n > 0 && IsPrimitive(h, 2 * n)
    requires |f| > n && f[0] == RealBin(z, h, n, 0) && f[n] == RealBin(z, h, n, n)
    ensures Cpx(f[0].r + f[n].r, f[0].r - f[n].r) == Scale(2.0, Dft(z, Squared(h), n, 0))
  {
    hide Mul, Even, Odd, Dft, IsPrimitive, Squared, Samples;
    DcBin(z, h, n);
    NyquistBin(z, h, n);
    PackedSpectrum(z, Squared(h), n, 0);
    SquaredPrimitive(h, n);
    DcIsReal(z, Squared(h), n);
  }

  lemma DftScale(c: real, x: int -> Cpx, y: int -> Cpx, w: int -> Cpx, n: nat, k: int)
    requires forall j :: 0 <= j < n ==> y(j) == Scale(c, x(j))
    ensures Dft(y, w, n, k) == Scale(c, Dft(x, w, n, k))
  {
    DftIsSum(x, w, n, k);
    DftIsSum(y, w, n, k);
    var f, g, z := DftTerms(x, w, k), DftTerms(y, w, k), Cpx(c, 0.0);
    hide Mul, Dft, Scale;
    forall j | 0 <= j < n ensures g(j) == Mul(z, f(j)) {
      ScaleMul(c, x(j), w(j * k));
      ScaleIsMul(c, f(j));
    }
    hide DftTerms;
    SumMul(z, f, g, n);
    ScaleIsMul(c, Sum(f, n));
  }

  lemma ScaleIsMul(c: real, a: Cpx)
    ensures Scale(c, a) == Mul(Cpx(c, 0.0), a)
  {
  }

  lemma ScaleTwice(n: nat, a: Cpx)
    ensures Scale(2.0, Scale(n as real, a)) == Scale((2 * n) as real, a)
  {
  }

  lemma InverseOfSquared(forward: RealCfg, inverse: RealCfg, h: int -> Cpx, e: int)
    requires OppositeReal(forward, inverse, h)
    ensures Root(inverse.substate)(e) == Inverse(Squared(h))(e)
  {
    hide ReadyCfg, IsPrimitive, Root;
    assert Root(inverse.substate)(e) == Inverse(h)(2 * e);
  }

  ghost function HalfBins(z: int -> Cpx, w: int -> Cpx, n: nat): int -> Cpx {
    k => Dft(z, w, n, k)
  }

  lemma InvertBins(z: int -> Cpx, w: int -> Cpx, v: int -> Cpx, n: nat, l: int)
    requires IsPrimitive(w, n) && 0 <= l < n
    requires forall e :: v(e) == Inverse(w)(e)
    ensures Dft(HalfBins(z, w, n), v, n, l) == Scale(n as real, z(l))
  {
    var x := k => Dft(z, w, n, k);
    assert forall k :: HalfBins(z, w, n)(k) == x(k);
    hide *;
    DftExt(HalfBins(z, w, n), x, v, Inverse(w), n, l);
    DftInversion(z, w, n, l);
  }

  lemma InvertPacked(z: int -> Cpx, h: int -> Cpx, v: int -> Cpx, n: nat, f: seq<Cpx>, sup: seq<Cpx>, l: nat)
    requires n > 0 && IsPrimitive(h, 2 * n) && l < n
    requires |f| > n && forall i :: 0 <= i <= n ==> f[i] == RealBin(z, h, n, i)
    requires |sup| == n / 2 && forall i :: 1 <= i <= n / 2 ==> sup[i - 1] == Mul(Conj(h(i)), I)
    requires forall e :: v(e) == Inverse(Squared(h))(e)
    ensures Dft(PackedSignal(f, sup, n), v, n, l) == Scale((2 * n) as real, z(l))
  {
    var y, x := PackedSignal(f, sup, n), HalfBins(z, Squared(h), n);
    forall k | 0 <= k < n ensures y(k) == Scale(2.0, x(k)) {
      PackedIsDouble(z, h, n, f, sup, k);
      hide RealBin, Mul, IsPrimitive, Scale, Dft, Packed;
    }
    hide *;
    DftScale(2.0, x, y, v, n, l);
    SquaredPrimitive(h, n);
    InvertBins(z, Squared(h), v, n, l);
    ScaleTwice(n, z(l));
  }

  lemma OppositeTwiddles(forward: RealCfg, inverse: RealCfg, h: int -> Cpx)
    requires OppositeReal(forward, inverse, h)
    ensures var n := forward.substate.nfft;
            && n > 0
            && IsPrimitive(h, 2 * n)
            && |inverse.superTwiddles| == n / 2
            && forall i :: 1 <= i <= n / 2 ==> inverse.superTwiddles[i - 1] == Mul(Conj(h(i)), I)
  {
    var n, sup := forward.substate.nfft, inverse.superTwiddles;
    forall i | 1 <= i <= n / 2 ensures sup[i - 1] == Mul(Conj(h(i)), I) {
      assert sup[i - 1] == Mul(Inverse(h)(i), I);
      assert h(-i) == Conj(h(i));
      hide Mul, ReadyCfg, IsRoot;
    }
  }

  /**
   * The inverse transform of the bins of a real signal is the signal times its
   * length 2n: every packed pair z(l) comes back scaled.
   */
  lemma RealRoundTrip(forward: RealCfg, inverse: RealCfg, h: int -> Cpx, z: int -> Cpx, f: seq<Cpx>, l: nat)
    requires OppositeReal(forward, inverse, h) && l < forward.substate.nfft
    requires |f| > forward.substate.nfft
    requires forall k :: 0 <= k <= forward.substate.nfft ==> f[k] == Dft(Samples(z), h, 2 * forward.substate.nfft, k)
    ensures |inverse.superTwiddles| == forward.substate.nfft / 2
    ensures Dft(PackedSignal(f, inverse.superTwiddles, forward.substate.nfft), Root(inverse.substate),
                forward.substate.nfft, l)
         == Scale((2 * forward.substate.nfft) as real, z(l))
  {
    hide *;
    OppositeTwiddles(forward, inverse, h);
    RealBins(z, h, forward.substate.nfft);
    forall e ensures Root(inverse.substate)(e) == Inverse(Squared(h))(e) {
      InverseOfSquared(forward, inverse, h, e);
    }
    InvertPacked(z, h, Root(inverse.substate), forward.substate.nfft, f, inverse.superTwiddles, l);
  }

  /** kiss_fftr and then kiss_fftri give back every sample of the caller's signal, times the length 2n. */
  method ThereAndBack(forward: RealCfg, inverse: RealCfg, timedata: array<Cpx>, freqdata: array<Cpx>, back: array<Cpx>,
                      ghost h: int -> Cpx)
    requires OppositeReal(forward, inverse, h)
    requires timedata.Length >= forward.substate.nfft && back.Length >= forward.substate.nfft
    requires freqdata.Length >= forward.substate.nfft + 1
    requires forward.tmpbuf != timedata && forward.tmpbuf != freqdata && timedata != freqdata
    requires inverse.tmpbuf != back && inverse.tmpbuf != freqdata
    modifies forward.tmpbuf, inverse.tmpbuf, freqdata, back
    ensures forall l :: 0 <= l < forward.substate.nfft ==>
              back[l] == Scale((2 * forward.substate.nfft) as real, old(timedata[l]))
  {
    hide *;
    ghost var n, z := forward.substate.nfft, Strided(timedata[..], 0, 1);
    OppositeReady(forward, inverse, h);
    OppositeSizes(forward, inverse, h);
    StridedOne(timedata[..]);
    var ok := KissFftr(forward, timedata, freqdata, h);
    ghost var f := freqdata[..];
    ok := KissFftri(inverse, freqdata, back, Inverse(h));
    forall l | 0 <= l < n ensures back[l] == Scale((2 * n) as real, z(l)) {
      RealRoundTrip(forward, inverse, h, z, f, l);
    }
  }

  lemma OppositeSizes(forward: RealCfg, inverse: RealCfg, h: int -> Cpx)
    requires OppositeReal(forward, inverse, h)
    ensures ReadyReal(forward, h) && forward.substate.nfft == inverse.substate.nfft
    ensures !forward.substate.inverse && inverse.substate.inverse
    ensures |inverse.superTwiddles| == forward.substate.nfft / 2
  {
  }

  lemma StridedOne(s: seq<Cpx>)
    ensures forall l :: 0 <= l < |s| ==> Strided(s, 0, 1)(l) == s[l]
  {
  }
}
