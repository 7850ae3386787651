/** The calls a user of kiss_fft makes: allocate a configuration, transform, transform back. */
module Transform {
  import opened Complex
  import opened Sums
  import opened Roots
  import opened Inversion
  import opened Stage
  import opened Factor
  import opened KissFft

  /** A configuration as kiss_fft_alloc leaves it. */
  ghost predicate ReadyCfg(st: Cfg) {
    && st.nfft > 0
    && ValidCfg(st)
    && Chain(st.factors, st.nfft)
  }

  /** The root of unity the configuration transforms with. */
  ghost function Root(st: Cfg): int -> Cpx {
    Twiddle(st.twiddles)
  }

  /** kiss_fft_alloc, with the table that kf_cexp fills handed in. */
  method Alloc(nfft: int, inverse: bool, twiddles: seq<Cpx>) returns (st: Cfg)
    requires 1 <= nfft < 0x8000_0000
    requires ValidCfg(Cfg(nfft, inverse, [], twiddles))
    ensures ReadyCfg(st)
    ensures st.nfft == nfft && st.inverse == inverse && st.twiddles == twiddles
    ensures nfft > 1 ==> GoodRadices(Radices(st.factors))
    ensures |Radices(st.factors)| < 32
  {
    hide ValidTable, Chain, GoodRadices, Radices;
    var facbuf := new int[2 * MAXFACTORS];
    KfFactor(nfft, facbuf);
    st := Cfg(nfft, inverse, facbuf[..], twiddles);
  }

  lemma RootOfStageOne(st: Cfg, e: int)
    ensures StageRoot(st, 1)(e) == Root(st)(e)
  {
  }

  lemma TransformedByRoot(before: seq<Cpx>, after: seq<Cpx>, x: int -> Cpx, st: Cfg, n: nat)
    requires Transformed(before, after, 0, x, StageRoot(st, 1), n)
    ensures Transformed(before, after, 0, x, Root(st), n)
  {
    forall k | 0 <= k < n ensures Dft(x, StageRoot(st, 1), n, k) == Dft(x, Root(st), n, k) {
      hide Dft, Mul;
      forall e ensures StageRoot(st, 1)(e) == Root(st)(e) {
        RootOfStageOne(st, e);
      }
      DftExt(x, x, StageRoot(st, 1), Root(st), n, k);
    }
    hide Dft;
  }

  /** kiss_fft_stride: out of place, or through a temporary buffer when input and output are one. */
  method Stride(st: Cfg, fin: array<Cpx>, fout: array<Cpx>, inStride: nat)
    requires ReadyCfg(st)
    requires fout.Length >= st.nfft && InputFits(fin.Length, 0, 1, inStride, st.nfft)
    modifies fout
    ensures Transformed(old(fout[..]), fout[..], 0, Strided(old(fin[..]), 0, inStride), Root(st), st.nfft)
  {
    hide Chain, ValidCfg, Dft, StageRoot, InputFits;
    ghost var before, x, n := fout[..], Strided(fin[..], 0, inStride), st.nfft;
    assert 1 * inStride == inStride;
    if fin == fout {
      var tmpbuf := new Cpx[st.nfft];
      KfWork(tmpbuf, 0, fin, 0, 1, inStride, st.factors, st, n);
      ghost var done := tmpbuf[..];
      for i := 0 to st.nfft
        invariant tmpbuf[..] == done
        invariant forall k :: 0 <= k < i ==> fout[k] == tmpbuf[k]
        invariant forall k :: i <= k < fout.Length ==> fout[k] == before[k]
      {
        fout[i] := tmpbuf[i];
      }
    } else {
      KfWork(fout, 0, fin, 0, 1, inStride, st.factors, st, n);
    }
    assert Transformed(before, fout[..], 0, x, StageRoot(st, 1), n);
    hide *;
    TransformedByRoot(before, fout[..], x, st, n);
  }

  /** kiss_fft. */
  method Fft(st: Cfg, fin: array<Cpx>, fout: array<Cpx>)
    requires ReadyCfg(st) && fin.Length >= st.nfft && fout.Length >= st.nfft
    modifies fout
    ensures Transformed(old(fout[..]), fout[..], 0, Strided(old(fin[..]), 0, 1), Root(st), st.nfft)
  {
    assert InputFits(fin.Length, 0, 1, 1, st.nfft);
    Stride(st, fin, fout, 1);
  }

  /** Two configurations of one length, one per direction. */
  ghost predicate Opposite(forward: Cfg, inverse: Cfg) {
    && ReadyCfg(forward)
    && ReadyCfg(inverse)
    && forward.nfft == inverse.nfft
    && forall j :: 0 <= j < forward.nfft ==> inverse.twiddles[j] == Conj(forward.twiddles[j])
  }

  lemma OppositeRoots(forward: Cfg, inverse: Cfg)
    requires Opposite(forward, inverse)
    ensures IsPrimitive(Root(forward), forward.nfft)
    ensures forall e :: Root(inverse)(e) == Inverse(Root(forward))(e)
  {
    hide ValidTable, Chain, IsPrimitive;
    TwiddlePrimitive(forward.twiddles);
    forall e ensures Root(inverse)(e) == Inverse(Root(forward))(e) {
      TwiddleConj(forward.twiddles, e);
    }
  }

  /** Forward and back multiplies the signal by its length. */
  lemma RoundTrip(forward: Cfg, inverse: Cfg, x: int -> Cpx, spectrum: int -> Cpx, l: int)
    requires Opposite(forward, inverse) && 0 <= l < forward.nfft
    requires forall k :: 0 <= k < forward.nfft ==> spectrum(k) == Dft(x, Root(forward), forward.nfft, k)
    ensures Dft(spectrum, Root(inverse), forward.nfft, l) == Scale(forward.nfft as real, x(l))
  {
    OppositeRoots(forward, inverse);
    var n, w := forward.nfft, Root(forward);
    hide *;
    DftInversion(x, w, n, l);
    DftExt(spectrum, k => Dft(x, w, n, k), Root(inverse), Inverse(w), n, l);
  }

  /** A stage has one outcome, whichever butterfly computes it. */
  lemma StageIsUnique(before: seq<Cpx>, a: seq<Cpx>, b: seq<Cpx>, fo: int, v: int -> Cpx, p: nat, m: nat)
    requires Combined(before, a, fo, v, p, m) && Combined(before, b, fo, v, p, m)
    ensures a == b
  {
    hide Bin;
    forall i | 0 <= i < |before| ensures a[i] == b[i] {
      if fo <= i < fo + p * m {
        var k := i - fo;
        assert a[fo + k] == Bin(before, fo, v, p, m, k / m, k % m);
        assert b[fo + k] == Bin(before, fo, v, p, m, k / m, k % m);
      }
    }
  }
}
