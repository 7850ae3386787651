/**
 * The square root of fixedpointmathcode.h: a fixed number of bisection steps,
 * in four unsigned formats, on temporaries of the format's own width.
 */
module FixedSqrt {

  import opened Factor
  import opened Modular

  /** The formats, by the bits before and after the point. */
  datatype Format = U8P8 | U24P8 | U16P16 | U8P24

  /** 1.0 in the format. */
  function One(f: Format): (r: nat)
    ensures r >= 256
  {
    match f case U8P8 => 0x100 case U24P8 => 0x100 case U16P16 => 0x1_0000 case U8P24 => 0x100_0000
  }

  /** The number of values of the format, and of the products it is compared in. */
  function Modulus(f: Format): nat {
    if f == U8P8 then 0x1_0000 else 0x1_0000_0000
  }

  function Wide(f: Format): nat {
    if f == U8P8 then 0x1_0000_0000 else 0x1_0000_0000_0000_0000
  }

  function Steps(f: Format): nat {
    match f case U8P8 => 12 case U24P8 => 16 case U16P16 => 12 case U8P24 => 16
  }

  /** The root that is looked for: the largest number whose square is at most x * 2^F. */
  function FloorRoot(f: Format, x: nat): (s: nat) {
    FloorSqrt(x * One(f))
  }

  /** _mulufp: the product of two numbers of the format. */
  function Product(f: Format, u: nat, v: nat): nat {
    u * v / One(f)
  }

  /** _mid */
  function Mid(a: nat, b: nat): (r: nat)
    requires a <= b
    ensures a <= r <= b && r - a <= b - r <= r - a + 1
  {
    a + (b - a) / 2
  }

  /* The bisection on values. */

  datatype Bracket = Bracket(lo: nat, hi: nat)

  /** One step: the half that the comparison selects. */
  function Halved(f: Format, x: nat, r: Bracket): (h: Bracket)
    requires r.lo <= r.hi
    ensures r.lo <= h.lo <= h.hi <= r.hi
  {
    var mid := Mid(r.lo, r.hi);
    if Product(f, mid, mid) < x then Bracket(mid, r.hi) else Bracket(r.lo, mid)
  }

  function After(f: Format, x: nat, r: Bracket, n: nat): (h: Bracket)
    requires r.lo <= r.hi
    ensures r.lo <= h.lo <= h.hi <= r.hi
  {
    if n == 0 then r else Halved(f, x, After(f, x, r, n - 1))
  }

  /** Where the bisection starts. */
  function Initial(f: Format, x: nat): (r: Bracket)
    ensures r.lo <= r.hi
  {
    if x > 4 * One(f) then Bracket(One(f), x / 2) else Bracket(0, 2 * x)
  }

  function SqrtOf(f: Format, x: nat): nat {
    var r := After(f, x, Initial(f, x), Steps(f));
    Mid(r.lo, r.hi)
  }

  lemma DivLess(p: nat, o: nat, x: nat)
    requires o > 0
    ensures p / o < x <==> p < x * o
  {
    var q := p / o;
    assert o * q <= p < o * q + o;
    if q < x {
      MulMonotone(o, q + 1, x);
    } else {
      MulMonotone(o, x, q);
    }
    assert o * (q + 1) == o * q + o && o * x == x * o;
  }

  lemma SquareMonotone(u: nat, v: nat)
    requires u <= v
    ensures u * u <= v * v
  {
    assert (v - u) * (v + u) >= 0;
    assert v * v == u * u + (v - u) * (v + u);
  }

  /** m is at most the root exactly if its square is at most x * 2^F. */
  lemma RootBounds(f: Format, x: nat, m: nat)
    ensures m * m <= x * One(f) <==> m <= FloorRoot(f, x)
  {
    var s := FloorRoot(f, x);
    if m <= s {
      SquareMonotone(m, s);
    } else {
      SquareMonotone(s + 1, m);
    }
  }

  /** A step keeps the root above the lower end, and keeps it below the upper end if it was; the width halves, rounded up at most. */
  lemma HalvedKeeps(f: Format, x: nat, r: Bracket)
    requires r.lo <= r.hi && r.lo <= FloorRoot(f, x)
    ensures var h := Halved(f, x, r);
            && h.lo <= FloorRoot(f, x)
            && (FloorRoot(f, x) <= h.hi <==> FloorRoot(f, x) <= r.hi)
            && 2 * (h.hi - h.lo) <= r.hi - r.lo + 1
  {
    var mid := Mid(r.lo, r.hi);
    BelowRoot(f, x, mid);
  }

  /** What the comparison says about the root. */
  lemma BelowRoot(f: Format, x: nat, mid: nat)
    ensures Product(f, mid, mid) < x ==> mid <= FloorRoot(f, x)
    ensures Product(f, mid, mid) >= x ==> FloorRoot(f, x) <= mid
  {
    var o := One(f);
    DivLess(mid * mid, o, x);
    RootBounds(f, x, mid);
    RootBounds(f, x, mid + 1);
    assert (mid + 1) * (mid + 1) == mid * mid + 2 * mid + 1;
  }

  /** After n steps: the bracket still holds the root if it ever did, and its width is the first one over 2^n, rounded up at most. */
  lemma {:induction false} AfterKeeps(f: Format, x: nat, r: Bracket, n: nat)
    requires r.lo <= r.hi && r.lo <= FloorRoot(f, x)
    ensures var h := After(f, x, r, n);
            && h.lo <= FloorRoot(f, x)
            && (FloorRoot(f, x) <= h.hi <==> FloorRoot(f, x) <= r.hi)
            && (h.hi - h.lo) * Pow2(n) < r.hi - r.lo + Pow2(n)
  {
    hide *;
    AfterNext(f, x, r, n);
    if n > 0 {
      AfterKeeps(f, x, r, n - 1);
      var g, h := After(f, x, r, n - 1), After(f, x, r, n);
      HalvedKeeps(f, x, g);
      HalvedWidth(g.hi - g.lo, h.hi - h.lo, r.hi - r.lo, Pow2(n - 1));
    }
  }

  lemma AfterNext(f: Format, x: nat, r: Bracket, n: nat)
    requires r.lo <= r.hi
    ensures After(f, x, r, 0) == r && Pow2(0) == 1
    ensures n > 0 ==> After(f, x, r, n) == Halved(f, x, After(f, x, r, n - 1)) && Pow2(n) == 2 * Pow2(n - 1)
  {
  }

  lemma HalvedWidth(w: nat, half: nat, first: nat, p: nat)
    requires 2 * half <= w + 1 && w * p < first + p
    ensures half * (2 * p) < first + 2 * p
  {
    MulMonotone(p, 2 * half, w + 1);
    Grouping(w, half, p);
  }

  lemma Grouping(w: nat, half: nat, p: nat)
    ensures p * (w + 1) == w * p + p && p * (2 * half) == half * (2 * p)
  {
  }

  /** The lower end of the first bracket is never above the root. */
  lemma InitialLow(f: Format, x: nat)
    ensures Initial(f, x).lo <= FloorRoot(f, x)
  {
    if x > 4 * One(f) {
      assert One(f) * One(f) <= x * One(f) by {
        assert (x - One(f)) * One(f) >= 0;
        assert (x - One(f)) * One(f) == x * One(f) - One(f) * One(f);
      }
      RootBounds(f, x, One(f));
    }
  }

  /** The first bracket holds the root exactly if x is 0 or at least a quarter less one unit. */
  lemma InitialHolds(f: Format, x: nat)
    ensures FloorRoot(f, x) <= Initial(f, x).hi <==> x == 0 || 4 * (x + 1) >= One(f)
  {
    assert One(f) % 4 == 0;
    hide FloorRoot, One, FloorSqrt;
    var o := One(f);
    if x > 4 * o {
      LargeHigh(x, o);
      RootBounds(f, x, x / 2 + 1);
    } else {
      RootBounds(f, x, 2 * x + 1);
      SmallHigh(x, o);
    }
  }

  lemma LargeHigh(x: nat, o: nat)
    requires x > 4 * o
    ensures (x / 2 + 1) * (x / 2 + 1) > x * o
  {
    var h := x / 2;
    MulMonotone(h, 2 * o, h);
    MulMonotone(o, x, 2 * h + 1);
    Expanded(h, o, x);
  }

  lemma Expanded(h: nat, o: nat, x: nat)
    ensures (h + 1) * (h + 1) == h * h + 2 * h + 1
    ensures o * (2 * h + 1) == h * (2 * o) + o && o * x == x * o
  {
  }

  lemma SmallHigh(x: nat, o: nat)
    requires o >= 256 && o % 4 == 0
    ensures (2 * x + 1) * (2 * x + 1) > x * o <==> x == 0 || 4 * (x + 1) >= o
  {
    var q := 4 * (x + 1);
    SquareOdd(x, q);
    if q >= o {
      Scaled(o, q, x);
    } else {
      Scaled(q + 4, o, x);
      assert (q + 4) * x == q * x + 4 * x;
    }
  }

  lemma SquareOdd(x: nat, q: nat)
    requires q == 4 * (x + 1)
    ensures (2 * x + 1) * (2 * x + 1) == q * x + 1
  {
  }

  lemma Scaled(u: nat, v: nat, p: nat)
    ensures u <= v ==> u * p <= v * p
  {
    if u <= v {
      MulMonotone(p, u, v);
    }
  }

  /** How far a result may be from the root: the first width over 2^(N+1), rounded up. */
  function ErrorBound(f: Format, x: nat): nat {
    var r, p := Initial(f, x), Pow2(Steps(f) + 1);
    Pow2Positive(Steps(f) + 1);
    (r.hi - r.lo + p - 1) / p
  }

  function Distance(u: nat, v: nat): nat {
    if u <= v then v - u else u - v
  }

  /** Every x that is 0 or at least a quarter less one unit: the result is that close to the root. */
  lemma SqrtError(f: Format, x: nat)
    requires x == 0 || 4 * (x + 1) >= One(f)
    ensures Distance(SqrtOf(f, x), FloorRoot(f, x)) <= ErrorBound(f, x)
  {
    hide *;
    var r, n := Initial(f, x), Steps(f);
    InitialLow(f, x);
    InitialHolds(f, x);
    AfterKeeps(f, x, r, n);
    Pow2Positive(n);
    AfterNext(f, x, r, n + 1);
    MiddleError(After(f, x, r, n), FloorRoot(f, x), r.hi - r.lo, Pow2(n), Pow2(n + 1));
    BoundOf(f, x);
  }

  lemma BoundOf(f: Format, x: nat)
    ensures var r, h, q := Initial(f, x), After(f, x, Initial(f, x), Steps(f)), Pow2(Steps(f) + 1);
            q > 0 && ErrorBound(f, x) == (r.hi - r.lo + q - 1) / q && SqrtOf(f, x) == Mid(h.lo, h.hi)
  {
    Pow2Positive(Steps(f) + 1);
    hide After, Steps, Pow2, Initial;
  }

  lemma MiddleError(h: Bracket, s: nat, first: nat, p: nat, q: nat)
    requires q == 2 * p
    requires h.lo <= s <= h.hi && p > 0 && (h.hi - h.lo) * p < first + p
    ensures Distance(Mid(h.lo, h.hi), s) <= (first + q - 1) / q
  {
    var e := Distance(Mid(h.lo, h.hi), s);
    HalvedWidth(h.hi - h.lo, e, first, p);
    CeilDiv(e, first, q);
  }

  lemma CeilDiv(e: nat, w: nat, p: nat)
    requires p > 0 && e * p < w + p
    ensures e <= (w + p - 1) / p
  {
    var c := (w + p - 1) / p;
    assert (c + 1) * p == c * p + p > w + p - 1;
    Scaled(c + 1, e, p);
  }

  /** For all other x the result stays below the root, however many steps are made. */
  lemma SqrtTooSmall(f: Format, x: nat)
    requires x > 0 && 4 * (x + 1) < One(f)
    ensures SqrtOf(f, x) <= 2 * x < FloorRoot(f, x)
  {
    InitialHolds(f, x);
  }

  /* The same for each format in numbers: the width of the first bracket over twice the steps' power of two. */

  /** 8.8, twelve steps, for 0 and everything from a quarter less one unit on; four units are enough. */
  lemma SqrtU8P8(x: nat)
    requires x == 0 || 63 <= x < 0x1_0000
    ensures var s, w := FloorSqrt(x * 0x100), if x > 0x400 then x / 2 - 0x100 else 2 * x;
            && s - (w + 8191) / 8192 <= SqrtOf(U8P8, x) <= s + (w + 8191) / 8192
            && s - 4 <= SqrtOf(U8P8, x) <= s + 4
  {
    Numbers(U8P8, x);
    hide *;
    InNumbers(U8P8, x, if x > 0x400 then x / 2 - 0x100 else 2 * x, 8192);
  }

  /** 24.8, sixteen steps. */
  lemma SqrtU24P8(x: nat)
    requires x == 0 || x >= 63
    ensures var s, w := FloorSqrt(x * 0x100), if x > 0x400 then x / 2 - 0x100 else 2 * x;
            s - (w + 131071) / 131072 <= SqrtOf(U24P8, x) <= s + (w + 131071) / 131072
  {
    Numbers(U24P8, x);
    hide *;
    InNumbers(U24P8, x, if x > 0x400 then x / 2 - 0x100 else 2 * x, 131072);
  }

  /** 16.16, twelve steps. */
  lemma SqrtU16P16(x: nat)
    requires x == 0 || x >= 0x3fff
    ensures var s, w := FloorSqrt(x * 0x1_0000), if x > 0x4_0000 then x / 2 - 0x1_0000 else 2 * x;
            s - (w + 8191) / 8192 <= SqrtOf(U16P16, x) <= s + (w + 8191) / 8192
  {
    Numbers(U16P16, x);
    hide *;
    InNumbers(U16P16, x, if x > 0x4_0000 then x / 2 - 0x1_0000 else 2 * x, 8192);
  }

  /** 8.24, sixteen steps. */
  lemma SqrtU8P24(x: nat)
    requires x == 0 || x >= 0x3f_ffff
    ensures var s, w := FloorSqrt(x * 0x100_0000), if x > 0x400_0000 then x / 2 - 0x100_0000 else 2 * x;
            s - (w + 131071) / 131072 <= SqrtOf(U8P24, x) <= s + (w + 131071) / 131072
  {
    Numbers(U8P24, x);
    hide *;
    InNumbers(U8P24, x, if x > 0x400_0000 then x / 2 - 0x100_0000 else 2 * x, 131072);
  }

  /** The format's numbers in one place. */
  lemma Numbers(f: Format, x: nat)
    ensures var r, o := Initial(f, x), One(f);
            && r.hi - r.lo == (if x > 4 * o then x / 2 - o else 2 * x)
            && FloorRoot(f, x) == FloorSqrt(x * o)
            && o == match f case U8P8 => 0x100 case U24P8 => 0x100 case U16P16 => 0x1_0000 case U8P24 => 0x100_0000
    ensures Pow2(Steps(f) + 1) == match f case U8P8 => 8192 case U24P8 => 131072 case U16P16 => 8192 case U8P24 => 131072
  {
    assert Pow2(3) == 8 && Pow2(4) == 16 && Pow2(5) == 4 * Pow2(3);
    Pow2Add(5, 5);
    Pow2Add(10, 3);
    Pow2Add(13, 4);
    assert Steps(f) == match f case U8P8 => 12 case U24P8 => 16 case U16P16 => 12 case U8P24 => 16;
    hide Pow2, Steps, FloorSqrt;
  }

  lemma InNumbers(f: Format, x: nat, w: nat, q: nat)
    requires x == 0 || 4 * (x + 1) >= One(f)
    requires w == Initial(f, x).hi - Initial(f, x).lo && q == Pow2(Steps(f) + 1)
    ensures q > 0 && FloorRoot(f, x) - (w + q - 1) / q <= SqrtOf(f, x) <= FloorRoot(f, x) + (w + q - 1) / q
  {
    hide *;
    SqrtError(f, x);
    BoundOf(f, x);
    DistanceIs(SqrtOf(f, x), FloorRoot(f, x));
  }

  lemma DistanceIs(u: nat, v: nat)
    ensures v - Distance(u, v) <= u <= v + Distance(u, v)
  {
  }

  /* The macros. */

  /** _ualtb16 and _ualtb32: the top bit of the wrapped difference. */
  function Less(f: Format, a: nat, b: nat): (m: nat)
    requires a < Wide(f) / 2 && b < Wide(f) / 2
    ensures m == if a < b then 1 else 0
  {
    TopBit(a, b, Wide(f) / 2, Wide(f));
    (a - b) % Wide(f) / (Wide(f) / 2)
  }

  lemma TopBit(a: nat, b: nat, half: nat, wide: nat)
    requires a < half && b < half && wide == 2 * half
    ensures (a - b) % wide / half == if a < b then 1 else 0
  {
    if a < b {
      ModUnique(a - b, wide, -1, a - b + wide);
      ModUnique(a - b + wide, half, 1, a - b + half);
    } else {
      ModUnique(a - b, wide, 0, a - b);
      ModUnique(a - b, half, 0, a - b);
    }
  }

  /** Assignment to a temporary of the format. */
  function Fit(f: Format, v: int): nat {
    v % Modulus(f)
  }

  /** The products of a step stay inside the type they are computed in, and shifted they can be compared. */
  lemma SquareFits(f: Format, m: nat)
    requires m < Modulus(f)
    ensures m * m < Wide(f) && Product(f, m, m) < Wide(f) / 2 && Modulus(f) <= Wide(f) / 2
  {
    SquareMonotone(m, Modulus(f) - 1);
    assert m * m / One(f) < Modulus(f) * Modulus(f) / 256 by {
      match f
      case U8P8 =>
      case U24P8 =>
      case U16P16 =>
      case U8P24 =>
    }
  }

  /** m and 1-m as weights. */
  function Blend(m: int, u: int, v: int): int {
    m * u + (1 - m) * v
  }

  /** The sum selects one of two values, which fits if both do. */
  lemma Select(f: Format, m: nat, u: nat, v: nat)
    requires m <= 1 && u < Modulus(f) && v < Modulus(f)
    ensures Fit(f, Blend(m, u, v)) == Blend(m, u, v) == if m == 1 then u else v
  {
  }

  /** The first bracket fits, and the weighted sums select it. */
  lemma FirstFits(f: Format, x: nat)
    requires x < Modulus(f)
    ensures 4 * One(f) < Wide(f) / 2 && x < Wide(f) / 2 && Initial(f, x).hi < Modulus(f)
    ensures var m := Less(f, 4 * One(f), x);
            Bracket(Fit(f, Blend(m, One(f), 0)), Fit(f, Blend(m, x / 2, Fit(f, 2 * x)))) == Initial(f, x)
  {
    hide *;
    Ranges(f);
    InitialIs(f, x);
    var m := Less(f, 4 * One(f), x);
    FitSmall(f, 2 * x);
    Select(f, m, One(f), 0);
    Select(f, m, x / 2, Fit(f, 2 * x));
  }

  lemma InitialIs(f: Format, x: nat)
    ensures Initial(f, x) == if x > 4 * One(f) then Bracket(One(f), x / 2) else Bracket(0, 2 * x)
  {
  }

  lemma Ranges(f: Format)
    ensures 9 * One(f) <= Modulus(f) <= Wide(f) / 2
  {
    match f
    case U8P8 =>
    case U24P8 =>
    case U16P16 =>
    case U8P24 =>
  }

  lemma FitSmall(f: Format, v: nat)
    ensures Fit(f, v) < Modulus(f) && (v < Modulus(f) ==> Fit(f, v) == v)
  {
  }

  /** The static temporaries of one format. */
  class Temporaries {
    const f: Format
    var a: nat
    var b: nat
    var m: nat

    constructor (format: Format)
      ensures f == format
    {
      f := format;
    }

    /** One _converge: every assignment is of a value that fits, and a and b become the half that is kept. */
    method Converge(x: nat)
      requires x < Modulus(f) && a <= b < Modulus(f)
      modifies this
      ensures a <= b < Modulus(f)
      ensures Bracket(a, b) == Halved(f, x, old(Bracket(a, b)))
    {
      hide Product, Blend, Fit, Less, Modulus, Wide;
      ghost var mid := Mid(a, b);
      SquareFits(f, mid);
      m := Less(f, Product(f, Mid(a, b), Mid(a, b)), x);
      Select(f, m, mid, a);
      a := Fit(f, Blend(m, Mid(a, b), a));
      Select(f, 1 - m, Mid(a, b), b);
      b := Fit(f, Blend(1 - m, Mid(a, b), b));
    }

    static lemma Widths(f: Format, x: nat)
      ensures Modulus(f) == (if f == U8P8 then 0x1_0000 else 0x1_0000_0000)
      ensures Steps(f) == (if f == U8P8 || f == U16P16 then 12 else 16)
      ensures After(f, x, Initial(f, x), 0) == Initial(f, x)
      ensures var h := After(f, x, Initial(f, x), Steps(f)); SqrtOf(f, x) == Mid(h.lo, h.hi)
    {
    }

    static lemma MidIs(a: nat, b: nat)
      requires a <= b
      ensures Mid(a, b) == a + (b - a) / 2
    {
    }

    /** __sqrt: the first bracket, the steps, and the middle of what is left. */
    method Sqrt(x: nat) returns (r: nat)
      requires x < if f == U8P8 then 0x1_0000 else 0x1_0000_0000
      modifies this
      ensures r == SqrtOf(f, x) < if f == U8P8 then 0x1_0000 else 0x1_0000_0000
      ensures var h := After(f, x, Initial(f, x), if f == U8P8 || f == U16P16 then 12 else 16);
              r == h.lo + (h.hi - h.lo) / 2
    {
      hide *;
      Widths(f, x);
      FirstFits(f, x);
      m := Less(f, 4 * One(f), x);
      a := Fit(f, Blend(m, One(f), 0));
      b := Fit(f, Blend(m, x / 2, Fit(f, 2 * x)));
      for i := 0 to Steps(f)
        invariant a <= b < Modulus(f)
        invariant Bracket(a, b) == After(f, x, Initial(f, x), i)
      {
        AfterNext(f, x, Initial(f, x), i + 1);
        Converge(x);
      }
      r := Mid(a, b);
      MidIs(a, b);
    }

    /** _sqrtfp of a signed number: 0 for what is not positive. */
    method SqrtSigned(x: int) returns (r: nat)
      requires if f == U8P8 then -0x8000 <= x < 0x8000 else -0x8000_0000 <= x < 0x8000_0000
      modifies this
      ensures r == if x > 0 then SqrtOf(f, x) else 0
    {
      if x > 0 {
        r := Sqrt(x);
      } else {
        r := 0;
      }
    }
  }
}
