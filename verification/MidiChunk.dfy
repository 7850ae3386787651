/**
 * A chunk of a Standard MIDI File as it is built up in memory: a byte block
 * that doubles when it is nearly full, big-endian words, and variable-length
 * quantities as in the Standard MIDI Files 1.0 specification, "Conventions".
 */
module MidiChunk {

  type Bytes = seq<bv8>

  /* Lengths as machine words. */

  function Inc(x: bv32): bv32 {
    1 + x
  }

  function Doubled(x: bv32): bv32 {
    x << 1
  }

  function DoubledPlusOne(x: bv32): bv32 {
    (x << 1) | 1
  }

  predicate Below(x: bv32, m: bv32) {
    x < m
  }

  /** Twice m is a machine word. */
  predicate Roomy(m: bv32) {
    0 < m <= 0x4000_0000
  }

  /** n increments of a 32-bit counter. */
  ghost function Up(n: nat): bv32 {
    if n == 0 then 0 else Inc(Up(n - 1))
  }

  lemma IncEven(x: bv32)
    ensures Inc(Doubled(x)) == DoubledPlusOne(x)
  {
  }

  lemma IncOdd(x: bv32)
    ensures Inc(DoubledPlusOne(x)) == Doubled(Inc(x))
  {
  }

  lemma UpNext(n: nat)
    ensures Up(n + 1) == Inc(Up(n))
  {
  }

  lemma UpZero()
    ensures Up(0) == 0 == Doubled(0)
  {
  }

  lemma {:induction false} UpTwice(h: nat)
    ensures Up(h + h) == Doubled(Up(h)) && Up(h + h + 1) == DoubledPlusOne(Up(h))
  {
    hide *;
    UpZero();
    if h > 0 {
      UpTwice(h - 1);
      UpNext(h - 1 + h - 1);
      UpNext(h + h - 1);
      UpNext(h - 1);
      IncOdd(Up(h - 1));
    }
    UpNext(h + h);
    IncEven(Up(h));
  }

  /** Fewer than n increments stay below m. */
  ghost predicate Bounded(n: nat, m: bv32) {
    forall k: nat :: k < n ==> Below(Up(k), m)
  }

  lemma TwiceBelow(x: bv32, m: bv32)
    requires Below(x, m) && Roomy(m)
    ensures Below(Doubled(x), Doubled(m)) && Below(DoubledPlusOne(x), Doubled(m))
  {
  }

  lemma BoundedDouble(n: nat, m: bv32)
    requires Bounded(n, m) && Roomy(m)
    ensures Bounded(2 * n, Doubled(m))
  {
    hide Up, Inc, Below, Doubled, DoubledPlusOne, Roomy;
    forall k: nat | k < 2 * n ensures Below(Up(k), Doubled(m)) {
      var h := k / 2;
      TwiceBelow(Up(h), m);
      UpTwice(h);
      assert k == h + h || k == h + h + 1;
    }
  }

  lemma FourShifts(m: bv32)
    requires 0 < m <= 0x0800_0000
    ensures Doubled(Doubled(Doubled(Doubled(m)))) == m << 4
    ensures Roomy(m) && Roomy(Doubled(m)) && Roomy(Doubled(Doubled(m))) && Roomy(Doubled(Doubled(Doubled(m))))
  {
  }

  lemma BoundedSixteenfold(n: nat, m: bv32, n16: nat, m16: bv32)
    requires Bounded(n, m) && 0 < m <= 0x0800_0000 && n16 == 16 * n && m16 == m << 4
    ensures Bounded(n16, m16)
  {
    hide *;
    FourShifts(m);
    BoundedDouble(n, m);
    BoundedDouble(2 * n, Doubled(m));
    BoundedDouble(4 * n, Doubled(Doubled(m)));
    BoundedDouble(8 * n, Doubled(Doubled(Doubled(m))));
  }

  lemma BoundedOne()
    ensures Bounded(1, 1)
  {
    assert Up(0) == 0;
  }

  /** A counter below 2^14 or 2^28 increments has the value that its number of increments says. */
  lemma Bounds()
    ensures Bounded(0x4000, 0x4000) && Bounded(0x1000_0000, 0x1000_0000)
  {
    hide *;
    BoundedOne();
    BoundedSixteenfold(1, 1, 0x10, 0x10);
    BoundedSixteenfold(0x10, 0x10, 0x100, 0x100);
    BoundedSixteenfold(0x100, 0x100, 0x1000, 0x1000);
    BoundedSixteenfold(0x1000, 0x1000, 0x1_0000, 0x1_0000);
    BoundedSixteenfold(0x1_0000, 0x1_0000, 0x10_0000, 0x10_0000);
    BoundedSixteenfold(0x10_0000, 0x10_0000, 0x100_0000, 0x100_0000);
    BoundedSixteenfold(0x100_0000, 0x100_0000, 0x1000_0000, 0x1000_0000);
    Bounded14();
  }

  lemma Bounded14()
    requires Bounded(0x1000, 0x1000)
    ensures Bounded(0x4000, 0x4000)
  {
    assert Roomy(0x1000) && Roomy(0x2000) && Doubled(0x1000) == 0x2000 && Doubled(0x2000) == 0x4000;
    hide *;
    BoundedDouble(0x1000, 0x1000);
    BoundedDouble(0x2000, 0x2000);
  }

  /** strlen, in a machine word. */
  function Count(s: Bytes): bv32 {
    if s == [] then 0 else Inc(Count(s[1..]))
  }

  lemma {:induction false} CountUp(s: Bytes)
    ensures Count(s) == Up(|s|)
  {
    hide Inc;
    if s != [] {
      CountUp(s[1..]);
    }
  }

  /** c_str() as C sees it: the bytes before the first NUL. */
  function CString(s: Bytes): (r: Bytes)
    ensures 0 !in r && |r| <= |s| && r == s[..|r|]
    ensures r == s <==> 0 !in s
  {
    if s == [] || s[0] == 0 then [] else
      assert s == [s[0]] + s[1..];
      [s[0]] + CString(s[1..])
  }

  /* Words. */

  function Word16(w: bv16): Bytes {
    [((w & 0xff00) >> 8) as bv8, (w & 0x00ff) as bv8]
  }

  function Word32(w: bv32): Bytes {
    [((w & 0xff00_0000) >> 24) as bv8, ((w & 0x00ff_0000) >> 16) as bv8, ((w & 0x0000_ff00) >> 8) as bv8, (w & 0x0000_00ff) as bv8]
  }

  function Read16(s: Bytes): bv16
    requires |s| >= 2
  {
    ((s[0] as bv16) << 8) | (s[1] as bv16)
  }

  function Read32(s: Bytes): bv32
    requires |s| >= 4
  {
    ((s[0] as bv32) << 24) | ((s[1] as bv32) << 16) | ((s[2] as bv32) << 8) | (s[3] as bv32)
  }

  /** High byte first. */
  lemma HighByteFirst(w: bv16, v: bv32)
    ensures Word16(w) == [(w >> 8) as bv8, (w % 256) as bv8]
    ensures Word32(v) == [(v >> 24) as bv8, ((v >> 16) % 256) as bv8, ((v >> 8) % 256) as bv8, (v % 256) as bv8]
  {
  }

  lemma WordsReadBack(w: bv16, v: bv32, rest: Bytes)
    ensures Read16(Word16(w) + rest) == w && Read32(Word32(v) + rest) == v
  {
  }

  /* Variable-length quantities. */

  /** What is left of a word: the four highest bits are not supported. */
  function Truncated(w: bv32): bv32 {
    w & 0x0fff_ffff
  }

  /** Which of the three leading bytes are written. */
  predicate First(word: bv32) {
    word & 0x0fc0_0000 != 0
  }

  predicate HasSecond(word: bv32) {
    word & 0x001f_c000 != 0
  }

  predicate Second(word: bv32) {
    First(word) || HasSecond(word)
  }

  predicate HasThird(word: bv32) {
    word & 0x0000_3f80 != 0
  }

  predicate Third(word: bv32) {
    Second(word) || HasThird(word)
  }

  /** The accumulator after one more group of seven bits, shifted down to its byte. */
  function AddFirst(result: bv32, word: bv32): bv32 {
    (result | 0x8000_0000 | ((0x0fe0_0000 & word) << 3)) >> 24
  }

  function AddSecond(result: bv32, word: bv32): bv32 {
    (result | 0x0080_0000 | ((0x01fc_0000 & word) << 2)) >> 16
  }

  function AddThird(result: bv32, word: bv32): bv32 {
    (result | 0x0000_8000 | ((0x3f80 & word) << 1)) >> 8
  }

  /** The accumulator after each of the three steps, which are taken from some point on. */
  function FirstResult(word: bv32): bv32 {
    if First(word) then AddFirst(0, word) else 0
  }

  function SecondResult(word: bv32): bv32 {
    if Second(word) then AddSecond(FirstResult(word), word) else FirstResult(word)
  }

  function ThirdResult(word: bv32): bv32 {
    if Third(word) then AddThird(SecondResult(word), word) else SecondResult(word)
  }

  function LowByte(result: bv32): bv8 {
    (result & 0xff) as bv8
  }

  function LastSeven(word: bv32): bv8 {
    (word & 0x7f) as bv8
  }

  /** push_u32b_word_var_len */
  function VarLen(w: bv32): (s: Bytes)
    ensures 1 <= |s| <= 4
  {
    var word := Truncated(w);
    (if First(word) then [LowByte(FirstResult(word))] else [])
    + (if Second(word) then [LowByte(SecondResult(word))] else [])
    + (if Third(word) then [LowByte(ThirdResult(word))] else [])
    + [LastSeven(word)]
  }

  datatype Quantity = Quantity(value: bv32, rest: Bytes) | Malformed

  /** The accumulator of a reader after one more byte. */
  function Taken(soFar: bv32, b: bv8): bv32 {
    (soFar << 7) | ((b & 0x7f) as bv32)
  }

  predicate Continues(b: bv8) {
    b & 0x80 != 0
  }

  /** Reading a quantity: seven bits of each byte, up to the first byte without its top bit, of at most four. */
  function ReadVarLen(s: Bytes, soFar: bv32, most: nat): Quantity {
    if s == [] || most == 0 then Malformed
    else if !Continues(s[0]) then Quantity(Taken(soFar, s[0]), s[1..])
    else ReadVarLen(s[1..], Taken(soFar, s[0]), most - 1)
  }

  /** What a reader gets for the word w, by the number of its bytes. */
  function Seen(w: bv32): bv32 {
    var word := Truncated(w);
    if First(word) then SeenOfFour(word) else if Second(word) then SeenOfThree(word) else SeenOfTwo(word)
  }

  function SeenOfFour(word: bv32): bv32 {
    (word & 0x0fe0_0000) | (word & 0x001c_0000) | (((word >> 22) & 7) << 7) | (word & 0x3fff)
  }

  function SeenOfThree(word: bv32): bv32 {
    (word & 0x001c_0000) | (word & 0x3fff)
  }

  function SeenOfTwo(word: bv32): bv32 {
    word & 0x3fff
  }

  /**
   * The words that survive: 28 bits; from 2^14 on the bits 14 to 17 must be
   * zero, and, from 2^22 on, the bits 22 to 24 must be among the bits 7 to 9;
   * bit 21 is lost unless a higher one is set.
   */
  predicate Kept(w: bv32) {
    && w < 0x1000_0000
    && (w >= 0x4000 ==>
          && w & 0x0003_c000 == 0
          && (if w >= 0x0040_0000 then ((w >> 22) & 7) & !((w >> 7) & 7) == 0 else w & 0x0020_0000 == 0))
  }

  lemma SeenKept(w: bv32)
    ensures Seen(w) == w <==> Kept(w)
  {
    hide *;
    if w >= 0x1000_0000 {
      SeenSmall(w);
      NotKept(w);
    } else if w >= 0x0040_0000 {
      KeptFirst(w);
    } else if w >= 0x4000 {
      KeptSecond(w);
    } else {
      KeptThird(w);
    }
  }

  lemma NotKept(w: bv32)
    requires w >= 0x1000_0000
    ensures !Kept(w)
  {
  }

  lemma SeenSmall(w: bv32)
    ensures Seen(w) < 0x1000_0000
  {
  }

  lemma KeptFirst(w: bv32)
    requires 0x0040_0000 <= w < 0x1000_0000
    ensures Seen(w) == w <==> Kept(w)
  {
    FourKept(w);
    hide First, Truncated, SeenOfFour;
  }

  lemma FourKept(w: bv32)
    requires 0x0040_0000 <= w < 0x1000_0000
    ensures Truncated(w) == w && First(w)
    ensures SeenOfFour(w) == w <==> w & 0x0003_c000 == 0 && ((w >> 22) & 7) & !((w >> 7) & 7) == 0
  {
  }

  lemma KeptSecond(w: bv32)
    requires 0x4000 <= w < 0x0040_0000
    ensures Seen(w) == w <==> Kept(w)
  {
    if w & 0x001f_c000 != 0 {
      SeenSecond(w);
    } else {
      SeenThird(w);
    }
    OnlyTwo(w);
    hide Seen;
  }

  lemma OnlyTwo(w: bv32)
    requires 0x4000 <= w < 0x0040_0000
    ensures w & 0x001f_c000 != 0 ==> ((w & 0x001c_0000) | (w & 0x3fff) == w <==> w & 0x0003_c000 == 0 && w & 0x0020_0000 == 0)
    ensures w & 0x001f_c000 == 0 ==> w & 0x0020_0000 != 0 && w & 0x3fff != w
  {
  }

  lemma SeenSecond(w: bv32)
    requires 0x4000 <= w < 0x0040_0000 && w & 0x001f_c000 != 0
    ensures Seen(w) == (w & 0x001c_0000) | (w & 0x3fff)
  {
  }

  lemma SeenThird(w: bv32)
    requires 0x4000 <= w < 0x0040_0000 && w & 0x001f_c000 == 0
    ensures Seen(w) == w & 0x3fff
  {
  }

  lemma KeptThird(w: bv32)
    requires w < 0x4000
    ensures Seen(w) == w && Kept(w)
  {
    Below14(w);
    hide First, HasSecond, Truncated;
  }

  lemma Below14(w: bv32)
    requires w < 0x4000
    ensures Truncated(w) == w && !First(w) && !HasSecond(w) && w & 0x3fff == w
  {
  }

  lemma FirstByte(word: bv32)
    requires word < 0x1000_0000
    ensures First(word) ==> FirstResult(word) & 0xff == 0x80 | (word >> 21)
  {
  }

  lemma SecondByte(word: bv32)
    requires word < 0x1000_0000
    ensures Second(word) ==> SecondResult(word) & 0xff == 0x80 | (((word >> 18) & 7) << 4)
  {
  }

  lemma ThirdByteOfFour(word: bv32)
    requires word < 0x1000_0000
    ensures First(word) ==> ThirdResult(word) & 0xff == 0x80 | ((word >> 7) & 0x7f) | ((word >> 22) & 7)
  {
  }

  lemma ThirdByteOfLess(word: bv32)
    requires word < 0x1000_0000
    ensures Third(word) && !First(word) ==> ThirdResult(word) & 0xff == 0x80 | ((word >> 7) & 0x7f)
  {
  }

  lemma ReadStep(b: bv8, tail: Bytes, soFar: bv32, most: nat)
    requires most > 0
    ensures !Continues(b) ==> ReadVarLen([b] + tail, soFar, most) == Quantity(Taken(soFar, b), tail)
    ensures Continues(b) ==> ReadVarLen([b] + tail, soFar, most) == ReadVarLen(tail, Taken(soFar, b), most - 1)
  {
    hide Taken, Continues;
    var s := [b] + tail;
    assert s[1..] == tail && s[0] == b;
  }

  lemma FourBytesFor(word: bv32, r: bv32, s: bv32, t: bv32)
    requires word < 0x1000_0000 && First(word)
    requires r & 0xff == 0x80 | (word >> 21) && s & 0xff == 0x80 | (((word >> 18) & 7) << 4)
    requires t & 0xff == 0x80 | ((word >> 7) & 0x7f) | ((word >> 22) & 7)
    ensures Continues(LowByte(r)) && Continues(LowByte(s)) && Continues(LowByte(t)) && !Continues(LastSeven(word))
    ensures Taken(Taken(Taken(Taken(0, LowByte(r)), LowByte(s)), LowByte(t)), LastSeven(word))
         == SeenOfFour(word)
  {
  }

  lemma ThreeBytesFor(word: bv32, s: bv32, t: bv32)
    requires s & 0xff == 0x80 | (((word >> 18) & 7) << 4) && t & 0xff == 0x80 | ((word >> 7) & 0x7f)
    ensures Continues(LowByte(s)) && Continues(LowByte(t)) && !Continues(LastSeven(word))
    ensures Taken(Taken(Taken(0, LowByte(s)), LowByte(t)), LastSeven(word)) == SeenOfThree(word)
  {
  }

  lemma TwoBytesFor(word: bv32, t: bv32)
    requires t & 0xff == 0x80 | ((word >> 7) & 0x7f)
    ensures Continues(LowByte(t)) && !Continues(LastSeven(word))
    ensures Taken(Taken(0, LowByte(t)), LastSeven(word)) == SeenOfTwo(word)
  {
  }

  lemma FourBytes(word: bv32)
    requires word < 0x1000_0000 && First(word)
    ensures var a, b, c, d := LowByte(FirstResult(word)), LowByte(SecondResult(word)), LowByte(ThirdResult(word)), LastSeven(word);
            && Continues(a) && Continues(b) && Continues(c) && !Continues(d)
            && Taken(Taken(Taken(Taken(0, a), b), c), d) == SeenOfFour(word)
  {
    hide *;
    FirstByte(word);
    SecondByte(word);
    ThirdByteOfFour(word);
    Nested(word);
    FourBytesFor(word, FirstResult(word), SecondResult(word), ThirdResult(word));
  }

  lemma ThreeBytes(word: bv32)
    requires word < 0x1000_0000 && Second(word) && !First(word)
    ensures var b, c, d := LowByte(SecondResult(word)), LowByte(ThirdResult(word)), LastSeven(word);
            && Continues(b) && Continues(c) && !Continues(d)
            && Taken(Taken(Taken(0, b), c), d) == SeenOfThree(word)
  {
    hide *;
    SecondByte(word);
    ThirdByteOfLess(word);
    Nested(word);
    ThreeBytesFor(word, SecondResult(word), ThirdResult(word));
  }

  lemma TwoBytes(word: bv32)
    requires word < 0x1000_0000 && Third(word) && !Second(word)
    ensures var c, d := LowByte(ThirdResult(word)), LastSeven(word);
            Continues(c) && !Continues(d) && Taken(Taken(0, c), d) == SeenOfTwo(word)
  {
    hide *;
    ThirdByteOfLess(word);
    Nested(word);
    TwoBytesFor(word, ThirdResult(word));
  }

  lemma OneByte(word: bv32)
    requires !Third(word)
    ensures !Continues(LastSeven(word)) && Taken(0, LastSeven(word)) == SeenOfTwo(word)
  {
  }

  lemma TruncatedTwice(w: bv32)
    ensures Truncated(w) < 0x1000_0000 && Truncated(Truncated(w)) == Truncated(w)
  {
  }

  /** A quantity is always well formed and ends where it should; its value is what Seen says. */
  lemma VarLenReads(w: bv32, rest: Bytes)
    ensures ReadVarLen(VarLen(w) + rest, 0, 4) == Quantity(Seen(w), rest)
  {
    hide *;
    var word := Truncated(w);
    TruncatedTwice(w);
    Nested(word);
    var a, b, c := LowByte(FirstResult(word)), LowByte(SecondResult(word)), LowByte(ThirdResult(word));
    var d := LastSeven(word);
    Layout(w, rest, a, b, c, d);
    if First(word) {
      FourBytes(word);
      ReadFour(a, b, c, d, rest);
    } else if Second(word) {
      ThreeBytes(word);
      ReadThree(b, c, d, rest, 0, 4);
    } else if Third(word) {
      TwoBytes(word);
      ReadTwo(c, d, rest, 0, 4);
    } else {
      OneByte(word);
      ReadStep(d, rest, 0, 4);
    }
  }

  lemma ReadTwo(c: bv8, d: bv8, rest: Bytes, soFar: bv32, most: nat)
    requires Continues(c) && !Continues(d) && most >= 2
    ensures ReadVarLen([c] + ([d] + rest), soFar, most) == Quantity(Taken(Taken(soFar, c), d), rest)
  {
    hide *;
    ReadStep(c, [d] + rest, soFar, most);
    ReadStep(d, rest, Taken(soFar, c), most - 1);
  }

  lemma ReadThree(b: bv8, c: bv8, d: bv8, rest: Bytes, soFar: bv32, most: nat)
    requires Continues(b) && Continues(c) && !Continues(d) && most >= 3
    ensures ReadVarLen([b] + ([c] + ([d] + rest)), soFar, most) == Quantity(Taken(Taken(Taken(soFar, b), c), d), rest)
  {
    hide *;
    ReadStep(b, [c] + ([d] + rest), soFar, most);
    ReadTwo(c, d, rest, Taken(soFar, b), most - 1);
  }

  lemma ReadFour(a: bv8, b: bv8, c: bv8, d: bv8, rest: Bytes)
    requires Continues(a) && Continues(b) && Continues(c) && !Continues(d)
    ensures ReadVarLen([a] + ([b] + ([c] + ([d] + rest))), 0, 4) == Quantity(Taken(Taken(Taken(Taken(0, a), b), c), d), rest)
  {
    hide *;
    ReadStep(a, [b] + ([c] + ([d] + rest)), 0, 4);
    ReadThree(b, c, d, rest, Taken(0, a), 3);
  }

  lemma Nested(word: bv32)
    ensures (First(word) ==> Second(word)) && (Second(word) ==> Third(word))
  {
  }

  /** Which bytes are written, and what Seen is, case by case. */
  lemma Layout(w: bv32, rest: Bytes, a: bv8, b: bv8, c: bv8, d: bv8)
    requires var word := Truncated(w);
             && a == LowByte(FirstResult(word)) && b == LowByte(SecondResult(word))
             && c == LowByte(ThirdResult(word)) && d == LastSeven(word)
    ensures var word := Truncated(w);
            && VarLen(w) + rest == Joined(First(word), Second(word), Third(word), a, b, c, d, rest)
            && Seen(w) == (if First(word) then SeenOfFour(word) else if Second(word) then SeenOfThree(word) else SeenOfTwo(word))
    ensures First(Truncated(w)) ==> VarLen(w) + rest == [a] + ([b] + ([c] + ([d] + rest)))
    ensures Second(Truncated(w)) && !First(Truncated(w)) ==> VarLen(w) + rest == [b] + ([c] + ([d] + rest))
    ensures Third(Truncated(w)) && !Second(Truncated(w)) ==> VarLen(w) + rest == [c] + ([d] + rest)
    ensures !Third(Truncated(w)) ==> VarLen(w) + rest == [d] + rest
  {
    hide LowByte, FirstResult, SecondResult, ThirdResult, Truncated, LastSeven, First, Second, Third, SeenOfFour, SeenOfThree, SeenOfTwo;
    var word := Truncated(w);
    Nested(word);
    JoinedCases(First(word), Second(word), Third(word), a, b, c, d, rest);
  }

  function Joined(p: bool, q: bool, r: bool, a: bv8, b: bv8, c: bv8, d: bv8, rest: Bytes): Bytes {
    (if p then [a] else []) + (if q then [b] else []) + (if r then [c] else []) + [d] + rest
  }

  lemma JoinedCases(p: bool, q: bool, r: bool, a: bv8, b: bv8, c: bv8, d: bv8, rest: Bytes)
    requires (p ==> q) && (q ==> r)
    ensures Joined(p, q, r, a, b, c, d, rest)
         == if p then [a] + ([b] + ([c] + ([d] + rest))) else if q then [b] + ([c] + ([d] + rest))
            else if r then [c] + ([d] + rest) else [d] + rest
  {
  }

  /* Whole fields. */

  datatype Field = Byte(b: bv8) | Half(h: bv16) | Word(w: bv32) | Variable(v: bv32) | Text(s: Bytes)

  datatype Kind = AByte | AHalf | AWord | AVariable | AText

  function KindOf(f: Field): Kind {
    match f case Byte(_) => AByte case Half(_) => AHalf case Word(_) => AWord case Variable(_) => AVariable case Text(_) => AText
  }

  /** The bytes that the push method of each kind of field appends. */
  function Encoded(f: Field): Bytes {
    match f
    case Byte(b) => [b]
    case Half(h) => Word16(h)
    case Word(w) => Word32(w)
    case Variable(v) => VarLen(v)
    case Text(s) => VarLen(Count(CString(s))) + CString(s)
  }

  function AllEncoded(fs: seq<Field>): Bytes {
    if fs == [] then [] else Encoded(fs[0]) + AllEncoded(fs[1..])
  }

  datatype ReadField = ReadField(f: Field, rest: Bytes) | Unreadable

  /** The next n bytes, counted down in a machine word. */
  function ReadBytes(n: bv32, s: Bytes, soFar: Bytes): ReadField
    decreases |s|
  {
    if n == 0 then ReadField(Text(soFar), s)
    else if s == [] then Unreadable
    else ReadBytes(n - 1, s[1..], soFar + [s[0]])
  }

  /** One field of a known kind, by the rules of the file format. */
  function ReadOne(k: Kind, s: Bytes): ReadField {
    match k
    case AByte => if |s| < 1 then Unreadable else ReadField(Byte(s[0]), s[1..])
    case AHalf => if |s| < 2 then Unreadable else ReadField(Half(Read16(s)), s[2..])
    case AWord => if |s| < 4 then Unreadable else ReadField(Word(Read32(s)), s[4..])
    case AVariable =>
      (match ReadVarLen(s, 0, 4)
       case Malformed => Unreadable
       case Quantity(v, rest) => ReadField(Variable(v), rest))
    case AText =>
      (match ReadVarLen(s, 0, 4)
       case Malformed => Unreadable
       case Quantity(n, rest) => ReadBytes(n, rest, []))
  }

  datatype ReadFields = ReadFields(fs: seq<Field>, rest: Bytes) | UnreadableFields

  function ReadAll(ks: seq<Kind>, s: Bytes): ReadFields {
    if ks == [] then ReadFields([], s)
    else match ReadOne(ks[0], s)
      case Unreadable => UnreadableFields
      case ReadField(f, rest) =>
        (match ReadAll(ks[1..], rest)
         case UnreadableFields => UnreadableFields
         case ReadFields(fs, left) => ReadFields([f] + fs, left))
  }

  function Kinds(fs: seq<Field>): seq<Kind> {
    if fs == [] then [] else [KindOf(fs[0])] + Kinds(fs[1..])
  }

  /** A text that is written as it is: no NUL, and a length that survives. */
  predicate KeptText(s: Bytes) {
    0 !in s && |s| < 0x1000_0000 && Kept(Count(s))
  }

  predicate KeptField(f: Field) {
    match f
    case Variable(v) => Kept(v)
    case Text(s) => KeptText(s)
    case _ => true
  }

  lemma IncDown(x: bv32)
    requires Below(x, 0x1000_0000)
    ensures Inc(x) != 0 && Inc(x) - 1 == x
  {
  }

  lemma CountBounded(s: Bytes)
    requires |s| < 0x1000_0000
    ensures Below(Count(s), 0x1000_0000)
  {
    hide *;
    Bounds();
    CountUp(s);
    BoundedAt(|s|, 0x1000_0000, 0x1000_0000);
  }

  lemma BoundedAt(k: nat, n: nat, m: bv32)
    requires Bounded(n, m) && k < n
    ensures Below(Up(k), m)
  {
  }

  /** Counting the bytes of s and then taking as many gives s back. */
  lemma {:induction false} CountedBytes(s: Bytes, rest: Bytes, soFar: Bytes)
    requires |s| < 0x1000_0000
    ensures ReadBytes(Count(s), s + rest, soFar) == ReadField(Text(soFar + s), rest)
    decreases |s|
  {
    if s == [] {
      assert s + rest == rest && soFar + s == soFar;
    } else {
      CountBounded(s[1..]);
      IncDown(Count(s[1..]));
      assert (s + rest)[1..] == s[1..] + rest;
      assert soFar + [s[0]] + s[1..] == soFar + s;
      CountedBytes(s[1..], rest, soFar + [s[0]]);
    }
  }

  /** One field reads back: what follows is untouched, and the field is the same exactly if it is one that survives. */
  lemma FieldReads(f: Field, rest: Bytes)
    requires f.Text? ==> KeptText(f.s)
    ensures ReadOne(KindOf(f), Encoded(f) + rest).ReadField?
    ensures ReadOne(KindOf(f), Encoded(f) + rest).rest == rest
    ensures ReadOne(KindOf(f), Encoded(f) + rest).f == f <==> KeptField(f)
  {
    match f
    case Byte(_) =>
    case Half(h) => WordReads16(h, rest);
    case Word(w) => WordReads32(w, rest);
    case Variable(v) =>
      VarLenReads(v, rest);
      SeenKept(v);
    case Text(s) =>
      TextReads(s, rest);
  }

  lemma WordReads16(h: bv16, rest: Bytes)
    ensures |Word16(h)| == 2 && Read16(Word16(h) + rest) == h && (Word16(h) + rest)[2..] == rest
  {
  }

  lemma WordReads32(w: bv32, rest: Bytes)
    ensures |Word32(w)| == 4 && Read32(Word32(w) + rest) == w && (Word32(w) + rest)[4..] == rest
  {
  }

  lemma TextReads(s: Bytes, rest: Bytes)
    requires KeptText(s)
    ensures ReadOne(AText, Encoded(Text(s)) + rest) == ReadField(Text(s), rest)
  {
    var n := Count(s);
    assert CString(s) == s;
    assert Encoded(Text(s)) + rest == VarLen(n) + (s + rest);
    VarLenReads(n, s + rest);
    SeenKept(n);
    CountedBytes(s, rest, []);
    assert [] + s == s;
  }

  /**
   * A chunk whose texts survive reads back field by field, by the kinds of its
   * fields, exactly if all its variable-length words survive.
   */
  lemma {:induction false} ChunkReads(fs: seq<Field>, rest: Bytes)
    requires TextsKept(fs)
    ensures ReadAll(Kinds(fs), AllEncoded(fs) + rest).ReadFields?
    ensures ReadAll(Kinds(fs), AllEncoded(fs) + rest).rest == rest
    ensures ReadAll(Kinds(fs), AllEncoded(fs) + rest).fs == fs <==> AllKept(fs)
  {
    hide *;
    if fs == [] {
      NothingReads(rest);
    } else {
      FirstKept(fs);
      FieldReads(fs[0], AllEncoded(fs[1..]) + rest);
      ChunkReads(fs[1..], rest);
      FirstThenRest(fs, rest);
      assert fs == [fs[0]] + fs[1..];
    }
  }

  lemma NothingReads(rest: Bytes)
    ensures ReadAll(Kinds([]), AllEncoded([]) + rest) == ReadFields([], rest) && AllKept([])
  {
    assert AllEncoded([]) + rest == rest;
  }

  lemma FirstThenRest(fs: seq<Field>, rest: Bytes)
    requires fs != []
    requires ReadOne(KindOf(fs[0]), Encoded(fs[0]) + (AllEncoded(fs[1..]) + rest)).ReadField?
    requires ReadOne(KindOf(fs[0]), Encoded(fs[0]) + (AllEncoded(fs[1..]) + rest)).rest == AllEncoded(fs[1..]) + rest
    requires ReadAll(Kinds(fs[1..]), AllEncoded(fs[1..]) + rest).ReadFields?
    ensures var tail := ReadAll(Kinds(fs[1..]), AllEncoded(fs[1..]) + rest);
            ReadAll(Kinds(fs), AllEncoded(fs) + rest)
            == ReadFields([ReadOne(KindOf(fs[0]), Encoded(fs[0]) + (AllEncoded(fs[1..]) + rest)).f] + tail.fs, tail.rest)
  {
    hide ReadOne, Encoded, KindOf;
    assert AllEncoded(fs) + rest == Encoded(fs[0]) + (AllEncoded(fs[1..]) + rest);
    assert Kinds(fs)[0] == KindOf(fs[0]) && Kinds(fs)[1..] == Kinds(fs[1..]);
  }

  ghost predicate AllKept(fs: seq<Field>) {
    forall f <- fs :: KeptField(f)
  }

  ghost predicate TextsKept(fs: seq<Field>) {
    forall f <- fs :: f.Text? ==> KeptText(f.s)
  }

  lemma FirstKept(fs: seq<Field>)
    requires fs != []
    ensures AllKept(fs) <==> KeptField(fs[0]) && AllKept(fs[1..])
    ensures TextsKept(fs) ==> (fs[0].Text? ==> KeptText(fs[0].s)) && TextsKept(fs[1..])
  {
    assert fs == [fs[0]] + fs[1..];
  }

  /** Words and lengths below 2^14 always survive. */
  lemma SmallKept(v: bv32, s: Bytes)
    ensures v < 0x4000 ==> Kept(v)
    ensures |s| < 0x4000 && 0 !in s ==> KeptText(s)
  {
    if |s| < 0x4000 {
      Bounds();
      CountUp(s);
      BoundedAt(|s|, 0x4000, 0x4000);
    }
  }

  /** Quantities as the file format has them, of one and two bytes. */
  lemma StandardBytes()
    ensures VarLen(0x40) == [0x40] && VarLen(0x7f) == [0x7f]
    ensures VarLen(0x80) == [0x81, 0x00] && VarLen(0x2000) == [0xc0, 0x00] && VarLen(0x3fff) == [0xff, 0x7f]
  {
  }

  /** The smallest word that is written wrong: 2^14 reads back as 0. */
  lemma FirstLoss()
    ensures Seen(0x4000) == 0 && !Kept(0x4000)
  {
  }

  /* The block. */

  /** The uint32_t of a number of bytes. */
  function SizeWord(n: nat): bv32 {
    (n % 0x1_0000_0000) as bv32
  }

  lemma WordSizes(h: bv16, w: bv32)
    ensures Encoded(Half(h)) == Word16(h) == [Word16(h)[0], Word16(h)[1]]
    ensures Encoded(Word(w)) == Word32(w) == [Word32(w)[0], Word32(w)[1], Word32(w)[2], Word32(w)[3]]
  {
  }

  class Chunk {
    var finalized: bool
    var wasDropped: bool
    var data: array<bv8>
    var currentOffset: nat

    ghost predicate Valid()
      reads this`data, this`currentOffset, data
    {
      data.Length >= 128 && 8 <= currentOffset < data.Length
    }

    /** What has been pushed. */
    ghost function Contents(): Bytes
      requires Valid()
      reads this`data, this`currentOffset, data
    {
      data[8..currentOffset]
    }

    /** The first eight bytes: the kind of the chunk and its size. */
    ghost function Header(): Bytes
      requires Valid()
      reads this`data, this`currentOffset, data
    {
      data[..8]
    }

    constructor (header: Bytes)
      requires |header| >= 4
      ensures Valid() && Contents() == [] && Header() == header[..4] + [0, 0, 0, 0] && fresh(data)
      ensures !finalized && !wasDropped
    {
      finalized, wasDropped := false, false;
      data := new bv8[128](i => if 0 <= i < 4 && i < |header| then header[i] else 0);
      currentOffset := 8;
    }

    /** verify_fit: one doubling is enough for a length of up to four. */
    method VerifyFit(length: nat)
      requires Valid() && length <= 4
      modifies this`data
      ensures Valid() && currentOffset + length < data.Length
      ensures data == old(data) || fresh(data)
      ensures Contents() == old(Contents()) && Header() == old(Header())
    {
      if currentOffset + length >= data.Length {
        var n := new bv8[data.Length * 2];
        for i := 0 to data.Length
          invariant data == old(data) && n[..i] == data[..i]
        {
          n[i] := data[i];
        }
        assert n[..currentOffset] == n[..data.Length][..currentOffset];
        data := n;
      }
    }

    /** data[current_offset++] = b */
    method Put(b: bv8)
      requires Valid() && currentOffset + 1 < data.Length
      modifies data, this`currentOffset
      ensures Valid() && currentOffset == old(currentOffset) + 1
      ensures Contents() == old(Contents()) + [b] && Header() == old(Header())
    {
      data[currentOffset] := b;
      currentOffset := currentOffset + 1;
    }

    method PushU8(word: bv8)
      requires Valid()
      modifies this`data, this`currentOffset, data
      ensures Valid() && Contents() == old(Contents()) + [word]
      ensures Encoded(Byte(word)) == [word]
      ensures (data == old(data) || fresh(data)) && Header() == old(Header())
    {
      hide Valid, Contents, Header;
      VerifyFit(1);
      Put(word);
    }

    method PushU16(word: bv16)
      requires Valid()
      modifies this`data, this`currentOffset, data
      ensures Valid() && Contents() == old(Contents()) + Encoded(Half(word))
      ensures (data == old(data) || fresh(data)) && Header() == old(Header())
    {
      hide Valid, Contents, Header, Word16;
      WordSizes(word, 0);
      VerifyFit(2);
      Put(Word16(word)[0]);
      Put(Word16(word)[1]);
    }

    method PushU32(word: bv32)
      requires Valid()
      modifies this`data, this`currentOffset, data
      ensures Valid() && Contents() == old(Contents()) + Encoded(Word(word))
      ensures (data == old(data) || fresh(data)) && Header() == old(Header())
    {
      hide *;
      WordSizes(0, word);
      ghost var before := Contents();
      VerifyFit(4);
      Put(Word32(word)[0]);
      Put(Word32(word)[1]);
      Put(Word32(word)[2]);
      Put(Word32(word)[3]);
      OneByOne(before, Word32(word)[0], Word32(word)[1], Word32(word)[2], Word32(word)[3]);
    }

    static lemma OneByOne(s: Bytes, a: bv8, b: bv8, c: bv8, d: bv8)
      ensures s + [a] + [b] + [c] + [d] == s + [a, b, c, d]
    {
    }

    method PushU8VarLen(byte: bv8)
      requires Valid()
      modifies this`data, this`currentOffset, data
      ensures Valid() && Contents() == old(Contents()) + Encoded(Variable(byte as bv32))
      ensures (data == old(data) || fresh(data)) && Header() == old(Header())
    {
      PushU32VarLen(byte as bv32);
    }

    method PushU16VarLen(word: bv16)
      requires Valid()
      modifies this`data, this`currentOffset, data
      ensures Valid() && Contents() == old(Contents()) + Encoded(Variable(word as bv32))
      ensures (data == old(data) || fresh(data)) && Header() == old(Header())
    {
      PushU32VarLen(word as bv32);
    }

    method PushU32VarLen(w: bv32)
      requires Valid()
      modifies this`data, this`currentOffset, data
      ensures Valid() && Contents() == old(Contents()) + Encoded(Variable(w))
      ensures (data == old(data) || fresh(data)) && Header() == old(Header())
    {
      hide *;
      VerifyFit(4);
      var result, justContinue := 0, false;
      var word := Truncated(w);
      ghost var before := Contents();
      if First(word) {
        result := AddFirst(result, word);
        Put(LowByte(result));
        justContinue := true;
      }
      ghost var one := Contents();
      if justContinue || HasSecond(word) {
        result := AddSecond(result, word);
        Put(LowByte(result));
        justContinue := true;
      }
      ghost var two := Contents();
      if justContinue || HasThird(word) {
        result := AddThird(result, word);
        Put(LowByte(result));
      }
      ghost var three := Contents();
      Put(LastSeven(word));
      Pushed(w, before, one, two, three, Contents());
    }

    /** The four stages of push_u32b_word_var_len. */
    static lemma Pushed(w: bv32, before: Bytes, one: Bytes, two: Bytes, three: Bytes, after: Bytes)
      requires var word := Truncated(w);
               var r1 := if First(word) then AddFirst(0, word) else 0;
               var second := First(word) || HasSecond(word);
               var r2 := if second then AddSecond(r1, word) else r1;
               var third := second || HasThird(word);
               var r3 := if third then AddThird(r2, word) else r2;
               && one == (if First(word) then before + [LowByte(r1)] else before)
               && two == (if second then one + [LowByte(r2)] else one)
               && three == (if third then two + [LowByte(r3)] else two)
               && after == three + [LastSeven(word)]
      ensures after == before + VarLen(w) && Encoded(Variable(w)) == VarLen(w)
    {
      hide First, HasSecond, HasThird, AddFirst, AddSecond, AddThird, LowByte, LastSeven, Truncated;
    }

    /** push_string: what C sees of the string, behind its length. */
    method PushString(str: Bytes)
      requires Valid()
      modifies this`data, this`currentOffset, data
      ensures Valid() && Contents() == old(Contents()) + Encoded(Text(str))
      ensures (data == old(data) || fresh(data)) && Header() == old(Header())
    {
      hide *;
      var tn := CString(str);
      ghost var before := Contents();
      PushU32VarLen(Count(tn));
      ghost var length := VarLen(Count(tn));
      VariableEncoded(Count(tn));
      assert tn[..0] == [] && before + length + [] == before + length;
      for k := 0 to |tn|
        invariant Valid() && Contents() == before + length + tn[..k]
        invariant (data == old(data) || fresh(data)) && Header() == old(Header())
      {
        PushU8(tn[k]);
        assert tn[..k + 1] == tn[..k] + [tn[k]];
        assert before + length + tn[..k] + [tn[k]] == before + length + tn[..k + 1];
      }
      TextEncoded(str);
      assert tn[..|tn|] == tn;
      assert before + length + tn == before + (length + tn);
    }

    static lemma VariableEncoded(v: bv32)
      ensures Encoded(Variable(v)) == VarLen(v)
    {
    }

    static lemma TextEncoded(str: Bytes)
      ensures Encoded(Text(str)) == VarLen(Count(CString(str))) + CString(str)
    {
    }

    method Drop()
      modifies this`wasDropped
      ensures wasDropped
    {
      wasDropped := true;
    }

    /** finalize: the size of the contents goes into the header; a dropped or empty chunk writes nothing. */
    method Finalize() returns (written: Bytes)
      requires Valid()
      modifies this`finalized, data
      ensures Valid() && finalized && Contents() == old(Contents())
      ensures wasDropped || Contents() == [] ==> written == []
      ensures !wasDropped && Contents() != [] ==>
                && |written| == 8 + |Contents()|
                && written[..4] == old(Header())[..4]
                && Read32(written[4..8]) == (|Contents()| % 0x1_0000_0000) as bv32
                && written[8..] == Contents()
    {
      hide *;
      SizeOffsets();
      SizeIs(currentOffset - 8);
      finalized := true;
      var finalSize := SizeWord(currentOffset - 8);
      if wasDropped || currentOffset == 8 {
        return [];
      }
      written := WriteAll(finalSize);
    }

    /** The size goes into the header, and everything into the file. */
    method WriteAll(finalSize: bv32) returns (written: Bytes)
      requires Valid()
      modifies data
      ensures Valid() && Contents() == old(Contents())
      ensures |written| == 8 + |Contents()| && written[..4] == old(Header())[..4] && written[8..] == Contents()
      ensures Read32(written[4..8]) == finalSize
    {
      hide Word32, Read32;
      ghost var contents := Contents();
      WriteSize(Word32(finalSize), finalSize);
      written := data[..currentOffset];
      assert written == Header() + contents;
      assert written[4..8] == Header()[4..8];
    }

    static lemma SizeIs(n: nat)
      ensures SizeWord(n) == (n % 0x1_0000_0000) as bv32
    {
    }

    /** The four bytes of the size in the header. */
    method WriteSize(size: Bytes, ghost finalSize: bv32)
      requires Valid() && size == Word32(finalSize)
      modifies data
      ensures Valid() && Contents() == old(Contents()) && Header() == old(Header())[..4] + size
      ensures |size| == 4 && Read32(Header()[4..8]) == finalSize
    {
      hide *;
      WordSizes(0, finalSize);
      WordsReadBack(0, finalSize, []);
      SizeOffsets();
      ghost var head := data[..4];
      data[4] := size[0];
      data[5] := size[1];
      data[6] := size[2];
      data[7] := size[3];
      assert data[..4] == head && data[4..8] == size;
      assert size + [] == size;
      SizeWritten(head, size);
    }

    lemma SizeOffsets()
      requires Valid()
      ensures data.Length >= 128 && 8 <= currentOffset < data.Length
      ensures Contents() == data[8..currentOffset] && Header() == data[..8]
    {
    }

    lemma SizeWritten(head: Bytes, size: Bytes)
      requires data.Length >= 128 && 8 <= currentOffset < data.Length && |size| == 4
      requires data[..4] == head && data[4..8] == size
      ensures Valid() && Contents() == data[8..currentOffset] && Header() == head + size && Header()[4..8] == size
    {
      assert data[..8] == data[..4] + data[4..8];
    }
  }
}
