/** The word arithmetic macros of bn_lcl.h.
    A machine word is built from two half-words.  h is one more than the largest half-word,
    that is 2^BN_BITS4 (the header uses 2^32 and 2^16); a word is a number below h * h.
    Nothing below needs more of h than being even, so every result holds for every
    half-word width.  C unsigned arithmetic on a word wraps around at h * h: every operation
    that can wrap is written with Word(h, _). */
module BnLcl {
  import opened Arith

  /** The two constants of a configuration: half-words are below h, words below b. */
  predicate IsMachine(h: nat, b: nat) { h >= 2 && h % 2 == 0 && b == h * h && b > h }

  /** Reduction of an unsigned result to one word; also what `& BN_MASK2` does. */
  function Word(b: nat, x: nat): nat
    requires b >= 1
  {
    x % b
  }

  /** `a & BN_MASK2l` */
  function LBits(h: nat, a: nat): nat
    requires h >= 1
  {
    a % h
  }

  /** `(a >> BN_BITS4) & BN_MASK2l` */
  function HBits(h: nat, a: nat): nat
    requires h >= 1
  {
    (a / h) % h
  }

  /** `(a << BN_BITS4) & BN_MASK2` */
  function L2HBits(h: nat, b: nat, a: nat): nat
    requires b >= 1
  {
    Word(b, a * h)
  }

  /** `(m & BN_MASK2h1) >> (BN_BITS4-1)`: the mask keeps the bits from BN_BITS4-1 upwards. */
  function MaskH1Shifted(h: nat, m: nat): nat
    requires h >= 2
  {
    (m - m % (h / 2)) / (h / 2)
  }

  lemma PowersAreBases(k: nat)
    requires k >= 1
    ensures IsMachine(Power(2, k), Power(2, k) * Power(2, k))
    decreases k
  {
    if k > 1 { PowersAreBases(k - 1); }
  }

  // ---------- arithmetic facts ----------

  lemma HalfProduct(h: nat, a: nat, b: nat)
    requires a < h && b < h
    ensures a * b < h * h
    ensures a * b <= h * h - 2 * h + 1
  {
    MulMonotone(a, h - 1, b);
    MulMonotone(b, h - 1, h - 1);
    assert (h - 1) * (h - 1) == h * h - 2 * h + 1;
  }

  lemma TwoDigitBound(h: nat, hi: nat, lo: nat)
    requires hi < h && lo < h
    ensures hi * h + lo < h * h
  {
    MulMonotone(hi, h - 1, h);
    assert (h - 1) * h == h * h - h;
  }

  /** A word is determined by its two half-words. */
  lemma SplitWord(h: nat, a: nat)
    requires h >= 1 && a < h * h
    ensures a % h < h && a / h < h
    ensures (a / h) * h + a % h == a
    ensures LBits(h, a) == a % h && HBits(h, a) == a / h
  {
    var q := a / h;
    assert a == q * h + a % h;
    if q >= h {
      MulMonotone(h, q, h);
      assert false;
    }
    SmallMod(h, q);
  }

  /** Shifting a word up by half its width keeps its low half. */
  lemma ShiftUp(h: nat, m: nat)
    requires h >= 1
    ensures (m * h) % (h * h) == (m % h) * h && (m % h) * h < h * h
  {
    Positive(h, h);
    var q, r := m / h, m % h;
    assert m == q * h + r;
    Assoc3(q, h, h);
    assert m * h == q * (h * h) + r * h;
    TwoDigitBound(h, r, 0);
    DivModUnique(h * h, q, r * h);
  }

  /** Two words whose two-word combination is a product of words leave room for a carry. */
  lemma HighWordFits(b: nat, hi: nat, lo: nat, x: nat, y: nat)
    requires hi * b + lo == x * y
    requires x < b && y < b
    ensures hi < b
    ensures b >= 2 ==> hi + 1 < b
  {
    HalfProduct(b, x, y);
    if hi >= b {
      MulMonotone(b, hi, b);
      assert false;
    }
    if hi == b - 1 && b >= 2 {
      assert false;
    }
  }

  /** Adding two words: the truncated sum is below an addend exactly when a carry was lost. */
  lemma CarryTest(b: nat, x: nat, y: nat)
    requires x < b && y < b
    ensures (x + y) % b < b
    ensures (x + y) % b < y <==> x + y >= b
    ensures x + y == (x + y) % b + (if (x + y) % b < y then b else 0)
  {
    if x + y >= b {
      DivModUnique(b, 1, x + y - b);
    } else {
      SmallMod(b, x + y);
    }
  }

  /** `s = (x+y)&BN_MASK2` followed by the test `s < y`: the sum and its carry. */
  method AddCarry(b: nat, x: nat, y: nat) returns (s: nat, carry: nat)
    requires x < b && y < b
    ensures s < b && carry <= 1 && x + y == carry * b + s
  {
    CarryTest(b, x, y);
    s := Word(b, x + y);
    carry := if s < y then 1 else 0;
  }

  // ---------- mul64 ----------

  lemma Expand(x: nat, a: nat, y: nat, c: nat)
    ensures (x + a) * (y + c) == x * y + x * c + a * y + a * c
  {
    assert (x + a) * (y + c) == x * (y + c) + a * (y + c);
  }

  lemma ProductOfSplits(h: nat, b: nat, a1: nat, a0: nat, b1: nat, b0: nat)
    requires b == h * h
    ensures (a1 * h + a0) * (b1 * h + b0)
         == (b1 * a1) * b + (b1 * a0 + b0 * a1) * h + b0 * a0
  {
    var x, y := a1 * h, b1 * h;
    Expand(x, a0, y, b0);
    calc {
      x * b0;
      b0 * (a1 * h);
      { Assoc3(b0, a1, h); }
      (b0 * a1) * h;
    }
    calc {
      a0 * y;
      { Assoc3(a0, b1, h); }
      (a0 * b1) * h;
      (b1 * a0) * h;
    }
    calc {
      x * y;
      y * x;
      { Assoc3(b1, h, x); }
      b1 * (h * x);
      { Assoc3(a1, h, h); }
      b1 * (a1 * b);
      { Assoc3(b1, a1, b); }
      (b1 * a1) * b;
    }
    assert (b1 * a0 + b0 * a1) * h == (b1 * a0) * h + (b0 * a1) * h;
  }

  /** The schoolbook identity behind mul64: the sum s of the middle terms, whose word part is
      m, contributes its high half to the high word and its low half to the low word. */
  lemma MiddleTerm(h: nat, b: nat, r1: nat, s: nat, carry: nat, m: nat, r0: nat)
    requires h >= 1 && b == h * h
    requires s == m + carry * b
    ensures r1 * b + s * h + r0 == (r1 + carry * h + m / h) * b + ((m % h) * h + r0)
  {
    var q, r := m / h, m % h;
    assert m == q * h + r;
    assert s * h == q * b + r * h + (carry * h) * b by {
      Assoc3(q, h, h);
      Assoc3(carry, b, h);
      Assoc3(carry, h, b);
      assert m * h == q * b + r * h;
      assert s * h == m * h + carry * b * h;
      assert h * b == b * h;
    }
    assert (r1 + carry * h + q) * b == r1 * b + (carry * h) * b + q * b;
  }

  /** A product of half-words is computed without wrapping. */
  method MulHalves(h: nat, b: nat, x: nat, y: nat) returns (p: nat)
    requires IsMachine(h, b) && x < h && y < h
    ensures p == x * y && p < b
  {
    HalfProduct(h, x, y);
    SmallMod(b, x * y);
    p := Word(b, x * y);
  }

  /** The words mul64 forms from the middle sum are its two halves. */
  lemma MiddleHalves(h: nat, b: nat, m: nat)
    requires IsMachine(h, b) && m < b
    ensures L2HBits(h, b, 1) == h
    ensures HBits(h, m) == m / h && L2HBits(h, b, m) == (m % h) * h < b
  {
    SplitWord(h, m);
    ShiftUp(h, m);
    ShiftUp(h, 1);
    SmallMod(h, 1);
  }

  /** What mul64 adds up after the products: top and low are the outer products, m and carry
      the middle sum.  No partial high word wraps, and together the parts are the product. */
  lemma Mul64Sum(b: nat, top: nat, hi1: nat, hi2: nat, m1: nat, low: nat, x: nat, y: nat)
    requires b >= 2 && x < b && y < b
    requires (top + hi1 + hi2) * b + (m1 + low) == x * y
    ensures top < b && top + hi1 < b && top + hi1 + hi2 < b
    ensures Word(b, top + hi1) == top + hi1
    ensures Word(b, top + hi1 + hi2) == top + hi1 + hi2
    ensures Word(b, top + hi1 + hi2 + 1) == top + hi1 + hi2 + 1
    ensures (top + hi1 + hi2 + 1) * b + (m1 + low - b) == x * y
  {
    var ht := top + hi1 + hi2;
    HighWordFits(b, ht, m1 + low, x, y);
    SmallMod(b, top + hi1);
    SmallMod(b, ht);
    SmallMod(b, ht + 1);
    assert (ht + 1) * b == ht * b + b;
  }

  lemma Mul64Identity(h: nat, b: nat, l: nat, hh: nat, bl: nat, bh: nat,
                      p: nat, r0: nat, q: nat, r1: nat, x: nat, y: nat)
    requires IsMachine(h, b)
    requires l < h && hh < h && bl < h && bh < h
    requires p == bh * l && r0 == bl * l && q == bl * hh && r1 == bh * hh
    requires x == hh * h + l && y == bh * h + bl
    ensures x < b && y < b && x * y == r1 * b + (p + q) * h + r0
  {
    TwoDigitBound(h, hh, l);
    TwoDigitBound(h, bh, bl);
    ProductOfSplits(h, b, hh, l, bh, bl);
  }

  lemma Mul64Exact(h: nat, b: nat, r1: nat, s: nat, r0: nat, carry: nat, m: nat, x: nat, y: nat)
    requires IsMachine(h, b) && s == m + carry * b
    requires x * y == r1 * b + s * h + r0
    ensures (r1 + carry * h + m / h) * b + ((m % h) * h + r0) == x * y
  {
    MiddleTerm(h, b, r1, s, carry, m, r0);
  }

  /** mul64(l,h,bl,bh): replaces the half-words l, h of one factor by the low and the high word
      of its product with the half-words bl, bh. */
  method Mul64(h: nat, b: nat, l0: nat, h0: nat, bl: nat, bh: nat) returns (lo: nat, hi: nat)
    requires IsMachine(h, b)
    requires l0 < h && h0 < h && bl < h && bh < h
    ensures lo < b && hi < b
    ensures hi * b + lo == (h0 * h + l0) * (bh * h + bl)
  {
    ghost var x, y := h0 * h + l0, bh * h + bl;
    var m := MulHalves(h, b, bh, l0);
    var lt := MulHalves(h, b, bl, l0);
    var m1 := MulHalves(h, b, bl, h0);
    var ht := MulHalves(h, b, bh, h0);
    Mul64Identity(h, b, l0, h0, bl, bh, m, lt, m1, ht, x, y);
    lo, hi := Mul64Add(h, b, m, m1, lt, ht, x, y);
  }

  /** The part of mul64 after the four products. */
  method Mul64Add(h: nat, b: nat, p: nat, q: nat, r0: nat, r1: nat, ghost x: nat, ghost y: nat)
    returns (lt: nat, ht: nat)
    requires IsMachine(h, b) && p < b && q < b && r0 < b && r1 < b && x < b && y < b
    requires x * y == r1 * b + (p + q) * h + r0
    ensures lt < b && ht < b && ht * b + lt == x * y
  {
    var m, carry := AddCarry(b, p, q);
    Mul64Exact(h, b, r1, p + q, r0, carry, m, x, y);
    MiddleHalves(h, b, m);
    Mul64Sum(b, r1, carry * h, m / h, (m % h) * h, r0, x, y);
    ht := r1;
    if carry == 1 { ht := Word(b, ht + L2HBits(h, b, 1)); }
    assert ht == r1 + carry * h;
    lt, ht := AddHighLow(b, r0, ht, HBits(h, m), L2HBits(h, b, m), x, y);
  }

  /** The last additions of mul64 and, with the doubled middle product, of sqr64: hm goes to the
      high word and m1 to the low word, whose carry goes to the high word. */
  method AddHighLow(b: nat, l: nat, h: nat, hm: nat, m1: nat, ghost x: nat, ghost y: nat)
    returns (lo: nat, hi: nat)
    requires b >= 2 && l < b && m1 < b && x < b && y < b
    requires (h + hm) * b + (m1 + l) == x * y
    ensures lo < b && hi < b && hi * b + lo == x * y
  {
    Mul64Sum(b, h, hm, 0, m1, l, x, y);
    hi := Word(b, h + hm);
    var carry;
    lo, carry := AddCarry(b, l, m1);
    if carry == 1 { hi := Word(b, hi + 1); }
  }

  // ---------- sqr64 ----------

  /** 2*m*h in terms of m's quotient and remainder by g = h/2. */
  lemma DoubledProduct(g: nat, h: nat, b: nat, m: nat, q: nat, r: nat)
    requires h == 2 * g && b == h * h && m == q * g + r
    ensures 2 * m * h == q * b + r * (2 * h)
  {
    Assoc3(q, g, 2 * h);
    assert g * (2 * h) == b;
    assert 2 * m * h == m * (2 * h);
    assert m * (2 * h) == q * g * (2 * h) + r * (2 * h);
  }

  lemma LowHalfOfMiddle(g: nat, h: nat, m: nat, q: nat, r: nat)
    requires h == 2 * g && r < g && m == q * g + r
    ensures m % h == (q % 2) * g + r
  {
    var e := q % 2;
    assert q == 2 * (q / 2) + e;
    assert q * g == (q / 2) * h + e * g by { Assoc3(q / 2, 2, g); }
    assert e * g + r < h;
    DivModUnique(h, q / 2, e * g + r);
  }

  lemma ShiftedLowHalf(g: nat, h: nat, b: nat, e: nat, r: nat)
    requires h == 2 * g && b == h * h && r < g && e <= 1
    ensures r * (2 * h) < b
    ensures ((e * g + r) * (2 * h)) % b == r * (2 * h)
  {
    assert r * (2 * h) < b by { TwoDigitBound(h, 2 * r, 0); Assoc3(r, 2, h); }
    assert (e * g + r) * (2 * h) == e * b + r * (2 * h) by {
      Assoc3(e, g, 2 * h);
      assert g * (2 * h) == b;
    }
    DivModUnique(b, e, r * (2 * h));
  }

  lemma QuotientRemainder(m: nat, g: nat, q: nat, r: nat)
    requires g >= 1 && q == m / g && r == m % g
    ensures m == q * g + r && r < g && (m - r) / g == q
  {
    DivModUnique(g, q, 0);
  }

  /** The shift by BN_BITS4+1 drops the top bit of the low half of m; that bit is the lowest
      one that the 2h1 mask adds to the high word, so q and r account for all of 2*m*h. */
  lemma DoubledMiddle(h: nat, b: nat, m: nat)
    requires IsMachine(h, b)
    ensures MaskH1Shifted(h, m) == m / (h / 2)
    ensures Word(b, LBits(h, m) * (2 * h)) == (m % (h / 2)) * (2 * h) < b
    ensures 2 * m * h == (m / (h / 2)) * b + (m % (h / 2)) * (2 * h)
  {
    var g := h / 2;
    var q, r := m / g, m % g;
    QuotientRemainder(m, g, q, r);
    DoubledProduct(g, h, b, m, q, r);
    LowHalfOfMiddle(g, h, m, q, r);
    ShiftedLowHalf(g, h, b, q % 2, r);
  }

  lemma BinomialSquare(x: nat, y: nat, z: nat)
    requires x == y + z
    ensures x * x == y * y + 2 * (y * z) + z * z
  {}

  lemma SquareShifted(h: nat, b: nat, hi: nat)
    requires b == h * h
    ensures (hi * h) * (hi * h) == (hi * hi) * b
  {
    Assoc3(hi, h, hi * h);
    Assoc3(h, hi, h);
    Assoc3(hi, h, h);
    Assoc3(hi, hi, b);
  }

  lemma SquareOfSplit(h: nat, b: nat, hi: nat, lo: nat, m: nat, q: nat, t: nat, x: nat)
    requires IsMachine(h, b) && x == hi * h + lo && m == lo * hi
    requires 2 * m * h == q * b + t
    ensures x * x == (hi * hi + q) * b + (t + lo * lo)
  {
    var y := hi * h;
    BinomialSquare(x, y, lo);
    SquareShifted(h, b, hi);
    assert 2 * (y * lo) == 2 * m * h by { Assoc3(lo, hi, h); }
    assert (hi * hi + q) * b == (hi * hi) * b + q * b;
  }

  /** What sqr64 adds to the squares of the halves, l2 and h2, completes the square of the word. */
  lemma Sqr64Identity(h: nat, b: nat, a: nat, l: nat, hw: nat, m: nat, l2: nat, h2: nat, hm: nat, m1: nat)
    requires IsMachine(h, b) && a == hw * h + l && m == l * hw && l2 == l * l && h2 == hw * hw
    requires hm == MaskH1Shifted(h, m) && m1 == Word(b, LBits(h, m) * (2 * h))
    ensures m1 < b && (h2 + hm) * b + (m1 + l2) == a * a
  {
    DoubledMiddle(h, b, m);
    SquareOfSplit(h, b, hw, l, m, m / (h / 2), (m % (h / 2)) * (2 * h), a);
  }

  /** sqr64(lo,ho,in): the square of a word as two words. */
  method Sqr64(h: nat, b: nat, a: nat) returns (lo: nat, ho: nat)
    requires IsMachine(h, b) && a < b
    ensures lo < b && ho < b
    ensures ho * b + lo == a * a
  {
    SplitWord(h, a);
    var l, hw := LBits(h, a), HBits(h, a);
    var m := MulHalves(h, b, l, hw);
    var l2 := MulHalves(h, b, l, l);
    var h2 := MulHalves(h, b, hw, hw);
    var hm, m1 := MaskH1Shifted(h, m), Word(b, LBits(h, m) * (2 * h));
    Sqr64Identity(h, b, a, l, hw, m, l2, h2, hm, m1);
    lo, ho := AddHighLow(b, l2, h2, hm, m1, a, a);
  }

  /** Squaring with sqr64 is multiplying a word by itself with mul64. */
  method Sqr64ByMul64(h: nat, b: nat, a: nat) returns (lo: nat, ho: nat, lo': nat, ho': nat)
    requires IsMachine(h, b) && a < b
    ensures lo == lo' && ho == ho' && ho * b + lo == a * a
  {
    SplitWord(h, a);
    lo, ho := Sqr64(h, b, a);
    lo', ho' := Mul64(h, b, LBits(h, a), HBits(h, a), LBits(h, a), HBits(h, a));
    TwoWordsUnique(b, lo, ho, lo', ho');
  }

  // ---------- mul_add, mul and sqr in their four forms ----------

  /** Which of the four definitions of mul_add, mul and sqr the preprocessor selects. */
  datatype Form = DoubleWidth | LoHi | High | HalfWords

  /** A number has at most one representation by two words. */
  lemma TwoWordsUnique(b: nat, lo1: nat, hi1: nat, lo2: nat, hi2: nat)
    requires lo1 < b && lo2 < b
    requires hi1 * b + lo1 == hi2 * b + lo2
    ensures lo1 == lo2 && hi1 == hi2
  {
    DivModUnique(b, hi1, lo1);
    DivModUnique(b, hi2, lo2);
  }

  lemma TwoWordsAre(b: nat, lo: nat, hi: nat, x: nat)
    requires lo < b && hi * b + lo == x
    ensures lo == x % b && hi == x / b
  {
    DivModUnique(b, hi, lo);
  }

  /** BN_UMULT_LOHI: both words of a product. */
  method UMultLoHi(b: nat, w: nat, a: nat) returns (low: nat, high: nat)
    requires w < b && a < b
    ensures low < b && high < b && high * b + low == a * w
  {
    HalfProduct(b, w, a);
    SplitWord(b, w * a);
    low, high := (w * a) % b, (w * a) / b;
  }

  /** BN_UMULT_HIGH next to a truncating multiplication: the two words of a product one by one. */
  method UMultHighLow(b: nat, w: nat, a: nat) returns (high: nat, low: nat)
    requires w < b && a < b
    ensures low < b && high < b && high * b + low == a * w
  {
    HalfProduct(b, w, a);
    SplitWord(b, w * a);
    high := (w * a) / b;
    low := Word(b, w * a);
  }

  /** r + a*w + c always fits two words. */
  lemma MulAddFits(b: nat, r: nat, a: nat, w: nat, c: nat)
    requires b >= 1 && r < b && a < b && w < b && c < b
    ensures r + a * w + c < b * b
  {
    HalfProduct(b, a, w);
  }

  /** The high word of a sum that fits two words does not wrap, nor does any part of it. */
  lemma CarriesFit(b: nat, high: nat, k1: nat, k2: nat, s: nat)
    requires b >= 1 && (high + k1 + k2) * b + s < b * b
    ensures high + k1 + k2 < b
    ensures Word(b, high + k1) == high + k1 && Word(b, high + k1 + k2) == high + k1 + k2
  {
    var top := high + k1 + k2;
    if top >= b {
      MulMonotone(b, top, b);
      assert false;
    }
    SmallMod(b, high + k1);
    SmallMod(b, top);
  }

  lemma CarriesSum(b: nat, high: nat, k1: nat, k2: nat, s1: nat, s2: nat, x: nat, y: nat, z: nat, t: nat)
    requires x + y == k1 * b + s1 && s1 + z == k2 * b + s2
    requires high * b + x + y + z == t
    ensures (high + k1 + k2) * b + s2 == t
  {
    assert (high + k1 + k2) * b == high * b + k1 * b + k2 * b;
  }

  /** The additions of mul_add after the product: two words are added to the low word, each sum's
      carry to the high word. */
  method AddTwoWords(b: nat, x: nat, y: nat, z: nat, high: nat, ghost t: nat) returns (low': nat, high': nat)
    requires x < b && y < b && z < b && high < b
    requires high * b + x + y + z == t < b * b
    ensures low' < b && high' < b && high' * b + low' == t
  {
    var s1, k1 := AddCarry(b, x, y);
    var s2, k2 := AddCarry(b, s1, z);
    CarriesSum(b, high, k1, k2, s1, s2, x, y, z, t);
    CarriesFit(b, high, k1, k2, s2);
    high' := high;
    if k1 == 1 { high' := Word(b, high' + 1); }
    if k2 == 1 { high' := Word(b, high' + 1); }
    low' := s2;
  }

  /** mul_add(r,a,w,c) with a type of twice the word width. */
  method MulAddDoubleWidth(b: nat, r: nat, a: nat, w: nat, c: nat) returns (r': nat, c': nat)
    requires b >= 1 && r < b && a < b && w < b && c < b
    ensures r' < b && c' < b && c' * b + r' == r + a * w + c
  {
    MulAddFits(b, r, a, w, c);
    Positive(b, b);
    SmallMod(b * b, r + a * w + c);
    var t := (w * a + r + c) % (b * b);
    SplitWord(b, t);
    r' := Word(b, t);
    c' := Word(b, t / b);
    SmallMod(b, t / b);
  }

  /** mul_add(r,a,w,c) with an instruction that yields both words of a product. */
  method MulAddLoHi(b: nat, r: nat, a: nat, w: nat, c: nat) returns (r': nat, c': nat)
    requires b >= 1 && r < b && a < b && w < b && c < b
    ensures r' < b && c' < b && c' * b + r' == r + a * w + c
  {
    MulAddFits(b, r, a, w, c);
    var low, high := UMultLoHi(b, w, a);
    r', c' := AddTwoWords(b, r, c, low, high, r + a * w + c);
  }

  /** mul_add(r,a,w,c) with an instruction for the high word and a truncating multiplication
      for the low one. */
  method MulAddHigh(b: nat, r: nat, a: nat, w: nat, c: nat) returns (r': nat, c': nat)
    requires b >= 1 && r < b && a < b && w < b && c < b
    ensures r' < b && c' < b && c' * b + r' == r + a * w + c
  {
    MulAddFits(b, r, a, w, c);
    var high, low := UMultHighLow(b, w, a);
    r', c' := AddTwoWords(b, r, c, low, high, r + a * w + c);
  }

  /** The product of the half-word forms: w is split once, by the caller of the macros, and a by
      the macro itself; mul64 multiplies the halves. */
  method MulSplit(h: nat, b: nat, a: nat, w: nat) returns (low: nat, high: nat)
    requires IsMachine(h, b) && a < b && w < b
    ensures low < b && high < b && high * b + low == a * w
  {
    SplitWord(h, w);
    SplitWord(h, a);
    var bl, bh := LBits(h, w), HBits(h, w);
    var l, hw := LBits(h, a), HBits(h, a);
    low, high := Mul64(h, b, l, hw, bl, bh);
  }

  /** mul_add(r,a,bl,bh,c), where bl and bh are the halves of w. */
  method MulAddHalfWords(h: nat, b: nat, r: nat, a: nat, w: nat, c: nat) returns (r': nat, c': nat)
    requires IsMachine(h, b) && r < b && a < b && w < b && c < b
    ensures r' < b && c' < b && c' * b + r' == r + a * w + c
  {
    MulAddFits(b, r, a, w, c);
    var l, hw := MulSplit(h, b, a, w);
    r', c' := AddTwoWords(b, l, c, r, hw, r + a * w + c);
  }

  /** mul_add in the selected form. */
  method MulAdd(form: Form, h: nat, b: nat, r: nat, a: nat, w: nat, c: nat) returns (r': nat, c': nat)
    requires IsMachine(h, b) && r < b && a < b && w < b && c < b
    ensures r' < b && c' < b && c' * b + r' == r + a * w + c
  {
    match form {
      case DoubleWidth => r', c' := MulAddDoubleWidth(b, r, a, w, c);
      case LoHi => r', c' := MulAddLoHi(b, r, a, w, c);
      case High => r', c' := MulAddHigh(b, r, a, w, c);
      case HalfWords => r', c' := MulAddHalfWords(h, b, r, a, w, c);
    }
  }

  /** mul(r,a,w,c) with a type of twice the word width. */
  method MulDoubleWidth(b: nat, a: nat, w: nat, c: nat) returns (r': nat, c': nat)
    requires b >= 1 && a < b && w < b && c < b
    ensures r' < b && c' < b && c' * b + r' == a * w + c
  {
    MulAddFits(b, 0, a, w, c);
    Positive(b, b);
    SmallMod(b * b, a * w + c);
    var t := (w * a + c) % (b * b);
    SplitWord(b, t);
    r' := Word(b, t);
    c' := Word(b, t / b);
    SmallMod(b, t / b);
  }

  /** The additions of mul after the product. */
  method AddOneWord(b: nat, x: nat, y: nat, high: nat, ghost t: nat) returns (low': nat, high': nat)
    requires x < b && y < b && high < b
    requires high * b + x + y == t < b * b
    ensures low' < b && high' < b && high' * b + low' == t
  {
    var s, k := AddCarry(b, x, y);
    CarriesSum(b, high, k, 0, s, s, x, y, 0, t);
    CarriesFit(b, high, k, 0, s);
    high' := high;
    if k == 1 { high' := Word(b, high' + 1); }
    low' := s;
  }

  /** mul(r,a,w,c) with an instruction that yields both words of a product. */
  method MulLoHi(b: nat, a: nat, w: nat, c: nat) returns (r': nat, c': nat)
    requires b >= 1 && a < b && w < b && c < b
    ensures r' < b && c' < b && c' * b + r' == a * w + c
  {
    MulAddFits(b, 0, a, w, c);
    var low, high := UMultLoHi(b, w, a);
    r', c' := AddOneWord(b, c, low, high, a * w + c);
  }

  /** mul(r,a,w,c) with an instruction for the high word only. */
  method MulHigh(b: nat, a: nat, w: nat, c: nat) returns (r': nat, c': nat)
    requires b >= 1 && a < b && w < b && c < b
    ensures r' < b && c' < b && c' * b + r' == a * w + c
  {
    MulAddFits(b, 0, a, w, c);
    var high, low := UMultHighLow(b, w, a);
    r', c' := AddOneWord(b, c, low, high, a * w + c);
  }

  /** mul(r,a,bl,bh,c), where bl and bh are the halves of w. */
  method MulHalfWords(h: nat, b: nat, a: nat, w: nat, c: nat) returns (r': nat, c': nat)
    requires IsMachine(h, b) && a < b && w < b && c < b
    ensures r' < b && c' < b && c' * b + r' == a * w + c
  {
    MulAddFits(b, 0, a, w, c);
    var l, hw := MulSplit(h, b, a, w);
    r', c' := AddOneWord(b, l, c, hw, a * w + c);
  }

  /** mul in the selected form. */
  method Mul(form: Form, h: nat, b: nat, a: nat, w: nat, c: nat) returns (r': nat, c': nat)
    requires IsMachine(h, b) && a < b && w < b && c < b
    ensures r' < b && c' < b && c' * b + r' == a * w + c
  {
    match form {
      case DoubleWidth => r', c' := MulDoubleWidth(b, a, w, c);
      case LoHi => r', c' := MulLoHi(b, a, w, c);
      case High => r', c' := MulHigh(b, a, w, c);
      case HalfWords => r', c' := MulHalfWords(h, b, a, w, c);
    }
  }

  /** sqr(r0,r1,a) in the selected form; the half-word form is sqr64. */
  method Sqr(form: Form, h: nat, b: nat, a: nat) returns (r0: nat, r1: nat)
    requires IsMachine(h, b) && a < b
    ensures r0 < b && r1 < b && r1 * b + r0 == a * a
  {
    match form {
      case DoubleWidth =>
        HalfProduct(b, a, a);
        SplitWord(b, a * a);
        SmallMod(b * b, a * a);
        var t := (a * a) % (b * b);
        r0, r1 := Word(b, t), Word(b, t / b);
        SmallMod(b, t / b);
      case LoHi => r0, r1 := UMultLoHi(b, a, a);
      case High => r1, r0 := UMultHighLow(b, a, a);
      case HalfWords => r0, r1 := Sqr64(h, b, a);
    }
  }

  /** Any two forms of mul_add leave the same r and c, the quotient and the remainder of
      r + a*w + c by the word base. */
  method MulAddFormsAgree(f: Form, g: Form, h: nat, b: nat, r: nat, a: nat, w: nat, c: nat)
    returns (r1: nat, c1: nat, r2: nat, c2: nat)
    requires IsMachine(h, b) && r < b && a < b && w < b && c < b
    ensures r1 == r2 == (r + a * w + c) % b && c1 == c2 == (r + a * w + c) / b
  {
    r1, c1 := MulAdd(f, h, b, r, a, w, c);
    r2, c2 := MulAdd(g, h, b, r, a, w, c);
    TwoWordsAre(b, r1, c1, r + a * w + c);
    TwoWordsAre(b, r2, c2, r + a * w + c);
  }

  /** The same for mul. */
  method MulFormsAgree(f: Form, g: Form, h: nat, b: nat, a: nat, w: nat, c: nat)
    returns (r1: nat, c1: nat, r2: nat, c2: nat)
    requires IsMachine(h, b) && a < b && w < b && c < b
    ensures r1 == r2 == (a * w + c) % b && c1 == c2 == (a * w + c) / b
  {
    r1, c1 := Mul(f, h, b, a, w, c);
    r2, c2 := Mul(g, h, b, a, w, c);
    TwoWordsAre(b, r1, c1, a * w + c);
    TwoWordsAre(b, r2, c2, a * w + c);
  }

  // ---------- bn_mul_add_words ----------

  /** The number stored in words, the least significant first. */
  function Value(b: nat, ws: seq<nat>): nat
  {
    if ws == [] then 0 else ws[0] + b * Value(b, ws[1..])
  }

  lemma {:induction false} ValueSnoc(b: nat, ws: seq<nat>, w: nat)
    ensures Value(b, ws + [w]) == Value(b, ws) + w * Power(b, |ws|)
  {
    if ws == [] {
    } else {
      assert (ws + [w])[1..] == ws[1..] + [w];
      ValueSnoc(b, ws[1..], w);
      var v, p := Value(b, ws[1..]), Power(b, |ws| - 1);
      Assoc3(w, b, p);
      Assoc3(b, w, p);
      assert b * (v + w * p) == b * v + b * (w * p);
      assert w * b == b * w;
    }
  }

  lemma ChainStep(b: nat, p: nat, before: nat, after: nat, av: nat, w: nat,
                  c: nat, r: nat, a: nat, r': nat, c': nat)
    requires c' * b + r' == r + a * w + c
    requires after + c * p == before + w * av
    ensures (after + r' * p) + c' * (b * p) == (before + r * p) + w * (av + a * p)
  {
    assert (c' * b + r') * p == c' * (b * p) + r' * p by { Assoc3(c', b, p); }
    assert (r + a * w + c) * p == r * p + w * (a * p) + c * p by { Assoc3(w, a, p); }
    assert w * (av + a * p) == w * av + w * (a * p);
  }

  ghost predicate Words(b: nat, ws: seq<nat>) { forall i :: 0 <= i < |ws| ==> ws[i] < b }

  /** bn_mul_add_words(rp, ap, num, w): adds w times the num words of ap to those of rp, the
      carry of each word going into the next, and returns the carry out of the last word.
      rp and ap may be the same array. */
  method MulAddWords(form: Form, h: nat, b: nat, rp: array<nat>, ap: array<nat>, num: nat, w: nat)
    returns (carry: nat)
    requires IsMachine(h, b) && w < b
    requires num <= rp.Length && num <= ap.Length
    requires Words(b, rp[..num]) && Words(b, ap[..num])
    modifies rp
    ensures carry < b && Words(b, rp[..num])
    ensures Value(b, rp[..num]) + carry * Power(b, num)
         == old(Value(b, rp[..num])) + w * old(Value(b, ap[..num]))
    ensures rp[num..] == old(rp[num..])
  {
    carry := 0;
    ghost var r0, a0 := rp[..num], ap[..num];
    for i := 0 to num
      invariant carry < b
      invariant forall j :: i <= j < num ==> rp[j] == r0[j] && ap[j] == a0[j]
      invariant forall j :: 0 <= j < i ==> rp[j] < b
      invariant Value(b, rp[..i]) + carry * Power(b, i) == Value(b, r0[..i]) + w * Value(b, a0[..i])
      invariant rp[num..] == old(rp[num..])
    {
      ghost var done, c := rp[..i], carry;
      assert r0[i] < b && a0[i] < b;
      var r, c' := MulAdd(form, h, b, rp[i], ap[i], w, carry);
      rp[i] := r;
      carry := c';
      assert rp[..i] == done;
      Extend(b, r0, i);
      Extend(b, a0, i);
      Extend(b, rp[..], i);
      assert rp[..][..i] == done && rp[..][..i + 1] == rp[..i + 1];
      ChainStep(b, Power(b, i), Value(b, r0[..i]), Value(b, done), Value(b, a0[..i]), w,
                c, r0[i], a0[i], r, c');
    }
    assert r0[..num] == r0 && a0[..num] == a0;
  }

  lemma Extend(b: nat, ws: seq<nat>, i: nat)
    requires i < |ws|
    ensures Value(b, ws[..i + 1]) == Value(b, ws[..i]) + ws[i] * Power(b, i)
  {
    ValueSnoc(b, ws[..i], ws[i]);
    assert ws[..i + 1] == ws[..i] + [ws[i]];
  }
}
