/**
  JavaScript's bitwise operators on numbers: an operand is reduced to a signed 32-bit integer, `<<` wraps around,
  `>>` rounds towards minus infinity, and `|` and `&` work on the two's-complement bits.
 */
module JsInt32 {

  type Int32 = x: int | -0x8000_0000 <= x < 0x8000_0000

  function Pow2(n: nat): (p: nat)
    ensures p > 0
  {
    if n == 0 then 1 else 2 * Pow2(n - 1)
  }

  function ToInt32(x: int): Int32 {
    (x + 0x8000_0000) % 0x1_0000_0000 - 0x8000_0000
  }

  /** x << n for a shift count below 32 */
  function Shl(x: int, n: nat): Int32
    requires n < 32
  {
    ToInt32(ToInt32(x) * Pow2(n))
  }

  /** x >> n for a shift count below 32: the sign is kept, so this is division rounding down */
  function Sar(x: int, n: nat): int
    requires n < 32
  {
    ToInt32(x) / Pow2(n)
  }

  /** x | y when everything above the low k bits is sign */
  function OrBits(x: int, y: int, k: nat): int
    decreases k, x, y
  {
    if k == 0 then (if x < 0 || y < 0 then -1 else 0)
    else (if x % 2 == 1 || y % 2 == 1 then 1 else 0) + 2 * OrBits(x / 2, y / 2, k - 1)
  }

  /** x & y when everything above the low k bits is sign */
  function AndBits(x: int, y: int, k: nat): int
    decreases k, x, y
  {
    if k == 0 then (if x < 0 && y < 0 then -1 else 0)
    else (if x % 2 == 1 && y % 2 == 1 then 1 else 0) + 2 * AndBits(x / 2, y / 2, k - 1)
  }

  function Or(x: int, y: int): int {
    OrBits(ToInt32(x), ToInt32(y), 31)
  }

  function And(x: int, y: int): int {
    AndBits(ToInt32(x), ToInt32(y), 31)
  }

  // ----- Powers of two -----

  lemma {:induction false} Pow2Values()
    ensures Pow2(5) == 32 && Pow2(8) == 256 && Pow2(31) == 0x8000_0000 && Pow2(32) == 0x1_0000_0000
  {
    assert Pow2(5) == 32;
    assert Pow2(10) == 32 * Pow2(5) by {
      assert Pow2(10) == 2 * Pow2(9) && Pow2(9) == 2 * Pow2(8) && Pow2(8) == 2 * Pow2(7) && Pow2(7) == 2 * Pow2(6);
    }
    Pow2Sum(10, 10);
    Pow2Sum(20, 10);
    Pow2Sum(30, 1);
    assert Pow2(8) == 2 * Pow2(7) && Pow2(7) == 2 * Pow2(6);
  }

  lemma {:induction false} DoubleProduct(a: int, b: int)
    ensures (2 * a) * b == 2 * (a * b)
  {
  }

  lemma {:induction false} Pow2Sum(m: nat, n: nat)
    ensures Pow2(m + n) == Pow2(m) * Pow2(n)
  {
    if m > 0 {
      Pow2Sum(m - 1, n);
      DoubleProduct(Pow2(m - 1), Pow2(n));
    }
  }

  lemma {:induction false} Pow2Monotone(m: nat, n: nat)
    requires m <= n
    ensures Pow2(m) <= Pow2(n)
    decreases n
  {
    if m < n { Pow2Monotone(m, n - 1); }
  }

  lemma {:induction false} ProductAtLeast(a: int, d: int)
    requires a >= 1 && d > 0
    ensures a * d >= d
  {
  }

  lemma {:induction false} SameQuotient(d: int, q: int, r: int, q': int, r': int)
    requires d > 0 && q * d + r == q' * d + r' && 0 <= r < d && 0 <= r' < d
    ensures q == q' && r == r'
  {
    if q > q' {
      ProductAtLeast(q - q', d);
    } else if q < q' {
      ProductAtLeast(q' - q, d);
    }
  }

  /** Division and remainder are determined by the sum they give back. */
  lemma {:induction false} DivisionIsUnique(x: int, d: int, q: int, r: int)
    requires d > 0 && x == q * d + r && 0 <= r < d
    ensures x / d == q && x % d == r
  {
    SameQuotient(d, q, r, x / d, x % d);
  }

  lemma {:induction false} ProductBounds(r: int, d: int, c: int, s: int)
    requires 0 <= r < d && 0 <= s < c
    ensures 0 <= r * c + s < c * d
  {
    if r + 1 < d { ProductAtLeast(d - r - 1, c); }
    assert (d - r - 1) * c == c * d - r * c - c;
    if r > 0 { ProductAtLeast(r, c); }
  }

  lemma {:induction false} Regroup(q: int, d: int, r: int, c: int, s: int)
    ensures (q * d + r) * c + s == q * (c * d) + (r * c + s)
  {
    assert (q * d + r) * c == q * d * c + r * c;
  }

  lemma {:induction false} DivDiv(x: int, c: int, d: int)
    requires c > 0 && d > 0
    ensures c * d > 0 && x / (c * d) == x / c / d
    ensures x % (c * d) == (x / c) % d * c + x % c
  {
    var q, s := x / c, x % c;
    var q', r := q / d, q % d;
    ProductBounds(r, d, c, s);
    Regroup(q', d, r, c, s);
    DivisionIsUnique(x, c * d, q', r * c + s);
  }

  // ----- What the operators compute -----

  lemma {:induction false} OrOfDisjoint(x: int, y: int, n: nat, k: nat)
    requires n <= k && x % Pow2(n) == 0 && 0 <= y < Pow2(n)
    requires 0 - Pow2(k) <= x < Pow2(k)
    ensures OrBits(x, y, k) == x + y
    decreases k
  {
    if k == 0 {
    } else if n == 0 {
      OrOfDisjoint(x / 2, 0, 0, k - 1);
    } else {
      DivDiv(x, 2, Pow2(n - 1));
      OrOfDisjoint(x / 2, y / 2, n - 1, k - 1);
    }
  }

  lemma {:induction false} Pow2Step(n: nat)
    ensures Pow2(n) == if n == 0 then 1 else 2 * Pow2(n - 1)
  {
  }

  lemma {:induction false} AndBitsStep(x: int, y: int, k: nat)
    ensures AndBits(x, y, k) ==
            if k == 0 then (if x < 0 && y < 0 then -1 else 0)
            else (if x % 2 == 1 && y % 2 == 1 then 1 else 0) + 2 * AndBits(x / 2, y / 2, k - 1)
  {
  }

  lemma {:induction false} AndWithMask(x: int, n: nat, k: nat)
    requires n <= k
    ensures AndBits(x, Pow2(n) - 1, k) == x % Pow2(n)
    decreases k
  {
    hide AndBits, Pow2;
    AndBitsStep(x, Pow2(n) - 1, k);
    if k == 0 {
      Pow2Step(0);
    } else if n == 0 {
      Pow2Step(0);
      AndWithMask(x / 2, 0, k - 1);
    } else {
      Pow2Step(n);
      AndWithMask(x / 2, n - 1, k - 1);
      DivDiv(x, 2, Pow2(n - 1));
    }
  }

  // ----- Wrapping around -----

  lemma {:induction false} WrapShift(v: int, m: int)
    ensures ToInt32(v + m * 0x1_0000_0000) == ToInt32(v)
  {
    var x := v + 0x8000_0000;
    DivisionIsUnique(x + m * 0x1_0000_0000, 0x1_0000_0000, x / 0x1_0000_0000 + m, x % 0x1_0000_0000);
  }

  /** How far a number is from its wrap, in units of 2^32 */
  function Turns(v: int): (m: int)
    ensures ToInt32(v) == v + m * 0x1_0000_0000
  {
    -((v + 0x8000_0000) / 0x1_0000_0000)
  }

  lemma {:induction false} Factor(k: int, p: int, q: int, c: int)
    ensures k * p + q * (p * c) == (k + q * c) * p
  {
    assert q * (p * c) == (q * c) * p;
  }

  lemma {:induction false} WrapOfMultiple(k: int, p: int, c: int)
    requires p > 0 && p * c == 0x1_0000_0000
    ensures ToInt32(k * p) % p == 0
  {
    var q := Turns(k * p);
    Factor(k, p, q, c);
    DivisionIsUnique(ToInt32(k * p), p, k + q * c, 0);
  }

  lemma {:induction false} WrapOfProduct(v: int, p: int)
    ensures ToInt32(ToInt32(v) * p) == ToInt32(v * p)
  {
    var q := Turns(v);
    assert ToInt32(v) * p == v * p + (q * p) * 0x1_0000_0000 by {
      assert (v + q * 0x1_0000_0000) * p == v * p + q * 0x1_0000_0000 * p;
    }
    WrapShift(v * p, q * p);
  }

  lemma {:induction false} ProductMonotone(j: int, k: int, p: int)
    requires j <= k && p >= 0
    ensures j * p <= k * p
  {
    assert (k - j) * p >= 0;
  }

  lemma {:induction false} MultipleBelow(k: int, p: int, c: int)
    requires p > 0 && k * p < c * p
    ensures k * p + p <= c * p
  {
    if c <= k {
      ProductMonotone(c, k, p);
    } else {
      ProductMonotone(k + 1, c, p);
    }
  }

  lemma {:induction false} WrapAdd(x: int, p: int, c: int, d: int)
    requires p > 0 && p * c == 0x8000_0000 && ToInt32(x) % p == 0 && 0 <= d < p
    ensures ToInt32(x + d) == ToInt32(x) + d
  {
    var w := ToInt32(x);
    MultipleBelow(w / p, p, c);
    var y := x + 0x8000_0000;
    DivisionIsUnique(y + d, 0x1_0000_0000, y / 0x1_0000_0000, y % 0x1_0000_0000 + d);
  }

  lemma {:induction false} Fits(x: int)
    requires -0x8000_0000 <= x < 0x8000_0000
    ensures ToInt32(x) == x
  {
  }

  lemma {:induction false} SplitWord(n: nat)
    requires n <= 31
    ensures Pow2(n) * Pow2(32 - n) == 0x1_0000_0000 && Pow2(n) * Pow2(31 - n) == 0x8000_0000
    ensures Pow2(n) <= 0x8000_0000
  {
    Pow2Values();
    Pow2Sum(n, 32 - n);
    Pow2Sum(n, 31 - n);
    Pow2Monotone(n, 31);
  }

  lemma {:induction false} ShlWraps(v: int, n: nat)
    requires n <= 31
    ensures Shl(ToInt32(v), n) == ToInt32(v * Pow2(n))
    ensures ToInt32(v * Pow2(n)) % Pow2(n) == 0
  {
    SplitWord(n);
    Fits(ToInt32(v));
    WrapOfProduct(v, Pow2(n));
    WrapOfMultiple(v, Pow2(n), Pow2(32 - n));
  }

  lemma {:induction false} OrAppends(w: Int32, n: nat, d: int)
    requires n <= 31 && w % Pow2(n) == 0 && 0 <= d < Pow2(n)
    ensures Or(w, d) == w + d
  {
    SplitWord(n);
    Fits(w);
    Fits(d);
    Pow2Values();
    OrOfDisjoint(w, d, n, 31);
  }

  /** Shifting a wrapped number and or-ing a digit in is the wrap of the unbounded step. */
  lemma {:induction false} AppendDigit(v: int, n: nat, d: int)
    requires n <= 31 && 0 <= d < Pow2(n)
    ensures Or(Shl(ToInt32(v), n), d) == ToInt32(v * Pow2(n) + d)
  {
    var x, p, c := v * Pow2(n), Pow2(n), Pow2(31 - n);
    ShlWraps(v, n);
    OrAppends(ToInt32(x), n, d);
    SplitWord(n);
    WrapAdd(x, p, c, d);
  }

  lemma {:induction false} QuotientShift(v: int, m: int, p: int, c: int)
    requires p > 0
    ensures (v + m * (p * c)) / p == v / p + m * c
  {
    assert m * (p * c) == (m * c) * p;
    assert (v / p + m * c) * p == v / p * p + (m * c) * p;
    DivisionIsUnique(v + m * (p * c), p, v / p + m * c, v % p);
  }

  lemma {:induction false} RemainderShift(u: int, m: int, w: int, c: int)
    requires w > 0
    ensures (u + m * (w * c)) % w == u % w
  {
    assert m * (w * c) == (m * c) * w;
    assert (u / w + m * c) * w == u / w * w + (m * c) * w;
    DivisionIsUnique(u + m * (w * c), w, u / w + m * c, u % w);
  }

  lemma {:induction false} QuotientInRange(x: Int32, p: int)
    requires p > 0
    ensures -0x8000_0000 <= x / p < 0x8000_0000
  {
    DivisionIsUnique(0, p, 0, 0);
    if x >= 0 {
      QuotientMonotone(0, x, p);
      QuotientAtMost(x, p);
    } else {
      QuotientMonotone(x, 0, p);
      QuotientAtLeast(x, p);
    }
  }

  lemma {:induction false} QuotientMonotone(x: int, y: int, p: int)
    requires p > 0 && x <= y
    ensures x / p <= y / p
  {
    if y / p + 1 <= x / p { ProductMonotone(y / p + 1, x / p, p); }
  }

  lemma {:induction false} QuotientAtMost(x: int, p: int)
    requires p > 0 && x >= 0
    ensures x / p <= x
  {
    if x / p > 0 { ProductMonotone(1, p, x / p); }
  }

  lemma {:induction false} QuotientAtLeast(x: int, p: int)
    requires p > 0 && x < 0
    ensures x / p >= x
  {
    ProductMonotone(1, p, -x);
    QuotientMonotone(x * p, x, p);
    DivisionIsUnique(x * p, p, x, 0);
  }

  lemma {:induction false} MaskedIsRemainder(s: Int32, width: nat)
    requires width <= 31
    ensures And(s, Pow2(width) - 1) == s % Pow2(width)
  {
    SplitWord(width);
    Fits(s);
    Fits(Pow2(width) - 1);
    AndWithMask(s, width, 31);
  }

  lemma {:induction false} WrapKeepsDigit(v: int, p: int, c: int, w: int, rest: int)
    requires p > 0 && w > 0 && p * c == 0x1_0000_0000 && w * rest == c
    ensures ToInt32(v) / p % w == v / p % w
  {
    var m := Turns(v);
    QuotientShift(v, m, p, c);
    RemainderShift(v / p, m, w, rest);
  }

  lemma {:induction false} SplitWordTwice(low: nat, width: nat)
    requires low + width <= 32
    ensures Pow2(low) * Pow2(32 - low) == 0x1_0000_0000
    ensures Pow2(width) * Pow2(32 - low - width) == Pow2(32 - low)
  {
    Pow2Values();
    Pow2Sum(low, 32 - low);
    Pow2Sum(width, 32 - low - width);
  }

  lemma {:induction false} ReadWord(x: Int32, low: nat, width: nat)
    requires low < 32 && width <= 31
    ensures And(Sar(x, low), Pow2(width) - 1) == x / Pow2(low) % Pow2(width)
  {
    Fits(x);
    QuotientInRange(x, Pow2(low));
    MaskedIsRemainder(x / Pow2(low), width);
  }

  /** A digit read from a wrapped number is that digit of the unbounded number. */
  lemma {:induction false} ReadDigit(v: int, low: nat, width: nat)
    requires low + width <= 32 && width <= 31 && low < 32
    ensures And(Sar(ToInt32(v), low), Pow2(width) - 1) == v / Pow2(low) % Pow2(width)
  {
    var p, c, w, rest := Pow2(low), Pow2(32 - low), Pow2(width), Pow2(32 - low - width);
    ReadWord(ToInt32(v), low, width);
    SplitWordTwice(low, width);
    WrapKeepsDigit(v, p, c, w, rest);
  }

  lemma {:induction false} MaskedDigit(x: int, width: nat)
    requires width <= 31
    ensures 0 <= And(x, Pow2(width) - 1) < Pow2(width)
  {
    Fits(ToInt32(x));
    MaskedIsRemainder(ToInt32(x), width);
  }

  lemma {:induction false} MaskValue(n: nat)
    requires n <= 30
    ensures Shl(1, n) == Pow2(n)
  {
    Pow2Monotone(n, 30);
    Pow2Values();
    assert Pow2(31) == 2 * Pow2(30);
    Fits(1);
    Fits(Pow2(n));
  }
}
