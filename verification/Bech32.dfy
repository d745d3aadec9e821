/**
  The Bech32 checksum of frontend-web/compute-js/src/index.js: the int32 routine `polymod` and, beside it, what it is
  meant to compute, division by the generator polynomial over the field with 32 elements.
 */
module Bech32 {
  import opened LinearCode

  type Symbol = bv5

  // ----- The field with 32 elements: polynomials over GF(2) modulo x^5 + x^3 + 1 -----

  // the coefficient that leaves x^4 comes back at x^3 and at 1
  function TimesX(a: Symbol): Symbol {
    (a << 1) ^ (a >> 4) ^ ((a >> 4) << 3)
  }

  /** a times the polynomial whose coefficients are the low k bits of g */
  function MultiplyLow(a: Symbol, g: Symbol, k: nat): Symbol
    decreases k, a, g
  {
    if k == 0 then 0
    else if g & 1 == 1 then a ^ MultiplyLow(TimesX(a), g >> 1, k - 1)
    else MultiplyLow(TimesX(a), g >> 1, k - 1)
  }

  function Multiply(a: Symbol, g: Symbol): Symbol {
    MultiplyLow(a, g, 5)
  }

  // x^6 + 29x^5 + 22x^4 + 20x^3 + 21x^2 + 29x + 18, section "Checksum" of BIP-173
  const GENERATOR: seq<Symbol> := [29, 22, 20, 21, 29, 18]

  const BCH: Code<Symbol> := Code(6, 0, (a, b) => a ^ b, (i, a) => if i < 6 then Multiply(a, GENERATOR[i]) else 0)

  lemma {:induction false} XorInterchange(a: Symbol, b: Symbol, x: Symbol, y: Symbol)
    ensures (a ^ b) ^ (x ^ y) == (a ^ x) ^ (b ^ y)
  {
  }

  lemma {:induction false} TimesXAdds(a: Symbol, b: Symbol)
    ensures TimesX(a ^ b) == TimesX(a) ^ TimesX(b)
  {
  }

  lemma {:induction false} MultiplyLowAdds(a: Symbol, b: Symbol, g: Symbol, k: nat)
    ensures MultiplyLow(a ^ b, g, k) == MultiplyLow(a, g, k) ^ MultiplyLow(b, g, k)
    decreases k
  {
    if k > 0 {
      hide TimesX;
      TimesXAdds(a, b);
      MultiplyLowAdds(TimesX(a), TimesX(b), g >> 1, k - 1);
      XorInterchange(a, b, MultiplyLow(TimesX(a), g >> 1, k - 1), MultiplyLow(TimesX(b), g >> 1, k - 1));
    }
  }

  lemma {:induction false} MultiplyAdds(a: Symbol, b: Symbol, g: Symbol)
    ensures Multiply(a ^ b, g) == Multiply(a, g) ^ Multiply(b, g)
  {
    MultiplyLowAdds(a, b, g, 5);
  }

  function When(b: bool, a: Symbol): Symbol {
    if b then a else 0
  }

  lemma {:induction false} MultiplyLowStep(a: Symbol, g: Symbol, k: nat)
    ensures MultiplyLow(a, g, k + 1) == When(g & 1 == 1, a) ^ MultiplyLow(TimesX(a), g >> 1, k)
    ensures k == 0 ==> MultiplyLow(a, g, k + 1) == When(g & 1 == 1, a)
  {
  }

  /** Two steps of a multiplication at once, with the rest left as it is */
  lemma {:induction false} TwoSteps(a: Symbol, b: Symbol, c: Symbol, g: Symbol, k: nat)
    requires b == TimesX(a) && c == TimesX(b)
    ensures MultiplyLow(a, g, k + 2) == When(g & 1 == 1, a) ^ (When((g >> 1) & 1 == 1, b) ^ MultiplyLow(c, g >> 2, k))
  {
    MultiplyLowStep(a, g, k + 1);
    MultiplyLowStep(b, g >> 1, k);
    assert g >> 1 >> 1 == g >> 2;
  }

  /** Multiplication written out: x^i times a for every coefficient i of g. */
  lemma {:induction false} MultiplyWrittenOut(a: Symbol, g: Symbol, a1: Symbol, a2: Symbol, a3: Symbol, a4: Symbol)
    requires a1 == TimesX(a) && a2 == TimesX(a1) && a3 == TimesX(a2) && a4 == TimesX(a3)
    ensures Multiply(a, g) == When(g & 1 == 1, a) ^ (When((g >> 1) & 1 == 1, a1) ^ (When((g >> 2) & 1 == 1, a2)
                                ^ (When((g >> 3) & 1 == 1, a3) ^ When((g >> 4) & 1 == 1, a4))))
  {
    TwoSteps(a, a1, a2, g, 3);
    TwoSteps(a2, a3, a4, g >> 2, 1);
    MultiplyLowStep(a4, g >> 4, 0);
    assert g >> 2 >> 2 == g >> 4 && g >> 2 >> 1 == g >> 3;
  }

  lemma {:induction false} MultiplyBy(a: Symbol, g: Symbol)
    ensures Multiply(a, g) ==
            When(g & 1 == 1, a) ^ (When((g >> 1) & 1 == 1, TimesX(a))
            ^ (When((g >> 2) & 1 == 1, TimesX(TimesX(a))) ^ (When((g >> 3) & 1 == 1, TimesX(TimesX(TimesX(a))))
            ^ When((g >> 4) & 1 == 1, TimesX(TimesX(TimesX(TimesX(a))))))))
  {
    MultiplyWrittenOut(a, g, TimesX(a), TimesX(TimesX(a)), TimesX(TimesX(TimesX(a))),
                       TimesX(TimesX(TimesX(TimesX(a)))));
  }

  lemma {:induction false} NoZeroDivisor18(a: Symbol)
    ensures Multiply(a, 18) == 0 ==> a == 0
  {
    MultiplyBy(a, 18);
  }

  lemma {:induction false} BchTapsAdd(i: nat, a: Symbol, b: Symbol)
    requires i < 6
    ensures BCH.tap(i, a ^ b) == BCH.tap(i, a) ^ BCH.tap(i, b)
  {
    MultiplyAdds(a, b, GENERATOR[i]);
  }

  lemma {:induction false} LastTapKernel(a: Symbol)
    ensures BCH.tap(5, a) == 0 ==> a == 0
  {
    NoZeroDivisor18(a);
  }

  lemma {:induction false} BchInterchanges()
    ensures Interchanges(BCH)
  {
    forall a, b, x, y ensures BCH.add(BCH.add(a, b), BCH.add(x, y)) == BCH.add(BCH.add(a, x), BCH.add(b, y)) {
      XorInterchange(a, b, x, y);
    }
  }

  lemma {:induction false} BchTapsAdditive()
    ensures TapsAdditive(BCH)
  {
    forall i, a, b | 0 <= i < 6 ensures BCH.tap(i, BCH.add(a, b)) == BCH.add(BCH.tap(i, a), BCH.tap(i, b)) {
      BchTapsAdd(i, a, b);
    }
  }

  lemma {:induction false} BchLastTapInjective()
    ensures LastTapInjective(BCH)
  {
    forall a ensures BCH.tap(5, a) == BCH.zero ==> a == BCH.zero { LastTapKernel(a); }
  }

  lemma {:induction false} BchIsLinear()
    ensures Linear(BCH)
  {
    BchInterchanges();
    BchTapsAdditive();
    BchLastTapInjective();
  }

  // ----- The register as one 30-bit word -----

  /** The word that holds a register of six symbols, first symbol highest */
  function Pack(r: seq<Symbol>): bv32
    requires |r| == 6
  {
    PackOf(r[0], r[1], r[2], r[3], r[4], r[5])
  }

  function PackOf(a: Symbol, b: Symbol, c: Symbol, d: Symbol, e: Symbol, f: Symbol): bv32 {
    (a as bv32 << 25) | (b as bv32 << 20) | (c as bv32 << 15) | (d as bv32 << 10) | (e as bv32 << 5) | f as bv32
  }

  lemma {:induction false} PackOfRange(a: Symbol, b: Symbol, c: Symbol, d: Symbol, e: Symbol, f: Symbol)
    ensures PackOf(a, b, c, d, e, f) < 0x4000_0000
    ensures PackOf(a, b, c, d, e, f) >> 25 == a as bv32
  {
  }

  lemma {:induction false} PackRange(r: seq<Symbol>)
    requires |r| == 6
    ensures Pack(r) < 0x4000_0000
    ensures Pack(r) >> 25 == r[0] as bv32
  {
    PackOfRange(r[0], r[1], r[2], r[3], r[4], r[5]);
  }

  /** Addition of packed words, named so that proofs about sums need not look at the bits */
  function Plus(a: bv32, b: bv32): bv32 {
    a ^ b
  }

  lemma {:induction false} PlusAssociates(a: bv32, b: bv32, c: bv32)
    ensures Plus(Plus(a, b), c) == Plus(a, Plus(b, c))
  {
  }

  lemma {:induction false} PlusZero(a: bv32)
    ensures Plus(a, 0) == a
  {
  }

  lemma {:induction false} PackAdd(r: seq<Symbol>, q: seq<Symbol>)
    requires |r| == |q| == 6
    ensures Pack(Add(BCH, r, q)) == Plus(Pack(r), Pack(q))
  {
  }

  lemma {:induction false} PackOfShift(a: Symbol, b: Symbol, c: Symbol, d: Symbol, e: Symbol, f: Symbol, v: Symbol)
    ensures ((PackOf(a, b, c, d, e, f) & 0x1ffffff) << 5) ^ v as bv32 == PackOf(b, c, d, e, f, v)
  {
  }

  lemma {:induction false} PackShift(r: seq<Symbol>, v: Symbol)
    requires |r| == 6
    ensures ((Pack(r) & 0x1ffffff) << 5) ^ v as bv32 == Pack(r[1..] + [v])
  {
    PackOfShift(r[0], r[1], r[2], r[3], r[4], r[5], v);
  }

  /** Six times the symbol that leaves the register: what the generator puts back */
  function TapWord(s: Symbol): (r: seq<Symbol>)
    ensures |r| == 6
  {
    seq(6, i requires 0 <= i < 6 => BCH.tap(i, s))
  }

  lemma {:induction false} TapWordAdds(a: Symbol, b: Symbol)
    ensures TapWord(a ^ b) == Add(BCH, TapWord(a), TapWord(b))
  {
    forall i | 0 <= i < 6 ensures TapWord(a ^ b)[i] == BCH.add(TapWord(a)[i], TapWord(b)[i]) {
      BchTapsAdd(i, a, b);
    }
  }

  lemma {:induction false} PackTapsAdd(a: Symbol, b: Symbol)
    ensures Pack(TapWord(a ^ b)) == Plus(Pack(TapWord(a)), Pack(TapWord(b)))
  {
    hide *;
    TapWordAdds(a, b);
    PackAdd(TapWord(a), TapWord(b));
  }

  // GEN of the source: 2^i times the generator, packed
  const GEN: seq<bv32> := [0x3b6a57b2, 0x26508e6d, 0x1ea119fa, 0x3d4233dd, 0x2a1462b3]

  lemma {:induction false} Products(s: Symbol)
    ensures s == 1 ==> TapWord(s) == [29, 22, 20, 21, 29, 18]
    ensures s == 2 ==> TapWord(s) == [19, 5, 1, 3, 19, 13]
    ensures s == 4 ==> TapWord(s) == [15, 10, 2, 6, 15, 26]
    ensures s == 8 ==> TapWord(s) == [30, 20, 4, 12, 30, 29]
    ensures s == 16 ==> TapWord(s) == [21, 1, 8, 24, 21, 19]
  {
    MultiplyBy(s, 29);
    MultiplyBy(s, 22);
    MultiplyBy(s, 20);
    MultiplyBy(s, 21);
    MultiplyBy(s, 18);
  }

  lemma {:induction false} GenIsPackedGenerator()
    ensures GEN[0] == Pack(TapWord(1)) && GEN[1] == Pack(TapWord(2)) && GEN[2] == Pack(TapWord(4))
    ensures GEN[3] == Pack(TapWord(8)) && GEN[4] == Pack(TapWord(16))
  {
    Products(1);
    Products(2);
    Products(4);
    Products(8);
    Products(16);
  }

  // ----- polymod: the int32 routine -----

  /** The test of the inner loop's kth turn */
  predicate Selected(top: bv32, k: nat)
    requires k < 5
  {
    (top >> k) & 1 == 1
  }

  /** What the inner loop's kth turn adds */
  function Turn(top: bv32, k: nat): bv32
    requires k < 5
  {
    if Selected(top, k) then GEN[k] else 0
  }

  /** What the first k turns of the inner loop add up to, for the symbol that was shifted out */
  function TurnSum(top: bv32, k: nat): bv32
    requires k <= 5
    decreases k, top
  {
    if k == 0 then 0 else Plus(TurnSum(top, k - 1), Turn(top, k - 1))
  }

  lemma {:induction false} NoTurns(top: bv32)
    ensures TurnSum(top, 0) == 0
  {
  }

  lemma {:induction false} TurnSumStep(top: bv32, k: nat)
    requires k < 5
    ensures TurnSum(top, k + 1) == Plus(TurnSum(top, k), Turn(top, k))
  {
    hide Turn, Plus;
  }

  /** One turn of the inner loop, whose conditional xor leaves chk alone when the bit is not set */
  lemma {:induction false} TurnAdds(base: bv32, top: bv32, k: nat, chk: bv32)
    requires k < 5 && chk == Plus(base, TurnSum(top, k))
    ensures (if Selected(top, k) then Plus(chk, GEN[k]) else chk) == Plus(base, TurnSum(top, k + 1))
  {
    hide Selected, TurnSum, Plus;
    TurnSumStep(top, k);
    PlusAssociates(base, TurnSum(top, k), Turn(top, k));
    PlusZero(chk);
  }

  lemma {:induction false} TapsOfZero()
    ensures Pack(TapWord(0)) == 0
  {
    MultiplyBy(0, 29);
    MultiplyBy(0, 22);
    MultiplyBy(0, 20);
    MultiplyBy(0, 21);
    MultiplyBy(0, 18);
    assert TapWord(0) == [0, 0, 0, 0, 0, 0];
  }

  lemma {:induction false} SymbolBits(s: Symbol)
    ensures 0 ^ (s & 1) == s & 1 && (s & 1) ^ (s & 2) == s & 3 && (s & 3) ^ (s & 4) == s & 7
    ensures (s & 7) ^ (s & 8) == s & 15 && (s & 15) ^ (s & 16) == s
    ensures s & 1 != 0 ==> s & 1 == 1
    ensures s & 2 != 0 ==> s & 2 == 2
    ensures s & 4 != 0 ==> s & 4 == 4
    ensures s & 8 != 0 ==> s & 8 == 8
    ensures s & 16 != 0 ==> s & 16 == 16
  {
  }

  lemma {:induction false} TopBits(s: Symbol, top: bv32)
    requires top == s as bv32
    ensures Selected(top, 0) == (s & 1 != 0) && Selected(top, 1) == (s & 2 != 0) && Selected(top, 2) == (s & 4 != 0)
    ensures Selected(top, 3) == (s & 8 != 0) && Selected(top, 4) == (s & 16 != 0)
  {
  }

  function PackedTaps(s: Symbol): bv32 {
    Pack(TapWord(s))
  }

  lemma {:induction false} PackedTapsAdd(a: Symbol, b: Symbol)
    ensures PackedTaps(a ^ b) == Plus(PackedTaps(a), PackedTaps(b))
  {
    hide Pack, TapWord, Plus;
    PackTapsAdd(a, b);
  }

  lemma {:induction false} TurnOff(low: Symbol, bit: Symbol)
    requires bit == 0
    ensures low ^ bit == low
  {
  }

  /** One turn of the inner loop moves one more bit of the symbol into the sum. */
  lemma {:induction false} SumTurn(top: bv32, k: nat, low: Symbol, bit: Symbol)
    requires k < 5 && TurnSum(top, k) == PackedTaps(low)
    requires Selected(top, k) <==> bit != 0
    requires bit != 0 ==> GEN[k] == PackedTaps(bit)
    ensures TurnSum(top, k + 1) == PackedTaps(low ^ bit)
  {
    hide Selected, TurnSum, Plus, PackedTaps;
    TurnSumStep(top, k);
    PackedTapsAdd(low, bit);
    if bit == 0 {
      TurnOff(low, bit);
      PlusZero(TurnSum(top, k));
    }
  }

  lemma {:induction false} SumIsTaps(s: Symbol, top: bv32)
    requires top == s as bv32 && PackedTaps(0) == TurnSum(top, 0)
    requires GEN[0] == PackedTaps(1) && GEN[1] == PackedTaps(2) && GEN[2] == PackedTaps(4)
    requires GEN[3] == PackedTaps(8) && GEN[4] == PackedTaps(16)
    ensures TurnSum(top, 5) == PackedTaps(s)
  {
    hide *;
    SymbolBits(s);
    TopBits(s, top);
    SumTurn(top, 0, 0, s & 1);
    SumTurn(top, 1, s & 1, s & 2);
    SumTurn(top, 2, s & 3, s & 4);
    SumTurn(top, 3, s & 7, s & 8);
    SumTurn(top, 4, s & 15, s & 16);
  }

  /** The five conditional xors with GEN add the symbol that left the register, times the generator. */
  lemma {:induction false} FeedbackIsProduct(s: Symbol)
    ensures TurnSum(s as bv32, 5) == PackedTaps(s)
  {
    GenIsPackedGenerator();
    TapsOfZero();
    NoTurns(s as bv32);
    SumIsTaps(s, s as bv32);
  }

  lemma {:induction false} FeedIsShiftPlusTaps(r: seq<Symbol>, v: Symbol)
    requires |r| == 6
    ensures Feed(BCH, r, v) == Add(BCH, r[1..] + [v], TapWord(r[0]))
  {
    forall i | 0 <= i < 6 ensures Feed(BCH, r, v)[i] == BCH.add((r[1..] + [v])[i], TapWord(r[0])[i]) {
      assert (r[1..] + [v])[i] == Incoming(r, v, i);
    }
  }

  lemma {:induction false} PackFeed(r: seq<Symbol>, v: Symbol)
    requires |r| == 6
    ensures Pack(Feed(BCH, r, v)) == Plus(Pack(r[1..] + [v]), PackedTaps(r[0]))
  {
    hide Feed, TapWord, Pack, Incoming;
    FeedIsShiftPlusTaps(r, v);
    PackAdd(r[1..] + [v], TapWord(r[0]));
  }

  /** chk after one turn of the outer loop */
  function Turned(chk: bv32, v: Symbol): bv32 {
    Plus(((chk & 0x1ffffff) << 5) ^ v as bv32, TurnSum(chk >> 25, 5))
  }

  lemma {:induction false} TurnedIs(chk: bv32, v: Symbol, base: bv32, s: Symbol)
    requires ((chk & 0x1ffffff) << 5) ^ v as bv32 == base && chk >> 25 == s as bv32
    ensures Turned(chk, v) == Plus(base, PackedTaps(s))
  {
    hide TurnSum, PackedTaps, Plus;
    FeedbackIsProduct(s);
  }

  lemma {:induction false} ShiftedWord(r: seq<Symbol>, v: Symbol, w: bv32, base: bv32)
    requires |r| == 6 && w == Pack(r) && base == Pack(r[1..] + [v])
    ensures w >> 25 == r[0] as bv32 && ((w & 0x1ffffff) << 5) ^ v as bv32 == base
  {
    PackRange(r);
    PackShift(r, v);
  }

  lemma {:induction false} FedWord(r: seq<Symbol>, v: Symbol, w: bv32, base: bv32)
    requires |r| == 6 && base == Pack(r[1..] + [v]) && w == Plus(base, PackedTaps(r[0]))
    ensures w == Pack(Feed(BCH, r, v))
  {
    hide *;
    PackFeed(r, v);
  }

  /** One turn of the outer loop is one step of the division. */
  lemma {:induction false} WordStep(r: seq<Symbol>, v: Symbol, w: bv32, base: bv32)
    requires |r| == 6 && w == Pack(r) && base == Pack(r[1..] + [v])
    ensures Turned(w, v) == Pack(Feed(BCH, r, v))
  {
    hide *;
    ShiftedWord(r, v, w, base);
    TurnedIs(w, v, base, r[0]);
    FedWord(r, v, Turned(w, v), base);
  }

  // The register before anything is fed, and after a valid code word: the word 1
  const START: seq<Symbol> := [0, 0, 0, 0, 0, 1]

  lemma {:induction false} StartWord()
    ensures Pack(START) == 1
  {
  }

  /** The remainder register after these symbols */
  function Remainder(values: seq<Symbol>): (r: seq<Symbol>)
    ensures |r| == 6
  {
    Absorb(BCH, START, values)
  }

  lemma {:induction false} RemainderStep(values: seq<Symbol>, k: nat, chk: bv32)
    requires k < |values| && chk == Pack(Remainder(values[..k]))
    ensures Turned(chk, values[k]) == Pack(Remainder(values[..k + 1]))
  {
    var r, v := Remainder(values[..k]), values[k];
    assert values[..k + 1] == values[..k] + [v];
    assert Remainder(values[..k + 1]) == Feed(BCH, r, v) by {
      AbsorbAppend(BCH, START, values[..k], [v]);
    }
    hide *;
    WordStep(r, v, chk, Pack(r[1..] + [v]));
  }

  lemma {:induction false} NothingFed(values: seq<Symbol>)
    ensures Pack(Remainder(values[..0])) == 1
  {
    StartWord();
  }

  lemma {:induction false} ShiftBelow(chk: bv32, v: Symbol)
    ensures ((chk & 0x1ffffff) << 5) ^ v as bv32 < 0x4000_0000
  {
  }

  lemma {:induction false} TurnBelow(chk: bv32, i: nat)
    requires i < 5 && chk < 0x4000_0000
    ensures chk ^ GEN[i] < 0x4000_0000
  {
    assert GEN[i] < 0x4000_0000;
  }

  /** No word on the way reaches 2^30, so JavaScript's signed operators and the unsigned ones here agree on all of
      them. */
  method Polymod(values: seq<Symbol>) returns (chk: bv32)
    ensures chk == Pack(Remainder(values)) && chk < 0x4000_0000
  {
    hide Pack, Remainder, TurnSum;
    chk := 1;
    NothingFed(values);
    for k := 0 to |values|
      invariant chk == Pack(Remainder(values[..k])) && chk < 0x4000_0000
    {
      var v := values[k];
      RemainderStep(values, k, chk);
      ShiftBelow(chk, v);
      var top := chk >> 25;
      chk := ((chk & 0x1ffffff) << 5) ^ v as bv32;
      ghost var base := chk;
      NoTurns(top);
      PlusZero(base);
      for i := 0 to 5
        invariant chk == Plus(base, TurnSum(top, i)) && chk < 0x4000_0000
      {
        TurnAdds(base, top, i, chk);
        TurnBelow(chk, i);
        if (top >> i) & 1 == 1 {
          chk := chk ^ GEN[i];
        }
      }
    }
    assert values[..|values|] == values;
  }

  lemma {:induction false} PackOfUnpack(a: Symbol, b: Symbol, c: Symbol, d: Symbol, e: Symbol, f: Symbol, w: bv32)
    requires w == PackOf(a, b, c, d, e, f)
    ensures (w >> 25) & 31 == a as bv32 && (w >> 20) & 31 == b as bv32 && (w >> 15) & 31 == c as bv32
    ensures (w >> 10) & 31 == d as bv32 && (w >> 5) & 31 == e as bv32 && (w >> 0) & 31 == f as bv32
  {
  }

  /** The five bits of w that start at this place */
  function FiveBits(w: bv32, place: nat): bv32
    requires place < 32
  {
    (w >> place) & 31
  }

  lemma {:induction false} PackedPlaces(w: bv32)
    ensures FiveBits(w, 25) == (w >> 25) & 31 && FiveBits(w, 20) == (w >> 20) & 31 && FiveBits(w, 15) == (w >> 15) & 31
    ensures FiveBits(w, 10) == (w >> 10) & 31 && FiveBits(w, 5) == (w >> 5) & 31 && FiveBits(w, 0) == (w >> 0) & 31
  {
  }

  lemma {:induction false} UnpackAll(r: seq<Symbol>, w: bv32)
    requires |r| == 6 && w == Pack(r)
    ensures FiveBits(w, 25) == r[0] as bv32 && FiveBits(w, 20) == r[1] as bv32 && FiveBits(w, 15) == r[2] as bv32
    ensures FiveBits(w, 10) == r[3] as bv32 && FiveBits(w, 5) == r[4] as bv32 && FiveBits(w, 0) == r[5] as bv32
  {
    hide FiveBits, PackOf;
    PackOfUnpack(r[0], r[1], r[2], r[3], r[4], r[5], w);
    PackedPlaces(w);
  }

  lemma {:induction false} Unpack(r: seq<Symbol>, w: bv32, i: nat, place: nat)
    requires |r| == 6 && i < 6 && w == Pack(r) && place == 5 * (5 - i)
    ensures FiveBits(w, place) == r[i] as bv32
  {
    hide *;
    UnpackAll(r, w);
    if i == 0 {} else if i == 1 {} else if i == 2 {} else if i == 3 {} else if i == 4 {} else {}
  }

  /** The six symbols that complete data to a valid code word */
  function Checksum(data: seq<Symbol>): (t: seq<Symbol>)
    ensures |t| == 6
  {
    Tail(BCH, Remainder(data), START)
  }

  lemma {:induction false} ChecksumWord(data: seq<Symbol>)
    ensures Pack(Checksum(data)) == Pack(Remainder(data + [0, 0, 0, 0, 0, 0])) ^ 1
  {
    assert [0, 0, 0, 0, 0, 0] == Zeros(BCH, 6);
    AbsorbAppend(BCH, START, data, Zeros(BCH, 6));
    PackAdd(Remainder(data + [0, 0, 0, 0, 0, 0]), START);
    StartWord();
  }

  method SymbolsOf(word: bv32, ghost r: seq<Symbol>) returns (result: seq<Symbol>)
    requires |r| == 6 && word == Pack(r)
    ensures result == r
  {
    result := [];
    for i := 0 to 6
      invariant result == r[..i]
    {
      Unpack(r, word, i, 5 * (5 - i));
      result := result + [FiveBits(word, 5 * (5 - i)) as Symbol];
    }
  }

  method CreateChecksum(data: seq<Symbol>) returns (result: seq<Symbol>)
    ensures result == Checksum(data)
  {
    var values := data + [0, 0, 0, 0, 0, 0];
    var chk := Polymod(values);
    ChecksumWord(data);
    result := SymbolsOf(chk ^ 1, Checksum(data));
  }

  // ----- What the checksum detects -----

  predicate Valid(values: seq<Symbol>) {
    Remainder(values) == START
  }

  /** Exactly one tail of six symbols completes data to a valid code word, and it is the one the source computes. */
  lemma {:induction false} ChecksumIsUnique(data: seq<Symbol>, t: seq<Symbol>)
    requires |t| == 6
    ensures Valid(data + t) <==> t == Checksum(data)
  {
    BchIsLinear();
    AbsorbAppend(BCH, START, data, t);
    TailIsUnique(BCH, Remainder(data), START, t);
  }

  /** Whatever is changed inside a window of six symbols, in code words of any length, is noticed. */
  lemma {:induction false} BurstDetected(xs: seq<Symbol>, ys: seq<Symbol>, lo: nat, hi: nat)
    requires lo <= hi <= |xs| == |ys| && hi - lo <= 6 && AgreeOutside(xs, ys, lo, hi)
    requires Valid(xs)
    ensures Valid(ys) <==> xs == ys
  {
    BchIsLinear();
    BurstChangesRegister(BCH, START, xs, ys, lo, hi);
  }

  /** Swapping two neighbours is noticed unless they are equal. */
  lemma {:induction false} SwapDetected(xs: seq<Symbol>, i: nat)
    requires i + 1 < |xs| && Valid(xs)
    ensures Valid(xs[i := xs[i + 1]][i + 1 := xs[i]]) <==> xs[i] == xs[i + 1]
  {
    var ys := xs[i := xs[i + 1]][i + 1 := xs[i]];
    BurstDetected(xs, ys, i, i + 2);
    assert ys[i] == xs[i + 1];
  }

  /** Windows of seven symbols are too wide: at every place of every valid code word there is a change that nobody
      notices. */
  lemma {:induction false} SevenSymbolsEscape(xs: seq<Symbol>, lo: nat) returns (ys: seq<Symbol>)
    requires lo + 7 <= |xs| && Valid(xs)
    ensures |ys| == |xs| && AgreeOutside(xs, ys, lo, lo + 7) && xs != ys && Valid(ys)
  {
    hide Linear, Add, AgreeOutside, UnnoticedAt, Absorb;
    BchIsLinear();
    ys := Add(BCH, xs, UnnoticedAt(BCH, lo, 1, |xs| - lo - 7));
    LongerBurstEscapes(BCH, START, xs, lo, 1);
  }

  /** A symbol slipped in before the last one goes unnoticed exactly when it is zero and that last symbol is one. */
  lemma {:induction false} InsertionDetected(ys: seq<Symbol>, s: Symbol, v: Symbol)
    requires Valid(ys + [v])
    ensures Valid(ys + [s] + [v]) <==> s == 0 && v == 1
  {
    hide Multiply;
    BchIsLinear();
    var m := Remainder(ys);
    AbsorbAppend(BCH, START, ys, [v]);
    AbsorbAppend(BCH, START, ys, [s]);
    AbsorbAppend(BCH, START, ys + [s], [v]);
    LastSymbol(m, v, s);
    var n := Feed(BCH, m, s);
    FeedZero(BCH, n, v);
    assert Remainder(ys + [s] + [v]) == n[1..] + [v];
    assert n[1..] + [v] == [0, 0, 0, 0, (v ^ 1) ^ s, v];
    XorOne(v, s);
  }

  lemma {:induction false} XorOne(v: Symbol, s: Symbol)
    ensures (v ^ 1) ^ s == 0 && v == 1 <==> s == 0 && v == 1
  {
  }

  lemma {:induction false} OnlyLastDiffers(m: seq<Symbol>, v: Symbol, s: Symbol, i: nat)
    requires |m| == 6 && i < 5
    ensures Feed(BCH, m, s)[i] == Feed(BCH, m, v)[i]
  {
    hide Multiply;
    assert Incoming(m, v, i) == Incoming(m, s, i);
  }

  lemma {:induction false} LastFed(m: seq<Symbol>, v: Symbol)
    requires |m| == 6
    ensures Feed(BCH, m, v)[5] == v ^ BCH.tap(5, m[0])
  {
    hide Multiply;
  }

  /** A register that v leads back to START is led by s to v + 1 + s alone. */
  lemma {:induction false} LastSymbol(m: seq<Symbol>, v: Symbol, s: Symbol)
    requires |m| == 6 && Feed(BCH, m, v) == START
    ensures Feed(BCH, m, s) == [0, 0, 0, 0, 0, (v ^ 1) ^ s]
  {
    hide Multiply, Feed;
    OnlyLastDiffers(m, v, s, 0);
    OnlyLastDiffers(m, v, s, 1);
    OnlyLastDiffers(m, v, s, 2);
    OnlyLastDiffers(m, v, s, 3);
    OnlyLastDiffers(m, v, s, 4);
    LastFed(m, v);
    LastFed(m, s);
    Isolate(v, s, BCH.tap(5, m[0]));
  }

  lemma {:induction false} Isolate(v: Symbol, s: Symbol, t: Symbol)
    requires v ^ t == 1
    ensures s ^ t == (v ^ 1) ^ s
  {
  }

  // ----- The human-readable part -----

  function HighBits(c: bv8): Symbol {
    (c >> 5) as Symbol
  }

  function LowBits(c: bv8): Symbol {
    (c & 31) as Symbol
  }

  /** hrpExpand, of a prefix given by its character codes below 256 */
  function Expanded(hrp: seq<bv8>): (r: seq<Symbol>)
    ensures |r| == 2 * |hrp| + 1
  {
    seq(|hrp|, i requires 0 <= i < |hrp| => HighBits(hrp[i])) + [0] +
    seq(|hrp|, i requires 0 <= i < |hrp| => LowBits(hrp[i]))
  }

  /** The three high bits of each character, a zero, and the five low bits of each */
  lemma {:induction false} ExpandedParts(hrp: seq<bv8>)
    ensures var r, n := Expanded(hrp), |hrp|;
            && r[n] == 0
            && forall i | 0 <= i < n :: r[i] as int == hrp[i] as int / 32 && r[n + 1 + i] as int == hrp[i] as int % 32
  {
    hide HighBits, LowBits;
    forall i | 0 <= i < |hrp|
      ensures Expanded(hrp)[i] as int == hrp[i] as int / 32
      ensures Expanded(hrp)[|hrp| + 1 + i] as int == hrp[i] as int % 32
    {
      CodeParts(hrp[i]);
    }
  }

  lemma {:induction false} CodeParts(c: bv8)
    ensures HighBits(c) as int == c as int / 32 && LowBits(c) as int == c as int % 32
  {
  }

  method HrpExpand(hrp: seq<bv8>) returns (result: seq<Symbol>)
    ensures result == Expanded(hrp) && |result| == 2 * |hrp| + 1 && result[|hrp|] == 0
    ensures forall i | 0 <= i < |hrp| ::
              result[i] as int == hrp[i] as int / 32 && result[|hrp| + 1 + i] as int == hrp[i] as int % 32
  {
    ExpandedParts(hrp);
    hide HighBits, LowBits;
    result := [];
    for i := 0 to |hrp|
      invariant |result| == i && forall k | 0 <= k < i :: result[k] == HighBits(hrp[k])
    {
      result := result + [HighBits(hrp[i])];
    }
    result := result + [0];
    for i := 0 to |hrp|
      invariant |result| == |hrp| + 1 + i && result[|hrp|] == 0
      invariant forall k | 0 <= k < |hrp| :: result[k] == HighBits(hrp[k])
      invariant forall k | 0 <= k < i :: result[|hrp| + 1 + k] == LowBits(hrp[k])
    {
      result := result + [LowBits(hrp[i])];
    }
  }

  lemma {:induction false} CodeFromParts(a: bv8, b: bv8)
    requires HighBits(a) == HighBits(b) && LowBits(a) == LowBits(b)
    ensures a == b
  {
  }

  /** Different prefixes are checksummed differently. */
  lemma {:induction false} ExpandedInjective(p: seq<bv8>, q: seq<bv8>)
    ensures Expanded(p) == Expanded(q) <==> p == q
  {
    if Expanded(p) == Expanded(q) {
      assert |p| == |q|;
      forall i | 0 <= i < |p| ensures p[i] == q[i] {
        assert Expanded(p)[i] == Expanded(q)[i];
        assert Expanded(p)[|p| + 1 + i] == Expanded(q)[|q| + 1 + i];
        CodeFromParts(p[i], q[i]);
      }
    }
  }
}
