/**
  `convertBits` of frontend-web/compute-js/src/index.js: regrouping a stream of bits, with an int32 accumulator that is
  never masked and so wraps around on long inputs.
 */
module Regrouping {
  import opened JsInt32

  /** Every entry is a digit of the given width. */
  predicate Digits(ds: seq<int>, width: nat) {
    forall i | 0 <= i < |ds| :: 0 <= ds[i] < Pow2(width)
  }

  /** The number whose base-2^width digits, most significant first, are ds: the unbounded bit stream. */
  function Value(ds: seq<int>, width: nat): int {
    if ds == [] then 0 else Value(ds[..|ds| - 1], width) * Pow2(width) + ds[|ds| - 1]
  }

  /** The number of zero bits that complete the last digit */
  function Padding(bits: nat, width: nat): (p: nat)
    requires width > 0
    ensures p < width && (bits + p) % width == 0
  {
    var r := bits % width;
    if r == 0 then 0 else
      DivisionIsUnique(bits + width - r, width, bits / width + 1, 0);
      width - r
  }

  /** The number of digits: enough for all the bits when padding, and otherwise no digit that is not full. */
  predicate RightLength(count: nat, width: nat, bits: nat, pad: bool)
    requires width > 0
  {
    count * width == if pad then bits + Padding(bits, width) else bits - bits % width
  }

  /** result holds the bits of data in digits of another width: padded with zero bits, or without the bits that are left
      over. */
  ghost predicate Regroups(data: seq<int>, fromBits: nat, result: seq<int>, toBits: nat, pad: bool)
    requires toBits > 0
  {
    var bits := |data| * fromBits;
    && Digits(result, toBits)
    && RightLength(|result|, toBits, bits, pad)
    && Value(result, toBits) ==
         if pad then Value(data, fromBits) * Pow2(Padding(bits, toBits))
         else Value(data, fromBits) / Pow2(bits % toBits)
  }

  lemma {:induction false} ValueAppend(ds: seq<int>, width: nat, d: int)
    ensures Value(ds + [d], width) == Value(ds, width) * Pow2(width) + d
  {
    assert (ds + [d])[..|ds|] == ds;
  }

  /** Digits of one length are determined by their value. */
  lemma {:induction false} ValueInjective(xs: seq<int>, ys: seq<int>, width: nat)
    requires |xs| == |ys| && Digits(xs, width) && Digits(ys, width)
    requires Value(xs, width) == Value(ys, width)
    ensures xs == ys
  {
    if xs != [] {
      var n := |xs| - 1;
      SameQuotient(Pow2(width), Value(xs[..n], width), xs[n], Value(ys[..n], width), ys[n]);
      ValueInjective(xs[..n], ys[..n], width);
      assert xs == xs[..n] + [xs[n]] && ys == ys[..n] + [ys[n]];
    }
  }

  /** Taking one more digit from the top of the stream */
  lemma {:induction false} NextDigit(v: int, bits: nat, width: nat)
    requires width <= bits
    ensures v / Pow2(bits - width) == v / Pow2(bits) * Pow2(width) + v / Pow2(bits - width) % Pow2(width)
  {
    Pow2Sum(bits - width, width);
    DivDiv(v, Pow2(bits - width), Pow2(width));
  }

  /** Reading one more digit into the stream */
  lemma {:induction false} MoreBits(v: int, bits: nat, width: nat, d: int)
    requires 0 <= d < Pow2(width)
    ensures (v * Pow2(width) + d) / Pow2(bits + width) == v / Pow2(bits)
  {
    Pow2Sum(width, bits);
    DivDiv(v * Pow2(width) + d, Pow2(width), Pow2(bits));
    DivisionIsUnique(v * Pow2(width) + d, Pow2(width), v, d);
  }

  /** The digit that holds the last bits, moved up over the padding */
  lemma {:induction false} LastDigit(v: int, bits: nat, width: nat)
    requires 0 < bits < width <= 31
    ensures And(Shl(ToInt32(v), width - bits), Pow2(width) - 1) == v * Pow2(width - bits) % Pow2(width)
  {
    var x := v * Pow2(width - bits);
    ShlWraps(v, width - bits);
    ReadDigit(x, 0, width);
    Fits(ToInt32(x));
    DivisionIsUnique(ToInt32(x), 1, ToInt32(x), 0);
    DivisionIsUnique(x, 1, x, 0);
  }

  lemma {:induction false} SplitProduct(v: int, p: int, q: int, w: int)
    requires p > 0 && q > 0 && w == p * q
    ensures v * p == v / q * w + v * p % w
  {
    DivDiv(v * p, p, q);
    DivisionIsUnique(v * p, p, v, 0);
  }

  lemma {:induction false} PaddedStream(v: int, bits: nat, width: nat)
    requires bits <= width
    ensures v * Pow2(width - bits) == v / Pow2(bits) * Pow2(width) + v * Pow2(width - bits) % Pow2(width)
  {
    Pow2Sum(width - bits, bits);
    SplitProduct(v, Pow2(width - bits), Pow2(bits), Pow2(width));
  }

  /** The accumulator is the wrapped stream, and result holds the stream down to the last `bits` bits. */
  ghost predicate InStep(acc: int, v: int, bits: nat, result: seq<int>, width: nat) {
    acc == ToInt32(v) && Value(result, width) == v / Pow2(bits)
  }

  lemma {:induction false} ReadStep(acc: int, v: int, bits: nat, result: seq<int>, width: nat, fromBits: nat, d: int)
    requires InStep(acc, v, bits, result, width) && fromBits <= 31 && 0 <= d < Pow2(fromBits)
    ensures InStep(Or(Shl(acc, fromBits), d), v * Pow2(fromBits) + d, bits + fromBits, result, width)
  {
    AppendDigit(v, fromBits, d);
    MoreBits(v, bits, fromBits, d);
  }

  lemma {:induction false} EmittedDigit(v: int, bits: nat, width: nat)
    requires bits + width <= 32 && 0 < width <= 31
    ensures v / Pow2(bits) == v / Pow2(bits + width) * Pow2(width) + And(Sar(ToInt32(v), bits), Pow2(width) - 1)
  {
    ReadDigit(v, bits, width);
    NextDigit(v, bits + width, width);
  }

  lemma {:induction false} EmitStep(acc: int, v: int, bits: nat, result: seq<int>, width: nat)
    requires InStep(acc, v, bits + width, result, width) && bits + width <= 32 && 0 < width <= 31
    ensures InStep(acc, v, bits, result + [And(Sar(acc, bits), Pow2(width) - 1)], width)
  {
    var d := And(Sar(acc, bits), Pow2(width) - 1);
    EmittedDigit(v, bits, width);
    ValueAppend(result, width, d);
  }

  lemma {:induction false} PadStep(acc: int, v: int, bits: nat, result: seq<int>, width: nat)
    requires InStep(acc, v, bits, result, width) && 0 < bits < width <= 31
    ensures Value(result + [And(Shl(acc, width - bits), Pow2(width) - 1)], width) == v * Pow2(width - bits)
  {
    var d := And(Shl(acc, width - bits), Pow2(width) - 1);
    LastDigit(v, bits, width);
    PaddedStream(v, bits, width);
    ValueAppend(result, width, d);
  }

  /** n times width, counted up */
  function BitCount(n: nat, width: nat): nat {
    if n == 0 then 0 else BitCount(n - 1, width) + width
  }

  lemma {:induction false} BitCountIsProduct(n: nat, width: nat)
    ensures BitCount(n, width) == n * width
  {
    if n > 0 {
      BitCountIsProduct(n - 1, width);
      assert (n - 1) * width + width == n * width;
    }
  }

  /** What is left when the loop ends is a complete unpadded regrouping. */
  lemma {:induction false} Unpadded(acc: int, data: seq<int>, fromBits: nat, bits: nat, result: seq<int>, toBits: nat)
    requires bits < toBits && Digits(result, toBits)
    requires BitCount(|result|, toBits) + bits == BitCount(|data|, fromBits)
    ensures RightLength(|result|, toBits, |data| * fromBits, false) && bits == |data| * fromBits % toBits
    ensures InStep(acc, Value(data, fromBits), bits, result, toBits) ==> Regroups(data, fromBits, result, toBits, false)
  {
    BitCountIsProduct(|result|, toBits);
    BitCountIsProduct(|data|, fromBits);
    DivisionIsUnique(|data| * fromBits, toBits, |result|, bits);
  }

  lemma {:induction false} Padded(acc: int, data: seq<int>, fromBits: nat, bits: nat, result: seq<int>, toBits: nat,
                                  d: int)
    requires 0 < bits < toBits <= 31 && bits == |data| * fromBits % toBits
    requires RightLength(|result|, toBits, |data| * fromBits, false) && Digits(result, toBits)
    requires d == And(Shl(acc, toBits - bits), Pow2(toBits) - 1)
    ensures RightLength(|result + [d]|, toBits, |data| * fromBits, true) && Digits(result + [d], toBits)
    ensures InStep(acc, Value(data, fromBits), bits, result, toBits) ==>
              Regroups(data, fromBits, result + [d], toBits, true)
  {
    MaskedDigit(Shl(acc, toBits - bits), toBits);
    assert (|result| + 1) * toBits == |result| * toBits + toBits;
    if InStep(acc, Value(data, fromBits), bits, result, toBits) {
      PadStep(acc, Value(data, fromBits), bits, result, toBits);
    }
  }

  lemma {:induction false} NothingToPad(data: seq<int>, fromBits: nat, result: seq<int>, toBits: nat)
    requires toBits > 0 && |data| * fromBits % toBits == 0
    ensures RightLength(|result|, toBits, |data| * fromBits, false) ==>
              RightLength(|result|, toBits, |data| * fromBits, true)
    ensures Regroups(data, fromBits, result, toBits, false) ==> Regroups(data, fromBits, result, toBits, true)
  {
  }

  lemma {:induction false} Emit(acc: int, v: int, bits: nat, result: seq<int>, width: nat)
    requires bits + width <= 32 && 0 < width <= 31 && Digits(result, width)
    ensures var r := result + [And(Sar(acc, bits), Pow2(width) - 1)];
            && Digits(r, width) && BitCount(|r|, width) == BitCount(|result|, width) + width
            && (InStep(acc, v, bits + width, result, width) ==> InStep(acc, v, bits, r, width))
  {
    MaskedDigit(Sar(acc, bits), width);
    if InStep(acc, v, bits + width, result, width) { EmitStep(acc, v, bits, result, width); }
  }

  lemma {:induction false} Read(acc: int, data: seq<int>, k: nat, fromBits: nat, bits: nat, result: seq<int>,
                                width: nat)
    requires k < |data| && fromBits <= 31
    ensures BitCount(k + 1, fromBits) == BitCount(k, fromBits) + fromBits
    ensures Digits(data, fromBits) && InStep(acc, Value(data[..k], fromBits), bits, result, width) ==>
              InStep(Or(Shl(acc, fromBits), data[k]), Value(data[..k + 1], fromBits), bits + fromBits, result, width)
  {
    if Digits(data, fromBits) && InStep(acc, Value(data[..k], fromBits), bits, result, width) {
      ReadStep(acc, Value(data[..k], fromBits), bits, result, width, fromBits, data[k]);
      ValueAppend(data[..k], fromBits, data[k]);
      assert data[..k + 1] == data[..k] + [data[k]];
    }
  }

  method ConvertBits(data: seq<int>, fromBits: nat, toBits: nat, pad: bool) returns (result: seq<int>)
    requires 0 < fromBits && 0 < toBits && fromBits + toBits <= 31
    ensures Digits(result, toBits) && RightLength(|result|, toBits, |data| * fromBits, pad)
    ensures Digits(data, fromBits) ==> Regroups(data, fromBits, result, toBits, pad)
  {
    var acc, bits := 0, 0;
    result := [];
    var maxv := Shl(1, toBits) - 1;
    MaskValue(toBits);
    for k := 0 to |data|
      invariant 0 <= bits < toBits && Digits(result, toBits)
      invariant BitCount(|result|, toBits) + bits == BitCount(k, fromBits)
      invariant Digits(data, fromBits) ==> InStep(acc, Value(data[..k], fromBits), bits, result, toBits)
    {
      Read(acc, data, k, fromBits, bits, result, toBits);
      acc := Or(Shl(acc, fromBits), data[k]);
      bits := bits + fromBits;
      while bits >= toBits
        invariant 0 <= bits < toBits + fromBits && Digits(result, toBits)
        invariant BitCount(|result|, toBits) + bits == BitCount(k + 1, fromBits)
        invariant Digits(data, fromBits) ==> InStep(acc, Value(data[..k + 1], fromBits), bits, result, toBits)
      {
        bits := bits - toBits;
        Emit(acc, Value(data[..k + 1], fromBits), bits, result, toBits);
        result := result + [And(Sar(acc, bits), maxv)];
      }
    }
    assert data[..|data|] == data;
    Unpadded(acc, data, fromBits, bits, result, toBits);
    if pad && bits > 0 {
      Padded(acc, data, fromBits, bits, result, toBits, And(Shl(acc, toBits - bits), maxv));
      result := result + [And(Shl(acc, toBits - bits), maxv)];
    } else if pad {
      NothingToPad(data, fromBits, result, toBits);
    }
  }

  // ----- What regrouping keeps -----

  lemma {:induction false} CountsAgree(n: nat, bits: nat, p: nat, width: nat)
    requires 0 < width && p < width && bits == n * width + p
    ensures bits % width == p
    ensures forall m: nat :: m * width == bits - p ==> m == n
  {
    DivisionIsUnique(bits, width, n, p);
    forall m: nat | m * width == n * width ensures m == n { SameQuotient(width, m, 0, n, 0); }
  }

  lemma {:induction false} UndoShift(v: int, p: nat)
    ensures v * Pow2(p) / Pow2(p) == v
  {
    DivisionIsUnique(v * Pow2(p), Pow2(p), v, 0);
  }

  /** Regrouping into narrower digits with padding loses nothing: regrouping back without padding gives the input. */
  lemma {:induction false} RoundTrip(data: seq<int>, fromBits: nat, result: seq<int>, toBits: nat, back: seq<int>)
    requires 0 < toBits <= fromBits && Digits(data, fromBits)
    requires Regroups(data, fromBits, result, toBits, true)
    requires Regroups(result, toBits, back, fromBits, false)
    ensures back == data
  {
    var p := Padding(|data| * fromBits, toBits);
    CountsAgree(|data|, |result| * toBits, p, fromBits);
    UndoShift(Value(data, fromBits), p);
    ValueInjective(back, data, fromBits);
  }

  /** Nothing but the data determines the digits, and they determine it. */
  lemma {:induction false} RegroupsInjective(xs: seq<int>, ys: seq<int>, fromBits: nat, rx: seq<int>, ry: seq<int>,
                                             toBits: nat)
    requires 0 < toBits <= fromBits && Digits(xs, fromBits) && Digits(ys, fromBits)
    requires Regroups(xs, fromBits, rx, toBits, true) && Regroups(ys, fromBits, ry, toBits, true)
    ensures rx == ry <==> xs == ys
  {
    var px, py := Padding(|xs| * fromBits, toBits), Padding(|ys| * fromBits, toBits);
    CountsAgree(|xs|, |rx| * toBits, px, fromBits);
    CountsAgree(|ys|, |ry| * toBits, py, fromBits);
    if rx == ry {
      UndoShift(Value(xs, fromBits), px);
      UndoShift(Value(ys, fromBits), py);
      ValueInjective(xs, ys, fromBits);
    } else if xs == ys {
      SameQuotient(toBits, |rx|, 0, |ry|, 0);
      ValueInjective(rx, ry, toBits);
    }
  }
}
