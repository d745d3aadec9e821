/**
  Shift-register codes over any commutative group in which every element is its own inverse.

  The register holds one group element per tap.  Feeding a symbol shifts the register by one place, and adds to every
  place the tap applied to the element that was shifted out.  Over the field with 32 elements, with the taps that
  multiply by the coefficients of the Bech32 generator polynomial, this is polynomial division by that generator
  (section "Checksum" of BIP-173).  Everything here is proved for an arbitrary such code, so no proof looks inside a
  symbol.
 */
module LinearCode {

  datatype Code<!T> = Code(size: nat, zero: T, add: (T, T) -> T, tap: (nat, T) -> T)

  /** The laws the theorems rest on: addition is a commutative group of exponent two, taps are additive,
      and the last tap sends nothing but zero to zero. */
  ghost predicate Linear<T(!new)>(c: Code<T>) {
    c.size > 0 && Interchanges(c) && SelfInverse(c) && TapsAdditive(c) && LastTapInjective(c)
  }

  ghost predicate Interchanges<T(!new)>(c: Code<T>) {
    forall a, b, x, y {:trigger Quad(a, b, x, y)} :: Quad(a, b, x, y) ==>
      c.add(c.add(a, b), c.add(x, y)) == c.add(c.add(a, x), c.add(b, y))
  }

  ghost predicate SelfInverse<T(!new)>(c: Code<T>) {
    && (forall a :: c.add(a, c.zero) == a)
    && (forall a :: c.add(c.zero, a) == a)
    && (forall a :: c.add(a, a) == c.zero)
    && (forall a, b :: c.add(a, b) == c.zero ==> a == b)
  }

  ghost predicate TapsAdditive<T(!new)>(c: Code<T>) {
    forall i, a, b {:trigger c.tap(i, c.add(a, b))} | 0 <= i < c.size ::
      c.tap(i, c.add(a, b)) == c.add(c.tap(i, a), c.tap(i, b))
  }

  ghost predicate LastTapInjective<T(!new)>(c: Code<T>) {
    forall i, a {:trigger c.tap(i, a)} | i == c.size - 1 :: c.tap(i, a) == c.zero ==> a == c.zero
  }

  /** Always true: naming four elements is how a proof asks for the interchange law on them. */
  ghost predicate Quad<T>(a: T, b: T, x: T, y: T) {
    true
  }

  function Zeros<T>(c: Code<T>, n: nat): (z: seq<T>)
    ensures |z| == n
  {
    seq(n, i => c.zero)
  }

  function Add<T>(c: Code<T>, x: seq<T>, y: seq<T>): (z: seq<T>)
    requires |x| == |y|
    ensures |z| == |x|
  {
    seq(|x|, i requires 0 <= i < |x| => c.add(x[i], y[i]))
  }

  function Feed<T>(c: Code<T>, r: seq<T>, v: T): (q: seq<T>)
    requires |r| == c.size > 0
    ensures |q| == |r|
  {
    seq(|r|, i requires 0 <= i < |r| => c.add(Incoming(r, v, i), c.tap(i, r[0])))
  }

  function Absorb<T>(c: Code<T>, r: seq<T>, vs: seq<T>): (q: seq<T>)
    requires |r| == c.size > 0
    ensures |q| == |r|
    decreases |vs|
  {
    if vs == [] then r else Absorb(c, Feed(c, r, vs[0]), vs[1..])
  }

  lemma {:induction false} AbsorbAppend<T>(c: Code<T>, r: seq<T>, vs: seq<T>, ws: seq<T>)
    requires |r| == c.size > 0
    ensures Absorb(c, r, vs + ws) == Absorb(c, Absorb(c, r, vs), ws)
    decreases |vs|
  {
    if vs == [] {
      assert vs + ws == ws;
    } else {
      assert (vs + ws)[1..] == vs[1..] + ws;
      AbsorbAppend(c, Feed(c, r, vs[0]), vs[1..], ws);
    }
  }

  lemma {:induction false} InterchangeTap<T(!new)>(c: Code<T>, i: nat, a: T, b: T, x: T, y: T)
    requires Linear(c) && i < c.size
    ensures c.add(c.add(a, b), c.tap(i, c.add(x, y))) == c.add(c.add(a, c.tap(i, x)), c.add(b, c.tap(i, y)))
  {
    assert Quad(a, b, c.tap(i, x), c.tap(i, y));
  }

  /** What moves into place i of the register when v is fed. */
  function Incoming<T>(r: seq<T>, v: T, i: nat): T
    requires i < |r|
  {
    if i + 1 < |r| then r[i + 1] else v
  }

  lemma {:induction false} FeedAdd<T(!new)>(c: Code<T>, r: seq<T>, q: seq<T>, v: T, w: T)
    requires Linear(c) && |r| == |q| == c.size
    ensures Feed(c, Add(c, r, q), c.add(v, w)) == Add(c, Feed(c, r, v), Feed(c, q, w))
  {
    var sum := Add(c, r, q);
    assert sum[0] == c.add(r[0], q[0]);
    forall i | 0 <= i < |r|
      ensures c.add(Incoming(sum, c.add(v, w), i), c.tap(i, sum[0]))
           == c.add(c.add(Incoming(r, v, i), c.tap(i, r[0])), c.add(Incoming(q, w, i), c.tap(i, q[0])))
    {
      InterchangeTap(c, i, Incoming(r, v, i), Incoming(q, w, i), r[0], q[0]);
      assert Incoming(sum, c.add(v, w), i) == c.add(Incoming(r, v, i), Incoming(q, w, i));
    }
  }

  /** The register is a linear function of its start and of everything fed into it. */
  lemma {:induction false} AbsorbAdd<T(!new)>(c: Code<T>, r: seq<T>, q: seq<T>, vs: seq<T>, ws: seq<T>)
    requires Linear(c) && |r| == |q| == c.size && |vs| == |ws|
    ensures Absorb(c, Add(c, r, q), Add(c, vs, ws)) == Add(c, Absorb(c, r, vs), Absorb(c, q, ws))
    decreases |vs|
  {
    if vs != [] {
      FeedAdd(c, r, q, vs[0], ws[0]);
      assert Add(c, vs, ws)[1..] == Add(c, vs[1..], ws[1..]);
      AbsorbAdd(c, Feed(c, r, vs[0]), Feed(c, q, ws[0]), vs[1..], ws[1..]);
    }
  }

  lemma {:induction false} TapZero<T(!new)>(c: Code<T>, i: nat)
    requires Linear(c) && i < c.size
    ensures c.tap(i, c.zero) == c.zero
  {
    assert c.tap(i, c.add(c.zero, c.zero)) == c.add(c.tap(i, c.zero), c.tap(i, c.zero));
  }

  lemma {:induction false} FeedZero<T(!new)>(c: Code<T>, r: seq<T>, v: T)
    requires Linear(c) && |r| == c.size && r[0] == c.zero
    ensures Feed(c, r, v) == r[1..] + [v]
  {
    forall i | 0 <= i < c.size ensures c.tap(i, c.zero) == c.zero { TapZero(c, i); }
  }

  /** The register that has collected these symbols and nothing else. */
  function Held<T>(c: Code<T>, held: seq<T>): (r: seq<T>)
    requires |held| <= c.size
    ensures |r| == c.size
  {
    Zeros(c, c.size - |held|) + held
  }

  lemma {:induction false} FeedHeld<T(!new)>(c: Code<T>, held: seq<T>, v: T)
    requires Linear(c) && |held| < c.size
    ensures Feed(c, Held(c, held), v) == Held(c, held + [v])
  {
    FeedZero(c, Held(c, held), v);
    assert Zeros(c, c.size - |held|)[1..] == Zeros(c, c.size - |held| - 1);
  }

  /** A register of zeros simply collects the symbols while they fit. */
  lemma {:induction false} AbsorbFits<T(!new)>(c: Code<T>, held: seq<T>, vs: seq<T>)
    requires Linear(c) && |held| + |vs| <= c.size
    ensures Absorb(c, Held(c, held), vs) == Held(c, held + vs)
    decreases |vs|
  {
    hide Linear, Feed;
    if vs == [] {
      assert held + vs == held;
    } else {
      FeedHeld(c, held, vs[0]);
      AbsorbFits(c, held + [vs[0]], vs[1..]);
      assert held + [vs[0]] + vs[1..] == held + vs;
    }
  }

  lemma {:induction false} AbsorbFromZero<T(!new)>(c: Code<T>, vs: seq<T>)
    requires Linear(c) && |vs| <= c.size
    ensures Absorb(c, Zeros(c, c.size), vs) == Held(c, vs)
  {
    assert Held(c, []) == Zeros(c, c.size);
    AbsorbFits(c, [], vs);
    assert [] + vs == vs;
  }

  lemma {:induction false} HeldZeros<T(!new)>(c: Code<T>, vs: seq<T>)
    requires Linear(c) && |vs| <= c.size
    ensures Held(c, vs) == Zeros(c, c.size) <==> vs == Zeros(c, |vs|)
  {
    if Held(c, vs) == Zeros(c, c.size) {
      forall i | 0 <= i < |vs| ensures vs[i] == c.zero { assert Held(c, vs)[c.size - |vs| + i] == vs[i]; }
    }
  }

  lemma {:induction false} FeedZeroInjective<T(!new)>(c: Code<T>, r: seq<T>)
    requires Linear(c) && |r| == c.size
    requires Feed(c, r, c.zero) == Zeros(c, c.size)
    ensures r == Zeros(c, c.size)
  {
    var n := c.size;
    assert Feed(c, r, c.zero)[n - 1] == c.add(c.zero, c.tap(n - 1, r[0]));
    FeedZero(c, r, c.zero);
    forall i | 0 <= i < n ensures r[i] == c.zero {
      if i > 0 { assert (r[1..] + [c.zero])[i - 1] == r[i]; }
    }
  }

  /** Running out zeros never hides a non-zero register. */
  lemma {:induction false} ZerosInjective<T(!new)>(c: Code<T>, r: seq<T>, n: nat)
    requires Linear(c) && |r| == c.size
    ensures Absorb(c, r, Zeros(c, n)) == Zeros(c, c.size) <==> r == Zeros(c, c.size)
    decreases n
  {
    if n > 0 {
      assert Zeros(c, n)[1..] == Zeros(c, n - 1);
      ZerosInjective(c, Feed(c, r, c.zero), n - 1);
      if r == Zeros(c, c.size) {
        FeedZero(c, r, c.zero);
        assert r[1..] + [c.zero] == r;
      } else if Feed(c, r, c.zero) == Zeros(c, c.size) {
        FeedZeroInjective(c, r);
      }
    }
  }

  lemma {:induction false} AddZeros<T(!new)>(c: Code<T>, x: seq<T>)
    requires Linear(c)
    ensures Add(c, x, Zeros(c, |x|)) == x && Add(c, Zeros(c, |x|), x) == x
    ensures Add(c, x, x) == Zeros(c, |x|)
  {
  }

  lemma {:induction false} AddCancels<T(!new)>(c: Code<T>, x: seq<T>, y: seq<T>)
    requires Linear(c) && |x| == |y|
    ensures Add(c, x, y) == Zeros(c, |x|) <==> x == y
    ensures Add(c, x, Add(c, x, y)) == y
  {
    if Add(c, x, y) == Zeros(c, |x|) {
      forall i | 0 <= i < |x| ensures x[i] == y[i] { assert Add(c, x, y)[i] == c.zero; }
    }
    AddZeros(c, x);
    forall i | 0 <= i < |x| ensures c.add(x[i], c.add(x[i], y[i])) == y[i] {
      assert Quad(x[i], c.zero, x[i], y[i]);
      assert c.add(c.add(x[i], c.zero), c.add(x[i], y[i])) == c.add(c.add(x[i], x[i]), c.add(c.zero, y[i]));
    }
  }

  /** The remainder of an error pattern: what feeding it adds to the register, whatever was fed before. */
  function Syndrome<T>(c: Code<T>, e: seq<T>): (s: seq<T>)
    requires c.size > 0
    ensures |s| == c.size
  {
    Absorb(c, Zeros(c, c.size), e)
  }

  /** Two symbol strings of one length leave the same register exactly when their difference has syndrome zero. */
  lemma {:induction false} SameRegisterIffSyndromeZero<T(!new)>(c: Code<T>, start: seq<T>, xs: seq<T>, ys: seq<T>)
    requires Linear(c) && |start| == c.size && |xs| == |ys|
    ensures Absorb(c, start, xs) == Absorb(c, start, ys) <==> Syndrome(c, Add(c, xs, ys)) == Zeros(c, c.size)
  {
    AbsorbAdd(c, start, start, xs, ys);
    AddZeros(c, start);
    AddCancels(c, Absorb(c, start, xs), Absorb(c, start, ys));
  }

  /** A non-zero error pattern of at most size symbols, with any number of zeros before and after, has a non-zero
      syndrome. */
  lemma {:induction false} BurstSyndrome<T(!new)>(c: Code<T>, before: nat, burst: seq<T>, after: nat)
    requires Linear(c) && |burst| <= c.size
    ensures Syndrome(c, Zeros(c, before) + burst + Zeros(c, after)) == Zeros(c, c.size) <==> burst == Zeros(c, |burst|)
  {
    var z := Zeros(c, c.size);
    ZerosInjective(c, z, before);
    AbsorbAppend(c, z, Zeros(c, before), burst);
    AbsorbFromZero(c, burst);
    AbsorbAppend(c, z, Zeros(c, before) + burst, Zeros(c, after));
    ZerosInjective(c, Held(c, burst), after);
    HeldZeros(c, burst);
  }

  /** Feeding size symbols t after anything adds t to the register that size zeros would have left. */
  lemma {:induction false} AbsorbTail<T(!new)>(c: Code<T>, r: seq<T>, t: seq<T>)
    requires Linear(c) && |r| == c.size == |t|
    ensures Absorb(c, r, t) == Add(c, Absorb(c, r, Zeros(c, c.size)), t)
  {
    var z := Zeros(c, c.size);
    AddZeros(c, r);
    AddZeros(c, t);
    AbsorbAdd(c, r, z, z, t);
    AbsorbFromZero(c, t);
    assert Held(c, t) == t;
  }

  /** The size symbols that bring the register from r to the target. */
  function Tail<T>(c: Code<T>, r: seq<T>, target: seq<T>): (t: seq<T>)
    requires |r| == c.size == |target| > 0
    ensures |t| == c.size
  {
    Add(c, Absorb(c, r, Zeros(c, c.size)), target)
  }

  /** Tail reaches the target, and no other tail of that length does. */
  lemma {:induction false} TailIsUnique<T(!new)>(c: Code<T>, r: seq<T>, target: seq<T>, t: seq<T>)
    requires Linear(c) && |r| == c.size == |target| == |t|
    ensures Absorb(c, r, t) == target <==> t == Tail(c, r, target)
  {
    var m := Absorb(c, r, Zeros(c, c.size));
    AbsorbTail(c, r, t);
    AddCancels(c, m, target);
    AddCancels(c, m, t);
  }

  /** xs and ys agree everywhere outside the positions lo .. hi. */
  predicate AgreeOutside<T(==)>(xs: seq<T>, ys: seq<T>, lo: nat, hi: nat)
    requires lo <= hi <= |xs| == |ys|
  {
    xs[..lo] == ys[..lo] && xs[hi..] == ys[hi..]
  }

  /** A burst of at most size changed symbols always changes the register, wherever it sits. */
  lemma {:induction false} BurstChangesRegister<T(!new)>(c: Code<T>, start: seq<T>, xs: seq<T>, ys: seq<T>,
                                                         lo: nat, hi: nat)
    requires Linear(c) && |start| == c.size
    requires lo <= hi <= |xs| == |ys| && hi - lo <= c.size && AgreeOutside(xs, ys, lo, hi)
    ensures Absorb(c, start, xs) == Absorb(c, start, ys) <==> xs == ys
  {
    var e := Add(c, xs, ys);
    var burst := e[lo..hi];
    forall i | 0 <= i < |xs| && !(lo <= i < hi) ensures e[i] == c.zero {
      if i < lo { assert xs[..lo][i] == ys[..lo][i]; } else { assert xs[hi..][i - hi] == ys[hi..][i - hi]; }
    }
    assert e == Zeros(c, lo) + burst + Zeros(c, |xs| - hi);
    BurstSyndrome(c, lo, burst, |xs| - hi);
    SameRegisterIffSyndromeZero(c, start, xs, ys);
    AddCancels(c, xs, ys);
    if burst == Zeros(c, |burst|) {
      assert e == Zeros(c, |xs|);
    }
  }

  /** One symbol followed by its own tail: a pattern size + 1 long that no register notices. */
  function Unnoticed<T>(c: Code<T>, s: T): (e: seq<T>)
    requires c.size > 0
    ensures |e| == c.size + 1 && e[0] == s
  {
    [s] + Tail(c, Syndrome(c, [s]), Zeros(c, c.size))
  }

  /** That pattern inside a longer word of zeros */
  function UnnoticedAt<T>(c: Code<T>, before: nat, s: T, after: nat): (e: seq<T>)
    requires c.size > 0
    ensures |e| == before + c.size + 1 + after
  {
    Zeros(c, before) + Unnoticed(c, s) + Zeros(c, after)
  }

  lemma {:induction false} UnnoticedSyndrome<T(!new)>(c: Code<T>, before: nat, s: T, after: nat)
    requires Linear(c)
    ensures Syndrome(c, UnnoticedAt(c, before, s, after)) == Zeros(c, c.size)
  {
    var z := Zeros(c, c.size);
    var tail := Tail(c, Syndrome(c, [s]), z);
    ZerosInjective(c, z, before);
    AbsorbAppend(c, z, [s], tail);
    TailIsUnique(c, Syndrome(c, [s]), z, tail);
    AbsorbAppend(c, z, Zeros(c, before), Unnoticed(c, s));
    AbsorbAppend(c, z, Zeros(c, before) + Unnoticed(c, s), Zeros(c, after));
    ZerosInjective(c, z, after);
  }

  /** Adding zero changes nothing; adding something else does. */
  lemma {:induction false} AddChanges<T(!new)>(c: Code<T>, xs: seq<T>, e: seq<T>, i: nat)
    requires Linear(c) && i < |xs| == |e|
    ensures Add(c, xs, e)[i] == xs[i] <==> e[i] == c.zero
  {
    assert c.add(xs[i], c.zero) == xs[i];
    if c.add(xs[i], e[i]) == xs[i] {
      AddCancels(c, xs, e);
      assert Add(c, xs, Add(c, xs, e))[i] == c.add(xs[i], xs[i]);
    }
  }

  /** The bound size on the length of a burst cannot be raised: adding Unnoticed(s) anywhere leaves every register as it
      was. */
  lemma {:induction false} LongerBurstEscapes<T(!new)>(c: Code<T>, start: seq<T>, xs: seq<T>, lo: nat, s: T)
    requires Linear(c) && |start| == c.size && lo + c.size + 1 <= |xs| && s != c.zero
    ensures var ys := Add(c, xs, UnnoticedAt(c, lo, s, |xs| - lo - c.size - 1));
            && Absorb(c, start, xs) == Absorb(c, start, ys)
            && AgreeOutside(xs, ys, lo, lo + c.size + 1)
            && xs != ys
  {
    var e := UnnoticedAt(c, lo, s, |xs| - lo - c.size - 1);
    var ys := Add(c, xs, e);
    UnnoticedSyndrome(c, lo, s, |xs| - lo - c.size - 1);
    AddCancels(c, xs, e);
    SameRegisterIffSyndromeZero(c, start, xs, ys);
    forall i | 0 <= i < |xs| && !(lo <= i < lo + c.size + 1) ensures ys[i] == xs[i] {
      assert e[i] == c.zero;
      AddChanges(c, xs, e, i);
    }
    assert e[lo] == s;
    AddChanges(c, xs, e, lo);
  }
}
