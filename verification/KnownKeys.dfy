/**
  The examples of NIP-19 ("Bare keys and ids"): two public keys, as their 52 symbols of five bits, and their npubs.
  Between them they use every character of the Bech32 alphabet.
 */
module KnownKeys {
  import opened LinearCode
  import opened Bech32
  import opened Npub

  // ----- The checksum of a long word, some symbols at a time -----

  /** One round of the outer loop of polymod, written out */
  function Round(chk: bv32, v: Symbol): bv32 {
    var top := chk >> 25;
    Plus(Plus(Plus(Plus(Plus(((chk & 0x1ffffff) << 5) ^ v as bv32,
                             if top & 1 == 1 then 0x3b6a57b2 else 0),
                        if (top >> 1) & 1 == 1 then 0x26508e6d else 0),
                   if (top >> 2) & 1 == 1 then 0x1ea119fa else 0),
              if (top >> 3) & 1 == 1 then 0x3d4233dd else 0),
         if (top >> 4) & 1 == 1 then 0x2a1462b3 else 0)
  }

  lemma {:induction false} TurnsWritten(top: bv32, a: bv32, b: bv32, c: bv32, d: bv32, e: bv32)
    requires a == Turn(top, 0) && b == Turn(top, 1) && c == Turn(top, 2) && d == Turn(top, 3) && e == Turn(top, 4)
    ensures TurnSum(top, 5) == Plus(Plus(Plus(Plus(Plus(0, a), b), c), d), e)
  {
    hide Turn, TurnSum, Plus;
    NoTurns(top);
    TurnSumStep(top, 0);
    TurnSumStep(top, 1);
    TurnSumStep(top, 2);
    TurnSumStep(top, 3);
    TurnSumStep(top, 4);
  }

  lemma {:induction false} SumsAssociate(x: bv32, a: bv32, b: bv32, c: bv32, d: bv32, e: bv32)
    ensures Plus(Plus(Plus(Plus(Plus(x, a), b), c), d), e) == Plus(x, Plus(Plus(Plus(Plus(Plus(0, a), b), c), d), e))
  {
    hide Plus;
    PlusZero(x);
    var s1 := Plus(0, a);
    var s2 := Plus(s1, b);
    var s3 := Plus(s2, c);
    PlusAssociates(x, 0, a);
    PlusAssociates(x, s1, b);
    PlusAssociates(x, s2, c);
    PlusAssociates(x, s3, d);
    PlusAssociates(x, Plus(s3, d), e);
  }

  lemma {:induction false} TurnWritten(top: bv32)
    ensures Turn(top, 0) == if top & 1 == 1 then 0x3b6a57b2 else 0
    ensures Turn(top, 1) == if (top >> 1) & 1 == 1 then 0x26508e6d else 0
    ensures Turn(top, 2) == if (top >> 2) & 1 == 1 then 0x1ea119fa else 0
    ensures Turn(top, 3) == if (top >> 3) & 1 == 1 then 0x3d4233dd else 0
    ensures Turn(top, 4) == if (top >> 4) & 1 == 1 then 0x2a1462b3 else 0
  {
  }

  lemma {:induction false} RoundIsTurned(chk: bv32, v: Symbol)
    ensures Round(chk, v) == Turned(chk, v)
  {
    hide Turn, TurnSum, Plus;
    var top := chk >> 25;
    TurnWritten(top);
    var a, b, c, d, e := Turn(top, 0), Turn(top, 1), Turn(top, 2), Turn(top, 3), Turn(top, 4);
    TurnsWritten(top, a, b, c, d, e);
    SumsAssociate(((chk & 0x1ffffff) << 5) ^ v as bv32, a, b, c, d, e);
  }

  function Fed(chk: bv32, values: seq<Symbol>): bv32
    decreases |values|
  {
    if values == [] then chk else Fed(Round(chk, values[0]), values[1..])
  }

  lemma {:induction false} FedAppend(chk: bv32, xs: seq<Symbol>, ys: seq<Symbol>)
    ensures Fed(chk, xs + ys) == Fed(Fed(chk, xs), ys)
    decreases |xs|
  {
    hide Round;
    if xs == [] {
      assert xs + ys == ys;
    } else {
      FedAppend(Round(chk, xs[0]), xs[1..], ys);
      assert (xs + ys)[1..] == xs[1..] + ys;
    }
  }

  lemma {:induction false} FedIsAbsorbed(r: seq<Symbol>, values: seq<Symbol>)
    requires |r| == 6
    ensures Pack(Absorb(BCH, r, values)) == Fed(Pack(r), values)
    decreases |values|
  {
    hide Round, Pack, Feed;
    if values != [] {
      FedIsAbsorbed(Feed(BCH, r, values[0]), values[1..]);
      WordStep(r, values[0], Pack(r), Pack(r[1..] + [values[0]]));
      RoundIsTurned(Pack(r), values[0]);
    }
  }

  lemma {:induction false} OneIsStart(r: seq<Symbol>)
    requires |r| == 6 && Pack(r) == 1
    ensures r == START
  {
    UnpackAll(r, 1);
    hide Pack;
    OnlyOne(r[0], r[1], r[2], r[3], r[4], r[5]);
  }

  lemma {:induction false} OnlyOne(a: Symbol, b: Symbol, c: Symbol, d: Symbol, e: Symbol, f: Symbol)
    requires FiveBits(1, 25) == a as bv32 && FiveBits(1, 20) == b as bv32 && FiveBits(1, 15) == c as bv32
    requires FiveBits(1, 10) == d as bv32 && FiveBits(1, 5) == e as bv32 && FiveBits(1, 0) == f as bv32
    ensures a == b == c == d == e == 0 && f == 1
  {
  }

  // ----- The prefix -----

  /** The prefix that is fed to the checksum is the one that is written. */
  lemma {:induction false} PrefixIsNpub()
    ensures |HRP| == |"npub"| && forall i | 0 <= i < |HRP| :: HRP[i] as int == "npub"[i] as int
    ensures Expanded(HRP) == [3, 3, 3, 3, 0, 14, 16, 21, 2]
  {
    hide Expanded;
    ExpandedParts(HRP);
    CodesOf();
    var r := Expanded(HRP);
    SymbolIs(r[0], 3);
    SymbolIs(r[1], 3);
    SymbolIs(r[2], 3);
    SymbolIs(r[3], 3);
    SymbolIs(r[5], 14);
    SymbolIs(r[6], 16);
    SymbolIs(r[7], 21);
    SymbolIs(r[8], 2);
  }

  lemma {:induction false} SymbolIs(a: Symbol, b: Symbol)
    requires a as int == b as int
    ensures a == b
  {
  }

  lemma {:induction false} CodesOf()
    ensures |HRP| == 4 && HRP[0] as int == 110 && HRP[1] as int == 112 && HRP[2] as int == 117 && HRP[3] as int == 98
  {
  }

  /** The packed register after the prefix */
  const PREFIXED: bv32 := 0x1773adfb

  lemma {:induction false} PrefixFed()
    ensures Fed(1, Expanded(HRP)) == PREFIXED
  {
    hide Expanded, Fed;
    PrefixIsNpub();
    NineFed();
  }

  lemma {:induction false} NineFed()
    ensures Fed(1, [3, 3, 3, 3, 0, 14, 16, 21, 2]) == PREFIXED
  {
  }

  lemma {:induction false} ValidIff(values: seq<Symbol>)
    ensures Valid(Expanded(HRP) + values) <==> Fed(PREFIXED, values) == 1
  {
    hide Fed, Pack, Expanded;
    PrefixFed();
    StartWord();
    FedIsAbsorbed(START, Expanded(HRP) + values);
    FedAppend(1, Expanded(HRP), values);
    if Fed(PREFIXED, values) == 1 { OneIsStart(Remainder(Expanded(HRP) + values)); }
  }

  // ----- An npub, stretch by stretch -----

  /** The characters of some symbols, and the register after them */
  ghost predicate Leads(from: bv32, v: seq<Symbol>, text: string, word: bv32) {
    Chars(v) == text && Fed(from, v) == word
  }

  lemma {:induction false} FedStep(chk: bv32, v: seq<Symbol>)
    ensures Fed(chk, v) == if v == [] then chk else Fed(Round(chk, v[0]), v[1..])
    ensures Fed(chk, []) == chk
  {
    hide Round;
  }

  lemma {:induction false} FourFed(chk: bv32, a: Symbol, b: Symbol, c: Symbol, d: Symbol)
    ensures Fed(chk, [a, b, c, d]) == Round(Round(Round(Round(chk, a), b), c), d)
  {
    hide Round;
    FedStep(chk, [a, b, c, d]);
    FedStep(Round(chk, a), [b, c, d]);
    FedStep(Round(Round(chk, a), b), [c, d]);
    FedStep(Round(Round(Round(chk, a), b), c), [d]);
    assert [a, b, c, d][1..] == [b, c, d] && [b, c, d][1..] == [c, d] && [c, d][1..] == [d] && [d][1..] == [];
  }

  /** Four symbols more */
  lemma {:induction false} More(v: seq<Symbol>, text: string, word: bv32, a: Symbol, b: Symbol, c: Symbol, d: Symbol,
                                t: string, next: bv32)
      returns (w: seq<Symbol>, all: string)
    requires Leads(PREFIXED, v, text, word)
    requires Round(Round(Round(Round(word, a), b), c), d) == next
    requires |t| == 4 && t[0] == CharOf(a) && t[1] == CharOf(b) && t[2] == CharOf(c) && t[3] == CharOf(d)
    ensures w == v + [a, b, c, d] && all == text + t && Leads(PREFIXED, w, all, next)
  {
    hide Fed, Round, CharOf;
    w, all := v + [a, b, c, d], text + t;
    FourFed(word, a, b, c, d);
    FedAppend(PREFIXED, v, [a, b, c, d]);
    CharsConcat(v, [a, b, c, d]);
    assert Chars([a, b, c, d]) == t;
  }

  lemma {:induction false} First(a: Symbol, b: Symbol, c: Symbol, d: Symbol, t: string, next: bv32)
      returns (w: seq<Symbol>, all: string)
    requires Round(Round(Round(Round(PREFIXED, a), b), c), d) == next
    requires |t| == 4 && t[0] == CharOf(a) && t[1] == CharOf(b) && t[2] == CharOf(c) && t[3] == CharOf(d)
    ensures w == [a, b, c, d] && all == t && Leads(PREFIXED, w, all, next)
  {
    hide Fed, Round, CharOf;
    w, all := [a, b, c, d], t;
    FourFed(PREFIXED, a, b, c, d);
  }

  lemma {:induction false} CharsConcat(v: seq<Symbol>, w: seq<Symbol>)
    ensures Chars(v + w) == Chars(v) + Chars(w)
  {
  }

  lemma {:induction false} LastTwo(v: seq<Symbol>, text: string, word: bv32, a: Symbol, b: Symbol, t: string)
    requires Leads(PREFIXED, v, text, word) && Round(Round(word, a), b) == 1
    requires |t| == 2 && t[0] == CharOf(a) && t[1] == CharOf(b)
    ensures Leads(PREFIXED, v + [a, b], text + t, 1)
  {
    hide Round, CharOf;
    FedStep(word, [a, b]);
    FedStep(Round(word, a), [b]);
    assert [a, b][1..] == [b] && [b][1..] == [];
    FedAppend(PREFIXED, v, [a, b]);
    CharsConcat(v, [a, b]);
    assert Chars([a, b]) == t && Fed(word, [a, b]) == 1;
  }

  /** Symbols that lead from the prefix to the register 1, the last six of them being the checksum, are the npub. */
  lemma {:induction false} Completed(values: seq<Symbol>, v: seq<Symbol>, text: string)
    requires Leads(PREFIXED, v, text, 1) && |v| == |values| + 6 && values <= v
    ensures Encode(values) == "npub1" + text
  {
    hide Fed, Chars, Expanded;
    var checksum := v[|values|..];
    assert v == values + checksum;
    ValidIff(v);
    assert Expanded(HRP) + v == (Expanded(HRP) + values) + checksum;
    ChecksumIsUnique(Expanded(HRP) + values, checksum);
  }

  // ----- The two keys of NIP-19 -----

  /** The alphabet of BIP-173, section Bech32 */
  lemma {:induction false} Alphabet()
    ensures CharOf(0) == 'q' && CharOf(1) == 'p' && CharOf(2) == 'z' && CharOf(3) == 'r'
    ensures CharOf(4) == 'y' && CharOf(5) == '9' && CharOf(6) == 'x' && CharOf(7) == '8'
    ensures CharOf(8) == 'g' && CharOf(9) == 'f' && CharOf(10) == '2' && CharOf(11) == 't'
    ensures CharOf(12) == 'v' && CharOf(13) == 'd' && CharOf(14) == 'w' && CharOf(15) == '0'
    ensures CharOf(16) == 's' && CharOf(17) == '3' && CharOf(18) == 'j' && CharOf(19) == 'n'
    ensures CharOf(20) == '5' && CharOf(21) == '4' && CharOf(22) == 'k' && CharOf(23) == 'h'
    ensures CharOf(24) == 'c' && CharOf(25) == 'e' && CharOf(26) == '6' && CharOf(27) == 'm'
    ensures CharOf(28) == 'u' && CharOf(29) == 'a' && CharOf(30) == '7' && CharOf(31) == 'l'
  {
    hide CharOf;
    AlphabetFrom0();
    AlphabetFrom4();
    AlphabetFrom8();
    AlphabetFrom12();
    AlphabetFrom16();
    AlphabetFrom20();
    AlphabetFrom24();
    AlphabetFrom28();
  }

  lemma {:induction false} AlphabetFrom0()
    ensures CharOf(0) == 'q' && CharOf(1) == 'p' && CharOf(2) == 'z' && CharOf(3) == 'r'
  {
  }

  lemma {:induction false} AlphabetFrom4()
    ensures CharOf(4) == 'y' && CharOf(5) == '9' && CharOf(6) == 'x' && CharOf(7) == '8'
  {
  }

  lemma {:induction false} AlphabetFrom8()
    ensures CharOf(8) == 'g' && CharOf(9) == 'f' && CharOf(10) == '2' && CharOf(11) == 't'
  {
  }

  lemma {:induction false} AlphabetFrom12()
    ensures CharOf(12) == 'v' && CharOf(13) == 'd' && CharOf(14) == 'w' && CharOf(15) == '0'
  {
  }

  lemma {:induction false} AlphabetFrom16()
    ensures CharOf(16) == 's' && CharOf(17) == '3' && CharOf(18) == 'j' && CharOf(19) == 'n'
  {
  }

  lemma {:induction false} AlphabetFrom20()
    ensures CharOf(20) == '5' && CharOf(21) == '4' && CharOf(22) == 'k' && CharOf(23) == 'h'
  {
  }

  lemma {:induction false} AlphabetFrom24()
    ensures CharOf(24) == 'c' && CharOf(25) == 'e' && CharOf(26) == '6' && CharOf(27) == 'm'
  {
  }

  lemma {:induction false} AlphabetFrom28()
    ensures CharOf(28) == 'u' && CharOf(29) == 'a' && CharOf(30) == '7' && CharOf(31) == 'l'
  {
  }

  lemma {:induction false} FirstKey()
    ensures Encode([15, 25, 31, 9] + [24, 16, 21, 9] + [3, 15, 31, 15] + [3, 7, 29, 9]
                   + [5, 7, 18, 31] + [27, 8, 13, 23] + [5, 24, 7, 11] + [24, 6, 18, 12]
                   + [2, 5, 0, 22] + [14, 15, 17, 7] + [18, 16, 17, 20]
                   + [27, 1, 21, 13] + [27, 29, 7, 0]) ==
            "npub1" + ("0elf" + "cs4f" + "r0l0" + "r8af" + "98jl" + "mgdh" + "9c8t"
                       + "cxjv" + "z9qk" + "w038" + "js35" + "mp4d" + "ma8q" + "zvjp" + "tg")
  {
    hide Leads, Encode, CharOf, Chars;
    Alphabet();
        var v, text := First(15, 25, 31, 9, "0elf", 0x075b4350);
    v, text := More(v, text, 0x075b4350, 24, 16, 21, 9, "cs4f", 0x36fbdf76);
    v, text := More(v, text, 0x36fbdf76, 3, 15, 31, 15, "r0l0", 0x0d4a65de);
    v, text := More(v, text, 0x0d4a65de, 3, 7, 29, 9, "r8af", 0x2e7bea3d);
    v, text := More(v, text, 0x2e7bea3d, 5, 7, 18, 31, "98jl", 0x06523aea);
    v, text := More(v, text, 0x06523aea, 27, 8, 13, 23, "mgdh", 0x200f3231);
    v, text := More(v, text, 0x200f3231, 5, 24, 7, 11, "9c8t", 0x08764df5);
    v, text := More(v, text, 0x08764df5, 24, 6, 18, 12, "cxjv", 0x3417e7c6);
    v, text := More(v, text, 0x3417e7c6, 2, 5, 0, 22, "z9qk", 0x124212bf);
    v, text := More(v, text, 0x124212bf, 14, 15, 17, 7, "w038", 0x265b04a0);
    v, text := More(v, text, 0x265b04a0, 18, 16, 17, 20, "js35", 0x1feed492);
    v, text := More(v, text, 0x1feed492, 27, 1, 21, 13, "mp4d", 0x0157b499);
    v, text := More(v, text, 0x0157b499, 27, 29, 7, 0, "ma8q", 0x18dbc70a);
    var values := v;
    v, text := More(v, text, 0x18dbc70a, 2, 12, 18, 1, "zvjp", 0x371e491b);
    LastTwo(v, text, 0x371e491b, 11, 8, "tg");
    Completed(values, v + [11, 8], text + "tg");
  }

  lemma {:induction false} SecondKey()
    ensures Encode([7, 15, 24, 12] + [12, 15, 30, 11] + [18, 13, 3, 3] + [8, 1, 29, 15]
                   + [18, 30, 18, 30] + [11, 27, 19, 4] + [31, 10, 4, 3] + [26, 4, 3, 30]
                   + [31, 7, 18, 21] + [16, 17, 25, 12] + [9, 26, 28, 26]
                   + [21, 11, 23, 26] + [8, 22, 14, 16]) ==
            "npub1" + ("80cv" + "v07t" + "jdrr" + "gpa0" + "j7j7" + "tmny" + "l2yr"
                       + "6yr7" + "l8j4" + "s3ev" + "f6u6" + "4th6" + "gkws" + "yjh6" + "w6")
  {
    hide Leads, Encode, CharOf, Chars;
    Alphabet();
        var v, text := First(7, 15, 24, 12, "80cv", 0x075f1bb5);
    v, text := More(v, text, 0x075f1bb5, 12, 15, 30, 11, "v07t", 0x2da5ea69);
    v, text := More(v, text, 0x2da5ea69, 18, 13, 3, 3, "jdrr", 0x26ab200a);
    v, text := More(v, text, 0x26ab200a, 8, 1, 29, 15, "gpa0", 0x2e8dfc23);
    v, text := More(v, text, 0x2e8dfc23, 18, 30, 18, 30, "j7j7", 0x128fe807);
    v, text := More(v, text, 0x128fe807, 11, 27, 19, 4, "tmny", 0x3baf8376);
    v, text := More(v, text, 0x3baf8376, 31, 10, 4, 3, "l2yr", 0x1f01772e);
    v, text := More(v, text, 0x1f01772e, 26, 4, 3, 30, "6yr7", 0x3cb7533a);
    v, text := More(v, text, 0x3cb7533a, 31, 7, 18, 21, "l8j4", 0x1e032d34);
    v, text := More(v, text, 0x1e032d34, 16, 17, 25, 12, "s3ev", 0x3793f903);
    v, text := More(v, text, 0x3793f903, 9, 26, 28, 26, "f6u6", 0x2b354f2a);
    v, text := More(v, text, 0x2b354f2a, 21, 11, 23, 26, "4th6", 0x3b0705ea);
    v, text := More(v, text, 0x3b0705ea, 8, 22, 14, 16, "gkws", 0x36602fb4);
    var values := v;
    v, text := More(v, text, 0x36602fb4, 4, 18, 23, 26, "yjh6", 0x28f65c11);
    LastTwo(v, text, 0x28f65c11, 14, 26, "w6");
    Completed(values, v + [14, 26], text + "w6");
  }
}
