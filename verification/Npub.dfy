/**
  `hexToNpub` of frontend-web/compute-js/src/index.js: a hexadecimal public key as a Bech32 string (NIP-19,
  "Bare keys and ids").
 */
module Npub {
  import opened Options
  import opened Regrouping
  import opened Bech32
  import opened LinearCode
  import JsInt32

  // ----- parseInt(pair, 16), read as an int32 by the operators it is fed to -----

  predicate IsSpace(c: char) {
    var n := c as int;
    9 <= n <= 13 || n == 32 || n == 0xa0 || n == 0x1680 || 0x2000 <= n <= 0x200a || n == 0x2028 || n == 0x2029
      || n == 0x202f || n == 0x205f || n == 0x3000 || n == 0xfeff
  }

  function TrimStart(s: string): string {
    if s != [] && IsSpace(s[0]) then TrimStart(s[1..]) else s
  }

  /** The value of a hexadecimal digit, or -1 */
  function HexDigit(c: char): int {
    if '0' <= c <= '9' then c as int - 48
    else if 'a' <= c <= 'f' then c as int - 87
    else if 'A' <= c <= 'F' then c as int - 55
    else -1
  }

  /** The longest prefix of digits, appended to a value; no digit at all is NaN, which the operators read as 0 */
  function Digits16(s: string, value: int): int {
    if s != [] && HexDigit(s[0]) >= 0 then Digits16(s[1..], value * 16 + HexDigit(s[0])) else value
  }

  /** parseInt(s, 16) for at most two characters: a prefix 0x leaves nothing to read, and 0 is what it is read as
      anyway */
  function ParseHex(s: string): int {
    var t := TrimStart(s);
    if t != [] && t[0] == '-' then -Digits16(t[1..], 0)
    else if t != [] && t[0] == '+' then Digits16(t[1..], 0)
    else Digits16(t, 0)
  }

  /** hex.slice(2 * k, 2 * k + 2) */
  function Pair(hex: string, k: nat): string
    requires 2 * k < |hex|
  {
    if 2 * k + 2 <= |hex| then hex[2 * k..2 * k + 2] else hex[2 * k..]
  }

  function Bytes(hex: string): (b: seq<int>)
    ensures |b| == (|hex| + 1) / 2
  {
    seq((|hex| + 1) / 2, k requires 0 <= k < (|hex| + 1) / 2 => ParseHex(Pair(hex, k)))
  }

  lemma {:induction false} HexDigits()
    ensures HexDigit('0') == 0 && HexDigit('1') == 1 && HexDigit('2') == 2 && HexDigit('3') == 3
    ensures HexDigit('4') == 4 && HexDigit('5') == 5 && HexDigit('6') == 6 && HexDigit('7') == 7
    ensures HexDigit('8') == 8 && HexDigit('9') == 9
    ensures HexDigit('a') == HexDigit('A') == 10 && HexDigit('b') == HexDigit('B') == 11
    ensures HexDigit('c') == HexDigit('C') == 12 && HexDigit('d') == HexDigit('D') == 13
    ensures HexDigit('e') == HexDigit('E') == 14 && HexDigit('f') == HexDigit('F') == 15
    ensures HexDigit('-') == HexDigit('+') == HexDigit(' ') == HexDigit('x') == HexDigit('g') == -1
  {
  }

  /** Two digits are a number of base 16 whatever their case; what is no digit ends the number; a blank or a sign may
      come first. */
  lemma {:induction false} WhatIsRead(c: char, d: char)
    requires HexDigit(d) >= 0
    ensures HexDigit(c) >= 0 ==> ParseHex([c, d]) == 16 * HexDigit(c) + HexDigit(d)
    ensures HexDigit(c) < 0 && !IsSpace(c) && c != '-' && c != '+' ==> ParseHex([c, d]) == 0
    ensures HexDigit(c) < 0 ==> ParseHex([d, c]) == HexDigit(d)
    ensures c == ' ' || c == '+' ==> ParseHex([c, d]) == HexDigit(d)
    ensures c == '-' ==> ParseHex([c, d]) == -HexDigit(d)
    ensures ParseHex([d]) == HexDigit(d)
  {
    assert !IsSpace(d) && d != '-' && d != '+';
    assert [c, d][1..] == [d] && [d, c][1..] == [c] && [d][1..] == [] && [c][1..] == [];
    TrimmedStart(c, d);
    hide TrimStart, IsSpace, HexDigit;
    DigitsRead("", 0);
    DigitsRead([d], 0);
    DigitsRead([c], HexDigit(d));
    DigitsRead([c, d], 0);
    DigitsRead([d, c], 0);
    DigitsRead([d], HexDigit(c));
    DigitsRead("", HexDigit(d));
    DigitsRead("", 16 * HexDigit(c) + HexDigit(d));
  }

  lemma {:induction false} DigitsRead(s: string, value: int)
    ensures Digits16(s, value) ==
            if s != [] && HexDigit(s[0]) >= 0 then Digits16(s[1..], value * 16 + HexDigit(s[0])) else value
  {
    hide HexDigit;
  }

  lemma {:induction false} TrimmedStart(c: char, d: char)
    requires HexDigit(d) >= 0
    ensures TrimStart([d]) == [d] && TrimStart([d, c]) == [d, c]
    ensures TrimStart([c, d]) == (if IsSpace(c) then [d] else [c, d])
    ensures HexDigit(c) >= 0 ==> !IsSpace(c) && c != '-' && c != '+'
    ensures IsSpace(' ') && !IsSpace('+') && !IsSpace('-')
  {
    assert [c, d][1..] == [d];
  }

  // ----- The string -----

  const CHARSET := "qpzry9x8gf2tvdw0s3jn54khce6mua7l"
  const HRP: seq<bv8> := [110, 112, 117, 98]  // the character codes of "npub"

  function CharOf(b: Symbol): char {
    CHARSET[b as int]
  }

  function Chars(values: seq<Symbol>): (s: string)
    ensures |s| == |values|
  {
    seq(|values|, i requires 0 <= i < |values| => CharOf(values[i]))
  }

  /** Digits below 32 as field elements */
  function Symbols(ds: seq<int>): (s: seq<Symbol>)
    requires Digits(ds, 5)
    ensures |s| == |ds|
  {
    seq(|ds|, i requires 0 <= i < |ds| => AsSymbol(ds[i]))
  }

  function AsSymbol(d: int): Symbol
    requires 0 <= d < 32
  {
    d as Symbol
  }

  /** The Bech32 string with prefix npub that carries these symbols */
  function Encode(values: seq<Symbol>): string {
    "npub" + "1" + Chars(values + Checksum(Expanded(HRP) + values))
  }

  /** gs are 5-bit digits of the right number, and the digits of the same bit stream when the bytes are bytes:
      a pair that is no hexadecimal number may be read as anything that parseInt makes of it. */
  ghost predicate Grouped(hex: string, gs: seq<int>) {
    && Digits(gs, 5) && RightLength(|gs|, 5, |Bytes(hex)| * 8, true)
    && (Digits(Bytes(hex), 8) ==> Regroups(Bytes(hex), 8, gs, 5, true))
  }

  /** npub encodes the regrouped bytes of hex. */
  ghost predicate IsNpub(hex: string, npub: string) {
    exists gs :: Grouped(hex, gs) && npub == Encode(Symbols(gs))
  }

  lemma {:induction false} GroupedIsNpub(hex: string, gs: seq<int>)
    requires Digits(gs, 5) && RightLength(|gs|, 5, |Bytes(hex)| * 8, true)
    requires Digits(Bytes(hex), 8) ==> Regroups(Bytes(hex), 8, gs, 5, true)
    ensures IsNpub(hex, Encode(Symbols(gs)))
  {
    assert Grouped(hex, gs);
  }

  method HexToNpub(hex: string) returns (npub: string)
    ensures IsNpub(hex, npub)
  {
    hide Regroups, RightLength, Checksum, Value, ParseHex, Pair, IsNpub;
    var data := [];
    var i := 0;
    while i < |hex|
      invariant i == 2 * |data| && |data| <= (|hex| + 1) / 2
      invariant data == Bytes(hex)[..|data|]
    {
      data := data + [ParseHex(Pair(hex, |data|))];
      i := i + 2;
    }
    assert data == Bytes(hex);
    var groups := ConvertBits(data, 8, 5, true);
    GroupedIsNpub(hex, groups);
    var converted := Symbols(groups);
    var prefix := HrpExpand(HRP);
    var checksum := CreateChecksum(prefix + converted);
    var result := "npub" + "1";
    var all := converted + checksum;
    for k := 0 to |all|
      invariant result == "npub" + "1" + Chars(all)[..k]
    {
      result := result + [CHARSET[all[k] as int]];
    }
    assert Chars(all)[..|all|] == Chars(all);
    npub := result;
  }

  // ----- Reading the string back -----

  /** The symbol a character of the alphabet stands for, or -1 */
  function IndexOf(c: char): int {
    IndexFrom(c, 0)
  }

  function IndexFrom(c: char, i: nat): int
    requires i <= 32
    decreases 32 - i
  {
    if i == 32 then -1 else if CHARSET[i] == c then i else IndexFrom(c, i + 1)
  }

  lemma {:induction false} CharsetDistinct(i: nat, j: nat)
    requires i < j < 32
    ensures CHARSET[i] != CHARSET[j]
  {
  }

  lemma {:induction false} IndexFromFinds(i: nat, from: nat)
    requires from <= i < 32
    ensures IndexFrom(CHARSET[i], from) == i
    decreases i - from
  {
    if from < i {
      CharsetDistinct(from, i);
      IndexFromFinds(i, from + 1);
    }
  }

  lemma {:induction false} IndexFromIsIndex(c: char, from: nat)
    requires from <= 32
    ensures IndexFrom(c, from) == -1 || (from <= IndexFrom(c, from) < 32 && CHARSET[IndexFrom(c, from)] == c)
    decreases 32 - from
  {
    if from < 32 { IndexFromIsIndex(c, from + 1); }
  }

  lemma {:induction false} SymbolOfNumber(d: int)
    requires 0 <= d < 32
    ensures AsSymbol(d) as int == d
  {
  }

  lemma {:induction false} NumberOfSymbol(b: Symbol)
    ensures AsSymbol(b as int) == b
  {
  }

  predicate InAlphabet(s: string) {
    forall i | 0 <= i < |s| :: IndexOf(s[i]) >= 0
  }

  function Unchars(s: string): (values: seq<Symbol>)
    requires InAlphabet(s)
    ensures |values| == |s|
  {
    seq(|s|, i requires 0 <= i < |s| => SymbolOf(s[i]))
  }

  function SymbolOf(c: char): Symbol
    requires IndexOf(c) >= 0
  {
    IndexFromIsIndex(c, 0);
    AsSymbol(IndexOf(c))
  }

  lemma {:induction false} UncharsChars(values: seq<Symbol>)
    ensures InAlphabet(Chars(values)) && Unchars(Chars(values)) == values
  {
    forall i | 0 <= i < |values| ensures IndexOf(Chars(values)[i]) == values[i] as int {
      IndexFromFinds(values[i] as int, 0);
    }
    forall i | 0 <= i < |values| ensures SymbolOf(Chars(values)[i]) == values[i] { NumberOfSymbol(values[i]); }
  }

  lemma {:induction false} CharsUnchars(s: string)
    requires InAlphabet(s)
    ensures Chars(Unchars(s)) == s
  {
    forall i | 0 <= i < |s| ensures CharOf(SymbolOf(s[i])) == s[i] {
      IndexFromIsIndex(s[i], 0);
      SymbolOfNumber(IndexOf(s[i]));
    }
  }

  /** What a reader following section "Bech32" of BIP-173 gets: the data symbols, if prefix, alphabet and checksum are
      right */
  function Decode(s: string): Option<seq<Symbol>> {
    if |s| < 11 || s[..5] != "npub1" || !InAlphabet(s[5..]) then None
    else
      var values := Unchars(s[5..]);
      if Valid(Expanded(HRP) + values) then Some(values[..|values| - 6]) else None
  }

  lemma {:induction false} EncodeParts(values: seq<Symbol>)
    ensures var s := Encode(values);
            && |s| == 11 + |values| && s[..5] == "npub1"
            && InAlphabet(s[5..]) && Unchars(s[5..]) == values + Checksum(Expanded(HRP) + values)
  {
    var all := values + Checksum(Expanded(HRP) + values);
    assert Encode(values)[5..] == Chars(all);
    UncharsChars(all);
  }

  /** The strings that decode to v are exactly the one string v is encoded as. */
  lemma {:induction false} DecodeIffEncode(s: string, v: seq<Symbol>)
    ensures Decode(s) == Some(v) <==> s == Encode(v)
  {
    var p := Expanded(HRP);
    if s == Encode(v) {
      EncodeParts(v);
      assert p + (v + Checksum(p + v)) == (p + v) + Checksum(p + v);
      ChecksumIsUnique(p + v, Checksum(p + v));
      assert (v + Checksum(p + v))[..|v|] == v;
    }
    if Decode(s) == Some(v) {
      var values := Unchars(s[5..]);
      var t := values[|v|..];
      assert values == v + t && p + values == (p + v) + t;
      ChecksumIsUnique(p + v, t);
      CharsUnchars(s[5..]);
      assert s == s[..5] + s[5..];
    }
  }

  /** Changing anything inside six neighbouring characters after the prefix leaves a string that does not decode. */
  lemma {:induction false} TypingErrorDetected(v: seq<Symbol>, t: string, lo: nat, hi: nat)
    requires 5 <= lo <= hi <= |Encode(v)| == |t| && hi - lo <= 6 && AgreeOutside(Encode(v), t, lo, hi)
    ensures Decode(t) != None <==> t == Encode(v)
  {
    var s := Encode(v);
    DecodeIffEncode(s, v);
    EncodeParts(v);
    if Decode(t) != None && InAlphabet(t[5..]) {
      var xs, ys := Unchars(s[5..]), Unchars(t[5..]);
      var p := Expanded(HRP);
      forall i | 0 <= i < |xs| && !(lo - 5 <= i < hi - 5) ensures xs[i] == ys[i] {
        if i < lo - 5 {
          assert s[..lo][i + 5] == t[..lo][i + 5];
        } else {
          assert s[hi..][i + 5 - hi] == t[hi..][i + 5 - hi];
        }
      }
      var n := |p|;
      assert AgreeOutside(p + xs, p + ys, n + lo - 5, n + hi - 5);
      BurstDetected(p + xs, p + ys, n + lo - 5, n + hi - 5);
      assert xs == (p + xs)[n..] && ys == (p + ys)[n..];
      CharsUnchars(s[5..]);
      CharsUnchars(t[5..]);
      assert t[..5] == s[..5];
      assert s == s[..5] + s[5..] && t == t[..5] + t[5..];
    }
  }

  // ----- From hexadecimal and back -----

  predicate LowerHex(hex: string) {
    forall i | 0 <= i < |hex| :: '0' <= hex[i] <= '9' || 'a' <= hex[i] <= 'f'
  }

  lemma {:induction false} PairValue(hex: string, k: nat)
    requires LowerHex(hex) && 2 * k + 2 <= |hex|
    ensures ParseHex(Pair(hex, k)) == 16 * HexDigit(hex[2 * k]) + HexDigit(hex[2 * k + 1])
    ensures 0 <= ParseHex(Pair(hex, k)) < 256
  {
    var p := Pair(hex, k);
    assert p == [hex[2 * k], hex[2 * k + 1]];
    assert TrimStart(p) == p;
    assert Digits16(p, 0) == Digits16(p[1..], HexDigit(p[0]));
    assert Digits16(p[1..], HexDigit(p[0])) == Digits16(p[1..][1..], HexDigit(p[0]) * 16 + HexDigit(p[1]));
  }

  lemma {:induction false} BytesInRange(hex: string)
    requires LowerHex(hex) && |hex| % 2 == 0
    ensures Digits(Bytes(hex), 8)
  {
    forall k | 0 <= k < |hex| / 2 ensures 0 <= Bytes(hex)[k] < 256 { PairValue(hex, k); }
    JsInt32.Pow2Values();
  }

  lemma {:induction false} DigitsOfPair(a: int, b: int, c: int, d: int)
    requires 0 <= b < 16 && 0 <= d < 16 && 16 * a + b == 16 * c + d
    ensures a == c && b == d
  {
  }

  lemma {:induction false} LowerHexDigit(c: char, d: char)
    requires LowerHex([c, d])
    ensures 0 <= HexDigit(c) < 16 && 0 <= HexDigit(d) < 16 && (HexDigit(c) == HexDigit(d) ==> c == d)
  {
    assert [c, d][0] == c && [c, d][1] == d;
  }

  /** Lower-case keys with an even number of digits are determined by their bytes. */
  lemma {:induction false} BytesInjective(g: string, h: string)
    requires LowerHex(g) && LowerHex(h) && |g| % 2 == 0 && |h| % 2 == 0
    ensures Bytes(g) == Bytes(h) <==> g == h
  {
    if Bytes(g) == Bytes(h) {
      assert |g| == |h|;
      forall i | 0 <= i < |g| ensures g[i] == h[i] {
        var k := i / 2;
        PairValue(g, k);
        PairValue(h, k);
        assert Bytes(g)[k] == Bytes(h)[k];
        LowerHexDigit(g[2 * k], h[2 * k]);
        LowerHexDigit(g[2 * k + 1], h[2 * k + 1]);
        DigitsOfPair(HexDigit(g[2 * k]), HexDigit(g[2 * k + 1]), HexDigit(h[2 * k]), HexDigit(h[2 * k + 1]));
      }
    }
  }

  lemma {:induction false} SymbolsInjective(ds: seq<int>, es: seq<int>)
    requires Digits(ds, 5) && Digits(es, 5)
    ensures Symbols(ds) == Symbols(es) <==> ds == es
  {
    if Symbols(ds) == Symbols(es) {
      assert |ds| == |es|;
      forall i | 0 <= i < |ds| ensures ds[i] == es[i] {
        assert Symbols(ds)[i] == Symbols(es)[i];
        SymbolOfNumber(ds[i]);
        SymbolOfNumber(es[i]);
      }
    }
  }

  lemma {:induction false} EncodeInjective(v: seq<Symbol>, w: seq<Symbol>)
    ensures Encode(v) == Encode(w) <==> v == w
  {
    DecodeIffEncode(Encode(v), v);
    DecodeIffEncode(Encode(w), w);
  }

  /** Two lower-case keys of even length, whatever their lengths, have the same npub only if they are the same key. */
  lemma {:induction false} NpubInjective(g: string, a: string, h: string, b: string)
    requires LowerHex(g) && LowerHex(h) && |g| % 2 == 0 && |h| % 2 == 0
    requires IsNpub(g, a) && IsNpub(h, b)
    ensures a == b <==> g == h
  {
    var gs :| Grouped(g, gs) && a == Encode(Symbols(gs));
    var hs :| Grouped(h, hs) && b == Encode(Symbols(hs));
    BytesInRange(g);
    BytesInRange(h);
    EncodeInjective(Symbols(gs), Symbols(hs));
    SymbolsInjective(gs, hs);
    RegroupsInjective(Bytes(g), Bytes(h), 8, gs, hs, 5);
    BytesInjective(g, h);
  }

  lemma {:induction false} ZeroFirst(c: char)
    requires LowerHex([c])
    ensures ParseHex([c]) == ParseHex(['0', c]) == HexDigit(c)
  {
    assert [c][0] == c;
    LowerHexDigit(c, c) by { assert LowerHex([c, c]); }
    assert TrimStart([c]) == [c] && TrimStart(['0', c]) == ['0', c];
    assert Digits16([c], 0) == Digits16([c][1..], HexDigit(c));
    assert ['0', c][1..] == [c];
    assert Digits16(['0', c], 0) == Digits16([c], 0);
  }

  /** A zero before the last digit */
  function Longer(hex: string): string
    requires hex != ""
  {
    hex[..|hex| - 1] + "0" + [hex[|hex| - 1]]
  }

  lemma {:induction false} LongerPairs(hex: string, k: nat)
    requires |hex| % 2 == 1 && k <= |hex| / 2
    ensures |Longer(hex)| == |hex| + 1
    ensures var c := hex[|hex| - 1];
            if k < |hex| / 2 then Pair(hex, k) == Pair(Longer(hex), k)
            else Pair(hex, k) == [c] && Pair(Longer(hex), k) == ['0', c]
  {
  }

  lemma {:induction false} LongerHex(hex: string)
    requires hex != "" && LowerHex(hex)
    ensures LowerHex(Longer(hex)) && Longer(hex) != hex && LowerHex([hex[|hex| - 1]])
  {
    assert |Longer(hex)| == |hex| + 1;
  }

  lemma {:induction false} LongerBytes(hex: string)
    requires LowerHex(hex) && |hex| % 2 == 1
    ensures Bytes(Longer(hex)) == Bytes(hex)
  {
    LongerPairs(hex, 0);
    LongerHex(hex);
    ZeroFirst(hex[|hex| - 1]);
    hide Longer, Pair, ParseHex, LowerHex;
    forall k: nat | k <= |hex| / 2 ensures ParseHex(Pair(hex, k)) == ParseHex(Pair(Longer(hex), k)) {
      LongerPairs(hex, k);
    }
  }

  /** The evenness cannot be dropped: a last digit on its own reads like the same digit after a zero, so every key of
      odd length has the same npub as a longer one. */
  lemma {:induction false} OddLengthCollides(hex: string, npub: string)
    requires LowerHex(hex) && |hex| % 2 == 1
    ensures LowerHex(Longer(hex)) && Longer(hex) != hex && (IsNpub(hex, npub) <==> IsNpub(Longer(hex), npub))
  {
    LongerBytes(hex);
    LongerHex(hex);
    hide Longer, LowerHex;
  }

  /** Decoding the npub of a key and regrouping its symbols into bytes, unpadded, gives back the bytes of the key. */
  lemma {:induction false} KeyRoundTrip(hex: string, npub: string, values: seq<Symbol>, ds: seq<int>, back: seq<int>)
    requires LowerHex(hex) && |hex| % 2 == 0 && IsNpub(hex, npub)
    requires Decode(npub) == Some(values)
    requires Digits(ds, 5) && Symbols(ds) == values && Regroups(ds, 5, back, 8, false)
    ensures back == Bytes(hex)
  {
    var gs :| Grouped(hex, gs) && npub == Encode(Symbols(gs));
    BytesInRange(hex);
    DecodeIffEncode(npub, values);
    EncodeInjective(Symbols(gs), values);
    SymbolsInjective(gs, ds);
    RoundTrip(Bytes(hex), 8, gs, 5, back);
  }

  /** A key of 32 bytes becomes a string of 63 characters. */
  lemma {:induction false} NpubLength(hex: string, npub: string)
    requires |hex| == 64 && IsNpub(hex, npub)
    ensures |npub| == 63
  {
    var gs :| Grouped(hex, gs) && npub == Encode(Symbols(gs));
    EncodeParts(Symbols(gs));
  }
}
