/**
  The Fisher-Yates shuffle of frontend-mobile/website/nostr-video-player.js: it swaps inside a copy of the list, and
  the random choices decide the result.
 */
module Shuffle {

  /** Choice i is the index that Math.floor(Math.random() * (i + 1)) yields for position i; choice 0 is not drawn. */
  predicate Choices(choices: seq<nat>, n: nat) {
    |choices| == n && forall i | 0 <= i < n :: choices[i] <= i
  }

  function Swap<T>(s: seq<T>, i: nat, j: nat): (r: seq<T>)
    requires i < |s| && j < |s|
    ensures |r| == |s|
  {
    s[i := s[j]][j := s[i]]
  }

  /** The loop from position n - 1 down to 1 */
  function Shuffled<T>(s: seq<T>, choices: seq<nat>, n: nat): (r: seq<T>)
    requires n <= |s| && n <= |choices| && forall i | 0 <= i < n :: choices[i] <= i
    ensures |r| == |s|
    decreases n
  {
    if n <= 1 then s else Shuffled(Swap(s, n - 1, choices[n - 1]), choices, n - 1)
  }

  method ShuffleArray<T>(a: array<T>, choices: seq<nat>) returns (shuffled: array<T>)
    requires Choices(choices, a.Length)
    ensures fresh(shuffled) && a[..] == old(a[..])
    ensures shuffled[..] == Shuffled(a[..], choices, a.Length)
  {
    shuffled := new T[a.Length](i requires 0 <= i < a.Length reads a => a[i]);
    assert shuffled[..] == a[..];
    var i := a.Length - 1;
    while i > 0
      invariant -1 <= i < a.Length
      invariant i == -1 ==> a.Length == 0
      invariant a[..] == old(a[..])
      invariant Shuffled(shuffled[..], choices, i + 1) == Shuffled(a[..], choices, a.Length)
    {
      var j := choices[i];
      ghost var before := shuffled[..];
      shuffled[i], shuffled[j] := shuffled[j], shuffled[i];
      assert shuffled[..] == Swap(before, i, j);
      i := i - 1;
    }
  }

  // ----- Every result is a permutation -----

  lemma {:induction false} SwapPermutes<T>(s: seq<T>, i: nat, j: nat)
    requires i < |s| && j < |s|
    ensures multiset(Swap(s, i, j)) == multiset(s)
  {
  }

  /** The result has the elements of the list, and what lies at n and beyond stays. */
  lemma {:induction false} ShuffledPermutes<T>(s: seq<T>, choices: seq<nat>, n: nat)
    requires n <= |s| && n <= |choices| && forall i | 0 <= i < n :: choices[i] <= i
    ensures multiset(Shuffled(s, choices, n)) == multiset(s)
    ensures Shuffled(s, choices, n)[n..] == s[n..]
    decreases n
  {
    if n > 1 {
      var t := Swap(s, n - 1, choices[n - 1]);
      SwapPermutes(s, n - 1, choices[n - 1]);
      ShuffledPermutes(t, choices, n - 1);
      var r := Shuffled(s, choices, n);
      assert r[n..] == r[n - 1..][1..] && t[n..] == t[n - 1..][1..];
      assert t[n..] == s[n..];
    }
  }

  /** The last position gets the element that its choice points at. */
  lemma {:induction false} LastPosition<T>(s: seq<T>, choices: seq<nat>, n: nat)
    requires 1 <= n <= |s| && n <= |choices| && forall i | 0 <= i < n :: choices[i] <= i
    ensures Shuffled(s, choices, n)[n - 1] == s[choices[n - 1]]
  {
    if n > 1 {
      var t := Swap(s, n - 1, choices[n - 1]);
      ShuffledPermutes(t, choices, n - 1);
      assert Shuffled(t, choices, n - 1)[n - 1..][0] == t[n - 1..][0];
    }
  }

  /** The six results for three elements: the chosen element and the one in its place change places. */
  lemma {:induction false} ThreeElements<T>(a: T, b: T, c: T)
    ensures Shuffled([a, b, c], [0, 0, 0], 3) == [b, c, a] && Shuffled([a, b, c], [0, 1, 0], 3) == [c, b, a]
    ensures Shuffled([a, b, c], [0, 0, 1], 3) == [c, a, b] && Shuffled([a, b, c], [0, 1, 1], 3) == [a, c, b]
    ensures Shuffled([a, b, c], [0, 0, 2], 3) == [b, a, c] && Shuffled([a, b, c], [0, 1, 2], 3) == [a, b, c]
  {
    forall x, y | 0 <= x <= 1 && 0 <= y <= 2
      ensures Shuffled([a, b, c], [0, x, y], 3) == Swap(Swap([a, b, c], 2, y), 1, x)
    {
      var s := Swap([a, b, c], 2, y);
      assert Shuffled(s, [0, x, y], 2) == Shuffled(Swap(s, 1, x), [0, x, y], 1);
    }
  }

  // ----- Choices and permutations correspond one to one -----

  predicate Distinct<T(==)>(s: seq<T>) {
    forall i, j | 0 <= i < j < |s| :: s[i] != s[j]
  }

  lemma {:induction false} SwapDistinct<T>(s: seq<T>, i: nat, j: nat)
    requires i < |s| && j < |s| && Distinct(s)
    ensures Distinct(Swap(s, i, j))
  {
  }

  function IndexOf<T(==)>(s: seq<T>, x: T): (k: nat)
    requires x in s
    ensures k < |s| && s[k] == x
  {
    if s[0] == x then 0 else IndexOf(s[1..], x) + 1
  }

  /** The choices that lead from s to its permutation p, when the two agree from n on */
  function Unshuffle<T(==)>(s: seq<T>, p: seq<T>, n: nat): (choices: seq<nat>)
    requires n <= |s| == |p| && multiset(s[..n]) == multiset(p[..n])
    ensures Choices(choices, n)
    decreases n
  {
    if n == 0 then []
    else
      assert p[n - 1] in p[..n] by { assert p[..n][n - 1] == p[n - 1]; }
      assert p[n - 1] in multiset(s[..n]);
      var j := IndexOf(s[..n], p[n - 1]);
      SwapShrinks(s, p, n, j);
      Unshuffle(Swap(s, n - 1, j), p, n - 1) + [j]
  }

  lemma {:induction false} Cancel<T>(a: multiset<T>, b: multiset<T>, x: T)
    requires a + multiset{x} == b + multiset{x}
    ensures a == b
  {
    forall y: T ensures a[y] == b[y] { assert (a + multiset{x})[y] == (b + multiset{x})[y]; }
  }

  lemma {:induction false} SwapTake<T>(s: seq<T>, n: nat, j: nat)
    requires j < n <= |s|
    ensures Swap(s, n - 1, j)[..n] == Swap(s[..n], n - 1, j)
    ensures Swap(s, n - 1, j)[..n] == Swap(s, n - 1, j)[..n - 1] + [s[j]]
    ensures Swap(s, n - 1, j)[n..] == s[n..]
  {
  }

  lemma {:induction false} SwapShrinks<T>(s: seq<T>, p: seq<T>, n: nat, j: nat)
    requires 0 < n <= |s| == |p| && multiset(s[..n]) == multiset(p[..n]) && j < n && s[j] == p[n - 1]
    ensures multiset(Swap(s, n - 1, j)[..n - 1]) == multiset(p[..n - 1])
  {
    var x := p[n - 1];
    SwapTake(s, n, j);
    SwapPermutes(s[..n], n - 1, j);
    assert p[..n] == p[..n - 1] + [x];
    var a, b := Swap(s, n - 1, j)[..n - 1], p[..n - 1];
    hide Swap;
    assert multiset(a + [x]) == multiset(a) + multiset{x} && multiset(b + [x]) == multiset(b) + multiset{x};
    Cancel(multiset(a), multiset(b), x);
  }

  lemma {:induction false} PrefixOnly<T>(s: seq<T>, c: seq<nat>, d: seq<nat>, n: nat)
    requires n <= |s| && n <= |c| && n <= |d| && c[..n] == d[..n] && forall i | 0 <= i < n :: c[i] <= i
    ensures forall i | 0 <= i < n :: d[i] <= i
    ensures Shuffled(s, c, n) == Shuffled(s, d, n)
    decreases n
  {
    forall i | 0 <= i < n ensures d[i] == c[i] { assert d[i] == d[..n][i] && c[i] == c[..n][i]; }
    if n > 1 {
      assert c[..n - 1] == c[..n][..n - 1] && d[..n - 1] == d[..n][..n - 1];
      PrefixOnly(Swap(s, n - 1, c[n - 1]), c, d, n - 1);
    }
  }

  lemma {:induction false} UnshuffleStep<T>(s: seq<T>, p: seq<T>, n: nat)
    requires 0 < n <= |s| == |p| && multiset(s[..n]) == multiset(p[..n])
    ensures var c := Unshuffle(s, p, n); var j := c[n - 1];
            && j < n && s[j] == p[n - 1]
            && multiset(Swap(s, n - 1, j)[..n - 1]) == multiset(p[..n - 1])
            && c == Unshuffle(Swap(s, n - 1, j), p, n - 1) + [j]
  {
    assert p[n - 1] in p[..n] by { assert p[..n][n - 1] == p[n - 1]; }
    assert p[n - 1] in multiset(s[..n]);
    SwapShrinks(s, p, n, IndexOf(s[..n], p[n - 1]));
  }

  lemma {:induction false} SwapSettles<T>(s: seq<T>, p: seq<T>, n: nat, j: nat)
    requires 0 < n <= |s| == |p| && j < n && s[j] == p[n - 1] && s[n..] == p[n..]
    ensures Swap(s, n - 1, j)[n - 1..] == p[n - 1..]
    ensures n == 1 ==> Swap(s, n - 1, j) == s
  {
    var t := Swap(s, n - 1, j);
    forall k | n - 1 <= k < |p| ensures t[k] == p[k] {
      if k >= n { assert s[n..][k - n] == p[n..][k - n]; }
    }
  }

  /** Every permutation is reached: the choices that Unshuffle finds lead to it. */
  lemma {:induction false} EveryPermutationReached<T>(s: seq<T>, p: seq<T>, n: nat)
    requires n <= |s| == |p| && multiset(s[..n]) == multiset(p[..n]) && s[n..] == p[n..]
    ensures Shuffled(s, Unshuffle(s, p, n), n) == p
    decreases n
  {
    if n == 0 {
      assert s == s[0..] && p == p[0..];
    } else {
      UnshuffleStep(s, p, n);
      var c := Unshuffle(s, p, n);
      var j := c[n - 1];
      var t := Swap(s, n - 1, j);
      SwapSettles(s, p, n, j);
      hide Unshuffle, Swap;
      EveryPermutationReached(t, p, n - 1);
      var b := Unshuffle(t, p, n - 1);
      assert c[..n - 1] == b[..n - 1];
      PrefixOnly(t, b, c, n - 1);
    }
  }

  lemma {:induction false} WithoutLast<T>(s: seq<T>, c: seq<nat>, n: nat)
    requires 1 < n <= |s| && Choices(c, n)
    ensures Choices(c[..n - 1], n - 1) && c == c[..n - 1] + [c[n - 1]]
    ensures Shuffled(s, c, n) == Shuffled(Swap(s, n - 1, c[n - 1]), c[..n - 1], n - 1)
  {
    hide Swap;
    PrefixOnly(Swap(s, n - 1, c[n - 1]), c, c[..n - 1], n - 1);
  }

  lemma {:induction false} DistinctAt<T>(s: seq<T>, i: nat, j: nat)
    requires Distinct(s) && i < |s| && j < |s| && s[i] == s[j]
    ensures i == j
  {
  }

  /** Different choices give different results when the elements are distinct. */
  lemma {:induction false} ChoicesDetermined<T>(s: seq<T>, c: seq<nat>, d: seq<nat>, n: nat)
    requires Distinct(s) && n <= |s| && Choices(c, n) && Choices(d, n)
    requires Shuffled(s, c, n) == Shuffled(s, d, n)
    ensures c == d
    decreases n
  {
    hide Shuffled, Distinct, Swap;
    if n > 0 {
      LastPosition(s, c, n);
      LastPosition(s, d, n);
      DistinctAt(s, c[n - 1], d[n - 1]);
      if n > 1 {
        SwapDistinct(s, n - 1, c[n - 1]);
        WithoutLast(s, c, n);
        WithoutLast(s, d, n);
        ChoicesDetermined(Swap(s, n - 1, c[n - 1]), c[..n - 1], d[..n - 1], n - 1);
      }
    }
  }

  /** The shuffle and Unshuffle are inverse to each other: for distinct elements, choices and permutations
      correspond one to one. */
  lemma {:induction false} OneToOne<T>(s: seq<T>)
    requires Distinct(s)
    ensures forall c | Choices(c, |s|) :: multiset(Shuffled(s, c, |s|)) == multiset(s)
    ensures forall p: seq<T> | multiset(p) == multiset(s) ::
              |p| == |s| && p[..|p|] == p && s[..|s|] == s && Choices(Unshuffle(s, p, |s|), |s|)
              && Shuffled(s, Unshuffle(s, p, |s|), |s|) == p
    ensures forall c, d | Choices(c, |s|) && Choices(d, |s|) && Shuffled(s, c, |s|) == Shuffled(s, d, |s|) :: c == d
  {
    forall c | Choices(c, |s|) ensures multiset(Shuffled(s, c, |s|)) == multiset(s) { ShuffledPermutes(s, c, |s|); }
    forall p: seq<T> | multiset(p) == multiset(s)
      ensures |p| == |s| && p[..|p|] == p && s[..|s|] == s && Choices(Unshuffle(s, p, |s|), |s|)
              && Shuffled(s, Unshuffle(s, p, |s|), |s|) == p
    {
      assert |multiset(p)| == |p| && |multiset(s)| == |s|;
      assert p[..|p|] == p && s[..|s|] == s;
      EveryPermutationReached(s, p, |s|);
    }
    forall c, d | Choices(c, |s|) && Choices(d, |s|) && Shuffled(s, c, |s|) == Shuffled(s, d, |s|) ensures c == d {
      ChoicesDetermined(s, c, d, |s|);
    }
  }

  lemma {:induction false} EqualSwaps<T>(s: seq<T>, choices: seq<nat>, n: nat)
    requires n <= |s| && Choices(choices, |s|) && forall k | 0 <= k < |s| :: s[choices[k]] == s[k]
    ensures Shuffled(s, choices, n) == s
    decreases n
  {
    if n > 1 {
      assert Swap(s, n - 1, choices[n - 1]) == s;
      EqualSwaps(s, choices, n - 1);
    }
  }

  /** Distinct elements are needed for that: only then do different choices always give different results. */
  lemma {:induction false} DeterminedIffDistinct<T>(s: seq<T>)
    ensures Distinct(s) <==>
            forall c, d | Choices(c, |s|) && Choices(d, |s|) && Shuffled(s, c, |s|) == Shuffled(s, d, |s|) :: c == d
  {
    if Distinct(s) {
      OneToOne(s);
    } else {
      var i, j :| 0 <= i < j < |s| && s[i] == s[j];
      var c := seq(|s|, k requires 0 <= k < |s| => k as nat);
      var d := c[j := i];
      EqualSwaps(s, c, |s|);
      EqualSwaps(s, d, |s|);
      assert Choices(c, |s|) && Choices(d, |s|) && c[j] != d[j];
    }
  }

  // ----- How many choices there are -----

  function Factorial(n: nat): nat {
    if n == 0 then 1 else n * Factorial(n - 1)
  }

  function Append(a: set<seq<nat>>, x: nat): set<seq<nat>> {
    set c | c in a :: c + [x]
  }

  /** Every sequence of a, extended by each of 0 .. n - 1 */
  function Extensions(a: set<seq<nat>>, n: nat): set<seq<nat>> {
    if n == 0 then {} else Extensions(a, n - 1) + Append(a, n - 1)
  }

  function AllChoices(n: nat): set<seq<nat>> {
    if n == 0 then {[]} else Extensions(AllChoices(n - 1), n)
  }

  lemma {:induction false} AppendInjective(c: seq<nat>, d: seq<nat>, x: nat)
    ensures c + [x] == d + [x] ==> c == d
  {
    assert (d + [x])[..|d|] == d && (c + [x])[..|c|] == c;
  }

  lemma {:induction false} AppendCount(a: set<seq<nat>>, x: nat)
    ensures |Append(a, x)| == |a|
  {
    if c :| c in a {
      AppendCount(a - {c}, x);
      forall d | d in a - {c} ensures d + [x] != c + [x] { AppendInjective(c, d, x); }
      assert Append(a, x) == Append(a - {c}, x) + {c + [x]};
    }
  }

  lemma {:induction false} ExtensionsMember(a: set<seq<nat>>, n: nat, e: seq<nat>)
    ensures e in Extensions(a, n) <==> e != [] && e[..|e| - 1] in a && e[|e| - 1] < n
  {
    if n > 0 {
      ExtensionsMember(a, n - 1, e);
      if e != [] && e[..|e| - 1] in a && e[|e| - 1] == n - 1 { assert e == e[..|e| - 1] + [n - 1]; }
    }
  }

  lemma {:induction false} Distribute(n: nat, m: nat)
    requires n > 0
    ensures n * m == (n - 1) * m + m
  {
  }

  lemma {:induction false} ExtensionsDisjoint(a: set<seq<nat>>, n: nat)
    ensures Extensions(a, n) !! Append(a, n)
  {
    forall e ensures e !in Extensions(a, n) || e !in Append(a, n) { ExtensionsMember(a, n, e); }
  }

  lemma {:induction false} UnionCount(a: set<seq<nat>>, b: set<seq<nat>>)
    requires a !! b
    ensures |a + b| == |a| + |b|
  {
  }

  lemma {:induction false} ExtensionsStep(a: set<seq<nat>>, n: nat)
    ensures Extensions(a, n) == if n == 0 then {} else Extensions(a, n - 1) + Append(a, n - 1)
  {
  }

  lemma {:induction false} ExtensionsCount(a: set<seq<nat>>, n: nat)
    ensures |Extensions(a, n)| == n * |a|
  {
    hide Extensions, Append;
    ExtensionsStep(a, n);
    if n > 0 {
      ExtensionsCount(a, n - 1);
      AppendCount(a, n - 1);
      ExtensionsDisjoint(a, n - 1);
      UnionCount(Extensions(a, n - 1), Append(a, n - 1));
      Distribute(n, |a|);
    }
  }

  lemma {:induction false} ChoicesMember(n: nat, c: seq<nat>)
    ensures c in AllChoices(n) <==> Choices(c, n)
  {
    if n > 0 {
      ExtensionsMember(AllChoices(n - 1), n, c);
      hide Extensions;
      if c != [] { ChoicesMember(n - 1, c[..|c| - 1]); }
    }
  }

  /** There are n! ways to choose, so each of the n! permutations of n distinct elements comes from one of them. */
  lemma {:induction false} ChoicesCount(n: nat)
    ensures |AllChoices(n)| == Factorial(n)
    ensures forall c :: c in AllChoices(n) <==> Choices(c, n)
  {
    forall c ensures c in AllChoices(n) <==> Choices(c, n) { ChoicesMember(n, c); }
    if n > 0 {
      ChoicesCount(n - 1);
      ExtensionsCount(AllChoices(n - 1), n);
    }
  }
}
