/** Multisets collected from the entries of a list. */
module Bags {

  function Union<T>(bags: seq<multiset<T>>): multiset<T> {
    if bags == [] then multiset{} else Union(bags[..|bags| - 1]) + bags[|bags| - 1]
  }

  lemma {:induction false} UnionAppend<T>(bags: seq<multiset<T>>, b: multiset<T>)
    ensures Union(bags + [b]) == Union(bags) + b
  {
    assert (bags + [b])[..|bags|] == bags;
  }

  lemma {:induction false} UnionUpdate<T>(bags: seq<multiset<T>>, i: nat, b: multiset<T>)
    requires i < |bags|
    ensures Union(bags[i := b]) + bags[i] == Union(bags) + b
  {
    var n := |bags| - 1;
    if i == n {
      assert bags[i := b][..n] == bags[..n];
    } else {
      assert bags[i := b][..n] == bags[..n][i := b];
      UnionUpdate(bags[..n], i, b);
      assert bags[..n][i] == bags[i] && bags[i := b][n] == bags[n];
      assert Union(bags[..n][i := b]) + bags[n] + bags[i] == Union(bags[..n][i := b]) + bags[i] + bags[n];
    }
  }

  lemma {:induction false} UnionSingletons<T>(bags: seq<multiset<T>>)
    requires forall i | 0 <= i < |bags| :: |bags[i]| == 1
    ensures |Union(bags)| == |bags|
  {
    if bags != [] { UnionSingletons(bags[..|bags| - 1]); }
  }

  lemma {:induction false} UnionContains<T>(bags: seq<multiset<T>>, x: T)
    ensures x in Union(bags) <==> exists i :: 0 <= i < |bags| && x in bags[i]
  {
    if bags != [] {
      var n := |bags| - 1;
      UnionContains(bags[..n], x);
      assert forall i | 0 <= i < n :: bags[..n][i] == bags[i];
      if x in Union(bags) && x !in bags[n] {
        var i :| 0 <= i < n && x in bags[..n][i];
        assert x in bags[i];
      }
      if i :| 0 <= i < |bags| && x in bags[i] {
        if i < n { assert x in bags[..n][i]; }
      }
    }
  }
}
