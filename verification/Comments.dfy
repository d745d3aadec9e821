/**
  The comment forest of frontend-web/src/hooks/useComments.ts: getDirectReplies and getDescendants over a list of
  comments whose parent is the value of their first lower-case e tag.
 */
module Comments {
  import opened Options

  type Id = string

  datatype Comment = Comment(id: Id, parent: Option<Id>, createdAt: int)

  // ----- The stable sort by creation time, oldest first -----

  function Insert(c: Comment, s: seq<Comment>): seq<Comment> {
    if s == [] then [c]
    else if c.createdAt <= s[0].createdAt then [c] + s
    else [s[0]] + Insert(c, s[1..])
  }

  function SortByTime(s: seq<Comment>): seq<Comment> {
    if s == [] then [] else Insert(s[0], SortByTime(s[1..]))
  }

  lemma {:induction false} InsertMembers(c: Comment, s: seq<Comment>)
    ensures multiset(Insert(c, s)) == multiset(s) + multiset{c}
  {
    if s != [] {
      assert s == [s[0]] + s[1..];
      InsertMembers(c, s[1..]);
    }
  }

  lemma {:induction false} SortMembers(s: seq<Comment>)
    ensures multiset(SortByTime(s)) == multiset(s)
  {
    if s != [] {
      assert s == [s[0]] + s[1..];
      SortMembers(s[1..]);
      InsertMembers(s[0], SortByTime(s[1..]));
    }
  }

  lemma {:induction false} SortMember(s: seq<Comment>, c: Comment)
    ensures c in SortByTime(s) <==> c in s
  {
    SortMembers(s);
    hide SortByTime;
    assert c in multiset(SortByTime(s)) <==> c in multiset(s);
  }

  predicate Chronological(s: seq<Comment>) {
    forall i, j | 0 <= i < j < |s| :: s[i].createdAt <= s[j].createdAt
  }

  /** The comments of one moment, in their order */
  function AtTime(s: seq<Comment>, t: int): seq<Comment> {
    if s == [] then []
    else (if s[0].createdAt == t then [s[0]] else []) + AtTime(s[1..], t)
  }

  lemma {:induction false} AtTimeCons(c: Comment, s: seq<Comment>, t: int)
    ensures AtTime([c] + s, t) == (if c.createdAt == t then [c] else []) + AtTime(s, t)
  {
    assert ([c] + s)[1..] == s;
  }

  lemma {:induction false} ChronologicalCons(c: Comment, s: seq<Comment>)
    requires Chronological(s) && forall x | x in s :: c.createdAt <= x.createdAt
    ensures Chronological([c] + s)
  {
  }

  lemma {:induction false} InsertChronological(c: Comment, s: seq<Comment>)
    requires Chronological(s)
    ensures Chronological(Insert(c, s))
  {
    if s != [] {
      assert s == [s[0]] + s[1..];
      if c.createdAt > s[0].createdAt {
        InsertChronological(c, s[1..]);
        forall x | x in Insert(c, s[1..]) ensures x.createdAt >= s[0].createdAt {
          InsertMembers(c, s[1..]);
          assert x in multiset(Insert(c, s[1..]));
        }
        ChronologicalCons(s[0], Insert(c, s[1..]));
      } else {
        ChronologicalCons(c, s);
      }
    }
  }

  lemma {:induction false} InsertStable(c: Comment, s: seq<Comment>, t: int)
    requires Chronological(s)
    ensures AtTime(Insert(c, s), t) == (if c.createdAt == t then [c] else []) + AtTime(s, t)
  {
    hide Chronological;
    if s == [] || c.createdAt <= s[0].createdAt {
      AtTimeCons(c, s, t);
    } else {
      TailChronological(s);
      InsertStable(c, s[1..], t);
      AtTimeCons(s[0], Insert(c, s[1..]), t);
    }
  }

  lemma {:induction false} TailChronological(s: seq<Comment>)
    requires s != [] && Chronological(s)
    ensures Chronological(s[1..])
  {
  }

  /** The sort is chronological and stable. */
  lemma {:induction false} SortIsStable(s: seq<Comment>, t: int)
    ensures Chronological(SortByTime(s)) && AtTime(SortByTime(s), t) == AtTime(s, t)
  {
    if s != [] {
      SortIsStable(s[1..], t);
      InsertChronological(s[0], SortByTime(s[1..]));
      InsertStable(s[0], SortByTime(s[1..]), t);
    }
  }

  // ----- The two functions -----

  function Replies(all: seq<Comment>, id: Id): seq<Comment> {
    if all == [] then []
    else (if all[0].parent == Some(id) then [all[0]] else []) + Replies(all[1..], id)
  }

  lemma {:induction false} RepliesMember(all: seq<Comment>, id: Id, c: Comment)
    ensures multiset(Replies(all, id))[c] == if c.parent == Some(id) then multiset(all)[c] else 0
  {
    if all != [] {
      assert all == [all[0]] + all[1..];
      RepliesMember(all[1..], id, c);
    }
  }

  function DirectReplies(all: seq<Comment>, id: Id): seq<Comment> {
    SortByTime(Replies(all, id))
  }

  /** getDescendants with a bound on the depth of its recursion; None when the bound does not suffice */
  function Descendants(all: seq<Comment>, id: Id, depth: nat): Option<seq<Comment>>
    decreases depth, 0
  {
    if depth == 0 then None
    else
      var direct := DirectReplies(all, id);
      match Below(all, direct, depth - 1)
      case None => None
      case Some(deeper) => Some(SortByTime(direct + deeper))
  }

  /** The descendants of the replies, one reply after the other */
  function Below(all: seq<Comment>, replies: seq<Comment>, depth: nat): Option<seq<Comment>>
    decreases depth, |replies| + 1
  {
    if replies == [] then Some([])
    else
      var first := Descendants(all, replies[0].id, depth);
      var rest := Below(all, replies[1..], depth);
      if first.None? || rest.None? then None else Some(first.value + rest.value)
  }

  // ----- The parent relation -----

  /** Entries with one id are copies of one comment: an id is the hash of the event's contents. */
  predicate Consistent(all: seq<Comment>) {
    forall c, d | c in all && d in all && c.id == d.id :: c == d
  }

  function ParentOf(all: seq<Comment>, id: Id): Option<Id> {
    if all == [] then None
    else if all[0].id == id then all[0].parent
    else ParentOf(all[1..], id)
  }

  /** The n-th ancestor of an id; every id on the way but the last belongs to a comment. */
  function Ancestor(all: seq<Comment>, id: Id, n: nat): Option<Id>
    decreases n
  {
    if n == 0 then Some(id)
    else
      match ParentOf(all, id)
      case None => None
      case Some(p) => Ancestor(all, p, n - 1)
  }

  ghost predicate Descends(all: seq<Comment>, id: Id, c: Comment) {
    c in all && exists n :: n >= 1 && Ancestor(all, c.id, n) == Some(id)
  }

  lemma {:induction false} ParentOfComment(all: seq<Comment>, c: Comment)
    requires Consistent(all) && c in all
    ensures ParentOf(all, c.id) == c.parent
  {
    assert all[0] in all;
    if all[0].id != c.id {
      assert c in all[1..] && forall x | x in all[1..] :: x in all;
      ParentOfComment(all[1..], c);
    }
  }

  lemma {:induction false} ParentFound(all: seq<Comment>, id: Id)
    requires ParentOf(all, id).Some?
    ensures exists c :: c in all && c.id == id && c.parent == ParentOf(all, id)
  {
    if all[0].id != id {
      ParentFound(all[1..], id);
      var c :| c in all[1..] && c.id == id && c.parent == ParentOf(all[1..], id);
      assert c in all;
    } else {
      assert all[0] in all;
    }
  }

  lemma {:induction false} SameComment(all: seq<Comment>, c: Comment, d: Comment)
    requires Consistent(all) && c in all && d in all && c.id == d.id
    ensures c == d
  {
  }

  lemma {:induction false} AncestorChain(all: seq<Comment>, id: Id, m: nat, n: nat)
    requires Ancestor(all, id, m).Some?
    ensures Ancestor(all, id, m + n) == Ancestor(all, Ancestor(all, id, m).value, n)
    decreases m
  {
    if m > 0 { AncestorChain(all, ParentOf(all, id).value, m - 1, n); }
  }

  lemma {:induction false} AncestorPrefix(all: seq<Comment>, id: Id, m: nat, n: nat)
    requires Ancestor(all, id, n).Some? && m <= n
    ensures Ancestor(all, id, m).Some?
    ensures m < n ==> ParentOf(all, Ancestor(all, id, m).value).Some?
    decreases m
  {
    if m > 0 { AncestorPrefix(all, ParentOf(all, id).value, m - 1, n - 1); }
  }

  /** A chain to id ends in a reply to id. */
  lemma {:induction false} LastLink(all: seq<Comment>, id: Id, x: Id, n: nat)
    requires Consistent(all) && n >= 1 && Ancestor(all, x, n) == Some(id)
    ensures exists d :: d in all && d.parent == Some(id) && Ancestor(all, x, n - 1) == Some(d.id)
  {
    AncestorPrefix(all, x, n - 1, n);
    var y := Ancestor(all, x, n - 1).value;
    AncestorChain(all, x, n - 1, 1);
    assert Ancestor(all, y, 1) == Some(id);
    assert ParentOf(all, y).Some? && Ancestor(all, ParentOf(all, y).value, 0) == Some(id);
    ParentFound(all, y);
  }

  lemma {:induction false} ReplyLink(all: seq<Comment>, d: Comment, n: nat)
    requires Consistent(all) && d in all && d.parent.Some?
    ensures Ancestor(all, d.id, n + 1) == Ancestor(all, d.parent.value, n)
  {
    ParentOfComment(all, d);
  }

  // ----- When the recursion ends -----

  lemma {:induction false} DirectMember(all: seq<Comment>, id: Id, c: Comment)
    ensures c in DirectReplies(all, id) <==> c in all && c.parent == Some(id)
    ensures multiset(DirectReplies(all, id))[c] == if c.parent == Some(id) then multiset(all)[c] else 0
  {
    RepliesMember(all, id, c);
    SortMembers(Replies(all, id));
    hide Replies, SortByTime;
    assert c in DirectReplies(all, id) <==> c in multiset(DirectReplies(all, id));
    assert c in all <==> c in multiset(all);
  }

  lemma {:induction false} BelowSome(all: seq<Comment>, replies: seq<Comment>, depth: nat)
    ensures Below(all, replies, depth).Some? <==> forall d | d in replies :: Descendants(all, d.id, depth).Some?
    decreases |replies|
  {
    hide Descendants;
    if replies != [] {
      BelowSome(all, replies[1..], depth);
      assert forall d :: d in replies <==> d == replies[0] || d in replies[1..];
    }
  }

  lemma {:induction false} DescendantsStep(all: seq<Comment>, id: Id, depth: nat)
    requires depth > 0
    ensures var direct := DirectReplies(all, id); var deeper := Below(all, direct, depth - 1);
            Descendants(all, id, depth) == if deeper.None? then None else Some(SortByTime(direct + deeper.value))
  {
  }

  lemma {:induction false} DepthPositive(all: seq<Comment>, id: Id, depth: nat)
    requires Descendants(all, id, depth).Some?
    ensures depth > 0
  {
  }

  lemma {:induction false} BelowStep(all: seq<Comment>, replies: seq<Comment>, depth: nat)
    requires replies != []
    ensures var first := Descendants(all, replies[0].id, depth); var rest := Below(all, replies[1..], depth);
            Below(all, replies, depth) == if first.None? || rest.None? then None else Some(first.value + rest.value)
  {
  }

  lemma {:induction false} DescendantsSome(all: seq<Comment>, id: Id, depth: nat)
    requires depth > 0
    ensures Descendants(all, id, depth).Some? <==>
            forall d | d in all && d.parent == Some(id) :: Descendants(all, d.id, depth - 1).Some?
  {
    hide *;
    DescendantsStep(all, id, depth);
    var direct := DirectReplies(all, id);
    BelowSome(all, direct, depth - 1);
    forall d ensures d in direct <==> d in all && d.parent == Some(id) { DirectMember(all, id, d); }
  }

  lemma {:induction false} AtTimeReplies(all: seq<Comment>, id: Id, t: int)
    ensures AtTime(Replies(all, id), t) == RepliesAt(all, id, t)
  {
    if all != [] {
      AtTimeReplies(all[1..], id, t);
      if all[0].parent == Some(id) { AtTimeCons(all[0], Replies(all[1..], id), t); }
      assert [] + Replies(all[1..], id) == Replies(all[1..], id);
    }
  }

  /** The entries of the list with this parent and this time, in their order */
  function RepliesAt(all: seq<Comment>, id: Id, t: int): seq<Comment> {
    if all == [] then []
    else (if all[0].parent == Some(id) && all[0].createdAt == t then [all[0]] else []) + RepliesAt(all[1..], id, t)
  }

  /** The direct replies come oldest first, and those of one moment in the order of the list. */
  lemma {:induction false} DirectInOrder(all: seq<Comment>, id: Id)
    ensures Chronological(DirectReplies(all, id))
    ensures forall t :: AtTime(DirectReplies(all, id), t) == RepliesAt(all, id, t)
  {
    forall t ensures AtTime(DirectReplies(all, id), t) == RepliesAt(all, id, t) {
      SortIsStable(Replies(all, id), t);
      AtTimeReplies(all, id, t);
    }
    SortIsStable(Replies(all, id), 0);
  }

  /** Some chain of n links leads to id. */
  ghost predicate Deep(all: seq<Comment>, id: Id, n: nat) {
    exists x :: Ancestor(all, x, n) == Some(id)
  }

  lemma {:induction false} DeepStep(all: seq<Comment>, id: Id, n: nat)
    requires Consistent(all)
    ensures Deep(all, id, n + 1) <==> exists d :: d in all && d.parent == Some(id) && Deep(all, d.id, n)
  {
    hide Consistent;
    if Deep(all, id, n + 1) {
      var x :| Ancestor(all, x, n + 1) == Some(id);
      LastLink(all, id, x, n + 1);
    }
    if d :| d in all && d.parent == Some(id) && Deep(all, d.id, n) {
      var x :| Ancestor(all, x, n) == Some(d.id);
      AncestorChain(all, x, n, 1);
      ReplyLink(all, d, 0);
      assert Ancestor(all, x, n + 1) == Some(id);
    }
  }

  /** The recursion must go as deep as the chains to id. */
  lemma {:induction false} DepthNeeded(all: seq<Comment>, id: Id, depth: nat)
    requires Consistent(all)
    ensures Descendants(all, id, depth).Some? <==> depth > 0 && !Deep(all, id, depth)
    decreases depth
  {
    if depth > 0 {
      DescendantsSome(all, id, depth);
      DeepStep(all, id, depth - 1);
      hide Consistent, Descendants, Deep;
      forall d | d in all && d.parent == Some(id)
        ensures Descendants(all, d.id, depth - 1).Some? <==> !Deep(all, d.id, depth - 1)
      {
        DepthNeeded(all, d.id, depth - 1);
        if depth == 1 { ItselfDeep(all, d.id); }
      }
    }
  }

  lemma {:induction false} ItselfDeep(all: seq<Comment>, id: Id)
    ensures Deep(all, id, 0)
  {
    assert Ancestor(all, id, 0) == Some(id);
  }

  /** Some id that leads up to `id` is an ancestor of itself. */
  ghost predicate CycleBelow(all: seq<Comment>, id: Id) {
    exists x, n, k :: Ancestor(all, x, n) == Some(id) && Loops(all, x, k)
  }

  predicate Loops(all: seq<Comment>, x: Id, k: int) {
    k >= 1 && Ancestor(all, x, k) == Some(x)
  }

  lemma {:induction false} LoopAround(all: seq<Comment>, x: Id, k: nat, m: nat)
    requires Loops(all, x, k)
    ensures exists n: nat :: n >= m && Ancestor(all, x, n) == Some(x)
    decreases m
  {
    if m == 0 {
      assert Ancestor(all, x, k) == Some(x);
    } else {
      LoopAround(all, x, k, m - 1);
      var n: nat :| n >= m - 1 && Ancestor(all, x, n) == Some(x);
      AncestorChain(all, x, n, k);
      assert Ancestor(all, x, n + k) == Some(x);
    }
  }

  function Ids(all: seq<Comment>): set<Id> {
    set c | c in all :: c.id
  }

  lemma {:induction false} IdsCount(all: seq<Comment>)
    ensures |Ids(all)| <= |all|
  {
    if all != [] {
      IdsCount(all[1..]);
      assert all == [all[0]] + all[1..];
      assert Ids(all) == Ids(all[1..]) + {all[0].id};
    }
  }

  /** More places than values: two places hold the same value. */
  lemma {:induction false} Pigeonhole<T>(s: seq<T>, values: set<T>)
    requires |s| > |values| && forall v | v in s :: v in values
    ensures exists i, j :: 0 <= i < j < |s| && s[i] == s[j]
  {
    var n := |s| - 1;
    if exists i :: 0 <= i < n && s[i] == s[n] {
    } else {
      assert s[n] in values;
      if n > 0 {
        forall v | v in s[..n] ensures v in values - {s[n]} {
          var i :| 0 <= i < n && s[..n][i] == v;
          assert s[i] == v;
        }
        Pigeonhole(s[..n], values - {s[n]});
        var i, j :| 0 <= i < j < n && s[..n][i] == s[..n][j];
        assert s[i] == s[j];
      }
    }
  }

  lemma {:induction false} LongChainLoops(all: seq<Comment>, id: Id, x: Id)
    requires Ancestor(all, x, |all| + 1) == Some(id)
    ensures CycleBelow(all, id)
  {
    var n := |all| + 1;
    forall i: nat | i < n ensures Ancestor(all, x, i).Some? && Ancestor(all, x, i).value in Ids(all) {
      AncestorPrefix(all, x, i, n);
      ParentFound(all, Ancestor(all, x, i).value);
    }
    var chain := seq(n, i requires 0 <= i < n => Ancestor(all, x, i).value);
    IdsCount(all);
    Pigeonhole(chain, Ids(all));
    var i, j :| 0 <= i < j < n && chain[i] == chain[j];
    var y := chain[i];
    AncestorChain(all, x, i, j - i);
    AncestorChain(all, x, i, n - i);
    assert Loops(all, y, j - i) && Ancestor(all, y, n - i) == Some(id);
  }

  /** getDescendants ends if and only if no comment that leads up to the given one is its own ancestor
      (the given one included); then one level more than there are comments suffices. */
  lemma {:induction false} EndsIffNoCycle(all: seq<Comment>, id: Id)
    requires Consistent(all)
    ensures (exists depth :: Descendants(all, id, depth).Some?) <==> !CycleBelow(all, id)
    ensures !CycleBelow(all, id) ==> Descendants(all, id, |all| + 1).Some?
  {
    hide Consistent, Descendants;
    if CycleBelow(all, id) {
      var x, n, k :| Ancestor(all, x, n) == Some(id) && Loops(all, x, k);
      forall depth ensures Descendants(all, id, depth).None? {
        DepthNeeded(all, id, depth);
        LoopAround(all, x, k, depth);
        var m: nat :| m >= depth && Ancestor(all, x, m) == Some(x);
        AncestorChain(all, x, m, n);
        AncestorPrefix(all, x, m + n - depth, m + n);
        AncestorChain(all, x, m + n - depth, depth);
        assert Deep(all, id, depth);
      }
    } else {
      DepthNeeded(all, id, |all| + 1);
      if Deep(all, id, |all| + 1) {
        var x :| Ancestor(all, x, |all| + 1) == Some(id);
        LongChainLoops(all, id, x);
      }
    }
  }

  // ----- What the result contains -----

  predicate SelfAncestor(all: seq<Comment>, id: Id, k: nat) {
    k >= 1 && Ancestor(all, id, k) == Some(id)
  }

  /** Where the recursion ends, id is not below itself. */
  lemma {:induction false} NotBelowItself(all: seq<Comment>, id: Id, depth: nat, k: nat)
    requires Consistent(all) && Descendants(all, id, depth).Some?
    ensures !SelfAncestor(all, id, k)
  {
    hide Consistent, Descendants;
    if SelfAncestor(all, id, k) {
      assert Ancestor(all, id, 0) == Some(id) && Loops(all, id, k);
      assert CycleBelow(all, id);
      EndsIffNoCycle(all, id);
    }
  }

  /** A comment below two replies to id would put id below itself. */
  lemma {:induction false} OneBranch(all: seq<Comment>, id: Id, d: Comment, e: Comment, x: Id, m: nat, n: nat)
    requires Consistent(all) && d in all && e in all && d != e && d.parent == Some(id) && e.parent == Some(id)
    requires m <= n && Ancestor(all, x, m) == Some(d.id) && Ancestor(all, x, n) == Some(e.id)
    ensures n - m >= 1 && SelfAncestor(all, id, n - m)
  {
    if m == n { SameComment(all, d, e); }
    hide Consistent;
    AncestorChain(all, x, m, n - m);
    ReplyLink(all, d, n - m - 1);
    AncestorChain(all, id, n - m - 1, 1);
    ReplyLink(all, e, 0);
    assert Ancestor(all, id, 0) == Some(id);
  }

  lemma {:induction false} DescendsThrough(all: seq<Comment>, id: Id, c: Comment)
    requires Consistent(all)
    ensures Descends(all, id, c) <==>
            c in all && (c.parent == Some(id) ||
                         exists d :: d in all && d.parent == Some(id) && Descends(all, d.id, c))
  {
    hide Consistent;
    if Descends(all, id, c) {
      var n :| n >= 1 && Ancestor(all, c.id, n) == Some(id);
      LastLink(all, id, c.id, n);
      var d :| d in all && d.parent == Some(id) && Ancestor(all, c.id, n - 1) == Some(d.id);
      if n > 1 { assert Descends(all, d.id, c); }
      else { assert d.id == c.id; SameId(all, c, d); }
    }
    if c in all && c.parent == Some(id) {
      ReplyLink(all, c, 0);
      assert Ancestor(all, c.id, 1) == Some(id);
    }
    if d :| d in all && d.parent == Some(id) && Descends(all, d.id, c) {
      var n :| n >= 1 && Ancestor(all, c.id, n) == Some(d.id);
      AncestorChain(all, c.id, n, 1);
      ReplyLink(all, d, 0);
      assert Ancestor(all, c.id, n + 1) == Some(id);
    }
  }

  lemma {:induction false} SameId(all: seq<Comment>, c: Comment, d: Comment)
    requires Consistent(all) && c in all && d in all && c.id == d.id
    ensures c.parent == d.parent
  {
    SameComment(all, c, d);
  }

  /** c is below at most one of the replies to id, and not below one when it is a reply itself. */
  ghost predicate Branching(all: seq<Comment>, id: Id, c: Comment) {
    && (forall d, e | d in all && e in all && d.parent == Some(id) && e.parent == Some(id)
                      && Descends(all, d.id, c) && Descends(all, e.id, c) :: d == e)
    && (c.parent == Some(id) ==> forall d | d in all && d.parent == Some(id) :: !Descends(all, d.id, c))
  }

  lemma {:induction false} BranchesApart(all: seq<Comment>, id: Id, depth: nat, c: Comment)
    requires Consistent(all) && Descendants(all, id, depth).Some? && c in all
    ensures Branching(all, id, c)
  {
    hide Consistent, Descendants;
    forall d, e | d in all && e in all && d.parent == Some(id) && e.parent == Some(id)
                  && Descends(all, d.id, c) && Descends(all, e.id, c)
      ensures d == e
    {
      if d != e {
        var m :| m >= 1 && Ancestor(all, c.id, m) == Some(d.id);
        var n :| n >= 1 && Ancestor(all, c.id, n) == Some(e.id);
        if m <= n {
          OneBranch(all, id, d, e, c.id, m, n);
          NotBelowItself(all, id, depth, n - m);
        } else {
          OneBranch(all, id, e, d, c.id, n, m);
          NotBelowItself(all, id, depth, m - n);
        }
      }
    }
    if c.parent == Some(id) {
      forall d | d in all && d.parent == Some(id) ensures !Descends(all, d.id, c) {
        if Descends(all, d.id, c) {
          var n :| n >= 1 && Ancestor(all, c.id, n) == Some(d.id);
          AncestorChain(all, c.id, n, 1);
          ReplyLink(all, d, 0);
          ReplyLink(all, c, n);
          assert Ancestor(all, c.id, n + 1) == Some(id);
          NotBelowItself(all, id, depth, n);
        }
      }
    }
  }

  lemma {:induction false} OnlyDescendants(all: seq<Comment>, id: Id, depth: nat, c: Comment)
    requires Consistent(all) && Descendants(all, id, depth).Some? && c in Descendants(all, id, depth).value
    ensures Descends(all, id, c)
    decreases depth, 0
  {
    hide *;
    DepthPositive(all, id, depth);
    DescendantsStep(all, id, depth);
    var direct := DirectReplies(all, id);
    var deeper := Below(all, direct, depth - 1).value;
    SortMember(direct + deeper, c);
    DescendsThrough(all, id, c);
    DirectMember(all, id, c);
    if c in deeper {
      var d := OnlyBelow(all, direct, depth - 1, c);
      DirectMember(all, id, d);
      DescendsIn(all, d.id, c);
    }
  }

  lemma {:induction false} DescendsIn(all: seq<Comment>, id: Id, c: Comment)
    requires Descends(all, id, c)
    ensures c in all
  {
  }

  lemma {:induction false} OnlyBelow(all: seq<Comment>, replies: seq<Comment>, depth: nat, c: Comment)
      returns (d: Comment)
    requires Consistent(all) && Below(all, replies, depth).Some? && c in Below(all, replies, depth).value
    ensures d in replies && Descends(all, d.id, c)
    decreases depth, |replies| + 1
  {
    hide *;
    if replies == [] {
      BelowNone(all, depth);
      assert false;
    } else {
      BelowStep(all, replies, depth);
      if c in Descendants(all, replies[0].id, depth).value {
        d := replies[0];
        OnlyDescendants(all, d.id, depth, c);
      } else {
        d := OnlyBelow(all, replies[1..], depth, c);
      }
    }
  }

  // ----- How often each descendant occurs -----

  /** How many entries of the list have this id */
  function Copies(all: seq<Comment>, id: Id): nat {
    if all == [] then 0 else (if all[0].id == id then 1 else 0) + Copies(all[1..], id)
  }

  /** In how many ways a copy can be chosen of each comment on the chain from x to its n-th ancestor, the last left
      out */
  function Ways(all: seq<Comment>, x: Id, n: nat): nat {
    if n == 0 then 1
    else
      match Ancestor(all, x, n - 1)
      case None => 0
      case Some(y) => Ways(all, x, n - 1) * Copies(all, y)
  }

  lemma {:induction false} CopiesOf(all: seq<Comment>, c: Comment)
    requires forall x | x in all && x.id == c.id :: x == c
    ensures multiset(all)[c] == Copies(all, c.id)
  {
    if all != [] {
      assert all == [all[0]] + all[1..];
      CopiesOf(all[1..], c);
    }
  }

  lemma {:induction false} DirectCopies(all: seq<Comment>, id: Id, d: Comment)
    requires Consistent(all) && d in all
    ensures multiset(DirectReplies(all, id))[d] == if d.parent == Some(id) then Copies(all, d.id) else 0
  {
    DirectMember(all, id, d);
    CopiesOf(all, d);
    hide DirectReplies, Copies;
  }

  /** Only the copies of d contribute, and each as much. */
  lemma {:induction false} CountBelow(all: seq<Comment>, replies: seq<Comment>, depth: nat, c: Comment, d: Comment,
                                      k: nat)
    requires Consistent(all) && Below(all, replies, depth).Some?
    requires forall e | e in replies && e != d :: !Descends(all, e.id, c)
    requires d in replies ==>
               Descendants(all, d.id, depth).Some? && multiset(Descendants(all, d.id, depth).value)[c] == k
    ensures multiset(Below(all, replies, depth).value)[c] == multiset(replies)[d] * k
    decreases |replies|
  {
    hide *;
    if replies == [] {
      BelowNone(all, depth);
    } else {
      var e, rest := replies[0], replies[1..];
      BelowStep(all, replies, depth);
      CountBelow(all, rest, depth, c, d, k);
      var first, more := Descendants(all, e.id, depth).value, Below(all, rest, depth).value;
      if e != d && c in first { OnlyDescendants(all, e.id, depth, c); }
      assert replies == [e] + rest;
      assert multiset(first + more)[c] == multiset(first)[c] + multiset(more)[c];
      OneMore(multiset(rest)[d], k);
    }
  }

  lemma {:induction false} OneMore(m: nat, k: nat)
    ensures (m + 1) * k == m * k + k
  {
  }

  lemma {:induction false} JoinCounts(direct: seq<Comment>, deeper: seq<Comment>, c: Comment)
    ensures multiset(SortByTime(direct + deeper))[c] == multiset(direct)[c] + multiset(deeper)[c]
  {
    SortMembers(direct + deeper);
    hide SortByTime;
    assert multiset(direct + deeper) == multiset(direct) + multiset(deeper);
  }

  lemma {:induction false} WaysStep(all: seq<Comment>, x: Id, n: nat, y: Id)
    requires Ancestor(all, x, n) == Some(y)
    ensures Ways(all, x, 0) == 1 && Ways(all, x, n + 1) == Ways(all, x, n) * Copies(all, y)
  {
  }

  /** Below one reply only: c is d's descendant and no other reply's, and no reply itself, unless it is d. */
  lemma {:induction false} OneReplyAbove(all: seq<Comment>, id: Id, depth: nat, c: Comment, n: nat) returns (d: Comment)
    requires Consistent(all) && Descendants(all, id, depth).Some? && c in all
    requires n >= 1 && Ancestor(all, c.id, n) == Some(id)
    ensures d in all && d.parent == Some(id) && Ancestor(all, c.id, n - 1) == Some(d.id)
    ensures forall e | e in all && e.parent == Some(id) && (e != d || n == 1) :: !Descends(all, e.id, c)
    ensures if n == 1 then d == c else c.parent != Some(id)
  {
    BranchesApart(all, id, depth, c);
    LastLink(all, id, c.id, n);
    hide Descendants;
    d :| d in all && d.parent == Some(id) && Ancestor(all, c.id, n - 1) == Some(d.id);
    if n == 1 {
      assert Ancestor(all, c.id, 0) == Some(c.id);
      SameComment(all, c, d);
    } else {
      assert Descends(all, d.id, c);
    }
  }

  lemma {:induction false} CountDescendants(all: seq<Comment>, id: Id, depth: nat, c: Comment, n: nat)
    requires Consistent(all) && Descendants(all, id, depth).Some? && c in all
    requires n >= 1 && Ancestor(all, c.id, n) == Some(id)
    ensures multiset(Descendants(all, id, depth).value)[c] == Ways(all, c.id, n)
    decreases depth
  {
    hide *;
    DepthPositive(all, id, depth);
    DescendantsStep(all, id, depth);
    var direct := DirectReplies(all, id);
    var deeper := Below(all, direct, depth - 1).value;
    var d := OneReplyAbove(all, id, depth, c, n);
    forall e ensures e in direct <==> e in all && e.parent == Some(id) { DirectMember(all, id, e); }
    JoinCounts(direct, deeper, c);
    DirectCopies(all, id, c);
    DirectCopies(all, id, d);
    WaysStep(all, c.id, n - 1, d.id);
    if n == 1 {
      if c in deeper { var e := OnlyBelow(all, direct, depth - 1, c); }
    } else {
      BelowSome(all, direct, depth - 1);
      CountDescendants(all, d.id, depth - 1, c, n - 1);
      CountBelow(all, direct, depth - 1, c, d, Ways(all, c.id, n - 1));
    }
  }

  lemma {:induction false} CopiesPositive(all: seq<Comment>, c: Comment)
    requires c in all
    ensures Copies(all, c.id) >= 1
  {
    if all[0] != c { CopiesPositive(all[1..], c); }
  }

  lemma {:induction false} ProductPositive(a: nat, b: nat)
    requires a >= 1 && b >= 1
    ensures a * b >= 1
  {
  }

  lemma {:induction false} WaysPositive(all: seq<Comment>, x: Id, n: nat)
    requires Ancestor(all, x, n).Some?
    ensures Ways(all, x, n) >= 1
    decreases n
  {
    if n > 0 {
      AncestorPrefix(all, x, n - 1, n);
      WaysPositive(all, x, n - 1);
      var y := Ancestor(all, x, n - 1).value;
      ParentFound(all, y);
      var c :| c in all && c.id == y;
      CopiesPositive(all, c);
      WaysStep(all, x, n - 1, y);
      ProductPositive(Ways(all, x, n - 1), Copies(all, y));
    }
  }

  /** Whenever getDescendants ends, its result holds the proper descendants of the comment and nothing else, oldest
      first, and each as often as one can choose a copy of every comment on the chain from it up to the given one. */
  lemma {:induction false} ExactlyTheDescendants(all: seq<Comment>, id: Id, depth: nat)
    requires Consistent(all) && Descendants(all, id, depth).Some?
    ensures var r := Descendants(all, id, depth).value;
            && Chronological(r)
            && (forall c :: c in r <==> Descends(all, id, c))
            && (forall c, n: nat | c in all && n >= 1 && Ancestor(all, c.id, n) == Some(id) ::
                  multiset(r)[c] == Ways(all, c.id, n))
  {
    var r := Descendants(all, id, depth).value;
    DescendantsStep(all, id, depth);
    SortIsStable(DirectReplies(all, id) + Below(all, DirectReplies(all, id), depth - 1).value, 0);
    hide Descendants, Below, DirectReplies, Consistent, SortByTime, Ways, Ancestor, Chronological;
    forall c, n: nat | c in all && n >= 1 && Ancestor(all, c.id, n) == Some(id)
      ensures multiset(r)[c] == Ways(all, c.id, n) && Ways(all, c.id, n) >= 1
    {
      CountDescendants(all, id, depth, c, n);
      WaysPositive(all, c.id, n);
    }
    forall c ensures c in r <==> Descends(all, id, c) {
      if c in r { OnlyDescendants(all, id, depth, c); }
      if Descends(all, id, c) {
        var n: nat :| n >= 1 && Ancestor(all, c.id, n) == Some(id);
        assert multiset(r)[c] >= 1;
      }
    }
  }

  predicate UniqueIds(all: seq<Comment>) {
    forall i, j | 0 <= i < j < |all| :: all[i].id != all[j].id
  }

  lemma {:induction false} CopiesAtMostOne(all: seq<Comment>, id: Id)
    requires UniqueIds(all)
    ensures Copies(all, id) <= 1
    ensures Copies(all, id) == 1 ==> exists i :: 0 <= i < |all| && all[i].id == id
  {
    if all != [] { CopiesAtMostOne(all[1..], id); }
  }

  lemma {:induction false} WaysAtMostOne(all: seq<Comment>, x: Id, n: nat)
    requires UniqueIds(all)
    ensures Ways(all, x, n) <= 1
  {
    if n > 0 && Ancestor(all, x, n - 1).Some? {
      WaysAtMostOne(all, x, n - 1);
      CopiesAtMostOne(all, Ancestor(all, x, n - 1).value);
    }
  }

  /** When no comment is listed twice, the result holds every proper descendant exactly once. */
  lemma {:induction false} EachDescendantOnce(all: seq<Comment>, id: Id, depth: nat)
    requires UniqueIds(all) && Descendants(all, id, depth).Some?
    ensures forall c :: multiset(Descendants(all, id, depth).value)[c] == if Descends(all, id, c) then 1 else 0
  {
    assert Consistent(all);
    var r := Descendants(all, id, depth).value;
    hide UniqueIds, Consistent, Descendants, Ways;
    ExactlyTheDescendants(all, id, depth);
    forall c ensures multiset(r)[c] == if Descends(all, id, c) then 1 else 0 {
      assert c in r <==> c in multiset(r);
      if Descends(all, id, c) {
        var n: nat :| n >= 1 && Ancestor(all, c.id, n) == Some(id);
        WaysAtMostOne(all, c.id, n);
      }
    }
  }

  // ----- The order of comments of one moment -----

  /** The descendants of one moment, one reply after the other */
  function LaterAt(all: seq<Comment>, replies: seq<Comment>, depth: nat, t: int): seq<Comment>
    requires forall d | d in replies :: Descendants(all, d.id, depth).Some?
  {
    if replies == [] then []
    else AtTime(Descendants(all, replies[0].id, depth).value, t) + LaterAt(all, replies[1..], depth, t)
  }

  lemma {:induction false} AtTimeConcat(a: seq<Comment>, b: seq<Comment>, t: int)
    ensures AtTime(a + b, t) == AtTime(a, t) + AtTime(b, t)
  {
    if a == [] {
      assert a + b == b;
    } else {
      AtTimeConcat(a[1..], b, t);
      assert a == [a[0]] + a[1..] && a + b == [a[0]] + (a[1..] + b);
      AtTimeCons(a[0], a[1..] + b, t);
      AtTimeCons(a[0], a[1..], t);
    }
  }

  lemma {:induction false} BelowAt(all: seq<Comment>, replies: seq<Comment>, depth: nat, t: int)
    requires Below(all, replies, depth).Some?
    ensures forall d | d in replies :: Descendants(all, d.id, depth).Some?
    ensures AtTime(Below(all, replies, depth).value, t) == LaterAt(all, replies, depth, t)
    decreases |replies|
  {
    hide Below, Descendants;
    BelowSome(all, replies, depth);
    if replies == [] {
      BelowNone(all, depth);
    } else {
      BelowStep(all, replies, depth);
      BelowAt(all, replies[1..], depth, t);
      AtTimeConcat(Descendants(all, replies[0].id, depth).value, Below(all, replies[1..], depth).value, t);
    }
  }

  /** Of the comments of one moment the direct replies come first, in the order of the list, and then the descendants of
      the first direct reply, those of the second, and so on. */
  lemma {:induction false} DescendantsInOrder(all: seq<Comment>, id: Id, depth: nat, t: int)
    requires depth > 0 && Descendants(all, id, depth).Some?
    ensures forall d | d in DirectReplies(all, id) :: Descendants(all, d.id, depth - 1).Some?
    ensures AtTime(Descendants(all, id, depth).value, t) ==
            RepliesAt(all, id, t) + LaterAt(all, DirectReplies(all, id), depth - 1, t)
  {
    hide Below, Descendants, DirectReplies, SortByTime;
    DescendantsStep(all, id, depth);
    DirectInOrder(all, id);
    var direct := DirectReplies(all, id);
    var deeper := Below(all, direct, depth - 1).value;
    BelowAt(all, direct, depth - 1, t);
    SortIsStable(direct + deeper, t);
    AtTimeConcat(direct, deeper, t);
  }

  // ----- The recursion in its own form -----

  lemma {:induction false} BelowNext(all: seq<Comment>, replies: seq<Comment>, d: Comment, depth: nat)
    requires Below(all, replies, depth).Some? && Descendants(all, d.id, depth).Some?
    ensures Below(all, replies + [d], depth) ==
            Some(Below(all, replies, depth).value + Descendants(all, d.id, depth).value)
    decreases |replies|
  {
    hide Below, Descendants;
    BelowStep(all, replies + [d], depth);
    BelowNone(all, depth);
    if replies == [] {
      assert (replies + [d])[1..] == [];
      assert Descendants(all, d.id, depth).value + [] == [] + Descendants(all, d.id, depth).value;
    } else {
      BelowStep(all, replies, depth);
      BelowNext(all, replies[1..], d, depth);
      assert (replies + [d])[1..] == replies[1..] + [d];
      var x, y, z := Descendants(all, replies[0].id, depth).value, Below(all, replies[1..], depth).value,
                     Descendants(all, d.id, depth).value;
      assert x + (y + z) == (x + y) + z;
    }
  }

  lemma {:induction false} BelowTake(all: seq<Comment>, replies: seq<Comment>, i: nat, depth: nat)
    requires i < |replies| && Below(all, replies[..i], depth).Some? && Descendants(all, replies[i].id, depth).Some?
    ensures Below(all, replies[..i + 1], depth) ==
            Some(Below(all, replies[..i], depth).value + Descendants(all, replies[i].id, depth).value)
  {
    hide Below, Descendants;
    BelowNext(all, replies[..i], replies[i], depth);
    assert replies[..i] + [replies[i]] == replies[..i + 1];
  }

  lemma {:induction false} Associate<T>(a: seq<T>, b: seq<T>, c: seq<T>)
    ensures a + b + c == a + (b + c)
  {
  }

  lemma {:induction false} Unit<T>(a: seq<T>)
    ensures a + [] == a && a[..0] == [] && a[..|a|] == a
  {
  }

  lemma {:induction false} BelowNone(all: seq<Comment>, depth: nat)
    ensures Below(all, [], depth) == Some([])
  {
  }

  /** The result list is extended in a loop over the direct replies and sorted at the end. */
  method GetDescendants(all: seq<Comment>, commentId: Id, ghost depth: nat) returns (sorted: seq<Comment>)
    requires Descendants(all, commentId, depth).Some?
    ensures Some(sorted) == Descendants(all, commentId, depth)
    decreases depth
  {
    hide *;
    DepthPositive(all, commentId, depth);
    DescendantsStep(all, commentId, depth);
    var directReplies := DirectReplies(all, commentId);
    var allDescendants := directReplies;
    BelowSome(all, directReplies, depth - 1);
    BelowNone(all, depth - 1);
    Unit(directReplies);
    var i := 0;
    while i < |directReplies|
      invariant 0 <= i <= |directReplies|
      invariant Below(all, directReplies[..i], depth - 1).Some?
      invariant allDescendants == directReplies + Below(all, directReplies[..i], depth - 1).value
    {
      ghost var deeper := Below(all, directReplies[..i], depth - 1).value;
      BelowTake(all, directReplies, i, depth - 1);
      var more := GetDescendants(all, directReplies[i].id, depth - 1);
      Associate(directReplies, deeper, more);
      allDescendants := allDescendants + more;
      i := i + 1;
    }
    Unit(directReplies);
    sorted := SortByTime(allDescendants);
  }
}
