/**
  What happens between two resets of a player's sources, however the answers and everything else come in between: where
  the index is after some failures, when the failure is reported, and which URLs the effect captures in which order.
 */
module VideoResets {
  import opened Numbers
  import opened Options
  import opened VideoFallback

  // ----- The index, the flag and the reports -----

  /** What starts the search for a source over */
  predicate Resets(step: Step) {
    step.NewUrls? || step.NewHls? || step.AgeConfirmed?
  }

  predicate NoResets(h: seq<Step>) {
    forall k | 0 <= k < |h| :: !Resets(h[k])
  }

  function FailuresIn(h: seq<Step>): nat {
    if h == [] then 0 else FailuresIn(h[..|h| - 1]) + (if h[|h| - 1].Failure? then 1 else 0)
  }

  /** Indices that have not been current yet */
  function Remaining(p: Player): nat {
    Max(|p.video.urls| - 1 - p.video.current, 0)
  }

  /** One more failure is absorbed when the HLS flag is unspent. */
  function Spare(p: Player): nat {
    if p.video.hlsUrl != "" && !p.triedHls then 1 else 0
  }

  lemma {:induction false} AfterLast(p: Player, b: Browser, h: seq<Step>)
    ensures h == [] ==> After(p, b, h) == p && FailuresIn(h) == 0
    ensures h != [] ==>
              var g, step := h[..|h| - 1], h[|h| - 1];
              && After(p, b, h) == Next(After(p, b, g), b, step)
              && FailuresIn(h) == FailuresIn(g) + (if step.Failure? then 1 else 0)
              && (NoResets(h) ==> NoResets(g) && !Resets(step))
  {
    hide Next;
  }

  /** Between two resets only failures move the index, spend the flag and report. */
  lemma {:induction false} UnresetStep(p: Player, b: Browser, step: Step)
    requires !Resets(step)
    ensures var q := Next(p, b, step); var advances := p.video.current < |p.video.urls| - 1;
            && (!step.Failure? ==> q.video == p.video && q.triedHls == p.triedHls && q.shown.reports == p.shown.reports)
            && (step.Failure? ==>
                  && q.video == (if advances then p.video.(current := p.video.current + 1) else p.video)
                  && (q.triedHls <==> p.triedHls || (!advances && p.video.hlsUrl != ""))
                  && q.shown.reports == p.shown.reports + (if !advances && Spare(p) == 0 then 1 else 0)
                  && (q.shown.hasError <==> !advances && Spare(p) == 0) && (q.shown.isLoading <==> !q.shown.hasError))
  {
  }

  /** In every run without a reset, whatever is loaded, denied, answered or broken in between: after n failures the
      index has moved n places or to the last one, the flag is spent exactly when a failure came at the last index,
      and onError was called for the failures beyond these alone. */
  lemma {:induction false} AfterFailures(p: Player, b: Browser, h: seq<Step>)
    requires NoResets(h)
    ensures var q, n := After(p, b, h), FailuresIn(h);
            && q.video == p.video.(current := p.video.current + Min(n, Remaining(p)))
            && (q.triedHls <==> p.triedHls || (p.video.hlsUrl != "" && n > Remaining(p)))
            && q.shown.reports == p.shown.reports + Max(n - Remaining(p) - Spare(p), 0)
            && (h != [] && h[|h| - 1].Failure? ==> (q.shown.hasError <==> n > Remaining(p) + Spare(p))
                                                   && (q.shown.isLoading <==> !q.shown.hasError))
  {
    hide Next, After, FailuresIn, NoResets;
    AfterLast(p, b, h);
    if h != [] {
      AfterFailures(p, b, h[..|h| - 1]);
      UnresetStep(After(p, b, h[..|h| - 1]), b, h[|h| - 1]);
    }
  }

  lemma {:induction false} PrefixWith(h: seq<Step>, m: nat) returns (k: nat)
    requires m <= FailuresIn(h)
    ensures k <= |h| && FailuresIn(h[..k]) == m && (k == |h| ==> m == FailuresIn(h))
  {
    if m == FailuresIn(h) {
      k := |h|;
      assert h[..k] == h;
    } else {
      var g := h[..|h| - 1];
      k := PrefixWith(g, m);
      assert h[..k] == g[..k];
    }
  }

  /** onError is called only after every index from the first one on was current, and after the flag was spent. */
  lemma {:induction false} ReportedLast(p: Player, b: Browser, h: seq<Step>, j: nat)
    requires NoResets(h) && After(p, b, h).shown.reports > p.shown.reports
    requires p.video.current <= j < |p.video.urls|
    ensures p.video.hlsUrl != "" ==> After(p, b, h).triedHls
    ensures exists k :: 0 <= k < |h| && After(p, b, h[..k]).video.current == j
  {
    hide After, FailuresIn;
    AfterFailures(p, b, h);
    var k := PrefixWith(h, j - p.video.current);
    AfterFailures(p, b, h[..k]);
  }

  // ----- What the effect captures between two resets -----

  /** The capture of the step from u to v, if the effect ran */
  function NewCapture(u: Player, v: Player): seq<Request> {
    if v.sources.runs > u.sources.runs then [Captured(v)] else []
  }

  /** What the effect captures during the run, in order */
  function Captures(p: Player, b: Browser, h: seq<Step>): seq<Request> {
    if h == [] then []
    else Captures(p, b, h[..|h| - 1]) + NewCapture(After(p, b, h[..|h| - 1]), After(p, b, h))
  }

  /** The indices that are current when it does */
  function Indices(p: Player, b: Browser, h: seq<Step>): seq<nat> {
    if h == [] then []
    else
      Indices(p, b, h[..|h| - 1]) +
      (if NewCapture(After(p, b, h[..|h| - 1]), After(p, b, h)) == [] then [] else [After(p, b, h).video.current])
  }

  lemma {:induction false} CapturesLast(p: Player, b: Browser, h: seq<Step>)
    requires h != []
    ensures var g := h[..|h| - 1]; var added := NewCapture(After(p, b, g), After(p, b, h));
            && Captures(p, b, h) == Captures(p, b, g) + added
            && Indices(p, b, h) == Indices(p, b, g) + (if added == [] then [] else [After(p, b, h).video.current])
  {
    hide After, NewCapture;
  }

  lemma {:induction false} NothingCaptured(p: Player, b: Browser)
    ensures Captures(p, b, []) == [] && Indices(p, b, []) == []
  {
  }

  lemma {:induction false} SettledAfter(p: Player, b: Browser, h: seq<Step>)
    requires Settled(p)
    ensures Settled(After(p, b, h))
  {
    if h != [] { hide Updated; }
  }

  /** When a step between two resets makes the effect run */
  lemma {:induction false} UnresetCapture(p: Player, b: Browser, step: Step)
    requires Settled(p) && !Resets(step)
    ensures var q := Next(p, b, step);
            && q.sources.runs == p.sources.runs + |NewCapture(p, q)|
            && (p.access.requiresAuth ==> q.access.requiresAuth)
            && (q.access.requiresAuth ==> NewCapture(p, q) == [])
            && (!q.access.requiresAuth && step.Failure? && p.video.current < |p.video.urls| - 1 ==>
                  NewCapture(p, q) != [])
            && (step.Verification? || step.NewHeader? ||
                  (q.access.verified == p.access.verified
                   && (NewCapture(p, q) != [] ==> step.Failure? && p.video.current < |p.video.urls| - 1)))
  {
    hide Captured, Chosen, Checked, Aborted;
  }

  /** Each capture is that of the URL at an index; the indices never decrease and stay between the first one and the
      last one reached; and unless authorization is required at the end, none after the first one is left out. */
  ghost predicate Climbs(p: Player, captures: seq<Request>, indices: seq<nat>, top: nat, complete: bool) {
    && |captures| == |indices|
    && (forall i | 0 <= i < |captures| ::
          p.video.current <= indices[i] <= top && captures[i].hlsUrl == p.video.hlsUrl
          && captures[i].url == CurrentUrl(p.video.(current := indices[i]))
          && captures[i].run == p.sources.runs + i + 1)
    && (forall i, j | 0 <= i < j < |indices| :: indices[i] <= indices[j])
    && (complete ==> forall j | p.video.current < j <= top :: j in indices)
  }

  lemma {:induction false} ClimbsOn(p: Player, captures: seq<Request>, indices: seq<nat>, top: nat, complete: bool,
                                    more: Request, next: nat)
    requires Climbs(p, captures, indices, top, complete) && top <= next <= top + 1 && p.video.current <= next
    requires more.hlsUrl == p.video.hlsUrl && more.url == CurrentUrl(p.video.(current := next))
    requires more.run == p.sources.runs + |captures| + 1
    ensures Climbs(p, captures + [more], indices + [next], next, complete)
  {
    hide CurrentUrl;
    var cs, ns := captures + [more], indices + [next];
    assert forall i | 0 <= i < |captures| :: cs[i] == captures[i] && ns[i] == indices[i];
    assert forall j | j in indices :: j in ns;
    assert ns[|indices|] == next;
  }

  lemma {:induction false} ClimbsHigher(p: Player, captures: seq<Request>, indices: seq<nat>, top: nat, next: nat)
    requires Climbs(p, captures, indices, top, false) && top <= next
    ensures Climbs(p, captures, indices, next, false)
  {
    hide CurrentUrl;
  }

  lemma {:induction false} ClimbsLess(p: Player, captures: seq<Request>, indices: seq<nat>, top: nat, complete: bool)
    requires Climbs(p, captures, indices, top, complete)
    ensures Climbs(p, captures, indices, top, false) && |captures| == |indices|
  {
  }

  /** In every run without a reset the effect captures the URLs in the order of the list: see Climbs. An index is
      captured more than once only when a verification or a new header function makes the effect run again. */
  lemma {:induction false} CapturesClimb(p: Player, b: Browser, h: seq<Step>)
    requires Settled(p) && NoResets(h)
    ensures var q := After(p, b, h);
            && q.sources.runs == p.sources.runs + |Captures(p, b, h)|
            && Climbs(p, Captures(p, b, h), Indices(p, b, h), p.video.current + Min(FailuresIn(h), Remaining(p)),
                      !q.access.requiresAuth)
  {
    hide Next, After, FailuresIn, NoResets, NewCapture, Captures, Indices, Settled, Climbs, CurrentUrl, Remaining;
    AfterLast(p, b, h);
    AfterFailures(p, b, h);
    if h == [] {
      NothingCaptured(p, b);
      NothingClimbs(p);
    } else {
      var g := h[..|h| - 1];
      var u, v, cs, ns := After(p, b, g), After(p, b, h), Captures(p, b, g), Indices(p, b, g);
      CapturesClimb(p, b, g);
      AfterFailures(p, b, g);
      SettledAfter(p, b, g);
      CapturesLast(p, b, h);
      UnresetCapture(u, b, h[|h| - 1]);
      CaptureOf(u, v);
      var top := u.video.current;
      ClimbsLess(p, cs, ns, top, !u.access.requiresAuth);
      OneUp(p, b, u, h[|h| - 1]);
      if NewCapture(u, v) == [] {
        assert cs + [] == cs && ns + [] == ns;
        if v.access.requiresAuth { ClimbsHigher(p, cs, ns, top, v.video.current); }
      } else {
        ClimbsOn(p, cs, ns, top, !u.access.requiresAuth, Captured(v), v.video.current);
      }
    }
  }

  lemma {:induction false} NothingClimbs(p: Player)
    ensures Climbs(p, [], [], p.video.current, !p.access.requiresAuth)
  {
  }

  lemma {:induction false} CaptureOf(u: Player, v: Player)
    ensures NewCapture(u, v) != [] ==> NewCapture(u, v) == [Captured(v)] && |NewCapture(u, v)| == 1
    ensures Captured(v).hlsUrl == v.video.hlsUrl && Captured(v).url == CurrentUrl(v.video)
    ensures Captured(v).run == v.sources.runs && Captured(v).verified == v.access.verified
  {
  }

  lemma {:induction false} OneUp(p: Player, b: Browser, u: Player, step: Step)
    requires !Resets(step)
    ensures var v := Next(u, b, step);
            && u.video.current <= v.video.current <= u.video.current + 1
            && (v.video.current > u.video.current ==> step.Failure? && u.video.current < |u.video.urls| - 1)
  {
    hide Next;
    UnresetStep(u, b, step);
  }

  /** Neither a reset, nor a verification, nor a new header function: what the effect depends on is left to the failures
      and to a denial. */
  predicate Steady(h: seq<Step>) {
    NoResets(h) && forall k | 0 <= k < |h| :: !h[k].Verification? && !h[k].NewHeader?
  }

  /** The captures for the next n indices */
  function Upcoming(p: Player, n: nat): seq<Request>
    requires p.video.current + n < |p.video.urls| || n == 0
  {
    seq(n, k requires 0 <= k < n => Request(p.video.hlsUrl, p.video.urls[p.video.current + 1 + k], p.access.verified,
                                            p.sources.runs + 1 + k))
  }

  lemma {:induction false} UpcomingStep(p: Player, n: nat)
    requires p.video.current + n + 1 < |p.video.urls|
    ensures Upcoming(p, n + 1) == Upcoming(p, n) + [Request(p.video.hlsUrl, p.video.urls[p.video.current + n + 1],
                                                            p.access.verified, p.sources.runs + n + 1)]
  {
  }

  lemma {:induction false} MinSteps(n: nat, r: nat)
    ensures Min(n, r) <= r && Min(n, r) <= n
    ensures Min(n + 1, r) == if n < r then Min(n, r) + 1 else Min(n, r)
    ensures n < r ==> Min(n, r) == n
    ensures Min(0, r) == 0
  {
  }

  lemma {:induction false} SteadyLast(h: seq<Step>)
    requires h != [] && Steady(h)
    ensures Steady(h[..|h| - 1]) && !Resets(h[|h| - 1]) && !h[|h| - 1].Verification? && !h[|h| - 1].NewHeader?
  {
  }

  lemma {:induction false} RemainingIs(p: Player, n: nat)
    ensures p.video.current + Min(n, Remaining(p)) < |p.video.urls| - 1 <==> n < Remaining(p)
    ensures Remaining(p) > 0 ==> p.video.current + Remaining(p) == |p.video.urls| - 1
  {
  }

  /** The first m of the next URLs, and all of those that became current unless authorization is required at the end */
  ghost predicate FirstOf(p: Player, captures: seq<Request>, reached: nat, complete: bool) {
    var m := |captures|;
    && m <= reached <= Remaining(p) && (p.video.current + m < |p.video.urls| || m == 0)
    && captures == Upcoming(p, m) && (complete ==> m == reached) && (p.access.requiresAuth ==> m == 0)
  }

  /** In such a run each failure that moves the index makes the effect run once, and it captures the URL at the new
      index, one after the other, however the answers come in between; and it captures nothing else. Once a denial
      has come it captures no more. */
  lemma {:induction false} CapturesInOrder(p: Player, b: Browser, h: seq<Step>)
    requires Settled(p) && Steady(h)
    ensures var q := After(p, b, h);
            && q.access.verified == p.access.verified && (p.access.requiresAuth ==> q.access.requiresAuth)
            && FirstOf(p, Captures(p, b, h), Min(FailuresIn(h), Remaining(p)), !q.access.requiresAuth)
  {
    hide Next, After, FailuresIn, NoResets, NewCapture, Captures, Indices, Settled, Remaining, FirstOf, Steady;
    AfterLast(p, b, h);
    if h == [] {
      NothingCaptured(p, b);
      NoneOf(p);
    } else {
      SteadyLast(h);
      var g := h[..|h| - 1];
      var u, v, n := After(p, b, g), After(p, b, h), FailuresIn(g);
      CapturesInOrder(p, b, g);
      SteadyUnreset(h);
      CapturesClimb(p, b, g);
      AfterFailures(p, b, g);
      SettledAfter(p, b, g);
      CapturesLast(p, b, h);
      UnresetCapture(u, b, h[|h| - 1]);
      UnresetStep(u, b, h[|h| - 1]);
      CaptureOf(u, v);
      MinSteps(n, Remaining(p));
      RemainingIs(p, n);
      if NewCapture(u, v) == [] {
        assert Captures(p, b, g) + [] == Captures(p, b, g);
        SameFirst(p, Captures(p, b, g), Min(n, Remaining(p)), !u.access.requiresAuth,
                  Min(FailuresIn(h), Remaining(p)), !v.access.requiresAuth);
      } else {
        CountOf(p, Captures(p, b, g), n);
        OneMore(p, Captures(p, b, g), n, Captured(v));
      }
    }
  }

  lemma {:induction false} SteadyUnreset(h: seq<Step>)
    requires h != [] && Steady(h)
    ensures NoResets(h) && NoResets(h[..|h| - 1])
  {
  }

  lemma {:induction false} NoneOf(p: Player)
    ensures FirstOf(p, [], Min(0, Remaining(p)), !p.access.requiresAuth)
  {
  }

  lemma {:induction false} CountOf(p: Player, cs: seq<Request>, reached: nat)
    requires FirstOf(p, cs, reached, true)
    ensures |cs| == reached
  {
  }

  lemma {:induction false} SameFirst(p: Player, cs: seq<Request>, from: nat, was: bool, reached: nat, complete: bool)
    requires FirstOf(p, cs, from, was) && from <= reached <= Remaining(p)
    requires complete ==> was && from == reached
    ensures FirstOf(p, cs, reached, complete)
  {
    hide Upcoming;
  }

  lemma {:induction false} OneMore(p: Player, cs: seq<Request>, n: nat, more: Request)
    requires FirstOf(p, cs, n, true) && n < Remaining(p) && !p.access.requiresAuth
    requires more.hlsUrl == p.video.hlsUrl && more.verified == p.access.verified && more.run == p.sources.runs + n + 1
    requires more.url == CurrentUrl(p.video.(current := p.video.current + n + 1))
    ensures FirstOf(p, cs + [more], n + 1, true)
  {
    RemainingIs(p, n);
    UpcomingStep(p, n);
    hide Upcoming;
  }

  /** What the answers of the run take from the pending runs, in order */
  function Taken(p: Player, b: Browser, h: seq<Step>): seq<Request> {
    if h == [] then []
    else Taken(p, b, h[..|h| - 1]) + TakenBy(After(p, b, h[..|h| - 1]), h[|h| - 1])
  }

  function TakenBy(p: Player, step: Step): seq<Request> {
    if step.Answer? && step.k < |p.sources.pending| then [p.sources.pending[step.k]] else []
  }

  lemma {:induction false} RenderAppends(p: Player)
    ensures var q := Rendered(p);
            && q.sources.pending == p.sources.pending + NewCapture(p, q)
            && (q.sources.runs > p.sources.runs ==> NewCapture(p, q) != [])
  {
    assert p.sources.pending + [] == p.sources.pending;
  }

  lemma {:induction false} UpdateTakes(p: Player, b: Browser, step: Step)
    ensures var u := Updated(p, b, step);
            && u.sources.runs == p.sources.runs
            && multiset(p.sources.pending) == multiset(u.sources.pending) + multiset(TakenBy(p, step))
            && (!step.Answer? ==> u.sources.pending == p.sources.pending)
  {
    hide Updated;
    UpdateMoves(p, b, step);
    if step.Answer? && step.k < |p.sources.pending| { RemoveOne(p.sources.pending, step.k); }
  }

  lemma {:induction false} RemoveOne<T>(s: seq<T>, k: nat)
    requires k < |s|
    ensures multiset(s) == multiset(s[..k] + s[k + 1..]) + multiset([s[k]])
  {
    assert s == s[..k] + [s[k]] + s[k + 1..];
  }

  lemma {:induction false} PendingStep(p: Player, b: Browser, step: Step)
    ensures var q := Next(p, b, step);
            && multiset(p.sources.pending) + multiset(NewCapture(p, q)) ==
                 multiset(q.sources.pending) + multiset(TakenBy(p, step))
            && (!step.Answer? ==> q.sources.pending == p.sources.pending + NewCapture(p, q))
  {
    hide Updated, Rendered, TakenBy, Captured;
    var u := Updated(p, b, step);
    UpdateTakes(p, b, step);
    RenderAppends(u);
    var rs, added := u.sources.pending, NewCapture(u, Rendered(u));
    assert multiset(rs + added) == multiset(rs) + multiset(added);
  }

  /** Whatever happens, resets included: each capture is pending until it is answered, and answered once. */
  lemma {:induction false} CapturesConserved(p: Player, b: Browser, h: seq<Step>)
    ensures multiset(p.sources.pending) + multiset(Captures(p, b, h)) ==
            multiset(After(p, b, h).sources.pending) + multiset(Taken(p, b, h))
  {
    hide Next, NewCapture, TakenBy, After, Captures, Taken;
    AfterLast(p, b, h);
    if h == [] {
      NothingCaptured(p, b);
      NothingTaken(p, b);
    } else {
      var g, step := h[..|h| - 1], h[|h| - 1];
      CapturesConserved(p, b, g);
      CapturesLast(p, b, h);
      TakenLast(p, b, h);
      var u, v := After(p, b, g), After(p, b, h);
      PendingStep(u, b, step);
      AppendBags(Captures(p, b, g), NewCapture(u, v));
      AppendBags(Taken(p, b, g), TakenBy(u, step));
      Balance(multiset(p.sources.pending), multiset(Captures(p, b, g)), multiset(u.sources.pending),
              multiset(Taken(p, b, g)), multiset(NewCapture(u, v)), multiset(v.sources.pending),
              multiset(TakenBy(u, step)));
    }
  }

  lemma {:induction false} Balance<T>(a: multiset<T>, c: multiset<T>, u: multiset<T>, t: multiset<T>, n: multiset<T>,
                                      v: multiset<T>, o: multiset<T>)
    requires a + c == u + t && u + n == v + o
    ensures a + (c + n) == v + (t + o)
  {
    assert a + (c + n) == (a + c) + n && (u + t) + n == (u + n) + t && (v + o) + t == v + (t + o);
  }

  lemma {:induction false} AppendBags<T>(s: seq<T>, t: seq<T>)
    ensures multiset(s + t) == multiset(s) + multiset(t)
  {
  }

  lemma {:induction false} NothingTaken(p: Player, b: Browser)
    ensures Taken(p, b, []) == []
  {
  }

  lemma {:induction false} TakenLast(p: Player, b: Browser, h: seq<Step>)
    requires h != []
    ensures Taken(p, b, h) == Taken(p, b, h[..|h| - 1]) + TakenBy(After(p, b, h[..|h| - 1]), h[|h| - 1])
  {
    hide After, TakenBy;
  }

  /** Without answers they are all pending, in their order. */
  lemma {:induction false} CapturesPending(p: Player, b: Browser, h: seq<Step>)
    requires forall k | 0 <= k < |h| :: !h[k].Answer?
    ensures After(p, b, h).sources.pending == p.sources.pending + Captures(p, b, h)
  {
    hide Next, NewCapture, After, Captures;
    AfterLast(p, b, h);
    if h == [] {
      NothingCaptured(p, b);
      assert p.sources.pending + [] == p.sources.pending;
    } else {
      var g := h[..|h| - 1];
      CapturesPending(p, b, g);
      CapturesLast(p, b, h);
      PendingStep(After(p, b, g), b, h[|h| - 1]);
      var rs, cs, added := p.sources.pending, Captures(p, b, g), NewCapture(After(p, b, g), After(p, b, h));
      assert rs + (cs + added) == (rs + cs) + added;
    }
  }
}
