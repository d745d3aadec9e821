/**
  When the source in place is the one that the present dependencies of the player's effect call for. Each run of the
  effect waits for its own preflight check, and an older run is not cancelled by a newer one, so it is the order of the
  answers that decides.
 */
module VideoPreflights {
  import opened Options
  import opened VideoFallback

  /** Runs are pending in the order they were made, and nothing comes from a run that was not made. */
  ghost predicate Numbered(q: Sources) {
    && (forall i, j | 0 <= i < j < |q.pending| :: q.pending[i].run < q.pending[j].run)
    && (forall r | r in q.pending :: r.run <= q.runs)
    && (forall l | l in q.loads :: l.request.run <= q.runs)
  }

  /** What comes from the newest run comes from the present dependencies. */
  ghost predicate NewestIsPresent(p: Player) {
    && (forall r | r in p.sources.pending && r.run == p.sources.runs :: r == Captured(p))
    && (forall l | l in p.sources.loads && l.request.run == p.sources.runs :: l.request == Captured(p))
  }

  /** The present dependencies wait for their answer, or their source was set, or they call for none. */
  ghost predicate Served(p: Player, b: Browser) {
    || Captured(p) in p.sources.pending
    || Chosen(b, Captured(p)).None?
    || exists l :: l in p.sources.loads && l.request == Captured(p)
  }

  ghost predicate Tracked(p: Player, b: Browser) {
    Numbered(p.sources) && (!p.access.requiresAuth ==> NewestIsPresent(p) && Served(p, b))
  }

  lemma {:induction false} RenderTracked(p: Player, b: Browser)
    requires Numbered(p.sources)
    requires Settled(p) && !p.access.requiresAuth ==> NewestIsPresent(p) && Served(p, b)
    ensures Tracked(Rendered(p), b)
  {
    hide Chosen;
    if !Settled(p) && !p.access.requiresAuth {
      var q := Rendered(p);
      assert q == Run(p.(sources := p.sources.(seen := Some(DependenciesOf(p.video, p.access)))));
      assert q.sources.pending == p.sources.pending + [Captured(q)];
      assert Captured(q) in q.sources.pending;
    }
  }

  lemma {:induction false} WithoutOne<T>(s: seq<T>, k: nat)
    requires k < |s|
    ensures var t := s[..k] + s[k + 1..];
            && |t| == |s| - 1 && (forall i | 0 <= i < |t| :: t[i] == s[if i < k then i else i + 1])
            && (forall x | x in t :: x in s) && (forall x | x in s :: x in t || x == s[k])
  {
    var t := s[..k] + s[k + 1..];
    forall x | x in s ensures x in t || x == s[k] {
      var i :| 0 <= i < |s| && s[i] == x;
      if i < k { assert t[i] == x; } else if i > k { assert t[i - 1] == x; }
    }
  }

  /** An update that leaves the dependencies alone leaves what they capture alone. */
  lemma {:induction false} SameCapture(p: Player, b: Browser, step: Step)
    requires var u := Updated(p, b, step); DependenciesOf(u.video, u.access) == DependenciesOf(p.video, p.access)
    ensures Captured(Updated(p, b, step)) == Captured(p)
  {
    hide Chosen, Checked, Aborted;
  }

  /** The answer to a run that calls for a source sets it, or finds that access is denied. */
  lemma {:induction false} AnswerServes(p: Player, b: Browser, k: nat, denied: bool)
    requires k < |p.sources.pending| && p.sources.pending[k] == Captured(p) && Chosen(b, Captured(p)).Some?
    requires !p.access.requiresAuth
    ensures var u := Updated(p, b, Answer(k, denied));
            u.access.requiresAuth || exists l :: l in u.sources.loads && l.request == p.sources.pending[k]
  {
    var u := Updated(p, b, Answer(k, denied));
    if !u.access.requiresAuth { assert u.sources.loads[|u.sources.loads| - 1].request == p.sources.pending[k]; }
  }

  lemma {:induction false} UpdateNumbered(p: Player, b: Browser, step: Step)
    requires Numbered(p.sources)
    ensures Numbered(Updated(p, b, step).sources)
  {
    hide Updated, Chosen, Captured;
    UpdateMoves(p, b, step);
    UpdateAdds(p, b, step);
    if step.Answer? && step.k < |p.sources.pending| { WithoutOne(p.sources.pending, step.k); }
  }

  lemma {:induction false} UpdatePresent(p: Player, b: Browser, step: Step)
    requires NewestIsPresent(p) && Served(p, b) && !p.access.requiresAuth
    requires var u := Updated(p, b, step); DependenciesOf(u.video, u.access) == DependenciesOf(p.video, p.access)
    ensures NewestIsPresent(Updated(p, b, step)) && Served(Updated(p, b, step), b)
  {
    hide Updated, Chosen, Captured;
    var u := Updated(p, b, step);
    UpdateMoves(p, b, step);
    UpdateAdds(p, b, step);
    SameCapture(p, b, step);
    assert forall l | l in p.sources.loads :: l in u.sources.loads;
    if Captured(p) in p.sources.pending && Captured(p) !in u.sources.pending && Chosen(b, Captured(p)).Some? {
      WithoutOne(p.sources.pending, step.k);
      AnswerServes(p, b, step.k, step.denied);
    }
  }

  lemma {:induction false} StepTracked(p: Player, b: Browser, step: Step)
    requires Settled(p) && Tracked(p, b)
    ensures Tracked(Next(p, b, step), b)
  {
    hide Updated, Rendered, Numbered, NewestIsPresent, Served;
    var u := Updated(p, b, step);
    UpdateMoves(p, b, step);
    UpdateNumbered(p, b, step);
    if Settled(u) && !u.access.requiresAuth { UpdatePresent(p, b, step); }
    RenderTracked(u, b);
  }

  lemma {:induction false} StartTracked(hlsUrl: string, verified: bool, b: Browser)
    ensures Tracked(Rendered(Mounted(hlsUrl, verified)), b) && Settled(Rendered(Mounted(hlsUrl, verified)))
  {
    hide Chosen;
    RenderTracked(Mounted(hlsUrl, verified), b);
  }

  lemma {:induction false} AlwaysTracked(hlsUrl: string, verified: bool, b: Browser, h: seq<Step>)
    ensures Tracked(PlayerAfter(hlsUrl, verified, b, h), b)
  {
    hide Tracked, Settled, Next, Rendered, Mounted;
    StartTracked(hlsUrl, verified, b);
    if h != [] {
      AlwaysTracked(hlsUrl, verified, b, h[..|h| - 1]);
      AlwaysSettled(hlsUrl, verified, b, h[..|h| - 1]);
      StepTracked(PlayerAfter(hlsUrl, verified, b, h[..|h| - 1]), b, h[|h| - 1]);
    }
  }

  function Last<T>(s: seq<T>): T
    requires s != []
  {
    s[|s| - 1]
  }

  /** Nothing is pending, access is not denied, and the present dependencies call for a source. */
  predicate AtRest(p: Player, b: Browser) {
    p.sources.pending == [] && !p.access.requiresAuth && Chosen(b, Captured(p)).Some?
  }

  /** In every run: once nothing is pending, some source was set, and the last one set is that of the present
      dependencies if and only if no source of a later run of the effect was set before it. An older run is not
      cancelled when the effect runs again, so the order of the answers decides. */
  lemma {:induction false} PresentIff(hlsUrl: string, verified: bool, b: Browser, h: seq<Step>)
    requires AtRest(PlayerAfter(hlsUrl, verified, b, h), b)
    ensures var p := PlayerAfter(hlsUrl, verified, b, h); var loads := p.sources.loads;
            && loads != []
            && (Last(loads).request == Captured(p) <==>
                  forall l | l in loads :: l.request.run <= Last(loads).request.run)
  {
    hide PlayerAfter, Chosen;
    AlwaysTracked(hlsUrl, verified, b, h);
    var p := PlayerAfter(hlsUrl, verified, b, h);
    var l :| l in p.sources.loads && l.request == Captured(p);
    assert Last(p.sources.loads) in p.sources.loads;
  }

  /** Each answer is the one to the oldest pending run, and only the last HLS instance breaks. */
  ghost predicate OldestFirst(p: Player, b: Browser, h: seq<Step>) {
    forall k | 0 <= k < |h| :: InTurn(After(p, b, h[..k]), h[k])
  }

  predicate InTurn(p: Player, step: Step) {
    (step.Answer? ==> step.k == 0) && (step.HlsBreaks? ==> step.n + 1 >= |p.sources.loads|)
  }

  /** Sources are set in the order of the runs, before those of all pending runs. */
  ghost predicate Ordered(q: Sources) {
    && (forall i, j | 0 <= i < j < |q.loads| :: q.loads[i].request.run <= q.loads[j].request.run)
    && (forall l, r | l in q.loads && r in q.pending :: l.request.run < r.run)
  }

  /** A step in turn sets at most one source, from the oldest pending run or again from the run of the last source. */
  lemma {:induction false} InTurnAdds(p: Player, b: Browser, step: Step)
    requires InTurn(p, step)
    ensures var q, u := p.sources, Updated(p, b, step).sources; var before, after := q.loads, u.loads;
            && (u.pending == q.pending || (q.pending != [] && u.pending == q.pending[1..]))
            && (after == before
                || (after != [] && after == before + [Last(after)]
                    && ((q.pending != [] && u.pending == q.pending[1..] && Last(after).request == q.pending[0])
                        || (before != [] && u.pending == q.pending && Last(after).request == Last(before).request))))
  {
    hide Initialized, Failed, AgeVerified, Chosen, Checked, Aborted;
    if step.Failure? || step.NewUrls? || step.AgeConfirmed? { OthersKeepSources(p, b, step); }
    var rs := p.sources.pending;
    if rs != [] { assert rs[..0] + rs[1..] == rs[1..]; }
  }

  lemma {:induction false} OldestServed(q: Sources, u: Sources)
    requires Numbered(q) && Ordered(q) && q.pending != [] && u.pending == q.pending[1..]
    requires u.loads == q.loads || (u.loads != [] && u.loads == q.loads + [Last(u.loads)]
                                    && Last(u.loads).request == q.pending[0])
    ensures Ordered(u)
  {
    assert q.pending[0] in q.pending;
    forall r | r in u.pending ensures r in q.pending && q.pending[0].run < r.run {}
  }

  lemma {:induction false} LastRepeated(q: Sources, u: Sources)
    requires Ordered(q) && u.pending == q.pending && q.loads != []
    requires u.loads != [] && u.loads == q.loads + [Last(u.loads)] && Last(u.loads).request == Last(q.loads).request
    ensures Ordered(u)
  {
    assert Last(q.loads) in q.loads;
  }

  lemma {:induction false} UpdateOrdered(p: Player, b: Browser, step: Step)
    requires InTurn(p, step) && Numbered(p.sources) && Ordered(p.sources)
    ensures Ordered(Updated(p, b, step).sources)
  {
    hide Updated, InTurn, Numbered, Ordered, Last;
    InTurnAdds(p, b, step);
    var q, u := p.sources, Updated(p, b, step).sources;
    if u.pending == q.pending && u.loads == q.loads {
      SameOrdered(q, u);
    } else if q.pending != [] && u.pending == q.pending[1..] {
      OldestServed(q, u);
    } else {
      LastRepeated(q, u);
    }
  }

  lemma {:induction false} SameOrdered(q: Sources, u: Sources)
    requires Ordered(q) && u.pending == q.pending && u.loads == q.loads
    ensures Ordered(u)
  {
  }

  lemma {:induction false} RenderOrdered(p: Player)
    requires Numbered(p.sources) && Ordered(p.sources)
    ensures Ordered(Rendered(p).sources)
  {
  }

  lemma {:induction false} InTurnPrefix(p: Player, b: Browser, h: seq<Step>)
    requires h != [] && OldestFirst(p, b, h)
    ensures OldestFirst(p, b, h[..|h| - 1]) && InTurn(After(p, b, h[..|h| - 1]), h[|h| - 1])
  {
    hide After, InTurn;
    var g := h[..|h| - 1];
    forall k | 0 <= k < |g| ensures InTurn(After(p, b, g[..k]), g[k]) {
      assert g[..k] == h[..k] && g[k] == h[k];
    }
  }

  lemma {:induction false} AlwaysOrdered(hlsUrl: string, verified: bool, b: Browser, h: seq<Step>)
    requires OldestFirst(Rendered(Mounted(hlsUrl, verified)), b, h)
    ensures Ordered(PlayerAfter(hlsUrl, verified, b, h).sources)
  {
    hide Updated, Ordered, OldestFirst, InTurn, Numbered, NewestIsPresent, Served, Captured;
    if h == [] {
      StartOrdered(hlsUrl, verified);
    } else {
      InTurnPrefix(Rendered(Mounted(hlsUrl, verified)), b, h);
      var g := h[..|h| - 1];
      AlwaysOrdered(hlsUrl, verified, b, g);
      AlwaysTracked(hlsUrl, verified, b, g);
      var p := PlayerAfter(hlsUrl, verified, b, g);
      UpdateOrdered(p, b, h[|h| - 1]);
      UpdateNumbered(p, b, h[|h| - 1]);
      RenderOrdered(Updated(p, b, h[|h| - 1]));
    }
  }

  lemma {:induction false} StartOrdered(hlsUrl: string, verified: bool)
    ensures Ordered(Rendered(Mounted(hlsUrl, verified)).sources)
    ensures Rendered(Mounted(hlsUrl, verified)).sources.loads == []
  {
  }

  /** If the preflight checks are answered in the order they were asked, then at rest the source in place is the one the
      present dependencies call for, or the direct URL if its HLS.js broke. */
  lemma {:induction false} InOrderIsPresent(hlsUrl: string, verified: bool, b: Browser, h: seq<Step>)
    requires AtRest(PlayerAfter(hlsUrl, verified, b, h), b)
    requires OldestFirst(Rendered(Mounted(hlsUrl, verified)), b, h)
    ensures var p := PlayerAfter(hlsUrl, verified, b, h); var loads := p.sources.loads;
            && loads != [] && Last(loads).request == Captured(p)
            && ((forall k | 0 <= k < |h| :: !h[k].HlsBreaks?) ==> Some(Last(loads).source) == Chosen(b, Captured(p)))
  {
    hide After, Rendered, Mounted, Chosen, OldestFirst, Captured, AtRest, Ordered;
    PresentIff(hlsUrl, verified, b, h);
    AlwaysOrdered(hlsUrl, verified, b, h);
    var loads := PlayerAfter(hlsUrl, verified, b, h).sources.loads;
    LastIsLatest(PlayerAfter(hlsUrl, verified, b, h).sources);
    StartOrdered(hlsUrl, verified);
    if forall k | 0 <= k < |h| :: !h[k].HlsBreaks? {
      NoneBroken(Rendered(Mounted(hlsUrl, verified)), b, h, Last(loads));
    }
  }

  lemma {:induction false} LastIsLatest(q: Sources)
    requires Ordered(q) && q.loads != []
    ensures Last(q.loads) in q.loads && forall l | l in q.loads :: l.request.run <= Last(q.loads).request.run
  {
  }

  lemma {:induction false} OneMoreStep(p: Player, b: Browser, h: seq<Step>, step: Step)
    ensures After(p, b, h + [step]) == Next(After(p, b, h), b, step)
  {
    assert (h + [step])[..|h|] == h;
    hide Next;
  }

  /** A player of the URLs a and b */
  function Stage(current: nat, runs: nat, pending: seq<Request>, loads: seq<Load>): Player {
    var v, a := Video(["a", "b"], 1, current, ""), Access(false, false, 0, 0);
    Player(v, a, false, Shown(true, false, 0), Sources(Some(DependenciesOf(v, a)), runs, pending, loads))
  }

  const FIRST := Request("", "", false, 1)
  const SECOND := Request("", "a", false, 2)
  const THIRD := Request("", "b", false, 3)

  lemma {:induction false} StageUrls(b: Browser)
    ensures Next(Rendered(Mounted("", false)), b, NewUrls("a", ["b"])) == Stage(0, 2, [FIRST, SECOND], [])
  {
    assert [] + [FIRST] == [FIRST] && [FIRST] + [SECOND] == [FIRST, SECOND] && ["a"] + ["b"] == ["a", "b"];
  }

  lemma {:induction false} StageFails(b: Browser)
    ensures Next(Stage(0, 2, [FIRST, SECOND], []), b, Failure) == Stage(1, 3, [FIRST, SECOND, THIRD], [])
  {
    assert [FIRST, SECOND] + [THIRD] == [FIRST, SECOND, THIRD];
  }

  lemma {:induction false} StageAnswers(b: Browser, rs: seq<Request>, r: Request, loads: seq<Load>)
    requires r.hlsUrl == "" && !r.verified
    ensures Next(Stage(1, 3, rs + [r], loads), b, Answer(|rs|, false)) ==
            Stage(1, 3, rs, if r.url == "" then loads else loads + [Load(Direct(r.url), r)])
  {
    assert (rs + [r])[..|rs|] + (rs + [r])[|rs| + 1..] == rs;
  }

  /** The order matters: the first URL fails before its preflight check is answered, the check of the second URL is
      answered first, and the player ends with the URL that had failed. */
  lemma {:induction false} StaleSource(b: Browser)
    ensures var p := PlayerAfter("", false, b, [NewUrls("a", ["b"]), Failure, Answer(2, false), Answer(1, false),
                                                Answer(0, false)]);
            && AtRest(p, b) && p.video == Video(["a", "b"], 1, 1, "")
            && p.sources.loads != [] && Last(p.sources.loads).source == Direct("a")
  {
    var p0 := Rendered(Mounted("", false));
    var h0: seq<Step> := [];
    var h1 := h0 + [NewUrls("a", ["b"])];
    var h2 := h1 + [Failure];
    var h3 := h2 + [Answer(2, false)];
    var h4 := h3 + [Answer(1, false)];
    var h5 := h4 + [Answer(0, false)];
    assert h5 == [NewUrls("a", ["b"]), Failure, Answer(2, false), Answer(1, false), Answer(0, false)];
    assert After(p0, b, h0) == p0;
    OneMoreStep(p0, b, h0, NewUrls("a", ["b"]));
    OneMoreStep(p0, b, h1, Failure);
    OneMoreStep(p0, b, h2, Answer(2, false));
    OneMoreStep(p0, b, h3, Answer(1, false));
    OneMoreStep(p0, b, h4, Answer(0, false));
    hide After, Next, Rendered, Mounted;
    StaleStages(b);
    StaleEnd(b);
  }

  lemma {:induction false} StaleStages(b: Browser)
    ensures var x, y := Load(Direct("b"), THIRD), Load(Direct("a"), SECOND);
            Next(Next(Next(Next(Next(Rendered(Mounted("", false)), b, NewUrls("a", ["b"])), b, Failure),
                           b, Answer(2, false)), b, Answer(1, false)), b, Answer(0, false)) ==
            Stage(1, 3, [], [x, y])
  {
    hide Next, Rendered, Mounted, Stage;
    var x, y := Load(Direct("b"), THIRD), Load(Direct("a"), SECOND);
    StageUrls(b);
    StageFails(b);
    assert [FIRST, SECOND] + [THIRD] == [FIRST, SECOND, THIRD] && [FIRST] + [SECOND] == [FIRST, SECOND];
    assert [] + [FIRST] == [FIRST] && [] + [x] == [x] && [x] + [y] == [x, y];
    StageAnswers(b, [FIRST, SECOND], THIRD, []);
    StageAnswers(b, [FIRST], SECOND, [x]);
    StageAnswers(b, [], FIRST, [x, y]);
  }

  lemma {:induction false} StaleEnd(b: Browser)
    ensures var p := Stage(1, 3, [], [Load(Direct("b"), THIRD), Load(Direct("a"), SECOND)]);
            AtRest(p, b) && Last(p.sources.loads).source == Direct("a")
  {
  }
}
