/**
  From the sight of a video to its playing: what frontend-web/src/components/VideoPlayer.tsx reports to the coordinator,
  which video is chosen then, and what a render does to the elements.
 */
module PlaybackSighting {
  import opened Options
  import opened PlaybackContext
  import opened PlaybackSelection
  import opened PlaybackElements
  import opened PlaybackEntries
  import opened PlaybackSystem
  import opened PlaybackRuns

  lemma {:induction false} RunFromCons(s: System, step: Step, more: seq<Step>)
    ensures RunFrom(s, [step] + more) == RunFrom(Next(s, step), more)
  {
    hide Next;
    RunFromStep(s, [], step);
    assert RunFrom(s, []) == s && [] + [step] == [step];
    RunFromAppend(s, [step], more);
  }

  lemma {:induction false} RunTwo(s: System, a: Step, b: Step)
    ensures RunFrom(s, [a, b]) == Next(Next(s, a), b)
  {
    hide Next;
    assert [a, b] == [a] + [b] && [b] == [b] + [];
    RunFromCons(s, a, [b]);
    RunFromCons(Next(s, a), b, []);
    assert RunFrom(Next(Next(s, a), b), []) == Next(Next(s, a), b);
  }

  // ----- What a player reports -----

  /** The coordinator has been told this ratio: id has one entry with it, or none when it is not positive, the other
      entries are the same, and only a new timer is pending. */
  ghost predicate Told(c: Context, d: Context, id: Id, ratio: real) {
    && (forall r :: Entry(id, r) in d.visible <==> r == ratio && ratio > 0.0)
    && (forall e: Entry | e.id != id :: e in d.visible <==> e in c.visible)
    && d.timers == {c.nextHandle} && d.handle == Some(c.nextHandle)
    && d.order == c.order && d.refs == c.refs && d.active == c.active && d.next == c.next
  }

  lemma {:induction false} UpdateTells(c: Context, id: Id, ratio: real)
    requires WellKept(c.visible) && Debounced(c)
    ensures Told(c, UpdateVisibility(c, id, ratio), id, ratio)
  {
    forall e: Entry
      ensures e in UpdateVisibility(c, id, ratio).visible <==>
              if e.id == id then ratio > 0.0 && e.ratio == ratio else e in c.visible
    {
      if ratio > 0.0 { SetHolds(c.visible, id, ratio, e); }
    }
    hide SetEntry, DeleteEntry;
  }

  lemma {:induction false} InRun(h: seq<Step>)
    ensures WellKept(RunSystem(h).ctx.visible) && Debounced(RunSystem(h).ctx)
  {
    ContextRuns(h);
    VisibleWellKept(AllOps(h));
  }

  /** A player that has nothing queued */
  predicate Idle(s: System, i: nat) {
    i < |s.players| && s.players[i].mounted && s.players[i].effects == []
  }

  /** What a player tells the coordinator when a render of its own queues the visibility effect: the ratio last seen;
      nothing when its video has failed in view; 0 when it was never seen, or failed out of view. */
  ghost predicate Reports(c: Context, d: Context, id: Id, seen: Option<real>, inView: bool, hasError: bool) {
    if seen.None? then Told(c, d, id, 0.0)
    else if !hasError then Told(c, d, id, seen.value)
    else if inView then d == c
    else Told(c, d, id, 0.0)
  }

  lemma {:induction false} FirstEffectRuns(s: System, i: nat, more: seq<Effect>, ok: bool)
    requires i < |s.players| && s.players[i].effects == [Visibility(Report(s.players[i]))] + more
    ensures var p, t := s.players[i], Next(s, Acts(i, EffectRuns(ok)));
            && t.ctx == Reported(s.ctx, p.videoId, Visibility(Report(p)))
            && t.players == s.players[i := p.(effects := more)]
  {
    hide Report, Reported;
    assert s.players[i].effects[1..] == more;
  }

  lemma {:induction false} FirstEffectReports(s: System, i: nat, more: seq<Effect>, ok: bool)
    requires WellKept(s.ctx.visible) && Debounced(s.ctx) && i < |s.players|
    requires s.players[i].effects == [Visibility(Report(s.players[i]))] + more
    ensures var p, t := s.players[i], Next(s, Acts(i, EffectRuns(ok)));
            && Reports(s.ctx, t.ctx, p.videoId, p.seen, p.inView, p.hasError)
            && t.players == s.players[i := p.(effects := more)]
  {
    hide UpdateVisibility, Told, Next;
    var p := s.players[i];
    FirstEffectRuns(s, i, more, ok);
    if p.seen.Some? { UpdateTells(s.ctx, p.videoId, p.seen.value); }
    UpdateTells(s.ctx, p.videoId, 0.0);
  }

  /** A sighted video is in the visibility map with the ratio at which it was sighted, once the effect has run. */
  lemma {:induction false} SightedIsReported(h: seq<Step>, i: nat, ratio: real, inView: bool, ok: bool)
    requires Idle(RunSystem(h), i)
    ensures var s := RunSystem(h); var p := s.players[i];
            var t := RunFrom(s, [Acts(i, Intersection(ratio, inView)), Acts(i, EffectRuns(ok))]);
            && Reports(s.ctx, t.ctx, p.videoId, Some(ratio), inView, p.hasError)
            && t.players == s.players[i := p.(seen := Some(ratio), inView := inView)]
  {
    hide RunFrom, Reports, Next;
    var s := RunSystem(h);
    InRun(h);
    RunTwo(s, Acts(i, Intersection(ratio, inView)), Acts(i, EffectRuns(ok)));
    SightQueues(s, i, ratio, inView);
    FirstEffectReports(Next(s, Acts(i, Intersection(ratio, inView))), i, [], ok);
  }

  /** When a video begins to fail, or no longer fails, its report follows. */
  lemma {:induction false} FailureIsReported(h: seq<Step>, i: nat, isLoading: bool, hasError: bool, ok: bool)
    requires Idle(RunSystem(h), i) && RunSystem(h).players[i].hasError != hasError
    ensures var s := RunSystem(h); var p := s.players[i];
            var t := RunFrom(s, [Acts(i, StateChanges(isLoading, hasError)), Acts(i, EffectRuns(ok))]);
            var q := p.(isLoading := isLoading, hasError := hasError);
            && Reports(s.ctx, t.ctx, p.videoId, p.seen, p.inView, hasError)
            && t.players == s.players[i := q.(effects := PlaybackEffects(q))]
  {
    hide RunFrom, Reports, PlaybackEffects, Next;
    var s := RunSystem(h);
    InRun(h);
    RunTwo(s, Acts(i, StateChanges(isLoading, hasError)), Acts(i, EffectRuns(ok)));
    FailureQueues(s, i, isLoading, hasError);
    var q := s.players[i].(isLoading := isLoading, hasError := hasError);
    FirstEffectReports(Next(s, Acts(i, StateChanges(isLoading, hasError))), i, PlaybackEffects(q), ok);
  }

  lemma {:induction false} FailureQueues(s: System, i: nat, isLoading: bool, hasError: bool)
    requires Idle(s, i) && s.players[i].hasError != hasError
    ensures var u := Next(s, Acts(i, StateChanges(isLoading, hasError)));
            var q := s.players[i].(isLoading := isLoading, hasError := hasError);
            var r := q.(effects := [Visibility(Report(q))] + PlaybackEffects(q));
            u.ctx == s.ctx && u.players == s.players[i := r] && Report(r) == Report(q)
  {
    hide PlaybackEffects;
    var q := s.players[i].(isLoading := isLoading, hasError := hasError);
    var es := [Visibility(Report(q))] + PlaybackEffects(q);
    assert [] + es == es;
  }

  lemma {:induction false} SightQueues(s: System, i: nat, ratio: real, inView: bool)
    requires Idle(s, i)
    ensures var u := Next(s, Acts(i, Intersection(ratio, inView)));
            var q := s.players[i].(seen := Some(ratio), inView := inView);
            var r := q.(effects := [Visibility(Report(q))] + []);
            u.ctx == s.ctx && u.players == s.players[i := r] && Report(r) == Report(q)
  {
    var q := s.players[i].(seen := Some(ratio), inView := inView);
    var es := [Visibility(Report(q))];
    assert [] + es == es + [];
  }

  /** A mounted player reports 0 first: nothing has been seen of it. */
  lemma {:induction false} MountedIsUnseen(h: seq<Step>, id: Id, ok: bool)
    ensures var s := RunSystem(h); var i := |s.players|;
            var t := RunFrom(s, [Mount(id), Acts(i, EffectRuns(ok))]);
            !HasKey(t.ctx.visible, id) && t.ctx.timers == {Next(s, Mount(id)).ctx.nextHandle}
  {
    var s := RunSystem(h);
    var i := |s.players|;
    RunTwo(s, Mount(id), Acts(i, EffectRuns(ok)));
    RunFromStep(START, h, Mount(id));
    InRun(h + [Mount(id)]);
    var u := Next(s, Mount(id));
    assert u.players[i] == Created(id, s.ctx.active);
    hide Register, PlaybackEffects;
    FirstEffectReports(u, i, PlaybackEffects(u.players[i].(effects := [])), ok);
    var t := Next(u, Acts(i, EffectRuns(ok)));
    forall k | 0 <= k < |t.ctx.visible| ensures t.ctx.visible[k].id != id {
      var e := t.ctx.visible[k];
      assert e == Entry(e.id, e.ratio) && e in t.ctx.visible;
    }
  }

  // ----- What is chosen -----

  lemma {:induction false} ChoiceRendered(h: seq<Step>, timer: nat, muteChanged: bool)
    ensures var g := AllOps(h);
            && RunSystem(h).ctx == Run(g)
            && RunSystem(h + [TimerFires(timer)] + [ProviderRenders(muteChanged)]).ctx ==
                 Run(g + [DoFire(timer)] + [DoRender])
  {
    hide Run, RunFrom;
    var g := AllOps(h);
    ContextRuns(h);
    RunFromStep(START, h, TimerFires(timer));
    RunFromStep(START, h + [TimerFires(timer)], ProviderRenders(muteChanged));
    RunStep(g, DoFire(timer));
    RunStep(g + [DoFire(timer)], DoRender);
  }

  /** When the timer fires and the provider renders, with no other choice waiting, the first video sighted with the
      largest ratio becomes the active one, and its players are the active ones. */
  lemma {:induction false} LargestIsChosen(h: seq<Step>, timer: nat, muteChanged: bool, k: nat)
    requires timer in RunSystem(h).ctx.timers && RunSystem(h).ctx.next == RunSystem(h).ctx.active
    requires FirstMaximum(RunSystem(h).ctx.visible, k)
    ensures var s, t := RunSystem(h), RunSystem(h + [TimerFires(timer)] + [ProviderRenders(muteChanged)]);
            var id := s.ctx.visible[k].id;
            && t.ctx.active == Some(id) && |t.players| == |s.players|
            && forall j | 0 <= j < |t.players| :: t.players[j] == Rerendered(s.players[j], Some(id), muteChanged)
  {
    hide Run, RunFrom, FirstMaximum, Rerendered, MostVisible;
    ChoiceRendered(h, timer, muteChanged);
    SelectionTakesEffect(AllOps(h), timer);
    RunFromStep(START, h, TimerFires(timer));
    RunFromStep(START, h + [TimerFires(timer)], ProviderRenders(muteChanged));
  }

  /** The video of player i is seen at a larger ratio than every other one. */
  ghost predicate Largest(s: System, i: nat, ratio: real) {
    && i < |s.players| && ratio > 0.0
    && forall e | e in s.ctx.visible && e.id != s.players[i].videoId :: e.ratio < ratio
  }

  lemma {:induction false} LargestIsFirst(c: Context, d: Context, id: Id, ratio: real, k: nat)
    requires Told(c, d, id, ratio) && ratio > 0.0 && FirstMaximum(d.visible, k)
    requires forall e | e in c.visible && e.id != id :: e.ratio < ratio
    ensures d.visible[k].id == id
  {
    assert Entry(id, ratio) in d.visible;
    assert d.visible[k] in d.visible;
  }

  /** Sighting, the effect that reports it, the timer and the render of the provider */
  function Sighting(i: nat, ratio: real, inView: bool, timer: nat): seq<Step> {
    [Acts(i, Intersection(ratio, inView)), Acts(i, EffectRuns(true))] + [TimerFires(timer)] + [ProviderRenders(false)]
  }

  lemma {:induction false} SightedIsChosen(h: seq<Step>, i: nat, ratio: real, inView: bool)
    requires Idle(RunSystem(h), i) && !RunSystem(h).players[i].hasError && Largest(RunSystem(h), i, ratio)
    requires RunSystem(h).ctx.next == RunSystem(h).ctx.active
    ensures var s := RunSystem(h); var p := s.players[i];
            var t := RunSystem(h + Sighting(i, ratio, inView, s.ctx.nextHandle));
            && t.ctx.active == Some(p.videoId) && |t.players| == |s.players|
            && t.players[i] == Rerendered(p.(seen := Some(ratio), inView := inView), Some(p.videoId), false)
            && forall j | 0 <= j < |t.players| && j != i ::
                 t.players[j] == Rerendered(s.players[j], Some(p.videoId), false)
  {
    hide RunFrom, Rerendered, FirstMaximum, Told;
    var s := RunSystem(h);
    var p, timer := s.players[i], s.ctx.nextHandle;
    var two := [Acts(i, Intersection(ratio, inView)), Acts(i, EffectRuns(true))];
    SightedIsReported(h, i, ratio, inView, true);
    RunFromAppend(START, h, two);
    var t := RunSystem(h + two);
    ToldTimer(s.ctx, t.ctx, p.videoId, ratio);
    var k := SomeLargest(h + two, timer);
    LargestIsFirst(s.ctx, t.ctx, p.videoId, ratio, k);
    LargestIsChosen(h + two, timer, false, k);
    assert h + two + [TimerFires(timer)] + [ProviderRenders(false)] == h + Sighting(i, ratio, inView, timer);
  }

  lemma {:induction false} ToldTimer(c: Context, d: Context, id: Id, ratio: real)
    requires Told(c, d, id, ratio)
    ensures c.nextHandle in d.timers && d.next == c.next && d.active == c.active
    ensures ratio > 0.0 ==> d.visible != []
  {
    if ratio > 0.0 { assert Entry(id, ratio) in d.visible; }
  }

  lemma {:induction false} SomeLargest(h: seq<Step>, timer: nat) returns (k: nat)
    requires timer in RunSystem(h).ctx.timers && RunSystem(h).ctx.visible != []
    ensures FirstMaximum(RunSystem(h).ctx.visible, k)
  {
    hide Run, RunFrom, FirstMaximum, MostVisible;
    ContextRuns(h);
    SelectionTakesEffect(AllOps(h), timer);
    var m :| FirstMaximum(RunSystem(h).ctx.visible, m);
    assert m >= 0 by { FirstMaximumNat(RunSystem(h).ctx.visible, m); }
    k := m;
  }

  lemma {:induction false} FirstMaximumNat(es: seq<Entry>, k: int)
    requires FirstMaximum(es, k)
    ensures 0 <= k < |es|
  {
  }

  // ----- From sight to playing -----

  /** Everything that is queued for player i runs, and then the frame of the mute effect. */
  function Settling(s: System, i: nat): seq<Step>
    requires i < |s.players|
  {
    Steps(i, Drain(|s.players[i].effects|) + [FrameRuns(true)])
  }

  lemma {:induction false} SettledInRun(s: System, i: nat)
    requires i < |s.players|
    ensures var t := RunFrom(s, Settling(s, i));
            t.players == s.players[i := Settle(s.players[i])] && t.ctx.active == s.ctx.active
  {
    StepsOfOne(s, i, Drain(|s.players[i].effects|) + [FrameRuns(true)]);
  }

  /** A loaded player that is sighted at a larger ratio than every other video plays once its effects have run, and an
      element of another video is paused once its own have. */
  lemma {:induction false} SightedPlays(h: seq<Step>, i: nat, ratio: real, inView: bool, j: nat)
    requires var s := RunSystem(h);
             && Idle(s, i) && Ready(s.players[i]) && !s.players[i].isActive && s.players[i].frames == 0
             && Largest(s, i, ratio) && s.ctx.next == s.ctx.active
             && Idle(s, j) && s.players[j].frames == 0 && s.players[j].videoId != s.players[i].videoId
    ensures var s := RunSystem(h);
            var t := RunSystem(h + Sighting(i, ratio, inView, s.ctx.nextHandle));
            |t.players| == |s.players| &&
            var u := RunFrom(t, Settling(t, i));
            |u.players| == |s.players| &&
            var v := RunFrom(u, Settling(u, j));
            && v.ctx.active == Some(s.players[i].videoId)
            && |v.players| == |s.players| && !v.players[i].paused && v.players[j].paused
  {
    hide RunFrom, Rerendered, Sighting, Settle, Settling;
    var s := RunSystem(h);
    var p := s.players[i];
    SightedIsChosen(h, i, ratio, inView);
    var t := RunSystem(h + Sighting(i, ratio, inView, s.ctx.nextHandle));
    SettledInRun(t, i);
    SettledInRun(RunFrom(t, Settling(t, i)), j);
    RenderSettles(p.(seen := Some(ratio), inView := inView), Some(p.videoId), false);
    RenderSettles(s.players[j], Some(p.videoId), false);
  }
}
