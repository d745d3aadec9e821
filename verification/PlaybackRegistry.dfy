/**
  Which videos the coordinator's registry holds in a run of the playback system. Elements are registered by the
  reference callback, which runs when a player is mounted; they are unregistered by the same callback, by the
  cleanup effect, which also runs after every render of the provider, and by the eviction of the oldest.
 */
module PlaybackRegistry {
  import opened Options
  import opened PlaybackContext
  import opened PlaybackSystem
  import opened PlaybackRuns

  // ----- One step of the coordinator -----

  predicate Sized(c: Context) {
    NoDuplicates(c.order) && |c.order| <= MAX_VIDEO_REFS
  }

  lemma {:induction false} RegisterOrder(c: Context, x: Id, element: Element, id: Id)
    requires Sized(c)
    ensures id in Register(c, x, element).order <==> id == x || (id in c.order && !ShiftsOut(c, x, id))
    ensures id in Register(c, x, element).refs <==>
              id == x || (id in c.refs && !(ShiftsOut(c, x, id) && !Spared(c, id)))
  {
    WithoutKeepsRest(c.order, x);
    NotListed(c.order, x);
    var s := Without(c.order, x);
    var o := s + [x];
    var w := c.(order := o, refs := c.refs[x := element]);
    PruneOnce(w);
    hide Without, IndexOf, Prune;
    FirstOnce(o, s, x);
    assert forall y :: y in o <==> y in s || y == x;
    if |o| > MAX_VIDEO_REFS {
      assert o[0] == c.order[0];
      assert Spared(w, o[0]) == Spared(c, o[0]);
    }
  }

  lemma {:induction false} UnregisterOrder(c: Context, x: Id, id: Id)
    requires Sized(c)
    ensures id in Unregister(c, x).order <==> id in c.order && id != x
    ensures id in Unregister(c, x).refs <==> id in c.refs && id != x
  {
    WithoutKeepsRest(c.order, x);
  }

  lemma {:induction false} CleanupOrder(c: Context, x: Id, id: Id)
    requires Sized(c)
    ensures id in Reported(c, x, Cleanup).order <==> id in c.order && id != x
    ensures id in Reported(c, x, Cleanup).refs <==> id in c.refs && id != x
  {
    var u := UpdateVisibility(c, x, 0.0);
    assert u.order == c.order && u.refs == c.refs;
    UnregisterOrder(u, x, id);
    hide UpdateVisibility, Unregister;
  }

  // ----- One step of the system -----

  /** The step takes id out by the reference callback or by a cleanup. */
  predicate Unregisters(s: System, step: Step, id: Id) {
    && step.Acts? && step.i < |s.players| && s.players[step.i].videoId == id
    && ((step.action == Unmount && s.players[step.i].mounted)
        || (step.action.EffectRuns? && s.players[step.i].effects != [] && s.players[step.i].effects[0] == Cleanup))
  }

  /** The step registers another video and evicts id. */
  predicate Evicts(s: System, step: Step, id: Id) {
    step.Mount? && ShiftsOut(s.ctx, step.id, id)
  }

  lemma {:induction false} EffectOrder(c: Context, x: Id, e: Effect, id: Id)
    requires Sized(c)
    ensures id in Reported(c, x, e).order <==> id in c.order && !(e == Cleanup && id == x)
    ensures id in Reported(c, x, e).refs <==> id in c.refs && !(e == Cleanup && id == x)
  {
    if e == Cleanup { CleanupOrder(c, x, id); }
    hide Unregister;
  }

  lemma {:induction false} ActionOrder(s: System, i: nat, action: Action, id: Id)
    requires Sized(s.ctx) && i < |s.players|
    ensures var d := ContextAfterAction(s.ctx, s.players[i], action); var gone := Unregisters(s, Acts(i, action), id);
            && (id in d.order <==> id in s.ctx.order && !gone)
            && (id in d.refs <==> id in s.ctx.refs && !gone)
  {
    hide Unregister, Reported, Sized;
    var p := s.players[i];
    match action
    case Unmount => UnregisterOrder(s.ctx, p.videoId, id);
    case EffectRuns(_) => if p.effects != [] { EffectOrder(s.ctx, p.videoId, p.effects[0], id); }
    case _ =>
  }

  /** The step takes id out of the order or, if sparing, its element out of the map. */
  predicate TakesOut(s: System, step: Step, id: Id, sparing: bool) {
    Unregisters(s, step, id) || (Evicts(s, step, id) && !(sparing && Spared(s.ctx, id)))
  }

  lemma {:induction false} StepOrder(s: System, step: Step, id: Id)
    requires Sized(s.ctx)
    ensures var d := Next(s, step).ctx;
            && (id in d.order <==> step == Mount(id) || (id in s.ctx.order && !TakesOut(s, step, id, false)))
            && (id in d.refs <==> step == Mount(id) || (id in s.ctx.refs && !TakesOut(s, step, id, true)))
  {
    hide Register, After, ContextAfterAction, Sized, ShiftsOut, Spared;
    if step.Mount? { RegisterOrder(s.ctx, step.id, |s.players|, id); }
    if step.Acts? && step.i < |s.players| { ActionOrder(s, step.i, step.action, id); }
  }

  lemma {:induction false} AlwaysSized(h: seq<Step>)
    ensures Sized(RunSystem(h).ctx) && Listed(RunSystem(h).ctx)
  {
    hide Run, AllOps, RunSystem, LastRegistered, OnlySparedAreExtra, Listed;
    ContextRuns(h);
    OrderIsMostRecent(AllOps(h));
    ElementsOfOrder(AllOps(h));
  }

  // ----- Exactly which videos are registered -----

  /** Step n of the run takes id out. */
  predicate TakenAt(h: seq<Step>, n: int, id: Id, sparing: bool) {
    0 <= n < |h| && TakesOut(RunSystem(h[..n]), h[n], id, sparing)
  }

  /** Step m mounts a player for id, and no later step of the run takes id out. */
  ghost predicate HeldSince(h: seq<Step>, id: Id, m: int, sparing: bool) {
    0 <= m < |h| && h[m] == Mount(id) && forall n | m < n :: !TakenAt(h, n, id, sparing)
  }

  lemma {:induction false} TakenAtStep(g: seq<Step>, step: Step, n: int, id: Id, sparing: bool)
    ensures TakenAt(g + [step], n, id, sparing) <==>
            TakenAt(g, n, id, sparing) || (n == |g| && TakesOut(RunSystem(g), step, id, sparing))
  {
    hide TakesOut, RunSystem;
    if 0 <= n <= |g| { assert (g + [step])[..n] == g[..n]; }
    assert g[..|g|] == g;
  }

  lemma {:induction false} HeldSinceStep(g: seq<Step>, step: Step, id: Id, m: int, sparing: bool)
    ensures HeldSince(g + [step], id, m, sparing) <==>
            (m == |g| && step == Mount(id))
            || (HeldSince(g, id, m, sparing) && !TakesOut(RunSystem(g), step, id, sparing))
  {
    hide TakenAt, TakesOut, RunSystem;
    forall n ensures TakenAt(g + [step], n, id, sparing) <==>
                     TakenAt(g, n, id, sparing) || (n == |g| && TakesOut(RunSystem(g), step, id, sparing)) {
      TakenAtStep(g, step, n, id, sparing);
    }
    TakenAtStep(g, step, |g|, id, sparing);
    TakenInside(g, id, sparing);
    if 0 <= m < |g| { assert (g + [step])[m] == g[m]; }
  }

  lemma {:induction false} TakenInside(h: seq<Step>, id: Id, sparing: bool)
    ensures forall n | n >= |h| :: !TakenAt(h, n, id, sparing)
  {
  }

  lemma {:induction false} HeldStep(g: seq<Step>, step: Step, id: Id, sparing: bool)
    ensures (exists m :: HeldSince(g + [step], id, m, sparing)) <==>
            step == Mount(id)
            || ((exists m :: HeldSince(g, id, m, sparing)) && !TakesOut(RunSystem(g), step, id, sparing))
  {
    hide HeldSince, TakesOut, RunSystem;
    HeldSinceStep(g, step, id, |g|, sparing);
    forall m ensures HeldSince(g + [step], id, m, sparing) <==>
                     (m == |g| && step == Mount(id))
                     || (HeldSince(g, id, m, sparing) && !TakesOut(RunSystem(g), step, id, sparing)) {
      HeldSinceStep(g, step, id, m, sparing);
    }
  }

  lemma {:induction false} NothingHeld(id: Id)
    ensures id !in RunSystem([]).ctx.order && id !in RunSystem([]).ctx.refs
    ensures forall m, sparing :: !HeldSince([], id, m, sparing)
  {
    assert RunSystem([]) == START;
  }

  /** In every run: a video is listed if and only if a player was mounted for it and since then neither a removed
      player, nor a cleanup, nor an eviction took it out. Its element is kept under the same condition, except
      that an eviction while the video is active does not count. */
  lemma {:induction false} RegisteredIff(h: seq<Step>, id: Id)
    ensures id in RunSystem(h).ctx.order <==> exists m :: HeldSince(h, id, m, false)
    ensures id in RunSystem(h).ctx.refs <==> exists m :: HeldSince(h, id, m, true)
  {
    hide RunFrom, Next, HeldSince, TakesOut;
    if h == [] {
      NothingHeld(id);
    } else {
      var g, step := h[..|h| - 1], h[|h| - 1];
      assert h == g + [step];
      RunFromStep(START, g, step);
      RegisteredIff(g, id);
      AlwaysSized(g);
      HeldStep(g, step, id, false);
      HeldStep(g, step, id, true);
      StepOrder(RunSystem(g), step, id);
    }
  }

  // ----- A render of the provider empties the registry -----

  /** Every kept element belongs to a mounted player. */
  ghost predicate Owned(s: System) {
    forall id | id in s.ctx.refs :: exists i :: MountedFor(s, i, id)
  }

  predicate MountedFor(s: System, i: int, id: Id) {
    0 <= i < |s.players| && s.players[i].mounted && s.players[i].videoId == id
  }

  /** The same player, with at most more effects queued */
  predicate SamePlayer(p: Player, q: Player) {
    q.videoId == p.videoId && q.mounted == p.mounted && p.effects <= q.effects
  }

  lemma {:induction false} RendersKeep(p: Player, isLoading: bool, hasError: bool, ratio: real, inView: bool)
    ensures SamePlayer(p, Reloaded(p, isLoading, hasError)) && SamePlayer(p, Sighted(p, ratio, inView))
    ensures SamePlayer(p, Pressed(p))
  {
    hide Report, PlaybackEffects;
  }

  lemma {:induction false} PlayingKeeps(p: Player, ok: bool)
    ensures SamePlayer(p, Play(p, ok)) && SamePlayer(p, Pause(p))
  {
  }

  lemma {:induction false} EffectKeeps(p: Player, e: Effect, ok: bool)
    ensures SamePlayer(p, Effected(p, e, ok))
  {
    PlayingKeeps(p, ok);
    hide Play, Pause;
  }

  lemma {:induction false} FrameKeeps(p: Player, ok: bool)
    ensures SamePlayer(p, Framed(p, ok))
  {
    if p.frames > 0 { PlayingKeeps(p.(frames := p.frames - 1), ok); }
    hide Play, Pause;
  }

  lemma {:induction false} NotifyKeeps(p: Player)
    ensures SamePlayer(p, Notified(p))
  {
    if p.playEvents > 0 { PlayingKeeps(p.(playEvents := p.playEvents - 1), true); }
    hide Play, Pause;
  }

  lemma {:induction false} QueuedEffectKeeps(p: Player, ok: bool)
    ensures p.effects != [] ==> SamePlayer(p.(effects := p.effects[1..]), After(p, EffectRuns(ok)))
    ensures p.effects == [] ==> After(p, EffectRuns(ok)) == p
  {
    hide Effected, SamePlayer;
    if p.effects != [] { EffectKeeps(p.(effects := p.effects[1..]), p.effects[0], ok); }
  }

  lemma {:induction false} ElementKeeps(p: Player, action: Action)
    requires action.Ended? || action.Click? || action.RemovalPause? || action.BrowserPause? || action.NewSource?
    ensures SamePlayer(p, After(p, action))
  {
    hide Play, Pause;
    match action
    case Ended(ok) => PlayingKeeps(p, ok);
    case Click(_, ok) => PlayingKeeps(p, ok);
    case RemovalPause => PlayingKeeps(p.(removal := false), true);
    case _ => PlayingKeeps(p, true);
  }

  lemma {:induction false} AfterKeeps(p: Player, action: Action)
    ensures After(p, action).videoId == p.videoId
    ensures After(p, action).mounted <==> p.mounted && action != Unmount
    ensures (if action.EffectRuns? && p.effects != [] then p.effects[1..] else p.effects) <= After(p, action).effects
  {
    hide Reloaded, Sighted, Pressed, Effected, Framed, Notified, Play, Pause;
    match action
    case Unmount =>
    case StateChanges(isLoading, hasError) => RendersKeep(p, isLoading, hasError, 0.0, false);
    case Intersection(ratio, inView) => RendersKeep(p, false, false, ratio, inView);
    case LongPress => RendersKeep(p, false, false, 0.0, false);
    case EffectRuns(ok) => QueuedEffectKeeps(p, ok);
    case FrameRuns(ok) => FrameKeeps(p, ok);
    case PlayEventFires => NotifyKeeps(p);
    case _ => ElementKeeps(p, action);
  }

  lemma {:induction false} StillMountedFor(s: System, step: Step, i: int, id: Id)
    requires MountedFor(s, i, id)
    ensures MountedFor(Next(s, step), i, id) || Unregisters(s, step, id)
  {
    if step.Acts? && step.i == i {
      AfterKeeps(s.players[i], step.action);
      hide After;
    }
  }

  lemma {:induction false} StepOwned(s: System, step: Step)
    requires Owned(s) && Sized(s.ctx)
    ensures Owned(Next(s, step))
  {
    var d := Next(s, step);
    if step.Mount? { assert d.players == s.players + [Created(step.id, s.ctx.active)]; }
    assert step.Mount? ==> MountedFor(d, |s.players|, step.id);
    forall id | id in d.ctx.refs ensures exists i :: MountedFor(d, i, id) {
      StepOrder(s, step, id);
      if step != Mount(id) {
        var i :| MountedFor(s, i, id);
        StillMountedFor(s, step, i, id);
      }
    }
  }

  lemma {:induction false} AlwaysOwned(h: seq<Step>)
    ensures Owned(RunSystem(h))
  {
    if h == [] {
      assert RunSystem(h) == START;
    } else {
      AlwaysOwned(h[..|h| - 1]);
      AlwaysSized(h[..|h| - 1]);
      hide Next, Owned, Sized;
      StepOwned(RunSystem(h[..|h| - 1]), h[|h| - 1]);
    }
  }

  /** A cleanup of player i is queued. */
  predicate CleanupQueued(s: System, i: int, id: Id) {
    MountedFor(s, i, id) && Cleanup in s.players[i].effects
  }

  /** Every kept element has a cleanup ahead. */
  ghost predicate Doomed(s: System) {
    forall id | id in s.ctx.refs :: exists i :: CleanupQueued(s, i, id)
  }

  lemma {:induction false} AfterQueued(p: Player, action: Action)
    requires Cleanup in p.effects
    ensures Cleanup in After(p, action).effects || (action.EffectRuns? && p.effects[0] == Cleanup)
  {
    hide After;
    AfterKeeps(p, action);
    assert p.effects == [p.effects[0]] + p.effects[1..];
  }

  lemma {:induction false} StillQueued(s: System, step: Step, i: int, id: Id)
    requires CleanupQueued(s, i, id)
    ensures CleanupQueued(Next(s, step), i, id) || Unregisters(s, step, id)
  {
    StillMountedFor(s, step, i, id);
    if step.Acts? && step.i == i {
      AfterQueued(s.players[i], step.action);
      hide After;
    }
  }

  lemma {:induction false} StepDoomed(s: System, step: Step)
    requires Doomed(s) && Sized(s.ctx) && !step.Mount?
    ensures Doomed(Next(s, step))
  {
    forall id | id in Next(s, step).ctx.refs ensures exists i :: CleanupQueued(Next(s, step), i, id) {
      StepOrder(s, step, id);
      var i :| CleanupQueued(s, i, id);
      hide Next;
      StillQueued(s, step, i, id);
    }
  }

  lemma {:induction false} RenderDooms(s: System, muteChanged: bool)
    requires Owned(s)
    ensures Doomed(Next(s, ProviderRenders(muteChanged)))
  {
    var d := Next(s, ProviderRenders(muteChanged));
    forall id | id in d.ctx.refs ensures exists i :: CleanupQueued(d, i, id) {
      var i :| MountedFor(s, i, id);
      RerenderedQueues(s.players[i], s.ctx.next, muteChanged);
      assert CleanupQueued(d, i, id);
    }
  }

  lemma {:induction false} RerenderedQueues(p: Player, active: Option<Id>, muteChanged: bool)
    requires p.mounted
    ensures var q := Rerendered(p, active, muteChanged);
            q.mounted && q.videoId == p.videoId && Cleanup in q.effects
  {
    assert Rerendered(p, active, muteChanged).effects[|p.effects|] == Cleanup;
  }

  lemma {:induction false} DoomedInRun(g: seq<Step>, t: seq<Step>)
    requires Doomed(RunSystem(g)) && forall k | 0 <= k < |t| :: !t[k].Mount?
    ensures Doomed(RunSystem(g + t))
  {
    if t == [] {
      assert g + t == g;
    } else {
      hide Doomed, Sized, Listed, Next, RunFrom;
      var k, step := t[..|t| - 1], t[|t| - 1];
      DoomedInRun(g, k);
      AlwaysSized(g + k);
      RunFromStep(START, g + k, step);
      SplitLast(g, t);
      StepDoomed(RunSystem(g + k), step);
    }
  }

  lemma {:induction false} EmptyOrFirst<T>(s: seq<T>)
    ensures s == [] || s[0] in s
  {
  }

  /** The context's functions are new at every render of the provider, so each player's cleanup runs after it, while the
      reference callback does not. Once the effects of such a render have run, and no player was mounted meanwhile, the
      registry is empty, whatever is mounted and whatever else happened. */
  lemma {:induction false} RenderEmptiesRegistry(h: seq<Step>, muteChanged: bool, t: seq<Step>)
    requires forall k | 0 <= k < |t| :: !t[k].Mount?
    requires forall p | p in RunSystem(h + [ProviderRenders(muteChanged)] + t).players :: p.effects == []
    ensures var c := RunSystem(h + [ProviderRenders(muteChanged)] + t).ctx; c.order == [] && c.refs == map[]
  {
    var g := h + [ProviderRenders(muteChanged)];
    var s := RunSystem(g + t);
    AlwaysOwned(h);
    RenderDooms(RunSystem(h), muteChanged);
    RunFromStep(START, h, ProviderRenders(muteChanged));
    hide RunFrom, Next, Owned;
    DoomedInRun(g, t);
    AlwaysSized(g + t);
    forall i, id ensures !CleanupQueued(s, i, id) {
      if 0 <= i < |s.players| { assert s.players[i] in s.players; }
    }
    EmptyOrFirst(s.ctx.order);
  }

  /** It happens: a player is mounted, its effects run, the provider renders, and the effects of that render run. The
      player stays mounted, and the registry does not know its video. */
  lemma {:induction false} MountedButUnknown(id: Id)
    ensures var r := EffectRuns(true);
            var h, t := [Mount(id)] + Steps(0, [r, r, r]), Steps(0, [r, r]);
            var s := RunSystem(h + [ProviderRenders(false)] + t);
            && |s.players| == 1 && s.players[0].mounted && s.players[0].videoId == id && s.players[0].effects == []
            && s.ctx.order == [] && s.ctx.refs == map[]
  {
    hide RunFrom, Next, Steps, RunPlayer, Created, Rerendered;
    var r := EffectRuns(true);
    var h, t := [Mount(id)] + Steps(0, [r, r, r]), Steps(0, [r, r]);
    var render := ProviderRenders(false);
    RunFromAppend(START, h + [render], t);
    RenderedAlone(id);
    StepsOfOne(RunSystem(h + [render]), 0, [r, r]);
    RenderedEffects(id);
    StepsAreActs(0, [r, r]);
    RenderEmptiesRegistry(h, false, t);
  }

  lemma {:induction false} RenderedAlone(id: Id)
    ensures var r := EffectRuns(true);
            RunSystem([Mount(id)] + Steps(0, [r, r, r]) + [ProviderRenders(false)]).players ==
            [Rerendered(Created(id, None).(effects := []), None, false)]
  {
    hide RunFrom, Steps, RunPlayer, Created, Rerendered;
    var r := EffectRuns(true);
    MountedAlone(id);
    RunFromAppend(START, [Mount(id)], Steps(0, [r, r, r]));
    RunFromStep(START, [Mount(id)] + Steps(0, [r, r, r]), ProviderRenders(false));
    StepsOfOne(RunSystem([Mount(id)]), 0, [r, r, r]);
    FirstEffects(id);
  }

  lemma {:induction false} MountedAlone(id: Id)
    ensures var s := RunSystem([Mount(id)]); s.players == [Created(id, None)] && s.ctx.next == None
  {
    RunFromStep(START, [], Mount(id));
    assert [] + [Mount(id)] == [Mount(id)] && RunFrom(START, []) == START;
    PruneKeepsActive(START.ctx.(order := Without([], id) + [id], refs := map[][id := 0]));
  }

  lemma {:induction false} StepsAreActs(i: nat, actions: seq<Action>)
    ensures forall k | 0 <= k < |Steps(i, actions)| :: Steps(i, actions)[k].Acts?
  {
    if actions != [] { StepsAreActs(i, actions[1..]); }
  }

  lemma {:induction false} FirstEffects(id: Id)
    ensures var r := EffectRuns(true); RunPlayer(Created(id, None), [r, r, r]) == Created(id, None).(effects := [])
  {
    hide RunPlayer;
    var r := EffectRuns(true);
    var v, c, m := Visibility(Some(0.0)), Control(false, false), MuteSync(false);
    var p := Created(id, None);
    assert p.effects == [v] + [c, m] && [c, m] == [c] + [m] && [m] == [m] + [];
    EffectStep(p, v, [c, m], [r, r]);
    EffectStep(p.(effects := [c, m]), c, [m], [r]);
    EffectStep(p.(effects := [m]), m, [], []);
    RunPlayerEnd(p.(effects := []));
    assert [r] + [r, r] == [r, r, r] && [r] + [r] == [r, r] && [r] + [] == [r];
  }

  lemma {:induction false} RenderedEffects(id: Id)
    ensures var r := EffectRuns(true);
            var p := RunPlayer(Rerendered(Created(id, None).(effects := []), None, false), [r, r]);
            p.mounted && p.videoId == id && p.effects == []
  {
    hide RunPlayer;
    var r := EffectRuns(true);
    var v, k := Visibility(Some(0.0)), Cleanup;
    var p := Rerendered(Created(id, None).(effects := []), None, false);
    assert p.effects == [k] + [v] && [v] == [v] + [];
    EffectStep(p, k, [v], [r]);
    EffectStep(p.(effects := [v]), v, [], []);
    RunPlayerEnd(p.(effects := []));
    assert [r] + [r] == [r, r] && [r] + [] == [r];
  }
}
