/**
  Whole runs of the playback system: how many elements can play at once, what a removed element can still do, and
  what the coordinator's registry holds.
 */
module PlaybackRuns {
  import opened Options
  import opened PlaybackContext
  import opened PlaybackSelection
  import opened PlaybackSystem

  // ----- Runs of one player inside a run of the system -----

  function RunPlayer(p: Player, actions: seq<Action>): Player
    decreases |actions|
  {
    if actions == [] then p else RunPlayer(After(p, actions[0]), actions[1..])
  }

  function Steps(i: nat, actions: seq<Action>): seq<Step> {
    if actions == [] then [] else [Acts(i, actions[0])] + Steps(i, actions[1..])
  }

  lemma {:induction false} SplitLast<T>(g: seq<T>, h: seq<T>)
    requires h != []
    ensures h == h[..|h| - 1] + [h[|h| - 1]] && g + h == (g + h[..|h| - 1]) + [h[|h| - 1]]
  {
  }

  lemma {:induction false} RunFromAppend(s: System, g: seq<Step>, h: seq<Step>)
    ensures RunFrom(s, g + h) == RunFrom(RunFrom(s, g), h)
  {
    if h == [] {
      assert g + h == g;
    } else {
      hide RunFrom, Next;
      var k, e := h[..|h| - 1], h[|h| - 1];
      RunFromAppend(s, g, k);
      RunFromStep(s, g + k, e);
      RunFromStep(RunFrom(s, g), k, e);
      SplitLast(g, h);
    }
  }

  /** Steps of one player change that player only, and leave the committed active id alone. */
  lemma {:induction false} StepsOfOne(s: System, i: nat, actions: seq<Action>)
    requires i < |s.players|
    ensures var t := RunFrom(s, Steps(i, actions));
            t.players == s.players[i := RunPlayer(s.players[i], actions)] && t.ctx.active == s.ctx.active
            && t.ctx.next == s.ctx.next
    decreases |actions|
  {
    if actions != [] {
      var u := Next(s, Acts(i, actions[0]));
      assert RunFrom(s, []) == s;
      RunFromStep(s, [], Acts(i, actions[0]));
      assert [] + [Acts(i, actions[0])] == [Acts(i, actions[0])];
      RunFromAppend(s, [Acts(i, actions[0])], Steps(i, actions[1..]));
      StepsOfOne(u, i, actions[1..]);
      assert u.players[i := RunPlayer(u.players[i], actions[1..])] == s.players[i := RunPlayer(s.players[i], actions)];
    } else {
      assert s.players[i := s.players[i]] == s.players;
    }
  }

  // ----- Elements that have been removed -----

  /** Out of the document, playing, and past the browser's own pause */
  predicate Stray(p: Player) {
    !p.mounted && !p.paused && !p.removal
  }

  predicate Harmless(p: Player) {
    !p.mounted ==> p.frames == 0 && (p.paused || p.removal)
  }

  /** No player is unmounted while an animation frame of its mute effect is outstanding. */
  ghost predicate CleanExits(h: seq<Step>) {
    forall n | 0 <= n < |h| :: CleanExit(RunSystem(h[..n]), h[n])
  }

  predicate CleanExit(s: System, step: Step) {
    step.Acts? && step.action == Unmount && step.i < |s.players| ==>
      !s.players[step.i].mounted || s.players[step.i].frames == 0
  }

  lemma {:induction false} AfterHarmless(p: Player, action: Action)
    requires Harmless(p) && (action == Unmount ==> !p.mounted || p.frames == 0)
    ensures Harmless(After(p, action))
  {
    hide Report, PlaybackEffects;
  }

  lemma {:induction false} StepHarmless(s: System, step: Step)
    requires (forall p | p in s.players :: Harmless(p)) && CleanExit(s, step)
    ensures forall p | p in Next(s, step).players :: Harmless(p)
  {
    forall p | p in Next(s, step).players ensures Harmless(p) {
      match step
      case ProviderRenders(muteChanged) =>
        var k :| 0 <= k < |s.players| && p == Rerendered(s.players[k], s.ctx.next, muteChanged);
        assert s.players[k] in s.players;
      case Acts(i, action) => if p !in s.players { AfterHarmless(s.players[i], action); }
      case _ =>
    }
  }

  lemma {:induction false} RemovedAreHarmless(h: seq<Step>)
    requires CleanExits(h)
    ensures forall p | p in RunSystem(h).players :: Harmless(p)
  {
    if h != [] {
      var g := h[..|h| - 1];
      forall n | 0 <= n < |g| ensures CleanExit(RunSystem(g[..n]), g[n]) { assert g[..n] == h[..n]; }
      RemovedAreHarmless(g);
      StepHarmless(RunSystem(g), h[|h| - 1]);
    }
  }

  /** Nothing is pending anywhere, removed elements included. */
  ghost predicate Settled(s: System) {
    Quiet(s) && forall p | p in s.players :: !p.removal || p.mounted
  }

  /** If no player leaves with a frame outstanding, then whenever the system is settled, every element that plays,
      removed or not, is mounted and shows the active video; with one player per video at most one element plays. */
  lemma {:induction false} AtMostOneVideoPlays(h: seq<Step>, i: nat, j: nat)
    requires CleanExits(h) && Settled(RunSystem(h))
    requires i < |RunSystem(h).players| && !RunSystem(h).players[i].paused
    requires j < |RunSystem(h).players| && !RunSystem(h).players[j].paused
    ensures RunSystem(h).players[i].mounted && RunSystem(h).ctx.active == Some(RunSystem(h).players[i].videoId)
    ensures RunSystem(h).players[i].videoId == RunSystem(h).players[j].videoId
  {
    RemovedAreHarmless(h);
    var ps := RunSystem(h).players;
    assert ps[i] in ps && ps[j] in ps;
    QuietMeansActive(h, ps[i]);
    QuietMeansActive(h, ps[j]);
  }

  lemma {:induction false} StepHarmlessAt(s: System, step: Step, i: nat)
    requires i < |s.players| && Harmless(s.players[i]) && !s.players[i].mounted
    ensures i < |Next(s, step).players| && Harmless(Next(s, step).players[i]) && !Next(s, step).players[i].mounted
  {
    if step.Acts? && step.i == i {
      AfterHarmless(s.players[i], step.action);
      AfterUnmounted(s.players[i], step.action);
    }
  }

  lemma {:induction false} AfterUnmounted(p: Player, action: Action)
    requires !p.mounted
    ensures !After(p, action).mounted
  {
    hide Report, PlaybackEffects;
  }

  lemma {:induction false} HarmlessForever(s: System, i: nat, t: seq<Step>)
    requires i < |s.players| && Harmless(s.players[i]) && !s.players[i].mounted
    ensures i < |RunFrom(s, t).players| && Harmless(RunFrom(s, t).players[i]) && !RunFrom(s, t).players[i].mounted
  {
    if t != [] {
      HarmlessForever(s, i, t[..|t| - 1]);
      StepHarmlessAt(RunFrom(s, t[..|t| - 1]), t[|t| - 1], i);
    }
  }

  ghost predicate CanStray(s: System, i: nat) {
    exists t :: i < |RunFrom(s, t).players| && Stray(RunFrom(s, t).players[i])
  }

  /** A player that is unmounted now can end up playing with nobody to pause it if and only if one of its animation
      frames is outstanding: the frame resumes the element without asking whether it is still mounted. */
  lemma {:induction false} StraysIffFrameOutstanding(s: System, i: nat)
    requires i < |s.players| && s.players[i].mounted
    ensures CanStray(Next(s, Acts(i, Unmount)), i) <==> s.players[i].frames > 0
  {
    var u := Next(s, Acts(i, Unmount));
    assert u.players[i] == Removed(s.players[i]);
    if s.players[i].frames > 0 {
      StepsOfOne(u, i, [RemovalPause, FrameRuns(true)]);
      ResumedAfterRemoval(Removed(s.players[i]));
      assert Stray(RunFrom(u, Steps(i, [RemovalPause, FrameRuns(true)])).players[i]);
    } else {
      forall t ensures !(i < |RunFrom(u, t).players| && Stray(RunFrom(u, t).players[i])) { HarmlessForever(u, i, t); }
    }
  }

  lemma {:induction false} ResumedAfterRemoval(p: Player)
    requires !p.mounted && p.removal && p.frames > 0
    ensures Stray(RunPlayer(p, [RemovalPause, FrameRuns(true)]))
  {
    var q := After(p, RemovalPause);
    assert [RemovalPause, FrameRuns(true)][1..] == [FrameRuns(true)];
    assert RunPlayer(p, [RemovalPause, FrameRuns(true)]) == RunPlayer(q, [FrameRuns(true)]);
    assert RunPlayer(q, [FrameRuns(true)]) == RunPlayer(After(q, FrameRuns(true)), []);
  }

  /** Such an element plays on whatever else the application does: what can stop it is the browser, or a source that a
      preflight check sets which was pending when the player left. */
  lemma {:induction false} StrayPlaysOn(s: System, i: nat, t: seq<Step>)
    requires i < |s.players| && Stray(s.players[i])
    requires forall k | 0 <= k < |t| :: t[k] != Acts(i, BrowserPause) && t[k] != Acts(i, NewSource)
    ensures i < |RunFrom(s, t).players| && Stray(RunFrom(s, t).players[i])
  {
    if t != [] {
      var g, step := t[..|t| - 1], t[|t| - 1];
      StrayPlaysOn(s, i, g);
      var u := RunFrom(s, g);
      if step.Acts? && step.i == i { AfterStray(u.players[i], step.action); }
    }
  }

  lemma {:induction false} AfterStray(p: Player, action: Action)
    requires Stray(p) && action != BrowserPause && action != NewSource
    ensures Stray(After(p, action))
  {
    hide Report, PlaybackEffects;
  }

  // ----- Runs that leave two elements playing -----

  lemma {:induction false} RunPlayerStep(p: Player, a: Action, more: seq<Action>)
    ensures RunPlayer(p, [a] + more) == RunPlayer(After(p, a), more)
  {
    assert ([a] + more)[1..] == more;
  }

  lemma {:induction false} RunPlayerEnd(p: Player)
    ensures RunPlayer(p, []) == p
  {
  }

  /** The effects of the mounting run, the video loads, and the effects of that render run, which start playback. */
  const LOADED := [EffectRuns(true), EffectRuns(true), EffectRuns(true), StateChanges(false, false), EffectRuns(true),
                   EffectRuns(true)]

  /** Then the play event is delivered and the frame of the mute effect finds the element playing. */
  const STARTED := LOADED + [PlayEventFires, FrameRuns(true)]

  predicate PlaysQuietly(p: Player) {
    p.mounted && !p.paused && p.effects == [] && p.playEvents == 0
  }

  lemma {:induction false} EffectStep(p: Player, e: Effect, rest: seq<Effect>, more: seq<Action>)
    requires p.effects == [e] + rest
    ensures RunPlayer(p, [EffectRuns(true)] + more) == RunPlayer(Effected(p.(effects := rest), e, true), more)
  {
    RunPlayerStep(p, EffectRuns(true), more);
    assert p.effects[1..] == rest;
  }

  lemma {:induction false} StartedPlays(id: Id)
    ensures var p := RunPlayer(Created(id, Some(id)), STARTED); PlaysQuietly(p) && p.frames == 0 && p.videoId == id
  {
    var p := Created(id, Some(id)).(effects := [], isLoading := false, paused := false, playEvents := 1, frames := 1);
    LoadedPlays(id);
    PlayingSettles(p);
    hide *;
    assert STARTED == LOADED + [PlayEventFires, FrameRuns(true)];
    RunPlayerAppend(Created(id, Some(id)), LOADED, [PlayEventFires, FrameRuns(true)]);
  }

  lemma {:induction false} PlayingSettles(p: Player)
    requires p.mounted && p.isActive && !p.paused && p.effects == [] && p.playEvents == 1 && p.frames == 1
    ensures RunPlayer(p, [PlayEventFires, FrameRuns(true)]) == p.(playEvents := 0, frames := 0)
  {
    RunPlayerStep(p, PlayEventFires, [FrameRuns(true)]);
    RunPlayerStep(p.(playEvents := 0), FrameRuns(true), []);
    RunPlayerEnd(p.(playEvents := 0, frames := 0));
    hide RunPlayer;
    assert [PlayEventFires] + [FrameRuns(true)] == [PlayEventFires, FrameRuns(true)];
    assert [FrameRuns(true)] + [] == [FrameRuns(true)];
  }

  /** A player is mounted for the video that is active and starts to play. */
  function Starting(i: nat, id: Id): seq<Step> {
    [Mount(id)] + Steps(i, STARTED)
  }

  lemma {:induction false} StartingPlays(s: System, id: Id)
    requires s.ctx.active == Some(id)
    ensures var n := |s.players|; var t := RunFrom(s, Starting(n, id));
            && t.players == s.players + [RunPlayer(Created(id, Some(id)), STARTED)]
            && PlaysQuietly(t.players[n]) && t.players[n].videoId == id && t.ctx.active == Some(id)
  {
    var n := |s.players|;
    var u := Next(s, Mount(id));
    RunFromStep(s, [], Mount(id));
    assert [] + [Mount(id)] == [Mount(id)] && RunFrom(s, []) == s;
    RunFromAppend(s, [Mount(id)], Steps(n, STARTED));
    ActiveAfter(s, Mount(id));
    assert u.players == s.players + [Created(id, Some(id))];
    hide Next, Register;
    StepsOfOne(u, n, STARTED);
    StartedPlays(id);
  }

  function Activating(id: Id): seq<Step> {
    [Choose(Some(id)), ProviderRenders(false)]
  }

  lemma {:induction false} ActivatingWorks(s: System, id: Id)
    ensures var t := RunFrom(s, Activating(id));
            && t.ctx.active == Some(id) && |t.players| == |s.players|
            && forall k | 0 <= k < |s.players| :: t.players[k] == Rerendered(s.players[k], Some(id), false)
  {
    RunFromStep(s, [], Choose(Some(id)));
    RunFromStep(s, [Choose(Some(id))], ProviderRenders(false));
    assert RunFrom(s, []) == s && [] + [Choose(Some(id))] == [Choose(Some(id))];
    assert [Choose(Some(id))] + [ProviderRenders(false)] == Activating(id);
  }

  /** The restriction to one player per video is needed: two players of one id both play, with nothing pending. */
  lemma {:induction false} TwoPlayersOfOneVideo(id: Id)
    ensures var s := RunSystem(Activating(id) + Starting(0, id) + Starting(1, id));
            && |s.players| == 2 && PlaysQuietly(s.players[0]) && PlaysQuietly(s.players[1])
  {
    RunFromAppend(START, Activating(id), Starting(0, id));
    RunFromAppend(START, Activating(id) + Starting(0, id), Starting(1, id));
    ActivatingWorks(START, id);
    var s1 := RunFrom(START, Activating(id));
    StartingPlays(s1, id);
    var s2 := RunFrom(s1, Starting(0, id));
    StartingPlays(s2, id);
  }

  /** The player leaves with a frame outstanding, which then finds the removed element paused. */
  const LEAVING := [PlayEventFires, Unmount, RemovalPause, FrameRuns(true), EffectRuns(true)]

  const LEFT := LOADED + LEAVING

  lemma {:induction false} CreatedActive(id: Id)
    ensures Created(id, Some(id)) ==
            Player(id, true, true, true, false, None, false, true, 0, 0, false,
                   [Visibility(Some(0.0)), Control(true, false), MuteSync(false)])
  {
  }

  lemma {:induction false} LoadingQueues(p: Player)
    requires p.mounted && p.isActive && p.isLoading && !p.hasError
    ensures After(p, StateChanges(false, false)) ==
            p.(isLoading := false, effects := p.effects + [Control(true, true), MuteSync(true)])
  {
    assert [] + PlaybackEffects(p.(isLoading := false)) == [Control(true, true), MuteSync(true)];
  }

  lemma {:induction false} LoadedPlays(id: Id)
    ensures RunPlayer(Created(id, Some(id)), LOADED) ==
            Created(id, Some(id)).(effects := [], isLoading := false, paused := false, playEvents := 1, frames := 1)
  {
    hide Created, Report, PlaybackEffects, After, RunPlayer;
    CreatedActive(id);
    var p := Created(id, Some(id));
    var v, c, m := Visibility(Some(0.0)), Control(true, false), MuteSync(false);
    var d, n := Control(true, true), MuteSync(true);
    var r, l := EffectRuns(true), StateChanges(false, false);
    var p0, q := p.(effects := []), p.(effects := [], isLoading := false);
    LoadedWritten(v, c, m, d, n);
    EffectStep(p, v, [c, m], [r, r, l, r, r]);
    EffectStep(p.(effects := [c, m]), c, [m], [r, l, r, r]);
    EffectStep(p.(effects := [m]), m, [], [l, r, r]);
    LoadingQueues(p0);
    RunPlayerStep(p0, l, [r, r]);
    EffectStep(q.(effects := [d, n]), d, [n], [r]);
    EffectStep(q.(effects := [n], paused := false, playEvents := 1), n, [], []);
    RunPlayerEnd(q.(paused := false, playEvents := 1, frames := 1));
  }

  lemma {:induction false} LoadedWritten(v: Effect, c: Effect, m: Effect, d: Effect, n: Effect)
    ensures [v, c, m] == [v] + [c, m] && [c, m] == [c] + [m] && [m] == [m] + []
    ensures [d, n] == [d] + [n] && [n] == [n] + []
    ensures [] + [d, n] == [d, n]
    ensures var r, l := EffectRuns(true), StateChanges(false, false);
            && LOADED == [r] + [r, r, l, r, r] && [r, r, l, r, r] == [r] + [r, l, r, r]
            && [r, l, r, r] == [r] + [l, r, r] && [l, r, r] == [l] + [r, r] && [r, r] == [r] + [r] && [r] == [r] + []
  {
  }

  lemma {:induction false} LeavingStrays(p: Player)
    requires p.mounted && p.isActive && !p.paused && p.playEvents == 1 && p.frames == 1 && p.effects == []
    ensures var q := RunPlayer(p, LEAVING); Stray(q) && q.frames == 0 && q.videoId == p.videoId
  {
    hide Report, PlaybackEffects, RunPlayer;
    var p1 := p.(playEvents := 0);
    var p2 := p1.(mounted := false, removal := true, effects := [Cleanup]);
    assert p1.effects + [Cleanup] == [Cleanup];
    var p3 := p2.(removal := false, paused := true);
    var p4 := p3.(paused := false, frames := 0, playEvents := 1);
    RunPlayerStep(p, PlayEventFires, [Unmount, RemovalPause, FrameRuns(true), EffectRuns(true)]);
    RunPlayerStep(p1, Unmount, [RemovalPause, FrameRuns(true), EffectRuns(true)]);
    RunPlayerStep(p2, RemovalPause, [FrameRuns(true), EffectRuns(true)]);
    RunPlayerStep(p3, FrameRuns(true), [EffectRuns(true)]);
    EffectStep(p4, Cleanup, [], []);
    RunPlayerEnd(p4.(effects := []));
    var u, r, f, e := Unmount, RemovalPause, FrameRuns(true), EffectRuns(true);
    assert LEAVING == [PlayEventFires] + [u, r, f, e] && [u, r, f, e] == [u] + [r, f, e];
    assert [r, f, e] == [r] + [f, e] && [f, e] == [f] + [e] && [e] == [e] + [];
  }

  lemma {:induction false} LeftStrays(id: Id)
    ensures var p := RunPlayer(Created(id, Some(id)), LEFT); Stray(p) && p.frames == 0 && p.videoId == id
  {
    var p := Created(id, Some(id)).(effects := []);
    LoadedPlays(id);
    LeavingStrays(p.(isLoading := false, paused := false, playEvents := 1, frames := 1));
    assert LEFT == LOADED + LEAVING;
    RunPlayerAppend(Created(id, Some(id)), LOADED, LEAVING);
  }

  lemma {:induction false} RunPlayerAppend(p: Player, g: seq<Action>, h: seq<Action>)
    ensures RunPlayer(p, g + h) == RunPlayer(RunPlayer(p, g), h)
    decreases |g|
  {
    if g == [] {
      assert g + h == h;
    } else {
      RunPlayerAppend(After(p, g[0]), g[1..], h);
      assert (g + h)[1..] == g[1..] + h;
    }
  }

  /** One player leaves that way, then another video is chosen and starts. */
  function Escape(a: Id, b: Id): seq<Step> {
    Activating(a) + ([Mount(a)] + Steps(0, LEFT)) + Activating(b) + Starting(1, b)
  }

  /** So two elements can play although nothing is pending: a removed one and the active one. */
  lemma {:induction false} TwoElementsPlay(a: Id, b: Id)
    ensures var s := RunSystem(Escape(a, b));
            && Settled(s) && |s.players| == 2
            && Stray(s.players[0]) && s.players[0].videoId == a
            && PlaysQuietly(s.players[1]) && s.players[1].videoId == b
  {
    var h0, h1, h2, h3 := Activating(a), [Mount(a)] + Steps(0, LEFT), Activating(b), Starting(1, b);
    RunFromAppend(START, h0, h1);
    RunFromAppend(START, h0 + h1, h2);
    RunFromAppend(START, h0 + h1 + h2, h3);
    ActivatingWorks(START, a);
    var s1 := RunFrom(START, h0);
    MountedRuns(s1, a, LEFT);
    LeftStrays(a);
    var s2 := RunFrom(s1, h1);
    ActivatingWorks(s2, b);
    var s3 := RunFrom(s2, h2);
    StartingPlays(s3, b);
    assert s3.players == [s2.players[0]];
    hide RunFrom, Next, RunPlayer, Starting, Activating, Steps, Created, Rerendered;
    TwoSettled(RunSystem(Escape(a, b)));
  }

  lemma {:induction false} TwoSettled(s: System)
    requires |s.players| == 2 && Stray(s.players[0]) && PlaysQuietly(s.players[1])
    ensures Settled(s)
  {
  }

  lemma {:induction false} MountedRuns(s: System, id: Id, actions: seq<Action>)
    requires s.ctx.active == Some(id)
    ensures RunFrom(s, [Mount(id)] + Steps(|s.players|, actions)).players ==
            s.players + [RunPlayer(Created(id, Some(id)), actions)]
  {
    var n := |s.players|;
    var u := Next(s, Mount(id));
    RunFromStep(s, [], Mount(id));
    assert [] + [Mount(id)] == [Mount(id)] && RunFrom(s, []) == s;
    RunFromAppend(s, [Mount(id)], Steps(n, actions));
    assert u.players == s.players + [Created(id, Some(id))];
    hide Next, Register;
    StepsOfOne(u, n, actions);
  }

  // ----- The coordinator inside the system -----

  /** The coordinator's steps that one step of the system causes */
  function Ops(s: System, step: Step): seq<Op> {
    match step
    case Mount(id) => [DoRegister(id, |s.players|)]
    case Choose(choice) => [DoSetActive(choice)]
    case TimerFires(timer) => [DoFire(timer)]
    case ProviderRenders(_) => [DoRender]
    case Acts(i, action) =>
      if i >= |s.players| then []
      else
        var p := s.players[i];
        match action
        case Unmount => if p.mounted then [DoUnregister(p.videoId)] else []
        case EffectRuns(_) =>
          if p.effects == [] then []
          else (match p.effects[0]
                case Cleanup => [DoVisibility(p.videoId, 0.0), DoUnregister(p.videoId)]
                case Visibility(Some(ratio)) => [DoVisibility(p.videoId, ratio)]
                case _ => [])
        case _ => []
  }

  function AllOps(h: seq<Step>): seq<Op> {
    if h == [] then [] else AllOps(h[..|h| - 1]) + Ops(RunSystem(h[..|h| - 1]), h[|h| - 1])
  }

  lemma {:induction false} OpsDo(s: System, step: Step, ops: seq<Op>)
    requires s.ctx == Run(ops)
    ensures Next(s, step).ctx == Run(ops + Ops(s, step))
  {
    hide Register, Render, Fire, SetActive, Run, Unregister, UpdateVisibility;
    var more := Ops(s, step);
    if |more| == 0 {
      assert ops + more == ops;
    } else if |more| == 1 {
      RunStep(ops, more[0]);
      assert more == [more[0]];
    } else {
      RunStep(ops, more[0]);
      RunStep(ops + [more[0]], more[1]);
      assert ops + more == ops + [more[0]] + [more[1]];
    }
  }

  /** The coordinator inside any run of the system is a run of the coordinator,
      so everything shown about its registry and its selection holds there. */
  lemma {:induction false} ContextRuns(h: seq<Step>)
    ensures RunSystem(h).ctx == Run(AllOps(h))
  {
    if h == [] {
      assert Run([]) == INITIAL;
    } else {
      ContextRuns(h[..|h| - 1]);
      OpsDo(RunSystem(h[..|h| - 1]), h[|h| - 1], AllOps(h[..|h| - 1]));
    }
  }

  /** Each render of the provider also takes a visible video out of the visibility map and puts it back at the end, so
      among equal ratios the video whose effects ran first comes to be preferred. */
  lemma {:induction false} VisibilityRestored(c: Context, id: Id, ratio: real)
    requires WellKept(c.visible) && Debounced(c) && ratio > 0.0
    ensures var d := Reported(Reported(c, id, Cleanup), id, Visibility(Some(ratio)));
            && Keys(d.visible) == Without(Keys(c.visible), id) + [id]
            && Entry(id, ratio) in d.visible && WellKept(d.visible)
            && d.timers == {d.nextHandle - 1} && d.handle == Some(d.nextHandle - 1)
  {
    var once := DeleteEntry(c.visible, id);
    DeleteEntryKeys(c.visible, id);
    WellKeptDelete(c.visible, id);
    WithoutKeepsRest(Keys(c.visible), id);
    DeleteAbsent(once, id);
    SetEntryKeys(once, id, ratio);
    WellKeptSet(once, id, ratio);
  }
}
