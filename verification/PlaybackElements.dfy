/**
  What starts and stops the element of a player in frontend-web/src/components/VideoPlayer.tsx: step by step, and over
  all the effects that a render has queued.
 */
module PlaybackElements {
  import opened Options
  import opened PlaybackContext
  import opened PlaybackSystem
  import opened PlaybackRuns

  // ----- One step -----

  /** The action makes a paused element play. */
  predicate Starts(p: Player, action: Action) {
    match action
    case EffectRuns(ok) => ok && p.mounted && p.effects != [] && p.effects[0] == Control(true, true)
    case FrameRuns(ok) => ok && p.frames > 0
    case Ended(ok) => ok && p.mounted
    case Click(wasPlaying, ok) => ok && !wasPlaying && p.mounted
    case _ => false
  }

  /** The action pauses an element that plays. */
  predicate Stops(p: Player, action: Action) {
    match action
    case EffectRuns(_) => p.mounted && p.effects != [] && Pausing(p.effects[0])
    case PlayEventFires => p.mounted && p.playEvents > 0 && !p.isActive
    case Click(wasPlaying, _) => wasPlaying && p.mounted
    case RemovalPause => p.removal
    case BrowserPause => true
    case NewSource => true
    case _ => false
  }

  predicate QueuesFrame(p: Player, action: Action) {
    action.EffectRuns? && p.mounted && p.effects != [] && p.effects[0] == MuteSync(true)
  }

  /** What play() and pause() leave alone */
  predicate SameElement(p: Player, q: Player) {
    q.paused == p.paused && q.frames == p.frames && q.playEvents == p.playEvents && q.isActive == p.isActive
  }

  lemma {:induction false} RendersLeave(p: Player, isLoading: bool, hasError: bool, ratio: real, inView: bool)
    ensures SameElement(p, Reloaded(p, isLoading, hasError)) && SameElement(p, Sighted(p, ratio, inView))
    ensures SameElement(p, Pressed(p)) && SameElement(p, Removed(p))
  {
    hide Report, PlaybackEffects;
  }

  /** q is p after play(): unpaused and with a play event coming if it was paused and play() was accepted. */
  predicate Played(p: Player, q: Player, ok: bool) {
    && (q.paused <==> p.paused && !ok) && q.frames == p.frames && q.isActive == p.isActive
    && q.playEvents == p.playEvents + if p.paused && ok then 1 else 0
  }

  predicate Halted(p: Player, q: Player) {
    q.paused && q.frames == p.frames && q.playEvents == p.playEvents && q.isActive == p.isActive
  }

  lemma {:induction false} PlayPlays(p: Player, ok: bool)
    ensures Played(p, Play(p, ok), ok) && Halted(p, Pause(p))
  {
  }

  lemma {:induction false} ControlPlays(p: Player, active: bool, ready: bool, ok: bool)
    requires p.mounted
    ensures var q := Effected(p, Control(active, ready), ok);
            if active && ready then Played(p, q, ok) else if active then q == p else Halted(p, q)
  {
    hide Play, Pause, Played, Halted;
    PlayPlays(p, ok);
  }

  lemma {:induction false} OtherEffectPlays(p: Player, e: Effect, ok: bool)
    requires !p.mounted || !e.Control?
    ensures var q := Effected(p, e, ok);
            if p.mounted && e == Cleanup then Halted(p, q)
            else if p.mounted && e == MuteSync(true) then SameElement(p.(frames := p.frames + 1), q)
            else q == p
  {
    hide Play;
  }

  lemma {:induction false} EffectPlays(p: Player, e: Effect, ok: bool)
    ensures var q := Effected(p, e, ok);
            if p.mounted && e == Control(true, true) then Played(p, q, ok)
            else if p.mounted && Pausing(e) then Halted(p, q)
            else if p.mounted && e == MuteSync(true) then SameElement(p.(frames := p.frames + 1), q)
            else SameElement(p, q)
  {
    hide Effected, Played, Halted;
    if p.mounted && e.Control? { ControlPlays(p, e.active, e.ready, ok); } else { OtherEffectPlays(p, e, ok); }
  }

  /** What one action does to the element, its play events and its outstanding frames */
  predicate Changed(p: Player, action: Action, q: Player) {
    && (q.paused <==> if p.paused then !Starts(p, action) else Stops(p, action))
    && q.frames == p.frames + (if QueuesFrame(p, action) then 1 else 0)
                   - (if action.FrameRuns? && p.frames > 0 then 1 else 0)
    && q.playEvents == (if action == NewSource then 0
                        else p.playEvents + (if p.paused && Starts(p, action) then 1 else 0)
                             - (if action == PlayEventFires && p.playEvents > 0 then 1 else 0))
    && q.isActive == p.isActive
  }

  lemma {:induction false} RenderChanges(p: Player, action: Action)
    requires action.StateChanges? || action.Intersection? || action.LongPress? || action.Unmount?
    ensures Changed(p, action, After(p, action))
  {
    hide Reloaded, Sighted, Pressed, Removed;
    match action
    case StateChanges(isLoading, hasError) => RendersLeave(p, isLoading, hasError, 0.0, false);
    case Intersection(ratio, inView) => RendersLeave(p, false, false, ratio, inView);
    case _ => RendersLeave(p, false, false, 0.0, false);
  }

  lemma {:induction false} FrameChanges(p: Player, ok: bool)
    ensures Changed(p, FrameRuns(ok), Framed(p, ok))
  {
    hide Play;
    if p.frames > 0 { PlayPlays(p.(frames := p.frames - 1), ok); }
  }

  lemma {:induction false} EventChanges(p: Player)
    ensures Changed(p, PlayEventFires, Notified(p))
  {
    hide Pause;
    if p.playEvents > 0 { PlayPlays(p.(playEvents := p.playEvents - 1), true); }
  }

  lemma {:induction false} QueuedEffectChanges(p: Player, e: Effect, rest: seq<Effect>, ok: bool)
    requires p.effects == [e] + rest
    ensures Changed(p, EffectRuns(ok), Effected(p.(effects := rest), e, ok))
  {
    hide Effected;
    EffectPlays(p.(effects := rest), e, ok);
  }

  lemma {:induction false} ElementChanges(p: Player, action: Action)
    requires action.Ended? || action.Click? || action.RemovalPause? || action.BrowserPause? || action.NewSource?
    ensures Changed(p, action, After(p, action))
  {
    hide Play, Pause;
    match action
    case Ended(ok) => PlayPlays(p, ok);
    case Click(_, ok) => PlayPlays(p, ok);
    case RemovalPause => PlayPlays(p.(removal := false), true);
    case _ => PlayPlays(p, true);
  }

  lemma {:induction false} ActionPlays(p: Player, action: Action)
    ensures Changed(p, action, After(p, action))
  {
    hide Reloaded, Sighted, Pressed, Removed, Effected, Framed, Notified, Play, Pause, Changed;
    match action
    case EffectRuns(ok) =>
      if p.effects == [] {
        NothingQueued(p, ok);
      } else {
        assert p.effects == [p.effects[0]] + p.effects[1..];
        QueuedEffectChanges(p, p.effects[0], p.effects[1..], ok);
      }
    case FrameRuns(ok) => FrameChanges(p, ok);
    case PlayEventFires => EventChanges(p);
    case StateChanges(_, _) => RenderChanges(p, action);
    case Intersection(_, _) => RenderChanges(p, action);
    case LongPress => RenderChanges(p, action);
    case Unmount => RenderChanges(p, action);
    case _ => ElementChanges(p, action);
  }

  lemma {:induction false} NothingQueued(p: Player, ok: bool)
    requires p.effects == []
    ensures Changed(p, EffectRuns(ok), p)
  {
  }

  /** An element of the system starts and stops exactly by the actions of its own player that start and stop it; renders
      of the provider, choices, timers, mountings and other players do not touch it. */
  lemma {:induction false} StepPlays(s: System, step: Step, i: nat)
    requires i < |s.players|
    ensures var t := Next(s, step); var mine := step.Acts? && step.i == i;
            && i < |t.players|
            && (t.players[i].paused <==>
                  if s.players[i].paused then !(mine && Starts(s.players[i], step.action))
                  else mine && Stops(s.players[i], step.action))
            && (if mine then Changed(s.players[i], step.action, t.players[i])
                else t.players[i].frames == s.players[i].frames && t.players[i].playEvents == s.players[i].playEvents)
  {
    hide Reloaded, Sighted, Pressed, Removed, Effected, Starts, Stops;
    if step.Acts? && step.i == i {
      ActionPlays(s.players[i], step.action);
      hide After;
    }
  }

  /** Some step of player i in the run stops its element. */
  ghost predicate StoppedIn(s: System, t: seq<Step>, i: nat) {
    exists k :: StoppedAt(s, t, i, k)
  }

  predicate StoppedAt(s: System, t: seq<Step>, i: nat, k: int) {
    && 0 <= k < |t| && t[k].Acts? && t[k].i == i && i < |RunFrom(s, t[..k]).players|
    && Stops(RunFrom(s, t[..k]).players[i], t[k].action)
  }

  /** An element that plays does so until one of these actions of its own player stops it. */
  lemma {:induction false} PlaysUntilStopped(s: System, t: seq<Step>, i: nat)
    requires i < |s.players| && !s.players[i].paused
    ensures i < |RunFrom(s, t).players| && (RunFrom(s, t).players[i].paused ==> StoppedIn(s, t, i))
  {
    hide Next, Stops, Starts;
    if t != [] {
      var g := t[..|t| - 1];
      PlaysUntilStopped(s, g, i);
      StepPlays(RunFrom(s, g), t[|t| - 1], i);
      if RunFrom(s, g).players[i].paused {
        var k :| StoppedAt(s, g, i, k);
        assert g[..k] == t[..k];
        assert StoppedAt(s, t, i, k);
      } else if RunFrom(s, t).players[i].paused {
        assert StoppedAt(s, t, i, |t| - 1);
      }
    }
  }

  /** A video that ends, or is clicked while it is shown as paused, plays again; when the play event arrives, it plays
      on exactly when its player is the active one. A click while it is shown as playing pauses it. */
  lemma {:induction false} EndedAndClicked(p: Player, ok: bool)
    requires p.mounted && p.playEvents == 0 && p.paused
    ensures !RunPlayer(p, [Ended(true), PlayEventFires]).paused <==> p.isActive
    ensures !RunPlayer(p, [Click(false, true), PlayEventFires]).paused <==> p.isActive
    ensures RunPlayer(p, [Ended(true), PlayEventFires]).playEvents == 0
    ensures RunPlayer(p, [Click(false, true), Click(true, ok)]).paused
  {
    hide RunPlayer, Starts, Stops;
    assert [Ended(true), PlayEventFires] == [Ended(true)] + [PlayEventFires];
    assert [Click(false, true), PlayEventFires] == [Click(false, true)] + [PlayEventFires];
    assert [Click(false, true), Click(true, ok)] == [Click(false, true)] + [Click(true, ok)];
    var q := Play(p, true);
    RunPlayerStep(p, Ended(true), [PlayEventFires]);
    RunPlayerStep(p, Click(false, true), [PlayEventFires]);
    RunPlayerStep(p, Click(false, true), [Click(true, ok)]);
    RunOne(q, PlayEventFires);
    RunOne(q, Click(true, ok));
  }

  lemma {:induction false} RunOne(p: Player, action: Action)
    ensures RunPlayer(p, [action]) == After(p, action)
  {
    hide After;
    assert [action] == [action] + [];
    RunPlayerStep(p, action, []);
    RunPlayerEnd(After(p, action));
  }

  /** A long press renders the player, whose cleanup then pauses the element and takes the video out of the element map
      and of the visibility map, although it is still on screen. */
  lemma {:induction false} PressedIsCleanedUp(s: System, i: nat, ok: bool)
    requires i < |s.players| && s.players[i].mounted && s.players[i].effects == []
    ensures var t := Next(Next(s, Acts(i, LongPress)), Acts(i, EffectRuns(ok))); var id := s.players[i].videoId;
            && t.players == s.players[i := s.players[i].(paused := true)]
            && id !in t.ctx.refs && !HasKey(t.ctx.visible, id)
            && (forall x | x != id :: x in t.ctx.refs <==> x in s.ctx.refs)
            && (forall e: Entry | e.id != id :: e in t.ctx.visible <==> e in s.ctx.visible)
  {
    var p := s.players[i];
    assert [] + [Cleanup] == [Cleanup] && [Cleanup][1..] == [];
    assert Next(s, Acts(i, LongPress)).players[i] == p.(effects := [Cleanup]);
    hide Without;
  }

  // ----- What a render does to an element -----

  /** n effects run, and play() is accepted whenever it is called. */
  function Drain(n: nat): seq<Action> {
    seq(n, _ => EffectRuns(true))
  }

  lemma {:induction false} DrainStep(n: nat, more: seq<Action>)
    ensures Drain(n + 1) + more == [EffectRuns(true)] + (Drain(n) + more)
    ensures Drain(0) + more == more
  {
  }

  lemma {:induction false} DrainOne(p: Player, e: Effect, rest: seq<Effect>, n: nat, more: seq<Action>)
    requires p.effects == [e] + rest
    ensures RunPlayer(p, Drain(n + 1) + more) == RunPlayer(Effected(p.(effects := rest), e, true), Drain(n) + more)
  {
    hide RunPlayer, Effected, Drain;
    DrainStep(n, more);
    EffectStep(p, e, rest, Drain(n) + more);
  }

  lemma {:induction false} LastFrame(p: Player)
    ensures RunPlayer(p, Drain(0) + [FrameRuns(true)]) == Framed(p, true)
  {
    hide Framed, Drain;
    DrainStep(0, [FrameRuns(true)]);
    RunPlayerStep(p, FrameRuns(true), []);
    assert [FrameRuns(true)] + [] == [FrameRuns(true)];
    RunPlayerEnd(Framed(p, true));
  }

  /** Everything that a render has queued runs, and then the frame of the mute effect, if any. */
  function Settle(p: Player): Player {
    RunPlayer(p, Drain(|p.effects|) + [FrameRuns(true)])
  }

  lemma {:induction false} MuteSettles(p: Player, shouldPlay: bool)
    requires p.mounted && p.frames == 0 && p.effects == [MuteSync(shouldPlay)]
    ensures var r := RunPlayer(p, Drain(1) + [FrameRuns(true)]);
            && r.effects == [] && r.frames == 0 && r.mounted && r.isActive == p.isActive
            && (r.paused <==> p.paused && !shouldPlay)
  {
    hide Drain, RunPlayer;
    assert p.effects == [p.effects[0]] + [];
    DrainOne(p, p.effects[0], [], 0, [FrameRuns(true)]);
    LastFrame(Effected(p.(effects := []), p.effects[0], true));
  }

  lemma {:induction false} PlaybackSettles(p: Player)
    requires p.mounted && p.frames == 0 && p.effects == PlaybackEffects(p.(effects := []))
    ensures var r := RunPlayer(p, Drain(2) + [FrameRuns(true)]);
            && r.effects == [] && r.frames == 0 && r.mounted && r.isActive == p.isActive
            && (r.paused <==> !p.isActive || (p.paused && !Ready(p)))
  {
    hide Drain, RunPlayer;
    assert p.effects == [p.effects[0]] + [p.effects[1]];
    DrainOne(p, p.effects[0], [p.effects[1]], 1, [FrameRuns(true)]);
    MuteSettles(Effected(p.(effects := [p.effects[1]]), p.effects[0], true), p.isActive && Ready(p));
  }

  /** The cleanup and the visibility report leave the element paused. */
  lemma {:induction false} CleanupSettles(p: Player, report: Option<real>, rest: seq<Effect>, n: nat)
    requires p.mounted && p.effects == [Cleanup] + ([Visibility(report)] + rest)
    ensures RunPlayer(p, Drain(n + 2) + [FrameRuns(true)]) ==
            RunPlayer(p.(paused := true, effects := rest), Drain(n) + [FrameRuns(true)])
  {
    hide Drain, RunPlayer;
    DrainOne(p, Cleanup, [Visibility(report)] + rest, n + 1, [FrameRuns(true)]);
    var q := p.(paused := true, effects := [Visibility(report)] + rest);
    DrainOne(q, Visibility(report), rest, n, [FrameRuns(true)]);
  }

  lemma {:induction false} RerenderedQueue(p: Player, active: Option<Id>, muteChanged: bool)
    requires p.mounted && p.effects == []
    ensures var q := p.(isActive := active == Some(p.videoId));
            var rest := if q.isActive != p.isActive then PlaybackEffects(q)
                        else if muteChanged then [MuteSync(q.isActive && Ready(q))] else [];
            Rerendered(p, active, muteChanged) == q.(effects := [Cleanup] + ([Visibility(Report(q))] + rest))
  {
    hide Report, PlaybackEffects;
    var q := p.(isActive := active == Some(p.videoId));
    assert forall es: seq<Effect> :: [] + es == es;
    var report := Visibility(Report(q));
    assert forall es: seq<Effect> :: [Cleanup, report] + es == [Cleanup] + ([report] + es);
  }

  /** A render of the provider leaves an element playing exactly when its video is the active one and ready, and has
      just become active or the mute setting has changed: a render that changes neither pauses it. */
  lemma {:induction false} RenderSettles(p: Player, active: Option<Id>, muteChanged: bool)
    requires p.mounted && p.effects == [] && p.frames == 0
    ensures var r := Settle(Rerendered(p, active, muteChanged));
            && r.effects == [] && r.frames == 0 && r.mounted && (r.isActive <==> active == Some(p.videoId))
            && (!r.paused <==> r.isActive && Ready(p) && (!p.isActive || muteChanged))
  {
    hide RunPlayer, Drain, Rerendered, Report, PlaybackEffects, Effected;
    RerenderedQueue(p, active, muteChanged);
    var q := p.(isActive := active == Some(p.videoId));
    var u := q.(paused := true);
    if q.isActive != p.isActive {
      PlaybackPair(q);
      CleanupSettles(Rerendered(p, active, muteChanged), Report(q), PlaybackEffects(q), 2);
      PlaybackSettles(u.(effects := PlaybackEffects(q)));
    } else if muteChanged {
      CleanupSettles(Rerendered(p, active, muteChanged), Report(q), [MuteSync(q.isActive && Ready(q))], 1);
      MuteSettles(u.(effects := [MuteSync(q.isActive && Ready(q))]), q.isActive && Ready(q));
    } else {
      CleanupSettles(Rerendered(p, active, muteChanged), Report(q), [], 0);
      LastFrame(u.(effects := []));
    }
  }

  lemma {:induction false} PlaybackPair(q: Player)
    ensures |PlaybackEffects(q)| == 2
    ensures forall b, es :: PlaybackEffects(q.(paused := b, effects := es)) == PlaybackEffects(q)
  {
  }

  /** A change of its own loading or error state makes an active player play when it is ready, lets its element be when
      it is not, and pauses it when the player is not the active one. */
  lemma {:induction false} ReloadSettles(p: Player, isLoading: bool, hasError: bool)
    requires p.mounted && p.effects == [] && p.frames == 0
    requires p.isLoading != isLoading || p.hasError != hasError
    ensures var r := Settle(Reloaded(p, isLoading, hasError));
            && r.effects == [] && r.frames == 0 && r.mounted && r.isActive == p.isActive
            && (!r.paused <==> p.isActive && (!p.paused || (!isLoading && !hasError)))
  {
    hide RunPlayer, Drain, Report, PlaybackEffects, Effected;
    var q := p.(isLoading := isLoading, hasError := hasError);
    PlaybackPair(q);
    if p.hasError != hasError {
      var u := q.(effects := [Visibility(Report(q))] + PlaybackEffects(q));
      assert [] + u.effects == u.effects;
      assert Reloaded(p, isLoading, hasError) == u;
      DrainOne(u, Visibility(Report(q)), PlaybackEffects(q), 2, [FrameRuns(true)]);
      EffectOfReport(u.(effects := PlaybackEffects(q)), Report(q));
    } else {
      assert [] + ([] + PlaybackEffects(q)) == PlaybackEffects(q);
      assert Reloaded(p, isLoading, hasError) == q.(effects := PlaybackEffects(q));
    }
    PlaybackSettles(q.(effects := PlaybackEffects(q)));
  }

  lemma {:induction false} EffectOfReport(p: Player, report: Option<real>)
    ensures Effected(p, Visibility(report), true) == p
  {
  }
}
