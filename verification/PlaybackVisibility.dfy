/**
  Which videos the visibility map holds in a run of the playback system. An entry outlives its player only while some
  effect of the player is left to run: a report that is still queued may put it back, but a cleanup always comes last.
 */
module PlaybackVisibility {
  import opened Options
  import opened PlaybackContext
  import opened PlaybackSelection
  import opened PlaybackSystem
  import opened PlaybackRuns
  import opened PlaybackRegistry

  // ----- What an unmounted player still has to do -----

  /** The last thing that an unmounted player does is its cleanup. */
  predicate Retiring(p: Player) {
    !p.mounted ==> p.effects == [] || p.effects[|p.effects| - 1] == Cleanup
  }

  lemma {:induction false} TailRetires(es: seq<Effect>)
    requires es != [] && es[|es| - 1] == Cleanup
    ensures es[1..] == [] || es[1..][|es[1..]| - 1] == Cleanup
    ensures es[0] != Cleanup ==> es[1..] != []
  {
  }

  lemma {:induction false} UnmountedIdle(p: Player, isLoading: bool, hasError: bool, ratio: real, inView: bool)
    requires !p.mounted
    ensures Reloaded(p, isLoading, hasError) == p && Sighted(p, ratio, inView) == p
    ensures Pressed(p) == p && Removed(p) == p
  {
  }

  lemma {:induction false} UnmountedEffect(p: Player, e: Effect, ok: bool)
    requires !p.mounted
    ensures Effected(p, e, ok) == p
  {
  }

  lemma {:induction false} PlayingQueuesNothing(p: Player, ok: bool)
    ensures Play(p, ok).effects == p.effects && Pause(p).effects == p.effects
    ensures Framed(p, ok).effects == p.effects && Notified(p).effects == p.effects
  {
  }

  /** An unmounted player renders no more, so only the effects that are queued are left to it. */
  lemma {:induction false} AfterUnmounting(p: Player, action: Action)
    requires !p.mounted
    ensures After(p, action).effects == if action.EffectRuns? && p.effects != [] then p.effects[1..] else p.effects
  {
    hide Reloaded, Sighted, Pressed, Removed, Effected, Framed, Notified, Play, Pause;
    match action
    case StateChanges(isLoading, hasError) => UnmountedIdle(p, isLoading, hasError, 0.0, false);
    case Intersection(ratio, inView) => UnmountedIdle(p, false, false, ratio, inView);
    case LongPress => UnmountedIdle(p, false, false, 0.0, false);
    case Unmount => UnmountedIdle(p, false, false, 0.0, false);
    case EffectRuns(ok) => if p.effects != [] { UnmountedEffect(p.(effects := p.effects[1..]), p.effects[0], ok); }
    case FrameRuns(ok) => PlayingQueuesNothing(p, ok);
    case PlayEventFires => PlayingQueuesNothing(p, true);
    case RemovalPause => PlayingQueuesNothing(p.(removal := false), true);
    case BrowserPause => PlayingQueuesNothing(p, true);
    case _ =>
  }

  lemma {:induction false} AfterRetiring(p: Player, action: Action)
    requires Retiring(p)
    ensures Retiring(After(p, action))
  {
    AfterKeeps(p, action);
    if !p.mounted {
      AfterUnmounting(p, action);
      if p.effects != [] { TailRetires(p.effects); }
    } else if action == Unmount {
      assert After(p, action).effects == p.effects + [Cleanup];
    }
    hide After;
  }

  ghost predicate AllRetiring(s: System) {
    forall p | p in s.players :: Retiring(p)
  }

  lemma {:induction false} RerenderedRetiring(p: Player, active: Option<Id>, muteChanged: bool)
    requires Retiring(p)
    ensures Retiring(Rerendered(p, active, muteChanged))
  {
    hide Report, PlaybackEffects;
  }

  lemma {:induction false} StepRetiring(s: System, step: Step)
    requires AllRetiring(s)
    ensures AllRetiring(Next(s, step))
  {
    hide Retiring;
    forall p | p in Next(s, step).players ensures Retiring(p) {
      match step
      case Mount(id) => if p !in s.players { CreatedRetiring(id, s.ctx.active); }
      case ProviderRenders(muteChanged) =>
        var k :| 0 <= k < |s.players| && p == Rerendered(s.players[k], s.ctx.next, muteChanged);
        RerenderedRetiring(s.players[k], s.ctx.next, muteChanged);
      case Acts(i, action) => if p !in s.players { AfterRetiring(s.players[i], action); }
      case _ =>
    }
  }

  lemma {:induction false} CreatedRetiring(id: Id, active: Option<Id>)
    ensures Retiring(Created(id, active))
  {
  }

  // ----- Every entry has its player -----

  /** Player i is of this video, and it is mounted or has effects left. */
  predicate Lingers(s: System, i: int, id: Id) {
    0 <= i < |s.players| && s.players[i].videoId == id && (s.players[i].mounted || s.players[i].effects != [])
  }

  ghost predicate Accompanied(s: System) {
    forall id | HasKey(s.ctx.visible, id) :: exists i :: Lingers(s, i, id)
  }

  lemma {:induction false} SetKeys(es: seq<Entry>, x: Id, ratio: real, id: Id)
    ensures HasKey(SetEntry(es, x, ratio), id) ==> id == x || HasKey(es, id)
  {
    hide SetEntry;
    var r := SetEntry(es, x, ratio);
    if HasKey(r, id) {
      var k :| 0 <= k < |r| && r[k].id == id;
      assert r[k] in r;
      if r[k] in es { Keyed(es, r[k]); }
    }
  }

  lemma {:induction false} Keyed(es: seq<Entry>, e: Entry)
    requires e in es
    ensures HasKey(es, e.id)
  {
    var k :| 0 <= k < |es| && es[k] == e;
    assert es[k].id == e.id;
  }

  lemma {:induction false} DeleteKeys(es: seq<Entry>, x: Id, id: Id)
    ensures HasKey(DeleteEntry(es, x), id) ==> id != x && HasKey(es, id)
  {
    hide DeleteEntry;
    var r := DeleteEntry(es, x);
    if HasKey(r, id) {
      var k :| 0 <= k < |r| && r[k].id == id;
      assert r[k] in r;
      Keyed(es, r[k]);
    }
  }

  lemma {:induction false} PruneKeys(c: Context, id: Id)
    ensures HasKey(Prune(c).visible, id) ==> HasKey(c.visible, id)
    decreases |c.order|
  {
    hide HasKey, DeleteEntry;
    if |c.order| > MAX_VIDEO_REFS {
      var oldest := c.order[0];
      var shifted := c.(order := c.order[1..]);
      DeleteKeys(c.visible, oldest, id);
      PruneKeys(if Spared(c, oldest) then shifted
                else shifted.(refs := c.refs - {oldest}, visible := DeleteEntry(c.visible, oldest)), id);
    }
  }

  lemma {:induction false} RegisterKeys(c: Context, x: Id, element: Element, id: Id)
    ensures HasKey(Register(c, x, element).visible, id) ==> HasKey(c.visible, id)
  {
    hide HasKey, Prune, Without;
    PruneKeys(c.(order := Without(c.order, x) + [x], refs := c.refs[x := element]), id);
  }

  /** Which keys the provider's part of an effect can leave */
  lemma {:induction false} ReportedKeys(c: Context, x: Id, e: Effect, id: Id)
    ensures HasKey(Reported(c, x, e).visible, id) ==>
              (HasKey(c.visible, id) && !(e == Cleanup && id == x)) || (id == x && e.Visibility?)
  {
    hide HasKey, DeleteEntry, SetEntry;
    match e
    case Cleanup => DeleteKeys(UpdateVisibility(c, x, 0.0).visible, x, id); DeleteKeys(c.visible, x, id);
    case Visibility(Some(ratio)) => SetKeys(c.visible, x, ratio, id); DeleteKeys(c.visible, x, id);
    case _ =>
  }

  /** Which keys an action of a player can leave */
  lemma {:induction false} ActionKeys(c: Context, p: Player, action: Action, id: Id)
    requires HasKey(ContextAfterAction(c, p, action).visible, id)
    ensures HasKey(c.visible, id)
            || (id == p.videoId && action.EffectRuns? && p.effects != [] && p.effects[0].Visibility?)
    ensures id == p.videoId && action.EffectRuns? && p.effects != [] ==> p.effects[0] != Cleanup
  {
    hide HasKey, Reported;
    match action
    case Unmount => if p.mounted { UnregisterKeys(c, p.videoId, id); }
    case EffectRuns(_) => if p.effects != [] { ReportedKeys(c, p.videoId, p.effects[0], id); }
    case _ =>
  }

  lemma {:induction false} UnregisterKeys(c: Context, x: Id, id: Id)
    ensures HasKey(Unregister(c, x).visible, id) ==> HasKey(c.visible, id) && id != x
  {
    hide HasKey, DeleteEntry;
    DeleteKeys(c.visible, x, id);
  }

  lemma {:induction false} StillLingers(s: System, step: Step, i: int, id: Id)
    requires Lingers(s, i, id) && !(step.Acts? && step.i == i)
    ensures Lingers(Next(s, step), i, id)
  {
    hide Report, PlaybackEffects, Register, ContextAfterAction;
  }

  /** A player whose entry survives one of its own steps still lingers. */
  lemma {:induction false} ActorLingers(s: System, i: nat, action: Action)
    requires i < |s.players| && Lingers(s, i, s.players[i].videoId) && Retiring(s.players[i])
    requires action.EffectRuns? && s.players[i].effects != [] ==> s.players[i].effects[0] != Cleanup
    ensures Lingers(Next(s, Acts(i, action)), i, s.players[i].videoId)
  {
    hide After;
    var p := s.players[i];
    AfterKeeps(p, action);
    if !p.mounted {
      AfterUnmounting(p, action);
      TailRetires(p.effects);
    } else if action == Unmount {
      UnmountQueues(p);
    }
  }

  lemma {:induction false} UnmountQueues(p: Player)
    requires p.mounted
    ensures After(p, Unmount).effects == p.effects + [Cleanup]
  {
  }

  lemma {:induction false} ActsAccompanied(s: System, i: nat, action: Action, id: Id)
    requires Accompanied(s) && AllRetiring(s) && i < |s.players|
    requires HasKey(Next(s, Acts(i, action)).ctx.visible, id)
    ensures exists j :: Lingers(Next(s, Acts(i, action)), j, id)
  {
    hide HasKey, After, ContextAfterAction, Retiring;
    var p := s.players[i];
    assert p in s.players;
    ActionKeys(s.ctx, p, action, id);
    if HasKey(s.ctx.visible, id) {
      var j :| Lingers(s, j, id);
      if j == i { ActorLingers(s, i, action); } else { StillLingers(s, Acts(i, action), j, id); }
    } else {
      ActorLingers(s, i, action);
    }
  }

  lemma {:induction false} StepAccompanied(s: System, step: Step)
    requires Accompanied(s) && AllRetiring(s)
    ensures Accompanied(Next(s, step))
  {
    hide HasKey, Lingers, Register, After, ContextAfterAction, AllRetiring;
    forall id | HasKey(Next(s, step).ctx.visible, id) ensures exists i :: Lingers(Next(s, step), i, id) {
      if step.Acts? && step.i < |s.players| {
        ActsAccompanied(s, step.i, step.action, id);
      } else {
        if step.Mount? { RegisterKeys(s.ctx, step.id, |s.players|, id); }
        var i :| Lingers(s, i, id);
        OthersLinger(s, step, i, id);
      }
    }
  }

  lemma {:induction false} OthersLinger(s: System, step: Step, i: int, id: Id)
    requires Lingers(s, i, id) && !(step.Acts? && step.i < |s.players|)
    ensures Lingers(Next(s, step), i, id)
  {
    hide Next;
    if step.Acts? { NoSuchPlayer(s, step); } else { StillLingers(s, step, i, id); }
  }

  lemma {:induction false} NoSuchPlayer(s: System, step: Step)
    requires step.Acts? && step.i >= |s.players|
    ensures Next(s, step) == s
  {
  }

  lemma {:induction false} StartAccompanied()
    ensures Accompanied(RunSystem([])) && AllRetiring(RunSystem([]))
  {
    assert RunSystem([]) == START;
  }

  /** In every run: an unmounted player has no effects left, or a cleanup is the last of them; and each entry of the
      visibility map is that of a player which is mounted or has effects left. */
  lemma {:induction false} AlwaysAccompanied(h: seq<Step>)
    ensures AllRetiring(RunSystem(h)) && Accompanied(RunSystem(h))
  {
    hide RunFrom, Next, AllRetiring, Accompanied;
    if h == [] {
      StartAccompanied();
    } else {
      var g, step := h[..|h| - 1], h[|h| - 1];
      AlwaysAccompanied(g);
      RunFromStep(START, g, step);
      assert g + [step] == h;
      StepRetiring(RunSystem(g), step);
      StepAccompanied(RunSystem(g), step);
    }
  }

  /** Every player of the video has been unmounted, and its effects have run. */
  ghost predicate Gone(s: System, id: Id) {
    forall p | p in s.players && p.videoId == id :: !p.mounted && p.effects == []
  }

  lemma {:induction false} GoneIsAbsent(h: seq<Step>, id: Id)
    requires Gone(RunSystem(h), id)
    ensures !HasKey(RunSystem(h).ctx.visible, id)
  {
    hide RunSystem;
    AlwaysAccompanied(h);
    var s := RunSystem(h);
    forall i ensures !Lingers(s, i, id) {
      if 0 <= i < |s.players| { assert s.players[i] in s.players; }
    }
  }

  /** When every player of a video is gone, the timer fires and the provider renders, then that video is not the active
      one, except when the timer agreed with the video on screen and this one was waiting to be rendered. */
  lemma {:induction false} UnmountedIsNotChosen(h: seq<Step>, timer: nat, muteChanged: bool, id: Id)
    requires Gone(RunSystem(h), id) && timer in RunSystem(h).ctx.timers
    ensures var c := RunSystem(h).ctx;
            RunSystem(h + [TimerFires(timer)] + [ProviderRenders(muteChanged)]).ctx.active == Some(id)
            <==> MostVisible(c) == c.active && c.next == Some(id)
  {
    hide RunFrom, Run, AllOps, Gone, MostVisible, HasKey;
    GoneIsAbsent(h, id);
    ContextRuns(h);
    RunFromStep(START, h, TimerFires(timer));
    RunFromStep(START, h + [TimerFires(timer)], ProviderRenders(muteChanged));
    RunStep(AllOps(h), DoFire(timer));
    RunStep(AllOps(h) + [DoFire(timer)], DoRender);
    AbsentIsNotChosen(AllOps(h), timer, id);
  }
}
