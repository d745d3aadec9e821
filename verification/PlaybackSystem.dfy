/**
  Many video players under one coordinator, after frontend-web/src/components/VideoPlayer.tsx: renders queue effects,
  effects and callbacks call play() and pause() on the elements, and the elements report play events later.
  Any of these steps may come at any time.

  The elements behave as the HTML standard says (section 4.8.11 Media elements): play() on a paused element
  unpauses it at once and queues a play event, or is refused; an element taken out of the document is paused by the
  browser some time later; loading a new source pauses the element and drops its queued events.
 */
module PlaybackSystem {
  import opened Options
  import opened PlaybackContext

  // ----- One player -----

  /** An effect that a render has queued, with the values it captured */
  datatype Effect =
    | Cleanup
    | Visibility(report: Option<real>)
    | Control(active: bool, ready: bool)
    | MuteSync(shouldPlay: bool)

  /** `seen` is the last intersection ratio, `removal` says that the browser's pause of the removed element is due,
      `frames` counts the animation frames that will check whether playback has to be resumed. */
  datatype Player = Player(videoId: Id, mounted: bool, isActive: bool, isLoading: bool, hasError: bool,
                           seen: Option<real>, inView: bool, paused: bool, playEvents: nat, frames: nat,
                           removal: bool, effects: seq<Effect>)

  function Play(p: Player, ok: bool): Player {
    if ok && p.paused then p.(paused := false, playEvents := p.playEvents + 1) else p
  }

  function Pause(p: Player): Player {
    p.(paused := true)
  }

  predicate Ready(p: Player) {
    !p.isLoading && !p.hasError
  }

  /** What the visibility effect will report, if anything */
  function Report(p: Player): Option<real> {
    if p.seen.Some? && !p.hasError then p.seen
    else if p.seen.None? || !p.inView then Some(0.0)
    else None
  }

  function Queue(p: Player, es: seq<Effect>): Player {
    p.(effects := p.effects + es)
  }

  function PlaybackEffects(p: Player): seq<Effect> {
    [Control(p.isActive, Ready(p)), MuteSync(p.isActive && Ready(p))]
  }

  function Created(id: Id, active: Option<Id>): Player {
    var p := Player(id, true, active == Some(id), true, false, None, false, true, 0, 0, false, []);
    Queue(p, [Visibility(Report(p))] + PlaybackEffects(p))
  }

  /** Rendered because the provider was: unregisterVideo and updateVideoVisibility are new functions, so the cleanup
      runs and the visibility is reported again; the other effects depend on what changed. */
  function Rerendered(p: Player, active: Option<Id>, muteChanged: bool): Player {
    if !p.mounted then p
    else
      var q := p.(isActive := active == Some(p.videoId));
      Queue(q, [Cleanup, Visibility(Report(q))] +
               (if q.isActive != p.isActive then PlaybackEffects(q)
                else if muteChanged then [MuteSync(q.isActive && Ready(q))]
                else []))
  }

  /** Rendered because its own loading or error state changed */
  function Reloaded(p: Player, isLoading: bool, hasError: bool): Player {
    if !p.mounted || (p.isLoading == isLoading && p.hasError == hasError) then p
    else
      var q := p.(isLoading := isLoading, hasError := hasError);
      Queue(q, (if p.hasError != hasError then [Visibility(Report(q))] else []) + PlaybackEffects(q))
  }

  /** Rendered because the intersection observer reported */
  function Sighted(p: Player, ratio: real, inView: bool): Player {
    if !p.mounted then p
    else
      var q := p.(seen := Some(ratio), inView := inView);
      Queue(q, [Visibility(Report(q))])
  }

  /** Rendered because a long-press timer was started or cleared, on which the cleanup depends */
  function Pressed(p: Player): Player {
    if p.mounted then Queue(p, [Cleanup]) else p
  }

  /** React detaches the ref and takes the element out of the document; the cleanup runs later, when the ref is null. */
  function Removed(p: Player): Player {
    if p.mounted then Queue(p.(mounted := false, removal := true), [Cleanup]) else p
  }

  /** The element's part of an effect. A null ref makes each of them skip the element. */
  function Effected(p: Player, e: Effect, ok: bool): Player {
    if !p.mounted then p
    else
      match e
      case Cleanup => Pause(p)
      case Visibility(_) => p
      case Control(active, ready) => if active && ready then Play(p, ok) else if !active then Pause(p) else p
      case MuteSync(shouldPlay) => if shouldPlay then p.(frames := p.frames + 1) else p
  }

  /** The callback keeps the element it was created with, mounted or not. */
  function Framed(p: Player, ok: bool): Player {
    if p.frames == 0 then p else Play(p.(frames := p.frames - 1), ok)
  }

  /** handlePlay; React no longer dispatches to an unmounted component. */
  function Notified(p: Player): Player {
    if p.playEvents == 0 then p
    else
      var q := p.(playEvents := p.playEvents - 1);
      if q.mounted && !q.isActive then Pause(q) else q
  }

  // ----- The system -----

  datatype System = System(ctx: Context, players: seq<Player>)

  const START := System(INITIAL, [])

  /** What can happen to one player */
  datatype Action =
    | Unmount
    | StateChanges(isLoading: bool, hasError: bool)
    | Intersection(ratio: real, inView: bool)
    | LongPress
    | EffectRuns(ok: bool)
    | FrameRuns(ok: bool)
    | PlayEventFires
    | Ended(ok: bool)
    | Click(wasPlaying: bool, ok: bool)
    | RemovalPause
    | BrowserPause
    | NewSource

  datatype Step =
    | Mount(id: Id)
    | Choose(choice: Option<Id>)
    | TimerFires(timer: nat)
    | ProviderRenders(muteChanged: bool)
    | Acts(i: nat, action: Action)

  /** The provider's part of an effect */
  function Reported(c: Context, id: Id, e: Effect): Context {
    match e
    case Cleanup => Unregister(UpdateVisibility(c, id, 0.0), id)
    case Visibility(Some(ratio)) => UpdateVisibility(c, id, ratio)
    case _ => c
  }

  function After(p: Player, action: Action): Player {
    match action
    case Unmount => Removed(p)
    case StateChanges(isLoading, hasError) => Reloaded(p, isLoading, hasError)
    case Intersection(ratio, inView) => Sighted(p, ratio, inView)
    case LongPress => Pressed(p)
    case EffectRuns(ok) => if p.effects == [] then p else Effected(p.(effects := p.effects[1..]), p.effects[0], ok)
    case FrameRuns(ok) => Framed(p, ok)
    case PlayEventFires => Notified(p)
    case Ended(ok) => if p.mounted then Play(p, ok) else p
    case Click(wasPlaying, ok) => if !p.mounted then p else if wasPlaying then Pause(p) else Play(p, ok)
    case RemovalPause => if p.removal then Pause(p.(removal := false)) else p
    case BrowserPause => Pause(p)
    case NewSource => p.(paused := true, playEvents := 0)
  }

  /** Detaching the ref unregisters the video at once. */
  function ContextAfterAction(c: Context, p: Player, action: Action): Context {
    match action
    case Unmount => if p.mounted then Unregister(c, p.videoId) else c
    case EffectRuns(_) => if p.effects == [] then c else Reported(c, p.videoId, p.effects[0])
    case _ => c
  }

  function Next(s: System, step: Step): System {
    match step
    case Mount(id) => System(Register(s.ctx, id, |s.players|), s.players + [Created(id, s.ctx.active)])
    case Choose(choice) => s.(ctx := SetActive(s.ctx, choice))
    case TimerFires(timer) => s.(ctx := Fire(s.ctx, timer))
    case ProviderRenders(muteChanged) =>
      System(Render(s.ctx), seq(|s.players|, k requires 0 <= k < |s.players| =>
                                  Rerendered(s.players[k], s.ctx.next, muteChanged)))
    case Acts(i, action) =>
      if i >= |s.players| then s
      else System(ContextAfterAction(s.ctx, s.players[i], action), s.players[i := After(s.players[i], action)])
  }

  function RunFrom(s: System, h: seq<Step>): System {
    if h == [] then s else Next(RunFrom(s, h[..|h| - 1]), h[|h| - 1])
  }

  function RunSystem(h: seq<Step>): System {
    RunFrom(START, h)
  }

  lemma {:induction false} RunFromStep(s: System, h: seq<Step>, step: Step)
    ensures RunFrom(s, h + [step]) == Next(RunFrom(s, h), step)
  {
    assert (h + [step])[..|h|] == h;
  }

  // ----- At most one video plays -----

  predicate Pausing(e: Effect) {
    e.Cleanup? || (e.Control? && !e.active)
  }

  predicate PauseQueued(es: seq<Effect>) {
    exists k :: 0 <= k < |es| && Pausing(es[k])
  }

  /** An element that should not play but is not paused has a play event or a pausing effect ahead of it. */
  predicate Guarded(p: Player) {
    p.mounted && !p.paused && !p.isActive ==> p.playEvents > 0 || PauseQueued(p.effects)
  }

  predicate InStep(p: Player, active: Option<Id>) {
    p.mounted ==> (p.isActive <==> active == Some(p.videoId))
  }

  ghost predicate Exclusive(s: System) {
    forall p | p in s.players :: Guarded(p) && InStep(p, s.ctx.active)
  }

  lemma {:induction false} PruneKeepsActive(c: Context)
    ensures Prune(c).active == c.active && Prune(c).next == c.next
    decreases |c.order|
  {
    if |c.order| > MAX_VIDEO_REFS {
      var oldest := c.order[0];
      var shifted := c.(order := c.order[1..]);
      PruneKeepsActive(if Spared(c, oldest) then shifted
                       else shifted.(refs := c.refs - {oldest}, visible := DeleteEntry(c.visible, oldest)));
    }
  }

  lemma {:induction false} ActiveAfter(s: System, step: Step)
    ensures Next(s, step).ctx.active == if step.ProviderRenders? then s.ctx.next else s.ctx.active
  {
    if step.Mount? {
      PruneKeepsActive(s.ctx.(order := Without(s.ctx.order, step.id) + [step.id],
                              refs := s.ctx.refs[step.id := |s.players|]));
    }
  }

  lemma {:induction false} QueueKeeps(es: seq<Effect>, more: seq<Effect>)
    ensures PauseQueued(es + more) <==> PauseQueued(es) || PauseQueued(more)
  {
    forall k | 0 <= k < |es| ensures (es + more)[k] == es[k] {}
    forall k | 0 <= k < |more| ensures (es + more)[|es| + k] == more[k] {}
  }

  lemma {:induction false} RerenderedGuarded(p: Player, active: Option<Id>, muteChanged: bool)
    requires Guarded(p)
    ensures Guarded(Rerendered(p, active, muteChanged)) && InStep(Rerendered(p, active, muteChanged), active)
  {
    if p.mounted {
      var q := Rerendered(p, active, muteChanged);
      assert q.effects[|p.effects|] == Cleanup;
    }
  }

  lemma {:induction false} EffectGuarded(p: Player, ok: bool)
    requires Guarded(p) && p.effects != []
    ensures Guarded(Effected(p.(effects := p.effects[1..]), p.effects[0], ok))
  {
    assert p.effects == [p.effects[0]] + p.effects[1..];
    QueueKeeps([p.effects[0]], p.effects[1..]);
  }

  lemma {:induction false} QueueGuarded(p: Player, more: seq<Effect>)
    requires Guarded(p)
    ensures Guarded(Queue(p, more))
  {
    QueueKeeps(p.effects, more);
  }

  /** The actions that render the player only queue effects. */
  lemma {:induction false} RenderGuarded(p: Player, action: Action)
    requires Guarded(p) && (action.StateChanges? || action.Intersection? || action.LongPress?)
    ensures Guarded(After(p, action))
  {
    hide PauseQueued, Report, PlaybackEffects;
    match action
    case StateChanges(isLoading, hasError) =>
      var q := p.(isLoading := isLoading, hasError := hasError);
      QueueGuarded(q, (if p.hasError != hasError then [Visibility(Report(q))] else []) + PlaybackEffects(q));
    case Intersection(ratio, inView) =>
      var q := p.(seen := Some(ratio), inView := inView);
      QueueGuarded(q, [Visibility(Report(q))]);
    case LongPress => QueueGuarded(p, [Cleanup]);
  }

  lemma {:induction false} AfterGuarded(p: Player, action: Action)
    requires Guarded(p)
    ensures Guarded(After(p, action))
  {
    if action.StateChanges? || action.Intersection? || action.LongPress? {
      RenderGuarded(p, action);
    } else if action.EffectRuns? {
      if p.effects != [] { EffectGuarded(p, action.ok); }
    }
  }

  lemma {:induction false} AfterInStep(p: Player, action: Action, active: Option<Id>)
    requires InStep(p, active)
    ensures InStep(After(p, action), active)
  {
    hide PauseQueued, Report, PlaybackEffects;
  }

  lemma {:induction false} StepExclusive(s: System, step: Step)
    requires Exclusive(s)
    ensures Exclusive(Next(s, step))
  {
    ActiveAfter(s, step);
    forall p | p in Next(s, step).players ensures Guarded(p) && InStep(p, Next(s, step).ctx.active) {
      match step
      case ProviderRenders(muteChanged) =>
        var k :| 0 <= k < |s.players| && p == Rerendered(s.players[k], s.ctx.next, muteChanged);
        RerenderedGuarded(s.players[k], s.ctx.next, muteChanged);
      case Acts(i, action) =>
        if p !in s.players {
          AfterGuarded(s.players[i], action);
          AfterInStep(s.players[i], action, s.ctx.active);
        }
      case _ =>
    }
  }

  /** In every interleaving, an unpaused element whose id is not the active one has a play event coming
      or a pausing effect queued. */
  lemma {:induction false} AlwaysExclusive(h: seq<Step>)
    ensures Exclusive(RunSystem(h))
  {
    if h != [] {
      AlwaysExclusive(h[..|h| - 1]);
      StepExclusive(RunSystem(h[..|h| - 1]), h[|h| - 1]);
    }
  }

  /** Nothing is pending for the mounted players. */
  ghost predicate Quiet(s: System) {
    forall p | p in s.players && p.mounted :: p.effects == [] && p.playEvents == 0
  }

  /** Whenever nothing is pending, every mounted element that plays shows the active video. */
  lemma {:induction false} QuietMeansActive(h: seq<Step>, p: Player)
    requires Quiet(RunSystem(h)) && p in RunSystem(h).players && p.mounted && !p.paused
    ensures RunSystem(h).ctx.active == Some(p.videoId)
  {
    AlwaysExclusive(h);
  }
}
