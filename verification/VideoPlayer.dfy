/**
  The player component of frontend-web/src/components/VideoPlayer.tsx in its own, imperative form. Each render,
  effect and handler is tied to the step of PlaybackSystem that it performs on one player, and keeps the guard
  that makes at most one video play.
 */
module VideoPlayer {
  import opened Options
  import opened PlaybackContext
  import opened PlaybackSystem

  /** Only the effect that controls playback calls play() at once. */
  lemma {:induction false} RefusalMatters(p: Player, e: Effect, ok: bool)
    ensures !e.Control? ==> Effected(p, e, ok) == Effected(p, e, true)
    ensures e.Visibility? ==> Effected(p, e, ok) == p
  {
  }

  lemma {:induction false} FlushStep(p: Player, ok: bool)
    ensures After(p, EffectRuns(ok)) ==
            if p.effects == [] then p else Effected(p.(effects := p.effects[1..]), p.effects[0], ok)
  {
    hide Effected;
  }

  /** The effects that a render caused by the provider queues for q, given whether q was active before */
  function Consequences(q: Player, before: bool, muteChanged: bool): seq<Effect> {
    [Cleanup, Visibility(Report(q))] +
    (if q.isActive != before then PlaybackEffects(q)
     else if muteChanged then [MuteSync(q.isActive && Ready(q))]
     else [])
  }

  lemma {:induction false} RenderStep(p: Player, active: Option<Id>, muteChanged: bool)
    requires p.mounted && Guarded(p)
    ensures var q := p.(isActive := active == Some(p.videoId));
            && Rerendered(p, active, muteChanged) == Queue(q, Consequences(q, p.isActive, muteChanged))
            && Guarded(Queue(q, Consequences(q, p.isActive, muteChanged)))
  {
    hide Report, PlaybackEffects, Guarded;
    RerenderedGuarded(p, active, muteChanged);
  }

  /** `attached` says that videoRef holds the element. Of the element: whether it is paused, its time, its muted
      state, the play events it has not delivered yet, and the pause that follows its removal. The mute effect
      requests two animation frames, one inside the other. */
  class VideoPlayer {
    const videoId: Id
    var attached: bool
    var isActive: bool
    var isLoading: bool
    var hasError: bool
    var isPlaying: bool
    var seen: Option<real>
    var inView: bool
    var paused: bool
    var currentTime: real
    var muted: bool
    var playEvents: nat
    var outerFrames: nat
    var innerFrames: nat
    var isChangingMuteState: bool
    var removal: bool
    var effects: seq<Effect>
    var endings: nat

    ghost function State(): Player
      reads this
    {
      Player(videoId, attached, isActive, isLoading, hasError, seen, inView, paused, playEvents,
             outerFrames + innerFrames, removal, effects)
    }

    /** If the element plays without being active, a play event is coming or a pausing effect is queued. */
    ghost predicate Valid()
      reads this
    {
      Guarded(State())
    }

    constructor (id: Id, active: Option<Id>, globalMuted: bool)
      ensures Valid() && State() == Created(id, active)
    {
      videoId := id;
      attached, isActive, isLoading, hasError := true, active == Some(id), true, false;
      isPlaying, endings := false, 0;
      seen, inView, paused, playEvents, removal := None, false, true, 0, false;
      currentTime, muted, outerFrames, innerFrames, isChangingMuteState := 0.0, globalMuted, 0, 0, false;
      effects := [Visibility(Some(0.0)), Control(active == Some(id), false), MuteSync(false)];
    }

    // ----- Renders -----

    /** A render that the provider caused, with the active id it commits */
    method RenderWithProvider(active: Option<Id>, muteChanged: bool)
      requires Valid() && attached
      modifies `isActive, `effects
      ensures Valid() && State() == Rerendered(old(State()), active, muteChanged)
    {
      RenderStep(State(), active, muteChanged);
      hide Guarded, Rerendered, Consequences;
      var before := isActive;
      isActive := active == Some(videoId);
      var more := DependentEffects(before, muteChanged);
      QueueEffects(more);
    }

    method DependentEffects(before: bool, muteChanged: bool) returns (es: seq<Effect>)
      ensures es == Consequences(State(), before, muteChanged)
    {
      var ready := !isLoading && !hasError;
      var report := if seen.Some? && !hasError then seen else if seen.None? || !inView then Some(0.0) else None;
      es := [Cleanup, Visibility(report)] +
            (if isActive != before then [Control(isActive, ready), MuteSync(isActive && ready)]
             else if muteChanged then [MuteSync(isActive && ready)]
             else []);
    }

    method QueueEffects(es: seq<Effect>)
      modifies `effects
      ensures State() == Queue(old(State()), es)
    {
      effects := effects + es;
    }

    /** React detaches the ref and removes the element; the cleanup effect is left to run. */
    method Unmount()
      requires Valid() && attached
      modifies `attached, `removal, `effects
      ensures Valid() && State() == After(old(State()), PlaybackSystem.Unmount)
    {
      attached := false;
      removal := true;
      effects := effects + [Cleanup];
    }

    // ----- Effects -----

    /** HTMLMediaElement.play: `ok` is false when the browser refuses. */
    method PlayElement(ok: bool)
      modifies `paused, `playEvents
      ensures State() == Play(old(State()), ok)
    {
      if ok && paused {
        paused := false;
        playEvents := playEvents + 1;
      }
    }

    /** The effect that controls playback, with the values its render captured */
    method ControlPlayback(active: bool, loading: bool, error: bool, ok: bool)
      modifies `isPlaying, `paused, `playEvents, `currentTime
      ensures State() == Effected(old(State()), Control(active, !loading && !error), ok)
      ensures isPlaying == active
      ensures currentTime == if attached && !active then 0.0 else old(currentTime)
    {
      isPlaying := active;
      if attached {
        if active && !loading && !error {
          if paused {
            PlayElement(ok);
          }
        } else if !active {
          paused := true;
          currentTime := 0.0;
        }
      }
    }

    /** The effect that follows the global mute setting */
    method SyncMuted(globalMuted: bool, active: bool, loading: bool, error: bool)
      modifies `muted, `isChangingMuteState, `outerFrames
      ensures State() == Effected(old(State()), MuteSync(active && !loading && !error), true)
      ensures muted == if attached then globalMuted else old(muted)
      ensures isChangingMuteState == (attached || old(isChangingMuteState))
    {
      if attached {
        var shouldBePlayingCheck := active && !loading && !error;
        isChangingMuteState := true;
        muted := globalMuted;
        if shouldBePlayingCheck {
          outerFrames := outerFrames + 1;
        }
      }
    }

    method CleanUp()
      modifies `paused, `currentTime
      ensures State() == Effected(old(State()), Cleanup, true)
      ensures currentTime == if attached then 0.0 else old(currentTime)
    {
      if attached {
        paused := true;
        currentTime := 0.0;
      }
    }

    method RunEffect(effect: Effect, globalMuted: bool, ok: bool)
      modifies `isPlaying, `paused, `playEvents, `currentTime, `muted, `isChangingMuteState, `outerFrames
      ensures State() == Effected(old(State()), effect, ok)
    {
      RefusalMatters(State(), effect, ok);
      hide Effected;
      match effect
      case Cleanup => CleanUp();
      case Visibility(_) =>
      case Control(active, ready) => ControlPlayback(active, !ready, false, ok);
      case MuteSync(shouldPlay) => SyncMuted(globalMuted, shouldPlay, false, false);
    }

    /** Runs the oldest effect that is queued. */
    method FlushEffect(globalMuted: bool, ok: bool)
      requires Valid()
      modifies `effects, `isPlaying, `paused, `playEvents, `currentTime, `muted, `isChangingMuteState, `outerFrames
      ensures Valid() && State() == After(old(State()), EffectRuns(ok))
    {
      FlushStep(State(), ok);
      hide Guarded, Effected, After;
      if effects == [] { return; }
      EffectGuarded(State(), ok);
      var effect := effects[0];
      effects := effects[1..];
      RunEffect(effect, globalMuted, ok);
    }

    // ----- Callbacks -----

    /** The first of the two frames only requests the second. */
    method FirstFrame()
      requires Valid() && outerFrames > 0
      modifies `outerFrames, `innerFrames
      ensures Valid() && State() == old(State())
    {
      outerFrames := outerFrames - 1;
      innerFrames := innerFrames + 1;
    }

    method ResumeAfterMute(ok: bool)
      requires Valid() && innerFrames > 0
      modifies `paused, `playEvents, `innerFrames, `isChangingMuteState
      ensures Valid() && State() == After(old(State()), FrameRuns(ok))
      ensures !isChangingMuteState
    {
      innerFrames := innerFrames - 1;
      if paused {
        PlayElement(ok);
      }
      isChangingMuteState := false;
      AfterGuarded(old(State()), FrameRuns(ok));
    }

    /** The timeout of a mute effect that resumes nothing */
    method MuteSettled()
      requires Valid()
      modifies `isChangingMuteState
      ensures Valid() && State() == old(State()) && !isChangingMuteState
    {
      isChangingMuteState := false;
    }

    method HandlePlay()
      requires Valid() && playEvents > 0 && attached
      modifies `paused, `playEvents, `isPlaying
      ensures Valid() && State() == After(old(State()), PlayEventFires)
      ensures !isActive ==> paused
      ensures isPlaying == (isActive || old(isPlaying))
    {
      playEvents := playEvents - 1;
      if !isActive && attached {
        paused := true;
        return;
      }
      isPlaying := true;
    }

    method HandlePause()
      requires Valid()
      modifies `isPlaying
      ensures Valid() && State() == old(State())
      ensures isPlaying == (isChangingMuteState && old(isPlaying))
    {
      if isChangingMuteState { return; }
      isPlaying := false;
    }

    method HandleEnded(ok: bool)
      requires Valid()
      modifies `paused, `playEvents, `currentTime, `endings
      ensures Valid() && State() == After(old(State()), Ended(ok))
      ensures endings == old(endings) + 1 && currentTime == if attached then 0.0 else old(currentTime)
    {
      endings := endings + 1;
      if attached {
        currentTime := 0.0;
        PlayElement(ok);
      }
      AfterGuarded(old(State()), Ended(ok));
    }

    method TogglePlay(ok: bool)
      requires Valid()
      modifies `paused, `playEvents, `isPlaying
      ensures Valid() && State() == After(old(State()), Click(old(isPlaying), ok))
      ensures isPlaying == if attached then !old(isPlaying) else old(isPlaying)
    {
      if !attached { return; }
      if isPlaying {
        paused := true;
      } else {
        PlayElement(ok);
      }
      isPlaying := !isPlaying;
      AfterGuarded(old(State()), Click(old(isPlaying), ok));
    }

    /** The catch handler of a refused play() after a click or at the end */
    method PlayRefused()
      requires Valid()
      modifies `isPlaying
      ensures Valid() && State() == old(State()) && !isPlaying
    {
      isPlaying := false;
    }
  }
}
