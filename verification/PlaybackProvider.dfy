/**
  The component of frontend-web/src/contexts/VideoPlaybackContext.tsx in its own, imperative form: refs that the
  callbacks update in place. Each callback is tied to the step of PlaybackContext that it performs.
 */
module PlaybackProvider {
  import opened Options
  import opened PlaybackContext
  import opened PlaybackSelection

  /** `pending` is the browser's set of timeouts and `issued` its counter of timeout handles. */
  class VideoPlaybackProvider {
    var activeVideoId: Option<Id>
    var nextVideoId: Option<Id>
    var activeVideoIdRef: Option<Id>
    var videoRefs: map<Id, Element>
    var videoVisibility: seq<Entry>
    var registrationOrder: seq<Id>
    var visibilityUpdateTimer: Option<nat>
    var pending: set<nat>
    var issued: nat

    /** Between two callbacks the mirrored ref is up to date, and registry, visibility map and timer are coherent. */
    ghost predicate Valid()
      reads this
    {
      activeVideoIdRef == activeVideoId && Coherent(State())
    }

    ghost function State(): Context
      reads this
    {
      Context(activeVideoId, nextVideoId, videoRefs, videoVisibility, registrationOrder, visibilityUpdateTimer,
              pending, issued)
    }

    constructor ()
      ensures Valid() && State() == INITIAL
    {
      activeVideoId, nextVideoId, activeVideoIdRef := None, None, None;
      videoRefs, videoVisibility, registrationOrder := map[], [], [];
      visibilityUpdateTimer, pending, issued := None, {}, 0;
      new;
      assert Keys(videoVisibility) == [];
    }

    method RegisterVideo(videoId: Id, element: Element)
      requires Valid()
      modifies this
      ensures Valid() && State() == Register(old(State()), videoId, element)
    {
      var orderIndex := IndexOf(registrationOrder, videoId);
      if orderIndex != -1 {
        registrationOrder := registrationOrder[..orderIndex] + registrationOrder[orderIndex + 1..];
      }
      registrationOrder := registrationOrder + [videoId];
      videoRefs := videoRefs[videoId := element];
      ghost var registered := State();
      while |registrationOrder| > MAX_VIDEO_REFS
        invariant activeVideoIdRef == activeVideoId && Prune(State()) == Prune(registered)
        decreases |registrationOrder|
      {
        var oldestId := registrationOrder[0];
        registrationOrder := registrationOrder[1..];
        if oldestId != "" && Some(oldestId) != activeVideoIdRef {
          videoRefs := videoRefs - {oldestId};
          videoVisibility := DeleteEntry(videoVisibility, oldestId);
        }
      }
      ApplyCoherent(old(State()), DoRegister(videoId, element));
      hide Coherent;
    }

    method UnregisterVideo(videoId: Id)
      requires Valid()
      modifies this
      ensures Valid() && State() == Unregister(old(State()), videoId)
    {
      videoRefs := videoRefs - {videoId};
      videoVisibility := DeleteEntry(videoVisibility, videoId);
      var orderIndex := IndexOf(registrationOrder, videoId);
      if orderIndex != -1 {
        registrationOrder := registrationOrder[..orderIndex] + registrationOrder[orderIndex + 1..];
      }
      ApplyCoherent(old(State()), DoUnregister(videoId));
      hide Coherent;
    }

    method UpdateVideoVisibility(videoId: Id, visibilityRatio: real)
      requires Valid()
      modifies this
      ensures Valid() && State() == UpdateVisibility(old(State()), videoId, visibilityRatio)
    {
      if visibilityRatio > 0.0 {
        videoVisibility := SetEntry(videoVisibility, videoId, visibilityRatio);
      } else {
        videoVisibility := DeleteEntry(videoVisibility, videoId);
      }
      if visibilityUpdateTimer.Some? {
        pending := pending - {visibilityUpdateTimer.value};
      }
      visibilityUpdateTimer := Some(issued);
      pending, issued := pending + {issued}, issued + 1;
      ApplyCoherent(old(State()), DoVisibility(videoId, visibilityRatio));
      hide Coherent;
    }

    /** The timeout callback */
    method SelectMostVisible(timer: nat)
      requires Valid() && timer in pending
      modifies this
      ensures Valid() && State() == Fire(old(State()), timer)
    {
      pending := pending - {timer};
      var mostVisibleId: Option<Id> := None;
      var maxVisibility := 0.0;
      var i := 0;
      while i < |videoVisibility|
        invariant 0 <= i <= |videoVisibility|
        invariant Scan(videoVisibility[i..], mostVisibleId, maxVisibility) == Scan(videoVisibility, None, 0.0)
      {
        assert videoVisibility[i..][1..] == videoVisibility[i + 1..];
        if videoVisibility[i].ratio > maxVisibility {
          maxVisibility := videoVisibility[i].ratio;
          mostVisibleId := Some(videoVisibility[i].id);
        }
        i := i + 1;
      }
      if mostVisibleId != activeVideoIdRef {
        nextVideoId := mostVisibleId;
      }
      ApplyCoherent(old(State()), DoFire(timer));
      hide Coherent;
    }

    method SetActiveVideo(videoId: Option<Id>)
      requires Valid()
      modifies this
      ensures Valid() && State() == SetActive(old(State()), videoId)
    {
      nextVideoId := videoId;
      ApplyCoherent(old(State()), DoSetActive(videoId));
      hide Coherent;
    }

    /** A render commits the state and refreshes the ref that mirrors it. */
    method RenderProvider()
      requires Valid()
      modifies this
      ensures Valid() && State() == Render(old(State()))
    {
      activeVideoId := nextVideoId;
      activeVideoIdRef := activeVideoId;
      ApplyCoherent(old(State()), DoRender);
      hide Coherent;
    }
  }
}
