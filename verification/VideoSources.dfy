/**
  The part of frontend-web/src/components/VideoPlayer.tsx that finds the source, in its own, imperative form: the state,
  the handlers and the effect, each tied to the step of VideoFallback that it performs.
 */
module VideoSources {
  import opened Options
  import opened VideoFallback

  /** Each handler ends with the render that follows it. */
  class VideoSources {
    const hlsJs: bool
    const nativeHls: bool
    var allUrls: seq<string>
    var listsMade: nat
    var currentUrlIndex: nat
    var hlsUrl: string
    var triedHls: bool
    var isLoading: bool
    var hasError: bool
    var requiresAuth: bool
    var isAdultVerified: bool
    var authRetryCount: nat
    var getAuthHeader: nat
    var reports: nat
    var seen: Option<Dependencies>
    var runs: nat
    var pending: seq<Request>
    var loads: seq<Load>

    ghost function State(): Player
      reads this
    {
      Player(Video(allUrls, listsMade, currentUrlIndex, hlsUrl),
             Access(requiresAuth, isAdultVerified, authRetryCount, getAuthHeader), triedHls,
             Shown(isLoading, hasError, reports), Sources(seen, runs, pending, loads))
    }

    /** Between two handlers the effect has seen the present dependencies, and every source was well chosen. */
    ghost predicate Valid()
      reads this
    {
      Settled(State()) && forall l | l in loads :: WellChosen(Browser(hlsJs, nativeHls), l)
    }

    constructor (js: bool, native: bool, hls: string, verified: bool)
      ensures Valid() && State() == Rendered(Mounted(hls, verified))
      ensures hlsJs == js && nativeHls == native
    {
      hlsJs, nativeHls := js, native;
      allUrls, listsMade, currentUrlIndex, hlsUrl, triedHls := [], 0, 0, hls, false;
      isLoading, hasError, reports := true, false, 0;
      requiresAuth, isAdultVerified, authRetryCount, getAuthHeader := false, verified, 0, 0;
      seen := Some(Dependencies(hls, 0, 0, false, verified, 0, 0));
      runs, pending, loads := 1, [Request(hls, "", verified, 1)], [];
      new;
      assert [] + pending == pending;
    }

    /** React's render: the effect runs when a dependency has changed. */
    method Render()
      modifies `seen, `runs, `pending
      ensures State() == Rendered(old(State()))
    {
      var now := Dependencies(hlsUrl, currentUrlIndex, listsMade, requiresAuth, isAdultVerified, authRetryCount,
                              getAuthHeader);
      if seen == Some(now) { return; }
      seen := Some(now);
      if requiresAuth { return; }
      runs := runs + 1;
      pending := pending + [Request(hlsUrl, if currentUrlIndex < |allUrls| then allUrls[currentUrlIndex] else "",
                                    isAdultVerified, runs)];
    }

    method HandleError()
      requires Valid()
      modifies this
      ensures Valid() && State() == Next(old(State()), Browser(hlsJs, nativeHls), Failure)
    {
      hide Rendered, WellChosen, Answered, Initialized, AgeVerified, Broken;
      if currentUrlIndex < |allUrls| - 1 {
        currentUrlIndex := currentUrlIndex + 1;
        isLoading := true;
        hasError := false;
      } else if hlsUrl != "" && !triedHls {
        triedHls := true;
        isLoading := true;
        hasError := false;
      } else {
        isLoading := false;
        hasError := true;
        reports := reports + 1;
      }
      ghost var updated := State();
      assert updated == Updated(old(State()), Browser(hlsJs, nativeHls), Failure);
      Render();
      RenderedSettled(updated);
      hide *;
    }

    /** The effect that collects the URLs; it starts over at the first one, and leaves the HLS flag alone. */
    method InitializeUrls(src: string, fallbackUrls: seq<string>)
      requires Valid()
      modifies this
      ensures Valid() && State() == Next(old(State()), Browser(hlsJs, nativeHls), NewUrls(src, fallbackUrls))
    {
      hide Rendered, WellChosen, Answered, Failed, AgeVerified, Broken;
      var urls := [];
      if src != "" {
        urls := urls + [src];
      }
      if |fallbackUrls| > 0 {
        urls := urls + fallbackUrls;
      }
      assert urls == (if src != "" then [src] else []) + fallbackUrls;
      if |urls| == 0 {
        hasError := true;
      } else {
        allUrls := urls;
        listsMade := listsMade + 1;
        currentUrlIndex := 0;
      }
      ghost var updated := State();
      assert updated == Updated(old(State()), Browser(hlsJs, nativeHls), NewUrls(src, fallbackUrls));
      Render();
      RenderedSettled(updated);
      hide *;
    }

    method HandleAgeVerified()
      requires Valid()
      modifies this
      ensures Valid() && State() == Next(old(State()), Browser(hlsJs, nativeHls), AgeConfirmed)
    {
      hide Rendered, WellChosen, Answered, Failed, Initialized, Broken;
      requiresAuth := false;
      isLoading := true;
      hasError := false;
      authRetryCount := authRetryCount + 1;
      currentUrlIndex := 0;
      ghost var updated := State();
      assert updated == Updated(old(State()), Browser(hlsJs, nativeHls), AgeConfirmed);
      Render();
      RenderedSettled(updated);
      hide *;
    }

    method SetSource(source: Source, r: Request)
      modifies `loads, `isLoading, `hasError
      ensures var p := old(State());
              State() == Loading(p.(sources := p.sources.(loads := p.sources.loads + [Load(source, r)])))
    {
      loads := loads + [Load(source, r)];
      isLoading := true;
      hasError := false;
    }

    method LoadVideoSource(r: Request)
      modifies `loads, `isLoading, `hasError
      ensures State() == SourceSet(old(State()), Browser(hlsJs, nativeHls), r)
    {
      if r.hlsUrl != "" && hlsJs {
        SetSource(HlsJs(r.hlsUrl), r);
      } else if r.hlsUrl != "" && nativeHls {
        SetSource(NativeHls(r.hlsUrl), r);
      } else if r.url != "" {
        if r.verified && (r.run != runs || requiresAuth) {
          isLoading := true;
          hasError := false;
        } else {
          SetSource(if r.verified then Fetched(r.url) else Direct(r.url), r);
        }
      }
    }

    /** checkAuth has been answered for run k of the effect; loadVideoSource follows unless access was denied. */
    method AfterAuthCheck(k: nat, denied: bool)
      requires Valid() && k < |pending|
      modifies this
      ensures Valid() && State() == Next(old(State()), Browser(hlsJs, nativeHls), Answer(k, denied))
    {
      hide Rendered, WellChosen, Failed, Initialized, AgeVerified, Broken, SourceSet;
      var r := pending[k];
      pending := pending[..k] + pending[k + 1..];
      var urlToCheck := if r.hlsUrl != "" then r.hlsUrl else r.url;
      if urlToCheck != "" && !r.verified && denied {
        requiresAuth := true;
        isLoading := false;
      } else {
        LoadVideoSource(r);
      }
      ghost var updated := State();
      assert updated == Updated(old(State()), Browser(hlsJs, nativeHls), Answer(k, denied));
      Render();
      RenderedSettled(updated);
      AnsweredWellChosen(old(State()), Browser(hlsJs, nativeHls), k, denied);
      hide *;
    }
  }
}
