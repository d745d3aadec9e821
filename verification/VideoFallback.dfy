/**
  How the player of frontend-web/src/components/VideoPlayer.tsx finds its source: the failure handler moves an index
  and spends a flag, and an effect sets the source whenever one of its dependencies has changed. HLS, when the video
  has it and the browser can play it, comes first at every index.
 */
module VideoFallback {
  import opened Options

  // ----- The state -----

  /** What the browser can play */
  datatype Browser = Browser(hlsJs: bool, nativeHls: bool)

  /** What the effect depends on. A list of URLs is compared by identity, as is the header function. */
  datatype Dependencies = Dependencies(hlsUrl: string, current: nat, list: nat, requiresAuth: bool, verified: bool,
                                       retries: nat, header: nat)

  /** What one run of the effect has captured, and the number of that run; an absent URL is empty here, both being
      falsy. */
  datatype Request = Request(hlsUrl: string, url: string, verified: bool, run: nat)

  datatype Source = HlsJs(url: string) | NativeHls(url: string) | Direct(url: string) | Fetched(url: string)

  datatype Load = Load(source: Source, request: Request)

  datatype Video = Video(urls: seq<string>, list: nat, current: nat, hlsUrl: string)

  datatype Access = Access(requiresAuth: bool, verified: bool, retries: nat, header: nat)

  /** What is shown, and how often onError was called */
  datatype Shown = Shown(isLoading: bool, hasError: bool, reports: nat)

  /** `seen` are the dependencies of the effect's last run, `runs` counts the runs that captured something, `pending`
      are those that still wait for the preflight check, and `loads` the sources that were set. */
  datatype Sources = Sources(seen: Option<Dependencies>, runs: nat, pending: seq<Request>, loads: seq<Load>)

  datatype Player = Player(video: Video, access: Access, triedHls: bool, shown: Shown, sources: Sources)

  function Mounted(hlsUrl: string, verified: bool): Player {
    Player(Video([], 0, 0, hlsUrl), Access(false, verified, 0, 0), false, Shown(true, false, 0),
           Sources(None, 0, [], []))
  }

  // ----- The effect -----

  function DependenciesOf(v: Video, a: Access): Dependencies {
    Dependencies(v.hlsUrl, v.current, v.list, a.requiresAuth, a.verified, a.retries, a.header)
  }

  function CurrentUrl(v: Video): string {
    if v.current < |v.urls| then v.urls[v.current] else ""
  }

  function Captured(p: Player): Request {
    Request(p.video.hlsUrl, CurrentUrl(p.video), p.access.verified, p.sources.runs)
  }

  /** One more run of the effect */
  function Run(p: Player): Player {
    var q := p.(sources := p.sources.(runs := p.sources.runs + 1));
    q.(sources := q.sources.(pending := q.sources.pending + [Captured(q)]))
  }

  /** React runs the effect after a render exactly when a dependency differs from those of its last run. */
  function Rendered(p: Player): Player {
    var now := Some(DependenciesOf(p.video, p.access));
    if p.sources.seen == now then p
    else
      var q := p.(sources := p.sources.(seen := now));
      if p.access.requiresAuth then q else Run(q)
  }

  /** What loadVideoSource sets */
  function Chosen(b: Browser, r: Request): Option<Source> {
    if r.hlsUrl != "" && b.hlsJs then Some(HlsJs(r.hlsUrl))
    else if r.hlsUrl != "" && b.nativeHls then Some(NativeHls(r.hlsUrl))
    else if r.url == "" then None
    else if r.verified then Some(Fetched(r.url))
    else Some(Direct(r.url))
  }

  /** The preflight check asks the network only for a URL, and not after verification. */
  predicate Checked(r: Request) {
    (r.hlsUrl != "" || r.url != "") && !r.verified
  }

  /** Access to the video turned out to need authorization. */
  function Denied(p: Player): Player {
    p.(access := p.access.(requiresAuth := true), shown := p.shown.(isLoading := false))
  }

  function Loading(p: Player): Player {
    p.(shown := p.shown.(isLoading := true, hasError := false))
  }

  /** The effect has run again since this run, if only to find that authorization is required. */
  predicate Aborted(p: Player, r: Request) {
    r.run != p.sources.runs || p.access.requiresAuth
  }

  /** loadVideoSource, for this run. An older run is not cancelled by a newer one; only a fetch with authorization
      notices that it was aborted. */
  function SourceSet(p: Player, b: Browser, r: Request): Player {
    match Chosen(b, r)
    case None => p
    case Some(source) =>
      if source.Fetched? && Aborted(p, r) then Loading(p)
      else Loading(p.(sources := p.sources.(loads := p.sources.loads + [Load(source, r)])))
  }

  /** The preflight check of run k is answered, and the source is set unless access was denied. */
  function Answered(p: Player, b: Browser, k: nat, denied: bool): Player {
    if k >= |p.sources.pending| then p
    else
      var r := p.sources.pending[k];
      var q := p.(sources := p.sources.(pending := p.sources.pending[..k] + p.sources.pending[k + 1..]));
      if denied && Checked(r) then Denied(q) else SourceSet(q, b, r)
  }

  // ----- The handlers -----

  /** handleError */
  function Failed(p: Player): Player {
    if p.video.current < |p.video.urls| - 1 then Loading(p.(video := p.video.(current := p.video.current + 1)))
    else if p.video.hlsUrl != "" && !p.triedHls then Loading(p.(triedHls := true))
    else p.(shown := Shown(false, true, p.shown.reports + 1))
  }

  /** The effect that collects the URLs into a new list */
  function Initialized(p: Player, src: string, fallbackUrls: seq<string>): Player {
    var urls := (if src != "" then [src] else []) + fallbackUrls;
    if urls == [] then p.(shown := p.shown.(hasError := true))
    else p.(video := Video(urls, p.video.list + 1, 0, p.video.hlsUrl))
  }

  function AgeVerified(p: Player): Player {
    Loading(p.(video := p.video.(current := 0),
               access := p.access.(requiresAuth := false, retries := p.access.retries + 1)))
  }

  /** A fatal error of HLS.js sets the direct URL that the load had captured. */
  function Broken(p: Player, n: nat): Player {
    var loads := p.sources.loads;
    if n < |loads| && loads[n].source.HlsJs? && loads[n].request.url != "" then
      p.(sources := p.sources.(loads := loads + [Load(Direct(loads[n].request.url), loads[n].request)]))
    else p
  }

  // ----- Runs -----

  datatype Step =
    | Failure
    | NewUrls(src: string, fallbackUrls: seq<string>)
    | NewHls(url: string)
    | Verification(verified: bool)
    | NewHeader
    | AgeConfirmed
    | Answer(k: nat, denied: bool)
    | HlsBreaks(n: nat)
    | LoadedData
    | AccessLost
    | FetchFails

  function Updated(p: Player, b: Browser, step: Step): Player {
    match step
    case Failure => Failed(p)
    case NewUrls(src, fallbackUrls) => Initialized(p, src, fallbackUrls)
    case NewHls(url) => p.(video := p.video.(hlsUrl := url))
    case Verification(verified) => p.(access := p.access.(verified := verified))
    case NewHeader => p.(access := p.access.(header := p.access.header + 1))
    case AgeConfirmed => AgeVerified(p)
    case Answer(k, denied) => Answered(p, b, k, denied)
    case HlsBreaks(n) => Broken(p, n)
    case LoadedData => p.(shown := p.shown.(isLoading := false))
    case AccessLost => Denied(p)
    case FetchFails => p.(shown := p.shown.(isLoading := false, hasError := true))
  }

  function Next(p: Player, b: Browser, step: Step): Player {
    Rendered(Updated(p, b, step))
  }

  function After(p: Player, b: Browser, h: seq<Step>): Player {
    if h == [] then p else Next(After(p, b, h[..|h| - 1]), b, h[|h| - 1])
  }

  function PlayerAfter(hlsUrl: string, verified: bool, b: Browser, h: seq<Step>): Player {
    After(Rendered(Mounted(hlsUrl, verified)), b, h)
  }

  /** The effect has seen the present dependencies. */
  predicate Settled(p: Player) {
    p.sources.seen == Some(DependenciesOf(p.video, p.access))
  }

  // ----- The HLS flag decides nothing about the sources -----

  /** The two agree on everything but the flag and what is shown and reported. */
  predicate SameSources(p: Player, q: Player) {
    p.video == q.video && p.access == q.access && p.sources == q.sources
  }

  lemma {:induction false} UpdateSameSources(p: Player, q: Player, b: Browser, step: Step)
    requires SameSources(p, q)
    ensures SameSources(Updated(p, b, step), Updated(q, b, step))
  {
  }

  lemma {:induction false} RenderSameSources(p: Player, q: Player)
    requires SameSources(p, q)
    ensures SameSources(Rendered(p), Rendered(q))
  {
  }

  /** Whatever happens, resets included: two players that differ in the flag, and in what is shown, run the effect
      at the same steps with the same captures and set the same sources in the same order. */
  lemma {:induction false} FlagChoosesNothing(p: Player, q: Player, b: Browser, h: seq<Step>)
    requires SameSources(p, q)
    ensures After(p, b, h).sources == After(q, b, h).sources
    ensures SameSources(After(p, b, h), After(q, b, h))
  {
    if h != [] {
      var g, step := h[..|h| - 1], h[|h| - 1];
      FlagChoosesNothing(p, q, b, g);
      hide Updated, Rendered;
      UpdateSameSources(After(p, b, g), After(q, b, g), b, step);
      RenderSameSources(Updated(After(p, b, g), b, step), Updated(After(q, b, g), b, step));
    }
  }

  lemma {:induction false} RenderedSettled(p: Player)
    ensures Settled(Rendered(p)) && Rendered(p).sources.loads == p.sources.loads
  {
  }

  lemma {:induction false} AlwaysSettled(hlsUrl: string, verified: bool, b: Browser, h: seq<Step>)
    ensures Settled(PlayerAfter(hlsUrl, verified, b, h))
  {
    if h != [] { hide Updated; }
  }

  /** In every run, a failure runs the effect if and only if it moves the index and no authorization is required.
      The failure that spends the flag changes no dependency, starts no load, and leaves the player in its
      loading state. */
  lemma {:induction false} FailureLoadsIff(hlsUrl: string, verified: bool, b: Browser, h: seq<Step>)
    ensures var p := PlayerAfter(hlsUrl, verified, b, h); var q := PlayerAfter(hlsUrl, verified, b, h + [Failure]);
            && q.sources.loads == p.sources.loads
            && (q.sources.pending != p.sources.pending <==>
                  p.video.current < |p.video.urls| - 1 && !p.access.requiresAuth)
            && (q.triedHls != p.triedHls ==> q.video == p.video && q.access == p.access && q.sources == p.sources
                                             && q.shown.isLoading && !q.shown.hasError)
  {
    AlwaysSettled(hlsUrl, verified, b, h);
    var p := PlayerAfter(hlsUrl, verified, b, h);
    assert (h + [Failure])[..|h|] == h;
    assert PlayerAfter(hlsUrl, verified, b, h + [Failure]) == Next(p, b, Failure);
    hide PlayerAfter;
    hide After;
    FailureStep(p, b);
  }

  lemma {:induction false} FailureStep(p: Player, b: Browser)
    requires Settled(p)
    ensures var q := Next(p, b, Failure);
            && q.access == p.access && q.sources.loads == p.sources.loads && Settled(q)
            && (p.video.current < |p.video.urls| - 1 ==>
                  && q.video == p.video.(current := p.video.current + 1) && q.triedHls == p.triedHls
                  && q.sources.pending == p.sources.pending + (if p.access.requiresAuth then [] else [Captured(q)])
                  && q.sources.runs == p.sources.runs + (if p.access.requiresAuth then 0 else 1)
                  && q.shown == Shown(true, false, p.shown.reports))
            && (p.video.current >= |p.video.urls| - 1 ==>
                  && q.video == p.video && q.sources == p.sources
                  && (if p.video.hlsUrl != "" && !p.triedHls then
                        q.triedHls && q.shown == Shown(true, false, p.shown.reports)
                      else q.triedHls == p.triedHls && q.shown == Shown(false, true, p.shown.reports + 1)))
  {
    assert p.sources.pending + [] == p.sources.pending;
  }

  // ----- Which source each load sets -----

  /** Some state of the run has this capture. */
  ghost predicate CapturedIn(p: Player, b: Browser, h: seq<Step>, r: Request) {
    exists n :: 0 <= n <= |h| && r == Captured(After(p, b, h[..n]))
  }

  /** The load sets what its capture calls for, or the direct URL after HLS.js broke. */
  predicate WellChosen(b: Browser, l: Load) {
    Chosen(b, l.request) == Some(l.source)
    || (b.hlsJs && l.request.hlsUrl != "" && l.request.url != "" && l.source == Direct(l.request.url))
  }

  lemma {:induction false} AnsweredWellChosen(p: Player, b: Browser, k: nat, denied: bool)
    requires forall l | l in p.sources.loads :: WellChosen(b, l)
    ensures forall l | l in Answered(p, b, k, denied).sources.loads :: WellChosen(b, l)
  {
  }

  ghost predicate Accounted(p: Player, b: Browser, h: seq<Step>, q: Player) {
    && (forall r | r in q.sources.pending :: CapturedIn(p, b, h, r))
    && (forall l | l in q.sources.loads :: CapturedIn(p, b, h, l.request) && WellChosen(b, l))
  }

  lemma {:induction false} CapturedStays(p: Player, b: Browser, h: seq<Step>, step: Step, r: Request)
    requires CapturedIn(p, b, h, r)
    ensures CapturedIn(p, b, h + [step], r)
  {
    var n :| 0 <= n <= |h| && r == Captured(After(p, b, h[..n]));
    assert (h + [step])[..n] == h[..n];
  }

  lemma {:induction false} CapturedNow(p: Player, b: Browser, h: seq<Step>)
    ensures CapturedIn(p, b, h, Captured(After(p, b, h)))
  {
    assert h[..|h|] == h;
  }

  /** How a load of `after` is explained by `before` */
  ghost predicate Explained(b: Browser, before: Sources, l: Load) {
    || l in before.loads
    || (l.request in before.pending && Chosen(b, l.request) == Some(l.source))
    || (exists m :: m in before.loads && m.source.HlsJs? && m.request == l.request && m.request.url != ""
                    && l.source == Direct(m.request.url))
  }

  lemma {:induction false} UpdateAdds(p: Player, b: Browser, step: Step)
    ensures var u := Updated(p, b, step);
            && (forall r | r in u.sources.pending :: r in p.sources.pending)
            && (forall l | l in u.sources.loads :: Explained(b, p.sources, l))
  {
    if step.HlsBreaks? && step.n < |p.sources.loads| { assert p.sources.loads[step.n] in p.sources.loads; }
    hide DependenciesOf, Initialized, Failed, AgeVerified;
    if step.Failure? || step.NewUrls? || step.AgeConfirmed? { OthersKeepSources(p, b, step); }
  }

  lemma {:induction false} OthersKeepSources(p: Player, b: Browser, step: Step)
    requires step.Failure? || step.NewUrls? || step.AgeConfirmed?
    ensures Updated(p, b, step).sources == p.sources
  {
  }

  /** What a step can add to the pending runs and to the loads */
  lemma {:induction false} StepAdds(p: Player, b: Browser, step: Step)
    ensures var q := Next(p, b, step);
            && (forall r | r in q.sources.pending :: r in p.sources.pending || r == Captured(q))
            && (forall l | l in q.sources.loads :: Explained(b, p.sources, l))
  {
    UpdateAdds(p, b, step);
    hide Updated, Explained;
  }

  lemma {:induction false} StepAccounted(p: Player, b: Browser, h: seq<Step>, step: Step)
    requires Accounted(p, b, h, After(p, b, h))
    ensures Accounted(p, b, h + [step], After(p, b, h + [step]))
  {
    var g := h + [step];
    var u, v := After(p, b, h), After(p, b, g);
    assert g[..|h|] == h;
    StepAdds(u, b, step);
    CapturedNow(p, b, g);
    hide After, Next, CapturedIn;
    forall r | r in v.sources.pending ensures CapturedIn(p, b, g, r) {
      if r in u.sources.pending { CapturedStays(p, b, h, step, r); }
    }
    forall l | l in v.sources.loads ensures CapturedIn(p, b, g, l.request) && WellChosen(b, l) {
      CapturedStays(p, b, h, step, l.request);
    }
  }

  /** In every run each source that is set is the one its capture calls for, and the capture is that of a state the
      run went through: HLS if the video had it and the browser can play it, else the URL at the index of that state;
      or the URL at that index after HLS.js broke. */
  lemma {:induction false} EveryLoadAccounted(hlsUrl: string, verified: bool, b: Browser, h: seq<Step>)
    ensures Accounted(Rendered(Mounted(hlsUrl, verified)), b, h, PlayerAfter(hlsUrl, verified, b, h))
  {
    hide After, Accounted, Rendered, Mounted;
    var p := Rendered(Mounted(hlsUrl, verified));
    if h == [] {
      StartAccounted(hlsUrl, verified, b);
    } else {
      EveryLoadAccounted(hlsUrl, verified, b, h[..|h| - 1]);
      StepAccounted(p, b, h[..|h| - 1], h[|h| - 1]);
      assert h == h[..|h| - 1] + [h[|h| - 1]];
    }
  }

  lemma {:induction false} StartAccounted(hlsUrl: string, verified: bool, b: Browser)
    ensures Accounted(Rendered(Mounted(hlsUrl, verified)), b, [], PlayerAfter(hlsUrl, verified, b, []))
  {
    CapturedNow(Rendered(Mounted(hlsUrl, verified)), b, []);
    hide CapturedIn;
  }

  /** Throughout the run the video has the HLS URL given, or none when it is empty. */
  predicate Constant(hlsUrl: string, h: seq<Step>) {
    forall k | 0 <= k < |h| :: h[k].NewHls? ==> h[k].url == hlsUrl
  }

  lemma {:induction false} StepHlsUrl(p: Player, b: Browser, step: Step)
    ensures Next(p, b, step).video.hlsUrl == if step.NewHls? then step.url else p.video.hlsUrl
  {
  }

  lemma {:induction false} HlsUrlConstant(p: Player, b: Browser, h: seq<Step>)
    requires Constant(p.video.hlsUrl, h)
    ensures After(p, b, h).video.hlsUrl == p.video.hlsUrl
  {
    if h != [] {
      HlsUrlConstant(p, b, h[..|h| - 1]);
      StepHlsUrl(After(p, b, h[..|h| - 1]), b, h[|h| - 1]);
      hide Next;
    }
  }

  lemma {:induction false} ConstantCaptures(p: Player, b: Browser, h: seq<Step>, r: Request)
    requires Constant(p.video.hlsUrl, h) && CapturedIn(p, b, h, r)
    ensures r.hlsUrl == p.video.hlsUrl
  {
    var n :| 0 <= n <= |h| && r == Captured(After(p, b, h[..n]));
    HlsUrlConstant(p, b, h[..n]);
  }

  /** For a video with HLS and a browser with HLS.js, advancing the index only loads HLS again: a direct URL is set
      only after HLS.js broke. A browser that plays HLS itself is never given another source. For a video without HLS,
      and in a browser that cannot play it, each load is direct. */
  lemma {:induction false} SourcesOfRun(hlsUrl: string, verified: bool, b: Browser, h: seq<Step>, l: Load)
    requires Constant(hlsUrl, h) && l in PlayerAfter(hlsUrl, verified, b, h).sources.loads
    ensures hlsUrl != "" && b.hlsJs ==> l.source == HlsJs(hlsUrl) || l.source == Direct(l.request.url)
    ensures hlsUrl != "" && b.hlsJs && (forall k | 0 <= k < |h| :: !h[k].HlsBreaks?) ==> l.source == HlsJs(hlsUrl)
    ensures hlsUrl != "" && !b.hlsJs && b.nativeHls ==> l.source == NativeHls(hlsUrl)
    ensures hlsUrl == "" || (!b.hlsJs && !b.nativeHls) ==>
              l.source == if l.request.verified then Fetched(l.request.url) else Direct(l.request.url)
  {
    var p := Rendered(Mounted(hlsUrl, verified));
    EveryLoadAccounted(hlsUrl, verified, b, h);
    ConstantCaptures(p, b, h, l.request);
    if forall k | 0 <= k < |h| :: !h[k].HlsBreaks? { NoneBroken(p, b, h, l); }
  }

  lemma {:induction false} UnbrokenStep(p: Player, b: Browser, step: Step)
    requires !step.HlsBreaks?
    ensures forall l | l in Next(p, b, step).sources.loads ::
              l in p.sources.loads || Chosen(b, l.request) == Some(l.source)
  {
    hide DependenciesOf;
  }

  lemma {:induction false} NoneBroken(p: Player, b: Browser, h: seq<Step>, l: Load)
    requires p.sources.loads == [] && l in After(p, b, h).sources.loads && forall k | 0 <= k < |h| :: !h[k].HlsBreaks?
    ensures Chosen(b, l.request) == Some(l.source)
  {
    if h != [] {
      var g := h[..|h| - 1];
      UnbrokenStep(After(p, b, g), b, h[|h| - 1]);
      hide Next, Chosen;
      if l in After(p, b, g).sources.loads { NoneBroken(p, b, g, l); }
    }
  }

  /** What an update does to the pending runs and to the loads */
  lemma {:induction false} UpdateMoves(p: Player, b: Browser, step: Step)
    ensures var u := Updated(p, b, step);
            && u.sources.runs == p.sources.runs && u.sources.seen == p.sources.seen
            && p.sources.loads <= u.sources.loads
            && u.sources.pending ==
                 if step.Answer? && step.k < |p.sources.pending|
                 then p.sources.pending[..step.k] + p.sources.pending[step.k + 1..] else p.sources.pending
  {
    hide Initialized, Failed, AgeVerified, Chosen, Checked, Aborted;
    if step.Failure? || step.NewUrls? || step.AgeConfirmed? { OthersKeepSources(p, b, step); }
  }
}
