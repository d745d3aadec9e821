/**
  What starts the search for a source over in frontend-web/src/components/VideoPlayer.tsx, what denies access, and what
  is shown meanwhile: exactly what each step of a run changes.
 */
module VideoChanges {
  import opened Options
  import opened VideoFallback

  lemma {:induction false} OneMore(hlsUrl: string, verified: bool, b: Browser, h: seq<Step>, step: Step)
    ensures Settled(PlayerAfter(hlsUrl, verified, b, h))
    ensures PlayerAfter(hlsUrl, verified, b, h + [step]) == Next(PlayerAfter(hlsUrl, verified, b, h), b, step)
  {
    AlwaysSettled(hlsUrl, verified, b, h);
    assert (h + [step])[..|h|] == h;
    hide Next, Settled;
  }

  // ----- When the effect runs -----

  /** The step changes what the effect depends on, other than the need for authorization. */
  predicate Alters(p: Player, step: Step) {
    match step
    case Failure => p.video.current < |p.video.urls| - 1
    case NewUrls(src, fallbackUrls) => src != "" || fallbackUrls != []
    case NewHls(url) => url != p.video.hlsUrl
    case Verification(verified) => verified != p.access.verified
    case NewHeader => true
    case AgeConfirmed => true
    case _ => false
  }

  /** Which of the pending runs is answered by the step */
  function Unanswered(p: Player, step: Step): seq<Request> {
    if step.Answer? && step.k < |p.sources.pending| then
      p.sources.pending[..step.k] + p.sources.pending[step.k + 1..]
    else p.sources.pending
  }

  /** The effect runs and captures exactly when the step alters something and authorization is not required. */
  predicate RunsAfter(p: Player, step: Step, q: Player) {
    var captures := Alters(p, step) && !q.access.requiresAuth;
    && q.sources.runs == p.sources.runs + (if captures then 1 else 0)
    && q.sources.pending == Unanswered(p, step) + (if captures then [Captured(q)] else [])
  }

  lemma {:induction false} RenderRuns(p: Player, u: Player, step: Step)
    requires u.sources.runs == p.sources.runs && u.sources.pending == Unanswered(p, step)
    requires u.access.requiresAuth || Settled(u) || Alters(p, step)
    requires !u.access.requiresAuth && Alters(p, step) ==> !Settled(u)
    ensures RunsAfter(p, step, Rendered(u))
  {
    hide Alters, Unanswered;
    assert forall s: seq<Request> :: s + [] == s;
  }

  /** Whether the update leaves the dependencies alone */
  lemma {:induction false} UpdateAlters(p: Player, b: Browser, step: Step)
    requires Settled(p)
    ensures var u := Updated(p, b, step);
            && (u.access.requiresAuth || Settled(u) || Alters(p, step))
            && (!u.access.requiresAuth && Alters(p, step) ==> !Settled(u))
  {
    hide Chosen, Checked, Aborted;
    UpdateMoves(p, b, step);
    if step.Answer? { AnswerLeaves(p, b, step.k, step.denied); }
    hide Answered;
  }

  lemma {:induction false} AnswerLeaves(p: Player, b: Browser, k: nat, denied: bool)
    ensures var u := Answered(p, b, k, denied);
            && u.video == p.video && u.access.verified == p.access.verified && u.access.retries == p.access.retries
            && u.access.header == p.access.header && u.sources.seen == p.sources.seen
            && (u.access.requiresAuth == p.access.requiresAuth || u.access.requiresAuth)
  {
    hide Chosen, Checked, Aborted;
  }

  /** In every run: new URLs, another HLS URL, a change of the verification, a new header function, the confirmation of
      the age and a failure that moves the index each make the effect run once, and nothing else does. */
  lemma {:induction false} EffectRunsIff(hlsUrl: string, verified: bool, b: Browser, h: seq<Step>, step: Step)
    ensures RunsAfter(PlayerAfter(hlsUrl, verified, b, h), step, PlayerAfter(hlsUrl, verified, b, h + [step]))
  {
    hide PlayerAfter, RunsAfter, Updated, Settled;
    OneMore(hlsUrl, verified, b, h, step);
    var p := PlayerAfter(hlsUrl, verified, b, h);
    UpdateAlters(p, b, step);
    UpdateMoves(p, b, step);
    RenderRuns(p, Updated(p, b, step), step);
  }

  // ----- What is captured then -----

  /** A player starts without URLs, unspent and permitted, and the effect runs once before any URL is known. */
  lemma {:induction false} StartsEmpty(hlsUrl: string, verified: bool, b: Browser)
    ensures var p := PlayerAfter(hlsUrl, verified, b, []);
            && p.video == Video([], 0, 0, hlsUrl) && !p.triedHls && !p.access.requiresAuth
            && p.access.verified == verified && p.shown == Shown(true, false, 0)
            && p.sources.loads == [] && p.sources.pending == [Request(hlsUrl, "", verified, 1)]
  {
    assert [] + [Request(hlsUrl, "", verified, 1)] == [Request(hlsUrl, "", verified, 1)];
  }

  /** src if there is one, followed by the fallback URLs */
  predicate Lists(urls: seq<string>, src: string, fallbackUrls: seq<string>) {
    var first := if src == "" then 0 else 1;
    && |urls| == first + |fallbackUrls| && (src != "" ==> urls[0] == src)
    && forall i | 0 <= i < |fallbackUrls| :: urls[first + i] == fallbackUrls[i]
  }

  /** New URLs start over at the first of them: src, and the first fallback URL when there is no src. Without any URL
      the player keeps the old list and shows the error. */
  lemma {:induction false} UrlsStartOver(hlsUrl: string, verified: bool, b: Browser, h: seq<Step>, src: string,
                                         fallbackUrls: seq<string>)
    ensures var p := PlayerAfter(hlsUrl, verified, b, h);
            var q := PlayerAfter(hlsUrl, verified, b, h + [NewUrls(src, fallbackUrls)]);
            && q.access == p.access && q.triedHls == p.triedHls && q.video.hlsUrl == p.video.hlsUrl
            && q.sources.loads == p.sources.loads
            && if src == "" && fallbackUrls == [] then q.video == p.video && q.shown == p.shown.(hasError := true)
               else && Lists(q.video.urls, src, fallbackUrls) && q.video.current == 0 && q.shown == p.shown
                    && CurrentUrl(q.video) == (if src != "" then src else fallbackUrls[0])
  {
    hide PlayerAfter, Settled;
    OneMore(hlsUrl, verified, b, h, NewUrls(src, fallbackUrls));
  }

  /** The confirmation of the age starts over at the first URL, without the need for authorization. */
  lemma {:induction false} AgeStartsOver(hlsUrl: string, verified: bool, b: Browser, h: seq<Step>)
    ensures var p := PlayerAfter(hlsUrl, verified, b, h);
            var q := PlayerAfter(hlsUrl, verified, b, h + [AgeConfirmed]);
            && q.video == p.video.(current := 0) && q.triedHls == p.triedHls
            && !q.access.requiresAuth && q.access.verified == p.access.verified
            && q.sources.runs == p.sources.runs + 1
            && q.sources.pending == p.sources.pending +
                 [Request(p.video.hlsUrl, if p.video.urls == [] then "" else p.video.urls[0], p.access.verified,
                          p.sources.runs + 1)]
            && q.shown.isLoading && !q.shown.hasError
  {
    hide PlayerAfter;
    OneMore(hlsUrl, verified, b, h, AgeConfirmed);
  }

  /** The other changes keep the list of URLs and the place in it. */
  lemma {:induction false} OthersKeepPlace(hlsUrl: string, verified: bool, b: Browser, h: seq<Step>, step: Step)
    requires !step.Failure? && !step.NewUrls? && !step.AgeConfirmed?
    ensures var p := PlayerAfter(hlsUrl, verified, b, h); var q := PlayerAfter(hlsUrl, verified, b, h + [step]);
            && q.video == (if step.NewHls? then p.video.(hlsUrl := step.url) else p.video)
            && q.access.verified == (if step.Verification? then step.verified else p.access.verified)
            && q.triedHls == p.triedHls && q.shown.reports == p.shown.reports
  {
    hide PlayerAfter, Settled, Chosen, Checked, Aborted;
    OneMore(hlsUrl, verified, b, h, step);
  }

  // ----- Authorization -----

  /** The step denies access: the network did, or the preflight check of a run that had something to ask for and was
      not verified. */
  predicate Denies(p: Player, step: Step) {
    || step.AccessLost?
    || (step.Answer? && step.denied && step.k < |p.sources.pending| && !p.sources.pending[step.k].verified
        && (p.sources.pending[step.k].hlsUrl != "" || p.sources.pending[step.k].url != ""))
  }

  /** Authorization is required from a denial until the age is confirmed. */
  lemma {:induction false} DeniedIff(hlsUrl: string, verified: bool, b: Browser, h: seq<Step>, step: Step)
    ensures var p := PlayerAfter(hlsUrl, verified, b, h); var q := PlayerAfter(hlsUrl, verified, b, h + [step]);
            && (q.access.requiresAuth <==> Denies(p, step) || (p.access.requiresAuth && !step.AgeConfirmed?))
            && (Denies(p, step) ==> q.sources.loads == p.sources.loads && q.shown == p.shown.(isLoading := false))
  {
    hide PlayerAfter, Settled, Chosen, Aborted;
    OneMore(hlsUrl, verified, b, h, step);
  }

  // ----- What is loaded -----

  /** What the browser is given for a capture: the HLS URL first, then the URL, fetched with authorization for a
      verified viewer; nothing when there is no URL it can use. */
  predicate CallsFor(b: Browser, r: Request, source: Source) {
    var hls := r.hlsUrl != "" && (b.hlsJs || b.nativeHls);
    match source
    case HlsJs(url) => hls && b.hlsJs && url == r.hlsUrl
    case NativeHls(url) => hls && !b.hlsJs && url == r.hlsUrl
    case Fetched(url) => !hls && r.verified && url == r.url && url != ""
    case Direct(url) => !hls && !r.verified && url == r.url && url != ""
  }

  lemma {:induction false} ChosenIff(b: Browser, r: Request, source: Source)
    ensures Chosen(b, r) == Some(source) <==> CallsFor(b, r, source)
  {
  }

  /** The answer to a pending run sets the source that its capture calls for, except that a run that was superseded
      fetches nothing; a fatal error of an HLS.js source sets the URL that was captured with it, if any. */
  lemma {:induction false} LoadsIff(hlsUrl: string, verified: bool, b: Browser, h: seq<Step>, step: Step, l: Load)
    ensures var p := PlayerAfter(hlsUrl, verified, b, h); var q := PlayerAfter(hlsUrl, verified, b, h + [step]);
            q.sources.loads == p.sources.loads + [l] <==>
              || (step.Answer? && step.k < |p.sources.pending| && l.request == p.sources.pending[step.k]
                  && !Denies(p, step) && CallsFor(b, l.request, l.source)
                  && !(l.source.Fetched? && (l.request.run != p.sources.runs || p.access.requiresAuth)))
              || (step.HlsBreaks? && step.n < |p.sources.loads| && p.sources.loads[step.n].source.HlsJs?
                  && l.request == p.sources.loads[step.n].request && l.request.url != ""
                  && l.source == Direct(l.request.url))
  {
    hide PlayerAfter, Settled, CallsFor, Chosen;
    OneMore(hlsUrl, verified, b, h, step);
    ChosenIff(b, l.request, l.source);
    var p := PlayerAfter(hlsUrl, verified, b, h);
    StepLoads(p, b, step, l);
  }

  lemma {:induction false} OneAppended(s: seq<Load>, l: Load, m: Load)
    ensures s != s + [l] && (s + [m] == s + [l] <==> m == l)
  {
    assert (s + [m])[|s|] == m && (s + [l])[|s|] == l;
  }

  lemma {:induction false} StepLoads(p: Player, b: Browser, step: Step, l: Load)
    ensures Next(p, b, step).sources.loads == p.sources.loads + [l] <==>
              || (step.Answer? && step.k < |p.sources.pending| && l.request == p.sources.pending[step.k]
                  && !Denies(p, step) && Chosen(b, l.request) == Some(l.source)
                  && !(l.source.Fetched? && (l.request.run != p.sources.runs || p.access.requiresAuth)))
              || (step.HlsBreaks? && step.n < |p.sources.loads| && p.sources.loads[step.n].source.HlsJs?
                  && l.request == p.sources.loads[step.n].request && l.request.url != ""
                  && l.source == Direct(l.request.url))
  {
    hide Chosen;
    RenderedSettled(Updated(p, b, step));
    hide Rendered;
    OneAppended(p.sources.loads, l, l);
    if step.Answer? && step.k < |p.sources.pending| {
      var r := p.sources.pending[step.k];
      if Chosen(b, r).Some? { OneAppended(p.sources.loads, l, Load(Chosen(b, r).value, r)); }
    } else if step.HlsBreaks? && step.n < |p.sources.loads| {
      var r := p.sources.loads[step.n].request;
      OneAppended(p.sources.loads, l, Load(Direct(r.url), r));
    }
  }

  // ----- What is shown -----

  /** The spinner and the error: data that loads end the spinner, a failed fetch shows the error, and a source that is
      set, or was superseded while it was fetched, shows the spinner and no error. */
  lemma {:induction false} ShownAfter(hlsUrl: string, verified: bool, b: Browser, h: seq<Step>, step: Step)
    requires !step.Failure? && !step.NewUrls? && !step.AgeConfirmed? && !step.AccessLost?
    ensures var p := PlayerAfter(hlsUrl, verified, b, h); var q := PlayerAfter(hlsUrl, verified, b, h + [step]);
            match step
            case LoadedData => !q.shown.isLoading && q.shown.hasError == p.shown.hasError
            case FetchFails => !q.shown.isLoading && q.shown.hasError
            case Answer(k, _) =>
              if k < |p.sources.pending| && !Denies(p, step) && Chosen(b, p.sources.pending[k]).Some? then
                q.shown.isLoading && !q.shown.hasError
              else q.shown.hasError == p.shown.hasError && (q.shown.isLoading ==> p.shown.isLoading)
            case _ => q.shown == p.shown
  {
    hide PlayerAfter, Settled, Chosen, Aborted;
    OneMore(hlsUrl, verified, b, h, step);
  }
}
