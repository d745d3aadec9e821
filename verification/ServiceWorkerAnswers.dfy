/**
  What the handlers of frontend-mobile/mobile/web/sw.js answer, in every interleaving, and what comes into the caches.
  A run of the worker is cut at the handler's own steps; everything else may come between them, clearing included.
 */
module ServiceWorkerAnswers {
  import opened Options
  import opened ServiceWorker

  predicate Serves(w: Worker, i: nat, kind: Kind, request: Request, phase: Phase) {
    i < |w.tasks| && w.tasks[i] == Handler(kind, request, phase)
  }

  /** Steps of others */
  predicate Others(i: nat, h: seq<Step>) {
    forall k | 0 <= k < |h| :: !Own(h[k], i)
  }

  /** The state after a step of task i that comes after the steps h */
  function Then(w: Worker, h: seq<Step>, i: nat, outcome: Outcome): Worker {
    Next(After(w, h), Run(i, outcome))
  }

  lemma {:induction false} Waits(w: Worker, i: nat, kind: Kind, request: Request, phase: Phase, h: seq<Step>,
                                 outcome: Outcome)
    requires Serves(w, i, kind, request, phase) && Others(i, h)
    ensures Serves(After(w, h), i, kind, request, phase)
    ensures Then(w, h, i, outcome) == HandlerStep(After(w, h), i, kind, request, phase, outcome)
  {
    hide HandlerStep, After;
    TaskWaits(w, i, h);
  }

  lemma {:induction false} Stays(w: Worker, i: nat, kind: Kind, request: Request, answer: Answer, t: seq<Step>)
    requires Serves(w, i, kind, request, Answered(answer))
    ensures Serves(After(w, t), i, kind, request, Answered(answer))
  {
    hide After;
    AnsweredStays(w, i, t);
  }

  /** Only the task itself changes, and these tasks are started. */
  predicate Starts(u: Worker, v: Worker, i: nat, kind: Kind, request: Request, phase: Phase, more: seq<Task>) {
    i < |u.tasks| && v.tasks == u.tasks[i := Handler(kind, request, phase)] + more
  }

  // ----- Cache first: assets, fonts and images -----

  /** The cache that the handler's first step opens */
  function OpenedBy(w: Worker, h: seq<Step>): nat {
    Opened(After(w, h), FlutterCache).named[FlutterCache]
  }

  lemma {:induction false} OpenedThen(w: Worker, i: nat, kind: Kind, request: Request, h: seq<Step>, o: Outcome)
    requires Serves(w, i, kind, request, Opening) && Others(i, h) && o.storage
    ensures Serves(Then(w, h, i, o), i, kind, request, Matching(OpenedBy(w, h)))
  {
    hide Opened, After;
    Waits(w, i, kind, request, Opening, h, o);
  }

  /** What the background starts on a hit */
  function OnHit(kind: Kind, request: Request, cache: nat): seq<Task> {
    if kind == Asset || kind == Font then [Update(request, cache)] else []
  }

  lemma {:induction false} MatchedThen(w: Worker, i: nat, kind: Kind, request: Request, cache: nat, h: seq<Step>,
                                       o: Outcome)
    requires Serves(w, i, kind, request, Matching(cache)) && Others(i, h) && o.storage && kind != Api
    ensures var entry := Lookup(After(w, h), cache, request);
            if entry.Some? then
              Starts(After(w, h), Then(w, h, i, o), i, kind, request, Answered(FromCache(entry.value)),
                     OnHit(kind, request, cache))
            else Starts(After(w, h), Then(w, h, i, o), i, kind, request, Fetching(cache), [])
  {
    hide Lookup, After;
    Waits(w, i, kind, request, Matching(cache), h, o);
    assert forall s: seq<Task> :: s + [] == s;
  }

  lemma {:induction false} StartedServes(u: Worker, v: Worker, i: nat, kind: Kind, request: Request, phase: Phase,
                                         more: seq<Task>)
    requires Starts(u, v, i, kind, request, phase, more)
    ensures Serves(v, i, kind, request, phase)
  {
  }

  /** If the opened cache holds the request when it is matched, that entry is the answer, and an update in the
      background is started exactly for assets and fonts. */
  lemma {:induction false} HitIsServed(w: Worker, i: nat, kind: Kind, request: Request, g: seq<Step>, o: Outcome,
                                       h: seq<Step>, p: Outcome, t: seq<Step>)
    requires Serves(w, i, kind, request, Opening) && kind != Api && Others(i, g) && Others(i, h)
    requires o.storage && p.storage
    requires Lookup(After(Then(w, g, i, o), h), OpenedBy(w, g), request).Some?
    ensures var v, cache := Then(w, g, i, o), OpenedBy(w, g);
            var entry := FromCache(Lookup(After(v, h), cache, request).value);
            && Serves(After(Then(v, h, i, p), t), i, kind, request, Answered(entry))
            && Starts(After(v, h), Then(v, h, i, p), i, kind, request, Answered(entry), OnHit(kind, request, cache))
  {
    hide Then, After, Lookup, OpenedBy, OnHit, Starts;
    var v, cache := Then(w, g, i, o), OpenedBy(w, g);
    OpenedThen(w, i, kind, request, g, o);
    MatchedThen(v, i, kind, request, cache, h, p);
    var answer := FromCache(Lookup(After(v, h), cache, request).value);
    StartedServes(After(v, h), Then(v, h, i, p), i, kind, request, Answered(answer), OnHit(kind, request, cache));
    Stays(Then(v, h, i, p), i, kind, request, answer, t);
  }

  lemma {:induction false} FetchedThen(w: Worker, i: nat, kind: Kind, request: Request, cache: nat, h: seq<Step>,
                                       o: Outcome)
    requires Serves(w, i, kind, request, Fetching(cache)) && Others(i, h) && kind != Api
    ensures match o.response
            case Some(r) =>
              Starts(After(w, h), Then(w, h, i, o), i, kind, request, Answered(FromNetwork(r)),
                     if r.ok then [Putting(request, r, cache)] else [])
            case None =>
              Starts(After(w, h), Then(w, h, i, o), i, kind, request,
                     if kind == Asset then Answered(NotAvailable) else FetchingAgain, [])
  {
    hide Lookup, After;
    Waits(w, i, kind, request, Fetching(cache), h, o);
    assert forall s: seq<Task> :: s + [] == s;
  }

  /** If it does not, the network's response is the answer, and is put into that cache exactly when it is ok. */
  lemma {:induction false} MissIsFetched(w: Worker, i: nat, kind: Kind, request: Request, g: seq<Step>, o: Outcome,
                                         h: seq<Step>, p: Outcome, f: seq<Step>, q: Outcome, t: seq<Step>)
    requires Serves(w, i, kind, request, Opening) && kind != Api && Others(i, g) && Others(i, h) && Others(i, f)
    requires o.storage && p.storage && q.response.Some?
    requires Lookup(After(Then(w, g, i, o), h), OpenedBy(w, g), request).None?
    ensures var u := Then(Then(w, g, i, o), h, i, p); var r := q.response.value;
            && Serves(After(Then(u, f, i, q), t), i, kind, request, Answered(FromNetwork(r)))
            && Starts(After(u, f), Then(u, f, i, q), i, kind, request, Answered(FromNetwork(r)),
                      if r.ok then [Putting(request, r, OpenedBy(w, g))] else [])
  {
    hide Then, After, Lookup, OpenedBy, OnHit, Starts;
    var v, cache := Then(w, g, i, o), OpenedBy(w, g);
    OpenedThen(w, i, kind, request, g, o);
    MatchedThen(v, i, kind, request, cache, h, p);
    var u := Then(v, h, i, p);
    StartedServes(After(v, h), u, i, kind, request, Fetching(cache), []);
    FetchedThen(u, i, kind, request, cache, f, q);
    var r := q.response.value;
    StartedServes(After(u, f), Then(u, f, i, q), i, kind, request, Answered(FromNetwork(r)),
                  if r.ok then [Putting(request, r, cache)] else []);
    Stays(Then(u, f, i, q), i, kind, request, FromNetwork(r), t);
  }

  /** Where a failure can come: the storage at the opening or at the match, or the network at the fetch */
  predicate CanFail(phase: Phase, o: Outcome) {
    match phase
    case Opening => !o.storage
    case Matching(_) => !o.storage
    case Fetching(_) => o.response.None?
    case _ => false
  }

  lemma {:induction false} FailedThen(w: Worker, i: nat, kind: Kind, request: Request, phase: Phase, h: seq<Step>,
                                      o: Outcome)
    requires Serves(w, i, kind, request, phase) && kind != Api && Others(i, h) && CanFail(phase, o)
    ensures Serves(Then(w, h, i, o), i, kind, request,
                   if kind == Asset then Answered(NotAvailable) else FetchingAgain)
  {
    hide Lookup, Opened, After;
    Waits(w, i, kind, request, phase, h, o);
  }

  /** Whatever fails, an asset is answered with the 404. */
  lemma {:induction false} FailingAssetAnswered(w: Worker, i: nat, request: Request, phase: Phase, h: seq<Step>,
                                                o: Outcome, t: seq<Step>)
    requires Serves(w, i, Asset, request, phase) && Others(i, h) && CanFail(phase, o)
    ensures Serves(After(Then(w, h, i, o), t), i, Asset, request, Answered(NotAvailable))
  {
    hide After, Then, CanFail;
    FailedThen(w, i, Asset, request, phase, h, o);
    Stays(Then(w, h, i, o), i, Asset, request, NotAvailable, t);
  }

  lemma {:induction false} AgainThen(w: Worker, i: nat, kind: Kind, request: Request, h: seq<Step>, o: Outcome)
    requires Serves(w, i, kind, request, FetchingAgain) && Others(i, h)
    ensures Starts(After(w, h), Then(w, h, i, o), i, kind, request,
                   Answered(if o.response.Some? then FromNetwork(o.response.value) else Failure), [])
  {
    hide Lookup, Opened, After;
    Waits(w, i, kind, request, FetchingAgain, h, o);
    assert forall s: seq<Task> :: s + [] == s;
  }

  /** A font or an image is fetched once more; that response is the answer and is not cached, or there is none. */
  lemma {:induction false} FailingFontRetried(w: Worker, i: nat, kind: Kind, request: Request, phase: Phase,
                                              h: seq<Step>, o: Outcome, f: seq<Step>, p: Outcome, t: seq<Step>)
    requires Serves(w, i, kind, request, phase) && (kind == Font || kind == Image)
    requires Others(i, h) && CanFail(phase, o) && Others(i, f)
    ensures var v := Then(w, h, i, o);
            var answer := if p.response.Some? then FromNetwork(p.response.value) else Failure;
            && Serves(After(Then(v, f, i, p), t), i, kind, request, Answered(answer))
            && Starts(After(v, f), Then(v, f, i, p), i, kind, request, Answered(answer), [])
  {
    hide After, Then, CanFail, Starts;
    FailedThen(w, i, kind, request, phase, h, o);
    var v := Then(w, h, i, o);
    AgainThen(v, i, kind, request, f, p);
    var answer := if p.response.Some? then FromNetwork(p.response.value) else Failure;
    StartedServes(After(v, f), Then(v, f, i, p), i, kind, request, Answered(answer), []);
    Stays(Then(v, f, i, p), i, kind, request, answer, t);
  }

  // ----- Network first: the API -----

  lemma {:induction false} ApiThen(w: Worker, i: nat, request: Request, h: seq<Step>, o: Outcome)
    requires Serves(w, i, Api, request, ApiFetching) && Others(i, h)
    ensures Starts(After(w, h), Then(w, h, i, o), i, Api, request,
                   match o.response
                   case None => FallbackOpening
                   case Some(r) => if r.ok then ApiOpening(r) else Answered(FromNetwork(r)), [])
  {
    hide Lookup, Opened, After;
    Waits(w, i, Api, request, ApiFetching, h, o);
    assert forall s: seq<Task> :: s + [] == s;
  }

  lemma {:induction false} ApiOpenedThen(w: Worker, i: nat, request: Request, r: Response, h: seq<Step>, o: Outcome)
    requires Serves(w, i, Api, request, ApiOpening(r)) && Others(i, h)
    ensures var u := After(w, h);
            if o.storage then
              Starts(u, Then(w, h, i, o), i, Api, request, Answered(FromNetwork(r)),
                     [Putting(request, r, Opened(u, ApiCache).named[ApiCache])])
            else Starts(u, Then(w, h, i, o), i, Api, request, FallbackOpening, [])
  {
    hide Lookup, Opened, After;
    Waits(w, i, Api, request, ApiOpening(r), h, o);
    assert forall s: seq<Task> :: s + [] == s;
  }

  /** An API request whose fetch succeeds is answered with the network's response, at once when it is not ok, and
      otherwise when the API cache has been opened, into which it is put. */
  lemma {:induction false} ApiIsFetched(w: Worker, i: nat, request: Request, h: seq<Step>, o: Outcome, f: seq<Step>,
                                        p: Outcome, t: seq<Step>)
    requires Serves(w, i, Api, request, ApiFetching) && Others(i, h) && Others(i, f) && o.response.Some?
    ensures var v, r := Then(w, h, i, o), o.response.value;
            && (!r.ok ==> Serves(After(v, t), i, Api, request, Answered(FromNetwork(r))))
            && (r.ok && p.storage ==>
                  && Serves(After(Then(v, f, i, p), t), i, Api, request, Answered(FromNetwork(r)))
                  && Starts(After(v, f), Then(v, f, i, p), i, Api, request, Answered(FromNetwork(r)),
                            [Putting(request, r, Opened(After(v, f), ApiCache).named[ApiCache])]))
            && (r.ok && !p.storage ==> Serves(Then(v, f, i, p), i, Api, request, FallbackOpening))
  {
    hide After, Then, Starts, Opened;
    var v, r := Then(w, h, i, o), o.response.value;
    ApiThen(w, i, request, h, o);
    if r.ok {
      StartedServes(After(w, h), v, i, Api, request, ApiOpening(r), []);
      ApiOpenedThen(v, i, request, r, f, p);
      if p.storage {
        StartedServes(After(v, f), Then(v, f, i, p), i, Api, request, Answered(FromNetwork(r)),
                      [Putting(request, r, Opened(After(v, f), ApiCache).named[ApiCache])]);
        Stays(Then(v, f, i, p), i, Api, request, FromNetwork(r), t);
      } else {
        StartedServes(After(v, f), Then(v, f, i, p), i, Api, request, FallbackOpening, []);
      }
    } else {
      StartedServes(After(w, h), v, i, Api, request, Answered(FromNetwork(r)), []);
      Stays(v, i, Api, request, FromNetwork(r), t);
    }
  }

  /** If its fetch fails, the fallback begins. */
  lemma {:induction false} ApiFailsOver(w: Worker, i: nat, request: Request, h: seq<Step>, o: Outcome)
    requires Serves(w, i, Api, request, ApiFetching) && Others(i, h) && o.response.None?
    ensures ServesApi(Then(w, h, i, o), i, request, FallbackOpening)
  {
    hide After, Then, Starts;
    ApiThen(w, i, request, h, o);
    StartedServes(After(w, h), Then(w, h, i, o), i, Api, request, FallbackOpening, []);
  }

  /** The fetch event starts the handler of its kind. */
  lemma {:induction false} FetchStarts(w: Worker, kind: Kind, request: Request)
    ensures var v := Next(w, Fetch(kind, request));
            && |v.tasks| == |w.tasks| + 1 && v.stores == w.stores && v.named == w.named
            && Serves(v, |w.tasks|, kind, request, if kind == Api then ApiFetching else Opening)
  {
  }

  // ----- What comes into the caches -----

  lemma {:induction false} OtherTask(w: Worker, i: nat, h: seq<Step>)
    requires i < |w.tasks| && Others(i, h)
    ensures i < |After(w, h).tasks| && After(w, h).tasks[i] == w.tasks[i] && |w.stores| <= |After(w, h).stores|
  {
    hide After;
    TaskWaits(w, i, h);
  }

  /** A put that succeeds makes the response the entry; one that fails changes no cache. */
  lemma {:induction false} PutStores(w: Worker, i: nat, request: Request, r: Response, cache: nat, h: seq<Step>,
                                     o: Outcome)
    requires i < |w.tasks| && w.tasks[i] == Putting(request, r, cache) && Others(i, h) && cache < |w.stores|
    ensures var u, v := After(w, h), Then(w, h, i, o);
            && (o.storage ==> Lookup(v, cache, request) == Some(r))
            && (forall k: nat, other | (k != cache || other != request) || !o.storage ::
                  Lookup(v, k, other) == Lookup(u, k, other))
            && v.named == u.named && |v.tasks| == |u.tasks|
  {
    OtherTask(w, i, h);
    hide After;
  }

  /** An update in the background puts the network's response when it is ok, and otherwise does nothing. */
  lemma {:induction false} UpdatePuts(w: Worker, i: nat, request: Request, cache: nat, h: seq<Step>, o: Outcome)
    requires i < |w.tasks| && w.tasks[i] == Update(request, cache) && Others(i, h)
    ensures var u, v := After(w, h), Then(w, h, i, o);
            && v.stores == u.stores && v.named == u.named && i < |u.tasks|
            && v.tasks == u.tasks[i := Finished] +
                 (if o.response.Some? && o.response.value.ok then [Putting(request, o.response.value, cache)] else [])
  {
    OtherTask(w, i, h);
    hide After;
    assert forall s: seq<Task> :: s + [] == s;
  }

  /** The response that a list of exchanges gives last for a request */
  function LastFor(xs: seq<Exchange>, request: Request): Option<Response> {
    if xs == [] then None
    else if xs[|xs| - 1].request == request then Some(xs[|xs| - 1].response)
    else LastFor(xs[..|xs| - 1], request)
  }

  lemma {:induction false} PrecachedHolds(w: Worker, xs: seq<Exchange>, request: Request)
    requires FlutterCache in w.named && w.named[FlutterCache] < |w.stores|
    ensures var v := Precached(w, xs); var cache := w.named[FlutterCache];
            && v.named == w.named && |v.stores| == |w.stores|
            && Lookup(v, cache, request) ==
                 if LastFor(xs, request).Some? then LastFor(xs, request) else Lookup(w, cache, request)
    decreases |xs|
  {
    if xs != [] { PrecachedHolds(w, xs[..|xs| - 1], request); }
  }

  /** All the names denote caches. */
  ghost predicate Named(w: Worker) {
    forall name | name in w.named :: w.named[name] < |w.stores|
  }

  /** Installing caches all the assets, or none of them when one of the responses is not ok. */
  lemma {:induction false} PrecacheIsAllOrNone(w: Worker, xs: seq<Exchange>, request: Request)
    requires Named(w)
    ensures var v := Next(w, Precache(xs));
            if exists x :: x in xs && !x.response.ok then v == w
            else && FlutterCache in v.named
                 && (LastFor(xs, request).Some? ==>
                       Lookup(v, v.named[FlutterCache], request) == LastFor(xs, request))
  {
    PrecachedHolds(Opened(w, FlutterCache), xs, request);
  }

  /** Opening changes no cache that has a name, and makes an empty one for a name that has none. */
  lemma {:induction false} OpeningKeeps(w: Worker, name: CacheName, other: CacheName, request: Request)
    requires Named(w)
    ensures var v := Opened(w, name);
            && Named(v) && v.named.Keys == w.named.Keys + {name}
            && (other in w.named ==> Lookup(v, v.named[other], request) == Lookup(w, w.named[other], request))
            && (name !in w.named ==> Lookup(v, v.named[name], request).None?)
            && (other in w.named && name !in w.named ==> v.named[other] != v.named[name])
  {
  }

  /** A deleted cache is empty when it is opened again. */
  lemma {:induction false} DeletedIsEmpty(w: Worker, name: CacheName, request: Request)
    ensures var v := Opened(Next(w, Delete(name)), name); Lookup(v, v.named[name], request).None?
  {
  }
}
