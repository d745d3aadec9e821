/**
  The caches of frontend-mobile/mobile/web/sw.js: the handlers of the fetch event, their background updates and the
  clearing of the caches, interleaved at every await.

  A cache that was deleted by name lives on in the handlers that hold it, as the Service Workers specification says.
 */
module ServiceWorker {
  import opened Options

  type Request = string

  /** `tag` tells apart the responses that the network gives over time. */
  datatype Response = Response(ok: bool, tag: nat)

  datatype Exchange = Exchange(request: Request, response: Response)

  datatype CacheName = FlutterCache | ApiCache

  /** Which handler answers: cache first with background update for assets and fonts, cache first for images,
      network first for the API */
  datatype Kind = Asset | Font | Image | Api

  datatype Answer =
    | FromNetwork(response: Response)
    | FromCache(response: Response)
    | NotAvailable
    | NetworkError
    | Failure

  /** Where a handler waits */
  datatype Phase =
    | Opening
    | Matching(cache: nat)
    | Fetching(cache: nat)
    | FetchingAgain
    | ApiFetching
    | ApiOpening(response: Response)
    | FallbackOpening
    | FallbackMatching(cache: nat)
    | Answered(answer: Answer)

  /** A handler, a background update of an entry, or a put that is under way */
  datatype Task =
    | Handler(kind: Kind, request: Request, phase: Phase)
    | Update(request: Request, cache: nat)
    | Putting(request: Request, response: Response, cache: nat)
    | Finished

  /** `stores` holds the contents of every cache ever opened; `named` says which of them the names denote now.
      `log` is every response the network has given. */
  datatype Worker = Worker(named: map<CacheName, nat>, stores: seq<map<Request, Response>>, tasks: seq<Task>,
                           log: set<Exchange>)

  const START := Worker(map[], [], [], {})

  /** What the environment decides at a step: the network's response, none when the request fails, and whether the
      cache storage works */
  datatype Outcome = Outcome(response: Option<Response>, storage: bool)

  datatype Step =
    | Fetch(kind: Kind, request: Request)
    | Run(i: nat, outcome: Outcome)
    | Precache(exchanges: seq<Exchange>)
    | Delete(name: CacheName)

  // ----- The caches -----

  /** caches.open: the cache of that name, a new one if there is none */
  function Opened(w: Worker, name: CacheName): (v: Worker)
    ensures name in v.named && v.tasks == w.tasks
  {
    if name in w.named then w else w.(named := w.named[name := |w.stores|], stores := w.stores + [map[]])
  }

  function Lookup(w: Worker, cache: nat, request: Request): Option<Response> {
    if cache < |w.stores| && request in w.stores[cache] then Some(w.stores[cache][request]) else None
  }

  function Stored(w: Worker, cache: nat, x: Exchange): Worker {
    if cache < |w.stores| then w.(stores := w.stores[cache := w.stores[cache][x.request := x.response]]) else w
  }

  function Logged(w: Worker, x: Exchange): Worker {
    w.(log := w.log + {x})
  }

  function WithTask(w: Worker, i: nat, task: Task): Worker
    requires i < |w.tasks|
  {
    w.(tasks := w.tasks[i := task])
  }

  function Spawned(w: Worker, task: Task): Worker {
    w.(tasks := w.tasks + [task])
  }

  // ----- One step of a task -----

  function Moved(w: Worker, i: nat, kind: Kind, request: Request, phase: Phase): Worker
    requires i < |w.tasks|
  {
    WithTask(w, i, Handler(kind, request, phase))
  }

  function HandlerStep(w: Worker, i: nat, kind: Kind, request: Request, phase: Phase, outcome: Outcome): Worker
    requires i < |w.tasks|
  {
    var broken := if kind == Asset then Answered(NotAvailable) else FetchingAgain;
    match phase
    case Opening =>
      if !outcome.storage then Moved(w, i, kind, request, broken)
      else
        var v := Opened(w, FlutterCache);
        Moved(v, i, kind, request, Matching(v.named[FlutterCache]))
    case Matching(cache) =>
      if !outcome.storage then Moved(w, i, kind, request, broken)
      else
        (match Lookup(w, cache, request)
         case Some(response) =>
           var v := Moved(w, i, kind, request, Answered(FromCache(response)));
           if kind == Image then v else Spawned(v, Update(request, cache))
         case None => Moved(w, i, kind, request, Fetching(cache)))
    case Fetching(cache) =>
      (match outcome.response
       case None => Moved(w, i, kind, request, broken)
       case Some(response) =>
         var v := Moved(Logged(w, Exchange(request, response)), i, kind, request, Answered(FromNetwork(response)));
         if response.ok then Spawned(v, Putting(request, response, cache)) else v)
    case FetchingAgain =>
      (match outcome.response
       case None => Moved(w, i, kind, request, Answered(Failure))
       case Some(response) =>
         Moved(Logged(w, Exchange(request, response)), i, kind, request, Answered(FromNetwork(response))))
    case ApiFetching =>
      (match outcome.response
       case None => Moved(w, i, kind, request, FallbackOpening)
       case Some(response) =>
         Moved(Logged(w, Exchange(request, response)), i, kind, request,
               if response.ok then ApiOpening(response) else Answered(FromNetwork(response))))
    case ApiOpening(response) =>
      if !outcome.storage then Moved(w, i, kind, request, FallbackOpening)
      else
        var v := Opened(w, ApiCache);
        Spawned(Moved(v, i, kind, request, Answered(FromNetwork(response))),
                Putting(request, response, v.named[ApiCache]))
    case FallbackOpening =>
      if !outcome.storage then Moved(w, i, kind, request, Answered(Failure))
      else
        var v := Opened(w, ApiCache);
        Moved(v, i, kind, request, FallbackMatching(v.named[ApiCache]))
    case FallbackMatching(cache) =>
      if !outcome.storage then Moved(w, i, kind, request, Answered(Failure))
      else
        (match Lookup(w, cache, request)
         case Some(response) => Moved(w, i, kind, request, Answered(FromCache(response)))
         case None => Moved(w, i, kind, request, Answered(NetworkError)))
    case Answered(_) => w
  }

  function TaskStep(w: Worker, i: nat, outcome: Outcome): Worker
    requires i < |w.tasks|
  {
    match w.tasks[i]
    case Handler(kind, request, phase) => HandlerStep(w, i, kind, request, phase, outcome)
    case Update(request, cache) =>
      (match outcome.response
       case None => WithTask(w, i, Finished)
       case Some(response) =>
         var v := WithTask(Logged(w, Exchange(request, response)), i, Finished);
         if response.ok then Spawned(v, Putting(request, response, cache)) else v)
    case Putting(request, response, cache) =>
      var v := WithTask(w, i, Finished);
      if outcome.storage then Stored(v, cache, Exchange(request, response)) else v
    case Finished => w
  }

  /** addAll stores the responses only when all of them are ok. */
  function Precached(w: Worker, exchanges: seq<Exchange>): Worker
    decreases |exchanges|
  {
    if exchanges == [] then w
    else
      var v := Precached(w, exchanges[..|exchanges| - 1]);
      var x := exchanges[|exchanges| - 1];
      if FlutterCache in v.named then Stored(Logged(v, x), v.named[FlutterCache], x) else v
  }

  function Next(w: Worker, step: Step): Worker {
    match step
    case Fetch(kind, request) =>
      Spawned(w, Handler(kind, request, if kind == Api then ApiFetching else Opening))
    case Run(i, outcome) => if i < |w.tasks| then TaskStep(w, i, outcome) else w
    case Precache(exchanges) =>
      if forall x | x in exchanges :: x.response.ok then Precached(Opened(w, FlutterCache), exchanges) else w
    case Delete(name) => w.(named := w.named - {name})
  }

  function After(w: Worker, h: seq<Step>): Worker {
    if h == [] then w else Next(After(w, h[..|h| - 1]), h[|h| - 1])
  }

  // ----- Soundness of the caches and of the answers -----

  predicate Genuine(w: Worker, request: Request, response: Response) {
    response.ok && Exchange(request, response) in w.log
  }

  /** What a task holds and answers stems from the network's answer to the same request. */
  predicate TaskSound(w: Worker, t: Task) {
    match t
    case Handler(kind, request, phase) =>
      (match phase
       case ApiOpening(response) => kind == Api && Genuine(w, request, response)
       case ApiFetching => kind == Api
       case FallbackOpening => kind == Api
       case FallbackMatching(_) => kind == Api
       case FetchingAgain => kind == Font || kind == Image
       case Answered(answer) => AnswerSound(w, kind, request, answer)
       case _ => kind != Api)
    case Putting(request, response, _) => Genuine(w, request, response)
    case _ => true
  }

  predicate AnswerSound(w: Worker, kind: Kind, request: Request, answer: Answer) {
    match answer
    case FromNetwork(response) => Exchange(request, response) in w.log
    case FromCache(response) => Genuine(w, request, response)
    case NotAvailable => kind == Asset
    case NetworkError => kind == Api
    case Failure => kind != Asset
  }

  ghost predicate StoresSound(w: Worker) {
    forall k, request | 0 <= k < |w.stores| && request in w.stores[k] :: Genuine(w, request, w.stores[k][request])
  }

  ghost predicate Sound(w: Worker) {
    StoresSound(w) && (forall t | t in w.tasks :: TaskSound(w, t))
    && forall name | name in w.named :: w.named[name] < |w.stores|
  }

  lemma {:induction false} LogGrows(w: Worker, v: Worker, t: Task)
    requires TaskSound(w, t) && w.log <= v.log
    ensures TaskSound(v, t)
  {
  }

  lemma {:induction false} OpenedSound(w: Worker, name: CacheName)
    requires Sound(w)
    ensures Sound(Opened(w, name)) && name in Opened(w, name).named && Opened(w, name).tasks == w.tasks
    ensures Opened(w, name).log == w.log
  {
    var v := Opened(w, name);
    forall t | t in v.tasks ensures TaskSound(v, t) { LogGrows(w, v, t); }
  }

  lemma {:induction false} LoggedSound(w: Worker, x: Exchange)
    requires Sound(w)
    ensures Sound(Logged(w, x))
  {
    var v := Logged(w, x);
    forall t | t in v.tasks ensures TaskSound(v, t) { LogGrows(w, v, t); }
  }

  lemma {:induction false} StoredSound(w: Worker, cache: nat, x: Exchange)
    requires Sound(w) && Genuine(w, x.request, x.response)
    ensures Sound(Stored(w, cache, x))
  {
    var v := Stored(w, cache, x);
    forall t | t in v.tasks ensures TaskSound(v, t) { LogGrows(w, v, t); }
  }

  lemma {:induction false} WithTaskSound(w: Worker, i: nat, task: Task)
    requires Sound(w) && i < |w.tasks| && TaskSound(w, task)
    ensures Sound(WithTask(w, i, task))
  {
    var v := WithTask(w, i, task);
    forall t | t in v.tasks ensures TaskSound(v, t) {
      if t in w.tasks { LogGrows(w, v, t); } else { LogGrows(w, v, task); }
    }
  }

  lemma {:induction false} SpawnedSound(w: Worker, task: Task)
    requires Sound(w) && TaskSound(w, task)
    ensures Sound(Spawned(w, task))
  {
    var v := Spawned(w, task);
    forall t | t in v.tasks ensures TaskSound(v, t) {
      if t in w.tasks { LogGrows(w, v, t); } else { LogGrows(w, v, task); }
    }
  }

  /** One handler moves on: `v` is `w` after opening a cache or logging a response. */
  lemma {:induction false} MoveSound(v: Worker, i: nat, kind: Kind, request: Request, phase: Phase)
    requires Sound(v) && i < |v.tasks| && TaskSound(v, Handler(kind, request, phase))
    ensures Sound(WithTask(v, i, Handler(kind, request, phase)))
  {
    WithTaskSound(v, i, Handler(kind, request, phase));
  }

  lemma {:induction false} LookupGenuine(w: Worker, cache: nat, request: Request)
    requires Sound(w)
    ensures Lookup(w, cache, request).Some? ==> Genuine(w, request, Lookup(w, cache, request).value)
  {
  }

  lemma {:induction false} CacheFirstSound(w: Worker, i: nat, kind: Kind, request: Request, phase: Phase,
                                           outcome: Outcome)
    requires Sound(w) && i < |w.tasks| && w.tasks[i] == Handler(kind, request, phase)
    requires phase.Opening? || phase.Matching? || phase.Fetching? || phase.FetchingAgain?
    ensures Sound(HandlerStep(w, i, kind, request, phase, outcome))
  {
    assert TaskSound(w, w.tasks[i]);
    var broken := if kind == Asset then Answered(NotAvailable) else FetchingAgain;
    assert TaskSound(w, Handler(kind, request, if phase.FetchingAgain? then phase else broken));
    match phase
    case Opening =>
      var v := Opened(w, FlutterCache);
      OpenedSound(w, FlutterCache);
      hide Sound;
      MoveSound(v, i, kind, request, Matching(v.named[FlutterCache]));
      MoveSound(w, i, kind, request, broken);
    case Matching(cache) =>
      LookupGenuine(w, cache, request);
      hide Sound;
      match Lookup(w, cache, request) {
        case Some(response) =>
          MoveSound(w, i, kind, request, Answered(FromCache(response)));
          SpawnedSound(WithTask(w, i, Handler(kind, request, Answered(FromCache(response)))), Update(request, cache));
        case None => MoveSound(w, i, kind, request, Fetching(cache));
      }
      if !outcome.storage { MoveSound(w, i, kind, request, broken); }
    case Fetching(cache) =>
      hide Sound;
      match outcome.response {
        case None => MoveSound(w, i, kind, request, broken);
        case Some(response) =>
          var v := Logged(w, Exchange(request, response));
          LoggedSound(w, Exchange(request, response));
          MoveSound(v, i, kind, request, Answered(FromNetwork(response)));
          if response.ok {
            SpawnedSound(WithTask(v, i, Handler(kind, request, Answered(FromNetwork(response)))),
                         Putting(request, response, cache));
          }
      }
    case FetchingAgain =>
      hide Sound;
      match outcome.response {
        case None => MoveSound(w, i, kind, request, Answered(Failure));
        case Some(response) =>
          LoggedSound(w, Exchange(request, response));
          MoveSound(Logged(w, Exchange(request, response)), i, kind, request, Answered(FromNetwork(response)));
      }
  }

  lemma {:induction false} NetworkFirstSound(w: Worker, i: nat, kind: Kind, request: Request, phase: Phase,
                                             outcome: Outcome)
    requires Sound(w) && i < |w.tasks| && w.tasks[i] == Handler(kind, request, phase)
    requires phase.ApiFetching? || phase.ApiOpening? || phase.FallbackOpening? || phase.FallbackMatching?
    ensures Sound(HandlerStep(w, i, kind, request, phase, outcome))
  {
    assert TaskSound(w, w.tasks[i]);
    var v := Opened(w, ApiCache);
    OpenedSound(w, ApiCache);
    match phase
    case ApiFetching =>
      hide Sound;
      match outcome.response {
        case None => MoveSound(w, i, kind, request, FallbackOpening);
        case Some(response) =>
          LoggedSound(w, Exchange(request, response));
          MoveSound(Logged(w, Exchange(request, response)), i, kind, request,
                    if response.ok then ApiOpening(response) else Answered(FromNetwork(response)));
      }
    case ApiOpening(response) =>
      hide Sound;
      if !outcome.storage {
        MoveSound(w, i, kind, request, FallbackOpening);
      } else {
        MoveSound(v, i, kind, request, Answered(FromNetwork(response)));
        SpawnedSound(WithTask(v, i, Handler(kind, request, Answered(FromNetwork(response)))),
                     Putting(request, response, v.named[ApiCache]));
      }
    case FallbackOpening =>
      hide Sound;
      if !outcome.storage { MoveSound(w, i, kind, request, Answered(Failure)); }
      else { MoveSound(v, i, kind, request, FallbackMatching(v.named[ApiCache])); }
    case FallbackMatching(cache) =>
      LookupGenuine(w, cache, request);
      hide Sound;
      if !outcome.storage {
        MoveSound(w, i, kind, request, Answered(Failure));
      } else {
        match Lookup(w, cache, request) {
          case Some(response) => MoveSound(w, i, kind, request, Answered(FromCache(response)));
          case None => MoveSound(w, i, kind, request, Answered(NetworkError));
        }
      }
  }

  lemma {:induction false} TaskStepSound(w: Worker, i: nat, outcome: Outcome)
    requires Sound(w) && i < |w.tasks|
    ensures Sound(TaskStep(w, i, outcome))
  {
    match w.tasks[i]
    case Handler(kind, request, phase) =>
      hide Sound;
      if phase.Answered? {
      } else if phase.Opening? || phase.Matching? || phase.Fetching? || phase.FetchingAgain? {
        CacheFirstSound(w, i, kind, request, phase, outcome);
      } else {
        NetworkFirstSound(w, i, kind, request, phase, outcome);
      }
    case Update(request, cache) =>
      hide Sound;
      match outcome.response {
        case None => WithTaskSound(w, i, Finished);
        case Some(response) =>
          var x := Exchange(request, response);
          LoggedSound(w, x);
          WithTaskSound(Logged(w, x), i, Finished);
          if response.ok { SpawnedSound(WithTask(Logged(w, x), i, Finished), Putting(request, response, cache)); }
      }
    case Putting(request, response, cache) =>
      assert TaskSound(w, w.tasks[i]);
      hide Sound;
      WithTaskSound(w, i, Finished);
      StoredSound(WithTask(w, i, Finished), cache, Exchange(request, response));
    case Finished =>
  }

  lemma {:induction false} PrecachedSound(w: Worker, exchanges: seq<Exchange>)
    requires Sound(w) && forall x | x in exchanges :: x.response.ok
    ensures Sound(Precached(w, exchanges))
    decreases |exchanges|
  {
    if exchanges != [] {
      hide Sound;
      PrecachedSound(w, exchanges[..|exchanges| - 1]);
      var v := Precached(w, exchanges[..|exchanges| - 1]);
      var x := exchanges[|exchanges| - 1];
      LoggedSound(v, x);
      if FlutterCache in v.named { StoredSound(Logged(v, x), v.named[FlutterCache], x); }
    }
  }

  lemma {:induction false} StepSound(w: Worker, step: Step)
    requires Sound(w)
    ensures Sound(Next(w, step))
  {
    match step
    case Fetch(kind, request) => SpawnedSound(w, Handler(kind, request, if kind == Api then ApiFetching else Opening));
    case Run(i, outcome) => if i < |w.tasks| { TaskStepSound(w, i, outcome); }
    case Precache(exchanges) =>
      OpenedSound(w, FlutterCache);
      if forall x | x in exchanges :: x.response.ok { PrecachedSound(Opened(w, FlutterCache), exchanges); }
    case Delete(name) =>
      var v := Next(w, step);
      forall t | t in v.tasks ensures TaskSound(v, t) { LogGrows(w, v, t); }
  }

  /** In every interleaving of handlers, background updates, puts and clearings: each cache entry is an ok response that
      the network gave to that very request; each answer is a network response to its request, or such an entry, or
      the 404 of an asset, or the 503 of the API, or a failure that is not an asset's. */
  lemma {:induction false} AlwaysSound(h: seq<Step>)
    ensures Sound(After(START, h))
  {
    if h != [] {
      hide Sound, Next;
      AlwaysSound(h[..|h| - 1]);
      StepSound(After(START, h[..|h| - 1]), h[|h| - 1]);
    } else {
      assert After(START, h) == START;
    }
  }

  // ----- A failing API request is answered from the cache -----

  predicate Holds(w: Worker, cache: nat, request: Request) {
    cache < |w.stores| && request in w.stores[cache]
  }

  /** Entries are overwritten but not removed, and names keep their caches, unless a cache is deleted. */
  predicate Keeps(w: Worker, v: Worker) {
    && |w.stores| <= |v.stores| && (forall k | 0 <= k < |w.stores| :: w.stores[k].Keys <= v.stores[k].Keys)
    && (forall name | name in w.named :: name in v.named && v.named[name] == w.named[name])
  }

  lemma {:induction false} OpenedKeeps(w: Worker, name: CacheName)
    ensures Keeps(w, Opened(w, name))
  {
  }

  predicate SameCaches(v: Worker, w: Worker) {
    v.stores == w.stores && v.named == w.named
  }

  /** A handler changes no entry; it may open a cache. */
  lemma {:induction false} HandlerStores(w: Worker, i: nat, kind: Kind, request: Request, phase: Phase,
                                         outcome: Outcome)
    requires i < |w.tasks|
    ensures var v := HandlerStep(w, i, kind, request, phase, outcome);
            SameCaches(v, w) || SameCaches(v, Opened(w, FlutterCache)) || SameCaches(v, Opened(w, ApiCache))
  {
    hide Opened, Lookup;
    match phase
    case Opening =>
    case Matching(_) =>
    case Fetching(_) =>
    case FetchingAgain =>
    case ApiFetching =>
    case ApiOpening(_) =>
    case FallbackOpening =>
    case FallbackMatching(_) =>
    case Answered(_) =>
  }

  lemma {:induction false} TaskStepStores(w: Worker, i: nat, outcome: Outcome)
    requires i < |w.tasks|
    ensures Keeps(w, TaskStep(w, i, outcome))
  {
    match w.tasks[i]
    case Handler(kind, request, phase) =>
      HandlerStores(w, i, kind, request, phase, outcome);
      hide HandlerStep;
      OpenedKeeps(w, FlutterCache);
      OpenedKeeps(w, ApiCache);
      hide Opened;
    case _ =>
  }

  predicate OtherTasksKept(w: Worker, v: Worker, i: nat) {
    |w.tasks| <= |v.tasks| && forall k | 0 <= k < |w.tasks| && k != i :: v.tasks[k] == w.tasks[k]
  }

  lemma {:induction false} WithTaskKeeps(w: Worker, v: Worker, i: nat, task: Task)
    requires i < |w.tasks| && v.tasks == w.tasks
    ensures OtherTasksKept(w, WithTask(v, i, task), i)
  {
  }

  lemma {:induction false} SpawnedKeeps(w: Worker, v: Worker, i: nat, task: Task, more: Task)
    requires i < |w.tasks| && v.tasks == w.tasks
    ensures OtherTasksKept(w, Spawned(WithTask(v, i, task), more), i)
  {
  }

  /** A task changes itself only, and may start another one. */
  lemma {:induction false} TaskStepTasks(w: Worker, i: nat, outcome: Outcome)
    requires i < |w.tasks|
    ensures OtherTasksKept(w, TaskStep(w, i, outcome), i)
  {
    forall v: Worker, task | v.tasks == w.tasks ensures OtherTasksKept(w, WithTask(v, i, task), i) {
      WithTaskKeeps(w, v, i, task);
    }
    forall v: Worker, task, more | v.tasks == w.tasks
      ensures OtherTasksKept(w, Spawned(WithTask(v, i, task), more), i)
    {
      SpawnedKeeps(w, v, i, task, more);
    }
    assert OtherTasksKept(w, w, i);
    hide OtherTasksKept, Opened, Lookup, WithTask, Spawned;
  }

  lemma {:induction false} PrecachedKeeps(w: Worker, exchanges: seq<Exchange>)
    ensures Keeps(w, Precached(w, exchanges)) && Precached(w, exchanges).tasks == w.tasks
    decreases |exchanges|
  {
    if exchanges != [] { PrecachedKeeps(w, exchanges[..|exchanges| - 1]); }
  }

  lemma {:induction false} StepKeeps(w: Worker, step: Step)
    requires !step.Delete?
    ensures Keeps(w, Next(w, step)) && |w.tasks| <= |Next(w, step).tasks|
    ensures forall k | 0 <= k < |w.tasks| && !(step.Run? && step.i == k) :: Next(w, step).tasks[k] == w.tasks[k]
  {
    match step
    case Run(i, outcome) => if i < |w.tasks| { TaskStepStores(w, i, outcome); TaskStepTasks(w, i, outcome); }
    case Precache(exchanges) => PrecachedKeeps(Opened(w, FlutterCache), exchanges);
    case _ =>
  }

  predicate Own(step: Step, i: nat) {
    step.Run? && step.i == i
  }

  predicate Grows(w: Worker, v: Worker) {
    |w.stores| <= |v.stores| && forall k | 0 <= k < |w.stores| :: w.stores[k].Keys <= v.stores[k].Keys
  }

  /** A step of somebody else leaves the task alone, and no step takes an entry out of a store. */
  lemma {:induction false} OthersStep(w: Worker, step: Step, i: nat)
    requires i < |w.tasks| && !Own(step, i)
    ensures var v := Next(w, step);
            && Grows(w, v) && i < |v.tasks| && v.tasks[i] == w.tasks[i]
            && (step != Delete(ApiCache) && ApiCache in w.named ==>
                  ApiCache in v.named && v.named[ApiCache] == w.named[ApiCache])
  {
    if !step.Delete? {
      StepKeeps(w, step);
      hide Next;
    }
  }

  lemma {:induction false} TaskWaits(w: Worker, i: nat, t: seq<Step>)
    requires i < |w.tasks| && forall k | 0 <= k < |t| :: !Own(t[k], i)
    ensures var v := After(w, t);
            && Grows(w, v) && i < |v.tasks| && v.tasks[i] == w.tasks[i]
            && (ApiCache in w.named && (forall k | 0 <= k < |t| :: t[k] != Delete(ApiCache)) ==>
                  ApiCache in v.named && v.named[ApiCache] == w.named[ApiCache])
  {
    if t != [] {
      TaskWaits(w, i, t[..|t| - 1]);
      OthersStep(After(w, t[..|t| - 1]), t[|t| - 1], i);
      hide Next;
    }
  }

  lemma {:induction false} AfterAppend(w: Worker, g: seq<Step>, h: seq<Step>)
    ensures After(w, g + h) == After(After(w, g), h)
  {
    if h == [] {
      assert g + h == g;
    } else {
      hide Next;
      AfterAppend(w, g, h[..|h| - 1]);
      assert (g + h)[..|g + h| - 1] == g + h[..|h| - 1] && (g + h)[|g + h| - 1] == h[|h| - 1];
    }
  }

  lemma {:induction false} AfterSplit(w: Worker, t: seq<Step>, k: nat)
    requires k < |t|
    ensures After(w, t[..k + 1]) == Next(After(w, t[..k]), t[k])
    ensures After(w, t) == After(After(w, t[..k + 1]), t[k + 1..])
  {
    hide Next;
    assert t[..k + 1][..k] == t[..k];
    AfterAppend(w, t[..k + 1], t[k + 1..]);
    assert t[..k + 1] + t[k + 1..] == t;
  }

  lemma {:induction false} AnsweredStays(w: Worker, i: nat, t: seq<Step>)
    requires i < |w.tasks| && w.tasks[i].Handler? && w.tasks[i].phase.Answered?
    ensures i < |After(w, t).tasks| && After(w, t).tasks[i] == w.tasks[i]
  {
    if t != [] {
      var u, step := After(w, t[..|t| - 1]), t[|t| - 1];
      AnsweredStays(w, i, t[..|t| - 1]);
      if !Own(step, i) {
        OthersStep(u, step, i);
        hide Next;
      }
    }
  }

  predicate ServesApi(w: Worker, i: nat, request: Request, phase: Phase) {
    i < |w.tasks| && w.tasks[i] == Handler(Api, request, phase)
  }

  /** The answer of the two steps that follow a failed fetch: open the cache, then match */
  function Fallback(openOk: bool, matchOk: bool, entry: Option<Response>): Answer {
    if !openOk || !matchOk then Failure
    else match entry
         case Some(response) => FromCache(response)
         case None => NetworkError
  }

  lemma {:induction false} OpenStep(w: Worker, i: nat, request: Request, outcome: Outcome)
    requires ServesApi(w, i, request, FallbackOpening)
    ensures var v := TaskStep(w, i, outcome);
            if outcome.storage then
              ServesApi(v, i, request, FallbackMatching(Opened(w, ApiCache).named[ApiCache])) && Grows(w, v)
            else ServesApi(v, i, request, Answered(Failure))
  {
  }

  lemma {:induction false} MatchStep(w: Worker, i: nat, request: Request, cache: nat, outcome: Outcome)
    requires ServesApi(w, i, request, FallbackMatching(cache))
    ensures ServesApi(TaskStep(w, i, outcome), i, request,
                      Answered(Fallback(true, outcome.storage, Lookup(w, cache, request))))
  {
  }

  /** The cache that the handler opens at step a, and the entry that it finds there at step b */
  function OpenedAt(w: Worker, t: seq<Step>, a: nat): nat
    requires a <= |t|
  {
    Opened(After(w, t[..a]), ApiCache).named[ApiCache]
  }

  function EntryAt(w: Worker, t: seq<Step>, a: nat, b: nat, request: Request): Option<Response>
    requires a <= b <= |t|
  {
    Lookup(After(w, t[..b]), OpenedAt(w, t, a), request)
  }

  /** The handler's first two steps are a and b. */
  predicate FirstTwo(t: seq<Step>, i: nat, a: nat, b: nat) {
    a < b < |t| && Own(t[a], i) && Own(t[b], i) && forall k | 0 <= k < b && k != a :: !Own(t[k], i)
  }

  lemma {:induction false} ReachesMatch(w: Worker, i: nat, request: Request, t: seq<Step>, a: nat, b: nat)
    requires ServesApi(w, i, request, FallbackOpening) && FirstTwo(t, i, a, b)
    ensures ServesApi(After(w, t[..b]), i, request,
                      if t[a].outcome.storage then FallbackMatching(OpenedAt(w, t, a)) else Answered(Failure))
    ensures t[a].outcome.storage ==> Grows(After(w, t[..a]), After(w, t[..b]))
  {
    var g := t[..b];
    assert g[..a] == t[..a] && g[a] == t[a];
    assert forall k | 0 <= k < a :: t[..a][k] == t[k];
    TaskWaits(w, i, t[..a]);
    OpenStep(After(w, t[..a]), i, request, t[a].outcome);
    AfterSplit(w, g, a);
    hide After, TaskStep, Opened;
    var rest := g[a + 1..];
    forall k | 0 <= k < |rest| ensures !Own(rest[k], i) { assert rest[k] == t[a + 1 + k]; }
    TaskWaits(After(w, g[..a + 1]), i, rest);
  }

  /** A failing API request is answered when its handler has taken two steps, however everything else interleaves
      and whatever caches are deleted: from the entry that the opened cache holds for it at the match, with the 503
      exactly when it holds none, and not at all only when the storage fails. */
  lemma {:induction false} FailingApiAnswered(w: Worker, i: nat, request: Request, t: seq<Step>, a: nat, b: nat)
    requires ServesApi(w, i, request, FallbackOpening) && FirstTwo(t, i, a, b)
    ensures ServesApi(After(w, t), i, request,
                      Answered(Fallback(t[a].outcome.storage, t[b].outcome.storage, EntryAt(w, t, a, b, request))))
  {
    ReachesMatch(w, i, request, t, a, b);
    AfterSplit(w, t, b);
    var u := After(w, t[..b]);
    assert Next(u, t[b]) == TaskStep(u, i, t[b].outcome);
    if t[a].outcome.storage { MatchStep(u, i, request, OpenedAt(w, t, a), t[b].outcome); }
    hide After, TaskStep, Opened, Lookup;
    AnsweredStays(TaskStep(u, i, t[b].outcome), i, t[b + 1..]);
  }

  /** Whenever the API cache has an entry when the handler opens it, the request is answered from the cache: entries are
      overwritten but never removed from a cache that somebody holds, even when the cache is deleted by name. */
  lemma {:induction false} EntryAnswers(w: Worker, i: nat, request: Request, t: seq<Step>, a: nat, b: nat)
    requires ServesApi(w, i, request, FallbackOpening) && FirstTwo(t, i, a, b)
    requires t[a].outcome.storage && t[b].outcome.storage
    requires var u := After(w, t[..a]); ApiCache in u.named && Holds(u, u.named[ApiCache], request)
    ensures EntryAt(w, t, a, b, request).Some?
    ensures ServesApi(After(w, t), i, request, Answered(FromCache(EntryAt(w, t, a, b, request).value)))
  {
    ReachesMatch(w, i, request, t, a, b);
    FailingApiAnswered(w, i, request, t, a, b);
    hide After;
  }

  /** In particular when the entry was there as the fetch failed and the API cache is not deleted before it is
      opened. */
  lemma {:induction false} EntryAtFailureAnswers(w: Worker, i: nat, request: Request, t: seq<Step>, a: nat, b: nat)
    requires ServesApi(w, i, request, FallbackOpening) && FirstTwo(t, i, a, b)
    requires t[a].outcome.storage && t[b].outcome.storage
    requires ApiCache in w.named && Holds(w, w.named[ApiCache], request)
    requires forall k | 0 <= k < a :: t[k] != Delete(ApiCache)
    ensures EntryAt(w, t, a, b, request).Some?
    ensures ServesApi(After(w, t), i, request, Answered(FromCache(EntryAt(w, t, a, b, request).value)))
  {
    TaskWaits(w, i, t[..a]);
    hide After;
    EntryAnswers(w, i, request, t, a, b);
  }
}
