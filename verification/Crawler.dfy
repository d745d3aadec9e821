/**
  The crawler's delivery queue, after frontend-mobile/crawler/crawler.js: any number of runs of processVideoEvent and
  of submitVideoBatch are interleaved at every await. A database operation takes effect at one moment and its
  result is delivered at a later one, so each of the two is a step of its own.
 */
module Crawler {
  import opened Bags
  import opened Numbers

  type Key = string

  const BATCH_SIZE: nat := 10

  /** What extractVideoData finds: the video of a URL, identified by the URL's hash; nothing; or an exception */
  datatype Extraction = Found(video: Key) | Nothing | Throws

  datatype Event = Event(id: Key, extraction: Extraction)

  /** A queued video remembers the event it came from. */
  datatype Video = Video(id: Key, event: Key)

  datatype Stats = Stats(eventsFound: nat, newVideos: nat, duplicates: nat, apiErrors: nat)

  /** Where a run of processVideoEvent waits. Sought and the like: the operation is done, its result not delivered. */
  datatype Phase =
    | SeekingEvent
    | SoughtEvent(existing: bool)
    | MarkingEvent
    | MarkedEvent(ok: bool)
    | SeekingVideo(video: Video)
    | SoughtVideo(video: Video, existing: bool)
    | Duplicate
    | Rejected
    | NoUrl
    | New(video: Video)

  datatype Run = Run(event: Event, phase: Phase)

  /** Where a run of submitVideoBatch waits; Recording(k) stands before the insertion of row k. Requeued tells
      whether the API had accepted the batch and how many of its rows had been inserted. */
  datatype Progress =
    | Posting
    | Refused
    | Recording(k: nat)
    | Recorded(k: nat, ok: bool)
    | Delivered
    | Requeued(accepted: bool, rows: nat)

  datatype Submission = Submission(batch: seq<Video>, progress: Progress)

  datatype Crawler = Crawler(stats: Stats, queue: seq<Video>, seenEvents: set<Key>, seenVideos: set<Key>,
                             runs: seq<Run>, submissions: seq<Submission>)

  /** The crawler starts on the database that earlier sessions left. */
  function Start(seenEvents: set<Key>, seenVideos: set<Key>): Crawler {
    Crawler(Stats(0, 0, 0, 0), [], seenEvents, seenVideos, [], [])
  }

  // ----- submitVideoBatch -----

  function Submit(c: Crawler): Crawler {
    if c.queue == [] then c
    else
      var n := Min(|c.queue|, BATCH_SIZE);
      c.(queue := c.queue[n..], submissions := c.submissions + [Submission(c.queue[..n], Posting)])
  }

  datatype Reply = Accept | Refuse | NetworkError

  function WithProgress(c: Crawler, i: nat, progress: Progress): Crawler
    requires i < |c.submissions|
  {
    c.(submissions := c.submissions[i := c.submissions[i].(progress := progress)])
  }

  /** The catch block and the refusal branch put the whole batch back in front. */
  function Requeue(c: Crawler, i: nat, accepted: bool, rows: nat): Crawler
    requires i < |c.submissions|
  {
    WithProgress(c, i, Requeued(accepted, rows)).(queue := c.submissions[i].batch + c.queue,
                                                  stats := c.stats.(apiErrors := c.stats.apiErrors + 1))
  }

  /** For the insertion of a row, any other reply than Accept stands for a failing database. */
  function SubmissionStep(c: Crawler, i: nat, reply: Reply): Crawler
    requires i < |c.submissions|
  {
    var batch := c.submissions[i].batch;
    match c.submissions[i].progress
    case Posting =>
      (match reply
       case Accept => WithProgress(c, i, Recording(0))
       case Refuse => WithProgress(c, i, Refused)
       case NetworkError => Requeue(c, i, false, 0))
    case Refused => Requeue(c, i, false, 0)
    case Recording(k) =>
      if k < |batch| && reply == Accept && batch[k].id !in c.seenVideos then
        WithProgress(c, i, Recorded(k, true)).(seenVideos := c.seenVideos + {batch[k].id})
      else WithProgress(c, i, Recorded(k, false))
    case Recorded(k, ok) =>
      if !ok then Requeue(c, i, true, k)
      else if k + 1 < |batch| then WithProgress(c, i, Recording(k + 1))
      else WithProgress(c, i, Delivered)
    case _ => c
  }

  // ----- processVideoEvent -----

  function WithPhase(c: Crawler, i: nat, phase: Phase): Crawler
    requires i < |c.runs|
  {
    c.(runs := c.runs[i := c.runs[i].(phase := phase)])
  }

  function CountDuplicate(c: Crawler): Crawler {
    c.(stats := c.stats.(duplicates := c.stats.duplicates + 1))
  }

  /** The video goes last in the queue; a full queue is submitted in the same segment. */
  function Enqueue(c: Crawler, video: Video): Crawler {
    var d := c.(queue := c.queue + [video], stats := c.stats.(newVideos := c.stats.newVideos + 1));
    if |d.queue| >= BATCH_SIZE then Submit(d) else d
  }

  /** `ok` is false when the database fails; an insertion also fails when its key is present. */
  function RunStep(c: Crawler, i: nat, ok: bool): Crawler
    requires i < |c.runs|
  {
    var e := c.runs[i].event;
    match c.runs[i].phase
    case SeekingEvent => WithPhase(c, i, if ok then SoughtEvent(e.id in c.seenEvents) else Rejected)
    case SoughtEvent(existing) =>
      if existing then CountDuplicate(WithPhase(c, i, Duplicate)) else WithPhase(c, i, MarkingEvent)
    case MarkingEvent =>
      if ok && e.id !in c.seenEvents then
        WithPhase(c, i, MarkedEvent(true)).(seenEvents := c.seenEvents + {e.id})
      else WithPhase(c, i, MarkedEvent(false))
    case MarkedEvent(marked) =>
      if !marked then WithPhase(c, i, Rejected)
      else
        (match e.extraction
         case Throws => WithPhase(c, i, Rejected)
         case Nothing => WithPhase(c, i, NoUrl)
         case Found(video) => WithPhase(c, i, SeekingVideo(Video(video, e.id))))
    case SeekingVideo(video) =>
      WithPhase(c, i, if ok then SoughtVideo(video, video.id in c.seenVideos) else Rejected)
    case SoughtVideo(video, existing) =>
      if existing then CountDuplicate(WithPhase(c, i, Duplicate)) else Enqueue(WithPhase(c, i, New(video)), video)
    case _ => c
  }

  // ----- Interleavings -----

  datatype Step =
    | EventArrives(event: Event)
    | Proceed(i: nat, ok: bool)
    | Tick
    | Advance(j: nat, reply: Reply)

  function Next(c: Crawler, step: Step): Crawler {
    match step
    case EventArrives(event) =>
      c.(stats := c.stats.(eventsFound := c.stats.eventsFound + 1), runs := c.runs + [Run(event, SeekingEvent)])
    case Proceed(i, ok) => if i < |c.runs| then RunStep(c, i, ok) else c
    case Tick => Submit(c)
    case Advance(j, reply) => if j < |c.submissions| then SubmissionStep(c, j, reply) else c
  }

  function After(c: Crawler, h: seq<Step>): Crawler {
    if h == [] then c else Next(After(c, h[..|h| - 1]), h[|h| - 1])
  }

  lemma {:induction false} AfterLast(c: Crawler, h: seq<Step>)
    ensures h == [] ==> After(c, h) == c
    ensures h != [] ==> After(c, h) == Next(After(c, h[..|h| - 1]), h[|h| - 1])
  {
    hide Next;
  }

  lemma {:induction false} AfterStep(c: Crawler, h: seq<Step>, step: Step)
    ensures After(c, h + [step]) == Next(After(c, h), step)
  {
    assert (h + [step])[..|h|] == h;
  }

  // ----- What the lists of runs and submissions hold -----

  datatype Outcome = IsRunning | IsDuplicate | IsRejected | IsNoUrl | IsNew

  function OutcomeOf(r: Run): Outcome {
    match r.phase
    case Duplicate => IsDuplicate
    case Rejected => IsRejected
    case NoUrl => IsNoUrl
    case New(_) => IsNew
    case _ => IsRunning
  }

  function Tally(runs: seq<Run>): multiset<Outcome> {
    Union(seq(|runs|, k requires 0 <= k < |runs| => multiset{OutcomeOf(runs[k])}))
  }

  /** The video that a run has pushed, if it has */
  function PushedBy(r: Run): multiset<Video> {
    if r.phase.New? then multiset{r.phase.video} else multiset{}
  }

  function Pushed(runs: seq<Run>): multiset<Video> {
    Union(seq(|runs|, k requires 0 <= k < |runs| => PushedBy(runs[k])))
  }

  /** A batch that has left the queue and neither come back nor been recorded in full */
  function InFlightOf(s: Submission): multiset<Video> {
    if s.progress.Delivered? || s.progress.Requeued? then multiset{} else multiset(s.batch)
  }

  function InFlight(submissions: seq<Submission>): multiset<Video> {
    Union(seq(|submissions|, k requires 0 <= k < |submissions| => InFlightOf(submissions[k])))
  }

  function DeliveredBy(s: Submission): multiset<Video> {
    if s.progress.Delivered? then multiset(s.batch) else multiset{}
  }

  function AllDelivered(submissions: seq<Submission>): multiset<Video> {
    Union(seq(|submissions|, k requires 0 <= k < |submissions| => DeliveredBy(submissions[k])))
  }

  function FailureOf(s: Submission): multiset<()> {
    if s.progress.Requeued? then multiset{()} else multiset{}
  }

  function Failures(submissions: seq<Submission>): multiset<()> {
    Union(seq(|submissions|, k requires 0 <= k < |submissions| => FailureOf(submissions[k])))
  }

  lemma {:induction false} RunsAppend(runs: seq<Run>, r: Run)
    ensures Tally(runs + [r]) == Tally(runs) + multiset{OutcomeOf(r)}
    ensures Pushed(runs + [r]) == Pushed(runs) + PushedBy(r)
  {
    var s := runs + [r];
    var t := seq(|runs|, k requires 0 <= k < |runs| => multiset{OutcomeOf(runs[k])});
    var p := seq(|runs|, k requires 0 <= k < |runs| => PushedBy(runs[k]));
    assert seq(|s|, k requires 0 <= k < |s| => multiset{OutcomeOf(s[k])}) == t + [multiset{OutcomeOf(r)}];
    assert seq(|s|, k requires 0 <= k < |s| => PushedBy(s[k])) == p + [PushedBy(r)];
    UnionAppend(t, multiset{OutcomeOf(r)});
    UnionAppend(p, PushedBy(r));
  }

  lemma {:induction false} RunsUpdate(runs: seq<Run>, i: nat, r: Run)
    requires i < |runs|
    ensures Tally(runs[i := r]) + multiset{OutcomeOf(runs[i])} == Tally(runs) + multiset{OutcomeOf(r)}
    ensures Pushed(runs[i := r]) + PushedBy(runs[i]) == Pushed(runs) + PushedBy(r)
  {
    var s := runs[i := r];
    var t := seq(|runs|, k requires 0 <= k < |runs| => multiset{OutcomeOf(runs[k])});
    var p := seq(|runs|, k requires 0 <= k < |runs| => PushedBy(runs[k]));
    assert seq(|s|, k requires 0 <= k < |s| => multiset{OutcomeOf(s[k])}) == t[i := multiset{OutcomeOf(r)}];
    assert seq(|s|, k requires 0 <= k < |s| => PushedBy(s[k])) == p[i := PushedBy(r)];
    UnionUpdate(t, i, multiset{OutcomeOf(r)});
    UnionUpdate(p, i, PushedBy(r));
  }

  lemma {:induction false} SubmissionsAppend(ss: seq<Submission>, x: Submission)
    ensures InFlight(ss + [x]) == InFlight(ss) + InFlightOf(x)
    ensures AllDelivered(ss + [x]) == AllDelivered(ss) + DeliveredBy(x)
    ensures Failures(ss + [x]) == Failures(ss) + FailureOf(x)
  {
    var s := ss + [x];
    var f := seq(|ss|, k requires 0 <= k < |ss| => InFlightOf(ss[k]));
    var d := seq(|ss|, k requires 0 <= k < |ss| => DeliveredBy(ss[k]));
    var e := seq(|ss|, k requires 0 <= k < |ss| => FailureOf(ss[k]));
    assert seq(|s|, k requires 0 <= k < |s| => InFlightOf(s[k])) == f + [InFlightOf(x)];
    assert seq(|s|, k requires 0 <= k < |s| => DeliveredBy(s[k])) == d + [DeliveredBy(x)];
    assert seq(|s|, k requires 0 <= k < |s| => FailureOf(s[k])) == e + [FailureOf(x)];
    UnionAppend(f, InFlightOf(x));
    UnionAppend(d, DeliveredBy(x));
    UnionAppend(e, FailureOf(x));
  }

  lemma {:induction false} SubmissionsUpdate(ss: seq<Submission>, i: nat, x: Submission)
    requires i < |ss|
    ensures InFlight(ss[i := x]) + InFlightOf(ss[i]) == InFlight(ss) + InFlightOf(x)
    ensures AllDelivered(ss[i := x]) + DeliveredBy(ss[i]) == AllDelivered(ss) + DeliveredBy(x)
    ensures Failures(ss[i := x]) + FailureOf(ss[i]) == Failures(ss) + FailureOf(x)
  {
    var s := ss[i := x];
    var f := seq(|ss|, k requires 0 <= k < |ss| => InFlightOf(ss[k]));
    var d := seq(|ss|, k requires 0 <= k < |ss| => DeliveredBy(ss[k]));
    var e := seq(|ss|, k requires 0 <= k < |ss| => FailureOf(ss[k]));
    assert seq(|s|, k requires 0 <= k < |s| => InFlightOf(s[k])) == f[i := InFlightOf(x)];
    assert seq(|s|, k requires 0 <= k < |s| => DeliveredBy(s[k])) == d[i := DeliveredBy(x)];
    assert seq(|s|, k requires 0 <= k < |s| => FailureOf(s[k])) == e[i := FailureOf(x)];
    UnionUpdate(f, i, InFlightOf(x));
    UnionUpdate(d, i, DeliveredBy(x));
    UnionUpdate(e, i, FailureOf(x));
  }

  // ----- Conservation -----

  /** Every video ever pushed is in the queue, in a batch under way, or in a batch that was recorded row by row. */
  ghost predicate Conserved(c: Crawler) {
    Pushed(c.runs) == multiset(c.queue) + InFlight(c.submissions) + AllDelivered(c.submissions)
  }

  ghost predicate Counted(c: Crawler) {
    && c.stats.eventsFound == |c.runs|
    && c.stats.newVideos == |Pushed(c.runs)| == Tally(c.runs)[IsNew]
    && c.stats.duplicates == Tally(c.runs)[IsDuplicate]
    && c.stats.apiErrors == |Failures(c.submissions)|
  }

  lemma {:induction false} TakeAndDrop(q: seq<Video>, n: nat)
    requires n <= |q|
    ensures multiset(q[..n]) + multiset(q[n..]) == multiset(q)
  {
    assert q[..n] + q[n..] == q;
  }

  lemma {:induction false} SubmitConserves(c: Crawler)
    requires Conserved(c) && Counted(c)
    ensures Conserved(Submit(c)) && Counted(Submit(c))
  {
    if c.queue != [] {
      var n := Min(|c.queue|, BATCH_SIZE);
      TakeAndDrop(c.queue, n);
      SubmissionsAppend(c.submissions, Submission(c.queue[..n], Posting));
      hide Pushed, InFlight, AllDelivered, Failures, Tally;
    }
  }

  /** One submission changes from holding a in flight and b delivered to a' and b'; `back` returns to the queue. */
  lemma {:induction false} MoveBalance<T>(q: multiset<T>, back: multiset<T>, f: multiset<T>, d: multiset<T>,
                                          f': multiset<T>, d': multiset<T>,
                                          a: multiset<T>, b: multiset<T>, a': multiset<T>, b': multiset<T>)
    requires f' + a == f + a' && d' + b == d + b' && a + b == a' + b' + back
    ensures (back + q) + f' + d' == q + f + d
  {
    forall x: T ensures ((back + q) + f' + d')[x] == (q + f + d)[x] {
      assert (f' + a)[x] == (f + a')[x] && (d' + b)[x] == (d + b')[x] && (a + b)[x] == (a' + b' + back)[x];
    }
  }

  /** The submission i takes another progress, and `back` goes in front of the queue. */
  function Moved(c: Crawler, i: nat, progress: Progress, back: seq<Video>): Crawler
    requires i < |c.submissions|
  {
    WithProgress(c, i, progress).(queue := back + c.queue)
  }

  predicate Finished(progress: Progress) {
    progress.Delivered? || progress.Requeued?
  }

  lemma {:induction false} MovedConserves(c: Crawler, i: nat, progress: Progress, back: seq<Video>)
    requires i < |c.submissions| && !Finished(c.submissions[i].progress)
    requires back == if progress.Requeued? then c.submissions[i].batch else []
    requires Conserved(c)
    ensures Conserved(Moved(c, i, progress, back))
  {
    hide Pushed, InFlight, AllDelivered, Failures;
    var x, y := c.submissions[i], c.submissions[i].(progress := progress);
    var z := c.submissions[i := y];
    var q, f, d := multiset(c.queue), InFlight(c.submissions), AllDelivered(c.submissions);
    assert multiset(back + c.queue) + InFlight(z) + AllDelivered(z) == q + f + d by {
      SubmissionsUpdate(c.submissions, i, y);
      var a, b, a', b' := InFlightOf(x), DeliveredBy(x), InFlightOf(y), DeliveredBy(y);
      assert a + b == a' + b' + multiset(back);
      hide *;
      MoveBalance(q, multiset(back), f, d, InFlight(z), AllDelivered(z), a, b, a', b');
    }
  }

  lemma {:induction false} MovedCounts(c: Crawler, i: nat, progress: Progress)
    requires i < |c.submissions| && !Finished(c.submissions[i].progress) && Counted(c)
    ensures |Failures(WithProgress(c, i, progress).submissions)| ==
            c.stats.apiErrors + if progress.Requeued? then 1 else 0
  {
    var x, y := c.submissions[i], c.submissions[i].(progress := progress);
    SubmissionsUpdate(c.submissions, i, y);
    assert |Failures(c.submissions[i := y]) + FailureOf(x)| == |Failures(c.submissions) + FailureOf(y)|;
    hide Failures, Pushed, Tally;
  }

  /** What a step of a submission comes to */
  lemma {:induction false} SubmissionStepMoves(c: Crawler, i: nat, reply: Reply)
    requires i < |c.submissions|
    ensures var d := SubmissionStep(c, i, reply);
            var p := d.submissions[i].progress;
            if Finished(c.submissions[i].progress) then d == c
            else d == Moved(c, i, p, if p.Requeued? then c.submissions[i].batch else []).(
                        seenVideos := d.seenVideos,
                        stats := c.stats.(apiErrors := c.stats.apiErrors + if p.Requeued? then 1 else 0))
  {
    assert [] + c.queue == c.queue;
  }

  lemma {:induction false} SubmissionStepConserves(c: Crawler, i: nat, reply: Reply)
    requires i < |c.submissions| && Conserved(c) && Counted(c)
    ensures Conserved(SubmissionStep(c, i, reply)) && Counted(SubmissionStep(c, i, reply))
  {
    SubmissionStepMoves(c, i, reply);
    if !Finished(c.submissions[i].progress) {
      var p := SubmissionStep(c, i, reply).submissions[i].progress;
      MovedConserves(c, i, p, if p.Requeued? then c.submissions[i].batch else []);
      MovedCounts(c, i, p);
      hide Pushed, InFlight, AllDelivered, Failures, Tally, SubmissionStep;
    }
  }

  lemma {:induction false} PhaseTally(c: Crawler, i: nat, phase: Phase)
    requires i < |c.runs| && OutcomeOf(c.runs[i]) == IsRunning
    ensures var d := WithPhase(c, i, phase); var r := d.runs[i];
            && Pushed(d.runs) == Pushed(c.runs) + PushedBy(r)
            && (forall o | o != IsRunning :: Tally(d.runs)[o] == Tally(c.runs)[o] + if OutcomeOf(r) == o then 1 else 0)
  {
    var r := c.runs[i].(phase := phase);
    RunsUpdate(c.runs, i, r);
    var t, t' := Tally(c.runs), Tally(c.runs[i := r]);
    hide Pushed, Tally;
    forall o | o != IsRunning ensures t'[o] == t[o] + if OutcomeOf(r) == o then 1 else 0 {
      assert (t' + multiset{IsRunning})[o] == (t + multiset{OutcomeOf(r)})[o];
    }
  }

  /** What a step of a run comes to */
  lemma {:induction false} RunStepMoves(c: Crawler, i: nat, ok: bool)
    requires i < |c.runs|
    ensures var p := RunStep(c, i, ok).runs[i].phase;
            var d := WithPhase(c, i, p).(seenEvents := RunStep(c, i, ok).seenEvents);
            if OutcomeOf(c.runs[i]) != IsRunning then RunStep(c, i, ok) == c
            else RunStep(c, i, ok) == match p
                                      case New(video) => Enqueue(d, video)
                                      case Duplicate => CountDuplicate(d)
                                      case _ => d
  {
  }

  lemma {:induction false} EnqueueConserves(c: Crawler, d: Crawler, video: Video)
    requires Conserved(c) && Counted(c)
    requires d.queue == c.queue && d.submissions == c.submissions && d.stats == c.stats && |d.runs| == |c.runs|
    requires Pushed(d.runs) == Pushed(c.runs) + multiset{video}
    requires Tally(d.runs)[IsNew] == Tally(c.runs)[IsNew] + 1
    requires Tally(d.runs)[IsDuplicate] == Tally(c.runs)[IsDuplicate]
    ensures Conserved(Enqueue(d, video)) && Counted(Enqueue(d, video))
  {
    hide Pushed, InFlight, AllDelivered, Failures, Tally;
    var e := d.(queue := d.queue + [video], stats := d.stats.(newVideos := d.stats.newVideos + 1));
    assert multiset(c.queue + [video]) == multiset(c.queue) + multiset{video};
    SubmitConserves(e);
  }

  lemma {:induction false} RunStepConserves(c: Crawler, i: nat, ok: bool)
    requires i < |c.runs| && Conserved(c) && Counted(c)
    ensures Conserved(RunStep(c, i, ok)) && Counted(RunStep(c, i, ok))
  {
    hide Pushed, InFlight, AllDelivered, Failures, Tally;
    RunStepMoves(c, i, ok);
    var p := RunStep(c, i, ok).runs[i].phase;
    var d := WithPhase(c, i, p).(seenEvents := RunStep(c, i, ok).seenEvents);
    if OutcomeOf(c.runs[i]) == IsRunning {
      hide RunStep;
      PhaseTally(c, i, p);
      if p.New? { hide Enqueue; EnqueueConserves(c, d, p.video); }
    }
  }

  lemma {:induction false} StepConserves(c: Crawler, step: Step)
    requires Conserved(c) && Counted(c)
    ensures Conserved(Next(c, step)) && Counted(Next(c, step))
  {
    match step
    case EventArrives(event) =>
      RunsAppend(c.runs, Run(event, SeekingEvent));
      hide Pushed, InFlight, AllDelivered, Failures, Tally;
    case Proceed(i, ok) =>
      hide *;
      if i < |c.runs| { RunStepConserves(c, i, ok); }
    case Tick =>
      hide *;
      SubmitConserves(c);
    case Advance(j, reply) =>
      hide *;
      if j < |c.submissions| { SubmissionStepConserves(c, j, reply); }
  }

  /** In every interleaving, whatever the database, the network and the API do, no pushed video is lost or doubled,
      and the counters say how many runs ended in which way and how many submissions failed. */
  lemma {:induction false} Conservation(seenEvents: set<Key>, seenVideos: set<Key>, h: seq<Step>)
    ensures Conserved(After(Start(seenEvents, seenVideos), h)) && Counted(After(Start(seenEvents, seenVideos), h))
  {
    if h != [] {
      Conservation(seenEvents, seenVideos, h[..|h| - 1]);
      StepConserves(After(Start(seenEvents, seenVideos), h[..|h| - 1]), h[|h| - 1]);
    }
  }

  function Sum(t: multiset<Outcome>): nat {
    t[IsDuplicate] + t[IsNew] + t[IsNoUrl] + t[IsRejected] + t[IsRunning]
  }

  lemma {:induction false} SumAdd(t: multiset<Outcome>, o: Outcome)
    ensures Sum(t + multiset{o}) == Sum(t) + 1
  {
    match o
    case IsRunning =>
    case IsDuplicate =>
    case IsRejected =>
    case IsNoUrl =>
    case IsNew =>
  }

  lemma {:induction false} TallySize(runs: seq<Run>)
    ensures |runs| == Sum(Tally(runs))
  {
    if runs == [] {
      assert Tally(runs) == multiset{};
    } else {
      hide *;
      var n := |runs| - 1;
      TallySize(runs[..n]);
      RunsAppend(runs[..n], runs[n]);
      assert runs == runs[..n] + [runs[n]];
      SumAdd(Tally(runs[..n]), OutcomeOf(runs[n]));
    }
  }

  /** eventsFound = duplicates + newVideos + without URL + rejected + still running */
  lemma {:induction false} EveryEventAccountedFor(seenEvents: set<Key>, seenVideos: set<Key>, h: seq<Step>)
    ensures var c := After(Start(seenEvents, seenVideos), h); var t := Tally(c.runs);
            c.stats.eventsFound == c.stats.duplicates + c.stats.newVideos + t[IsNoUrl] + t[IsRejected] + t[IsRunning]
  {
    Conservation(seenEvents, seenVideos, h);
    TallySize(After(Start(seenEvents, seenVideos), h).runs);
    hide Tally, Pushed, After, Failures;
  }
}
