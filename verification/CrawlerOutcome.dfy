/**
  How runs of processVideoEvent end, and in which order videos leave the queue: what the two lookups decide, that a full
  queue is submitted, that batches leave first in, first out, and that a batch which failed is the next to be tried.
 */
module CrawlerOutcome {
  import opened Bags
  import opened Numbers
  import opened Crawler
  import opened CrawlerDelivery

  // ----- One run in the steps of all -----

  lemma {:induction false} OtherRunsKept(c: Crawler, step: Step, i: nat)
    requires i < |c.runs| && !(step.Proceed? && step.i == i)
    ensures i < |Next(c, step).runs| && Next(c, step).runs[i] == c.runs[i]
  {
  }

  // ----- What the lookup of the video decides -----

  /** The run has been told whether the video was found, and ends accordingly. */
  predicate Told(r: Run, v: Video, found: bool) {
    r.phase == SoughtVideo(v, found) || r.phase == (if found then Duplicate else New(v))
  }

  lemma {:induction false} ToldStep(c: Crawler, step: Step, i: nat, v: Video, found: bool)
    requires i < |c.runs| && Told(c.runs[i], v, found)
    ensures i < |Next(c, step).runs| && Told(Next(c, step).runs[i], v, found)
  {
    if !(step.Proceed? && step.i == i) {
      OtherRunsKept(c, step, i);
      hide Next;
    }
  }

  lemma {:induction false} ToldForever(c: Crawler, i: nat, v: Video, found: bool, t: seq<Step>)
    requires i < |c.runs| && Told(c.runs[i], v, found)
    ensures i < |After(c, t).runs| && Told(After(c, t).runs[i], v, found)
  {
    hide Next, Told, After;
    AfterLast(c, t);
    if t != [] {
      ToldForever(c, i, v, found, t[..|t| - 1]);
      ToldStep(After(c, t[..|t| - 1]), t[|t| - 1], i, v, found);
    }
  }

  /** A run whose lookup succeeds ends as a duplicate if the video's id is in seen_videos at that moment, and otherwise
      pushes the video, whatever comes in between. */
  lemma {:induction false} VideoLookupDecides(c: Crawler, i: nat, v: Video, t: seq<Step>)
    requires i < |c.runs| && c.runs[i].phase == SeekingVideo(v)
    ensures var d := After(Next(c, Proceed(i, true)), t);
            i < |d.runs| && Told(d.runs[i], v, v.id in c.seenVideos)
  {
    ToldForever(Next(c, Proceed(i, true)), i, v, v.id in c.seenVideos, t);
  }

  /** A run that has been told ends in its next segment. */
  lemma {:induction false} ToldEnds(c: Crawler, i: nat, v: Video, found: bool, ok: bool)
    requires i < |c.runs| && Told(c.runs[i], v, found)
    ensures OutcomeOf(Next(c, Proceed(i, ok)).runs[i]) == if found then IsDuplicate else IsNew
  {
  }

  // ----- What the lookup of the event and the extraction decide -----

  /** A run whose event was found can only be a duplicate. */
  predicate Doubled(r: Run) {
    r.phase == SoughtEvent(true) || r.phase == Duplicate
  }

  /** A run whose event was not found: it ends as its extraction says, as a duplicate only with a video. */
  predicate Fresh(r: Run) {
    match r.phase
    case SeekingEvent => false
    case SoughtEvent(existing) => !existing
    case SeekingVideo(v) => r.event.extraction == Found(v.id) && v.event == r.event.id
    case SoughtVideo(v, _) => r.event.extraction == Found(v.id) && v.event == r.event.id
    case New(v) => r.event.extraction == Found(v.id) && v.event == r.event.id
    case Duplicate => r.event.extraction.Found?
    case NoUrl => r.event.extraction == Nothing
    case _ => true
  }

  lemma {:induction false} FreshStep(c: Crawler, step: Step, i: nat)
    requires i < |c.runs|
    ensures var r := Next(c, step).runs;
            i < |r| && (Fresh(c.runs[i]) ==> Fresh(r[i])) && (Doubled(c.runs[i]) ==> Doubled(r[i]))
  {
    if !(step.Proceed? && step.i == i) {
      OtherRunsKept(c, step, i);
      hide Next;
    }
  }

  lemma {:induction false} FreshForever(c: Crawler, i: nat, t: seq<Step>)
    requires i < |c.runs|
    ensures var r := After(c, t).runs;
            i < |r| && (Fresh(c.runs[i]) ==> Fresh(r[i])) && (Doubled(c.runs[i]) ==> Doubled(r[i]))
  {
    hide Next, Fresh, Doubled, After;
    AfterLast(c, t);
    if t != [] {
      FreshForever(c, i, t[..|t| - 1]);
      FreshStep(After(c, t[..|t| - 1]), t[|t| - 1], i);
    }
  }

  /** A run whose lookup succeeds ends as a duplicate if the event's id is in seen_events at that moment. Otherwise it
      ends as its extraction says: without a URL, rejected, or with the video that was found. */
  lemma {:induction false} EventLookupDecides(c: Crawler, i: nat, t: seq<Step>)
    requires i < |c.runs| && c.runs[i].phase == SeekingEvent
    ensures var d := After(Next(c, Proceed(i, true)), t);
            && i < |d.runs|
            && (if c.runs[i].event.id in c.seenEvents then Doubled(d.runs[i]) else Fresh(d.runs[i]))
  {
    FreshForever(Next(c, Proceed(i, true)), i, t);
  }

  /** Once its event is inserted, a run without a video ends at once, and no other run does; one whose insertion failed
      is rejected. */
  lemma {:induction false} ExtractionDecides(c: Crawler, i: nat, ok: bool)
    requires i < |c.runs| && c.runs[i].phase.MarkedEvent?
    ensures !c.runs[i].phase.ok ==> Next(c, Proceed(i, ok)).runs[i].phase == Rejected
    ensures c.runs[i].phase.ok ==>
              var p, x := Next(c, Proceed(i, ok)).runs[i].phase, c.runs[i].event.extraction;
              && (p.Rejected? <==> x.Throws?) && (p.NoUrl? <==> x.Nothing?)
              && (x.Found? ==> p == SeekingVideo(Video(x.video, c.runs[i].event.id)))
  {
  }

  /** A failing database ends the run, and so does the insertion of an event that another run has inserted meanwhile. */
  lemma {:induction false} FailureRejects(c: Crawler, i: nat, ok: bool, t: seq<Step>)
    requires i < |c.runs|
    requires var p := c.runs[i].phase;
             || ((p.SeekingEvent? || p.SeekingVideo?) && !ok)
             || (p.MarkingEvent? && (!ok || c.runs[i].event.id in c.seenEvents))
    ensures var p := After(Next(c, Proceed(i, ok)), t).runs; i < |p| && Refused(p[i])
  {
    RefusedForever(Next(c, Proceed(i, ok)), i, t);
  }

  predicate Refused(r: Run) {
    r.phase == MarkedEvent(false) || r.phase == Rejected
  }

  lemma {:induction false} RefusedForever(c: Crawler, i: nat, t: seq<Step>)
    requires i < |c.runs| && Refused(c.runs[i])
    ensures i < |After(c, t).runs| && Refused(After(c, t).runs[i])
  {
    hide Next, Refused, After;
    AfterLast(c, t);
    if t != [] {
      RefusedForever(c, i, t[..|t| - 1]);
      RefusedStep(After(c, t[..|t| - 1]), t[|t| - 1], i);
    }
  }

  lemma {:induction false} RefusedStep(c: Crawler, step: Step, i: nat)
    requires i < |c.runs| && Refused(c.runs[i])
    ensures i < |Next(c, step).runs| && Refused(Next(c, step).runs[i])
  {
    if !(step.Proceed? && step.i == i) {
      OtherRunsKept(c, step, i);
      hide Next;
    }
  }

  // ----- Nothing that an earlier session recorded is pushed -----

  /** The run is not about to push a video that the table held at the start. */
  predicate Innocent(r: Run, initial: set<Key>) {
    match r.phase
    case SoughtVideo(v, existing) => existing || v.id !in initial
    case New(v) => v.id !in initial
    case _ => true
  }

  lemma {:induction false} InnocentStep(c: Crawler, step: Step, initial: set<Key>)
    requires initial <= c.seenVideos && forall r | r in c.runs :: Innocent(r, initial)
    ensures initial <= Next(c, step).seenVideos && forall r | r in Next(c, step).runs :: Innocent(r, initial)
  {
    SeenGrows(c, step);
    forall r | r in Next(c, step).runs ensures Innocent(r, initial) {
      if step.Proceed? && step.i < |c.runs| {
        assert c.runs[step.i] in c.runs;
      }
    }
  }

  lemma {:induction false} AlwaysInnocent(seenEvents: set<Key>, initial: set<Key>, h: seq<Step>)
    ensures var c := After(Start(seenEvents, initial), h);
            initial <= c.seenVideos && forall r | r in c.runs :: Innocent(r, initial)
  {
    hide Next, Innocent, After;
    var s := Start(seenEvents, initial);
    AfterLast(s, h);
    if h != [] {
      AlwaysInnocent(seenEvents, initial, h[..|h| - 1]);
      InnocentStep(After(s, h[..|h| - 1]), h[|h| - 1], initial);
    }
  }

  /** In every run of the crawler: no video is pushed that an earlier session has recorded. */
  lemma {:induction false} NothingOldPushed(seenEvents: set<Key>, initial: set<Key>, h: seq<Step>)
    ensures forall v | v in Pushed(After(Start(seenEvents, initial), h).runs) :: v.id !in initial
  {
    hide After, Start, Pushed;
    AlwaysInnocent(seenEvents, initial, h);
    var runs := After(Start(seenEvents, initial), h).runs;
    forall v | v in Pushed(runs) ensures v.id !in initial { var r := PushedByRun(runs, v); }
  }

  lemma {:induction false} PushedByRun(runs: seq<Run>, v: Video) returns (r: Run)
    requires v in Pushed(runs)
    ensures r in runs && r.phase == New(v)
  {
    var bags := seq(|runs|, k requires 0 <= k < |runs| => PushedBy(runs[k]));
    UnionContains(bags, v);
    hide Union;
    var k :| 0 <= k < |bags| && v in bags[k];
    r := runs[k];
  }

  // ----- The queue -----

  /** The video that a step pushes, if any */
  function PushOf(c: Crawler, step: Step): seq<Video> {
    if step.Proceed? && step.i < |c.runs| && c.runs[step.i].phase.SoughtVideo? && !c.runs[step.i].phase.existing
    then [c.runs[step.i].phase.video] else []
  }

  /** The videos that a run of the crawler pushes, in order */
  function PushOrder(c: Crawler, h: seq<Step>): seq<Video> {
    if h == [] then [] else PushOrder(c, h[..|h| - 1]) + PushOf(After(c, h[..|h| - 1]), h[|h| - 1])
  }

  lemma {:induction false} PushOrderLast(c: Crawler, h: seq<Step>)
    ensures PushOrder(c, h) ==
            if h == [] then [] else PushOrder(c, h[..|h| - 1]) + PushOf(After(c, h[..|h| - 1]), h[|h| - 1])
  {
    hide After, PushOf;
  }

  /** The batches, one after the other */
  function Sent(submissions: seq<Submission>): seq<Video> {
    if submissions == [] then [] else Sent(submissions[..|submissions| - 1]) + submissions[|submissions| - 1].batch
  }

  lemma {:induction false} SentAppend(ss: seq<Submission>, s: Submission)
    ensures Sent(ss + [s]) == Sent(ss) + s.batch
  {
    assert (ss + [s])[..|ss|] == ss;
  }

  lemma {:induction false} SentSame(ss: seq<Submission>, tt: seq<Submission>)
    requires |ss| == |tt| && forall k | 0 <= k < |ss| :: ss[k].batch == tt[k].batch
    ensures Sent(ss) == Sent(tt)
  {
    if ss != [] { SentSame(ss[..|ss| - 1], tt[..|tt| - 1]); }
  }

  ghost predicate NoneReturned(c: Crawler) {
    forall s | s in c.submissions :: !s.progress.Requeued?
  }

  lemma {:induction false} ReturnsRemain(c: Crawler, step: Step)
    requires NoneReturned(Next(c, step))
    ensures NoneReturned(c)
  {
    var d := Next(c, step);
    forall s | s in c.submissions ensures !s.progress.Requeued? {
      var k :| 0 <= k < |c.submissions| && c.submissions[k] == s;
      assert k < |d.submissions| && (d.submissions[k] == s || (step.Advance? && step.j == k));
      assert d.submissions[k] in d.submissions;
    }
  }

  ghost predicate InOrder(c: Crawler, pushes: seq<Video>) {
    && Sent(c.submissions) + c.queue == pushes
    && |c.queue| < 10
    && forall s | s in c.submissions :: 1 <= |s.batch| <= 10
  }

  lemma {:induction false} SubmitInOrder(c: Crawler, pushes: seq<Video>)
    requires Sent(c.submissions) + c.queue == pushes && |c.queue| <= BATCH_SIZE
    requires forall s | s in c.submissions :: s.batch != [] && |s.batch| <= BATCH_SIZE
    ensures InOrder(Submit(c), pushes) && Submit(c).queue == []
  {
    hide Sent;
    assert forall s: seq<Video> :: s + [] == s;
    if c.queue != [] {
      SentAppend(c.submissions, Submission(c.queue, Posting));
      assert c.queue[..|c.queue|] == c.queue && c.queue[|c.queue|..] == [];
    }
  }

  lemma {:induction false} PushInOrder(c: Crawler, i: nat, v: Video, ok: bool, pushes: seq<Video>)
    requires InOrder(c, pushes) && i < |c.runs| && c.runs[i].phase == SoughtVideo(v, false)
    ensures InOrder(Next(c, Proceed(i, ok)), pushes + [v])
  {
    hide Sent, Submit;
    var d := PushedState(c, i, v);
    PushStep(c, i, v, ok);
    assert Sent(c.submissions) + (c.queue + [v]) == Sent(c.submissions) + c.queue + [v];
    if |d.queue| >= BATCH_SIZE { SubmitInOrder(d, pushes + [v]); }
  }

  /** The state between the push and the submission that may follow */
  function PushedState(c: Crawler, i: nat, v: Video): Crawler
    requires i < |c.runs|
  {
    WithPhase(c, i, New(v)).(queue := c.queue + [v], stats := c.stats.(newVideos := c.stats.newVideos + 1))
  }

  lemma {:induction false} PushStep(c: Crawler, i: nat, v: Video, ok: bool)
    requires i < |c.runs| && c.runs[i].phase == SoughtVideo(v, false)
    ensures var d := PushedState(c, i, v);
            && d.submissions == c.submissions && d.queue == c.queue + [v]
            && Next(c, Proceed(i, ok)) == if |d.queue| >= BATCH_SIZE then Submit(d) else d
  {
    hide Submit;
  }

  lemma {:induction false} AdvanceInOrder(c: Crawler, j: nat, reply: Reply, pushes: seq<Video>)
    requires InOrder(c, pushes) && j < |c.submissions| && NoneReturned(Next(c, Advance(j, reply)))
    ensures InOrder(Next(c, Advance(j, reply)), pushes)
  {
    var d := Next(c, Advance(j, reply));
    assert d.submissions == c.submissions[j := d.submissions[j]] && d.submissions[j].batch == c.submissions[j].batch;
    assert d.submissions[j] in d.submissions;
    assert d.queue == c.queue;
    hide Next, NoneReturned;
    SentSame(c.submissions, d.submissions);
    assert c.submissions[j] in c.submissions;
  }

  lemma {:induction false} OtherProceeds(c: Crawler, i: nat, ok: bool)
    requires i < |c.runs| && !(c.runs[i].phase.SoughtVideo? && !c.runs[i].phase.existing)
    ensures var d := Next(c, Proceed(i, ok)); d.queue == c.queue && d.submissions == c.submissions
  {
  }

  lemma {:induction false} StepInOrder(c: Crawler, step: Step, pushes: seq<Video>)
    requires InOrder(c, pushes) && NoneReturned(Next(c, step))
    ensures InOrder(Next(c, step), pushes + PushOf(c, step))
  {
    assert pushes + [] == pushes;
    match step
    case EventArrives(_) =>
    case Proceed(i, ok) =>
      if i < |c.runs| {
        if c.runs[i].phase.SoughtVideo? && !c.runs[i].phase.existing {
          PushInOrder(c, i, c.runs[i].phase.video, ok, pushes);
        } else {
          OtherProceeds(c, i, ok);
        }
      }
    case Tick => SubmitInOrder(c, pushes);
    case Advance(j, reply) => if j < |c.submissions| { AdvanceInOrder(c, j, reply, pushes); }
  }

  /** In every run without a failed submission: the batches, one after the other, and then the queue are the videos in
      the order they were pushed; the queue never holds ten; and a batch holds one to ten. */
  lemma {:induction false} FirstInFirstOut(seenEvents: set<Key>, initial: set<Key>, h: seq<Step>)
    requires NoneReturned(After(Start(seenEvents, initial), h))
    ensures InOrder(After(Start(seenEvents, initial), h), PushOrder(Start(seenEvents, initial), h))
  {
    hide Next, InOrder, PushOf, PushOrder, After, NoneReturned;
    var s := Start(seenEvents, initial);
    AfterLast(s, h);
    PushOrderLast(s, h);
    if h == [] {
      NothingSent(seenEvents, initial);
    } else {
      var g, step := h[..|h| - 1], h[|h| - 1];
      ReturnsRemain(After(s, g), step);
      FirstInFirstOut(seenEvents, initial, g);
      StepInOrder(After(s, g), step, PushOrder(s, g));
    }
  }

  lemma {:induction false} NothingSent(seenEvents: set<Key>, initial: set<Key>)
    ensures InOrder(Start(seenEvents, initial), [])
  {
  }

  /** With failed submissions the queue may hold more; a push that finds nine or more in it submits the first ten. */
  lemma {:induction false} FullQueueSubmitted(c: Crawler, i: nat, v: Video, ok: bool)
    requires i < |c.runs| && c.runs[i].phase == SoughtVideo(v, false)
    ensures var d := Next(c, Proceed(i, ok)); var q := c.queue + [v];
            if |c.queue| < 9 then d.queue == q && d.submissions == c.submissions
            else |d.submissions| == |c.submissions| + 1 && d.submissions[|c.submissions|].progress == Posting
                 && d.submissions[|c.submissions|].batch + d.queue == q
                 && |d.submissions[|c.submissions|].batch| == 10
  {
    var q := c.queue + [v];
    if |q| >= BATCH_SIZE { assert q[..BATCH_SIZE] + q[BATCH_SIZE..] == q; }
  }

  // ----- After a failure -----

  /** The steps that fail a batch which has been posted: the network, or a refusal whose text is then read */
  predicate Fails(i: nat, t: seq<Step>) {
    t == [Advance(i, NetworkError)] || exists r :: t == [Advance(i, Refuse), Advance(i, r)]
  }

  predicate Returned(c: Crawler, d: Crawler, i: nat)
    requires i < |c.submissions|
  {
    && d.queue == c.submissions[i].batch + c.queue && d.seenVideos == c.seenVideos
    && d.stats.apiErrors == c.stats.apiErrors + 1 && |d.submissions| == |c.submissions|
  }

  lemma {:induction false} FailureReturns(c: Crawler, i: nat, t: seq<Step>)
    requires i < |c.submissions| && c.submissions[i].progress == Posting && Fails(i, t)
    ensures Returned(c, After(c, t), i)
  {
    hide After, Next;
    AfterLast(c, []);
    if t == [Advance(i, NetworkError)] {
      AfterStep(c, [], Advance(i, NetworkError));
      assert [] + t == t;
      NetworkReturns(c, i);
    } else {
      var r :| t == [Advance(i, Refuse), Advance(i, r)];
      AfterStep(c, [], Advance(i, Refuse));
      AfterStep(c, [Advance(i, Refuse)], Advance(i, r));
      assert [] + [Advance(i, Refuse)] == [Advance(i, Refuse)];
      assert [Advance(i, Refuse)] + [Advance(i, r)] == t;
      RefusalReturns(c, i, r);
    }
  }

  lemma {:induction false} NetworkReturns(c: Crawler, i: nat)
    requires i < |c.submissions| && c.submissions[i].progress == Posting
    ensures Returned(c, Next(c, Advance(i, NetworkError)), i)
  {
  }

  lemma {:induction false} RefusalReturns(c: Crawler, i: nat, r: Reply)
    requires i < |c.submissions| && c.submissions[i].progress == Posting
    ensures Returned(c, Next(Next(c, Advance(i, Refuse)), Advance(i, r)), i)
  {
  }

  /** A batch that failed is back in front of the queue, none of it is recorded, and it is the next to be tried. */
  lemma {:induction false} FailedBatchIsNext(c: Crawler, i: nat, t: seq<Step>)
    requires i < |c.submissions| && c.submissions[i].progress == Posting && Fails(i, t)
    requires 0 < |c.submissions[i].batch| <= BATCH_SIZE
    ensures var d := After(c, t); var e := Next(d, Tick); var batch := c.submissions[i].batch;
            && d.queue == batch + c.queue && d.seenVideos == c.seenVideos && d.stats.apiErrors == c.stats.apiErrors + 1
            && |e.submissions| == |c.submissions| + 1 && batch <= e.submissions[|c.submissions|].batch
            && e.submissions[|c.submissions|].progress == Posting
  {
    hide After;
    FailureReturns(c, i, t);
    var batch := c.submissions[i].batch;
    assert batch <= (batch + c.queue)[..Min(|batch + c.queue|, BATCH_SIZE)];
  }
}
