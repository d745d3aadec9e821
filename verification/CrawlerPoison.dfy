/**
  Videos that the crawler accepts but can never deliver: the queue is checked against seen_videos only when a video is
  pushed, and a failed insertion puts the whole batch back, rows that were inserted included.
 */
module CrawlerPoison {
  import opened Bags
  import opened Crawler
  import opened CrawlerDelivery

  lemma {:induction false} AfterAppend(c: Crawler, g: seq<Step>, h: seq<Step>)
    ensures After(c, g + h) == After(After(c, g), h)
  {
    if h == [] {
      assert g + h == g;
    } else {
      hide Next;
      var n := |h| - 1;
      AfterAppend(c, g, h[..n]);
      assert (g + h)[..|g| + n] == g + h[..n] && (g + h)[|g| + n] == h[n];
    }
  }

  // ----- Which batches can be recorded in full -----

  /** The ids that are still to be inserted are distinct and new. */
  ghost predicate Recordable(s: Submission, seenVideos: set<Key>) {
    && (forall j | Rows(s) <= j < |s.batch| :: s.batch[j].id !in seenVideos)
    && (forall j, k | Rows(s) <= j < k < |s.batch| :: s.batch[j].id != s.batch[k].id)
  }

  lemma {:induction false} StepUnrecordable(c: Crawler, step: Step, i: nat)
    requires i < |c.submissions| && Sound(c.submissions[i]) && c.submissions[i].batch != []
    requires !Recordable(c.submissions[i], c.seenVideos)
    ensures var d := Next(c, step);
            && i < |d.submissions| && Sound(d.submissions[i]) && d.submissions[i].batch == c.submissions[i].batch
            && !Recordable(d.submissions[i], d.seenVideos)
  {
    SeenGrows(c, step);
    if step.Advance? && step.j == i {
      SubmissionStepRows(c, i, step.reply);
    } else {
      OthersUnchanged(c, step, i);
      hide Next, Sound;
    }
  }

  lemma {:induction false} OthersUnchanged(c: Crawler, step: Step, i: nat)
    requires i < |c.submissions| && !(step.Advance? && step.j == i)
    ensures i < |Next(c, step).submissions| && Next(c, step).submissions[i] == c.submissions[i]
  {
    hide RunStep, Submit, SubmissionStep;
    match step
    case Advance(j, reply) => if j < |c.submissions| { AdvanceKeepsOthers(c, j, reply, i); }
    case _ =>
      OthersKept(c, step);
      assert Next(c, step).submissions[..|c.submissions|][i] == Next(c, step).submissions[i];
  }

  lemma {:induction false} AdvanceKeepsOthers(c: Crawler, j: nat, reply: Reply, i: nat)
    requires i < |c.submissions| && j < |c.submissions| && i != j
    ensures var d := SubmissionStep(c, j, reply); i < |d.submissions| && d.submissions[i] == c.submissions[i]
  {
  }

  lemma {:induction false} StaysUnrecordable(c: Crawler, i: nat, t: seq<Step>)
    requires i < |c.submissions| && Sound(c.submissions[i]) && c.submissions[i].batch != []
    requires !Recordable(c.submissions[i], c.seenVideos)
    ensures var d := After(c, t);
            && i < |d.submissions| && Sound(d.submissions[i]) && d.submissions[i].batch == c.submissions[i].batch
            && !Recordable(d.submissions[i], d.seenVideos)
  {
    hide Next, Sound, Recordable, After;
    AfterLast(c, t);
    if t != [] {
      StaysUnrecordable(c, i, t[..|t| - 1]);
      StepUnrecordable(After(c, t[..|t| - 1]), t[|t| - 1], i);
    }
  }

  /** The steps that record the rows from k on */
  function Recordings(i: nat, n: nat): seq<Step>
    decreases n, i
  {
    if n == 0 then [] else [Advance(i, Accept), Advance(i, Accept)] + Recordings(i, n - 1)
  }

  lemma {:induction false} RecordingsStep(i: nat, n: nat)
    ensures n == 0 ==> Recordings(i, n) == []
    ensures n > 0 ==> Recordings(i, n) == [Advance(i, Accept), Advance(i, Accept)] + Recordings(i, n - 1)
  {
  }

  lemma {:induction false} TwoSteps(c: Crawler, a: Step, b: Step)
    ensures After(c, [a, b]) == Next(Next(c, a), b)
  {
    assert [a, b][..1] == [a] && [a][..0] == [] && After(c, []) == c;
    assert After(c, [a]) == Next(c, a);
  }

  lemma {:induction false} RecordRow(c: Crawler, i: nat, k: nat)
    requires i < |c.submissions| && c.submissions[i].progress == Recording(k) && k < |c.submissions[i].batch|
    requires Recordable(c.submissions[i], c.seenVideos)
    ensures var d := After(c, [Advance(i, Accept), Advance(i, Accept)]);
            && i < |d.submissions| && d.submissions[i].batch == c.submissions[i].batch
            && d.submissions[i].progress == (if k + 1 < |c.submissions[i].batch| then Recording(k + 1) else Delivered)
            && d.seenVideos == c.seenVideos + {c.submissions[i].batch[k].id}
            && Recordable(d.submissions[i], d.seenVideos)
  {
    TwoSteps(c, Advance(i, Accept), Advance(i, Accept));
  }

  lemma {:induction false} RecordRows(c: Crawler, i: nat, k: nat)
    requires i < |c.submissions| && c.submissions[i].progress == Recording(k) && k < |c.submissions[i].batch|
    requires Recordable(c.submissions[i], c.seenVideos)
    ensures var d := After(c, Recordings(i, |c.submissions[i].batch| - k));
            i < |d.submissions| && d.submissions[i].progress == Delivered
    decreases |c.submissions[i].batch| - k
  {
    hide Next, After, Recordings, Recordable;
    var n := |c.submissions[i].batch| - k;
    var two := [Advance(i, Accept), Advance(i, Accept)];
    var d := After(c, two);
    RecordingsStep(i, n);
    AfterAppend(c, two, Recordings(i, n - 1));
    RecordRow(c, i, k);
    if n > 1 {
      RecordRows(d, i, k + 1);
    } else {
      RecordingsStep(i, 0);
      AfterNone(d);
    }
  }

  lemma {:induction false} AfterNone(c: Crawler)
    ensures After(c, []) == c
  {
  }

  ghost predicate CanBeDelivered(c: Crawler, i: nat) {
    exists t :: i < |After(c, t).submissions| && After(c, t).submissions[i].progress == Delivered
  }

  lemma {:induction false} BatchAccepted(c: Crawler, i: nat)
    requires i < |c.submissions| && c.submissions[i].progress == Posting && c.submissions[i].batch != []
    requires Recordable(c.submissions[i], c.seenVideos)
    ensures var d := After(c, [Advance(i, Accept)]);
            && i < |d.submissions| && d.submissions[i] == Submission(c.submissions[i].batch, Recording(0))
            && d.seenVideos == c.seenVideos && Recordable(d.submissions[i], d.seenVideos)
  {
    AfterStep(c, [], Advance(i, Accept));
    AfterNone(c);
    assert [] + [Advance(i, Accept)] == [Advance(i, Accept)];
    hide After;
  }

  lemma {:induction false} RecordableDelivers(c: Crawler, i: nat)
    requires i < |c.submissions| && c.submissions[i].progress == Posting && c.submissions[i].batch != []
    requires Recordable(c.submissions[i], c.seenVideos)
    ensures CanBeDelivered(c, i)
  {
    hide Next, After, Recordings, Recordable;
    var a, rows := [Advance(i, Accept)], Recordings(i, |c.submissions[i].batch|);
    BatchAccepted(c, i);
    RecordRows(After(c, a), i, 0);
    AfterAppend(c, a, rows);
    assert After(c, a + rows).submissions[i].progress == Delivered;
  }

  lemma {:induction false} UnrecordableStays(c: Crawler, i: nat)
    requires i < |c.submissions| && c.submissions[i].progress == Posting && c.submissions[i].batch != []
    requires !Recordable(c.submissions[i], c.seenVideos)
    ensures !CanBeDelivered(c, i)
  {
    hide Next, After;
    assert Sound(c.submissions[i]);
    forall t ensures !(i < |After(c, t).submissions| && After(c, t).submissions[i].progress == Delivered) {
      StaysUnrecordable(c, i, t);
    }
  }

  /** A batch that has just been sent to the API can come to be recorded in full if and only if its video ids are
      pairwise distinct and none of them is in seen_videos, however the steps interleave. */
  lemma {:induction false} DeliverableIff(c: Crawler, i: nat)
    requires i < |c.submissions| && c.submissions[i].progress == Posting && c.submissions[i].batch != []
    ensures CanBeDelivered(c, i) <==>
            var batch := c.submissions[i].batch;
            && (forall j | 0 <= j < |batch| :: batch[j].id !in c.seenVideos)
            && (forall j, k | 0 <= j < k < |batch| :: batch[j].id != batch[k].id)
  {
    hide CanBeDelivered;
    if Recordable(c.submissions[i], c.seenVideos) {
      RecordableDelivers(c, i);
    } else {
      UnrecordableStays(c, i);
    }
  }

  // ----- Videos that can never be delivered -----

  /** The id of v is recorded, but v's own row is not, in any submission that could still deliver it. */
  ghost predicate Stuck(c: Crawler, v: Video) {
    && v.id in c.seenVideos
    && forall i, j | 0 <= i < |c.submissions| && 0 <= j < |c.submissions[i].batch| && c.submissions[i].batch[j] == v ::
         c.submissions[i].progress.Requeued? || (!c.submissions[i].progress.Delivered? && Rows(c.submissions[i]) <= j)
  }

  lemma {:induction false} AdvanceStuck(c: Crawler, i: nat, reply: Reply, v: Video)
    requires i < |c.submissions| && Sound(c.submissions[i]) && c.submissions[i].batch != [] && Stuck(c, v)
    ensures Stuck(SubmissionStep(c, i, reply), v)
  {
    var d := SubmissionStep(c, i, reply);
    SubmissionStepRows(c, i, reply);
    var s, s' := c.submissions[i], d.submissions[i];
    assert s.progress.Requeued? ==> s'.progress.Requeued?;
    assert s'.progress.Delivered? ==> s.progress.Delivered? || Rows(s) == |s.batch|;
    hide SubmissionStep, Rows, Sound;
  }

  lemma {:induction false} StepStuck(c: Crawler, step: Step, v: Video)
    requires (forall s | s in c.submissions :: Sound(s) && s.batch != []) && Stuck(c, v)
    ensures Stuck(Next(c, step), v)
  {
    match step
    case Advance(j, reply) =>
      if j < |c.submissions| {
        assert c.submissions[j] in c.submissions;
        AdvanceStuck(c, j, reply, v);
      }
    case _ =>
      SeenGrows(c, step);
      OthersKept(c, step);
      hide Next, Sound;
  }

  lemma {:induction false} OthersKept(c: Crawler, step: Step)
    requires !step.Advance?
    ensures var d := Next(c, step);
            && |c.submissions| <= |d.submissions| && d.submissions[..|c.submissions|] == c.submissions
            && forall i | |c.submissions| <= i < |d.submissions| :: d.submissions[i].progress == Posting
  {
  }

  lemma {:induction false} StaysStuck(seenEvents: set<Key>, initial: set<Key>, h: seq<Step>, t: seq<Step>, v: Video)
    requires Stuck(After(Start(seenEvents, initial), h), v)
    ensures Stuck(After(Start(seenEvents, initial), h + t), v)
  {
    hide Next, Stuck, Sound, Start, After, HasRow;
    if t == [] {
      assert h + t == h;
    } else {
      var n := |t| - 1;
      StaysStuck(seenEvents, initial, h, t[..n], v);
      assert h + t == h + t[..n] + [t[n]];
      AfterStep(Start(seenEvents, initial), h + t[..n], t[n]);
      TableIsExact(seenEvents, initial, h + t[..n]);
      StepStuck(After(Start(seenEvents, initial), h + t[..n]), t[n], v);
    }
  }

  lemma {:induction false} StuckUndelivered(c: Crawler, v: Video)
    requires Stuck(c, v)
    ensures v !in AllDelivered(c.submissions)
  {
    var ss := c.submissions;
    UnionContains(seq(|ss|, k requires 0 <= k < |ss| => DeliveredBy(ss[k])), v);
  }

  lemma {:induction false} QueuedIsStuck(c: Crawler, v: Video)
    requires v.id in c.seenVideos && InFlight(c.submissions)[v] + AllDelivered(c.submissions)[v] == 0
    ensures Stuck(c, v)
  {
    var ss := c.submissions;
    UnionContains(seq(|ss|, k requires 0 <= k < |ss| => DeliveredBy(ss[k])), v);
    UnionContains(seq(|ss|, k requires 0 <= k < |ss| => InFlightOf(ss[k])), v);
    forall i, j | 0 <= i < |ss| && 0 <= j < |ss[i].batch| && ss[i].batch[j] == v ensures ss[i].progress.Requeued? {
      assert v in multiset(ss[i].batch);
      assert v !in seq(|ss|, k requires 0 <= k < |ss| => DeliveredBy(ss[k]))[i];
      assert v !in seq(|ss|, k requires 0 <= k < |ss| => InFlightOf(ss[k]))[i];
    }
  }

  /** A queued video whose id is in seen_videos is delivered in no continuation of the run, although the API keeps
      being sent it. */
  lemma {:induction false} QueuedDuplicateNeverDelivered(seenEvents: set<Key>, initial: set<Key>, h: seq<Step>,
                                                         t: seq<Step>, v: Video)
    requires var c := After(Start(seenEvents, initial), h); v in c.queue && v.id in c.seenVideos
    ensures v !in AllDelivered(After(Start(seenEvents, initial), h + t).submissions)
  {
    var c := After(Start(seenEvents, initial), h);
    InOnePlace(seenEvents, initial, h, v);
    assert multiset(c.queue)[v] > 0;
    hide InFlight, AllDelivered, After;
    QueuedIsStuck(c, v);
    StaysStuck(seenEvents, initial, h, t, v);
    StuckUndelivered(After(Start(seenEvents, initial), h + t), v);
  }

  /** One failed insertion after the first row spoils the batch: its inserted videos are back in the queue, and they
      are never delivered. */
  lemma {:induction false} PartialFailureSpoils(seenEvents: set<Key>, initial: set<Key>, h: seq<Step>, i: nat, j: nat,
                                                reply: Reply, t: seq<Step>)
    requires var c := After(Start(seenEvents, initial), h);
             && i < |c.submissions| && c.submissions[i].progress.Recorded? && !c.submissions[i].progress.ok
             && j < c.submissions[i].progress.k < |c.submissions[i].batch|
    ensures var v := After(Start(seenEvents, initial), h).submissions[i].batch[j];
            && v in After(Start(seenEvents, initial), h + [Advance(i, reply)]).queue
            && v !in AllDelivered(After(Start(seenEvents, initial), h + [Advance(i, reply)] + t).submissions)
  {
    var c := After(Start(seenEvents, initial), h);
    var v := c.submissions[i].batch[j];
    TableIsExact(seenEvents, initial, h);
    assert HasRow(c, i, j, v.id);
    AfterStep(Start(seenEvents, initial), h, Advance(i, reply));
    var d := Next(c, Advance(i, reply));
    assert d == Requeue(c, i, true, c.submissions[i].progress.k);
    assert d.queue[j] == v && v.id in d.seenVideos;
    hide After;
    QueuedDuplicateNeverDelivered(seenEvents, initial, h + [Advance(i, reply)], t, v);
  }

  // ----- How a video comes to be queued twice -----

  /** One event is processed with no other run in between. */
  function Alone(i: nat, e: Event): seq<Step> {
    [EventArrives(e), Proceed(i, true), Proceed(i, true), Proceed(i, true), Proceed(i, true), Proceed(i, true),
     Proceed(i, true)]
  }

  lemma {:induction false} ProceedStep(c: Crawler, i: nat, g: seq<Step>, d: Crawler)
    requires After(c, g) == d && i < |d.runs|
    ensures After(c, g + [Proceed(i, true)]) == RunStep(d, i, true)
  {
    AfterStep(c, g, Proceed(i, true));
  }

  lemma {:induction false} SixSteps(c: Crawler, i: nat, g: seq<Step>, d0: Crawler, d1: Crawler, d2: Crawler,
                                    d3: Crawler, d4: Crawler, d5: Crawler, d6: Crawler)
    requires After(c, g) == d0 && i < |d0.runs| && i < |d1.runs| && i < |d2.runs|
    requires i < |d3.runs| && i < |d4.runs| && i < |d5.runs|
    requires d1 == RunStep(d0, i, true) && d2 == RunStep(d1, i, true) && d3 == RunStep(d2, i, true)
    requires d4 == RunStep(d3, i, true) && d5 == RunStep(d4, i, true) && d6 == RunStep(d5, i, true)
    ensures var p := Proceed(i, true); After(c, g + [p] + [p] + [p] + [p] + [p] + [p]) == d6
  {
    hide After, RunStep;
    var p := Proceed(i, true);
    ProceedStep(c, i, g, d0);
    ProceedStep(c, i, g + [p], d1);
    ProceedStep(c, i, g + [p] + [p], d2);
    ProceedStep(c, i, g + [p] + [p] + [p], d3);
    ProceedStep(c, i, g + [p] + [p] + [p] + [p], d4);
    ProceedStep(c, i, g + [p] + [p] + [p] + [p] + [p], d5);
  }

  /** The states that one event goes through when nothing comes between */
  lemma {:induction false} AloneStates(c: Crawler, e: Event)
      returns (d0: Crawler, d1: Crawler, d2: Crawler, d3: Crawler, d4: Crawler, d5: Crawler, d6: Crawler)
    requires e.extraction.Found? && e.id !in c.seenEvents && e.extraction.video !in c.seenVideos
    requires |c.queue| + 1 < BATCH_SIZE
    ensures var i := |c.runs|;
            && d0 == Next(c, EventArrives(e)) && |d0.runs| == |d1.runs| == |d2.runs| == |d3.runs| == i + 1
            && |d4.runs| == |d5.runs| == |d6.runs| == i + 1
            && d1 == RunStep(d0, i, true) && d2 == RunStep(d1, i, true) && d3 == RunStep(d2, i, true)
            && d4 == RunStep(d3, i, true) && d5 == RunStep(d4, i, true) && d6 == RunStep(d5, i, true)
    ensures d6.queue == c.queue + [Video(e.extraction.video, e.id)] && d6.seenVideos == c.seenVideos
    ensures d6.seenEvents == c.seenEvents + {e.id} && d6.submissions == c.submissions
  {
    var i, v := |c.runs|, Video(e.extraction.video, e.id);
    d0 := Next(c, EventArrives(e));
    hide Next;
    d1 := RunStep(d0, i, true);
    assert d1 == d0.(runs := c.runs + [Run(e, SoughtEvent(false))]);
    d2 := RunStep(d1, i, true);
    assert d2 == d0.(runs := c.runs + [Run(e, MarkingEvent)]);
    d3 := RunStep(d2, i, true);
    assert d3 == d0.(runs := c.runs + [Run(e, MarkedEvent(true))], seenEvents := c.seenEvents + {e.id});
    d4 := RunStep(d3, i, true);
    assert d4 == d3.(runs := c.runs + [Run(e, SeekingVideo(v))]);
    d5 := RunStep(d4, i, true);
    assert d5 == d3.(runs := c.runs + [Run(e, SoughtVideo(v, false))]);
    d6 := RunStep(d5, i, true);
  }

  lemma {:induction false} AloneIs(i: nat, e: Event)
    ensures var p := Proceed(i, true); Alone(i, e) == [EventArrives(e)] + [p] + [p] + [p] + [p] + [p] + [p]
  {
  }

  lemma {:induction false} AloneQueues(c: Crawler, e: Event)
    requires e.extraction.Found? && e.id !in c.seenEvents && e.extraction.video !in c.seenVideos
    requires |c.queue| + 1 < BATCH_SIZE
    ensures var d := After(c, Alone(|c.runs|, e));
            && d.queue == c.queue + [Video(e.extraction.video, e.id)] && d.seenVideos == c.seenVideos
            && d.seenEvents == c.seenEvents + {e.id} && d.submissions == c.submissions && |d.runs| == |c.runs| + 1
  {
    hide After, Next, RunStep, Alone;
    var d0, d1, d2, d3, d4, d5, d6 := AloneStates(c, e);
    AfterNone(c);
    AfterStep(c, [], EventArrives(e));
    assert [] + [EventArrives(e)] == [EventArrives(e)];
    AloneIs(|c.runs|, e);
    SixSteps(c, |c.runs|, [EventArrives(e)], d0, d1, d2, d3, d4, d5, d6);
  }

  /** Two events that announce one video are both queued, even when they are processed one after the other, and the
      batch that holds both can never be recorded. */
  lemma {:induction false} SameVideoTwice(a: Key, b: Key, video: Key)
    requires a != b
    ensures var h := Alone(0, Event(a, Found(video))) + Alone(1, Event(b, Found(video)));
            var c := After(Start({}, {}), h);
            && c.queue == [Video(video, a), Video(video, b)]
            && !CanBeDelivered(After(Start({}, {}), h + [Tick]), 0)
  {
    var h0, h1 := Alone(0, Event(a, Found(video))), Alone(1, Event(b, Found(video)));
    var s := Start({}, {});
    AfterAppend(s, h0, h1);
    AfterStep(s, h0 + h1, Tick);
    hide After;
    AloneQueues(s, Event(a, Found(video)));
    AloneQueues(After(s, h0), Event(b, Found(video)));
    var c := After(s, h0 + h1);
    assert c.queue == [Video(video, a), Video(video, b)];
    var d := Submit(c);
    assert d.submissions == [Submission(c.queue[..2], Posting)];
    var batch := c.queue[..2];
    assert batch[0].id == batch[1].id;
    DeliverableIff(d, 0);
  }
}
