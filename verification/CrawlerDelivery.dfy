/**
  What the crawler's two tables guarantee about the videos it delivers, and which videos it can never deliver.
 */
module CrawlerDelivery {
  import opened Crawler

  // ----- The gate -----

  /** The run's event has been inserted into seen_events by this run. */
  predicate PastGate(r: Run) {
    r.phase == MarkedEvent(true) || r.phase.SeekingVideo? || r.phase.SoughtVideo? || r.phase.NoUrl? || r.phase.New?
  }

  function VideoOf(r: Run): seq<Video> {
    match r.phase
    case SeekingVideo(video) => [video]
    case SoughtVideo(video, _) => [video]
    case New(video) => [video]
    case _ => []
  }

  ghost predicate Gated(c: Crawler) {
    && (forall r | r in c.runs && PastGate(r) :: r.event.id in c.seenEvents)
    && (forall i, j | 0 <= i < j < |c.runs| && PastGate(c.runs[i]) && PastGate(c.runs[j]) ::
          c.runs[i].event.id != c.runs[j].event.id)
    && (forall r | r in c.runs && VideoOf(r) != [] :: r.event.extraction.Found? &&
          VideoOf(r)[0] == Video(r.event.extraction.video, r.event.id))
  }

  lemma {:induction false} SubmissionsKeepGate(c: Crawler, i: nat, reply: Reply)
    requires i < |c.submissions|
    ensures SubmissionStep(c, i, reply).runs == c.runs && SubmissionStep(c, i, reply).seenEvents == c.seenEvents
  {
  }

  /** What a step does to its own run: it passes the gate only with the insertion of its event. */
  lemma {:induction false} OneRunMoves(c: Crawler, i: nat, ok: bool)
    requires i < |c.runs|
    requires PastGate(c.runs[i]) ==> c.runs[i].event.id in c.seenEvents
    requires var r := c.runs[i]; VideoOf(r) != [] ==>
               r.event.extraction.Found? && VideoOf(r)[0] == Video(r.event.extraction.video, r.event.id)
    ensures var d := RunStep(c, i, ok);
            && c.seenEvents <= d.seenEvents && |d.runs| == |c.runs| && d.runs == c.runs[i := d.runs[i]]
            && var r := d.runs[i];
               && r.event == c.runs[i].event
               && (PastGate(r) ==> r.event.id in d.seenEvents && (PastGate(c.runs[i]) || r.event.id !in c.seenEvents))
               && (VideoOf(r) != [] ==>
                     r.event.extraction.Found? && VideoOf(r)[0] == Video(r.event.extraction.video, r.event.id))
  {
  }

  lemma {:induction false} RunStepGate(c: Crawler, i: nat, ok: bool)
    requires i < |c.runs| && Gated(c)
    ensures Gated(RunStep(c, i, ok))
  {
    hide RunStep, PastGate, VideoOf;
    var d := RunStep(c, i, ok);
    assert c.runs[i] in c.runs;
    OneRunMoves(c, i, ok);
    forall k, m | 0 <= k < m < |d.runs| && PastGate(d.runs[k]) && PastGate(d.runs[m])
      ensures d.runs[k].event.id != d.runs[m].event.id
    {
      assert c.runs[k] in c.runs && c.runs[m] in c.runs;
    }
  }

  lemma {:induction false} StepGate(c: Crawler, step: Step)
    requires Gated(c)
    ensures Gated(Next(c, step))
  {
    match step
    case EventArrives(event) =>
      var d := Next(c, step);
      forall r | r in d.runs ensures r in c.runs || r == Run(event, SeekingEvent) {}
    case Proceed(i, ok) => if i < |c.runs| { RunStepGate(c, i, ok); }
    case Tick =>
    case Advance(j, reply) => if j < |c.submissions| { SubmissionsKeepGate(c, j, reply); }
  }

  /** In every interleaving of the SELECTs and INSERTs, no two runs for one event are past the gate. */
  lemma {:induction false} GateHolds(seenEvents: set<Key>, seenVideos: set<Key>, h: seq<Step>)
    ensures Gated(After(Start(seenEvents, seenVideos), h))
  {
    if h != [] {
      GateHolds(seenEvents, seenVideos, h[..|h| - 1]);
      StepGate(After(Start(seenEvents, seenVideos), h[..|h| - 1]), h[|h| - 1]);
    }
  }

  /** Step n takes a run for the event id through the gate. */
  ghost predicate Admits(c: Crawler, h: seq<Step>, n: nat, id: Key) {
    && n < |h| && h[n].Proceed?
    && var d := After(c, h[..n]);
       h[n].i < |d.runs| && d.runs[h[n].i].phase == MarkingEvent && d.runs[h[n].i].event.id == id
       && h[n].ok && id !in d.seenEvents
  }

  lemma {:induction false} SeenGrows(c: Crawler, step: Step)
    ensures c.seenEvents <= Next(c, step).seenEvents && c.seenVideos <= Next(c, step).seenVideos
  {
  }

  lemma {:induction false} SeenGrowsInRun(c: Crawler, h: seq<Step>, n: nat, m: nat)
    requires n <= m <= |h|
    ensures After(c, h[..n]).seenEvents <= After(c, h[..m]).seenEvents
    decreases m
  {
    if n < m {
      SeenGrowsInRun(c, h, n, m - 1);
      assert h[..m][..m - 1] == h[..m - 1];
      SeenGrows(After(c, h[..m - 1]), h[m - 1]);
    }
  }

  /** Over a whole run each event id passes the gate at most once, and never when an earlier session had seen it. */
  lemma {:induction false} AdmittedOnce(c: Crawler, h: seq<Step>, n: nat, m: nat, id: Key)
    requires Admits(c, h, n, id)
    ensures id !in c.seenEvents
    ensures Admits(c, h, m, id) ==> n == m
  {
    SeenGrowsInRun(c, h, 0, n);
    assert h[..0] == [] && After(c, []) == c;
    if Admits(c, h, m, id) {
      if n < m { AdmittedSeen(c, h, n, m, id); }
      if m < n { AdmittedSeen(c, h, m, n, id); }
    }
  }

  lemma {:induction false} AdmittedSeen(c: Crawler, h: seq<Step>, n: nat, m: nat, id: Key)
    requires Admits(c, h, n, id) && n < m <= |h|
    ensures id in After(c, h[..m]).seenEvents
  {
    AfterStep(c, h[..n], h[n]);
    assert h[..n] + [h[n]] == h[..n + 1];
    assert id in Next(After(c, h[..n]), h[n]).seenEvents;
    SeenGrowsInRun(c, h, n + 1, m);
  }

  // ----- Every pushed video is in one place -----

  lemma {:induction false} PushesDiffer(c: Crawler, i: nat, j: nat)
    requires Gated(c) && i < j < |c.runs| && c.runs[i].phase.New? && c.runs[j].phase.New?
    ensures c.runs[i].phase.video != c.runs[j].phase.video
  {
    assert c.runs[i] in c.runs && c.runs[j] in c.runs;
    assert VideoOf(c.runs[i]) != [] && VideoOf(c.runs[j]) != [];
    assert PastGate(c.runs[i]) && PastGate(c.runs[j]);
  }

  lemma {:induction false} NothingPushed()
    ensures Pushed([]) == multiset{}
  {
  }

  lemma {:induction false} PushedByOne(c: Crawler, n: nat, v: Video)
    requires Gated(c) && n <= |c.runs|
    ensures Pushed(c.runs[..n])[v] <= 1
    ensures v in Pushed(c.runs[..n]) <==> exists k :: 0 <= k < n && c.runs[k].phase == New(v)
  {
    hide Gated, Pushed, Tally;
    if n == 0 {
      assert c.runs[..0] == [];
      NothingPushed();
    } else {
      PushedByOne(c, n - 1, v);
      var before, r := c.runs[..n - 1], c.runs[n - 1];
      assert c.runs[..n] == before + [r];
      RunsAppend(before, r);
      if r.phase == New(v) {
        forall k | 0 <= k < n - 1 ensures c.runs[k].phase != New(v) {
          if c.runs[k].phase == New(v) { PushesDiffer(c, k, n - 1); }
        }
      }
    }
  }

  /** A video that some run has pushed is once in the queue, or once in a batch under way, or once in a batch that was
      recorded row by row; a video that none has pushed is nowhere. */
  lemma {:induction false} InOnePlace(seenEvents: set<Key>, seenVideos: set<Key>, h: seq<Step>, v: Video)
    ensures var c := After(Start(seenEvents, seenVideos), h);
            multiset(c.queue)[v] + InFlight(c.submissions)[v] + AllDelivered(c.submissions)[v] ==
            if exists k :: 0 <= k < |c.runs| && c.runs[k].phase == New(v) then 1 else 0
  {
    GateHolds(seenEvents, seenVideos, h);
    Conservation(seenEvents, seenVideos, h);
    var c := After(Start(seenEvents, seenVideos), h);
    PushedByOne(c, |c.runs|, v);
    assert c.runs[..|c.runs|] == c.runs;
  }

  // ----- The rows of seen_videos -----

  /** How many videos of the batch this submission has inserted: the first ones */
  function Rows(s: Submission): nat {
    match s.progress
    case Recording(k) => k
    case Recorded(k, ok) => if ok then k + 1 else k
    case Delivered => |s.batch|
    case Requeued(_, rows) => rows
    case _ => 0
  }

  /** The API's reply to this batch was ok. */
  predicate AcceptedByApi(s: Submission) {
    || s.progress.Recording? || s.progress.Recorded? || s.progress.Delivered?
    || (s.progress.Requeued? && s.progress.accepted)
  }

  predicate Sound(s: Submission) {
    && Rows(s) <= |s.batch|
    && (s.progress.Recording? ==> s.progress.k < |s.batch|)
    && (s.progress.Recorded? ==> s.progress.k < |s.batch|)
    && (Rows(s) > 0 ==> AcceptedByApi(s))
  }

  /** Row j of submission i is in the table. */
  predicate HasRow(c: Crawler, i: int, j: int, id: Key) {
    0 <= i < |c.submissions| && 0 <= j < Rows(c.submissions[i]) && j < |c.submissions[i].batch|
    && c.submissions[i].batch[j].id == id
  }

  /** The table holds what earlier sessions left and the inserted rows, each of them once. */
  ghost predicate TableExact(c: Crawler, initial: set<Key>) {
    && (forall s | s in c.submissions :: Sound(s) && s.batch != [])
    && (forall id :: id in c.seenVideos <==> id in initial || exists i, j :: HasRow(c, i, j, id))
    && (forall i, j, id | HasRow(c, i, j, id) :: id !in initial)
    && (forall i, j, i', j', id | HasRow(c, i, j, id) && HasRow(c, i', j', id) :: i == i' && j == j')
  }

  lemma {:induction false} SameRows(c: Crawler, d: Crawler, initial: set<Key>)
    requires TableExact(c, initial) && d.seenVideos == c.seenVideos && |c.submissions| <= |d.submissions|
    requires forall s | s in d.submissions :: Sound(s) && s.batch != []
    requires forall i | 0 <= i < |c.submissions| ::
               d.submissions[i].batch == c.submissions[i].batch && Rows(d.submissions[i]) == Rows(c.submissions[i])
    requires forall i | |c.submissions| <= i < |d.submissions| :: Rows(d.submissions[i]) == 0
    ensures TableExact(d, initial)
  {
    hide Sound;
    hide Rows;
    forall i, j, id ensures HasRow(d, i, j, id) <==> HasRow(c, i, j, id) {}
    hide HasRow;
  }

  lemma {:induction false} RowAdded(c: Crawler, d: Crawler, initial: set<Key>, i: nat, k: nat)
    requires TableExact(c, initial) && i < |c.submissions| == |d.submissions| && k < |c.submissions[i].batch|
    requires Rows(c.submissions[i]) == k && d.submissions == c.submissions[i := d.submissions[i]]
    requires d.submissions[i].batch == c.submissions[i].batch && Rows(d.submissions[i]) == k + 1
    requires Sound(d.submissions[i])
    requires c.submissions[i].batch[k].id !in c.seenVideos
    requires d.seenVideos == c.seenVideos + {c.submissions[i].batch[k].id}
    ensures TableExact(d, initial)
  {
    var x := c.submissions[i].batch[k].id;
    forall s | s in d.submissions ensures Sound(s) && s.batch != [] {
      assert c.submissions[i] in c.submissions;
    }
    hide Sound, Rows;
    forall m, j, id ensures HasRow(d, m, j, id) <==> HasRow(c, m, j, id) || (m == i && j == k && id == x) {}
    assert HasRow(d, i, k, x);
    hide HasRow;
  }

  lemma {:induction false} SubmissionStepRows(c: Crawler, i: nat, reply: Reply)
    requires i < |c.submissions| && Sound(c.submissions[i]) && c.submissions[i].batch != []
    ensures var d := SubmissionStep(c, i, reply); var s, s' := c.submissions[i], d.submissions[i];
            && d.submissions == c.submissions[i := s'] && s'.batch == s.batch && Sound(s')
            && if Rows(s') == Rows(s) then d.seenVideos == c.seenVideos
               else && Rows(s) < |s.batch| && Rows(s') == Rows(s) + 1 && s.batch[Rows(s)].id !in c.seenVideos
                    && d.seenVideos == c.seenVideos + {s.batch[Rows(s)].id}
  {
  }

  lemma {:induction false} SubmitRows(c: Crawler, initial: set<Key>)
    requires TableExact(c, initial)
    ensures TableExact(Submit(c), initial)
  {
    var d := Submit(c);
    forall s | s in d.submissions ensures Sound(s) && s.batch != [] {}
    hide TableExact, Sound;
    SameRows(c, d, initial);
  }

  lemma {:induction false} RunStepRows(c: Crawler, i: nat, ok: bool, initial: set<Key>)
    requires i < |c.runs| && TableExact(c, initial)
    ensures TableExact(RunStep(c, i, ok), initial)
  {
    RunStepMoves(c, i, ok);
    var p := RunStep(c, i, ok).runs[i].phase;
    var d := WithPhase(c, i, p).(seenEvents := RunStep(c, i, ok).seenEvents);
    hide RunStep, Sound, Rows;
    SameRows(c, d, initial);
    if OutcomeOf(c.runs[i]) == IsRunning {
      if p.New? {
        var e := d.(queue := d.queue + [p.video], stats := d.stats.(newVideos := d.stats.newVideos + 1));
        SameRows(c, e, initial);
        SubmitRows(e, initial);
      } else if p.Duplicate? {
        SameRows(c, CountDuplicate(d), initial);
      }
    }
  }

  lemma {:induction false} StepRows(c: Crawler, step: Step, initial: set<Key>)
    requires TableExact(c, initial)
    ensures TableExact(Next(c, step), initial)
  {
    match step
    case EventArrives(event) => SameRows(c, Next(c, step), initial);
    case Proceed(i, ok) => if i < |c.runs| { RunStepRows(c, i, ok, initial); }
    case Tick => SubmitRows(c, initial);
    case Advance(j, reply) =>
      if j < |c.submissions| {
        var s := c.submissions[j];
        assert s in c.submissions;
        SubmissionStepRows(c, j, reply);
        var d := SubmissionStep(c, j, reply);
        hide SubmissionStep, TableExact, Sound, Rows;
        if Rows(d.submissions[j]) == Rows(s) {
          StillSound(c, d, j, initial);
          SameRows(c, d, initial);
        } else {
          RowAdded(c, d, initial, j, Rows(s));
        }
      }
  }

  lemma {:induction false} StillSound(c: Crawler, d: Crawler, i: nat, initial: set<Key>)
    requires TableExact(c, initial) && i < |c.submissions| == |d.submissions|
    requires d.submissions == c.submissions[i := d.submissions[i]] && Sound(d.submissions[i])
    requires d.submissions[i].batch == c.submissions[i].batch
    ensures forall s | s in d.submissions :: Sound(s) && s.batch != []
  {
    hide HasRow, Sound;
    assert c.submissions[i] in c.submissions;
  }

  /** In every run, an id is in seen_videos just when it was there initially or a submission inserted it as one of its
      first rows; every inserted row is inserted once, and only from a batch that the API accepted. */
  lemma {:induction false} TableIsExact(seenEvents: set<Key>, initial: set<Key>, h: seq<Step>)
    ensures TableExact(After(Start(seenEvents, initial), h), initial)
  {
    if h == [] {
      assert Start(seenEvents, initial).submissions == [];
    } else {
      TableIsExact(seenEvents, initial, h[..|h| - 1]);
      StepRows(After(Start(seenEvents, initial), h[..|h| - 1]), h[|h| - 1], initial);
    }
  }

  /** Two rows of delivered batches never hold one video id. */
  lemma {:induction false} DeliveredOnce(seenEvents: set<Key>, initial: set<Key>, h: seq<Step>,
                                         i: nat, j: nat, i': nat, j': nat)
    requires var ss := After(Start(seenEvents, initial), h).submissions;
             && i < |ss| && ss[i].progress == Delivered && j < |ss[i].batch|
             && i' < |ss| && ss[i'].progress == Delivered && j' < |ss[i'].batch|
             && ss[i].batch[j].id == ss[i'].batch[j'].id
    ensures i == i' && j == j' && After(Start(seenEvents, initial), h).submissions[i].batch[j].id !in initial
  {
    TableIsExact(seenEvents, initial, h);
    var c := After(Start(seenEvents, initial), h);
    var id := c.submissions[i].batch[j].id;
    assert HasRow(c, i, j, id) && HasRow(c, i', j', id);
  }

  // ----- All of it together -----

  /** What holds between any two segments: nothing lost or doubled, counters right, the gate closed behind each event,
      and seen_videos exactly the initial ids and the inserted rows. */
  ghost predicate Lawful(c: Crawler, initial: set<Key>) {
    Conserved(c) && Counted(c) && Gated(c) && TableExact(c, initial)
  }

  lemma {:induction false} StepLawful(c: Crawler, step: Step, initial: set<Key>)
    requires Lawful(c, initial)
    ensures Lawful(Next(c, step), initial)
  {
    hide Next, Conserved, Counted, Gated, TableExact;
    StepConserves(c, step);
    StepGate(c, step);
    StepRows(c, step, initial);
  }

  lemma {:induction false} StartLawful(seenEvents: set<Key>, initial: set<Key>)
    ensures Lawful(Start(seenEvents, initial), initial)
  {
    Conservation(seenEvents, initial, []);
    GateHolds(seenEvents, initial, []);
    TableIsExact(seenEvents, initial, []);
    assert After(Start(seenEvents, initial), []) == Start(seenEvents, initial);
    hide Conserved, Counted, Gated, TableExact, Start;
  }
}
