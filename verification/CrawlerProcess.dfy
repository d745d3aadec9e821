/**
  The crawler's own, imperative form: the global queue, the counters and the two tables, changed by the segments of
  processVideoEvent and submitVideoBatch that run between two awaits. The loop over a batch's rows is spread over
  such segments. Every segment keeps the laws of the queue, the counters and the tables.
 */
module CrawlerProcess {
  import opened Crawler
  import opened CrawlerDelivery

  class CrawlerProcess {
    /** What seen_videos held when the crawler was started */
    ghost const initialVideos: set<Key>
    var eventsFound: nat
    var newVideos: nat
    var duplicates: nat
    var apiErrors: nat
    var videoQueue: seq<Video>
    var seenEvents: set<Key>
    var seenVideos: set<Key>
    var runs: seq<Run>
    var submissions: seq<Submission>

    ghost function State(): Crawler
      reads this
    {
      Crawler(Stats(eventsFound, newVideos, duplicates, apiErrors), videoQueue, seenEvents, seenVideos, runs,
              submissions)
    }

    ghost predicate Valid()
      reads this
    {
      Lawful(State(), initialVideos)
    }

    constructor (events: set<Key>, videos: set<Key>)
      ensures Valid() && State() == Start(events, videos) && initialVideos == videos
    {
      initialVideos := videos;
      eventsFound, newVideos, duplicates, apiErrors := 0, 0, 0, 0;
      videoQueue, seenEvents, seenVideos, runs, submissions := [], events, videos, [], [];
      new;
      StartLawful(events, videos);
      hide Lawful;
    }

    /** A listener calls processVideoEvent; its first segment ends at the lookup of the event. */
    method ProcessVideoEvent(event: Event)
      requires Valid()
      modifies this
      ensures Valid() && State() == Next(old(State()), EventArrives(event))
    {
      hide Lawful;
      StepLawful(State(), EventArrives(event), initialVideos);
      eventsFound := eventsFound + 1;
      runs := runs + [Run(event, SeekingEvent)];
    }

    /** submitVideoBatch, up to the request */
    method SubmitVideoBatch()
      modifies this
      ensures State() == Submit(old(State()))
      ensures old(Valid()) ==> Valid()
      ensures videoQueue == [] || |old(videoQueue)| > BATCH_SIZE
    {
      hide Lawful;
      if Valid() { StepLawful(State(), Tick, initialVideos); }
      if |videoQueue| == 0 { return; }
      var n := if |videoQueue| < BATCH_SIZE then |videoQueue| else BATCH_SIZE;
      var batch := videoQueue[..n];
      videoQueue := videoQueue[n..];
      submissions := submissions + [Submission(batch, Posting)];
    }

    method Await(i: nat, phase: Phase)
      requires i < |runs|
      modifies `runs
      ensures runs == old(runs)[i := Run(old(runs)[i].event, phase)]
    {
      runs := runs[i := runs[i].(phase := phase)];
    }

    /** The database executes the operation that a run waits for. */
    method Execute(i: nat, ok: bool)
      requires Valid() && i < |runs|
      requires runs[i].phase.SeekingEvent? || runs[i].phase.MarkingEvent? || runs[i].phase.SeekingVideo?
      modifies this
      ensures Valid() && State() == Next(old(State()), Proceed(i, ok))
    {
      hide Lawful;
      StepLawful(State(), Proceed(i, ok), initialVideos);
      var event := runs[i].event;
      match runs[i].phase
      case SeekingEvent =>
        if ok { Await(i, SoughtEvent(event.id in seenEvents)); } else { Await(i, Rejected); }
      case MarkingEvent =>
        if ok && event.id !in seenEvents {
          seenEvents := seenEvents + {event.id};
          Await(i, MarkedEvent(true));
        } else {
          Await(i, MarkedEvent(false));
        }
      case SeekingVideo(video) =>
        if ok { Await(i, SoughtVideo(video, video.id in seenVideos)); } else { Await(i, Rejected); }
    }

    /** The segment after the lookup of the event */
    method AfterEventLookup(i: nat)
      requires Valid() && i < |runs| && runs[i].phase.SoughtEvent?
      modifies this
      ensures Valid() && State() == Next(old(State()), Proceed(i, true))
    {
      hide Lawful;
      StepLawful(State(), Proceed(i, true), initialVideos);
      if runs[i].phase.existing {
        duplicates := duplicates + 1;
        Await(i, Duplicate);
        return;
      }
      Await(i, MarkingEvent);
    }

    /** The segment after the insertion of the event */
    method AfterEventInsert(i: nat)
      requires Valid() && i < |runs| && runs[i].phase.MarkedEvent?
      modifies this
      ensures Valid() && State() == Next(old(State()), Proceed(i, true))
    {
      hide Lawful;
      StepLawful(State(), Proceed(i, true), initialVideos);
      var event := runs[i].event;
      if !runs[i].phase.ok || event.extraction.Throws? {
        Await(i, Rejected);
        return;
      }
      if event.extraction.Nothing? {
        Await(i, NoUrl);
        return;
      }
      Await(i, SeekingVideo(Video(event.extraction.video, event.id)));
    }

    /** The segment after the lookup of the video */
    method AfterVideoLookup(i: nat)
      requires Valid() && i < |runs| && runs[i].phase.SoughtVideo?
      modifies this
      ensures Valid() && State() == Next(old(State()), Proceed(i, true))
    {
      hide Lawful;
      StepLawful(State(), Proceed(i, true), initialVideos);
      var video := runs[i].phase.video;
      if runs[i].phase.existing {
        duplicates := duplicates + 1;
        Await(i, Duplicate);
        return;
      }
      Await(i, New(video));
      videoQueue := videoQueue + [video];
      newVideos := newVideos + 1;
      if |videoQueue| >= BATCH_SIZE {
        SubmitVideoBatch();
      }
    }

    method Continue(i: nat, progress: Progress)
      requires i < |submissions|
      modifies `submissions
      ensures submissions == old(submissions)[i := Submission(old(submissions)[i].batch, progress)]
    {
      submissions := submissions[i := submissions[i].(progress := progress)];
    }

    /** Counts the failure and puts the batch back in front of the queue. */
    method PutBack(i: nat, accepted: bool, rows: nat)
      requires i < |submissions|
      modifies this
      ensures State() == Requeue(old(State()), i, accepted, rows)
    {
      apiErrors := apiErrors + 1;
      videoQueue := submissions[i].batch + videoQueue;
      Continue(i, Requeued(accepted, rows));
    }

    /** The API answers, or the request fails. */
    method AfterResponse(i: nat, reply: Reply)
      requires Valid() && i < |submissions| && submissions[i].progress.Posting?
      modifies this
      ensures Valid() && State() == Next(old(State()), Advance(i, reply))
    {
      hide Lawful;
      StepLawful(State(), Advance(i, reply), initialVideos);
      match reply
      case Accept => Continue(i, Recording(0));
      case Refuse => Continue(i, Refused);
      case NetworkError => PutBack(i, false, 0);
    }

    /** The text of a refusal has been read. */
    method AfterRefusal(i: nat, reply: Reply)
      requires Valid() && i < |submissions| && submissions[i].progress.Refused?
      modifies this
      ensures Valid() && State() == Next(old(State()), Advance(i, reply))
    {
      hide Lawful;
      StepLawful(State(), Advance(i, reply), initialVideos);
      PutBack(i, false, 0);
    }

    /** The database executes the insertion of one row. */
    method InsertRow(i: nat, reply: Reply)
      requires Valid() && i < |submissions| && submissions[i].progress.Recording?
      modifies this
      ensures Valid() && State() == Next(old(State()), Advance(i, reply))
    {
      hide Lawful;
      StepLawful(State(), Advance(i, reply), initialVideos);
      var k, batch := submissions[i].progress.k, submissions[i].batch;
      if k < |batch| && reply == Accept && batch[k].id !in seenVideos {
        seenVideos := seenVideos + {batch[k].id};
        Continue(i, Recorded(k, true));
      } else {
        Continue(i, Recorded(k, false));
      }
    }

    /** The segment after a row's insertion: the next row, the end of the loop, or the catch block */
    method AfterRow(i: nat, reply: Reply)
      requires Valid() && i < |submissions| && submissions[i].progress.Recorded?
      modifies this
      ensures Valid() && State() == Next(old(State()), Advance(i, reply))
    {
      hide Lawful;
      StepLawful(State(), Advance(i, reply), initialVideos);
      var k, batch := submissions[i].progress.k, submissions[i].batch;
      if !submissions[i].progress.ok {
        PutBack(i, true, k);
      } else if k + 1 < |batch| {
        Continue(i, Recording(k + 1));
      } else {
        Continue(i, Delivered);
      }
    }
  }
}
