/**
  Which queued videos the crawler can still deliver. A batch is refused as a whole, so a video has to be brought
  into a batch without the others that hold it back: requests that fail put their batches back in front, and new
  videos fill a batch up.
 */
module CrawlerReach {
  import opened Bags
  import opened Numbers
  import opened Crawler
  import opened CrawlerDelivery
  import opened CrawlerPoison

  // ----- New keys -----

  lemma {:induction false} LengthBound(s: set<Key>) returns (n: nat)
    ensures forall x | x in s :: |x| < n
  {
    if x :| x in s {
      var m := LengthBound(s - {x});
      n := if m > |x| then m else |x| + 1;
      assert s == (s - {x}) + {x};
    } else {
      n := 0;
    }
  }

  lemma {:induction false} NewKey(s: set<Key>) returns (key: Key)
    ensures key !in s
  {
    var n := LengthBound(s);
    key := seq(n, _ => 'k');
  }

  // ----- Moves -----

  lemma {:induction false} OneStep(c: Crawler, step: Step)
    ensures After(c, [step]) == Next(c, step)
  {
    AfterNone(c);
    AfterStep(c, [], step);
    assert [] + [step] == [step];
  }

  predicate AreNew(videos: seq<Video>, avoid: set<Key>) {
    && (forall k | 0 <= k < |videos| :: videos[k].id !in avoid)
    && (forall j, k | 0 <= j < k < |videos| :: videos[j].id != videos[k].id)
  }

  lemma {:induction false} AreNewSnoc(videos: seq<Video>, v: Video, avoid: set<Key>)
    requires AreNew(videos, avoid) && v.id !in avoid && forall x | x in videos :: x.id != v.id
    ensures AreNew(videos + [v], avoid)
  {
  }

  /** New events with new videos can fill the queue up to nine. */
  lemma {:induction false} PushNew(c: Crawler, n: nat, avoid: set<Key>) returns (t: seq<Step>, videos: seq<Video>)
    requires |c.queue| + n < BATCH_SIZE
    ensures |videos| == n && AreNew(videos, avoid + c.seenVideos)
    ensures var d := After(c, t);
            d.queue == c.queue + videos && d.seenVideos == c.seenVideos && d.submissions == c.submissions
  {
    if n == 0 {
      t, videos := [], [];
      AfterNone(c);
      assert c.queue + [] == c.queue;
    } else {
      var g, before := PushNew(c, n - 1, avoid);
      var d := After(c, g);
      var event := NewKey(d.seenEvents);
      var ids := set x | x in before :: x.id;
      var video := NewKey(avoid + c.seenVideos + ids);
      var e := Event(event, Found(video));
      hide After, Next, AreNew;
      AloneQueues(d, e);
      AfterAppend(c, g, Alone(|d.runs|, e));
      t, videos := g + Alone(|d.runs|, e), before + [Video(video, event)];
      forall x | x in before ensures x.id != video { assert x.id in ids; }
      AreNewSnoc(before, Video(video, event), avoid + c.seenVideos);
      assert c.queue + before + [Video(video, event)] == c.queue + videos;
    }
  }

  /** A batch under way that may still fail */
  predicate Underway(c: Crawler, j: int, batch: seq<Video>) {
    0 <= j < |c.submissions| && c.submissions[j] == Submission(batch, Posting)
  }

  lemma {:induction false} TickStep(c: Crawler)
    requires c.queue != []
    ensures var n := Min(|c.queue|, BATCH_SIZE); var d := Next(c, Tick);
            && d.queue == c.queue[n..] && d.seenVideos == c.seenVideos
            && d.submissions == c.submissions + [Submission(c.queue[..n], Posting)]
  {
  }

  lemma {:induction false} FailStep(c: Crawler, j: nat, batch: seq<Video>)
    requires Underway(c, j, batch)
    ensures var d := Next(c, Advance(j, NetworkError));
            && d.queue == batch + c.queue && d.seenVideos == c.seenVideos && |d.submissions| == |c.submissions|
            && forall k, b | k != j && Underway(c, k, b) :: Underway(d, k, b)
  {
  }

  /** The whole queue can be sent out, in batches of at most ten. */
  lemma {:induction false} Drain(c: Crawler, v: Video) returns (t: seq<Step>, j: nat, batch: seq<Video>)
    requires v in c.queue
    ensures var d := After(c, t);
            && d.queue == [] && d.seenVideos == c.seenVideos
            && Underway(d, j, batch) && v in batch && |batch| <= BATCH_SIZE
    decreases |c.queue|
  {
    var d := Next(c, Tick);
    TickStep(c);
    OneStep(c, Tick);
    var n := Min(|c.queue|, BATCH_SIZE);
    assert c.queue == c.queue[..n] + c.queue[n..];
    hide After, Next;
    if v in c.queue[..n] {
      var g := DrainRest(d);
      AfterAppend(c, [Tick], g);
      t, j, batch := [Tick] + g, |c.submissions|, c.queue[..n];
      assert Underway(d, j, batch);
    } else {
      var g;
      g, j, batch := Drain(d, v);
      AfterAppend(c, [Tick], g);
      t := [Tick] + g;
    }
  }

  lemma {:induction false} DrainRest(c: Crawler) returns (t: seq<Step>)
    ensures var d := After(c, t);
            && d.queue == [] && d.seenVideos == c.seenVideos
            && forall k, b | Underway(c, k, b) :: Underway(d, k, b)
    decreases |c.queue|
  {
    if c.queue == [] {
      t := [];
      AfterNone(c);
    } else {
      var d := Next(c, Tick);
      TickStep(c);
      OneStep(c, Tick);
      hide After, Next;
      var g := DrainRest(d);
      AfterAppend(c, [Tick], g);
      t := [Tick] + g;
    }
  }

  lemma {:induction false} JoinTwo(c: Crawler, g: seq<Step>, step: Step)
    ensures After(c, g + [step]) == Next(After(c, g), step)
  {
    AfterStep(c, g, step);
  }

  /** For a batch under way with the queue empty: new videos are put in front of it, so that a batch of ten ends behind
      its first m videos. The batch of ten is under way then, and the rest of the old batch is the queue. */
  lemma {:induction false} Shift(c: Crawler, j: nat, batch: seq<Video>, m: nat, avoid: set<Key>)
      returns (t: seq<Step>, i: nat, front: seq<Video>)
    requires c.queue == [] && Underway(c, j, batch) && 0 < m <= |batch| && m < BATCH_SIZE
    ensures AreNew(front, avoid + c.seenVideos) && |front| + m == BATCH_SIZE
    ensures var d := After(c, t);
            d.queue == batch[m..] && d.seenVideos == c.seenVideos && Underway(d, i, front + batch[..m])
  {
    var g;
    g, front := PushNew(c, BATCH_SIZE - m, avoid);
    var d1 := After(c, g);
    assert d1.queue == front;
    var f := |d1.submissions|;
    var d2, d3, d4, d5 := ShiftSteps(d1, j, batch, front, m);
    hide After, Next, AreNew;
    JoinTwo(c, g, Tick);
    JoinTwo(c, g + [Tick], Advance(j, NetworkError));
    JoinTwo(c, g + [Tick] + [Advance(j, NetworkError)], Advance(f, NetworkError));
    JoinTwo(c, g + [Tick] + [Advance(j, NetworkError)] + [Advance(f, NetworkError)], Tick);
    t := g + [Tick] + [Advance(j, NetworkError)] + [Advance(f, NetworkError)] + [Tick];
    i := |d4.submissions|;
  }

  lemma {:induction false} ShiftSteps(d1: Crawler, j: nat, batch: seq<Video>, front: seq<Video>, m: nat)
      returns (d2: Crawler, d3: Crawler, d4: Crawler, d5: Crawler)
    requires d1.queue == front && Underway(d1, j, batch) && 0 < m <= |batch| && |front| + m == BATCH_SIZE && front != []
    ensures d2 == Next(d1, Tick) && d3 == Next(d2, Advance(j, NetworkError))
    ensures d4 == Next(d3, Advance(|d1.submissions|, NetworkError)) && d5 == Next(d4, Tick)
    ensures d5.queue == batch[m..] && d5.seenVideos == d1.seenVideos
    ensures Underway(d5, |d4.submissions|, front + batch[..m])
  {
    d2 := Next(d1, Tick);
    d3 := Next(d2, Advance(j, NetworkError));
    d4 := Next(d3, Advance(|d1.submissions|, NetworkError));
    d5 := Next(d4, Tick);
    hide Next;
    TickStep(d1);
    assert d1.queue[..|front|] == front && d1.queue[|front|..] == [];
    assert Underway(d2, j, batch) && Underway(d2, |d1.submissions|, front);
    FailStep(d2, j, batch);
    assert d3.queue == batch;
    FailStep(d3, |d1.submissions|, front);
    assert d4.queue == front + batch;
    TickStep(d4);
    assert (front + batch)[..BATCH_SIZE] == front + batch[..m] && (front + batch)[BATCH_SIZE..] == batch[m..];
  }

  // ----- Delivering one video -----

  lemma {:induction false} BatchKept(c: Crawler, i: nat, t: seq<Step>)
    requires i < |c.submissions|
    ensures i < |After(c, t).submissions| && After(c, t).submissions[i].batch == c.submissions[i].batch
  {
    if t != [] {
      var d, step := After(c, t[..|t| - 1]), t[|t| - 1];
      BatchKept(c, i, t[..|t| - 1]);
      if step.Advance? && step.j == i { AdvanceKeepsBatch(d, i, step.reply); } else { OthersUnchanged(d, step, i); }
      hide Next;
    }
  }

  lemma {:induction false} AdvanceKeepsBatch(c: Crawler, i: nat, reply: Reply)
    requires i < |c.submissions|
    ensures var d := Next(c, Advance(i, reply)); i < |d.submissions| && d.submissions[i].batch == c.submissions[i].batch
  {
  }

  lemma {:induction false} DeliveredIn(c: Crawler, i: nat, v: Video)
    requires i < |c.submissions| && c.submissions[i].progress == Delivered && v in c.submissions[i].batch
    ensures v in AllDelivered(c.submissions)
  {
    var ss := c.submissions;
    var bags := seq(|ss|, k requires 0 <= k < |ss| => DeliveredBy(ss[k]));
    assert v in bags[i];
    UnionContains(bags, v);
  }

  /** A batch of new videos that ends with v can be recorded. */
  lemma {:induction false} FreshBatchDelivers(c: Crawler, i: nat, front: seq<Video>, v: Video) returns (t: seq<Step>)
    requires Underway(c, i, front + [v]) && AreNew(front, {v.id} + c.seenVideos) && v.id !in c.seenVideos
    ensures v in AllDelivered(After(c, t).submissions)
  {
    var batch := front + [v];
    assert forall j | 0 <= j < |batch| :: batch[j] == if j < |front| then front[j] else v;
    DeliverableIff(c, i);
    hide After;
    t :| i < |After(c, t).submissions| && After(c, t).submissions[i].progress == Delivered;
    BatchKept(c, i, t);
    assert v in batch;
    DeliveredIn(After(c, t), i, v);
  }

  /** From a batch under way that holds v, to one whose first video is v */
  lemma {:induction false} BringFirst(c: Crawler, j: nat, batch: seq<Video>, v: Video)
      returns (t: seq<Step>, i: nat, rest: seq<Video>)
    requires c.queue == [] && Underway(c, j, batch) && v in batch && |batch| <= BATCH_SIZE
    ensures var d := After(c, t);
            d.queue == [] && d.seenVideos == c.seenVideos && Underway(d, i, [v] + rest) && |rest| < BATCH_SIZE
  {
    hide After, Next;
    var p :| 0 <= p < |batch| && batch[p] == v;
    if p == 0 {
      t, i, rest := [], j, batch[1..];
      AfterNone(c);
      assert [v] + rest == batch;
    } else {
      var front;
      t, i, front := Shift(c, j, batch, p, {});
      var d := After(c, t);
      TickStep(d);
      JoinTwo(c, t, Tick);
      assert d.queue == [v] + batch[p + 1..];
      assert d.queue[..|d.queue|] == d.queue && d.queue[|d.queue|..] == [];
      t, i, rest := t + [Tick], |d.submissions|, batch[p + 1..];
    }
  }

  lemma {:induction false} UnseenCanBeDelivered(c: Crawler, v: Video) returns (t: seq<Step>)
    requires v in c.queue && v.id !in c.seenVideos
    ensures v in AllDelivered(After(c, t).submissions)
  {
    var t0, j, batch := Drain(c, v);
    var d0 := After(c, t0);
    var t1, i, rest := BringFirst(d0, j, batch, v);
    var d1 := After(d0, t1);
    var t2, k, front := Shift(d1, i, [v] + rest, 1, {v.id});
    var d2 := After(d1, t2);
    assert ([v] + rest)[..1] == [v];
    var t3 := FreshBatchDelivers(d2, k, front, v);
    hide After, Next, AllDelivered;
    AfterAppend(c, t0, t1);
    AfterAppend(c, t0 + t1, t2);
    AfterAppend(c, t0 + t1 + t2, t3);
    t := t0 + t1 + t2 + t3;
  }

  /** In every run: a queued video can still be delivered if and only if its id is not in seen_videos. */
  lemma {:induction false} QueuedDeliverableIff(seenEvents: set<Key>, initial: set<Key>, h: seq<Step>, v: Video)
    requires v in After(Start(seenEvents, initial), h).queue
    ensures (exists t :: v in AllDelivered(After(Start(seenEvents, initial), h + t).submissions)) <==>
            v.id !in After(Start(seenEvents, initial), h).seenVideos
  {
    var s := Start(seenEvents, initial);
    hide After, AllDelivered, Start;
    if v.id in After(s, h).seenVideos {
      forall t ensures v !in AllDelivered(After(s, h + t).submissions) {
        QueuedDuplicateNeverDelivered(seenEvents, initial, h, t, v);
      }
    } else {
      var t := UnseenCanBeDelivered(After(s, h), v);
      AfterAppend(s, h, t);
    }
  }
}
