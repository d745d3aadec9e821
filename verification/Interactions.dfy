/**
  A user's likes and reposts of many videos at once, after frontend-web/src/hooks/useBatchedVideoInteractions.ts, and
  of one video, after useVideoUserInteractions in frontend-web/src/hooks/useVideoSocialMetrics.ts.
 */
module Interactions {
  import opened Options

  type Id = string

  datatype Event = Event(id: Id, kind: nat, content: string, tags: seq<seq<string>>)

  datatype Video = Video(id: Id, pubkey: string, vineId: Option<string>)

  datatype Interaction = Interaction(hasLiked: bool, hasReposted: bool, likeEventId: Option<Id>,
                                     repostEventId: Option<Id>)

  const NOTHING := Interaction(false, false, None, None)

  predicate IsLike(e: Event) {
    e.kind == 7 && (e.content == "+" || e.content == "\U{2764}\U{FE0F}" || e.content == "\U{1F44D}")
  }

  predicate IsRepost(e: Event) {
    e.kind == 16
  }

  // ----- The loop body that both hooks share, and what folding it means -----

  function Noted(i: Interaction, e: Event): Interaction {
    var liked := if IsLike(e) then i.(hasLiked := true, likeEventId := Some(e.id)) else i;
    if IsRepost(e) then liked.(hasReposted := true, repostEventId := Some(e.id)) else liked
  }

  function Summary(es: seq<Event>): Interaction {
    if es == [] then NOTHING else Noted(Summary(es[..|es| - 1]), es[|es| - 1])
  }

  lemma {:induction false} SummaryAppend(es: seq<Event>, e: Event)
    ensures Summary(es + [e]) == Noted(Summary(es), e)
  {
    assert (es + [e])[..|es|] == es;
  }

  /** Event k is the last one of its sort. */
  predicate LastLike(es: seq<Event>, k: int) {
    0 <= k < |es| && IsLike(es[k]) && forall j | k < j < |es| :: !IsLike(es[j])
  }

  predicate LastRepost(es: seq<Event>, k: int) {
    0 <= k < |es| && IsRepost(es[k]) && forall j | k < j < |es| :: !IsRepost(es[j])
  }

  /** The flags say whether there is a like or a repost, and the ids are those of the last ones. */
  lemma {:induction false} SummaryMeans(es: seq<Event>)
    ensures var i := Summary(es);
            && (i.hasLiked <==> exists e :: e in es && IsLike(e))
            && (i.hasReposted <==> exists e :: e in es && IsRepost(e))
            && (i.hasLiked <==> i.likeEventId.Some?) && (i.hasReposted <==> i.repostEventId.Some?)
            && (forall k | LastLike(es, k) :: i.likeEventId == Some(es[k].id))
            && (forall k | LastRepost(es, k) :: i.repostEventId == Some(es[k].id))
  {
    LikesMean(es);
    RepostsMean(es);
    hide Summary, IsLike, IsRepost;
  }

  lemma {:induction false} LikesMean(es: seq<Event>)
    ensures var i := Summary(es);
            && (i.hasLiked <==> exists e :: e in es && IsLike(e)) && (i.hasLiked <==> i.likeEventId.Some?)
            && forall k | LastLike(es, k) :: i.likeEventId == Some(es[k].id)
  {
    hide Summary, IsLike, IsRepost;
    if es == [] {
      SummaryOfNone();
    } else {
      var before, e := es[..|es| - 1], es[|es| - 1];
      LikesMean(before);
      assert es == before + [e];
      SummaryAppend(before, e);
      assert forall x :: x in es <==> x in before || x == e;
      forall k | LastLike(es, k) && k < |before| ensures LastLike(before, k) {
        assert forall j | k < j < |before| :: before[j] == es[j];
      }
    }
  }

  lemma {:induction false} RepostsMean(es: seq<Event>)
    ensures var i := Summary(es);
            && (i.hasReposted <==> exists e :: e in es && IsRepost(e)) && (i.hasReposted <==> i.repostEventId.Some?)
            && forall k | LastRepost(es, k) :: i.repostEventId == Some(es[k].id)
  {
    hide Summary, IsLike, IsRepost;
    if es == [] {
      SummaryOfNone();
    } else {
      var before, e := es[..|es| - 1], es[|es| - 1];
      RepostsMean(before);
      assert es == before + [e];
      SummaryAppend(before, e);
      assert forall x :: x in es <==> x in before || x == e;
      forall k | LastRepost(es, k) && k < |before| ensures LastRepost(before, k) {
        assert forall j | k < j < |before| :: before[j] == es[j];
      }
    }
  }

  lemma {:induction false} SummaryOfNone()
    ensures Summary([]) == NOTHING
  {
  }

  // ----- Which video an event is about -----

  const SHORT_VIDEO_KIND := "34236"

  function Address(v: Video): string {
    SHORT_VIDEO_KIND + ":" + v.pubkey + ":" + (if v.vineId.Some? then v.vineId.value else "")
  }

  /** A null vine id and an empty one are both falsy. */
  predicate Addressable(v: Video) {
    v.vineId.Some? && v.vineId.value != ""
  }

  predicate Knows(videos: seq<Video>, id: Id) {
    exists v :: v in videos && v.id == id
  }

  function FindAddress(videos: seq<Video>, address: string): Option<Id> {
    if videos == [] then None
    else if Addressable(videos[0]) && Address(videos[0]) == address then Some(videos[0].id)
    else FindAddress(videos[1..], address)
  }

  /** The video that one tag picks, if any */
  function Picked(videos: seq<Video>, tag: seq<string>): Option<Id> {
    if |tag| >= 2 && tag[0] == "e" && Knows(videos, tag[1]) then Some(tag[1])
    else if |tag| >= 2 && tag[0] == "a" then FindAddress(videos, tag[1])
    else None
  }

  /** The first tag that picks a video decides. */
  function Resolved(videos: seq<Video>, tags: seq<seq<string>>): Option<Id> {
    if tags == [] then None
    else if Picked(videos, tags[0]).Some? then Picked(videos, tags[0])
    else Resolved(videos, tags[1..])
  }

  /** Of the events, those that are not deleted and about the video id */
  function About(videos: seq<Video>, events: seq<Event>, deleted: set<Id>, id: Id): seq<Event> {
    if events == [] then []
    else
      var n := |events| - 1;
      var before := About(videos, events[..n], deleted, id);
      if events[n].id !in deleted && Resolved(videos, events[n].tags) == Some(id) then before + [events[n]] else before
  }

  lemma {:induction false} AboutAppend(videos: seq<Video>, events: seq<Event>, e: Event, deleted: set<Id>, id: Id)
    ensures About(videos, events + [e], deleted, id) ==
            if e.id !in deleted && Resolved(videos, e.tags) == Some(id) then About(videos, events, deleted, id) + [e]
            else About(videos, events, deleted, id)
  {
    assert (events + [e])[..|events|] == events;
  }

  /** The ids that one delete event names in e tags with a non-empty value */
  function Named(deletion: Event): set<Id> {
    set tag | tag in deletion.tags && |tag| >= 2 && tag[0] == "e" && tag[1] != "" :: tag[1]
  }

  function Deleted(deletions: seq<Event>): set<Id> {
    set d, id | d in deletions && id in Named(d) :: id
  }

  // ----- The batched fold -----

  method DeletedIds(deletions: seq<Event>) returns (deleted: set<Id>)
    ensures deleted == Deleted(deletions)
  {
    deleted := {};
    for i := 0 to |deletions|
      invariant deleted == Deleted(deletions[..i])
    {
      var d := deletions[i];
      ghost var before := deleted;
      for j := 0 to |d.tags|
        invariant deleted == before + Named(d.(tags := d.tags[..j]))
      {
        var tag := d.tags[j];
        assert d.tags[..j + 1] == d.tags[..j] + [tag];
        if |tag| >= 2 && tag[0] == "e" && tag[1] != "" {
          deleted := deleted + {tag[1]};
        }
      }
      assert d.tags[..|d.tags|] == d.tags;
      assert deletions[..i + 1] == deletions[..i] + [d];
    }
    assert deletions[..|deletions|] == deletions;
  }

  method FindVideo(videos: seq<Video>, tags: seq<seq<string>>) returns (videoId: Option<Id>)
    ensures videoId == Resolved(videos, tags)
  {
    var j := 0;
    assert tags[0..] == tags;
    while j < |tags|
      invariant 0 <= j <= |tags|
      invariant Resolved(videos, tags) == Resolved(videos, tags[j..])
    {
      assert tags[j..][1..] == tags[j + 1..];
      var tag := tags[j];
      if |tag| >= 2 && tag[0] == "e" && Knows(videos, tag[1]) {
        return Some(tag[1]);
      }
      if |tag| >= 2 && tag[0] == "a" {
        var video := FindAddress(videos, tag[1]);
        if video.Some? {
          return video;
        }
      }
      j := j + 1;
    }
    return None;
  }

  /** What the batched hook says about one video id */
  function Batched(videos: seq<Video>, fetched: seq<Event>, deleted: set<Id>, id: Id): Interaction {
    if id == "" then NOTHING else Summary(About(videos, fetched, deleted, id))
  }

  lemma {:induction false} BatchedStep(videos: seq<Video>, events: seq<Event>, e: Event, deleted: set<Id>, id: Id)
    ensures Batched(videos, events + [e], deleted, id) ==
            if e.id !in deleted && Resolved(videos, e.tags) == Some(id) && id != "" then
              Noted(Batched(videos, events, deleted, id), e)
            else Batched(videos, events, deleted, id)
  {
    AboutAppend(videos, events, e, deleted, id);
    SummaryAppend(About(videos, events, deleted, id), e);
  }

  /** A failed query leaves the map as it was made: nothing liked, nothing reposted. */
  method BatchedInteractions(videos: seq<Video>, fetched: Option<seq<Event>>, deletions: Option<seq<Event>>)
    returns (interactions: map<Id, Interaction>)
    ensures forall id :: id in interactions <==> Knows(videos, id)
    ensures forall id | Knows(videos, id) :: interactions[id] ==
              if fetched.None? || deletions.None? then NOTHING
              else Batched(videos, fetched.value, Deleted(deletions.value), id)
  {
    interactions := map[];
    for i := 0 to |videos|
      invariant forall id :: id in interactions <==> Knows(videos[..i], id)
      invariant forall id | id in interactions :: interactions[id] == NOTHING
    {
      assert videos[..i + 1] == videos[..i] + [videos[i]];
      interactions := interactions[videos[i].id := NOTHING];
    }
    assert videos[..|videos|] == videos;
    if fetched.None? || deletions.None? { return; }
    var events := fetched.value;
    var deletedEventIds := DeletedIds(deletions.value);
    for k := 0 to |events|
      invariant forall id :: id in interactions <==> Knows(videos, id)
      invariant forall id | Knows(videos, id) :: interactions[id] == Batched(videos, events[..k], deletedEventIds, id)
    {
      var event := events[k];
      assert events[..k + 1] == events[..k] + [event];
      forall id ensures Batched(videos, events[..k + 1], deletedEventIds, id) ==
                        if event.id !in deletedEventIds && Resolved(videos, event.tags) == Some(id) && id != "" then
                          Noted(Batched(videos, events[..k], deletedEventIds, id), event)
                        else Batched(videos, events[..k], deletedEventIds, id)
      {
        BatchedStep(videos, events[..k], event, deletedEventIds, id);
      }
      hide Batched;
      if event.id !in deletedEventIds {
        var videoId := FindVideo(videos, event.tags);
        if videoId.Some? && videoId.value != "" && videoId.value in interactions {
          var current := interactions[videoId.value];
          if IsLike(event) {
            current := current.(hasLiked := true, likeEventId := Some(event.id));
          }
          if IsRepost(event) {
            current := current.(hasReposted := true, repostEventId := Some(event.id));
          }
          interactions := interactions[videoId.value := current];
        }
      }
    }
    assert events[..|events|] == events;
  }

  // ----- What a relay returns -----

  function Select(events: seq<Event>, wanted: Event -> bool): seq<Event> {
    if events == [] then []
    else
      var n := |events| - 1;
      var before := Select(events[..n], wanted);
      if wanted(events[n]) then before + [events[n]] else before
  }

  predicate HasTag(e: Event, name: string, values: set<string>) {
    exists tag :: tag in e.tags && |tag| >= 2 && tag[0] == name && tag[1] in values
  }

  function VideoIds(videos: seq<Video>): set<Id> {
    set v | v in videos :: v.id
  }

  function Addresses(videos: seq<Video>): set<string> {
    set v | v in videos && Addressable(v) :: Address(v)
  }

  /** The filter of the batched hook: reactions by e tag, reposts and reactions by a tag */
  predicate BatchedQuery(videos: seq<Video>, e: Event) {
    (e.kind == 7 && HasTag(e, "e", VideoIds(videos)))
    || ((e.kind == 16 || e.kind == 7) && HasTag(e, "a", Addresses(videos)))
  }

  /** The filter of the hook for one video; a missing vine id counts as an empty one there. */
  predicate SimpleQuery(v: Video, e: Event) {
    (e.kind == 7 && HasTag(e, "e", {v.id})) || ((e.kind == 16 || e.kind == 7) && HasTag(e, "a", {Address(v)}))
  }

  function NamesOneOf(events: seq<Event>): Event -> bool {
    (d: Event) => HasTag(d, "e", set e | e in events :: e.id)
  }

  function Undeleted(deleted: set<Id>): Event -> bool {
    (e: Event) => e.id !in deleted
  }

  function AboutId(videos: seq<Video>, deleted: set<Id>, id: Id): Event -> bool {
    (e: Event) => e.id !in deleted && Resolved(videos, e.tags) == Some(id)
  }

  function InBatch(videos: seq<Video>): Event -> bool {
    (e: Event) => BatchedQuery(videos, e)
  }

  function InSimple(v: Video): Event -> bool {
    (e: Event) => SimpleQuery(v, e)
  }

  /** Of the deletions, those that name one of the ids */
  function DeletionsOf(deletions: seq<Event>, events: seq<Event>): seq<Event> {
    Select(deletions, NamesOneOf(events))
  }

  /** Both hooks against a relay that holds the user's events and deletions and returns all that match */
  function BatchedResult(videos: seq<Video>, all: seq<Event>, deletions: seq<Event>, id: Id): Interaction {
    var fetched := Select(all, InBatch(videos));
    Batched(videos, fetched, Deleted(DeletionsOf(deletions, fetched)), id)
  }

  function SimpleResult(v: Video, all: seq<Event>, deletions: seq<Event>): Interaction {
    var fetched := Select(all, InSimple(v));
    var deleted := Deleted(DeletionsOf(deletions, fetched));
    Summary(Select(fetched, Undeleted(deleted)))
  }

  lemma {:induction false} SelectMember(events: seq<Event>, wanted: Event -> bool, x: Event)
    ensures x in Select(events, wanted) <==> x in events && wanted(x)
  {
    if events != [] {
      var n := |events| - 1;
      assert events == events[..n] + [events[n]];
      SelectMember(events[..n], wanted, x);
    }
  }

  lemma {:induction false} SelectTwice(events: seq<Event>, p: Event -> bool, q: Event -> bool, both: Event -> bool)
    requires forall e | e in events :: both(e) == (p(e) && q(e))
    ensures Select(Select(events, p), q) == Select(events, both)
  {
    if events != [] {
      var n := |events| - 1;
      assert events == events[..n] + [events[n]];
      SelectTwice(events[..n], p, q, both);
      var s := Select(events[..n], p);
      assert (s + [events[n]])[..|s|] == s;
    }
  }

  lemma {:induction false} AboutIsSelect(videos: seq<Video>, events: seq<Event>, deleted: set<Id>, id: Id)
    ensures About(videos, events, deleted, id) ==
            Select(events, AboutId(videos, deleted, id))
  {
    if events != [] { AboutIsSelect(videos, events[..|events| - 1], deleted, id); }
  }

  predicate Effective(e: Event) {
    IsLike(e) || IsRepost(e)
  }

  /** Only likes and reposts matter. */
  lemma {:induction false} SummaryOfSelection(events: seq<Event>, p: Event -> bool, q: Event -> bool)
    requires forall e | e in events && Effective(e) :: p(e) == q(e)
    ensures Summary(Select(events, p)) == Summary(Select(events, q))
  {
    if events != [] {
      var n := |events| - 1;
      var before, e := events[..n], events[n];
      assert events == before + [e];
      SummaryOfSelection(before, p, q);
      SummaryAppend(Select(before, p), e);
      SummaryAppend(Select(before, q), e);
    }
  }

  /** Asking only for the deletions of the fetched events loses none of them. */
  lemma {:induction false} DeletionsSuffice(deletions: seq<Event>, events: seq<Event>, e: Event)
    requires e in events
    ensures e.id in Deleted(DeletionsOf(deletions, events)) <==> e.id in Deleted(deletions)
  {
    var wanted := NamesOneOf(events);
    forall d ensures d in DeletionsOf(deletions, events) <==> d in deletions && wanted(d) {
      SelectMember(deletions, wanted, d);
    }
    forall d | e.id in Named(d) ensures wanted(d) {
      var tag :| tag in d.tags && |tag| >= 2 && tag[0] == "e" && tag[1] != "" && tag[1] == e.id;
      assert tag[1] in (set x | x in events :: x.id);
    }
  }

  /** The batched hook counts e for v. */
  predicate BatchedCounts(videos: seq<Video>, v: Video, e: Event) {
    BatchedQuery(videos, e) && Resolved(videos, e.tags) == Some(v.id)
  }

  function BatchWants(videos: seq<Video>, v: Video, deletions: seq<Event>): Event -> bool {
    (e: Event) => e.id !in Deleted(deletions) && BatchedCounts(videos, v, e)
  }

  function SimpleWants(v: Video, deletions: seq<Event>): Event -> bool {
    (e: Event) => e.id !in Deleted(deletions) && SimpleQuery(v, e)
  }

  lemma {:induction false} BatchedSelects(videos: seq<Video>, v: Video, all: seq<Event>, deletions: seq<Event>)
    requires v.id != ""
    ensures BatchedResult(videos, all, deletions, v.id) ==
            Summary(Select(all, BatchWants(videos, v, deletions)))
  {
    var p := InBatch(videos);
    var fetched := Select(all, p);
    var deleted := Deleted(DeletionsOf(deletions, fetched));
    var q := AboutId(videos, deleted, v.id);
    AboutIsSelect(videos, fetched, deleted, v.id);
    var both := BatchWants(videos, v, deletions);
    hide Deleted, DeletionsOf, BatchedQuery;
    forall e | e in fetched ensures e.id in deleted <==> e.id in Deleted(deletions) {
      DeletionsSuffice(deletions, fetched, e);
    }
    forall e | e in all ensures both(e) == (p(e) && q(e)) { SelectMember(all, p, e); }
    SelectTwice(all, p, q, both);
  }

  lemma {:induction false} SimpleSelects(v: Video, all: seq<Event>, deletions: seq<Event>)
    ensures SimpleResult(v, all, deletions) ==
            Summary(Select(all, SimpleWants(v, deletions)))
  {
    var p := InSimple(v);
    var fetched := Select(all, p);
    var deleted := Deleted(DeletionsOf(deletions, fetched));
    var q := Undeleted(deleted);
    var both := SimpleWants(v, deletions);
    hide Deleted, DeletionsOf, SimpleQuery;
    forall e | e in fetched ensures e.id in deleted <==> e.id in Deleted(deletions) {
      DeletionsSuffice(deletions, fetched, e);
    }
    forall e | e in all ensures both(e) == (p(e) && q(e)) { SelectMember(all, p, e); }
    SelectTwice(all, p, q, both);
  }

  // ----- Batched against simple -----

  ghost predicate AlwaysAgree(videos: seq<Video>, v: Video, s: set<Event>) {
    forall all, deletions | (forall e | e in all :: e in s) ::
      BatchedResult(videos, all, deletions, v.id) == SimpleResult(v, all, deletions)
  }

  lemma {:induction false} SameCounts(videos: seq<Video>, v: Video, s: set<Event>, all: seq<Event>,
                                      deletions: seq<Event>)
    requires v.id != "" && forall e | e in all :: e in s
    requires forall e | e in s && Effective(e) :: BatchedCounts(videos, v, e) <==> SimpleQuery(v, e)
    ensures BatchedResult(videos, all, deletions, v.id) == SimpleResult(v, all, deletions)
  {
    BatchedSelects(videos, v, all, deletions);
    SimpleSelects(v, all, deletions);
    SummaryOfSelection(all, BatchWants(videos, v, deletions), SimpleWants(v, deletions));
  }

  /** For events from a set s, in any number and order and with any deletions, the batched hook gives the video v what
      the hook for one video gives, if and only if every like and repost of s that the one counts for v the other
      counts for v: its first resolving tag picks v exactly when the query for v matches it. */
  lemma {:induction false} AgreeIff(videos: seq<Video>, v: Video, s: set<Event>)
    requires v.id != ""
    ensures AlwaysAgree(videos, v, s) <==>
            forall e | e in s && Effective(e) :: BatchedCounts(videos, v, e) <==> SimpleQuery(v, e)
  {
    hide BatchedCounts, SimpleQuery, BatchedResult, SimpleResult, Effective, BatchWants, SimpleWants;
    if forall e | e in s && Effective(e) :: BatchedCounts(videos, v, e) <==> SimpleQuery(v, e) {
      forall all, deletions | (forall e | e in all :: e in s)
        ensures BatchedResult(videos, all, deletions, v.id) == SimpleResult(v, all, deletions)
      {
        SameCounts(videos, v, s, all, deletions);
      }
    } else {
      var e :| e in s && Effective(e) && BatchedCounts(videos, v, e) != SimpleQuery(v, e);
      OneEventDiffers(videos, v, e);
      assert forall x | x in [e] :: x in s;
    }
  }

  lemma {:induction false} SelectOne(e: Event, p: Event -> bool)
    ensures Summary(Select([e], p)) == if p(e) then Noted(NOTHING, e) else NOTHING
  {
    assert [e][..0] == [];
    SummaryAppend([], e);
    assert [] + [e] == [e];
  }

  lemma {:induction false} OneEventDiffers(videos: seq<Video>, v: Video, e: Event)
    requires v.id != "" && Effective(e) && BatchedCounts(videos, v, e) != SimpleQuery(v, e)
    ensures BatchedResult(videos, [e], [], v.id) != SimpleResult(v, [e], [])
  {
    BatchedSelects(videos, v, [e], []);
    SimpleSelects(v, [e], []);
    assert Deleted([]) == {};
    SelectOne(e, BatchWants(videos, v, []));
    SelectOne(e, SimpleWants(v, []));
  }

  /** A like that names two videos of the feed counts for both in the one hook and for the first only in the other. */
  lemma {:induction false} TwoTagsDiffer(a: Video, b: Video, like: Event)
    requires a.id != b.id && a.id != "" && b.id != ""
    requires IsLike(like) && like.tags == [["e", a.id], ["e", b.id]]
    ensures SimpleResult(b, [like], []).hasLiked && !BatchedResult([a, b], [like], [], b.id).hasLiked
  {
    var videos := [a, b];
    assert a in videos && Knows(videos, a.id);
    assert Resolved(videos, like.tags) == Some(a.id);
    assert like.tags[1] in like.tags && HasTag(like, "e", {b.id});
    BatchedSelects(videos, b, [like], []);
    SimpleSelects(b, [like], []);
    assert Deleted([]) == {};
    SelectOne(like, BatchWants(videos, b, []));
    SelectOne(like, SimpleWants(b, []));
  }

  predicate UniqueIds(videos: seq<Video>) {
    forall i, j | 0 <= i < j < |videos| :: videos[i].id != videos[j].id
  }

  lemma {:induction false} FoundAddress(videos: seq<Video>, address: string)
    ensures FindAddress(videos, address).Some? ==>
              exists v :: v in videos && v.id == FindAddress(videos, address).value && Address(v) == address
  {
    if videos != [] {
      FoundAddress(videos[1..], address);
      assert videos[0] in videos && forall v | v in videos[1..] :: v in videos;
    }
  }

  lemma {:induction false} ResolvedTag(videos: seq<Video>, tags: seq<seq<string>>, id: Id)
    requires Resolved(videos, tags) == Some(id)
    ensures exists tag :: tag in tags && |tag| >= 2 &&
              ((tag[0] == "e" && tag[1] == id) ||
               (tag[0] == "a" && exists v :: v in videos && v.id == id && Address(v) == tag[1]))
  {
    if Picked(videos, tags[0]).Some? {
      var tag := tags[0];
      assert tag in tags;
      if tag[0] == "a" { FoundAddress(videos, tag[1]); }
    } else {
      ResolvedTag(videos, tags[1..], id);
      assert forall tag | tag in tags[1..] :: tag in tags;
    }
  }

  /** The batched hook never reports a like that the hook for one video does not. */
  lemma {:induction false} LikesNotInvented(videos: seq<Video>, v: Video, all: seq<Event>, deletions: seq<Event>)
    requires UniqueIds(videos) && v in videos && v.id != ""
    ensures BatchedResult(videos, all, deletions, v.id).hasLiked ==> SimpleResult(v, all, deletions).hasLiked
  {
    BatchedSelects(videos, v, all, deletions);
    SimpleSelects(v, all, deletions);
    var p := BatchWants(videos, v, deletions);
    var q := SimpleWants(v, deletions);
    SummaryMeans(Select(all, p));
    SummaryMeans(Select(all, q));
    if Summary(Select(all, p)).hasLiked {
      var e :| e in Select(all, p) && IsLike(e);
      SelectMember(all, p, e);
      ResolvedNames(videos, v, e);
      SelectMember(all, q, e);
    }
  }

  // ----- The condition on the tags -----

  /** Some tag picks the video id, and no tag before it picks any video. */
  ghost predicate PicksFirst(videos: seq<Video>, tags: seq<seq<string>>, id: Id) {
    exists j :: 0 <= j < |tags| && Picked(videos, tags[j]) == Some(id)
                && forall i | 0 <= i < j :: Picked(videos, tags[i]).None?
  }

  lemma {:induction false} ResolvedIff(videos: seq<Video>, tags: seq<seq<string>>, id: Id)
    ensures Resolved(videos, tags) == Some(id) <==> PicksFirst(videos, tags, id)
  {
    hide Picked;
    if tags != [] {
      var rest := tags[1..];
      ResolvedIff(videos, rest, id);
      assert forall i | 0 <= i < |rest| :: rest[i] == tags[i + 1];
      if Picked(videos, tags[0]).None? {
        forall j | 0 <= j < |rest| && Picked(videos, rest[j]) == Some(id)
                   && forall i | 0 <= i < j :: Picked(videos, rest[i]).None?
          ensures PicksFirst(videos, tags, id)
        {
          assert Picked(videos, tags[j + 1]) == Some(id);
          assert forall i | 0 <= i < j + 1 :: tags[i] == if i == 0 then tags[0] else rest[i - 1];
        }
        forall j | 0 <= j < |tags| && Picked(videos, tags[j]) == Some(id)
                   && forall i | 0 <= i < j :: Picked(videos, tags[i]).None?
          ensures PicksFirst(videos, rest, id)
        {
          assert Picked(videos, rest[j - 1]) == Some(id);
        }
      }
    }
  }

  /** A tag of the event names v, by its id or by its address. */
  predicate Names(v: Video, e: Event) {
    HasTag(e, "e", {v.id}) || HasTag(e, "a", {Address(v)})
  }

  lemma {:induction false} FoundIsAddressable(videos: seq<Video>, address: string)
    ensures FindAddress(videos, address).Some? ==> address in Addresses(videos)
  {
    if videos != [] {
      FoundIsAddressable(videos[1..], address);
      assert videos[0] in videos && forall v | v in videos[1..] :: v in videos;
    }
  }

  lemma {:induction false} PickedIsQueried(videos: seq<Video>, e: Event, tag: seq<string>)
    requires e.kind == 7 && tag in e.tags && Picked(videos, tag).Some?
    ensures BatchedQuery(videos, e)
  {
    if tag[0] == "e" {
      assert tag[1] in VideoIds(videos);
      assert HasTag(e, "e", VideoIds(videos));
    } else {
      FoundIsAddressable(videos, tag[1]);
      assert HasTag(e, "a", Addresses(videos));
    }
  }

  lemma {:induction false} ResolvedNames(videos: seq<Video>, v: Video, e: Event)
    requires UniqueIds(videos) && v in videos && Resolved(videos, e.tags) == Some(v.id)
    ensures Names(v, e)
  {
    ResolvedTag(videos, e.tags, v.id);
    var tag :| tag in e.tags && |tag| >= 2 &&
               ((tag[0] == "e" && tag[1] == v.id) ||
                (tag[0] == "a" && exists w :: w in videos && w.id == v.id && Address(w) == tag[1]));
    assert HasTag(e, "e", {v.id}) || HasTag(e, "a", {Address(v)});
  }

  lemma {:induction false} LikeCounts(videos: seq<Video>, v: Video, e: Event)
    requires UniqueIds(videos) && v in videos && IsLike(e)
    ensures SimpleQuery(v, e) <==> Names(v, e)
    ensures BatchedCounts(videos, v, e) <==> Names(v, e) && PicksFirst(videos, e.tags, v.id)
  {
    ResolvedIff(videos, e.tags, v.id);
    hide HasTag, Resolved, Picked, BatchedQuery;
    if Resolved(videos, e.tags) == Some(v.id) {
      ResolvedNames(videos, v, e);
      var j :| 0 <= j < |e.tags| && Picked(videos, e.tags[j]) == Some(v.id);
      PickedIsQueried(videos, e, e.tags[j]);
    }
  }

  lemma {:induction false} RepostCounts(videos: seq<Video>, v: Video, e: Event)
    requires IsRepost(e)
    ensures SimpleQuery(v, e) <==> HasTag(e, "a", {Address(v)})
    ensures BatchedCounts(videos, v, e) <==> PicksFirst(videos, e.tags, v.id) && HasTag(e, "a", Addresses(videos))
  {
    ResolvedIff(videos, e.tags, v.id);
  }

  /** The same condition on the tags, for a video of the list: the hooks agree if and only if in every like that names
      the video no earlier tag picks another one, and a repost names the video's address exactly when the first of its
      tags that picks a video picks this one and some tag of it names an address of the list. */
  lemma {:induction false} AgreeOnTags(videos: seq<Video>, v: Video, s: set<Event>)
    requires UniqueIds(videos) && v in videos && v.id != ""
    ensures AlwaysAgree(videos, v, s) <==>
            && (forall e | e in s && IsLike(e) && Names(v, e) :: PicksFirst(videos, e.tags, v.id))
            && (forall e | e in s && IsRepost(e) ::
                  HasTag(e, "a", {Address(v)}) <==>
                  PicksFirst(videos, e.tags, v.id) && HasTag(e, "a", Addresses(videos)))
  {
    hide AlwaysAgree, BatchedCounts, SimpleQuery, HasTag, Names, PicksFirst, IsLike, IsRepost;
    AgreeIff(videos, v, s);
    forall e | e in s && IsLike(e)
      ensures SimpleQuery(v, e) <==> Names(v, e)
      ensures BatchedCounts(videos, v, e) <==> Names(v, e) && PicksFirst(videos, e.tags, v.id)
    {
      LikeCounts(videos, v, e);
    }
    forall e | e in s && IsRepost(e)
      ensures SimpleQuery(v, e) <==> HasTag(e, "a", {Address(v)})
      ensures BatchedCounts(videos, v, e) <==> PicksFirst(videos, e.tags, v.id) && HasTag(e, "a", Addresses(videos))
    {
      RepostCounts(videos, v, e);
    }
  }
}
