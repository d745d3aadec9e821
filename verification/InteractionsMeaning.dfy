/**
  What the two hooks of frontend-web/src/hooks report, said of the events alone: which like, which repost, which tag
  and which deletion count.
 */
module InteractionsMeaning {
  import opened Options
  import opened Interactions

  // ----- Tags, addresses and deletions -----

  /** The video has a vine id, and the address is its own. */
  predicate At(v: Video, address: string) {
    v.vineId.Some? && v.vineId.value != "" && address == "34236:" + v.pubkey + ":" + v.vineId.value
  }

  /** Video k is the first one at the address. */
  predicate FirstAt(videos: seq<Video>, address: string, k: int) {
    0 <= k < |videos| && At(videos[k], address) && forall j | 0 <= j < k :: !At(videos[j], address)
  }

  lemma {:induction false} AddressIff(v: Video, address: string)
    ensures Addressable(v) && Address(v) == address <==> At(v, address)
    ensures Address(v) == "34236:" + v.pubkey + ":" + (if v.vineId.Some? then v.vineId.value else "")
  {
    assert "34236:" == "34236" + ":";
    assert "34236" + (":" + v.pubkey) == "34236:" + v.pubkey;
  }

  lemma {:induction false} FirstAtStep(videos: seq<Video>, address: string, k: nat)
    requires videos != []
    ensures FirstAt(videos, address, 0) <==> At(videos[0], address)
    ensures FirstAt(videos, address, k + 1) <==> !At(videos[0], address) && FirstAt(videos[1..], address, k)
  {
    hide At;
    var rest := videos[1..];
    assert forall j | 0 <= j < |rest| :: rest[j] == videos[j + 1];
    if !At(videos[0], address) && FirstAt(rest, address, k) {
      forall j | 0 <= j < k + 1 ensures !At(videos[j], address) {
        if j > 0 { assert videos[j] == rest[j - 1]; }
      }
    }
    if FirstAt(videos, address, k + 1) {
      assert forall j | 0 <= j < k :: rest[j] == videos[j + 1];
    }
  }

  lemma {:induction false} FindAddressIff(videos: seq<Video>, address: string, id: Id)
    ensures FindAddress(videos, address) == Some(id) <==>
            exists k :: FirstAt(videos, address, k) && videos[k].id == id
  {
    hide At, FirstAt;
    if videos != [] {
      var rest := videos[1..];
      AddressIff(videos[0], address);
      FindAddressIff(rest, address, id);
      FirstAtStep(videos, address, 0);
      forall k | FirstAt(videos, address, k) && k > 0 ensures FirstAt(rest, address, k - 1) && !At(videos[0], address) {
        FirstAtStep(videos, address, k - 1);
      }
      forall k | FirstAt(rest, address, k) ensures 0 <= k < |rest|
                                                  && (!At(videos[0], address) ==> FirstAt(videos, address, k + 1)) {
        FirstAtBounds(rest, address, k);
        FirstAtStep(videos, address, k);
      }
      forall k | FirstAt(videos, address, k) ensures 0 <= k < |videos| { FirstAtBounds(videos, address, k); }
    } else {
      forall k ensures !FirstAt(videos, address, k) { NoneAt(address, k); }
    }
  }

  lemma {:induction false} FirstAtBounds(videos: seq<Video>, address: string, k: int)
    requires FirstAt(videos, address, k)
    ensures 0 <= k < |videos|
  {
  }

  lemma {:induction false} NoneAt(address: string, k: int)
    ensures !FirstAt([], address, k)
  {
  }

  /** A tag picks a video of the list by its id, or the first one of the list that has a vine id and this address. */
  lemma {:induction false} PickedIff(videos: seq<Video>, tag: seq<string>, id: Id)
    ensures Picked(videos, tag) == Some(id) <==>
            |tag| >= 2 &&
            ((tag[0] == "e" && tag[1] == id && exists v :: v in videos && v.id == id)
             || (tag[0] == "a" && exists k :: FirstAt(videos, tag[1], k) && videos[k].id == id))
  {
    hide FirstAt;
    if |tag| >= 2 { FindAddressIff(videos, tag[1], id); }
    hide FindAddress;
  }

  /** An event is deleted exactly when some deletion names its id in an e tag; the empty id cannot be. */
  lemma {:induction false} DeletedIff(deletions: seq<Event>, id: Id)
    ensures id in Deleted(deletions) <==>
            id != "" && exists d, tag :: d in deletions && tag in d.tags && |tag| >= 2 && tag[0] == "e" && tag[1] == id
  {
    if d, tag :| d in deletions && tag in d.tags && |tag| >= 2 && tag[0] == "e" && tag[1] == id {
      assert id != "" ==> id in Named(d);
    }
    if id in Deleted(deletions) {
      var d :| d in deletions && id in Named(d);
    }
  }

  // ----- The hook for one video -----

  /** The tag names the address of the video; a missing vine id counts as an empty one. */
  predicate TagsAddress(v: Video, tag: seq<string>) {
    && |tag| >= 2 && tag[0] == "a"
    && tag[1] == "34236:" + v.pubkey + ":" + (if v.vineId.Some? then v.vineId.value else "")
  }

  predicate TagNames(v: Video, tag: seq<string>) {
    (|tag| >= 2 && tag[0] == "e" && tag[1] == v.id) || TagsAddress(v, tag)
  }

  predicate Liking(e: Event) {
    e.kind == 7 && e.content in ["+", "\U{2764}\U{FE0F}", "\U{1F44D}"]
  }

  lemma {:induction false} LikingIff(e: Event)
    ensures IsLike(e) <==> Liking(e)
  {
  }

  lemma {:induction false} LikeMatches(v: Video, e: Event)
    requires IsLike(e)
    ensures SimpleQuery(v, e) <==> exists tag :: tag in e.tags && TagNames(v, tag)
  {
    AddressIff(v, "");
    hide Address, IsLike;
    assert IsLike(e) ==> e.kind == 7 by { LikingIff(e); }
    if tag :| tag in e.tags && TagNames(v, tag) {
      if tag[0] == "e" { assert HasTag(e, "e", {v.id}); } else { assert HasTag(e, "a", {Address(v)}); }
    }
    if HasTag(e, "e", {v.id}) {
      var tag :| tag in e.tags && |tag| >= 2 && tag[0] == "e" && tag[1] in {v.id};
      assert TagNames(v, tag);
    }
    if HasTag(e, "a", {Address(v)}) {
      var tag :| tag in e.tags && |tag| >= 2 && tag[0] == "a" && tag[1] in {Address(v)};
      assert TagNames(v, tag);
    }
  }

  lemma {:induction false} RepostMatches(v: Video, e: Event)
    requires e.kind == 16
    ensures SimpleQuery(v, e) <==> exists tag :: tag in e.tags && TagsAddress(v, tag)
  {
    AddressIff(v, "");
    hide Address;
    if tag :| tag in e.tags && TagsAddress(v, tag) { assert HasTag(e, "a", {Address(v)}); }
    if HasTag(e, "a", {Address(v)}) {
      var tag :| tag in e.tags && |tag| >= 2 && tag[0] == "a" && tag[1] in {Address(v)};
      assert TagsAddress(v, tag);
    }
  }

  /** Liked: some reaction that counts as a like, is not deleted and names the video. Reposted: some repost of kind 16
      that is not deleted and names its address; an e tag does not make a repost count. */
  lemma {:induction false} SimpleReportsIff(v: Video, all: seq<Event>, deletions: seq<Event>)
    ensures SimpleResult(v, all, deletions).hasLiked <==>
            exists e, tag ::
              e in all && Liking(e) && e.id !in Deleted(deletions) && tag in e.tags && TagNames(v, tag)
    ensures SimpleResult(v, all, deletions).hasReposted <==>
            exists e, tag ::
              e in all && e.kind == 16 && e.id !in Deleted(deletions) && tag in e.tags && TagsAddress(v, tag)
  {
    hide Deleted, SimpleQuery, IsLike, Liking, TagNames, TagsAddress, SimpleResult, Summary, Select;
    SimpleSelects(v, all, deletions);
    var wanted := SimpleWants(v, deletions);
    var es := Select(all, wanted);
    SummaryMeans(es);
    forall e ensures e in es <==> e in all && e.id !in Deleted(deletions) && SimpleQuery(v, e) {
      SelectMember(all, wanted, e);
    }
    forall e ensures IsLike(e) <==> Liking(e) { LikingIff(e); }
    forall e | IsLike(e) ensures SimpleQuery(v, e) <==> exists tag :: tag in e.tags && TagNames(v, tag) {
      LikeMatches(v, e);
    }
    forall e | IsRepost(e)
      ensures SimpleQuery(v, e) <==> exists tag :: tag in e.tags && TagsAddress(v, tag)
    {
      RepostMatches(v, e);
    }
  }

  // ----- The batched hook -----

  /** Some tag of the event is the address of a video of the list that has a vine id. */
  ghost predicate TaggedAt(videos: seq<Video>, e: Event) {
    exists w, tag :: w in videos && tag in e.tags && |tag| >= 2 && tag[0] == "a" && At(w, tag[1])
  }

  lemma {:induction false} TaggedIff(videos: seq<Video>, e: Event)
    ensures HasTag(e, "a", Addresses(videos)) <==> TaggedAt(videos, e)
  {
    forall w, address | w in videos
      ensures Addressable(w) && Address(w) == address <==> At(w, address)
    {
      AddressIff(w, address);
    }
    hide Address, Addressable, At;
    if HasTag(e, "a", Addresses(videos)) {
      var tag :| tag in e.tags && |tag| >= 2 && tag[0] == "a" && tag[1] in Addresses(videos);
      var w :| w in videos && Addressable(w) && Address(w) == tag[1];
      assert At(w, tag[1]);
    }
    if w, tag :| w in videos && tag in e.tags && |tag| >= 2 && tag[0] == "a" && At(w, tag[1]) {
      assert Addressable(w) && Address(w) == tag[1];
      assert tag[1] in Addresses(videos);
    }
  }

  /** Liked: some undeleted like whose first tag that picks a video of the list picks this one. Reposted: the same of
      some repost that, besides, names the address of a video of the list. */
  lemma {:induction false} BatchedReportsIff(videos: seq<Video>, v: Video, all: seq<Event>, deletions: seq<Event>)
    requires UniqueIds(videos) && v in videos && v.id != ""
    ensures BatchedResult(videos, all, deletions, v.id).hasLiked <==>
            exists e :: e in all && Liking(e) && e.id !in Deleted(deletions) && PicksFirst(videos, e.tags, v.id)
    ensures BatchedResult(videos, all, deletions, v.id).hasReposted <==>
            exists e :: e in all && e.kind == 16 && e.id !in Deleted(deletions) && PicksFirst(videos, e.tags, v.id)
                        && TaggedAt(videos, e)
  {
    hide Deleted, BatchedCounts, IsLike, Liking, TaggedAt, BatchedResult, Summary, Select, HasTag, PicksFirst, Names;
    BatchedSelects(videos, v, all, deletions);
    var wanted := BatchWants(videos, v, deletions);
    var es := Select(all, wanted);
    SummaryMeans(es);
    forall e ensures e in es <==> e in all && e.id !in Deleted(deletions) && BatchedCounts(videos, v, e) {
      SelectMember(all, wanted, e);
    }
    forall e ensures IsLike(e) <==> Liking(e) { LikingIff(e); }
    forall e | IsLike(e) ensures BatchedCounts(videos, v, e) <==> PicksFirst(videos, e.tags, v.id) {
      LikeCounts(videos, v, e);
      if PicksFirst(videos, e.tags, v.id) { PicksNames(videos, v, e); }
    }
    forall e | IsRepost(e)
      ensures BatchedCounts(videos, v, e) <==> PicksFirst(videos, e.tags, v.id) && TaggedAt(videos, e)
    {
      RepostCounts(videos, v, e);
      TaggedIff(videos, e);
    }
  }

  /** A video with an empty id is reported as untouched, whatever names it. */
  lemma {:induction false} EmptyIdIsSkipped(videos: seq<Video>, all: seq<Event>, deletions: seq<Event>)
    ensures BatchedResult(videos, all, deletions, "") == Interaction(false, false, None, None)
  {
    hide Select, Deleted;
  }

  lemma {:induction false} PicksNames(videos: seq<Video>, v: Video, e: Event)
    requires UniqueIds(videos) && v in videos && PicksFirst(videos, e.tags, v.id)
    ensures Names(v, e)
  {
    hide PicksFirst, Names, Resolved;
    ResolvedIff(videos, e.tags, v.id);
    ResolvedNames(videos, v, e);
  }

  /** A repost of the only video at an address, by its address, counts in both hooks. */
  lemma {:induction false} RepostCountsInBoth(videos: seq<Video>, v: Video, repost: Event, address: string)
    requires UniqueIds(videos) && v in videos && v.id != "" && At(v, address)
    requires forall w | w in videos && w != v :: !At(w, address)
    requires repost.kind == 16 && repost.tags == [["a", address]]
    ensures BatchedResult(videos, [repost], [], v.id).hasReposted && SimpleResult(v, [repost], []).hasReposted
  {
    hide Deleted, BatchedResult, SimpleResult, Picked, IsRepost;
    BatchedReportsIff(videos, v, [repost], []);
    SimpleReportsIff(v, [repost], []);
    assert Deleted([]) == {} by { forall id ensures id !in Deleted([]) { DeletedIff([], id); } }
    var tag := ["a", address];
    assert tag in repost.tags && repost.tags[0] == tag;
    AloneAt(videos, v, address);
    PickedIff(videos, tag, v.id);
    assert PicksFirst(videos, repost.tags, v.id);
    assert TaggedAt(videos, repost);
    assert TagsAddress(v, tag);
  }

  lemma {:induction false} AloneAt(videos: seq<Video>, v: Video, address: string)
    requires UniqueIds(videos) && v in videos && At(v, address) && forall w | w in videos && w != v :: !At(w, address)
    ensures exists k :: FirstAt(videos, address, k) && videos[k].id == v.id
  {
    hide At;
    var k :| 0 <= k < |videos| && videos[k] == v;
    assert FirstAt(videos, address, k);
  }
}
