/**
  Lists without repetition of a key, as frontend-web/src/components/VideoFeed.tsx,
  frontend-web/src/hooks/useCreatorAnalytics.ts and frontend-web/src/hooks/useComments.ts build them from pages and
  answers. The three key their items differently.
 */
module KeyedDedup {
  import opened Numbers

  // ----- Filtering with a set of seen keys -----

  ghost function Keys<T>(items: seq<T>, key: T -> string): set<string> {
    set x | x in items :: key(x)
  }

  /** The items whose key is neither in seen nor the key of an earlier one */
  function Fresh<T>(items: seq<T>, key: T -> string, seen: set<string>): seq<T> {
    if items == [] then []
    else if key(items[0]) in seen then Fresh(items[1..], key, seen)
    else [items[0]] + Fresh(items[1..], key, seen + {key(items[0])})
  }

  function Dedup<T>(items: seq<T>, key: T -> string): seq<T> {
    Fresh(items, key, {})
  }

  // ----- What the list holds -----

  predicate DistinctKeys<T>(items: seq<T>, key: T -> string) {
    forall i, j | 0 <= i < j < |items| :: key(items[i]) != key(items[j])
  }

  lemma {:induction false} ConsDistinct<T>(x: T, f: seq<T>, key: T -> string)
    requires DistinctKeys(f, key) && forall y | y in f :: key(y) != key(x)
    ensures DistinctKeys([x] + f, key)
  {
    forall i, j | 0 <= i < j < |[x] + f| ensures key(([x] + f)[i]) != key(([x] + f)[j]) {
      assert f[j - 1] in f;
    }
  }

  lemma {:induction false} KeysCons<T>(x: T, f: seq<T>, key: T -> string)
    ensures Keys([x] + f, key) == {key(x)} + Keys(f, key)
  {
  }

  lemma {:induction false} FreshKeys<T>(items: seq<T>, key: T -> string, seen: set<string>)
    ensures forall x | x in Fresh(items, key, seen) :: x in items && key(x) !in seen
    ensures Keys(Fresh(items, key, seen), key) == Keys(items, key) - seen
    ensures DistinctKeys(Fresh(items, key, seen), key)
  {
    if items != [] {
      var x, rest := items[0], items[1..];
      assert items == [x] + rest;
      KeysCons(x, rest, key);
      if key(x) in seen {
        FreshKeys(rest, key, seen);
      } else {
        FreshKeys(rest, key, seen + {key(x)});
        var f := Fresh(rest, key, seen + {key(x)});
        KeysCons(x, f, key);
        ConsDistinct(x, f, key);
      }
    }
  }

  /** Every key of the input once, and no other key */
  lemma {:induction false} EachKeyOnce<T>(items: seq<T>, key: T -> string)
    ensures Keys(Dedup(items, key), key) == Keys(items, key)
    ensures DistinctKeys(Dedup(items, key), key)
  {
    FreshKeys(items, key, {});
  }

  lemma {:induction false} FreshAppend<T>(a: seq<T>, b: seq<T>, key: T -> string, seen: set<string>)
    ensures Fresh(a + b, key, seen) == Fresh(a, key, seen) + Fresh(b, key, seen + Keys(a, key))
  {
    if a == [] {
      assert a + b == b && seen + Keys(a, key) == seen;
    } else {
      var x := a[0];
      assert (a + b)[1..] == a[1..] + b && a == [x] + a[1..];
      KeysCons(x, a[1..], key);
      if key(x) in seen {
        FreshAppend(a[1..], b, key, seen);
        assert seen + Keys(a[1..], key) == seen + Keys(a, key);
      } else {
        FreshAppend(a[1..], b, key, seen + {key(x)});
        assert seen + {key(x)} + Keys(a[1..], key) == seen + Keys(a, key);
      }
    }
  }

  lemma {:induction false} DedupSnoc<T>(a: seq<T>, x: T, key: T -> string)
    ensures Dedup(a + [x], key) == if key(x) in Keys(a, key) then Dedup(a, key) else Dedup(a, key) + [x]
    ensures Keys(a + [x], key) == Keys(a, key) + {key(x)}
  {
    FreshAppend(a, [x], key, {});
    assert {} + Keys(a, key) == Keys(a, key);
    assert [x][1..] == [];
    assert Dedup(a, key) + [] == Dedup(a, key);
  }

  /** filter with a callback that remembers the keys it has seen */
  method FilterSeen<T>(items: seq<T>, key: T -> string) returns (kept: seq<T>)
    ensures kept == Dedup(items, key)
  {
    var seen: set<string> := {};
    kept := [];
    for i := 0 to |items|
      invariant kept == Dedup(items[..i], key) && seen == Keys(items[..i], key)
    {
      var k := key(items[i]);
      DedupSnoc(items[..i], items[i], key);
      assert items[..i + 1] == items[..i] + [items[i]];
      if k !in seen {
        seen := seen + {k};
        kept := kept + [items[i]];
      }
    }
    assert items[..|items|] == items;
  }

  function Without<T>(items: seq<T>, key: T -> string, keys: set<string>): seq<T> {
    if items == [] then []
    else (if key(items[0]) in keys then [] else [items[0]]) + Without(items[1..], key, keys)
  }

  lemma {:induction false} FreshIsWithout<T>(items: seq<T>, key: T -> string, seen: set<string>, more: set<string>)
    ensures Fresh(items, key, seen + more) == Without(Fresh(items, key, seen), key, more)
  {
    if items != [] {
      var x := items[0];
      if key(x) in seen {
        FreshIsWithout(items[1..], key, seen, more);
      } else {
        FreshIsWithout(items[1..], key, seen + {key(x)}, more);
        var f := Fresh(items[1..], key, seen + {key(x)});
        assert ([x] + f)[1..] == f;
        if key(x) in more {
          assert seen + {key(x)} + more == seen + more;
        } else {
          assert seen + {key(x)} + more == seen + more + {key(x)};
        }
      }
    }
  }

  /** Appending a page leaves the list that was there and adds the page's own new keys. */
  lemma {:induction false} DedupIsStable<T>(a: seq<T>, b: seq<T>, key: T -> string)
    ensures Dedup(a + b, key) == Dedup(a, key) + Without(Dedup(b, key), key, Keys(a, key))
  {
    FreshAppend(a, b, key, {});
    FreshIsWithout(b, key, {}, Keys(a, key));
    assert {} + Keys(a, key) == Keys(a, key);
  }

  // ----- The keys -----

  function Digit(k: nat): char
    requires k < 10
  {
    "0123456789"[k]
  }

  function Digits(n: nat): (s: string)
    ensures s != "" && ':' !in s && (|s| == 1 <==> n < 10)
  {
    if n < 10 then [Digit(n)] else Digits(n / 10) + [Digit(n % 10)]
  }

  /** The address of an event: its author, kind and name */
  function Address(pubkey: string, kind: nat, name: string): string {
    pubkey + ":" + Digits(kind) + ":" + name
  }

  /** An item of the feed; a missing vine id is an empty one here, both being falsy. */
  datatype FeedVideo = FeedVideo(pubkey: string, kind: nat, vineId: string, id: string)

  function FeedName(v: FeedVideo): string {
    if v.vineId != "" then v.vineId else v.id
  }

  /** The feed falls back to the event id when there is no vine id. */
  function FeedKey(v: FeedVideo): string {
    Address(v.pubkey, v.kind, FeedName(v))
  }

  /** An item as the REST API gives it; events without a d tag have an empty one. */
  datatype RawVideo = RawVideo(pubkey: string, kind: nat, dTag: string, id: string)

  /** The analytics use the d tag as it is. */
  function RawKey(v: RawVideo): string {
    Address(v.pubkey, v.kind, v.dTag)
  }

  lemma {:induction false} ColonAfter(a: string, b: string, k: nat)
    requires ':' !in a && k < |a + ":" + b| && (a + ":" + b)[k] == ':'
    ensures k >= |a|
  {
    forall i | 0 <= i < |a| ensures (a + ":" + b)[i] != ':' { assert (a + ":" + b)[i] == a[i] && a[i] in a; }
  }

  lemma {:induction false} SplitAtColon(a: string, b: string, c: string, d: string)
    requires ':' !in a && ':' !in c && a + ":" + b == c + ":" + d
    ensures a == c && b == d
  {
    var s := a + ":" + b;
    assert s[|a|] == ':' && s[|c|] == ':';
    ColonAfter(a, b, |c|);
    ColonAfter(c, d, |a|);
    assert a == s[..|a|] && c == s[..|c|] && b == s[|a| + 1..] && d == s[|c| + 1..];
  }

  lemma {:induction false} DigitInjective(m: nat, n: nat)
    requires m < 10 && n < 10 && Digit(m) == Digit(n)
    ensures m == n
  {
  }

  lemma {:induction false} SameLast(a: string, x: char, b: string, y: char)
    requires a + [x] == b + [y]
    ensures a == b && x == y
  {
    assert (a + [x])[..|a|] == a && (b + [y])[..|b|] == b && (a + [x])[|a|] == x && (b + [y])[|b|] == y;
  }

  lemma {:induction false} DigitsInjective(m: nat, n: nat)
    requires Digits(m) == Digits(n)
    ensures m == n
    decreases m
  {
    hide Digit;
    if m < 10 && n < 10 {
      assert Digits(m)[0] == Digits(n)[0];
      DigitInjective(m, n);
    } else if m >= 10 && n >= 10 {
      var a, b := Digits(m / 10), Digits(n / 10);
      SameLast(a, Digit(m % 10), b, Digit(n % 10));
      DigitInjective(m % 10, n % 10);
      DigitsInjective(m / 10, n / 10);
    }
  }

  /** For public keys without a colon, two addresses are equal just when author, kind and name are. */
  lemma {:induction false} SameAddressIff(p: string, k: nat, n: string, q: string, l: nat, m: string)
    requires ':' !in p && ':' !in q
    ensures Address(p, k, n) == Address(q, l, m) <==> p == q && k == l && n == m
  {
    if Address(p, k, n) == Address(q, l, m) {
      var a, b := Digits(k), Digits(l);
      assert p + ":" + (a + ":" + n) == Address(p, k, n) && q + ":" + (b + ":" + m) == Address(q, l, m);
      SplitAtColon(p, a + ":" + n, q, b + ":" + m);
      SplitAtColon(a, n, b, m);
      DigitsInjective(k, l);
    }
  }

  /** The feed takes two items for one video exactly when author and kind are the same and so are the vine ids, an
      event id standing in for a missing one. */
  lemma {:induction false} SameFeedVideoIff(v: FeedVideo, w: FeedVideo)
    requires ':' !in v.pubkey && ':' !in w.pubkey
    ensures FeedKey(v) == FeedKey(w) <==>
            && v.pubkey == w.pubkey && v.kind == w.kind
            && (if v.vineId == "" then v.id else v.vineId) == (if w.vineId == "" then w.id else w.vineId)
  {
    SameAddressIff(v.pubkey, v.kind, FeedName(v), w.pubkey, w.kind, FeedName(w));
    hide Address;
  }

  /** The analytics do so exactly when author, kind and d tag are, whatever the event ids. */
  lemma {:induction false} SameRawVideoIff(v: RawVideo, w: RawVideo)
    requires ':' !in v.pubkey && ':' !in w.pubkey
    ensures RawKey(v) == RawKey(w) <==> v.pubkey == w.pubkey && v.kind == w.kind && v.dTag == w.dTag
  {
    SameAddressIff(v.pubkey, v.kind, v.dTag, w.pubkey, w.kind, w.dTag);
    hide Address;
  }

  /** An address as it is written */
  lemma {:induction false} AddressWritten(pubkey: string, name: string)
    ensures Address(pubkey, 34236, name) == pubkey + ":34236:" + name
  {
    DigitsWritten();
    assert pubkey + ":" + "34236" + ":" + name == pubkey + ":34236:" + name;
  }

  lemma {:induction false} DigitsWritten()
    ensures Digits(34236) == "34236"
  {
    assert Digits(3) == "3";
    assert Digits(34) == "34";
    assert Digits(342) == "342";
    assert Digits(3423) == "3423";
  }

  /** Two videos of one author and kind without a d tag: the analytics keep the first only, the feed keeps both. */
  lemma {:induction false} EmptyNamesDiffer(pubkey: string, kind: nat, a: string, b: string)
    requires ':' !in pubkey && a != b && a != "" && b != ""
    ensures var v, w := RawVideo(pubkey, kind, "", a), RawVideo(pubkey, kind, "", b);
            Dedup([v, w], RawKey) == [v]
    ensures var v, w := FeedVideo(pubkey, kind, "", a), FeedVideo(pubkey, kind, "", b);
            Dedup([v, w], FeedKey) == [v, w]
  {
    SameAddressIff(pubkey, kind, a, pubkey, kind, b);
    hide Address;
    var r, t := RawVideo(pubkey, kind, "", a), RawVideo(pubkey, kind, "", b);
    assert [r, t][1..] == [t] && [t][1..] == [];
    assert Fresh([t], RawKey, {} + {RawKey(r)}) == [];
    var v, w := FeedVideo(pubkey, kind, "", a), FeedVideo(pubkey, kind, "", b);
    assert [v, w][1..] == [w] && [w][1..] == [];
    assert Fresh([w], FeedKey, {} + {FeedKey(v)}) == [w];
  }

  // ----- Fetching page after page -----

  const MAX_PAGES: nat := 4
  const PAGE_SIZE: nat := 50

  datatype Page<T> = Page(videos: seq<T>, hasMore: bool)

  /** fetchUserVideos wraps the answer: a page as long as the limit is taken to have a successor. */
  function Wrapped<T>(answer: seq<T>, limit: nat): Page<T> {
    Page(answer, |answer| >= limit)
  }

  /** All that the answers from the given one on contribute */
  function Collected<T>(answers: seq<seq<T>>): seq<T> {
    if answers == [] then []
    else if Wrapped(answers[0], PAGE_SIZE).hasMore then answers[0] + Collected(answers[1..])
    else answers[0]
  }

  /** How many of the answers are asked for */
  function Requests<T>(answers: seq<seq<T>>): nat {
    if answers == [] then 0
    else if Wrapped(answers[0], PAGE_SIZE).hasMore then 1 + Requests(answers[1..])
    else 1
  }

  lemma {:induction false} CollectedStep<T>(before: seq<T>, answers: seq<seq<T>>, page: nat)
    requires page < |answers|
    ensures var more := Wrapped(answers[page], PAGE_SIZE).hasMore;
            && before + Collected(answers[page..]) ==
               before + answers[page] + (if more then Collected(answers[page + 1..]) else [])
            && Requests(answers[page..]) == (if more then Requests(answers[page + 1..]) else 0) + 1
  {
    assert answers[page..][0] == answers[page] && answers[page..][1..] == answers[page + 1..];
  }

  lemma {:induction false} CollectedEnds<T>(before: seq<T>, answers: seq<seq<T>>)
    ensures answers[0..] == answers && [] + Collected(answers) == Collected(answers)
    ensures before + Collected(answers[|answers|..]) == before && Requests(answers[|answers|..]) == 0
  {
  }

  /** `answers` are the server's for the offsets 0, 50, 100 and 150; the later ones may not be asked for. */
  method FetchAllUserVideos(answers: seq<seq<RawVideo>>) returns (videos: seq<RawVideo>, requests: nat)
    requires |answers| == MAX_PAGES
    ensures videos == Dedup(Collected(answers), RawKey)
    ensures requests == Requests(answers)
  {
    hide Collected, Requests;
    var allVideos: seq<RawVideo> := [];
    var page := 0;
    requests := 0;
    CollectedEnds(allVideos, answers);
    while page < MAX_PAGES
      invariant 0 <= page <= MAX_PAGES
      invariant allVideos + Collected(answers[page..]) == Collected(answers)
      invariant requests + Requests(answers[page..]) == Requests(answers)
    {
      var response := Wrapped(answers[page], PAGE_SIZE);
      requests := requests + 1;
      CollectedStep(allVideos, answers, page);
      allVideos := allVideos + response.videos;
      if !response.hasMore {
        assert allVideos + [] == allVideos;
        videos := FilterSeen(allVideos, RawKey);
        return;
      }
      page := page + 1;
    }
    CollectedEnds(allVideos, answers);
    videos := FilterSeen(allVideos, RawKey);
  }

  /** The answer of a server with a fixed list */
  function Answer<T>(list: seq<T>, page: nat): seq<T> {
    list[Min(page * PAGE_SIZE, |list|)..Min((page + 1) * PAGE_SIZE, |list|)]
  }

  function Answers<T>(list: seq<T>, page: nat): seq<seq<T>>
    requires page <= MAX_PAGES
    decreases MAX_PAGES - page
  {
    if page == MAX_PAGES then [] else [Answer(list, page)] + Answers(list, page + 1)
  }

  lemma {:induction false} Joined<T>(list: seq<T>, lo: nat, hi: nat, end: nat)
    requires lo <= hi <= end <= |list|
    ensures list[lo..hi] + list[hi..end] == list[lo..end]
  {
  }

  lemma {:induction false} AnswersStep<T>(list: seq<T>, page: nat)
    requires page <= MAX_PAGES
    ensures page == MAX_PAGES ==> var a := Answers(list, page); |a| == 0 && Collected(a) == [] && Requests(a) == 0
    ensures page < MAX_PAGES ==>
              var a, first, rest := Answers(list, page), Answer(list, page), Answers(list, page + 1);
              && |a| == 1 + |rest|
              && Collected(a) == (if |first| >= PAGE_SIZE then first + Collected(rest) else first)
              && Requests(a) == (if |first| >= PAGE_SIZE then 1 + Requests(rest) else 1)
  {
    if page < MAX_PAGES {
      var a := Answers(list, page);
      assert a[0] == Answer(list, page) && a[1..] == Answers(list, page + 1);
    }
    hide Answers;
  }

  lemma {:induction false} CollectedFrom<T>(list: seq<T>, page: nat)
    requires page <= MAX_PAGES
    ensures Collected(Answers(list, page)) == list[Min(page * PAGE_SIZE, |list|)..Min(MAX_PAGES * PAGE_SIZE, |list|)]
    ensures |Answers(list, page)| == MAX_PAGES - page
    ensures page * PAGE_SIZE <= |list| ==>
              Requests(Answers(list, page)) == Min(MAX_PAGES - page, |list| / PAGE_SIZE - page + 1)
    decreases MAX_PAGES - page
  {
    hide Answers, Collected, Requests;
    AnswersStep(list, page);
    if page < MAX_PAGES {
      CollectedFrom(list, page + 1);
      var lo, hi := Min(page * PAGE_SIZE, |list|), Min((page + 1) * PAGE_SIZE, |list|);
      var end := Min(MAX_PAGES * PAGE_SIZE, |list|);
      Joined(list, lo, hi, end);
    }
  }

  /** For a server with a fixed list exactly the first 200 videos are considered, or all when there are fewer. A list
      whose length is a multiple of 50 below 200 costs one request more than it has pages. */
  lemma {:induction false} FirstTwoHundred<T>(list: seq<T>, key: T -> string)
    ensures |Answers(list, 0)| == MAX_PAGES
    ensures Dedup(Collected(Answers(list, 0)), key) == Dedup(list[..Min(200, |list|)], key)
    ensures Requests(Answers(list, 0)) == Min(4, |list| / 50 + 1)
  {
    CollectedFrom(list, 0);
    assert list[0..Min(200, |list|)] == list[..Min(200, |list|)];
  }
}
