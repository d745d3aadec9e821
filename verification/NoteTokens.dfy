/**
  The tokenizer of frontend-web/src/components/NoteContent.tsx: a loop over the leftmost matches of one regular
  expression with three alternatives, for URLs, Nostr references and hashtags.
 */
module NoteTokens {

  // ----- The regular expression -----

  predicate IsSpace(c: char) {
    var n := c as int;
    9 <= n <= 13 || n == 0x20 || n == 0xA0 || n == 0x1680 || 0x2000 <= n <= 0x200A || n == 0x2028 || n == 0x2029
    || n == 0x202F || n == 0x205F || n == 0x3000 || n == 0xFEFF
  }

  predicate IsWord(c: char) {
    'a' <= c <= 'z' || 'A' <= c <= 'Z' || '0' <= c <= '9' || c == '_'
  }

  const CHARSET := "023456789acdefghjklmnpqrstuvwxyz"

  datatype Class = NotSpace | Bech32 | Word

  predicate InClass(c: char, k: Class) {
    match k
    case NotSpace => !IsSpace(c)
    case Bech32 => c in CHARSET
    case Word => IsWord(c)
  }

  /** How many characters from position i on belong to the class: what a greedy repetition takes */
  function Span(text: string, i: nat, k: Class): (n: nat)
    requires i <= |text|
    ensures i + n <= |text|
    decreases |text| - i
  {
    if i < |text| && InClass(text[i], k) then Span(text, i + 1, k) + 1 else 0
  }

  /** It takes as many characters as it can. */
  lemma {:induction false} SpanIsGreedy(text: string, i: nat, k: Class)
    requires i <= |text|
    ensures forall j | i <= j < i + Span(text, i, k) :: InClass(text[j], k)
    ensures i + Span(text, i, k) < |text| ==> !InClass(text[i + Span(text, i, k)], k)
    decreases |text| - i
  {
    hide InClass;
    if i < |text| && InClass(text[i], k) { SpanIsGreedy(text, i + 1, k); }
  }

  predicate At(text: string, i: nat, word: string) {
    i + |word| <= |text| && text[i..i + |word|] == word
  }

  /** The length of a prefix followed by at least one character of the class, or 0 */
  function Prefixed(text: string, i: nat, prefix: string, k: Class): (n: nat)
    ensures n > 0 ==> i + n <= |text|
  {
    if At(text, i, prefix) && Span(text, i + |prefix|, k) > 0 then |prefix| + Span(text, i + |prefix|, k) else 0
  }

  datatype Kind = Url | Reference | Hashtag

  /** What the expression matches at position i. The first alternative that matches counts; the optional s cannot be
      given back, since a colon must follow, and no entity prefix is a prefix of another. */
  datatype Match = NoMatch | Match(kind: Kind, length: nat)

  function MatchAt(text: string, i: nat): (m: Match)
    requires i <= |text|
    ensures m.Match? ==> m.length > 0 && i + m.length <= |text|
  {
    var secure, plain := Prefixed(text, i, "https://", NotSpace), Prefixed(text, i, "http://", NotSpace);
    var npub, note := Prefixed(text, i, "nostr:npub1", Bech32), Prefixed(text, i, "nostr:note1", Bech32);
    var profile, event := Prefixed(text, i, "nostr:nprofile1", Bech32), Prefixed(text, i, "nostr:nevent1", Bech32);
    var tag := Prefixed(text, i, "#", Word);
    if secure > 0 then Match(Url, secure)
    else if plain > 0 then Match(Url, plain)
    else if npub > 0 then Match(Reference, npub)
    else if note > 0 then Match(Reference, note)
    else if profile > 0 then Match(Reference, profile)
    else if event > 0 then Match(Reference, event)
    else if tag > 0 then Match(Hashtag, tag)
    else NoMatch
  }

  // ----- What it matches, without the repetitions -----

  /** The n characters from position i on are the prefix and at least one more. */
  predicate Extends(text: string, i: nat, n: nat, prefix: string) {
    |prefix| < n && i + n <= |text| && text[i..i + |prefix|] == prefix
  }

  lemma {:induction false} SpanIs(text: string, i: nat, k: Class, n: nat)
    requires i + n <= |text| && forall j | i <= j < i + n :: InClass(text[j], k)
    requires i + n == |text| || !InClass(text[i + n], k)
    ensures Span(text, i, k) == n
    decreases n
  {
    hide InClass;
    if n > 0 { SpanIs(text, i + 1, k, n - 1); }
  }

  /** The repetition ends where the text does, or before a character outside the class. */
  lemma {:induction false} PrefixedIff(text: string, i: nat, prefix: string, k: Class, n: nat)
    requires i <= |text| && n > 0
    ensures Prefixed(text, i, prefix, k) == n <==>
            && Extends(text, i, n, prefix) && (forall j | i + |prefix| <= j < i + n :: InClass(text[j], k))
            && (i + n == |text| || !InClass(text[i + n], k))
  {
    hide InClass;
    if i + |prefix| <= |text| {
      SpanIsGreedy(text, i + |prefix|, k);
      if Extends(text, i, n, prefix) && (forall j | i + |prefix| <= j < i + n :: InClass(text[j], k))
         && (i + n == |text| || !InClass(text[i + n], k)) {
        SpanIs(text, i + |prefix|, k, n - |prefix|);
      }
    }
  }

  /** A URL runs up to the next white space. */
  ghost predicate UrlAt(text: string, i: nat, n: nat) {
    exists p :: (p == "https://" || p == "http://") && UrlWith(text, i, n, p)
  }

  predicate UrlWith(text: string, i: nat, n: nat, prefix: string) {
    && Extends(text, i, n, prefix) && (forall j | i + |prefix| <= j < i + n :: !IsSpace(text[j]))
    && (i + n == |text| || IsSpace(text[i + n]))
  }

  /** A reference runs as far as the characters of bech32 do. */
  ghost predicate ReferenceAt(text: string, i: nat, n: nat) {
    exists p :: (p == "nostr:npub1" || p == "nostr:note1" || p == "nostr:nprofile1" || p == "nostr:nevent1")
                && ReferenceWith(text, i, n, p)
  }

  predicate ReferenceWith(text: string, i: nat, n: nat, prefix: string) {
    && Extends(text, i, n, prefix)
    && (forall j | i + |prefix| <= j < i + n :: text[j] in "023456789acdefghjklmnpqrstuvwxyz")
    && (i + n == |text| || text[i + n] !in "023456789acdefghjklmnpqrstuvwxyz")
  }

  /** A hashtag runs as far as letters, digits and underscores do. */
  predicate HashtagAt(text: string, i: nat, n: nat) {
    && Extends(text, i, n, "#") && (forall j | i + 1 <= j < i + n :: IsWord(text[j]))
    && (i + n == |text| || !IsWord(text[i + n]))
  }

  /** No two of the prefixes are found at one position. */
  lemma {:induction false} PrefixesDiffer(text: string, i: nat)
    ensures At(text, i, "https://") ==> text[i] == 'h' && text[i + 4] == 's'
    ensures At(text, i, "http://") ==> text[i] == 'h' && text[i + 4] == ':'
    ensures At(text, i, "nostr:npub1") ==> text[i] == 'n' && text[i + 7] == 'p' && text[i + 8] == 'u'
    ensures At(text, i, "nostr:note1") ==> text[i] == 'n' && text[i + 7] == 'o'
    ensures At(text, i, "nostr:nprofile1") ==> text[i] == 'n' && text[i + 7] == 'p' && text[i + 8] == 'r'
    ensures At(text, i, "nostr:nevent1") ==> text[i] == 'n' && text[i + 7] == 'e'
    ensures At(text, i, "#") ==> text[i] == '#'
  {
    hide At;
    if At(text, i, "https://") { AtTwo(text, i, "https://", 0, 4); }
    if At(text, i, "http://") { AtTwo(text, i, "http://", 0, 4); }
    if At(text, i, "nostr:npub1") { AtTwo(text, i, "nostr:npub1", 0, 7); AtTwo(text, i, "nostr:npub1", 0, 8); }
    if At(text, i, "nostr:note1") { AtTwo(text, i, "nostr:note1", 0, 7); }
    if At(text, i, "nostr:nprofile1") {
      AtTwo(text, i, "nostr:nprofile1", 0, 7);
      AtTwo(text, i, "nostr:nprofile1", 0, 8);
    }
    if At(text, i, "nostr:nevent1") { AtTwo(text, i, "nostr:nevent1", 0, 7); }
    if At(text, i, "#") { AtTwo(text, i, "#", 0, 0); }
  }

  lemma {:induction false} AtTwo(text: string, i: nat, p: string, j: nat, k: nat)
    requires At(text, i, p) && j < |p| && k < |p|
    ensures i + |p| <= |text| && text[i + j] == p[j] && text[i + k] == p[k]
  {
    assert text[i..i + |p|][j] == text[i + j] && text[i..i + |p|][k] == text[i + k];
  }

  lemma {:induction false} PrefixedAt(text: string, i: nat, prefix: string, k: Class)
    requires Prefixed(text, i, prefix, k) > 0
    ensures At(text, i, prefix)
  {
  }

  /** So at most one alternative matches. */
  lemma {:induction false} OneAlternative(text: string, i: nat, n: nat)
    requires i <= |text| && n > 0
    ensures MatchAt(text, i) == Match(Url, n) <==>
            Prefixed(text, i, "https://", NotSpace) == n || Prefixed(text, i, "http://", NotSpace) == n
    ensures MatchAt(text, i) == Match(Reference, n) <==>
            || Prefixed(text, i, "nostr:npub1", Bech32) == n || Prefixed(text, i, "nostr:note1", Bech32) == n
            || Prefixed(text, i, "nostr:nprofile1", Bech32) == n || Prefixed(text, i, "nostr:nevent1", Bech32) == n
    ensures MatchAt(text, i) == Match(Hashtag, n) <==> Prefixed(text, i, "#", Word) == n
  {
    PrefixesDiffer(text, i);
    hide Prefixed, At;
    if Prefixed(text, i, "https://", NotSpace) > 0 { PrefixedAt(text, i, "https://", NotSpace); }
    if Prefixed(text, i, "http://", NotSpace) > 0 { PrefixedAt(text, i, "http://", NotSpace); }
    if Prefixed(text, i, "nostr:npub1", Bech32) > 0 { PrefixedAt(text, i, "nostr:npub1", Bech32); }
    if Prefixed(text, i, "nostr:note1", Bech32) > 0 { PrefixedAt(text, i, "nostr:note1", Bech32); }
    if Prefixed(text, i, "nostr:nprofile1", Bech32) > 0 { PrefixedAt(text, i, "nostr:nprofile1", Bech32); }
    if Prefixed(text, i, "nostr:nevent1", Bech32) > 0 { PrefixedAt(text, i, "nostr:nevent1", Bech32); }
    if Prefixed(text, i, "#", Word) > 0 { PrefixedAt(text, i, "#", Word); }
  }

  lemma {:induction false} UrlIff(text: string, i: nat, n: nat, prefix: string)
    requires i <= |text| && n > 0
    ensures Prefixed(text, i, prefix, NotSpace) == n <==> UrlWith(text, i, n, prefix)
  {
    PrefixedIff(text, i, prefix, NotSpace, n);
  }

  lemma {:induction false} ReferenceIff(text: string, i: nat, n: nat, prefix: string)
    requires i <= |text| && n > 0
    ensures Prefixed(text, i, prefix, Bech32) == n <==> ReferenceWith(text, i, n, prefix)
  {
    PrefixedIff(text, i, prefix, Bech32, n);
  }

  lemma {:induction false} HashtagsAt(text: string, i: nat, n: nat)
    requires i <= |text| && n > 0
    ensures Prefixed(text, i, "#", Word) == n <==> HashtagAt(text, i, n)
  {
    PrefixedIff(text, i, "#", Word, n);
  }

  lemma {:induction false} UrlsAt(text: string, i: nat, n: nat)
    requires i <= |text| && n > 0
    ensures UrlAt(text, i, n) <==>
            Prefixed(text, i, "https://", NotSpace) == n || Prefixed(text, i, "http://", NotSpace) == n
  {
    hide Prefixed, UrlWith;
    UrlIff(text, i, n, "https://");
    UrlIff(text, i, n, "http://");
  }

  lemma {:induction false} ReferencesAt(text: string, i: nat, n: nat)
    requires i <= |text| && n > 0
    ensures ReferenceAt(text, i, n) <==>
            || Prefixed(text, i, "nostr:npub1", Bech32) == n || Prefixed(text, i, "nostr:note1", Bech32) == n
            || Prefixed(text, i, "nostr:nprofile1", Bech32) == n || Prefixed(text, i, "nostr:nevent1", Bech32) == n
  {
    hide Prefixed, ReferenceWith;
    ReferenceIff(text, i, n, "nostr:npub1");
    ReferenceIff(text, i, n, "nostr:note1");
    ReferenceIff(text, i, n, "nostr:nprofile1");
    ReferenceIff(text, i, n, "nostr:nevent1");
  }

  /** The expression matches at a position exactly a URL, a reference or a hashtag there, each as long as it goes. */
  lemma {:induction false} MatchIff(text: string, i: nat, n: nat)
    requires i <= |text| && n > 0
    ensures MatchAt(text, i) == Match(Url, n) <==> UrlAt(text, i, n)
    ensures MatchAt(text, i) == Match(Reference, n) <==> ReferenceAt(text, i, n)
    ensures MatchAt(text, i) == Match(Hashtag, n) <==> HashtagAt(text, i, n)
  {
    hide Prefixed, MatchAt, UrlAt, ReferenceAt, HashtagAt;
    OneAlternative(text, i, n);
    UrlsAt(text, i, n);
    ReferencesAt(text, i, n);
    HashtagsAt(text, i, n);
  }

  /** The white space of \s, code by code, and the word characters of \w */
  lemma {:induction false} ClassesAre(c: char)
    ensures IsSpace(c) <==>
            c in "\t\n\U{B}\U{C}\r \U{A0}\U{1680}\U{2000}\U{2001}\U{2002}\U{2003}\U{2004}\U{2005}\U{2006}\U{2007}" ||
            c in "\U{2008}\U{2009}\U{200A}\U{2028}\U{2029}\U{202F}\U{205F}\U{3000}\U{FEFF}"
    ensures IsWord(c) <==>
            c in "ABCDEFGHIJKLMNOPQRSTUVWXYZ" || c in "abcdefghijklmnopqrstuvwxyz" || c in "0123456789_"
  {
  }

  // ----- The parts -----

  /** What nip19.decode makes of a reference */
  datatype Decoded = PublicKey | Other | Fails

  /** Plain text, and undecodable references, are shown as they are. */
  datatype Show = Text | Link | Mention | TagLink

  datatype Part = Part(show: Show, start: nat, end: nat)

  function Shown(kind: Kind, decoded: Decoded): Show {
    match kind
    case Url => Link
    case Reference => (match decoded case PublicKey => Mention case Other => Link case Fails => Text)
    case Hashtag => TagLink
  }

  function Source(text: string, p: Part): string
    requires p.start <= p.end <= |text|
  {
    text[p.start..p.end]
  }

  /** The parts lie one after the other, from `from` to `to`. */
  predicate Contiguous(parts: seq<Part>, from: nat, to: nat) {
    if parts == [] then from == to
    else parts[0].start == from && from <= parts[0].end <= to && Contiguous(parts[1..], parts[0].end, to)
  }

  function Join(text: string, parts: seq<Part>, from: nat, to: nat): string
    requires to <= |text| && Contiguous(parts, from, to)
  {
    if parts == [] then "" else Source(text, parts[0]) + Join(text, parts[1..], parts[0].end, to)
  }

  /** Nothing of the source is lost or doubled: the spans of contiguous parts make up the text. */
  lemma {:induction false} Lossless(text: string, parts: seq<Part>, from: nat, to: nat)
    requires to <= |text| && Contiguous(parts, from, to)
    ensures from <= to && Join(text, parts, from, to) == text[from..to]
    decreases |parts|
  {
    if parts != [] {
      Lossless(text, parts[1..], parts[0].end, to);
      assert text[from..parts[0].end] + text[parts[0].end..to] == text[from..to];
    }
  }

  /** No match starts in [a, b). */
  predicate Quiet(text: string, a: nat, b: nat) {
    b <= |text| && forall j | a <= j < b :: MatchAt(text, j) == NoMatch
  }

  /** The tokenization from position i on: match-free text up to the next match, the match, and so on. */
  predicate Tokenized(text: string, parts: seq<Part>, i: nat, decode: string -> Decoded)
    requires i <= |text|
    decreases |parts|
  {
    if parts == [] then i == |text|
    else
      var p := parts[0];
      && p.start == i && i < p.end <= |text|
      && (if MatchAt(text, i).Match? then
            p == Part(Shown(MatchAt(text, i).kind, decode(Source(text, p))), i, i + MatchAt(text, i).length)
          else p.show == Text && Quiet(text, i, p.end) && (p.end == |text| || MatchAt(text, p.end).Match?))
      && Tokenized(text, parts[1..], p.end, decode)
  }

  lemma {:induction false} TokenizedContiguous(text: string, parts: seq<Part>, i: nat, decode: string -> Decoded)
    requires i <= |text| && Tokenized(text, parts, i, decode)
    ensures Contiguous(parts, i, |text|)
    decreases |parts|
  {
    if parts != [] { TokenizedContiguous(text, parts[1..], parts[0].end, decode); }
  }

  lemma {:induction false} QuietAt(text: string, a: nat, b: nat)
    requires Quiet(text, a, b) && a < b
    ensures MatchAt(text, a) == NoMatch
  {
  }

  lemma {:induction false} SameEnd(text: string, i: nat, a: nat, b: nat)
    requires i < a <= |text| && Quiet(text, i, a) && (a == |text| || MatchAt(text, a).Match?)
    requires i < b <= |text| && Quiet(text, i, b) && (b == |text| || MatchAt(text, b).Match?)
    ensures a == b
  {
    hide MatchAt;
  }

  /** There is only one such list of parts. */
  lemma {:induction false} TokenizedUnique(text: string, p: seq<Part>, q: seq<Part>, i: nat, decode: string -> Decoded)
    requires i <= |text| && Tokenized(text, p, i, decode) && Tokenized(text, q, i, decode)
    ensures p == q
    decreases |p|
  {
    hide MatchAt, Quiet;
    if p != [] && q != [] {
      if MatchAt(text, i) == NoMatch { SameEnd(text, i, p[0].end, q[0].end); }
      TokenizedUnique(text, p[1..], q[1..], p[0].end, decode);
      assert p == [p[0]] + p[1..] && q == [q[0]] + q[1..];
    }
  }

  /** A token lies wholly inside one part, so no hashtag or reference reaches into a URL. */
  lemma {:induction false} PartsApart(parts: seq<Part>, from: nat, to: nat, i: nat, j: nat)
    requires Contiguous(parts, from, to) && i < j < |parts|
    ensures from <= parts[i].start <= parts[i].end <= parts[j].start <= parts[j].end <= to
    decreases |parts|
  {
    if i > 0 {
      PartsApart(parts[1..], parts[0].end, to, i - 1, j - 1);
    } else if j > 1 {
      PartsApart(parts[1..], parts[0].end, to, 0, j - 1);
    }
  }

  /** What each part is shown as, said of its characters: a URL as a link, a reference as a mention when it decodes to a
      public key, as a link when it decodes to something else and as text when it does not decode, a hashtag as a link
      to its tag, and everything else as text. */
  lemma {:induction false} PartMeans(text: string, parts: seq<Part>, i: nat, k: nat, decode: string -> Decoded)
    requires i <= |text| && Tokenized(text, parts, i, decode) && k < |parts|
    ensures var p := parts[k];
            && p.start < p.end <= |text|
            && var n, decoded := p.end - p.start, decode(Source(text, p));
               && (p.show == Mention <==> ReferenceAt(text, p.start, n) && decoded == PublicKey)
               && (p.show == Link <==>
                     UrlAt(text, p.start, n) || (ReferenceAt(text, p.start, n) && decoded == Other))
               && (p.show == TagLink <==> HashtagAt(text, p.start, n))
    decreases |parts|
  {
    hide MatchAt, Quiet, UrlAt, ReferenceAt, HashtagAt;
    if k > 0 {
      PartMeans(text, parts[1..], parts[0].end, k - 1, decode);
    } else {
      MatchIff(text, i, parts[0].end - i);
    }
  }

  lemma {:induction false} TokenizedAppend(text: string, parts: seq<Part>, more: seq<Part>, i: nat, k: nat,
                                           decode: string -> Decoded)
    requires i <= k <= |text| && TokenizedUpTo(text, parts, i, k, decode) && Tokenized(text, more, k, decode)
    ensures Tokenized(text, parts + more, i, decode)
    decreases |parts|
  {
    hide MatchAt, Quiet;
    if parts == [] {
      assert parts + more == more;
    } else {
      TokenizedAppend(text, parts[1..], more, parts[0].end, k, decode);
      assert (parts + more)[1..] == parts[1..] + more;
    }
  }

  /** The same, for the parts before position k, where a match ends or the text begins */
  predicate TokenizedUpTo(text: string, parts: seq<Part>, i: nat, k: nat, decode: string -> Decoded)
    requires i <= k <= |text|
    decreases |parts|
  {
    if parts == [] then i == k
    else
      var p := parts[0];
      && p.start == i && i < p.end <= k
      && (if MatchAt(text, i).Match? then
            p == Part(Shown(MatchAt(text, i).kind, decode(Source(text, p))), i, i + MatchAt(text, i).length)
          else p.show == Text && Quiet(text, i, p.end) && p.end < |text| && MatchAt(text, p.end).Match?)
      && TokenizedUpTo(text, parts[1..], p.end, k, decode)
  }

  lemma {:induction false} UpToAppend(text: string, parts: seq<Part>, p: Part, i: nat, k: nat,
                                      decode: string -> Decoded)
    requires i <= k <= |text| && TokenizedUpTo(text, parts, i, k, decode)
    requires k < p.end <= |text| && p.start == k
    requires TokenizedUpTo(text, [p], k, p.end, decode)
    ensures TokenizedUpTo(text, parts + [p], i, p.end, decode)
    decreases |parts|
  {
    hide MatchAt, Quiet;
    if parts == [] {
      assert parts + [p] == [p];
    } else {
      UpToAppend(text, parts[1..], p, parts[0].end, k, decode);
      assert (parts + [p])[1..] == parts[1..] + [p];
    }
  }

  /** regex.exec: the leftmost position from lastIndex on where the expression matches */
  method Exec(text: string, lastIndex: nat) returns (index: nat)
    requires lastIndex <= |text|
    ensures lastIndex <= index <= |text| && Quiet(text, lastIndex, index)
    ensures index == |text| || MatchAt(text, index).Match?
  {
    hide MatchAt;
    index := lastIndex;
    while index < |text| && MatchAt(text, index) == NoMatch
      invariant lastIndex <= index <= |text| && Quiet(text, lastIndex, index)
    {
      index := index + 1;
    }
  }

  /** An empty text gives one empty part. */
  method Tokenize(text: string, decode: string -> Decoded) returns (parts: seq<Part>)
    ensures text != "" ==> Tokenized(text, parts, 0, decode)
    ensures text == "" ==> parts == [Part(Text, 0, 0)]
    ensures Contiguous(parts, 0, |text|)
  {
    hide MatchAt, Quiet;
    parts := [];
    var lastIndex := 0;
    var index := Exec(text, 0);
    while index < |text|
      invariant lastIndex <= index <= |text| && Quiet(text, lastIndex, index)
      invariant index == |text| || MatchAt(text, index).Match?
      invariant TokenizedUpTo(text, parts, 0, lastIndex, decode)
      decreases |text| - index
    {
      var found := MatchAt(text, index);
      if index > lastIndex {
        QuietAt(text, lastIndex, index);
        assert TokenizedUpTo(text, [Part(Text, lastIndex, index)], lastIndex, index, decode);
        UpToAppend(text, parts, Part(Text, lastIndex, index), 0, lastIndex, decode);
        parts := parts + [Part(Text, lastIndex, index)];
      }
      var end := index + found.length;
      var token := Part(Shown(found.kind, decode(text[index..end])), index, end);
      assert TokenizedUpTo(text, [token], index, end, decode);
      UpToAppend(text, parts, token, 0, index, decode);
      parts := parts + [token];
      lastIndex := end;
      index := Exec(text, lastIndex);
    }
    if lastIndex < |text| {
      var rest := Part(Text, lastIndex, |text|);
      QuietAt(text, lastIndex, |text|);
      assert Tokenized(text, [rest], lastIndex, decode);
      TokenizedAppend(text, parts, [rest], 0, lastIndex, decode);
      parts := parts + [rest];
    } else {
      TokenizedAppend(text, parts, [], 0, lastIndex, decode);
      assert parts + [] == parts;
    }
    TokenizedContiguous(text, parts, 0, decode);
    if |parts| == 0 {
      parts := [Part(Text, 0, |text|)];
    }
  }
}
