/**
  What the debounced selection of frontend-web/src/contexts/VideoPlaybackContext.tsx chooses, and when the choice
  becomes the active video.
 */
module PlaybackSelection {
  import opened Options
  import opened PlaybackContext

  // ----- The visibility map -----

  function Keys(es: seq<Entry>): seq<Id> {
    if es == [] then [] else [es[0].id] + Keys(es[1..])
  }

  lemma {:induction false} KeysCons(e: Entry, t: seq<Entry>)
    ensures Keys([e] + t) == [e.id] + Keys(t)
  {
    assert ([e] + t)[1..] == t;
  }

  /** Setting a known key keeps every key where it is; a new key goes last. */
  lemma {:induction false} SetEntryKeys(es: seq<Entry>, id: Id, ratio: real)
    ensures Keys(SetEntry(es, id, ratio)) == if id in Keys(es) then Keys(es) else Keys(es) + [id]
  {
    if es == [] {
      KeysCons(Entry(id, ratio), []);
    } else {
      assert es == [es[0]] + es[1..];
      KeysCons(es[0], es[1..]);
      KeysCons(Entry(id, ratio), es[1..]);
      if es[0].id != id {
        SetEntryKeys(es[1..], id, ratio);
        KeysCons(es[0], SetEntry(es[1..], id, ratio));
      }
    }
  }

  /** Deleting a key keeps the others in their order. */
  lemma {:induction false} DeleteEntryKeys(es: seq<Entry>, id: Id)
    requires NoDuplicates(Keys(es))
    ensures Keys(DeleteEntry(es, id)) == Without(Keys(es), id)
    ensures NoDuplicates(Keys(DeleteEntry(es, id)))
  {
    WithoutKeepsRest(Keys(es), id);
    DeleteIsWithout(es, id);
  }

  lemma {:induction false} TailNoDuplicates(s: seq<Id>)
    requires s != [] && NoDuplicates(s)
    ensures NoDuplicates(s[1..]) && s[0] !in s[1..]
  {
    assert forall i | 0 <= i < |s[1..]| :: s[1..][i] == s[i + 1];
  }

  lemma {:induction false} DeleteAbsent(es: seq<Entry>, id: Id)
    requires id !in Keys(es)
    ensures DeleteEntry(es, id) == es
  {
    if es != [] { DeleteAbsent(es[1..], id); }
  }

  lemma {:induction false} IndexOfStep(s: seq<Id>, id: Id)
    requires s != [] && s[0] != id
    ensures IndexOf(s, id) == if IndexOf(s[1..], id) == -1 then -1 else IndexOf(s[1..], id) + 1
  {
  }

  lemma {:induction false} SpliceStep<T>(s: seq<T>, k: nat)
    requires k < |s| - 1
    ensures s[..k + 1] + s[k + 2..] == [s[0]] + (s[1..][..k] + s[1..][k + 1..])
  {
  }

  lemma {:induction false} WithoutStep(s: seq<Id>, id: Id)
    requires s != []
    ensures Without(s, id) == if s[0] == id then s[1..] else [s[0]] + Without(s[1..], id)
  {
    hide IndexOf;
    if s[0] == id {
      WithoutFirst(s);
    } else {
      IndexOfStep(s, id);
      if IndexOf(s, id) == -1 { assert s == [s[0]] + s[1..]; } else { SpliceStep(s, IndexOf(s, id) - 1); }
    }
  }

  lemma {:induction false} WithoutFirst(s: seq<Id>)
    requires s != []
    ensures Without(s, s[0]) == s[1..]
  {
    assert s[..0] + s[1..] == s[1..];
  }

  lemma {:induction false} DeleteIsWithout(es: seq<Entry>, id: Id)
    requires NoDuplicates(Keys(es))
    ensures Keys(DeleteEntry(es, id)) == Without(Keys(es), id)
  {
    hide Without;
    if es == [] {
      NotListed([], id);
    } else {
      var ks := Keys(es);
      assert ks[1..] == Keys(es[1..]);
      TailNoDuplicates(ks);
      WithoutStep(ks, id);
      if es[0].id == id {
        DeleteAbsent(es[1..], id);
      } else {
        DeleteIsWithout(es[1..], id);
        var r := [es[0]] + DeleteEntry(es[1..], id);
        assert r[1..] == DeleteEntry(es[1..], id);
      }
    }
  }

  /** Each id has one entry, and only ratios above zero are kept. */
  ghost predicate WellKept(es: seq<Entry>) {
    NoDuplicates(Keys(es)) && forall e | e in es :: e.ratio > 0.0
  }

  lemma {:induction false} WellKeptSet(es: seq<Entry>, id: Id, ratio: real)
    requires WellKept(es) && ratio > 0.0
    ensures WellKept(SetEntry(es, id, ratio))
  {
    SetEntryKeys(es, id, ratio);
  }

  lemma {:induction false} WellKeptDelete(es: seq<Entry>, id: Id)
    requires WellKept(es)
    ensures WellKept(DeleteEntry(es, id))
  {
    DeleteEntryKeys(es, id);
  }

  lemma {:induction false} WellKeptPrune(c: Context)
    requires WellKept(c.visible)
    ensures WellKept(Prune(c).visible) && Prune(c).timers == c.timers
    ensures Prune(c).handle == c.handle && Prune(c).nextHandle == c.nextHandle
    decreases |c.order|
  {
    if |c.order| > MAX_VIDEO_REFS {
      var oldest := c.order[0];
      var shifted := c.(order := c.order[1..]);
      WellKeptDelete(c.visible, oldest);
      WellKeptPrune(if Spared(c, oldest) then shifted
                    else shifted.(refs := c.refs - {oldest}, visible := DeleteEntry(c.visible, oldest)));
    }
  }

  /** The debounce: at most the last timer that was set is pending. */
  ghost predicate Debounced(c: Context) {
    forall t | t in c.timers :: c.handle == Some(t)
  }

  lemma {:induction false} StepKeepsVisible(c: Context, op: Op)
    requires WellKept(c.visible) && Debounced(c)
    ensures WellKept(Apply(c, op).visible) && Debounced(Apply(c, op))
  {
    match op
    case DoRegister(id, element) =>
      WellKeptPrune(c.(order := Without(c.order, id) + [id], refs := c.refs[id := element]));
    case DoUnregister(id) => WellKeptDelete(c.visible, id);
    case DoVisibility(id, ratio) =>
      if ratio > 0.0 { WellKeptSet(c.visible, id, ratio); } else { WellKeptDelete(c.visible, id); }
    case _ =>
  }

  /** What every callback of the provider keeps: the order lists at most 30 ids, each once and each with its element;
      the visibility map has one positive ratio per id; at most one timer is pending. */
  ghost predicate Coherent(c: Context) {
    && NoDuplicates(c.order) && |c.order| <= MAX_VIDEO_REFS && Listed(c)
    && WellKept(c.visible) && Debounced(c)
  }

  lemma {:induction false} RegisterSized(c: Context, id: Id, element: Element)
    requires NoDuplicates(c.order) && |c.order| <= MAX_VIDEO_REFS
    ensures NoDuplicates(Register(c, id, element).order) && |Register(c, id, element).order| <= MAX_VIDEO_REFS
  {
    WithoutKeepsRest(c.order, id);
    var o := Without(c.order, id) + [id];
    PruneOnce(c.(order := o, refs := c.refs[id := element]));
    hide Without, IndexOf, Prune;
    assert NoDuplicates(o);
    TailNoDuplicates(o);
  }

  lemma {:induction false} ApplyCoherent(c: Context, op: Op)
    requires Coherent(c)
    ensures Coherent(Apply(c, op))
  {
    StepKeepsVisible(c, op);
    hide WellKept, Debounced;
    match op
    case DoRegister(id, element) =>
      RegisterSized(c, id, element);
      ElementsAfterRegister(c, id, element);
      hide Register, ShiftsOut, Spared;
    case DoUnregister(id) => WithoutKeepsRest(c.order, id);
    case _ =>
  }

  /** In every run: one entry per id, all ratios positive, at most one timer pending. */
  lemma {:induction false} VisibleWellKept(h: seq<Op>)
    ensures WellKept(Run(h).visible) && Debounced(Run(h))
  {
    if h == [] {
      assert Keys(INITIAL.visible) == [];
    } else {
      VisibleWellKept(h[..|h| - 1]);
      StepKeepsVisible(Run(h[..|h| - 1]), h[|h| - 1]);
    }
  }

  // ----- The choice -----

  /** Entry k is the first one with the largest ratio. */
  ghost predicate FirstMaximum(es: seq<Entry>, k: int) {
    && 0 <= k < |es| && es[k].ratio > 0.0
    && (forall j | 0 <= j < |es| :: es[j].ratio <= es[k].ratio)
    && (forall j | 0 <= j < k :: es[j].ratio < es[k].ratio)
  }

  /** Entry b is the best of the first i; b is -1 when none of them is positive. */
  ghost predicate BestOf(es: seq<Entry>, i: nat, b: int) {
    && i <= |es| && -1 <= b < i
    && if b == -1 then forall j | 0 <= j < i :: es[j].ratio <= 0.0 else FirstMaximum(es[..i], b)
  }

  function IdAt(es: seq<Entry>, b: int): Option<Id>
    requires b < |es|
  {
    if b < 0 then None else Some(es[b].id)
  }

  function RatioAt(es: seq<Entry>, b: int): real
    requires b < |es|
  {
    if b < 0 then 0.0 else es[b].ratio
  }

  lemma {:induction false} BestStep(es: seq<Entry>, i: nat, b: int)
    requires BestOf(es, i, b) && i < |es|
    ensures BestOf(es, i + 1, if es[i].ratio > RatioAt(es, b) then i else b)
  {
    var next := es[..i + 1];
    assert forall j | 0 <= j < i :: next[j] == es[..i][j] == es[j];
    assert next[i] == es[i];
  }

  lemma {:induction false} ScanStep(es: seq<Entry>, i: nat, b: int)
    requires i < |es| && -1 <= b < i
    ensures var c := if es[i].ratio > RatioAt(es, b) then i else b;
            Scan(es[i..], IdAt(es, b), RatioAt(es, b)) == Scan(es[i + 1..], IdAt(es, c), RatioAt(es, c))
  {
    assert es[i..][1..] == es[i + 1..] && es[i..][0] == es[i];
  }

  lemma {:induction false} ScanEnd(es: seq<Entry>, b: int)
    requires BestOf(es, |es|, b)
    ensures Scan(es[|es|..], IdAt(es, b), RatioAt(es, b)) == IdAt(es, b)
    ensures b >= 0 ==> FirstMaximum(es, b)
    ensures b < 0 ==> forall j | 0 <= j < |es| :: es[j].ratio <= 0.0
  {
    assert es[..|es|] == es;
  }

  /** The scan from position i on, when the best so far is entry b of the whole map */
  lemma {:induction false} ScanFrom(es: seq<Entry>, i: nat, b: int)
    requires BestOf(es, i, b)
    ensures var r := Scan(es[i..], IdAt(es, b), RatioAt(es, b));
            if r == None then forall j | 0 <= j < |es| :: es[j].ratio <= 0.0
            else exists k :: FirstMaximum(es, k) && r == Some(es[k].id)
    decreases |es| - i
  {
    hide Scan, BestOf, FirstMaximum;
    if i == |es| {
      BestInside(es, i, b);
      ScanEnd(es, b);
    } else {
      BestInside(es, i, b);
      BestStep(es, i, b);
      ScanStep(es, i, b);
      ScanFrom(es, i + 1, if es[i].ratio > RatioAt(es, b) then i else b);
    }
  }

  lemma {:induction false} BestInside(es: seq<Entry>, i: nat, b: int)
    requires BestOf(es, i, b)
    ensures i <= |es| && -1 <= b < i
  {
  }

  /** The most visible video is the first entry of the map with the largest ratio; there is none just when no entry has
      a positive ratio. */
  lemma {:induction false} MostVisibleIsFirstMaximum(c: Context)
    ensures MostVisible(c) == None <==> forall e | e in c.visible :: e.ratio <= 0.0
    ensures forall id :: MostVisible(c) == Some(id) <==>
                         exists k :: FirstMaximum(c.visible, k) && c.visible[k].id == id
  {
    ScanFrom(c.visible, 0, -1);
    assert c.visible[0..] == c.visible;
    hide Scan;
    forall k, m | FirstMaximum(c.visible, k) && FirstMaximum(c.visible, m) ensures k == m {
      FirstMaximumUnique(c.visible, k, m);
    }
    if k :| FirstMaximum(c.visible, k) { assert c.visible[k] in c.visible; }
  }

  lemma {:induction false} FirstMaximumUnique(es: seq<Entry>, k: int, m: int)
    requires FirstMaximum(es, k) && FirstMaximum(es, m)
    ensures k == m
  {
  }

  lemma {:induction false} FirstMaximumChosen(c: Context, k: int)
    requires FirstMaximum(c.visible, k)
    ensures MostVisible(c) == Some(c.visible[k].id)
  {
    MostVisibleIsFirstMaximum(c);
    var id := c.visible[k].id;
    hide MostVisible;
    assert MostVisible(c) == Some(id) <==> exists m :: FirstMaximum(c.visible, m) && c.visible[m].id == id;
  }

  lemma {:induction false} MostVisibleNone(h: seq<Op>)
    ensures MostVisible(Run(h)) == None <==> Run(h).visible == []
  {
    VisibleWellKept(h);
    MostVisibleIsFirstMaximum(Run(h));
    if Run(h).visible != [] { assert Run(h).visible[0] in Run(h).visible; }
  }

  /** When the pending timer fires and React renders next, the active video is the first entry of the map with the
      largest ratio, or none when the map is empty, except when that choice agreed with the video on screen already
      and another one was waiting to be rendered. */
  lemma {:induction false} SelectionTakesEffect(h: seq<Op>, timer: nat)
    requires timer in Run(h).timers
    ensures var c, d := Run(h), Run(h + [DoFire(timer)] + [DoRender]);
            && (d.active == MostVisible(c) <==> MostVisible(c) != c.active || c.next == MostVisible(c))
            && (c.next == c.active ==> d.active == MostVisible(c))
            && (MostVisible(c) == None <==> c.visible == [])
            && (forall k | FirstMaximum(c.visible, k) :: MostVisible(c) == Some(c.visible[k].id))
            && (c.visible != [] ==> exists k :: FirstMaximum(c.visible, k))
  {
    RunStep(h, DoFire(timer));
    RunStep(h + [DoFire(timer)], DoRender);
    MostVisibleIsFirstMaximum(Run(h));
    MostVisibleNone(h);
    hide Run, MostVisible;
    forall k | FirstMaximum(Run(h).visible, k) ensures MostVisible(Run(h)) == Some(Run(h).visible[k].id) {
      FirstMaximumChosen(Run(h), k);
    }
  }

  /** A video that is not in the visibility map is the active one after that only when the timer agreed with the
      previous choice and the video was waiting to be rendered. */
  lemma {:induction false} AbsentIsNotChosen(h: seq<Op>, timer: nat, id: Id)
    requires timer in Run(h).timers && !HasKey(Run(h).visible, id)
    ensures var c := Run(h);
            Run(h + [DoFire(timer)] + [DoRender]).active == Some(id)
            <==> MostVisible(c) == c.active && c.next == Some(id)
  {
    RunStep(h, DoFire(timer));
    RunStep(h + [DoFire(timer)], DoRender);
    MostVisibleIsFirstMaximum(Run(h));
    hide Run, MostVisible;
  }

  /** The exception happens: the timer agrees with the video on screen while a click on another one is waiting. */
  lemma {:induction false} WaitingChoiceWins()
    ensures var h := [DoVisibility("a", 1.0), DoFire(0), DoRender, DoVisibility("a", 0.5), DoSetActive(Some("b"))];
            && 1 in Run(h).timers
            && MostVisible(Run(h)) == Some("a")
            && Run(h + [DoFire(1)] + [DoRender]).active == Some("b")
  {
    var h0: seq<Op> := [];
    var h1 := [DoVisibility("a", 1.0)];
    var h2 := [DoVisibility("a", 1.0), DoFire(0)];
    var h3 := [DoVisibility("a", 1.0), DoFire(0), DoRender];
    var h4 := [DoVisibility("a", 1.0), DoFire(0), DoRender, DoVisibility("a", 0.5)];
    RunStep(h0, DoVisibility("a", 1.0));
    RunStep(h1, DoFire(0));
    RunStep(h2, DoRender);
    RunStep(h3, DoVisibility("a", 0.5));
    RunStep(h4, DoSetActive(Some("b")));
    var h := h4 + [DoSetActive(Some("b"))];
    assert Run(h0) == INITIAL;
    assert h1 == h0 + [DoVisibility("a", 1.0)] && h2 == h1 + [DoFire(0)] && h3 == h2 + [DoRender];
    assert h4 == h3 + [DoVisibility("a", 0.5)];
    assert h == [DoVisibility("a", 1.0), DoFire(0), DoRender, DoVisibility("a", 0.5), DoSetActive(Some("b"))];
    assert Run(h1).visible == [Entry("a", 1.0)];
    assert Run(h4).visible == [Entry("a", 0.5)];
    SelectionTakesEffect(h, 1);
    RunStep(h, DoFire(1));
    RunStep(h + [DoFire(1)], DoRender);
  }
}
