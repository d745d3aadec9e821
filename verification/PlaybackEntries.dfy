/**
  What the two maps of frontend-web/src/contexts/VideoPlaybackContext.tsx hold over all runs, value by value: the last
  ratio that was reported, and the element that was registered last.
 */
module PlaybackEntries {
  import opened Options
  import opened PlaybackContext
  import opened PlaybackSelection
  import opened PlaybackSystem
  import opened PlaybackRuns
  import opened PlaybackRegistry

  // ----- One registration -----

  lemma {:induction false} PruneOnceEntries(c: Context)
    requires |c.order| <= MAX_VIDEO_REFS + 1
    ensures Prune(c).visible == if |c.order| <= MAX_VIDEO_REFS || Spared(c, c.order[0]) then c.visible
                                else DeleteEntry(c.visible, c.order[0])
  {
    if |c.order| > MAX_VIDEO_REFS {
      var shifted := c.(order := c.order[1..]);
      assert |shifted.order| <= MAX_VIDEO_REFS;
    }
    hide DeleteEntry;
  }

  lemma {:induction false} Lengthened(s: seq<Id>, id: Id)
    requires NoDuplicates(s)
    ensures var o := Without(s, id) + [id];
            && |o| == (if id in s then |s| else |s| + 1) && (id !in s && s != [] ==> o[0] == s[0]) && id == o[|o| - 1]
  {
    WithoutKeepsRest(s, id);
    NotListed(s, id);
    hide Without;
  }

  /** A registration changes one element, and takes out at most the element and the entry of the video that it shifts
      out and does not spare. */
  lemma {:induction false} RegisterEntries(c: Context, id: Id, element: Element)
    requires NoDuplicates(c.order) && |c.order| <= MAX_VIDEO_REFS
    ensures var d := Register(c, id, element);
            && (forall e: Entry :: e in d.visible <==>
                  e in c.visible && !(ShiftsOut(c, id, e.id) && !Spared(c, e.id)))
            && (forall x | x in d.refs ::
                  if x == id then d.refs[x] == element else x in c.refs && d.refs[x] == c.refs[x])
  {
    hide Without, IndexOf, Prune, DeleteEntry, NoDuplicates;
    var o := Without(c.order, id) + [id];
    var w := c.(order := o, refs := c.refs[id := element]);
    Lengthened(c.order, id);
    PruneOnceEntries(w);
    PruneOnce(w);
  }

  // ----- The visibility map -----

  /** The operation shifts id out of the full list and does not spare it. */
  predicate PutsOut(c: Context, op: Op, id: Id) {
    op.DoRegister? && ShiftsOut(c, op.id, id) && !Spared(c, id)
  }

  /** The ratio last reported for id, unless it was not positive or the video has been taken out since */
  function RatioOf(h: seq<Op>, id: Id): Option<real> {
    if h == [] then None
    else
      var g, op := h[..|h| - 1], h[|h| - 1];
      if op.DoVisibility? && op.id == id then (if op.ratio > 0.0 then Some(op.ratio) else None)
      else if (op.DoUnregister? && op.id == id) || PutsOut(Run(g), op, id) then None
      else RatioOf(g, id)
  }

  lemma {:induction false} SetHolds(es: seq<Entry>, id: Id, ratio: real, e: Entry)
    requires NoDuplicates(Keys(es))
    ensures e in SetEntry(es, id, ratio) <==> if e.id == id then e.ratio == ratio else e in es
  {
    if es != [] {
      TailNoDuplicates(Keys(es));
      assert es == [es[0]] + es[1..] && Keys(es)[1..] == Keys(es[1..]);
      if es[0].id == id {
        if e in es[1..] { KeyListed(es[1..], e); }
      } else {
        SetHolds(es[1..], id, ratio, e);
      }
    }
  }

  lemma {:induction false} KeyListed(es: seq<Entry>, e: Entry)
    requires e in es
    ensures e.id in Keys(es)
  {
    if e != es[0] { KeyListed(es[1..], e); }
  }

  lemma {:induction false} EntryStep(c: Context, op: Op, id: Id, r: real)
    requires WellKept(c.visible) && NoDuplicates(c.order) && |c.order| <= MAX_VIDEO_REFS
    ensures Entry(id, r) in Apply(c, op).visible <==>
            if op.DoVisibility? && op.id == id then r == op.ratio && op.ratio > 0.0
            else Entry(id, r) in c.visible && !(op.DoUnregister? && op.id == id) && !PutsOut(c, op, id)
  {
    hide Register, SetEntry, DeleteEntry, ShiftsOut, Spared, Without;
    match op
    case DoRegister(x, element) => RegisterEntries(c, x, element);
    case DoVisibility(x, ratio) => SetHolds(c.visible, x, ratio, Entry(id, r));
    case _ =>
  }

  /** In every run a video is in the map exactly with the ratio reported last, if that is positive and the video has
      not been unregistered or evicted since. */
  lemma {:induction false} VisibleIsLastReport(h: seq<Op>, id: Id, r: real)
    ensures Entry(id, r) in Run(h).visible <==> RatioOf(h, id) == Some(r)
  {
    if h == [] {
      assert Run(h) == INITIAL;
    } else {
      var g, op := h[..|h| - 1], h[|h| - 1];
      hide PutsOut, Run, WellKept, MostRecent, NoDuplicates, Apply;
      assert h == g + [op];
      VisibleIsLastReport(g, id, r);
      VisibleWellKept(g);
      OrderIsMostRecent(g);
      OrderIsDistinct(g, Run(g).order);
      RunStep(g, op);
      EntryStep(Run(g), op, id, r);
    }
  }

  // ----- The element map -----

  lemma {:induction false} ElementStep(c: Context, op: Op, id: Id)
    requires NoDuplicates(c.order) && |c.order| <= MAX_VIDEO_REFS && id in Apply(c, op).refs
    ensures if op.DoRegister? && op.id == id then Apply(c, op).refs[id] == op.element
            else id in c.refs && Apply(c, op).refs[id] == c.refs[id] && !(op.DoUnregister? && op.id == id)
  {
    hide Register, Without, DeleteEntry, SetEntry;
    if op.DoRegister? { RegisterEntries(c, op.id, op.element); }
  }

  /** In every run the element kept for a video is the one of its last registration. */
  lemma {:induction false} ElementIsLastRegistered(h: seq<Op>, id: Id)
    requires id in Run(h).refs
    ensures var n := LastRegistered(h, id); n >= 0 && h[n].DoRegister? && Run(h).refs[id] == h[n].element
  {
    if h != [] {
      var g, op := h[..|h| - 1], h[|h| - 1];
      hide Run, MostRecent, NoDuplicates, Apply, LastRegistered;
      assert h == g + [op];
      OrderIsMostRecent(g);
      OrderIsDistinct(g, Run(g).order);
      RunStep(g, op);
      ElementStep(Run(g), op, id);
      LastRegisteredStep(g, op, id);
      if !(op.DoRegister? && op.id == id) { ElementIsLastRegistered(g, id); }
    }
  }

  /** When the list is full and a new video registers, the oldest one leaves the list; its element and its entry stay
      exactly when it is the active video or has the empty id. */
  lemma {:induction false} OldestIsShiftedOut(h: seq<Op>, id: Id, element: Element)
    requires |Run(h).order| == 30 && id !in Run(h).order
    ensures var c, d := Run(h), Run(h + [DoRegister(id, element)]); var oldest := c.order[0];
            && d.order == c.order[1..] + [id] && oldest in c.refs
            && (oldest in d.refs <==> oldest == "" || c.active == Some(oldest))
            && (forall r :: Entry(oldest, r) in d.visible <==>
                  Entry(oldest, r) in c.visible && (oldest == "" || c.active == Some(oldest)))
  {
    hide Run, MostRecent, Prune;
    var c := Run(h);
    OrderIsMostRecent(h);
    OrderIsDistinct(h, c.order);
    ElementsOfOrder(h);
    RunStep(h, DoRegister(id, element));
    RegisterEntries(c, id, element);
    NotListed(c.order, id);
    PruneOnce(c.(order := c.order + [id], refs := c.refs[id := element]));
    hide OnlySparedAreExtra;
    assert (c.order + [id])[1..] == c.order[1..] + [id] && (c.order + [id])[0] == c.order[0];
  }

  // ----- In the system -----

  /** Player i shows the video, and no later player does. */
  predicate LastOf(s: System, i: int, id: Id) {
    && 0 <= i < |s.players| && s.players[i].videoId == id
    && forall j | i < j < |s.players| :: s.players[j].videoId != id
  }

  ghost predicate ElementsFit(s: System) {
    forall id | id in s.ctx.refs :: LastOf(s, s.ctx.refs[id], id)
  }

  lemma {:induction false} SameVideos(s: System, step: Step)
    requires !step.Mount?
    ensures |Next(s, step).players| == |s.players|
    ensures forall i | 0 <= i < |s.players| :: Next(s, step).players[i].videoId == s.players[i].videoId
  {
    hide Report, PlaybackEffects, ContextAfterAction, After;
    if step.Acts? && step.i < |s.players| { AfterKeeps(s.players[step.i], step.action); }
  }

  lemma {:induction false} SameElements(s: System, step: Step)
    requires !step.Mount?
    ensures forall id | id in Next(s, step).ctx.refs ::
              id in s.ctx.refs && Next(s, step).ctx.refs[id] == s.ctx.refs[id]
  {
    hide After, Without, DeleteEntry, SetEntry;
  }

  lemma {:induction false} MountFits(s: System, id: Id)
    requires ElementsFit(s) && NoDuplicates(s.ctx.order) && |s.ctx.order| <= MAX_VIDEO_REFS
    ensures ElementsFit(Next(s, Mount(id)))
  {
    RegisterEntries(s.ctx, id, |s.players|);
    hide Register, NoDuplicates, Created;
    assert Next(s, Mount(id)).players == s.players + [Created(id, s.ctx.active)];
    assert Created(id, s.ctx.active).videoId == id by { CreatedShows(id, s.ctx.active); }
  }

  lemma {:induction false} CreatedShows(id: Id, active: Option<Id>)
    ensures Created(id, active).videoId == id
  {
    hide Report, PlaybackEffects;
  }

  /** In every interleaving the element kept for a video is that of the player of this video that mounted last. */
  lemma {:induction false} ElementIsLastMounted(h: seq<Step>)
    ensures ElementsFit(RunSystem(h))
  {
    hide Next, NoDuplicates, MostRecent, Run, LastOf;
    if h == [] {
      NothingFits();
    } else {
      var g := h[..|h| - 1];
      ElementIsLastMounted(g);
      ContextRuns(g);
      OrderIsMostRecent(AllOps(g));
      OrderIsDistinct(AllOps(g), RunSystem(g).ctx.order);
      StepFits(RunSystem(g), h[|h| - 1]);
    }
  }

  lemma {:induction false} NothingFits()
    ensures ElementsFit(RunSystem([]))
  {
  }

  lemma {:induction false} StepFits(s: System, step: Step)
    requires ElementsFit(s) && NoDuplicates(s.ctx.order) && |s.ctx.order| <= MAX_VIDEO_REFS
    ensures ElementsFit(Next(s, step))
  {
    hide Next, NoDuplicates;
    if step.Mount? {
      MountFits(s, step.id);
    } else {
      SameVideos(s, step);
      SameElements(s, step);
    }
  }

  /** What will be rendered as the active video changes only by a choice and by the timer that is pending, which then
      is pending no longer; what is rendered changes only when the provider renders, and then is what waited. */
  lemma {:induction false} OnlyPendingTimersChoose(s: System, step: Step)
    ensures var c, d := s.ctx, Next(s, step).ctx;
            && (step.Choose? ==> d == c.(next := step.choice))
            && (step.TimerFires? && step.timer !in c.timers ==> d == c)
            && (step.TimerFires? && step.timer in c.timers ==>
                  && d.timers == c.timers - {step.timer} && d.visible == c.visible && d.active == c.active
                  && (d.next == MostVisible(c) || (MostVisible(c) == c.active && d.next == c.next)))
            && (d.next != c.next ==> step.Choose? || (step.TimerFires? && step.timer in c.timers))
            && d.active == if step.ProviderRenders? then c.next else c.active
  {
    ActiveAfter(s, step);
    hide Register, MostVisible, After;
    if step.Mount? { RegisterKeepsNext(s.ctx, step.id, |s.players|); }
  }

  lemma {:induction false} RegisterKeepsNext(c: Context, id: Id, element: Element)
    ensures Register(c, id, element).next == c.next
  {
    PruneKeepsActive(c.(order := Without(c.order, id) + [id], refs := c.refs[id := element]));
  }
}
