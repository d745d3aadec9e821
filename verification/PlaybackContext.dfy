/**
  The shared coordinator of frontend-web/src/contexts/VideoPlaybackContext.tsx: the registry of video elements with its
  least-recently-registered eviction, the visibility map, and the debounced choice of the most visible video.
 */
module PlaybackContext {
  import opened Options

  type Id = string
  type Element = nat

  const MAX_VIDEO_REFS: nat := 30

  // ----- JavaScript's insertion-ordered Map from id to visibility ratio -----

  datatype Entry = Entry(id: Id, ratio: real)

  predicate HasKey(es: seq<Entry>, id: Id) {
    exists k :: 0 <= k < |es| && es[k].id == id
  }

  /** map.set: a new key goes last, a known key keeps its place */
  function SetEntry(es: seq<Entry>, id: Id, ratio: real): (r: seq<Entry>)
    ensures Entry(id, ratio) in r && forall e | e in r :: e in es || e == Entry(id, ratio)
  {
    if es == [] then [Entry(id, ratio)]
    else if es[0].id == id then [Entry(id, ratio)] + es[1..]
    else [es[0]] + SetEntry(es[1..], id, ratio)
  }

  /** map.delete */
  function DeleteEntry(es: seq<Entry>, id: Id): (r: seq<Entry>)
    ensures !HasKey(r, id)
    ensures forall e :: e in r <==> e in es && e.id != id
  {
    if es == [] then []
    else if es[0].id == id then DeleteEntry(es[1..], id)
    else [es[0]] + DeleteEntry(es[1..], id)
  }

  // ----- The state -----

  /** `active` is the committed state and the ref that mirrors it; `next` is the value the next render will commit.
      `timers` are the timeouts that have neither fired nor been cleared, `handle` the last one that was set. */
  datatype Context = Context(active: Option<Id>, next: Option<Id>, refs: map<Id, Element>, visible: seq<Entry>,
                             order: seq<Id>, handle: Option<nat>, timers: set<nat>, nextHandle: nat)

  const INITIAL := Context(None, None, map[], [], [], None, {}, 0)

  function IndexOf(s: seq<Id>, id: Id): (k: int)
    ensures k == -1 <==> id !in s
    ensures k != -1 ==> 0 <= k < |s| && s[k] == id && id !in s[..k]
  {
    if s == [] then -1
    else if s[0] == id then 0
    else
      var k := IndexOf(s[1..], id);
      if k == -1 then -1 else
        assert s[..k + 1] == [s[0]] + s[1..][..k];
        k + 1
  }

  /** indexOf and splice: the first occurrence goes */
  function Without(s: seq<Id>, id: Id): seq<Id> {
    var k := IndexOf(s, id);
    if k == -1 then s else s[..k] + s[k + 1..]
  }

  /** An id that is shifted out keeps its element when it is the active one, or empty. */
  predicate Spared(c: Context, id: Id) {
    id == "" || c.active == Some(id)
  }

  function Prune(c: Context): Context
    decreases |c.order|
  {
    if |c.order| <= MAX_VIDEO_REFS then c
    else
      var oldest := c.order[0];
      var shifted := c.(order := c.order[1..]);
      Prune(if Spared(c, oldest) then shifted
            else shifted.(refs := c.refs - {oldest}, visible := DeleteEntry(c.visible, oldest)))
  }

  function Register(c: Context, id: Id, element: Element): Context {
    Prune(c.(order := Without(c.order, id) + [id], refs := c.refs[id := element]))
  }

  function Unregister(c: Context, id: Id): Context {
    c.(refs := c.refs - {id}, visible := DeleteEntry(c.visible, id), order := Without(c.order, id))
  }

  function UpdateVisibility(c: Context, id: Id, ratio: real): Context {
    var cleared := if c.handle == None then c.timers else c.timers - {c.handle.value};
    c.(visible := if ratio > 0.0 then SetEntry(c.visible, id, ratio) else DeleteEntry(c.visible, id),
       handle := Some(c.nextHandle), timers := cleared + {c.nextHandle}, nextHandle := c.nextHandle + 1)
  }

  /** The scan of the map: the best so far is replaced only by a strictly larger ratio. */
  function Scan(es: seq<Entry>, best: Option<Id>, ratio: real): Option<Id> {
    if es == [] then best
    else if es[0].ratio > ratio then Scan(es[1..], Some(es[0].id), es[0].ratio)
    else Scan(es[1..], best, ratio)
  }

  function MostVisible(c: Context): Option<Id> {
    Scan(c.visible, None, 0.0)
  }

  function Fire(c: Context, timer: nat): Context {
    if timer !in c.timers then c
    else
      var fired := c.(timers := c.timers - {timer});
      if MostVisible(c) != c.active then fired.(next := MostVisible(c)) else fired
  }

  function SetActive(c: Context, id: Option<Id>): Context {
    c.(next := id)
  }

  function Render(c: Context): Context {
    c.(active := c.next)
  }

  // ----- Runs -----

  datatype Op =
    | DoRegister(id: Id, element: Element)
    | DoUnregister(id: Id)
    | DoVisibility(id: Id, ratio: real)
    | DoSetActive(choice: Option<Id>)
    | DoRender
    | DoFire(timer: nat)

  function Apply(c: Context, op: Op): Context {
    match op
    case DoRegister(id, element) => Register(c, id, element)
    case DoUnregister(id) => Unregister(c, id)
    case DoVisibility(id, ratio) => UpdateVisibility(c, id, ratio)
    case DoSetActive(choice) => SetActive(c, choice)
    case DoRender => Render(c)
    case DoFire(timer) => Fire(c, timer)
  }

  function Run(h: seq<Op>): Context {
    if h == [] then INITIAL else Apply(Run(h[..|h| - 1]), h[|h| - 1])
  }

  lemma {:induction false} RunStep(h: seq<Op>, op: Op)
    ensures Run(h + [op]) == Apply(Run(h), op)
  {
    assert (h + [op])[..|h|] == h;
  }

  /** When id was last registered, if it has not been unregistered since; otherwise -1 */
  function LastRegistered(h: seq<Op>, id: Id): (t: int)
    ensures -1 <= t < |h|
  {
    if h == [] then -1
    else
      match h[|h| - 1]
      case DoRegister(i, _) => if i == id then |h| - 1 else LastRegistered(h[..|h| - 1], id)
      case DoUnregister(i) => if i == id then -1 else LastRegistered(h[..|h| - 1], id)
      case _ => LastRegistered(h[..|h| - 1], id)
  }

  // ----- Least recently registered: what the order means -----

  predicate NoDuplicates(s: seq<Id>) {
    forall i, j | 0 <= i < j < |s| :: s[i] != s[j]
  }

  /** The registration order is a duplicate-free list of at most 30 registered ids, in order of last registration,
      and no id outside it was registered after one inside it. */
  ghost predicate MostRecent(h: seq<Op>, order: seq<Id>) {
    && NoDuplicates(order)
    && (forall i | 0 <= i < |order| :: LastRegistered(h, order[i]) >= 0)
    && (forall i, j | 0 <= i < j < |order| :: LastRegistered(h, order[i]) < LastRegistered(h, order[j]))
    && (forall id, i | 0 <= i < |order| && id !in order :: LastRegistered(h, id) < LastRegistered(h, order[i]))
  }

  /** The same while id is being taken out: nothing is said about id, except that it is not listed. */
  ghost predicate MostRecentButFor(h: seq<Op>, order: seq<Id>, id: Id) {
    && NoDuplicates(order) && id !in order
    && (forall i | 0 <= i < |order| :: LastRegistered(h, order[i]) >= 0)
    && (forall i, j | 0 <= i < j < |order| :: LastRegistered(h, order[i]) < LastRegistered(h, order[j]))
    && (forall x, i | 0 <= i < |order| && x !in order && x != id ::
          LastRegistered(h, x) < LastRegistered(h, order[i]))
  }

  lemma {:induction false} NotListed(s: seq<Id>, id: Id)
    ensures id !in s ==> Without(s, id) == s
  {
  }

  lemma {:induction false} SpliceAt<T>(s: seq<T>, k: nat, i: nat)
    requires k < |s| && i < |s| - 1
    ensures (s[..k] + s[k + 1..])[i] == s[if i < k then i else i + 1]
  {
  }

  lemma {:induction false} SpliceKeepsRest(s: seq<Id>, k: nat)
    requires NoDuplicates(s) && k < |s|
    ensures var r := s[..k] + s[k + 1..];
            (forall x :: x in r <==> x in s && x != s[k]) && NoDuplicates(r) && |r| == |s| - 1
  {
    var r := s[..k] + s[k + 1..];
    forall i: nat | i < |s| - 1 ensures r[i] == s[if i < k then i else i + 1] { SpliceAt(s, k, i); }
    forall i | 0 <= i < |s| && i != k ensures s[i] in r {
      assert r[if i < k then i else i - 1] == s[i];
    }
  }

  /** Where the entries of the shorter list come from */
  function Origin(s: seq<Id>, id: Id, i: nat): nat {
    var k := IndexOf(s, id);
    if k == -1 || i < k then i else i + 1
  }

  lemma {:induction false} WithoutAt(s: seq<Id>, id: Id, i: nat)
    requires i < |Without(s, id)|
    ensures Origin(s, id, i) < |s| && Without(s, id)[i] == s[Origin(s, id, i)]
  {
    var k := IndexOf(s, id);
    hide IndexOf;
    if k != -1 { SpliceAt(s, k, i); }
  }

  lemma {:induction false} WithoutKeepsRest(s: seq<Id>, id: Id)
    requires NoDuplicates(s)
    ensures forall x :: x in Without(s, id) <==> x in s && x != id
    ensures NoDuplicates(Without(s, id)) && |Without(s, id)| <= |s|
    ensures id in s ==> |Without(s, id)| == |s| - 1
  {
    var k := IndexOf(s, id);
    if k == -1 {
      NotListed(s, id);
    } else {
      SpliceKeepsRest(s, k);
    }
    hide IndexOf;
  }

  lemma {:induction false} WithoutMostRecent(h: seq<Op>, g: seq<Op>, order: seq<Id>, id: Id)
    requires MostRecent(h, order)
    requires forall x | x != id :: LastRegistered(g, x) == LastRegistered(h, x)
    ensures MostRecentButFor(g, Without(order, id), id)
  {
    hide LastRegistered;
    WithoutKeepsRest(order, id);
    hide Without, IndexOf;
    var o := Without(order, id);
    forall i | 0 <= i < |o|
      ensures 0 <= Origin(order, id, i) < |order| && o[i] == order[Origin(order, id, i)] && o[i] != id
    {
      WithoutAt(order, id, i);
      assert o[i] in o;
    }
    forall i, j | 0 <= i < j < |o| ensures LastRegistered(g, o[i]) < LastRegistered(g, o[j]) {
      assert Origin(order, id, i) < Origin(order, id, j);
    }
  }

  lemma {:induction false} LastRegisteredStep(h: seq<Op>, op: Op, id: Id)
    ensures LastRegistered(h + [op], id) ==
              if op.DoRegister? && op.id == id then |h|
              else if op.DoUnregister? && op.id == id then -1
              else LastRegistered(h, id)
  {
    assert (h + [op])[..|h|] == h;
  }

  /** What pruning does when only one id is too many */
  lemma {:induction false} PruneOnce(c: Context)
    requires |c.order| <= MAX_VIDEO_REFS + 1
    ensures Prune(c).order == if |c.order| <= MAX_VIDEO_REFS then c.order else c.order[1..]
    ensures |c.order| > MAX_VIDEO_REFS ==>
              Prune(c).refs == if Spared(c, c.order[0]) then c.refs else c.refs - {c.order[0]}
    ensures |c.order| <= MAX_VIDEO_REFS ==> Prune(c) == c
    ensures Prune(c).active == c.active && Prune(c).next == c.next
  {
    if |c.order| > MAX_VIDEO_REFS {
      var shifted := c.(order := c.order[1..]);
      assert |shifted.order| <= MAX_VIDEO_REFS;
    }
  }

  lemma {:induction false} AppendMostRecent(g: seq<Op>, o: seq<Id>, id: Id)
    requires MostRecentButFor(g, o, id)
    requires |g| > 0 && LastRegistered(g, id) == |g| - 1 && forall x | x != id :: LastRegistered(g, x) < |g| - 1
    ensures MostRecent(g, o + [id])
  {
    hide LastRegistered;
    var w := o + [id];
    assert forall i | 0 <= i < |w| :: w[i] == if i < |o| then o[i] else id;
    assert forall x :: x in w <==> x in o || x == id;
  }

  lemma {:induction false} DropOldest(g: seq<Op>, o: seq<Id>)
    requires MostRecent(g, o) && o != []
    ensures MostRecent(g, o[1..])
  {
    hide LastRegistered;
    var w := o[1..];
    assert forall i | 0 <= i < |w| :: w[i] == o[i + 1];
    forall x, i | 0 <= i < |w| && x !in w ensures LastRegistered(g, x) < LastRegistered(g, w[i]) {
      if x == o[0] { assert LastRegistered(g, o[0]) < LastRegistered(g, o[i + 1]); }
      else { assert x !in o by { assert o == [o[0]] + w; } }
    }
  }

  lemma {:induction false} RegisterMostRecent(h: seq<Op>, c: Context, id: Id, element: Element)
    requires MostRecent(h, c.order) && |c.order| <= MAX_VIDEO_REFS
    ensures MostRecent(h + [DoRegister(id, element)], Register(c, id, element).order)
    ensures |Register(c, id, element).order| <= MAX_VIDEO_REFS
  {
    hide LastRegistered, Without, IndexOf, Prune;
    var g := h + [DoRegister(id, element)];
    forall x ensures LastRegistered(g, x) == if x == id then |h| else LastRegistered(h, x) {
      LastRegisteredStep(h, DoRegister(id, element), x);
    }
    WithoutMostRecent(h, g, c.order, id);
    WithoutKeepsRest(c.order, id);
    AppendMostRecent(g, Without(c.order, id), id);
    var o := Without(c.order, id) + [id];
    PruneOnce(c.(order := o, refs := c.refs[id := element]));
    if |o| > MAX_VIDEO_REFS { DropOldest(g, o); }
  }

  lemma {:induction false} UnregisterMostRecent(h: seq<Op>, order: seq<Id>, id: Id)
    requires MostRecent(h, order)
    ensures MostRecent(h + [DoUnregister(id)], Without(order, id))
  {
    hide LastRegistered, Without, IndexOf;
    var g := h + [DoUnregister(id)];
    forall x ensures LastRegistered(g, x) == if x == id then -1 else LastRegistered(h, x) {
      LastRegisteredStep(h, DoUnregister(id), x);
    }
    WithoutMostRecent(h, g, order, id);
  }

  lemma {:induction false} OtherMostRecent(h: seq<Op>, order: seq<Id>, op: Op)
    requires MostRecent(h, order) && !op.DoRegister? && !op.DoUnregister?
    ensures MostRecent(h + [op], order)
  {
    hide LastRegistered;
    forall x ensures LastRegistered(h + [op], x) == LastRegistered(h, x) { LastRegisteredStep(h, op, x); }
  }

  lemma {:induction false} OrderIsDistinct(h: seq<Op>, order: seq<Id>)
    requires MostRecent(h, order)
    ensures NoDuplicates(order)
  {
  }

  lemma {:induction false} NothingRegistered()
    ensures Run([]) == INITIAL && MostRecent([], Run([]).order)
  {
  }

  /** In every run, whatever is mixed in, the order holds the most recently registered of the registered ids. */
  lemma {:induction false} OrderIsMostRecent(h: seq<Op>)
    ensures MostRecent(h, Run(h).order) && |Run(h).order| <= 30
  {
    hide Run, LastRegistered, MostRecent, NoDuplicates, Without, IndexOf, Register;
    if h == [] {
      NothingRegistered();
    } else {
      var p, op := h[..|h| - 1], h[|h| - 1];
      OrderIsMostRecent(p);
      RunStep(p, op);
      assert h == p + [op];
      match op
      case DoRegister(id, element) => RegisterMostRecent(p, Run(p), id, element);
      case DoUnregister(id) =>
        UnregisterMostRecent(p, Run(p).order, id);
        OrderIsDistinct(p, Run(p).order);
        WithoutKeepsRest(Run(p).order, id);
      case _ => OtherMostRecent(p, Run(p).order, op);
    }
  }

  /** Of two lists of that kind that agree from i + 1 on, the first does not hold a later registered id at i. */
  lemma {:induction false} NotLater(h: seq<Op>, o1: seq<Id>, o2: seq<Id>, i: nat)
    requires MostRecent(h, o1) && MostRecent(h, o2) && |o1| == |o2|
    requires i < |o1| && forall j | i < j < |o1| :: o1[j] == o2[j]
    ensures o1[i] == o2[i] || LastRegistered(h, o1[i]) < LastRegistered(h, o2[i])
  {
    hide LastRegistered;
    if o1[i] in o2 {
      var j :| 0 <= j < |o2| && o2[j] == o1[i];
      if j < i {
        assert LastRegistered(h, o2[j]) < LastRegistered(h, o2[i]);
      } else if j > i {
        assert false;
      }
    } else {
      assert LastRegistered(h, o1[i]) < LastRegistered(h, o2[i]);
    }
  }

  lemma {:induction false} SameFrom(h: seq<Op>, o1: seq<Id>, o2: seq<Id>, i: nat)
    requires MostRecent(h, o1) && MostRecent(h, o2) && |o1| == |o2|
    ensures forall j | i <= j < |o1| :: o1[j] == o2[j]
    decreases |o1| - i
  {
    hide LastRegistered;
    if i < |o1| {
      SameFrom(h, o1, o2, i + 1);
      NotLater(h, o1, o2, i);
      NotLater(h, o2, o1, i);
    }
  }

  /** Two lists of that kind and of one length are the same list: the history and the length determine the order. */
  lemma {:induction false} MostRecentIsUnique(h: seq<Op>, o1: seq<Id>, o2: seq<Id>)
    requires MostRecent(h, o1) && MostRecent(h, o2) && |o1| == |o2|
    ensures o1 == o2
  {
    SameFrom(h, o1, o2, 0);
  }

  // ----- Without unregistrations nothing registered is missing unless the list is full -----

  predicate NeverUnregisters(h: seq<Op>) {
    forall k | 0 <= k < |h| :: !h[k].DoUnregister?
  }

  ghost predicate HoldsAll(h: seq<Op>, order: seq<Id>) {
    forall id | LastRegistered(h, id) >= 0 :: id in order
  }

  lemma {:induction false} HoldsAllStep(p: seq<Op>, op: Op)
    requires !op.DoUnregister?
    requires |Run(p).order| == MAX_VIDEO_REFS || HoldsAll(p, Run(p).order)
    ensures |Run(p + [op]).order| == MAX_VIDEO_REFS || HoldsAll(p + [op], Run(p + [op]).order)
  {
    OrderIsMostRecent(p);
    RunStep(p, op);
    var c := Run(p);
    forall x ensures LastRegistered(p + [op], x) == if op.DoRegister? && op.id == x then |p| else LastRegistered(p, x) {
      LastRegisteredStep(p, op, x);
    }
    hide LastRegistered, Run;
    if op.DoRegister? {
      WithoutKeepsRest(c.order, op.id);
      PruneOnce(c.(order := Without(c.order, op.id) + [op.id], refs := c.refs[op.id := op.element]));
    }
  }

  /** With no unregistration, the order is the whole list of registered ids, or it has exactly 30 of them. */
  lemma {:induction false} OrderIsFullOrComplete(h: seq<Op>)
    requires NeverUnregisters(h)
    ensures |Run(h).order| == 30 || HoldsAll(h, Run(h).order)
  {
    if h != [] {
      OrderIsFullOrComplete(h[..|h| - 1]);
      HoldsAllStep(h[..|h| - 1], h[|h| - 1]);
      assert h == h[..|h| - 1] + [h[|h| - 1]];
    }
  }

  // ----- The element map -----

  ghost predicate Listed(c: Context) {
    forall id | id in c.order :: id in c.refs
  }

  /** Registering id shifts the listed id oldest out. */
  predicate ShiftsOut(c: Context, id: Id, oldest: Id) {
    |c.order| == MAX_VIDEO_REFS && id !in c.order && c.order[0] == oldest
  }

  /** Step n of the run shifts id out and spares it. */
  ghost predicate SparedAt(h: seq<Op>, n: nat, id: Id) {
    n < |h| && h[n].DoRegister? && ShiftsOut(Run(h[..n]), h[n].id, id) && Spared(Run(h[..n]), id)
  }

  ghost predicate OnlySparedAreExtra(h: seq<Op>, c: Context) {
    forall id | id in c.refs && id !in c.order :: exists n :: SparedAt(h, n, id)
  }

  lemma {:induction false} SparedAtKept(p: seq<Op>, op: Op, n: nat, id: Id)
    requires SparedAt(p, n, id)
    ensures SparedAt(p + [op], n, id)
  {
    assert (p + [op])[..n] == p[..n];
  }

  lemma {:induction false} ElementsAfterRegister(c: Context, id: Id, element: Element)
    requires Listed(c) && NoDuplicates(c.order) && |c.order| <= MAX_VIDEO_REFS
    ensures var d := Register(c, id, element);
            && Listed(d)
            && forall x | x in d.refs && x !in d.order ::
                 (x in c.refs && x !in c.order) || (ShiftsOut(c, id, x) && Spared(c, x))
  {
    WithoutKeepsRest(c.order, id);
    var o := Without(c.order, id) + [id];
    var w := c.(order := o, refs := c.refs[id := element]);
    PruneOnce(w);
    NotListed(c.order, id);
    hide Without, IndexOf, Prune;
    assert forall x :: x in o <==> x in c.order || x == id;
    assert Spared(w, o[0]) == Spared(c, o[0]);
    if |o| > MAX_VIDEO_REFS {
      FirstOnce(o, Without(c.order, id), id);
    }
  }

  lemma {:induction false} FirstOnce(o: seq<Id>, s: seq<Id>, id: Id)
    requires o == s + [id] && NoDuplicates(s) && id !in s
    ensures o[0] !in o[1..] && forall x :: x in o <==> x == o[0] || x in o[1..]
  {
    assert o == [o[0]] + o[1..];
    assert forall i | 0 <= i < |o[1..]| :: o[1..][i] == o[i + 1];
  }

  lemma {:induction false} SparedNow(p: seq<Op>, op: Op, x: Id)
    requires op.DoRegister? && ShiftsOut(Run(p), op.id, x) && Spared(Run(p), x)
    ensures SparedAt(p + [op], |p|, x)
  {
    hide Run, ShiftsOut, Spared;
    assert (p + [op])[..|p|] == p;
  }

  /** An extra element after the step was one before it, or was spared by it. */
  lemma {:induction false} ExtrasTraced(p: seq<Op>, op: Op, d: Context)
    requires OnlySparedAreExtra(p, Run(p))
    requires forall x | x in d.refs && x !in d.order ::
               (x in Run(p).refs && x !in Run(p).order) || SparedAt(p + [op], |p|, x)
    ensures OnlySparedAreExtra(p + [op], d)
  {
    hide Run, SparedAt;
    forall x | x in d.refs && x !in d.order ensures exists n :: SparedAt(p + [op], n, x) {
      if x in Run(p).refs && x !in Run(p).order {
        var n :| SparedAt(p, n, x);
        SparedAtKept(p, op, n, x);
      }
    }
  }

  lemma {:induction false} ElementsStep(p: seq<Op>, op: Op)
    requires Listed(Run(p)) && OnlySparedAreExtra(p, Run(p))
    ensures Listed(Run(p + [op])) && OnlySparedAreExtra(p + [op], Run(p + [op]))
  {
    hide Run, LastRegistered, MostRecent, NoDuplicates, Without, IndexOf, Register, SparedAt, ShiftsOut, Spared;
    hide OnlySparedAreExtra;
    OrderIsMostRecent(p);
    RunStep(p, op);
    var c := Run(p);
    OrderIsDistinct(p, c.order);
    match op {
      case DoRegister(id, element) =>
        ElementsAfterRegister(c, id, element);
        forall x | ShiftsOut(c, id, x) && Spared(c, x) ensures SparedAt(p + [op], |p|, x) { SparedNow(p, op, x); }
      case DoUnregister(id) =>
        WithoutKeepsRest(c.order, id);
      case _ =>
    }
    ExtrasTraced(p, op, Run(p + [op]));
  }

  /** In every run each listed id has its element, and an element outside the list belongs to an id
      that was shifted out while it was the active one (or is the empty id). */
  lemma {:induction false} ElementsOfOrder(h: seq<Op>)
    ensures Listed(Run(h)) && OnlySparedAreExtra(h, Run(h))
  {
    if h == [] {
      assert Run(h) == INITIAL;
    } else {
      hide Run, Listed, OnlySparedAreExtra;
      ElementsOfOrder(h[..|h| - 1]);
      ElementsStep(h[..|h| - 1], h[|h| - 1]);
      assert h == h[..|h| - 1] + [h[|h| - 1]];
    }
  }

  // ----- How many elements are kept -----

  function Members(s: seq<Id>): set<Id> {
    set x | x in s
  }

  lemma {:induction false} MembersCount(s: seq<Id>)
    requires NoDuplicates(s)
    ensures |Members(s)| == |s|
  {
    if s != [] {
      MembersCount(s[1..]);
      assert s == [s[0]] + s[1..];
      assert forall i | 0 <= i < |s[1..]| :: s[1..][i] == s[i + 1];
      assert Members(s) == {s[0]} + Members(s[1..]);
    }
  }

  lemma {:induction false} SubsetCount<T>(a: set<T>, b: set<T>)
    requires a <= b
    ensures |a| <= |b|
  {
    assert b == a + (b - a);
  }

  ghost predicate NothingSpared(h: seq<Op>) {
    forall n, id :: !SparedAt(h, n, id)
  }

  lemma {:induction false} SparedInPrefix(h: seq<Op>, n: nat, m: nat, id: Id)
    requires n <= |h| && SparedAt(h[..n], m, id)
    ensures SparedAt(h, m, id)
  {
    assert h[..n][..m] == h[..m];
  }

  lemma {:induction false} BoundedWhenNothingSpared(h: seq<Op>)
    requires NothingSpared(h)
    ensures |Run(h).refs| <= MAX_VIDEO_REFS
  {
    ElementsOfOrder(h);
    OrderIsMostRecent(h);
    var c := Run(h);
    hide Run, LastRegistered;
    MembersCount(c.order);
    SubsetCount(c.refs.Keys, Members(c.order));
  }

  lemma {:induction false} SparedStays(c: Context, id: Id, element: Element)
    requires NoDuplicates(c.order) && Listed(c) && |c.order| == MAX_VIDEO_REFS && id !in c.order
    requires Spared(c, c.order[0])
    ensures |Register(c, id, element).refs| > MAX_VIDEO_REFS
  {
    WithoutKeepsRest(c.order, id);
    assert Without(c.order, id) == c.order;
    var o := c.order + [id];
    var w := c.(order := o, refs := c.refs[id := element]);
    PruneOnce(w);
    hide Prune, Without, IndexOf;
    assert Spared(w, o[0]) && o[0] == c.order[0];
    assert Members(o) == Members(c.order) + {id};
    MembersCount(c.order);
    SubsetCount(Members(o), w.refs.Keys);
  }

  lemma {:induction false} OverBoundWhenSpared(h: seq<Op>, n: nat, id: Id)
    requires SparedAt(h, n, id)
    ensures |Run(h[..n + 1]).refs| > MAX_VIDEO_REFS
  {
    var p, op := h[..n], h[n];
    OrderIsMostRecent(p);
    ElementsOfOrder(p);
    RunStep(p, op);
    assert h[..n + 1] == p + [op];
    hide Run, LastRegistered, Prune, IndexOf, Register, Without;
    SparedStays(Run(p), op.id, op.element);
  }

  /** The map stays within MAX_VIDEO_REFS throughout a run if and only if no registration of the run ever shifts out
      an id that is active (or empty). */
  lemma {:induction false} BoundedIffNothingSpared(h: seq<Op>)
    ensures (forall n | 0 <= n <= |h| :: |Run(h[..n]).refs| <= MAX_VIDEO_REFS) <==> NothingSpared(h)
  {
    if NothingSpared(h) {
      forall n | 0 <= n <= |h| ensures |Run(h[..n]).refs| <= MAX_VIDEO_REFS {
        forall m, id | SparedAt(h[..n], m, id) ensures SparedAt(h, m, id) { SparedInPrefix(h, n, m, id); }
        BoundedWhenNothingSpared(h[..n]);
      }
    } else {
      var n, id :| SparedAt(h, n, id);
      OverBoundWhenSpared(h, n, id);
    }
  }

  function Fresh(n: nat): Id {
    seq(n, _ => 'v')
  }

  /** Make the oldest listed id active and render. */
  function Protect(c: Context): seq<Op> {
    if |c.order| < MAX_VIDEO_REFS then [] else [DoSetActive(Some(c.order[0])), DoRender]
  }

  /** A history that makes the map hold n elements: new ids are registered, the oldest listed one being active. */
  function Hoard(n: nat): seq<Op>
    decreases n, 0, 0
  {
    if n == 0 then []
    else Hoard(n - 1) + Protect(Run(Hoard(n - 1))) + [DoRegister(Fresh(n), n)]
  }

  ghost predicate Hoarded(c: Context, n: nat) {
    && |c.refs| == n && (forall id | id in c.refs :: |id| <= n)
    && |c.order| == if n < MAX_VIDEO_REFS then n else MAX_VIDEO_REFS
  }

  lemma {:induction false} Protected(p: seq<Op>)
    requires |Run(p).order| <= MAX_VIDEO_REFS
    ensures var c, d := Run(p), Run(p + Protect(Run(p)));
            && d.order == c.order && d.refs == c.refs
            && (|c.order| == MAX_VIDEO_REFS ==> d.active == Some(c.order[0]))
  {
    var c := Run(p);
    if |c.order| < MAX_VIDEO_REFS {
      assert p + [] == p;
    } else {
      var choose := DoSetActive(Some(c.order[0]));
      RunStep(p, choose);
      RunStep(p + [choose], DoRender);
      assert p + [choose] + [DoRender] == p + Protect(c);
    }
  }

  lemma {:induction false} HoardMore(c: Context, n: nat)
    requires Hoarded(c, n) && Listed(c) && NoDuplicates(c.order)
    requires |c.order| == MAX_VIDEO_REFS ==> c.active == Some(c.order[0])
    ensures Hoarded(Register(c, Fresh(n + 1), n + 1), n + 1)
  {
    var id := Fresh(n + 1);
    assert |id| == n + 1 && id !in c.refs && id !in c.order;
    assert Without(c.order, id) == c.order;
    var w := c.(order := c.order + [id], refs := c.refs[id := n + 1]);
    PruneOnce(w);
    assert w.refs.Keys == c.refs.Keys + {id};
    assert |c.order| > 0 ==> w.order[0] == c.order[0];
  }

  lemma {:induction false} HoardMoreInRun(q: seq<Op>, n: nat)
    requires Hoarded(Run(q), n)
    requires |Run(q).order| == MAX_VIDEO_REFS ==> Run(q).active == Some(Run(q).order[0])
    ensures Hoarded(Run(q + [DoRegister(Fresh(n + 1), n + 1)]), n + 1)
  {
    ElementsOfOrder(q);
    OrderIsMostRecent(q);
    RunStep(q, DoRegister(Fresh(n + 1), n + 1));
    var c := Run(q);
    hide Run, LastRegistered, Prune, Without, Fresh, Register;
    HoardMore(c, n);
  }

  lemma {:induction false} HoardAt(n: nat)
    requires n > 0
    ensures Hoard(n) == Hoard(n - 1) + Protect(Run(Hoard(n - 1))) + [DoRegister(Fresh(n), n)]
  {
    hide Run, Protect, Fresh;
  }

  lemma {:induction false} NothingHoarded()
    ensures Hoarded(Run(Hoard(0)), 0)
  {
    assert Run([]) == INITIAL;
  }

  /** There is no bound on the map: for every n some run leaves n elements in it. */
  lemma {:induction false} RefsUnbounded(n: nat)
    ensures Hoarded(Run(Hoard(n)), n)
    decreases n
  {
    hide Run, Hoard, Protect, Hoarded, Fresh;
    if n == 0 {
      NothingHoarded();
    } else {
      RefsUnbounded(n - 1);
      var p := Hoard(n - 1);
      OrderIsMostRecent(p);
      Protected(p);
      assert Hoarded(Run(p + Protect(Run(p))), n - 1) by { HoardedKept(Run(p), Run(p + Protect(Run(p))), n - 1); }
      HoardMoreInRun(p + Protect(Run(p)), n - 1);
      HoardAt(n);
    }
  }

  lemma {:induction false} HoardedKept(c: Context, d: Context, n: nat)
    requires Hoarded(c, n) && d.order == c.order && d.refs == c.refs
    ensures Hoarded(d, n)
  {
  }
}
