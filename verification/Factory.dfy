/**
 * The refcounted client factory (featureflip.go:60-130, 304-321; shared_core.go:70-193) under
 * concurrency: every lock section, atomic load and compare-and-swap is one step, the initial
 * fetch and the start of what follows it are one each, and any number of Get calls and handles
 * interleave.
 */
module Factory {

  /**
   * How far doInit got: its fetch still to come, over, or everything started. loaded says whether
   * the fetch was answered in time and stored.
   */
  datatype Stage = Unfetched | Fetched(loaded: bool) | Started(loaded: bool)

  /** A shared core; published, stage and halted tell how far its life has come. */
  datatype Core = Core(
    key: string, refCount: int, shutDown: bool, published: bool, stage: Stage, halted: bool, maker: nat)

  /** What a release goes on with: Get's lost race tries the winner, Close is done. */
  datatype After = ThenAcquire(key: string, winner: nat) | ThenDone

  /** Where a Get call stands, and, once it returned, its handle. */
  datatype Pc =
    | Lookup(key: string)
    | AcquireLoad(key: string, core: nat, raced: bool)
    | AcquireSwap(key: string, core: nat, raced: bool, seen: int)
    | DropStale(key: string, core: nat)
    | Building(key: string)
    | Inserting(key: string, core: nat)
    | Fetching(core: nat)
    | Starting(core: nat)
    | Open(core: nat)
    | ReleaseLoad(core: nat, after: After)
    | ReleaseSwap(core: nat, seen: int, after: After)
    | ShutSwap(core: nat, after: After)
    | Unlisting(core: nat, after: After)
    | Halting(core: nat, after: After)
    | Closed

  datatype World = World(cores: seq<Core>, live: map<string, nat>)

  datatype State = State(w: World, callers: seq<Pc>)

  /**
   * A call of Get, the next atomic step of a call in progress, or Close on a handle. Answer is the
   * step of a call whose initial fetch succeeded; when that call runs instead, the fetch failed or
   * timed out.
   */
  datatype Action = Get(key: string) | Run(caller: nat) | Answer(caller: nat) | Close(caller: nat)

  const INIT := State(World([], map[]), [])

  // ---- steps ----------------------------------------------------------------------------

  function Continue(after: After): Pc {
    match after
    case ThenAcquire(key, winner) => AcquireLoad(key, winner, true)
    case ThenDone => Closed
  }

  function Remove(w: World, key: string, core: nat): World {
    if key in w.live && w.live[key] == core then w.(live := w.live - {key}) else w
  }

  function Put(w: World, k: nat, core: Core): World
    requires k < |w.cores|
  {
    w.(cores := w.cores[k := core])
  }

  /** The cores a caller at pc refers to exist. */
  predicate Known(w: World, pc: Pc) {
    match pc
    case Lookup(_) => true
    case AcquireLoad(_, k, _) => k < |w.cores|
    case AcquireSwap(_, k, _, _) => k < |w.cores|
    case DropStale(_, k) => k < |w.cores|
    case Building(_) => true
    case Inserting(_, k) => k < |w.cores|
    case Fetching(k) => k < |w.cores|
    case Starting(k) => k < |w.cores|
    case Open(k) => k < |w.cores|
    case ReleaseLoad(k, after) => k < |w.cores| && KnownAfter(w, after)
    case ReleaseSwap(k, _, after) => k < |w.cores| && KnownAfter(w, after)
    case ShutSwap(k, after) => k < |w.cores| && KnownAfter(w, after)
    case Unlisting(k, after) => k < |w.cores| && KnownAfter(w, after)
    case Halting(k, after) => k < |w.cores| && KnownAfter(w, after)
    case Closed => true
  }

  predicate KnownAfter(w: World, after: After) {
    after.ThenAcquire? ==> after.winner < |w.cores|
  }

  /** tryAcquire: load, give up at zero, else swap one higher. */
  function AcquireStep(w: World, pc: Pc): (Pc, World)
    requires (pc.AcquireLoad? || pc.AcquireSwap?) && Known(w, pc)
  {
    var core := w.cores[pc.core];
    if pc.AcquireLoad? then
      if core.refCount <= 0 then (if pc.raced then Lookup(pc.key) else DropStale(pc.key, pc.core), w)
      else (AcquireSwap(pc.key, pc.core, pc.raced, core.refCount), w)
    else if core.refCount == pc.seen then
      (Open(pc.core), Put(w, pc.core, core.(refCount := pc.seen + 1)))
    else (AcquireLoad(pc.key, pc.core, pc.raced), w)
  }

  /** Get's double-checked insertion; the losing core is released, the winner acquired. */
  function InsertStep(w: World, key: string, k: nat): (Pc, World)
    requires k < |w.cores|
  {
    if key in w.live then (ReleaseLoad(k, ThenAcquire(key, w.live[key])), w)
    else (Fetching(k), Put(w, k, w.cores[k].(published := true)).(live := w.live[key := k]))
  }

  /** release: load, nothing at zero, else swap one lower and shut down on reaching zero. */
  function ReleaseStep(w: World, pc: Pc): (Pc, World)
    requires (pc.ReleaseLoad? || pc.ReleaseSwap?) && Known(w, pc)
  {
    var core := w.cores[pc.core];
    if pc.ReleaseLoad? then
      if core.refCount <= 0 then (Continue(pc.after), w) else (ReleaseSwap(pc.core, core.refCount, pc.after), w)
    else if core.refCount == pc.seen then
      (if pc.seen - 1 == 0 then ShutSwap(pc.core, pc.after) else Continue(pc.after),
       Put(w, pc.core, core.(refCount := pc.seen - 1)))
    else (ReleaseLoad(pc.core, pc.after), w)
  }

  /** shutdown, entered through its own compare-and-swap: leave the map first, then stop everything. */
  function ShutdownStep(w: World, pc: Pc): (Pc, World)
    requires (pc.ShutSwap? || pc.Unlisting? || pc.Halting?) && Known(w, pc)
  {
    var core := w.cores[pc.core];
    if pc.ShutSwap? then
      if core.shutDown then (Continue(pc.after), w)
      else (Unlisting(pc.core, pc.after), Put(w, pc.core, core.(shutDown := true)))
    else if pc.Unlisting? then
      (Halting(pc.core, pc.after), if core.published then Remove(w, core.key, pc.core) else w)
    else (Continue(pc.after), Put(w, pc.core, core.(halted := true)))
  }

  /** doInit: the fetch, with its answer stored, and then the event processor and the data source. */
  function InitStep(w: World, pc: Pc, answered: bool): (Pc, World)
    requires (pc.Fetching? || pc.Starting?) && Known(w, pc)
  {
    var core := w.cores[pc.core];
    if pc.Fetching? then (Starting(pc.core), Put(w, pc.core, core.(stage := Fetched(answered))))
    else (Open(pc.core), Put(w, pc.core, core.(stage := Started(core.stage.Fetched? && core.stage.loaded))))
  }

  /** The next atomic step of caller c at pc; answered matters to a fetch only. */
  function Step(w: World, c: nat, pc: Pc, answered: bool): (Pc, World)
    requires Known(w, pc)
  {
    match pc
    case Lookup(key) => (if key in w.live then AcquireLoad(key, w.live[key], false) else Building(key), w)
    case AcquireLoad(_, _, _) => AcquireStep(w, pc)
    case AcquireSwap(_, _, _, _) => AcquireStep(w, pc)
    case DropStale(key, k) => (Lookup(key), Remove(w, key, k))
    case Building(key) =>
      (Inserting(key, |w.cores|), w.(cores := w.cores + [Core(key, 1, false, false, Unfetched, false, c)]))
    case Inserting(key, k) => InsertStep(w, key, k)
    case Fetching(_) => InitStep(w, pc, answered)
    case Starting(_) => InitStep(w, pc, answered)
    case Open(_) => (pc, w)
    case ReleaseLoad(_, _) => ReleaseStep(w, pc)
    case ReleaseSwap(_, _, _) => ReleaseStep(w, pc)
    case ShutSwap(_, _) => ShutdownStep(w, pc)
    case Unlisting(_, _) => ShutdownStep(w, pc)
    case Halting(_, _) => ShutdownStep(w, pc)
    case Closed => (pc, w)
  }

  // ---- what a caller's place tells about the cores it refers to ----------------------------

  predicate FitsAfter(w: World, c: nat, k: nat, after: After)
    requires k < |w.cores|
  {
    match after
    case ThenAcquire(key, winner) =>
      && !w.cores[k].published && w.cores[k].maker == c
      && winner < |w.cores| && w.cores[winner].published && w.cores[winner].key == key
    case ThenDone => w.cores[k].published
  }

  predicate Fits(w: World, c: nat, pc: Pc) {
    Known(w, pc) &&
    match pc
    case AcquireLoad(key, k, _) => w.cores[k].published && w.cores[k].key == key
    case AcquireSwap(key, k, _, seen) => w.cores[k].published && w.cores[k].key == key && seen > 0
    case DropStale(key, k) => w.cores[k].published && w.cores[k].key == key && w.cores[k].refCount == 0
    case Inserting(key, k) =>
      !w.cores[k].published && w.cores[k].stage.Unfetched? && w.cores[k].key == key && w.cores[k].maker == c
    case Fetching(k) => w.cores[k].published && w.cores[k].stage.Unfetched? && w.cores[k].maker == c
    case Starting(k) => w.cores[k].published && w.cores[k].stage.Fetched? && w.cores[k].maker == c
    case Open(k) => w.cores[k].published
    case ReleaseLoad(k, after) => FitsAfter(w, c, k, after)
    case ReleaseSwap(k, seen, after) => FitsAfter(w, c, k, after) && seen > 0
    case ShutSwap(k, after) => FitsAfter(w, c, k, after)
    case Unlisting(k, after) => FitsAfter(w, c, k, after)
    case Halting(k, after) => FitsAfter(w, c, k, after)
    case _ => true
  }

  /** The stages come in order, and what the fetch brought is settled once. */
  predicate Advances(a: Stage, b: Stage) {
    match a
    case Unfetched => true
    case Fetched(loaded) => b == a || b == Started(loaded)
    case Started(_) => b == a
  }

  /** How one step of caller c may change a core. */
  predicate Evolves(a: Core, b: Core, c: nat) {
    && b.key == a.key && b.maker == a.maker
    && (a.published ==> b.published) && Advances(a.stage, b.stage)
    && (a.maker != c ==> b.published == a.published && b.stage == a.stage)
    && (a.refCount == 0 ==> b.refCount == 0)
    && (a.shutDown ==> b.shutDown) && (a.halted ==> b.halted)
  }

  /** Cores are never forgotten, and each keeps to its way. */
  ghost predicate CoresEvolve(v: World, w: World, c: nat) {
    |v.cores| <= |w.cores| && forall k | 0 <= k < |v.cores| :: Evolves(v.cores[k], w.cores[k], c)
  }

  lemma FitsPersists(v: World, w: World, c: nat, d: nat, pc: Pc)
    requires CoresEvolve(v, w, c) && d != c && Fits(v, d, pc)
    ensures Fits(w, d, pc)
  {
  }

  lemma StepEvolves(w: World, c: nat, pc: Pc, answered: bool)
    requires Fits(w, c, pc)
    ensures CoresEvolve(w, Step(w, c, pc, answered).1, c)
  {
  }

  // ---- the map -------------------------------------------------------------------------------

  lemma StepFits(w: World, c: nat, pc: Pc, answered: bool)
    requires Fits(w, c, pc) && EntriesFit(w)
    requires pc.AcquireLoad? ==> w.cores[pc.core].refCount >= 0
    ensures Fits(Step(w, c, pc, answered).1, c, Step(w, c, pc, answered).0)
  {
  }

  /** Entries name published cores under their own key. */
  ghost predicate EntriesFit(w: World) {
    forall key | key in w.live ::
      w.live[key] < |w.cores| && w.cores[w.live[key]].published && w.cores[w.live[key]].key == key
  }

  /** Every published core in use is listed. */
  ghost predicate InUseListed(w: World) {
    forall k | 0 <= k < |w.cores| && w.cores[k].published && w.cores[k].refCount > 0 :: Listed(w, k)
  }

  predicate Listed(w: World, k: nat)
    requires k < |w.cores|
  {
    w.cores[k].key in w.live && w.live[w.cores[k].key] == k
  }

  lemma StepEntriesFit(w: World, c: nat, pc: Pc, answered: bool)
    requires Fits(w, c, pc) && EntriesFit(w)
    ensures EntriesFit(Step(w, c, pc, answered).1)
  {
  }

  lemma StepInUseListed(w: World, c: nat, pc: Pc, answered: bool)
    requires Fits(w, c, pc) && EntriesFit(w) && InUseListed(w)
    requires pc.Unlisting? ==> w.cores[pc.core].refCount == 0
    ensures InUseListed(Step(w, c, pc, answered).1)
  {
  }

  // ---- who holds what ---------------------------------------------------------------------------

  /** A reference, and the three stretches of a shutdown between reaching zero and being halted. */
  datatype Stake = Reference | Zeroed | Leaving | Stopping

  function Weight(stake: Stake, pc: Pc, k: nat): (n: nat)
    ensures n <= 1
  {
    match stake
    case Reference =>
      if (pc.Inserting? || pc.Fetching? || pc.Starting? || pc.Open? || pc.ReleaseLoad? || pc.ReleaseSwap?) && pc.core == k then 1 else 0
    case Zeroed => if pc.ShutSwap? && pc.core == k then 1 else 0
    case Leaving => if pc.Unlisting? && pc.core == k then 1 else 0
    case Stopping => if pc.Halting? && pc.core == k then 1 else 0
  }

  /** How many callers have that stake in core k. */
  ghost function Tally(callers: seq<Pc>, stake: Stake, k: nat): nat {
    if callers == [] then 0 else Weight(stake, callers[0], k) + Tally(callers[1..], stake, k)
  }

  lemma {:induction false} TallyUpdate(callers: seq<Pc>, c: nat, pc: Pc, stake: Stake, k: nat)
    requires c < |callers|
    ensures Tally(callers[c := pc], stake, k) + Weight(stake, callers[c], k) == Tally(callers, stake, k) + Weight(stake, pc, k)
    ensures Tally(callers, stake, k) >= Weight(stake, callers[c], k)
  {
    if c == 0 {
      assert callers[c := pc][1..] == callers[1..];
    } else {
      TallyUpdate(callers[1..], c - 1, pc, stake, k);
      assert callers[c := pc][1..] == callers[1..][c - 1 := pc];
    }
  }

  lemma {:induction false} TallyEnter(callers: seq<Pc>, pc: Pc, stake: Stake, k: nat)
    requires Weight(stake, pc, k) == 0
    ensures Tally(callers + [pc], stake, k) == Tally(callers, stake, k)
  {
    if callers == [] {
      assert (callers + [pc])[1..] == [];
    } else {
      TallyEnter(callers[1..], pc, stake, k);
      assert (callers + [pc])[1..] == callers[1..] + [pc];
    }
  }

  lemma {:induction false} TallyNone(callers: seq<Pc>, stake: Stake, k: nat)
    requires forall c | 0 <= c < |callers| :: Weight(stake, callers[c], k) == 0
    ensures Tally(callers, stake, k) == 0
  {
    if callers != [] {
      TallyNone(callers[1..], stake, k);
    }
  }

  function Bit(b: bool): nat {
    if b then 1 else 0
  }

  /**
   * The count is the number of references; one caller, ever, takes a core at zero through its
   * shutdown; and the map lists a core at zero only until that caller has removed it.
   */
  predicate Balanced(core: Core, listed: bool, references: nat, zeroed: nat, leaving: nat, stopping: nat) {
    && core.refCount == references
    && zeroed + Bit(core.shutDown) == Bit(core.refCount == 0)
    && leaving + stopping + Bit(core.halted) == Bit(core.shutDown)
    && (listed && core.refCount == 0 ==> zeroed + leaving > 0)
  }

  ghost predicate BalancedIn(s: State, k: nat)
    requires k < |s.w.cores|
  {
    Balanced(s.w.cores[k], Listed(s.w, k), Tally(s.callers, Reference, k), Tally(s.callers, Zeroed, k),
      Tally(s.callers, Leaving, k), Tally(s.callers, Stopping, k))
  }

  /** The stakes of all callers but one. */
  datatype Stakes = Stakes(references: nat, zeroed: nat, leaving: nat, stopping: nat)

  /** Core k is balanced by the others' stakes and those of a caller at pc. */
  predicate BalancedWith(w: World, k: nat, others: Stakes, pc: Pc)
    requires k < |w.cores|
  {
    Balanced(w.cores[k], Listed(w, k), others.references + Weight(Reference, pc, k), others.zeroed + Weight(Zeroed, pc, k),
      others.leaving + Weight(Leaving, pc, k), others.stopping + Weight(Stopping, pc, k))
  }

  lemma ReleaseBalances(w: World, c: nat, pc: Pc, k: nat, others: Stakes)
    requires Fits(w, c, pc) && k < |w.cores| && BalancedWith(w, k, others, pc)
    requires pc.ReleaseLoad? || pc.ReleaseSwap?
    ensures var (pc', w') := ReleaseStep(w, pc); BalancedWith(w', k, others, pc')
  {
  }

  lemma ShutdownBalances(w: World, c: nat, pc: Pc, k: nat, others: Stakes)
    requires Fits(w, c, pc) && k < |w.cores| && BalancedWith(w, k, others, pc)
    requires pc.ShutSwap? || pc.Unlisting? || pc.Halting?
    requires Listed(w, k) ==> w.cores[k].published
    ensures var (pc', w') := ShutdownStep(w, pc); BalancedWith(w', k, others, pc')
  {
  }

  lemma AcquireBalances(w: World, c: nat, pc: Pc, k: nat, others: Stakes)
    requires Fits(w, c, pc) && k < |w.cores| && BalancedWith(w, k, others, pc)
    requires pc.AcquireLoad? || pc.AcquireSwap?
    ensures var (pc', w') := AcquireStep(w, pc); BalancedWith(w', k, others, pc')
  {
  }

  /** A step moves the stakes and the core together. */
  lemma StepBalances(w: World, c: nat, pc: Pc, k: nat, others: Stakes, answered: bool)
    requires Fits(w, c, pc) && k < |w.cores| && BalancedWith(w, k, others, pc)
    requires Listed(w, k) ==> w.cores[k].published
    ensures var (pc', w') := Step(w, c, pc, answered); k < |w'.cores| && BalancedWith(w', k, others, pc')
  {
    if pc.AcquireLoad? || pc.AcquireSwap? {
      AcquireBalances(w, c, pc, k, others);
    } else if pc.ReleaseLoad? || pc.ReleaseSwap? {
      ReleaseBalances(w, c, pc, k, others);
    } else if pc.ShutSwap? || pc.Unlisting? || pc.Halting? {
      ShutdownBalances(w, c, pc, k, others);
    }
  }

  // ---- the invariant --------------------------------------------------------------------------

  /** Where the maker of a published core that is not fully started stands. */
  function InitPlace(core: Core, k: nat): Pc {
    if core.stage.Unfetched? then Fetching(k) else Starting(k)
  }

  /** A published core that is not fully started is still being initialized by its maker. */
  ghost predicate MakersPresent(s: State) {
    forall k | 0 <= k < |s.w.cores| && s.w.cores[k].published && !s.w.cores[k].stage.Started? ::
      s.w.cores[k].maker < |s.callers| && s.callers[s.w.cores[k].maker] == InitPlace(s.w.cores[k], k)
  }

  ghost predicate Invariant(s: State) {
    && (forall c | 0 <= c < |s.callers| :: Fits(s.w, c, s.callers[c]))
    && EntriesFit(s.w) && InUseListed(s.w) && MakersPresent(s)
    && (forall k | 0 <= k < |s.w.cores| :: BalancedIn(s, k))
  }

  function Advance(s: State, c: nat, answered: bool): State
    requires c < |s.callers| && Known(s.w, s.callers[c])
  {
    var (pc, w) := Step(s.w, c, s.callers[c], answered);
    State(w, s.callers[c := pc])
  }

  function Next(s: State, a: Action): State
    requires forall c | 0 <= c < |s.callers| :: Known(s.w, s.callers[c])
  {
    match a
    case Get(key) => s.(callers := s.callers + [Lookup(key)])
    case Run(c) => if c < |s.callers| then Advance(s, c, false) else s
    case Answer(c) => if c < |s.callers| && s.callers[c].Fetching? then Advance(s, c, true) else s
    case Close(c) =>
      if c < |s.callers| && s.callers[c].Open?
      then s.(callers := s.callers[c := ReleaseLoad(s.callers[c].core, ThenDone)])
      else s
  }

  /** The stakes of all callers but c. */
  ghost function Others(callers: seq<Pc>, c: nat, k: nat): (o: Stakes)
    requires c < |callers|
    ensures o.references + Weight(Reference, callers[c], k) == Tally(callers, Reference, k)
    ensures o.zeroed + Weight(Zeroed, callers[c], k) == Tally(callers, Zeroed, k)
    ensures o.leaving + Weight(Leaving, callers[c], k) == Tally(callers, Leaving, k)
    ensures o.stopping + Weight(Stopping, callers[c], k) == Tally(callers, Stopping, k)
  {
    TallyUpdate(callers, c, Closed, Reference, k);
    TallyUpdate(callers, c, Closed, Zeroed, k);
    TallyUpdate(callers, c, Closed, Leaving, k);
    TallyUpdate(callers, c, Closed, Stopping, k);
    Stakes(Tally(callers[c := Closed], Reference, k), Tally(callers[c := Closed], Zeroed, k),
      Tally(callers[c := Closed], Leaving, k), Tally(callers[c := Closed], Stopping, k))
  }

  lemma OthersStay(callers: seq<Pc>, c: nat, pc: Pc, k: nat)
    requires c < |callers|
    ensures Others(callers[c := pc], c, k) == Others(callers, c, k)
  {
    TallyUpdate(callers, c, pc, Reference, k);
    TallyUpdate(callers, c, pc, Zeroed, k);
    TallyUpdate(callers, c, pc, Leaving, k);
    TallyUpdate(callers, c, pc, Stopping, k);
  }

  lemma BalanceViews(s: State, c: nat, k: nat)
    requires c < |s.callers| && k < |s.w.cores|
    ensures BalancedIn(s, k) <==> BalancedWith(s.w, k, Others(s.callers, c, k), s.callers[c])
  {
  }

  /** A new core has one reference, its maker's, and no other stake. */
  lemma NewCoreBalanced(s: State, c: nat, answered: bool)
    requires Invariant(s) && c < |s.callers| && s.callers[c].Building?
    ensures BalancedIn(Advance(s, c, answered), |s.w.cores|)
  {
    var k := |s.w.cores|;
    forall d | 0 <= d < |s.callers|
      ensures Weight(Reference, s.callers[d], k) == Weight(Zeroed, s.callers[d], k) == 0
      ensures Weight(Leaving, s.callers[d], k) == Weight(Stopping, s.callers[d], k) == 0
    {
      assert Fits(s.w, d, s.callers[d]);
    }
    TallyNone(s.callers, Reference, k);
    TallyNone(s.callers, Zeroed, k);
    TallyNone(s.callers, Leaving, k);
    TallyNone(s.callers, Stopping, k);
    OthersStay(s.callers, c, Inserting(s.callers[c].key, k), k);
    BalanceViews(Advance(s, c, answered), c, k);
    assert !Listed(Advance(s, c, answered).w, k);
  }

  lemma RunBalanced(s: State, c: nat, k: nat, answered: bool)
    requires Invariant(s) && c < |s.callers| && k < |Advance(s, c, answered).w.cores|
    ensures BalancedIn(Advance(s, c, answered), k)
  {
    assert Fits(s.w, c, s.callers[c]);
    var (pc, w) := Step(s.w, c, s.callers[c], answered);
    if k < |s.w.cores| {
      assert BalancedIn(s, k);
      BalanceViews(s, c, k);
      StepBalances(s.w, c, s.callers[c], k, Others(s.callers, c, k), answered);
      OthersStay(s.callers, c, pc, k);
      BalanceViews(Advance(s, c, answered), c, k);
    } else {
      assert s.callers[c].Building?;
      NewCoreBalanced(s, c, answered);
    }
  }

  lemma RunMakers(s: State, c: nat, answered: bool)
    requires Invariant(s) && c < |s.callers|
    ensures MakersPresent(Advance(s, c, answered))
  {
    assert Fits(s.w, c, s.callers[c]);
    StepEvolves(s.w, c, s.callers[c], answered);
    MakerMoves(s.w, c, s.callers[c], answered);
  }

  lemma MakerMoves(w: World, c: nat, pc: Pc, answered: bool)
    requires Fits(w, c, pc)
    ensures var (pc', w') := Step(w, c, pc, answered);
      forall k | 0 <= k < |w'.cores| && w'.cores[k].published && !w'.cores[k].stage.Started? ::
        k < |w.cores| && if w.cores[k].published && pc != InitPlace(w.cores[k], k)
          then w'.cores[k].stage == w.cores[k].stage
          else w'.cores[k].maker == c && pc' == InitPlace(w'.cores[k], k)
  {
  }

  lemma InvariantRun(s: State, c: nat, answered: bool)
    requires Invariant(s) && c < |s.callers|
    ensures Invariant(Advance(s, c, answered))
  {
    var t := Advance(s, c, answered);
    assert Fits(s.w, c, s.callers[c]);
    StepEvolves(s.w, c, s.callers[c], answered);
    ZeroAtUnlisting(s, c);
    StepFits(s.w, c, s.callers[c], answered);
    StepEntriesFit(s.w, c, s.callers[c], answered);
    StepInUseListed(s.w, c, s.callers[c], answered);
    forall d | 0 <= d < |t.callers| ensures Fits(t.w, d, t.callers[d]) {
      if d != c {
        FitsPersists(s.w, t.w, c, d, s.callers[d]);
      }
    }
    RunMakers(s, c, answered);
    forall k | 0 <= k < |t.w.cores| ensures BalancedIn(t, k) {
      RunBalanced(s, c, k, answered);
    }
  }

  lemma ZeroAtUnlisting(s: State, c: nat)
    requires Invariant(s) && c < |s.callers|
    ensures s.callers[c].Unlisting? ==> s.w.cores[s.callers[c].core].refCount == 0
    ensures s.callers[c].AcquireLoad? ==> s.w.cores[s.callers[c].core].refCount >= 0
  {
    assert Fits(s.w, c, s.callers[c]);
    if s.callers[c].Unlisting? || s.callers[c].AcquireLoad? {
      var k := s.callers[c].core;
      assert BalancedIn(s, k);
      TallyUpdate(s.callers, c, Closed, Leaving, k);
    }
  }

  lemma InvariantGet(s: State, key: string)
    requires Invariant(s)
    ensures Invariant(Next(s, Get(key)))
  {
    var t := Next(s, Get(key));
    forall k | 0 <= k < |t.w.cores| ensures BalancedIn(t, k) {
      assert BalancedIn(s, k);
      TallyEnter(s.callers, Lookup(key), Reference, k);
      TallyEnter(s.callers, Lookup(key), Zeroed, k);
      TallyEnter(s.callers, Lookup(key), Leaving, k);
      TallyEnter(s.callers, Lookup(key), Stopping, k);
    }
  }

  lemma InvariantClose(s: State, c: nat)
    requires Invariant(s) && c < |s.callers| && s.callers[c].Open?
    ensures Invariant(Next(s, Close(c)))
  {
    var t := Next(s, Close(c));
    assert Fits(s.w, c, s.callers[c]);
    forall k | 0 <= k < |t.w.cores| ensures BalancedIn(t, k) {
      assert BalancedIn(s, k);
      BalanceViews(s, c, k);
      OthersStay(s.callers, c, t.callers[c], k);
      BalanceViews(t, c, k);
    }
  }

  lemma InvariantKept(s: State, a: Action)
    requires Invariant(s)
    ensures Invariant(Next(s, a))
  {
    match a
    case Get(key) => InvariantGet(s, key);
    case Run(c) => if c < |s.callers| { InvariantRun(s, c, false); }
    case Answer(c) => if c < |s.callers| && s.callers[c].Fetching? { InvariantRun(s, c, true); }
    case Close(c) => if c < |s.callers| && s.callers[c].Open? { InvariantClose(s, c); }
  }

  /** The state after any interleaving; the invariant holds throughout. */
  ghost function RunAll(s: State, actions: seq<Action>): (t: State)
    requires Invariant(s)
    ensures Invariant(t)
    decreases |actions|
  {
    if actions == [] then s
    else
      InvariantKept(s, actions[0]);
      RunAll(Next(s, actions[0]), actions[1..])
  }

  lemma InitInvariant()
    ensures Invariant(INIT)
  {
  }

  ghost function Reached(actions: seq<Action>): (s: State)
    ensures Invariant(s)
  {
    InitInvariant();
    RunAll(INIT, actions)
  }

  // ---- what every interleaving guarantees ---------------------------------------------------------

  /** At most one published core per key is in use, and it is the one the map holds. */
  lemma OneLiveCore(actions: seq<Action>, i: nat, j: nat)
    requires var w := Reached(actions).w;
      && i < |w.cores| && w.cores[i].published && w.cores[i].refCount > 0
      && j < |w.cores| && w.cores[j].published && w.cores[j].refCount > 0
      && w.cores[i].key == w.cores[j].key
    ensures i == j && Listed(Reached(actions).w, i)
  {
  }

  /** A core's count is the number of open handles on it and references calls in progress hold. */
  lemma CountIsReferences(actions: seq<Action>, k: nat)
    requires k < |Reached(actions).w.cores|
    ensures Reached(actions).w.cores[k].refCount == Tally(Reached(actions).callers, Reference, k)
  {
    assert BalancedIn(Reached(actions), k);
  }

  /**
   * A core that was shut down has no open handle and finished initializing first if it was
   * published; and whoever gets to shut a core down is the first to, and the only one.
   */
  lemma ShutdownOnce(actions: seq<Action>, k: nat, c: nat)
    requires k < |Reached(actions).w.cores| && c < |Reached(actions).callers|
    ensures var s := Reached(actions); var core := s.w.cores[k];
      && (core.shutDown ==> s.callers[c] != Open(k) && core.refCount == 0 && (core.published ==> core.stage.Started?))
      && (Weight(Zeroed, s.callers[c], k) == 1 ==> !core.shutDown && Tally(s.callers, Zeroed, k) == 1)
      && (Weight(Leaving, s.callers[c], k) + Weight(Stopping, s.callers[c], k) == 1 ==>
           core.shutDown && !core.halted && Tally(s.callers, Leaving, k) + Tally(s.callers, Stopping, k) == 1)
  {
    var s := Reached(actions);
    assert BalancedIn(s, k);
    TallyUpdate(s.callers, c, Closed, Reference, k);
    TallyUpdate(s.callers, c, Closed, Zeroed, k);
    TallyUpdate(s.callers, c, Closed, Leaving, k);
    TallyUpdate(s.callers, c, Closed, Stopping, k);
    if s.w.cores[k].published && !s.w.cores[k].stage.Started? {
      TallyUpdate(s.callers, s.w.cores[k].maker, Closed, Reference, k);
    }
  }

  /** What any step of anyone may do to a core. */
  predicate Ages(a: Core, b: Core) {
    && b.key == a.key && b.maker == a.maker
    && (a.published ==> b.published) && Advances(a.stage, b.stage)
    && (a.refCount == 0 ==> b.refCount == 0)
    && (a.shutDown ==> b.shutDown) && (a.halted ==> b.halted)
  }

  lemma NextAges(s: State, a: Action, k: nat)
    requires Invariant(s) && k < |s.w.cores|
    ensures k < |Next(s, a).w.cores| && Ages(s.w.cores[k], Next(s, a).w.cores[k])
  {
    if (a.Run? || a.Answer?) && a.caller < |s.callers| {
      assert Fits(s.w, a.caller, s.callers[a.caller]);
      StepEvolves(s.w, a.caller, s.callers[a.caller], a.Answer?);
    }
  }

  /** A core is never forgotten, and keeps its key, its maker, its stages' order and what it finished. */
  lemma {:induction false} CoresAge(s: State, actions: seq<Action>, k: nat)
    requires Invariant(s) && k < |s.w.cores|
    ensures k < |RunAll(s, actions).w.cores| && Ages(s.w.cores[k], RunAll(s, actions).w.cores[k])
    decreases |actions|
  {
    if actions != [] {
      NextAges(s, actions[0], k);
      InvariantKept(s, actions[0]);
      CoresAge(Next(s, actions[0]), actions[1..], k);
    }
  }

  /** A count that reached zero never leaves it, and a shutdown is never taken back. */
  lemma ZeroIsFinal(s: State, actions: seq<Action>, k: nat)
    requires Invariant(s) && k < |s.w.cores| && s.w.cores[k].refCount == 0
    ensures k < |RunAll(s, actions).w.cores| && RunAll(s, actions).w.cores[k].refCount == 0
    ensures s.w.cores[k].shutDown ==> RunAll(s, actions).w.cores[k].shutDown
  {
    CoresAge(s, actions, k);
  }

  /** Whatever leaves the map was at zero: neither cleanup ever removes a successor in use. */
  lemma CleanupSparesLiveCores(actions: seq<Action>, a: Action, key: string)
    requires key in Reached(actions).w.live
    ensures var s, t := Reached(actions), Next(Reached(actions), a);
      (key in t.w.live && t.w.live[key] == s.w.live[key])
      || (s.w.cores[s.w.live[key]].refCount == 0 && key !in t.w.live)
  {
    var s := Reached(actions);
    if (a.Run? || a.Answer?) && a.caller < |s.callers| {
      assert Fits(s.w, a.caller, s.callers[a.caller]);
      ZeroAtUnlisting(s, a.caller);
    }
  }

  /** Nothing leaks: once every call returned and every handle was closed, all cores are halted and unlisted. */
  lemma AllClosedAllHalted(actions: seq<Action>)
    requires forall c | 0 <= c < |Reached(actions).callers| :: Reached(actions).callers[c] == Closed
    ensures var w := Reached(actions).w;
      w.live == map[] && forall k | 0 <= k < |w.cores| :: w.cores[k].shutDown && w.cores[k].halted
  {
    var s := Reached(actions);
    forall k | 0 <= k < |s.w.cores|
      ensures s.w.cores[k].shutDown && s.w.cores[k].halted && !Listed(s.w, k)
    {
      assert BalancedIn(s, k);
      TallyNone(s.callers, Reference, k);
      TallyNone(s.callers, Zeroed, k);
      TallyNone(s.callers, Leaving, k);
      TallyNone(s.callers, Stopping, k);
    }
    forall key ensures key !in s.w.live {
      if key in s.w.live {
        assert Listed(s.w, s.w.live[key]);
      }
    }
  }

  /** Caller c takes n steps while everyone else rests. */
  ghost function Alone(s: State, c: nat, n: nat): (t: State)
    requires Invariant(s)
    ensures Invariant(t)
    decreases n
  {
    if n == 0 then s
    else
      InvariantKept(s, Run(c));
      Alone(Next(s, Run(c)), c, n - 1)
  }

  ghost predicate HasHandle(s: State, c: nat, key: string) {
    c < |s.callers| && s.callers[c].Open? && s.callers[c].core < |s.w.cores| && s.w.cores[s.callers[c].core].key == key
  }

  lemma {:induction false} HandleStays(s: State, c: nat, key: string, n: nat)
    requires Invariant(s) && HasHandle(s, c, key)
    ensures HasHandle(Alone(s, c, n), c, key)
    decreases n
  {
    if n > 0 {
      assert Next(s, Run(c)) == s by {
        assert s.callers[c := s.callers[c]] == s.callers;
      }
      HandleStays(s, c, key, n - 1);
    }
  }

  lemma StartFinishes(s: State, c: nat, key: string, n: nat)
    requires Invariant(s) && c < |s.callers| && s.callers[c].Starting? && n >= 1
    requires s.callers[c].core < |s.w.cores| && s.w.cores[s.callers[c].core].key == key
    ensures HasHandle(Alone(s, c, n), c, key)
  {
    InvariantKept(s, Run(c));
    HandleStays(Next(s, Run(c)), c, key, n - 1);
  }

  /** A Get left alone initializes the core it inserted, answered or not: two steps. */
  lemma InitFinishes(s: State, c: nat, key: string, n: nat)
    requires Invariant(s) && c < |s.callers| && s.callers[c].Fetching? && n >= 2
    requires s.callers[c].core < |s.w.cores| && s.w.cores[s.callers[c].core].key == key
    ensures HasHandle(Alone(s, c, n), c, key)
  {
    InvariantKept(s, Run(c));
    StartFinishes(Next(s, Run(c)), c, key, n - 1);
  }

  lemma InsertFinishes(s: State, c: nat, key: string, n: nat)
    requires Invariant(s) && c < |s.callers| && s.callers[c].Inserting? && s.callers[c].key == key
    requires key !in s.w.live && n >= 3
    ensures HasHandle(Alone(s, c, n), c, key)
  {
    assert Fits(s.w, c, s.callers[c]);
    InvariantKept(s, Run(c));
    InitFinishes(Next(s, Run(c)), c, key, n - 1);
  }

  lemma BuildFinishes(s: State, c: nat, key: string, n: nat)
    requires Invariant(s) && c < |s.callers| && s.callers[c] == Building(key) && key !in s.w.live && n >= 4
    ensures HasHandle(Alone(s, c, n), c, key)
  {
    InvariantKept(s, Run(c));
    InsertFinishes(Next(s, Run(c)), c, key, n - 1);
  }

  /** With the key unlisted, a Get left alone builds, inserts and initializes: five steps. */
  lemma FreshGetFinishes(s: State, c: nat, key: string, n: nat)
    requires Invariant(s) && c < |s.callers| && s.callers[c] == Lookup(key) && key !in s.w.live && n >= 5
    ensures HasHandle(Alone(s, c, n), c, key)
  {
    InvariantKept(s, Run(c));
    BuildFinishes(Next(s, Run(c)), c, key, n - 1);
  }

  lemma SwapFinishes(s: State, c: nat, key: string, n: nat)
    requires Invariant(s) && c < |s.callers| && s.callers[c].AcquireSwap? && s.callers[c].key == key && n >= 1
    requires s.callers[c].core < |s.w.cores| && s.w.cores[s.callers[c].core].refCount == s.callers[c].seen
    ensures HasHandle(Alone(s, c, n), c, key)
  {
    assert Fits(s.w, c, s.callers[c]);
    InvariantKept(s, Run(c));
    HandleStays(Next(s, Run(c)), c, key, n - 1);
  }

  /** A Get left alone acquires a core in use: two steps. */
  lemma AcquireFinishes(s: State, c: nat, key: string, n: nat)
    requires Invariant(s) && c < |s.callers| && s.callers[c].AcquireLoad? && s.callers[c].key == key && n >= 2
    requires s.callers[c].core < |s.w.cores| && s.w.cores[s.callers[c].core].refCount > 0
    ensures HasHandle(Alone(s, c, n), c, key)
  {
    InvariantKept(s, Run(c));
    SwapFinishes(Next(s, Run(c)), c, key, n - 1);
  }

  /** With a core in use listed, a Get left alone finds and acquires it: three steps. */
  lemma SharedGetFinishes(s: State, c: nat, key: string, n: nat)
    requires Invariant(s) && c < |s.callers| && s.callers[c] == Lookup(key) && n >= 3
    requires key in s.w.live && s.w.cores[s.w.live[key]].refCount > 0
    ensures HasHandle(Alone(s, c, n), c, key)
  {
    InvariantKept(s, Run(c));
    AcquireFinishes(Next(s, Run(c)), c, key, n - 1);
  }

  lemma DropFinishes(s: State, c: nat, key: string, k: nat, n: nat)
    requires Invariant(s) && c < |s.callers| && s.callers[c] == DropStale(key, k)
    requires key in s.w.live && s.w.live[key] == k && n >= 6
    ensures HasHandle(Alone(s, c, n), c, key)
  {
    InvariantKept(s, Run(c));
    FreshGetFinishes(Next(s, Run(c)), c, key, n - 1);
  }

  lemma StaleFinishes(s: State, c: nat, key: string, k: nat, n: nat)
    requires Invariant(s) && c < |s.callers| && s.callers[c] == AcquireLoad(key, k, false)
    requires key in s.w.live && s.w.live[key] == k && k < |s.w.cores| && s.w.cores[k].refCount <= 0 && n >= 7
    ensures HasHandle(Alone(s, c, n), c, key)
  {
    InvariantKept(s, Run(c));
    DropFinishes(Next(s, Run(c)), c, key, k, n - 1);
  }

  /**
   * Nothing others left half done can trap a Get: from any reachable state, eight steps of its
   * own from its lookup on give it a handle, a dying core in the map included.
   */
  lemma GetFinishesAlone(s: State, c: nat, key: string, n: nat)
    requires Invariant(s) && c < |s.callers| && s.callers[c] == Lookup(key) && n >= 8
    ensures HasHandle(Alone(s, c, n), c, key)
  {
    if key !in s.w.live {
      FreshGetFinishes(s, c, key, n);
    } else if s.w.cores[s.w.live[key]].refCount > 0 {
      SharedGetFinishes(s, c, key, n);
    } else {
      InvariantKept(s, Run(c));
      StaleFinishes(Next(s, Run(c)), c, key, s.w.live[key], n - 1);
    }
  }

  /** Another call stands there. */
  ghost predicate AnotherAt(s: State, c: nat, pc: Pc) {
    exists m | 0 <= m < |s.callers| :: m != c && s.callers[m] == pc
  }

  /**
   * A handle is open before its core's initial fetch is over exactly while another call is still
   * fetching, and before its initialization is over exactly while another is fetching or
   * starting.
   */
  lemma HandleBeforeFetchExactly(actions: seq<Action>, c: nat, k: nat)
    requires c < |Reached(actions).callers| && Reached(actions).callers[c] == Open(k)
    ensures var s := Reached(actions);
      && k < |s.w.cores|
      && (s.w.cores[k].stage.Unfetched? <==> AnotherAt(s, c, Fetching(k)))
      && (s.w.cores[k].stage.Fetched? <==> AnotherAt(s, c, Starting(k)))
  {
    var s := Reached(actions);
    assert Fits(s.w, c, s.callers[c]);
    forall m | 0 <= m < |s.callers| && s.callers[m] == Fetching(k) ensures s.w.cores[k].stage.Unfetched? {
      assert Fits(s.w, m, s.callers[m]);
    }
    forall m | 0 <= m < |s.callers| && s.callers[m] == Starting(k) ensures s.w.cores[k].stage.Fetched? {
      assert Fits(s.w, m, s.callers[m]);
    }
    if !s.w.cores[k].stage.Started? {
      assert s.callers[s.w.cores[k].maker] == InitPlace(s.w.cores[k], k);
    }
  }

  /** The Get that made a core, alone among those sharing it, always returns it with its initialization over. */
  lemma MakerReturnsStarted(actions: seq<Action>, c: nat, k: nat)
    requires c < |Reached(actions).callers| && Reached(actions).callers[c] == Open(k)
    requires k < |Reached(actions).w.cores| && Reached(actions).w.cores[k].maker == c
    ensures Reached(actions).w.cores[k].stage.Started?
  {
    assert Fits(Reached(actions).w, c, Open(k));
  }

  lemma {:induction false} RunAllJoin(s: State, a: seq<Action>, b: seq<Action>)
    requires Invariant(s)
    ensures RunAll(s, a + b) == RunAll(RunAll(s, a), b)
    decreases |a|
  {
    if a == [] {
      assert a + b == b;
    } else {
      InvariantKept(s, a[0]);
      RunAllJoin(Next(s, a[0]), a[1..], b);
      assert (a + b)[1..] == a[1..] + b;
    }
  }

  lemma RunOne(s: State, a: Action)
    requires Invariant(s)
    ensures Invariant(Next(s, a)) && RunAll(s, [a]) == Next(s, a)
  {
    InvariantKept(s, a);
    assert [a][1..] == [];
  }

  /** Two Gets of one key, the second while the first is still fetching. */
  const FIRST := [Get("k"), Run(0), Run(0), Run(0)]
  const SECOND := [Get("k"), Run(1), Run(1), Run(1)]
  const IMPATIENT := FIRST + SECOND

  function Shared(refCount: int): World {
    World([Core("k", refCount, false, true, Unfetched, false, 0)], map["k" := 0])
  }

  lemma FirstFetches()
    ensures Reached(FIRST) == State(Shared(1), [Fetching(0)])
  {
  }

  lemma SecondOpens(s: State)
    requires Invariant(s) && s == State(Shared(1), [Fetching(0)])
    ensures RunAll(s, SECOND) == State(Shared(2), [Fetching(0), Open(0)])
  {
  }

  /**
   * A second Get does not wait for the first to initialize the core: its handle can be open, and
   * a listener registered through it, before the initial load.
   */
  lemma HandleBeforeInitialLoad()
    ensures Reached(IMPATIENT) == State(Shared(2), [Fetching(0), Open(0)])
    ensures Reached(IMPATIENT).w.cores[0].stage == Unfetched
  {
    InitInvariant();
    RunAllJoin(INIT, FIRST, SECOND);
    FirstFetches();
    SecondOpens(Reached(FIRST));
  }

  /** Nor need it be loaded later: the fetch may be over and have brought nothing, or the rest be still to come. */
  lemma AfterTheFetch(loaded: bool)
    ensures var s := Reached(IMPATIENT + [if loaded then Answer(0) else Run(0)]);
      s.callers == [Starting(0), Open(0)] && |s.w.cores| > 0 && s.w.cores[0].stage == Fetched(loaded)
  {
    HandleBeforeInitialLoad();
    InitInvariant();
    var a := if loaded then Answer(0) else Run(0);
    RunAllJoin(INIT, IMPATIENT, [a]);
    RunOne(Reached(IMPATIENT), a);
  }

  /** And the Get that made the core then returns it the way the fetch left it. */
  lemma MakerMayReturnUnloaded(loaded: bool)
    ensures var s := Reached(IMPATIENT + [if loaded then Answer(0) else Run(0)] + [Run(0)]);
      s.callers == [Open(0), Open(0)] && |s.w.cores| > 0 && s.w.cores[0].stage == Started(loaded)
  {
    AfterTheFetch(loaded);
    InitInvariant();
    var actions := IMPATIENT + [if loaded then Answer(0) else Run(0)];
    RunAllJoin(INIT, actions, [Run(0)]);
    RunOne(Reached(actions), Run(0));
  }
}
