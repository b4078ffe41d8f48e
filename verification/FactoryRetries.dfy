/**
 * How often a Get can be sent back to its lookup (featureflip.go:73-75): the retry loop makes
 * progress because every retry is owed to a core that died, and each core is good for two.
 */
module FactoryRetries {
  import opened Factory

  /** Published cores of the key that are at zero and out of the map: they never come back. */
  ghost function Gone(w: World, key: string): set<nat> {
    set k: nat | k < |w.cores| && w.cores[k].published && w.cores[k].key == key
      && w.cores[k].refCount == 0 && !Listed(w, k)
  }

  /** The map still lists a core of the key that is at zero. */
  predicate Dying(w: World, key: string) {
    key in w.live && w.live[key] < |w.cores| && w.cores[w.live[key]].refCount == 0
  }

  /** The core a Get on its way to an acquisition is after. */
  function Quarry(pc: Pc): (k: nat)
    requires Hunting(pc)
  {
    match pc
    case AcquireLoad(_, k, _) => k
    case AcquireSwap(_, k, _, _) => k
    case DropStale(_, k) => k
    case ReleaseLoad(_, after) => after.winner
    case ReleaseSwap(_, _, after) => after.winner
    case ShutSwap(_, after) => after.winner
    case Unlisting(_, after) => after.winner
    case Halting(_, after) => after.winner
  }

  /** After a core found in the map: at the lookup, or, raced, at the insertion. */
  predicate Hunting(pc: Pc) {
    pc.AcquireLoad? || pc.AcquireSwap? || pc.DropStale? || Losing(pc)
  }

  /** Releasing its own core after it lost the race. */
  predicate Losing(pc: Pc) {
    (pc.ReleaseLoad? || pc.ReleaseSwap? || pc.ShutSwap? || pc.Unlisting? || pc.Halting?) && pc.after.ThenAcquire?
  }

  predicate Raced(pc: Pc) {
    Losing(pc) || (pc.AcquireLoad? && pc.raced) || (pc.AcquireSwap? && pc.raced)
  }

  /** A Get of the key that has no handle yet. */
  predicate Seeks(pc: Pc, key: string) {
    || pc == Lookup(key) || pc == Building(key) || (pc.Inserting? && pc.key == key)
    || ((pc.AcquireLoad? || pc.AcquireSwap? || pc.DropStale?) && pc.key == key)
    || (Losing(pc) && pc.after.key == key)
  }

  /** Past its lookups for good: it holds, or held, its handle. */
  predicate Past(pc: Pc) {
    !Hunting(pc) && !pc.Lookup? && !pc.Building? && !pc.Inserting?
  }

  /** The retries a Get of the key can have used up at pc, given the cores gone so far. */
  ghost function Allowance(w: World, key: string, pc: Pc): nat {
    if Hunting(pc) then 2 * |Gone(w, key) - {Quarry(pc)}| + if Raced(pc) then 0 else 1
    else if pc.Lookup? then 2 * |Gone(w, key)| + if Dying(w, key) then 1 else 0
    else 2 * |Gone(w, key)| + if pc.Building? || pc.Inserting? then 0 else 1
  }

  lemma SmallerSet(a: set<nat>, b: set<nat>)
    requires a <= b
    ensures |a| <= |b|
  {
    assert b == a + (b - a);
  }

  lemma LargerSet(a: set<nat>, b: set<nat>, k: nat)
    requires a <= b && k in b && k !in a
    ensures |a| + 1 <= |b|
  {
    SmallerSet(a, b - {k});
    assert b == (b - {k}) + {k};
  }

  // ---- others only add to the allowance ---------------------------------------------------

  /** Cores go, and none comes back; a dying core that left the map is gone. */
  ghost predicate OnlyGoes(v: World, w: World, key: string) {
    && Gone(v, key) <= Gone(w, key)
    && (Dying(v, key) && !Dying(w, key) ==> v.live[key] in Gone(w, key) && v.live[key] !in Gone(v, key))
  }

  lemma AllowanceGrows(v: World, w: World, key: string, pc: Pc)
    requires OnlyGoes(v, w, key)
    ensures Allowance(v, key, pc) <= Allowance(w, key, pc)
  {
    SmallerSet(Gone(v, key), Gone(w, key));
    if Hunting(pc) {
      SmallerSet(Gone(v, key) - {Quarry(pc)}, Gone(w, key) - {Quarry(pc)});
    } else if Dying(v, key) && !Dying(w, key) {
      LargerSet(Gone(v, key), Gone(w, key), v.live[key]);
    }
  }

  /** Cores stay and age. */
  ghost predicate CoresGoOn(v: World, w: World) {
    |v.cores| <= |w.cores| && forall k | 0 <= k < |v.cores| :: Ages(v.cores[k], w.cores[k])
  }

  /** The map forgets an entry, or keeps it; what is new in it was not published. */
  ghost predicate MapMoves(v: World, w: World) {
    && (forall key | key in v.live :: key !in w.live || w.live[key] == v.live[key])
    && (forall key | key in w.live && key !in v.live ::
         w.live[key] < |v.cores| && !v.cores[w.live[key]].published)
  }

  lemma CoresGoOnByStep(w: World, c: nat, pc: Pc, answered: bool)
    requires Fits(w, c, pc)
    ensures CoresGoOn(w, Step(w, c, pc, answered).1)
  {
    StepEvolves(w, c, pc, answered);
  }

  lemma StepMovesMap(w: World, c: nat, pc: Pc, answered: bool)
    requires Fits(w, c, pc)
    ensures MapMoves(w, Step(w, c, pc, answered).1)
  {
  }

  lemma StepOnlyGoes(w: World, c: nat, pc: Pc, answered: bool, key: string)
    requires Fits(w, c, pc) && EntriesFit(w)
    ensures OnlyGoes(w, Step(w, c, pc, answered).1, key)
  {
    CoresGoOnByStep(w, c, pc, answered);
    StepMovesMap(w, c, pc, answered);
    StepEntriesFit(w, c, pc, answered);
    MapOnlyGoes(w, Step(w, c, pc, answered).1, key);
  }

  lemma MapOnlyGoes(v: World, w: World, key: string)
    requires EntriesFit(v) && EntriesFit(w) && CoresGoOn(v, w) && MapMoves(v, w)
    ensures OnlyGoes(v, w, key)
  {
    forall k | k in Gone(v, key) ensures k in Gone(w, key) {
      assert Ages(v.cores[k], w.cores[k]);
    }
    if Dying(v, key) && !Dying(w, key) {
      var k := v.live[key];
      assert Ages(v.cores[k], w.cores[k]);
    }
  }

  // ---- a Get's own step -----------------------------------------------------------------------

  /** The step sends the caller back to its lookup. */
  predicate Returns(before: Pc, after: Pc) {
    !before.Lookup? && after.Lookup?
  }

  lemma ListedIsNotGone(w: World, key: string)
    requires EntriesFit(w) && key in w.live
    ensures w.live[key] !in Gone(w, key)
  {
  }

  lemma HuntingAllowance(w: World, key: string, pc: Pc)
    requires Hunting(pc) && Quarry(pc) !in Gone(w, key)
    ensures Allowance(w, key, pc) == 2 * |Gone(w, key)| + if Raced(pc) then 0 else 1
  {
    var gone := Gone(w, key);
    assert gone - {Quarry(pc)} == gone;
  }

  lemma LookupFinds(w: World, key: string)
    requires EntriesFit(w) && key in w.live
    ensures Allowance(w, key, Lookup(key)) <= Allowance(w, key, AcquireLoad(key, w.live[key], false))
  {
    ListedIsNotGone(w, key);
    HuntingAllowance(w, key, AcquireLoad(key, w.live[key], false));
  }

  lemma LookupMisses(w: World, key: string)
    requires key !in w.live
    ensures Allowance(w, key, Lookup(key)) <= Allowance(w, key, Building(key))
  {
  }

  /** A lost race: the winner is listed. */
  lemma InsertAllows(w: World, c: nat, key: string, k: nat)
    requires EntriesFit(w) && Fits(w, c, Inserting(key, k)) && key in w.live
    ensures Allowance(w, key, Inserting(key, k)) <= Allowance(w, key, ReleaseLoad(k, ThenAcquire(key, w.live[key])))
  {
    ListedIsNotGone(w, key);
    HuntingAllowance(w, key, ReleaseLoad(k, ThenAcquire(key, w.live[key])));
  }

  /** A raced acquisition that finds its core at zero. */
  lemma RacedReturnAllowed(w: World, key: string, k: nat)
    requires k < |w.cores| && w.cores[k].published && w.cores[k].key == key && w.cores[k].refCount == 0
    ensures 2 * |Gone(w, key) - {k}| + 1 <= Allowance(w, key, Lookup(key))
  {
    if Listed(w, k) {
      SmallerSet(Gone(w, key) - {k}, Gone(w, key));
    } else {
      LargerSet(Gone(w, key) - {k}, Gone(w, key), k);
    }
  }

  /** Dropping a stale entry leaves its core gone. */
  lemma DropReturnAllowed(v: World, w: World, key: string, k: nat)
    requires OnlyGoes(v, w, key) && k in Gone(w, key)
    ensures 2 * |Gone(v, key) - {k}| + 2 <= Allowance(w, key, Lookup(key))
  {
    LargerSet(Gone(v, key) - {k}, Gone(w, key), k);
  }

  lemma OwnStepReturns(w: World, c: nat, pc: Pc, answered: bool, key: string)
    requires Fits(w, c, pc) && EntriesFit(w) && Seeks(pc, key)
    requires pc.AcquireLoad? ==> w.cores[pc.core].refCount >= 0
    requires Returns(pc, Step(w, c, pc, answered).0)
    ensures var (pc', w') := Step(w, c, pc, answered);
      pc' == Lookup(key) && Allowance(w, key, pc) + 1 <= Allowance(w', key, pc')
  {
    var (pc', w') := Step(w, c, pc, answered);
    if pc.AcquireLoad? {
      RacedReturnAllowed(w, key, pc.core);
    } else {
      StepOnlyGoes(w, c, pc, answered, key);
      DropReturnAllowed(w, w', key, pc.core);
    }
  }

  /** What a step makes of the quarry. */
  lemma QuarryKept(w: World, c: nat, pc: Pc, answered: bool)
    requires Fits(w, c, pc) && !pc.Lookup? && !(pc.Inserting? && pc.key in w.live)
    ensures var pc' := Step(w, c, pc, answered).0;
      && (Hunting(pc') ==> Hunting(pc) && Quarry(pc') == Quarry(pc) && (Raced(pc') ==> Raced(pc)))
      && (pc'.Building? || pc'.Inserting? ==> pc.Building? || pc.Inserting?)
  {
  }

  lemma QuietAllows(w: World, key: string, pc: Pc, pc': Pc)
    requires !pc.Lookup? && !pc'.Lookup?
    requires Hunting(pc') ==> Hunting(pc) && Quarry(pc') == Quarry(pc) && (Raced(pc') ==> Raced(pc))
    requires pc'.Building? || pc'.Inserting? ==> pc.Building? || pc.Inserting?
    ensures Allowance(w, key, pc) <= Allowance(w, key, pc')
  {
    if Hunting(pc) {
      SmallerSet(Gone(w, key) - {Quarry(pc)}, Gone(w, key));
    }
  }

  lemma OwnStepAllows(w: World, c: nat, pc: Pc, answered: bool, key: string)
    requires Fits(w, c, pc) && EntriesFit(w) && (Seeks(pc, key) || Past(pc))
    requires !Returns(pc, Step(w, c, pc, answered).0)
    ensures Allowance(w, key, pc) <= Allowance(w, key, Step(w, c, pc, answered).0)
  {
    var pc' := Step(w, c, pc, answered).0;
    if pc.Lookup? {
      if key in w.live {
        LookupFinds(w, key);
      } else {
        LookupMisses(w, key);
      }
    } else if pc.Inserting? && key in w.live {
      InsertAllows(w, c, key, pc.core);
    } else {
      QuarryKept(w, c, pc, answered);
      QuietAllows(w, key, pc, pc');
    }
  }

  lemma OwnStepGoesOn(w: World, c: nat, pc: Pc, answered: bool, key: string)
    requires Fits(w, c, pc) && EntriesFit(w) && (Seeks(pc, key) || Past(pc))
    requires !Returns(pc, Step(w, c, pc, answered).0)
    ensures var (pc', w') := Step(w, c, pc, answered); Allowance(w, key, pc) <= Allowance(w', key, pc')
  {
    var (pc', w') := Step(w, c, pc, answered);
    OwnStepAllows(w, c, pc, answered, key);
    StepOnlyGoes(w, c, pc, answered, key);
    AllowanceGrows(w, w', key, pc');
  }

  /** A Get goes on seeking the same key until it is past it. */
  lemma StaysTheCourse(w: World, c: nat, pc: Pc, answered: bool, key: string)
    requires Fits(w, c, pc) && (Seeks(pc, key) || Past(pc))
    ensures var pc' := Step(w, c, pc, answered).0;
      && (Seeks(pc', key) || Past(pc'))
      && (Returns(pc, pc') ==> Seeks(pc, key))
  {
  }

  // ---- whole runs ---------------------------------------------------------------------------------

  /** How often the run sends caller c back to its lookup. */
  ghost function Retries(s: State, actions: seq<Action>, c: nat): nat
    requires Invariant(s) && c < |s.callers|
    decreases |actions|
  {
    if actions == [] then 0
    else
      InvariantKept(s, actions[0]);
      var t := Next(s, actions[0]);
      Bit(Returns(s.callers[c], t.callers[c])) + Retries(t, actions[1..], c)
  }

  ghost function AllowanceOf(s: State, c: nat, key: string): nat
    requires c < |s.callers|
  {
    Allowance(s.w, key, s.callers[c])
  }

  predicate OnCourse(pc: Pc, key: string) {
    Seeks(pc, key) || Past(pc)
  }

  /** One turn of the run: what it adds to the retries, it adds to the allowance. */
  ghost predicate TurnWithin(s: State, t: State, c: nat, key: string)
    requires c < |s.callers|
  {
    && c < |t.callers| && OnCourse(t.callers[c], key)
    && AllowanceOf(s, c, key) + Bit(Returns(s.callers[c], t.callers[c])) <= AllowanceOf(t, c, key)
  }

  lemma OwnTurn(s: State, c: nat, answered: bool, key: string)
    requires Invariant(s) && c < |s.callers| && OnCourse(s.callers[c], key)
    ensures TurnWithin(s, Advance(s, c, answered), c, key)
  {
    assert Fits(s.w, c, s.callers[c]);
    ZeroAtUnlisting(s, c);
    StaysTheCourse(s.w, c, s.callers[c], answered, key);
    if Returns(s.callers[c], Step(s.w, c, s.callers[c], answered).0) {
      OwnStepReturns(s.w, c, s.callers[c], answered, key);
    } else {
      OwnStepGoesOn(s.w, c, s.callers[c], answered, key);
    }
  }

  lemma OthersTurn(s: State, d: nat, answered: bool, c: nat, key: string)
    requires Invariant(s) && c < |s.callers| && d < |s.callers| && d != c && OnCourse(s.callers[c], key)
    ensures TurnWithin(s, Advance(s, d, answered), c, key)
  {
    var t := Advance(s, d, answered);
    assert Fits(s.w, d, s.callers[d]);
    StepOnlyGoes(s.w, d, s.callers[d], answered, key);
    AllowanceGrows(s.w, t.w, key, s.callers[c]);
  }

  lemma PastIsPast(w: World, key: string, pc: Pc, pc': Pc)
    requires Past(pc) && Past(pc')
    ensures Allowance(w, key, pc) == Allowance(w, key, pc')
  {
  }

  lemma ClosedTurn(s: State, d: nat, c: nat, key: string)
    requires Invariant(s) && c < |s.callers| && OnCourse(s.callers[c], key)
    ensures TurnWithin(s, Next(s, Close(d)), c, key)
  {
    if d == c && s.callers[c].Open? {
      PastIsPast(s.w, key, s.callers[c], ReleaseLoad(s.callers[c].core, ThenDone));
    }
  }

  /** Every action keeps a Get within its allowance. */
  lemma TurnAllowed(s: State, a: Action, c: nat, key: string)
    requires Invariant(s) && c < |s.callers| && OnCourse(s.callers[c], key)
    ensures TurnWithin(s, Next(s, a), c, key)
  {
    if a.Close? {
      ClosedTurn(s, a.caller, c, key);
    } else if (a.Run? && a.caller < |s.callers|) || (a.Answer? && a.caller < |s.callers| && s.callers[a.caller].Fetching?) {
      if a.caller == c {
        OwnTurn(s, c, a.Answer?, key);
      } else {
        OthersTurn(s, a.caller, a.Answer?, c, key);
      }
    }
  }

  /** The allowance now, the retries of the run, and the allowance at its end. */
  ghost predicate RunWithin(s: State, actions: seq<Action>, c: nat, key: string)
    requires Invariant(s) && c < |s.callers|
  {
    var t := RunAll(s, actions);
    c < |t.callers| && AllowanceOf(s, c, key) + Retries(s, actions, c) <= AllowanceOf(t, c, key)
  }

  lemma TurnThenRun(s: State, actions: seq<Action>, c: nat, key: string)
    requires Invariant(s) && actions != [] && Invariant(Next(s, actions[0])) && c < |s.callers|
    requires TurnWithin(s, Next(s, actions[0]), c, key) && RunWithin(Next(s, actions[0]), actions[1..], c, key)
    ensures RunWithin(s, actions, c, key)
  {
  }

  lemma {:induction false} RunAllowed(s: State, actions: seq<Action>, c: nat, key: string)
    requires Invariant(s) && c < |s.callers| && OnCourse(s.callers[c], key)
    ensures RunWithin(s, actions, c, key)
    decreases |actions|
  {
    if actions != [] {
      TurnAllowed(s, actions[0], c, key);
      InvariantKept(s, actions[0]);
      RunAllowed(Next(s, actions[0]), actions[1..], c, key);
      TurnThenRun(s, actions, c, key);
    }
  }

  /**
   * In every interleaving from any reachable state, a Get at its lookup is sent back there at most
   * twice for each core of its key that meanwhile left the map at zero, and once more at most: for
   * one still on its way out.
   */
  lemma RetriesAreOwed(s: State, actions: seq<Action>, c: nat, key: string)
    requires Invariant(s) && c < |s.callers| && s.callers[c] == Lookup(key)
    ensures Retries(s, actions, c) <= 2 * (|Gone(RunAll(s, actions).w, key)| - |Gone(s.w, key)|) + 1
  {
    RunAllowed(s, actions, c, key);
    var t := RunAll(s, actions);
    if Hunting(t.callers[c]) {
      SmallerSet(Gone(t.w, key) - {Quarry(t.callers[c])}, Gone(t.w, key));
    }
  }

  // ---- a Get left alone, wherever it stands ---------------------------------------------------------

  /** A Get of the key on its way from its lookup to its handle. */
  predicate OnTheWay(w: World, pc: Pc, key: string) {
    if pc.Fetching? || pc.Starting? then pc.core < |w.cores| && w.cores[pc.core].key == key
    else Seeks(pc, key) && !pc.Lookup?
  }

  /** A compare-and-swap about to fail. */
  predicate Stale(w: World, pc: Pc) {
    (pc.AcquireSwap? || pc.ReleaseSwap?) && pc.core < |w.cores| && w.cores[pc.core].refCount != pc.seen
  }

  /** Own steps left, at most, to a handle or to the next lookup. */
  function Rank(w: World, pc: Pc): nat {
    match pc
    case Building(_) => 12
    case Inserting(_, _) => 11
    case ReleaseSwap(_, _, _) => if Stale(w, pc) then 10 else 8
    case ReleaseLoad(_, _) => 9
    case ShutSwap(_, _) => 7
    case Unlisting(_, _) => 6
    case Halting(_, _) => 5
    case AcquireSwap(_, _, _, _) => if Stale(w, pc) then 4 else 2
    case AcquireLoad(_, _, _) => 3
    case Fetching(_) => 2
    case Starting(_) => 1
    case DropStale(_, _) => 1
    case _ => 0
  }

  lemma RankFalls(s: State, c: nat, key: string)
    requires Invariant(s) && c < |s.callers| && OnTheWay(s.w, s.callers[c], key)
    ensures Rank(s.w, s.callers[c]) >= 1
    ensures Progressed(Next(s, Run(c)), c, key, Rank(s.w, s.callers[c]) - 1)
  {
    assert Fits(s.w, c, s.callers[c]);
  }

  /** On the way, with at most r steps of its own to go to a handle or a lookup. */
  predicate WithinRank(s: State, c: nat, key: string, r: int) {
    c < |s.callers| && OnTheWay(s.w, s.callers[c], key) && Rank(s.w, s.callers[c]) <= r
  }

  lemma AloneOneMore(s: State, c: nat, key: string, n: nat)
    requires Invariant(s) && Invariant(Next(s, Run(c))) && HasHandle(Alone(Next(s, Run(c)), c, n), c, key)
    ensures HasHandle(Alone(s, c, n + 1), c, key)
  {
  }

  ghost predicate Progressed(t: State, c: nat, key: string, r: int) {
    HasHandle(t, c, key) || (c < |t.callers| && t.callers[c] == Lookup(key)) || WithinRank(t, c, key, r)
  }

  lemma {:induction false} WayFinishes(s: State, c: nat, key: string, r: nat, n: nat)
    requires Invariant(s) && WithinRank(s, c, key, r) && n >= r + 8
    ensures HasHandle(Alone(s, c, n), c, key)
    decreases r, 0
  {
    InvariantKept(s, Run(c));
    RankFalls(s, c, key);
    ProgressFinishes(Next(s, Run(c)), c, key, r - 1, n - 1);
    AloneOneMore(s, c, key, n - 1);
  }

  lemma {:induction false} ProgressFinishes(t: State, c: nat, key: string, r: nat, n: nat)
    requires Invariant(t) && Progressed(t, c, key, r) && n >= r + 8
    ensures HasHandle(Alone(t, c, n), c, key)
    decreases r, 1
  {
    if HasHandle(t, c, key) {
      HandleStays(t, c, key, n);
    } else if t.callers[c] == Lookup(key) {
      GetFinishesAlone(t, c, key, n);
    } else {
      WayFinishes(t, c, key, r, n);
    }
  }

  /** Nothing others left half done can trap a Get, wherever it stands: twenty steps of its own are enough. */
  lemma GetFinishesAnywhere(s: State, c: nat, key: string)
    requires Invariant(s) && c < |s.callers| && (s.callers[c] == Lookup(key) || OnTheWay(s.w, s.callers[c], key))
    ensures HasHandle(Alone(s, c, 20), c, key)
  {
    if s.callers[c] == Lookup(key) {
      GetFinishesAlone(s, c, key, 20);
    } else {
      WayFinishes(s, c, key, 12, 20);
    }
  }
}
