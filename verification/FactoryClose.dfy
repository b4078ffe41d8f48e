/** What closing a handle comes to (featureflip.go:300-321, shared_core.go:150-193). */
module FactoryClose {
  import opened Factory

  lemma {:induction false} ClosedRests(s: State, c: nat, n: nat)
    requires Invariant(s) && c < |s.callers| && s.callers[c].Closed?
    ensures Alone(s, c, n) == s
    decreases n
  {
    if n > 0 {
      assert Next(s, Run(c)) == s by {
        assert s.callers[c := s.callers[c]] == s.callers;
      }
      ClosedRests(s, c, n - 1);
    }
  }

  /** Core k replaced, c closed, and nothing else. */
  function Ended(s: State, c: nat, w: World, k: nat, core: Core): State
    requires c < |s.callers| && k < |w.cores|
  {
    State(Put(w, k, core), s.callers[c := Closed])
  }

  lemma AtHalting(s: State, c: nat, k: nat, n: nat)
    requires Invariant(s) && c < |s.callers| && s.callers[c] == Halting(k, ThenDone) && n >= 1
    ensures k < |s.w.cores| && Alone(s, c, n) == Ended(s, c, s.w, k, s.w.cores[k].(halted := true))
  {
    assert Fits(s.w, c, s.callers[c]);
    InvariantKept(s, Run(c));
    ClosedRests(Next(s, Run(c)), c, n - 1);
  }

  lemma AtUnlisting(s: State, c: nat, k: nat, n: nat)
    requires Invariant(s) && c < |s.callers| && s.callers[c] == Unlisting(k, ThenDone) && n >= 2
    ensures k < |s.w.cores|
    ensures Alone(s, c, n) == Ended(s, c, Remove(s.w, s.w.cores[k].key, k), k, s.w.cores[k].(halted := true))
  {
    assert Fits(s.w, c, s.callers[c]);
    InvariantKept(s, Run(c));
    AtHalting(Next(s, Run(c)), c, k, n - 1);
  }

  lemma AtShutSwap(s: State, c: nat, k: nat, n: nat)
    requires Invariant(s) && c < |s.callers| && s.callers[c] == ShutSwap(k, ThenDone) && n >= 3
    requires k < |s.w.cores| && !s.w.cores[k].shutDown
    ensures Alone(s, c, n) ==
      Ended(s, c, Remove(s.w, s.w.cores[k].key, k), k, s.w.cores[k].(shutDown := true, halted := true))
  {
    InvariantKept(s, Run(c));
    AtUnlisting(Next(s, Run(c)), c, k, n - 1);
  }

  /** The last reference takes the core out of the map and down; any other only counts. */
  function Released(s: State, c: nat, k: nat): State
    requires c < |s.callers| && k < |s.w.cores|
  {
    var core := s.w.cores[k];
    if core.refCount == 1 then
      Ended(s, c, Remove(s.w, core.key, k), k, core.(refCount := 0, shutDown := true, halted := true))
    else Ended(s, c, s.w, k, core.(refCount := core.refCount - 1))
  }

  lemma AtLastSwap(s: State, c: nat, k: nat, n: nat)
    requires Invariant(s) && c < |s.callers| && k < |s.w.cores| && n >= 4
    requires s.callers[c] == ReleaseSwap(k, 1, ThenDone) && s.w.cores[k].refCount == 1 && !s.w.cores[k].shutDown
    ensures Alone(s, c, n) == Released(s, c, k)
  {
    InvariantKept(s, Run(c));
    AtShutSwap(Next(s, Run(c)), c, k, n - 1);
  }

  lemma AtSharedSwap(s: State, c: nat, k: nat, n: nat)
    requires Invariant(s) && c < |s.callers| && k < |s.w.cores| && n >= 1
    requires s.callers[c] == ReleaseSwap(k, s.w.cores[k].refCount, ThenDone) && s.w.cores[k].refCount != 1
    ensures Alone(s, c, n) == Released(s, c, k)
  {
    InvariantKept(s, Run(c));
    ClosedRests(Next(s, Run(c)), c, n - 1);
  }

  lemma AtReleaseSwap(s: State, c: nat, k: nat, n: nat)
    requires Invariant(s) && c < |s.callers| && k < |s.w.cores| && n >= 4
    requires s.callers[c] == ReleaseSwap(k, s.w.cores[k].refCount, ThenDone) && !s.w.cores[k].shutDown
    ensures Alone(s, c, n) == Released(s, c, k)
  {
    if s.w.cores[k].refCount == 1 {
      AtLastSwap(s, c, k, n);
    } else {
      AtSharedSwap(s, c, k, n);
    }
  }

  lemma AtReleaseLoad(s: State, c: nat, k: nat, n: nat)
    requires Invariant(s) && c < |s.callers| && k < |s.w.cores| && n >= 5
    requires s.callers[c] == ReleaseLoad(k, ThenDone) && s.w.cores[k].refCount > 0 && !s.w.cores[k].shutDown
    ensures Alone(s, c, n) == Released(s, c, k)
  {
    InvariantKept(s, Run(c));
    AtReleaseSwap(Next(s, Run(c)), c, k, n - 1);
  }

  /** A core with an open handle is counted, listed and running. */
  lemma HandleRuns(s: State, c: nat, k: nat)
    requires Invariant(s) && c < |s.callers| && s.callers[c] == Open(k)
    ensures k < |s.w.cores| && s.w.cores[k].refCount > 0 && s.w.cores[k].published
    ensures Listed(s.w, k) && !s.w.cores[k].shutDown && !s.w.cores[k].halted
  {
    assert Fits(s.w, c, s.callers[c]);
    assert BalancedIn(s, k);
    TallyUpdate(s.callers, c, Closed, Reference, k);
  }

  /** Nothing but core k and its own entry differs. */
  ghost predicate OnlyCore(v: World, w: World, k: nat)
    requires k < |v.cores|
  {
    && |w.cores| == |v.cores|
    && (forall j | 0 <= j < |v.cores| && j != k :: w.cores[j] == v.cores[j])
    && (forall key | key != v.cores[k].key :: (key in w.live <==> key in v.live) && (key in w.live ==> w.live[key] == v.live[key]))
  }

  /**
   * From every reachable state, closing an open handle and five steps of the caller's own give up
   * exactly one reference. The last one takes its core out of the map, shut down and halted; any
   * other leaves it listed and running. No other core or entry is touched, and the handle stays
   * closed.
   */
  lemma CloseFinishes(s: State, c: nat, k: nat, n: nat)
    requires Invariant(s) && c < |s.callers| && s.callers[c] == Open(k) && n >= 5
    ensures Invariant(Next(s, Close(c))) && k < |s.w.cores|
    ensures var t := Alone(Next(s, Close(c)), c, n);
      && t.callers == s.callers[c := Closed] && OnlyCore(s.w, t.w, k)
      && t.w.cores[k].refCount == s.w.cores[k].refCount - 1
      && t.w.cores[k].stage == s.w.cores[k].stage
      && if s.w.cores[k].refCount == 1
         then t.w.cores[k].shutDown && t.w.cores[k].halted && s.w.cores[k].key !in t.w.live
         else !t.w.cores[k].shutDown && !t.w.cores[k].halted && Listed(t.w, k)
  {
    InvariantKept(s, Close(c));
    HandleRuns(s, c, k);
    var closing := Next(s, Close(c));
    AtReleaseLoad(closing, c, k, n);
    assert closing.callers[c := Closed] == s.callers[c := Closed];
  }

  /** Closing it again, like closing what is no open handle, does nothing. */
  lemma CloseIsIdempotent(s: State, c: nat)
    requires Invariant(s) && (c >= |s.callers| || !s.callers[c].Open?)
    ensures Next(s, Close(c)) == s
  {
  }

  /** A Get, from its call on: at most eight steps of its own to a handle of the key. */
  lemma GetCallFinishes(s: State, key: string, n: nat)
    requires Invariant(s) && n >= 8
    ensures Invariant(Next(s, Get(key))) && HasHandle(Alone(Next(s, Get(key)), |s.callers|, n), |s.callers|, key)
  {
    InvariantKept(s, Get(key));
    GetFinishesAlone(Next(s, Get(key)), |s.callers|, key, n);
  }
}
