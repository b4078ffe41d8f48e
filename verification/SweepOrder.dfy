/**
 * Beyond the depth cap the order of a sweep shows (evaluation.go:33-39, 56-96): a chain of twelve
 * flags, on which a memo both rescues and poisons.
 */
module SweepOrder {
  import opened Text
  import opened Models
  import opened Bucketing
  import opened Evaluation
  import opened Prerequisites

  const LONG := 12

  function LinkKey(i: nat): (k: string)
    ensures |k| == i + 1
  {
    seq(i + 1, j => 'f')
  }

  /** Link i of a chain of twelve flags, each requiring the next to serve "on". */
  function Link(i: nat): Flag
    requires i < LONG
  {
    Flag(LinkKey(i), 1, "Boolean", true, [Variation("on", "true"), Variation("off", "false")], [],
         ServeConfig("Fixed", "on", "", "", []), "off",
         if i + 1 < LONG then [Prerequisite(LinkKey(i + 1), "on")] else [])
  }

  ghost predicate HasLink(env: Env, i: nat)
    requires i < LONG
  {
    LinkKey(i) in env.flags && env.flags[LinkKey(i)] == Link(i)
  }

  ghost predicate IsLongChain(env: Env) {
    (forall i | 0 <= i < LONG :: HasLink(env, i)) && env.lib.sortRules([]) == []
  }

  /** Such a snapshot exists. */
  ghost function LongChain(ctx: Context, md5: Md5, matches: (seq<Condition>, string, Context) -> bool): (env: Env)
    ensures IsLongChain(env) && KeysMatch(env)
  {
    var keys := set i | 0 <= i < LONG :: LinkKey(i);
    var flags := map k | k in keys && 1 <= |k| <= LONG :: Link(|k| - 1);
    assert forall i | 0 <= i < LONG :: LinkKey(i) in keys && |LinkKey(i)| == i + 1;
    Env(Library(md5, matches, rules => rules), ctx, map[], flags)
  }

  const SERVED_ON := Detail(Some("true"), "on", Fallthrough, "", "")

  lemma LinkServesOn(env: Env, i: nat)
    requires IsLongChain(env) && i < LONG
    ensures OwnResult(env, Link(i)) == SERVED_ON
    ensures ServeOff(Link(i), Error, "").reason == Error
  {
    var vs := Link(i).variations;
    assert vs[0].key == "on" && vs[1].key == "off";
    assert VariationValue(vs, "on") == Some("true");
  }

  /** A flag with one prerequisite: its result follows from that prerequisite's. */
  lemma SinglePrerequisite(env: Env, flag: Flag, depth: nat, memo: Memo)
    requires depth <= MAX_PREREQUISITE_DEPTH && flag.enabled && |flag.prerequisites| == 1
    requires flag.prerequisites[0].flagKey in memo || flag.prerequisites[0].flagKey in env.flags
    ensures var p := flag.prerequisites[0];
      var (result, m) := Resolve(env, p.flagKey, depth, memo);
      var verdict := Verdict(flag, p, result);
      var r := if verdict.Some? then verdict.value else OwnResult(env, flag);
      EvaluateAt(env, flag, depth, memo) == (r, m[flag.key := r])
  {
    var m := Resolve(env, flag.prerequisites[0].flagKey, depth, memo).1;
    assert PrerequisitesFrom(env, flag, 1, depth, m) == (None, m);
  }

  /** Alone, link i at its own depth runs past the cap. */
  lemma {:induction false} LongChainFails(env: Env, i: nat)
    requires IsLongChain(env) && i < LONG
    ensures EvaluateAt(env, Link(i), i, map[]).0.reason == Error
    decreases LONG - i
  {
    LinkServesOn(env, i);
    if i + 1 < LONG {
      LongChainFails(env, i + 1);
      assert HasLink(env, i + 1);
      ResolveLink(env, i + 1, i, map[]);
      SinglePrerequisite(env, Link(i), i, map[]);
    }
  }

  lemma LinkStep(env: Env, i: nat, depth: nat, memo: Memo)
    requires IsLongChain(env) && i + 1 < LONG && depth <= MAX_PREREQUISITE_DEPTH && HasLink(env, i + 1)
    requires Resolve(env, LinkKey(i + 1), depth, memo).0 == SERVED_ON
    ensures EvaluateAt(env, Link(i), depth, memo).0 == SERVED_ON
  {
    LinkServesOn(env, i);
    assert HasLink(env, i + 1);
    SinglePrerequisite(env, Link(i), depth, memo);
  }

  lemma ResolveLink(env: Env, i: nat, depth: nat, memo: Memo)
    requires i < LONG && HasLink(env, i) && depth <= MAX_PREREQUISITE_DEPTH && LinkKey(i) !in memo
    ensures var (r, m) := EvaluateAt(env, Link(i), depth + 1, memo);
      Resolve(env, LinkKey(i), depth, memo) == (r, m[LinkKey(i) := r])
  {
  }

  /** With the last link memoised, the same flag at the same depth succeeds. */
  lemma {:induction false} LongChainServes(env: Env, i: nat)
    requires IsLongChain(env) && i + 1 < LONG
    ensures EvaluateAt(env, Link(i), i, map[LinkKey(LONG - 1) := SERVED_ON]).0 == SERVED_ON
    decreases LONG - i
  {
    var memo: Memo := map[LinkKey(LONG - 1) := SERVED_ON];
    assert HasLink(env, i + 1);
    if i + 2 < LONG {
      LongChainServes(env, i + 1);
      KeysDiffer(i + 1, LONG - 1);
      ResolveLink(env, i + 1, i, memo);
    }
    LinkStep(env, i, i, memo);
  }

  /**
   * Eleven links are one too many: sweeping the far end first serves a flag that a separate
   * evaluation reports as an error.
   */
  lemma SweepOrderShows(env: Env)
    requires IsLongChain(env)
    ensures Evaluate(env, Link(0)).reason == Error
    ensures Sweep(env, [Link(LONG - 1), Link(0)], map[]) == [SERVED_ON, SERVED_ON]
  {
    LongChainFails(env, 0);
    LongChainServes(env, 0);
    LinkServesOn(env, LONG - 1);
    var last := Link(LONG - 1);
    var m: Memo := map[LinkKey(LONG - 1) := SERVED_ON];
    assert EvaluateAt(env, last, 0, map[]) == (SERVED_ON, m) by {
      assert PrerequisitesFrom(env, last, 0, 0, map[]) == (None, map[]);
    }
    assert [last, Link(0)][1..] == [Link(0)];
    assert Sweep(env, [Link(0)], m) == [SERVED_ON] by {
      assert [Link(0)][1..] == [];
    }
  }

  /** The chain's tail on its own stays within the cap. */
  lemma {:induction false} ShortChainServes(env: Env, i: nat, depth: nat)
    requires IsLongChain(env) && i < LONG && depth + (LONG - 1 - i) <= MAX_PREREQUISITE_DEPTH
    ensures EvaluateAt(env, Link(i), depth, map[]).0 == SERVED_ON
    decreases LONG - i
  {
    if i + 1 < LONG {
      ShortChainServes(env, i + 1, depth + 1);
      assert HasLink(env, i + 1);
      ResolveLink(env, i + 1, depth, map[]);
      LinkStep(env, i, depth, map[]);
    } else {
      LinkServesOn(env, i);
    }
  }

  lemma LongChainMemo(env: Env, i: nat)
    requires IsLongChain(env) && i + 1 < LONG
    ensures var (inner, m) := EvaluateAt(env, Link(i + 1), i + 1, map[]);
      var (outer, n) := EvaluateAt(env, Link(i), i, map[]);
      n == m[LinkKey(i + 1) := inner][LinkKey(i) := outer]
  {
    assert HasLink(env, i + 1);
    ResolveLink(env, i + 1, i, map[]);
    SinglePrerequisite(env, Link(i), i, map[]);
  }

  /** A run past the cap files an error under every link it came through. */
  lemma {:induction false} LongChainFiles(env: Env, i: nat, j: nat)
    requires IsLongChain(env) && i <= j < LONG && i + 1 < LONG
    ensures FilesError(EvaluateAt(env, Link(i), i, map[]).1, LinkKey(j))
    decreases LONG - i
  {
    LongChainFails(env, i);
    LongChainFails(env, i + 1);
    LongChainMemo(env, i);
    KeysDiffer(i, j);
    KeysDiffer(i + 1, j);
    if i + 1 < j {
      LongChainFiles(env, i + 1, j);
    }
  }

  ghost predicate FilesError(memo: Memo, key: string) {
    key in memo && memo[key].reason == Error
  }

  lemma KeysDiffer(i: nat, j: nat)
    ensures LinkKey(i) == LinkKey(j) <==> i == j
  {
    assert |LinkKey(i)| == i + 1 && |LinkKey(j)| == j + 1;
  }

  /**
   * The other way round a sweep poisons: once the whole chain was evaluated, a link whose own
   * chain fits the cap is reported as an error from the memo.
   */
  lemma SweepPoisons(env: Env)
    requires IsLongChain(env)
    ensures Evaluate(env, Link(5)) == SERVED_ON
    ensures var swept := Sweep(env, [Link(0), Link(5)], map[]); |swept| == 2 && swept[1].reason == Error
  {
    ShortChainServes(env, 5, 0);
    LongChainFiles(env, 0, 6);
    var m := EvaluateAt(env, Link(0), 0, map[]).1;
    LinkServesOn(env, 5);
    assert HasLink(env, 6);
    SinglePrerequisite(env, Link(5), 0, m);
    assert [Link(0), Link(5)][1..] == [Link(5)];
    assert Sweep(env, [Link(5)], m) == [EvaluateAt(env, Link(5), 0, m).0] by {
      assert [Link(5)][1..] == [];
    }
  }

  // ---- the cap is the bound ---------------------------------------------------------------

  /** A sweep with a shared memo reports what separate evaluations report. */
  ghost predicate SweepIsSeparate(env: Env, roots: seq<Flag>) {
    var swept := Sweep(env, roots, map[]);
    |swept| == |roots| && forall i | 0 <= i < |roots| :: swept[i] == Evaluate(env, roots[i])
  }

  /** Held flags, none with a prerequisite chain of more than n links. */
  ghost predicate ShallowRoots(env: Env, roots: seq<Flag>, n: nat) {
    KeysMatch(env) && forall i | 0 <= i < |roots| :: Held(env, roots[i]) && ChainsFit(env, roots[i], n)
  }

  lemma {:induction false} ChainsFitMore(env: Env, flag: Flag, m: nat, n: nat)
    requires ChainsFit(env, flag, m) && m <= n
    ensures ChainsFit(env, flag, n)
    decreases n
  {
    if m < n {
      ChainsFitMore(env, flag, m, n - 1);
      ChainsFitLonger(env, flag, n - 1);
    }
  }

  lemma ShallowSweep(env: Env, roots: seq<Flag>, n: nat)
    requires n <= MAX_PREREQUISITE_DEPTH && ShallowRoots(env, roots, n)
    ensures SweepIsSeparate(env, roots)
  {
    forall i | 0 <= i < |roots| ensures ChainsFit(env, roots[i], MAX_PREREQUISITE_DEPTH) {
      ChainsFitMore(env, roots[i], n, MAX_PREREQUISITE_DEPTH);
    }
    SweepAgrees(env, roots, map[]);
  }

  /** Link i has as many links after it as are left of the chain. */
  lemma {:induction false} LinksAfter(env: Env, i: nat)
    requires IsLongChain(env) && i < LONG
    ensures ChainsFit(env, Link(i), LONG - 1 - i)
    decreases LONG - i
  {
    if i + 1 < LONG {
      assert HasLink(env, i + 1);
      LinksAfter(env, i + 1);
    }
  }

  lemma LinkIsShallow(env: Env, i: nat, n: nat)
    requires IsLongChain(env) && i < LONG && n >= LONG - 1
    ensures Held(env, Link(i)) && ChainsFit(env, Link(i), n)
  {
    assert HasLink(env, i);
    LinksAfter(env, i);
    ChainsFitMore(env, Link(i), LONG - 1 - i, n);
  }

  lemma NotSeparate(env: Env, first: Flag, second: Flag, served: seq<Detail>)
    requires Sweep(env, [first, second], map[]) == served && |served| == 2 && served[1] != Evaluate(env, second)
    ensures !SweepIsSeparate(env, [first, second])
  {
    assert [first, second][1] == second;
  }

  /** Eleven links: a sweep of the far end and the near end. */
  lemma ElevenLinksPart(env: Env, n: nat)
    requires IsLongChain(env) && KeysMatch(env) && n > MAX_PREREQUISITE_DEPTH
    ensures var roots := [Link(LONG - 1), Link(0)]; ShallowRoots(env, roots, n) && !SweepIsSeparate(env, roots)
  {
    LinkIsShallow(env, LONG - 1, n);
    LinkIsShallow(env, 0, n);
    SweepOrderShows(env);
    NotSeparate(env, Link(LONG - 1), Link(0), [SERVED_ON, SERVED_ON]);
  }

  ghost predicate SweepsSeparatelyWithin(n: nat) {
    forall env, roots | ShallowRoots(env, roots, n) :: SweepIsSeparate(env, roots)
  }

  /**
   * Sweeps of flags whose chains have at most n links agree with separate evaluations, in every
   * snapshot and order, exactly when n is within the depth cap.
   */
  lemma CapIsTight(n: nat)
    ensures SweepsSeparatelyWithin(n) <==> n <= MAX_PREREQUISITE_DEPTH
  {
    if n <= MAX_PREREQUISITE_DEPTH {
      forall env, roots | ShallowRoots(env, roots, n) ensures SweepIsSeparate(env, roots) {
        ShallowSweep(env, roots, n);
      }
    } else {
      var env := LongChain(Context("", map[]), _ => Digest(0, 0, 0, 0), (conditions, logic, ctx) => false);
      ElevenLinksPart(env, n);
    }
  }
}
