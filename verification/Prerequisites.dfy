/** What memoisation, the depth cap and cycles do to prerequisite resolution (evaluation.go:9-96). */
module Prerequisites {
  import opened Text
  import opened Models
  import opened Evaluation

  // ---- evaluation without a memo ------------------------------------------------

  ghost function Plain(env: Env, flag: Flag, depth: nat): Detail
    decreases Remaining(depth), 1, 0
  {
    if depth > MAX_PREREQUISITE_DEPTH then ServeOff(flag, Error, "")
    else if !flag.enabled then ServeOff(flag, FlagDisabled, "")
    else
      var blocked := PlainBlock(env, flag, 0, depth);
      if blocked.Some? then blocked.value else OwnResult(env, flag)
  }

  ghost function PlainBlock(env: Env, flag: Flag, i: nat, depth: nat): Option<Detail>
    requires i <= |flag.prerequisites| && depth <= MAX_PREREQUISITE_DEPTH
    decreases Remaining(depth), 0, |flag.prerequisites| - i
  {
    if i == |flag.prerequisites| then None
    else
      var p := flag.prerequisites[i];
      if p.flagKey !in env.flags then Some(ServeOff(flag, PrerequisiteFailed, p.flagKey))
      else
        var verdict := Verdict(flag, p, Plain(env, env.flags[p.flagKey], depth + 1));
        if verdict.Some? then verdict else PlainBlock(env, flag, i + 1, depth)
  }

  /** Every prerequisite chain from flag has at most n links to flags the snapshot holds. */
  ghost predicate ChainsFit(env: Env, flag: Flag, n: nat)
    decreases n
  {
    forall i | 0 <= i < |flag.prerequisites| && flag.prerequisites[i].flagKey in env.flags ::
      n > 0 && ChainsFit(env, env.flags[flag.prerequisites[i].flagKey], n - 1)
  }

  /** The store keeps every flag under its own key. */
  ghost predicate KeysMatch(env: Env) {
    forall k | k in env.flags :: env.flags[k].key == k
  }

  ghost predicate Held(env: Env, flag: Flag) {
    flag.key in env.flags && env.flags[flag.key] == flag
  }

  /** Every entry is the memo-free result of the flag it is filed under. */
  ghost predicate CorrectMemo(env: Env, memo: Memo) {
    forall k | k in memo :: k in env.flags && memo[k] == Plain(env, env.flags[k], 0)
  }

  lemma {:induction false} PlainDepthFree(env: Env, flag: Flag, depth: nat)
    requires depth <= MAX_PREREQUISITE_DEPTH && ChainsFit(env, flag, MAX_PREREQUISITE_DEPTH - depth)
    ensures Plain(env, flag, depth) == Plain(env, flag, 0)
    decreases Remaining(depth), 1
  {
    PlainBlockDepthFree(env, flag, 0, depth, 0);
  }

  lemma {:induction false} PlainBlockDepthFree(env: Env, flag: Flag, i: nat, depth: nat, shallower: nat)
    requires i <= |flag.prerequisites| && shallower <= depth <= MAX_PREREQUISITE_DEPTH
    requires ChainsFit(env, flag, MAX_PREREQUISITE_DEPTH - depth)
    ensures PlainBlock(env, flag, i, depth) == PlainBlock(env, flag, i, shallower)
    decreases Remaining(depth), 0, |flag.prerequisites| - i
  {
    if i < |flag.prerequisites| {
      var k := flag.prerequisites[i].flagKey;
      if k in env.flags {
        var g := env.flags[k];
        assert ChainsFit(env, g, MAX_PREREQUISITE_DEPTH - depth - 1);
        PlainBlockDepthFree(env, g, 0, depth + 1, shallower + 1);
      }
      PlainBlockDepthFree(env, flag, i + 1, depth, shallower);
    }
  }

  /** A memo of memo-free results changes nothing, and stays one, while chains fit the depth cap. */
  lemma {:induction false} MemoAgrees(env: Env, flag: Flag, depth: nat, memo: Memo)
    requires KeysMatch(env) && CorrectMemo(env, memo)
    requires depth <= MAX_PREREQUISITE_DEPTH && ChainsFit(env, flag, MAX_PREREQUISITE_DEPTH - depth)
    ensures EvaluateAt(env, flag, depth, memo).0 == Plain(env, flag, 0)
    ensures Held(env, flag) ==> CorrectMemo(env, EvaluateAt(env, flag, depth, memo).1)
    decreases Remaining(depth), 1
  {
    PlainDepthFree(env, flag, depth);
    if flag.enabled {
      MemoAgreesFrom(env, flag, 0, depth, memo);
    }
  }

  lemma {:induction false} MemoAgreesFrom(env: Env, flag: Flag, i: nat, depth: nat, memo: Memo)
    requires KeysMatch(env) && CorrectMemo(env, memo) && i <= |flag.prerequisites|
    requires depth <= MAX_PREREQUISITE_DEPTH && ChainsFit(env, flag, MAX_PREREQUISITE_DEPTH - depth)
    ensures PrerequisitesFrom(env, flag, i, depth, memo).0 == PlainBlock(env, flag, i, depth)
    ensures CorrectMemo(env, PrerequisitesFrom(env, flag, i, depth, memo).1)
    decreases Remaining(depth), 0, |flag.prerequisites| - i
  {
    if i < |flag.prerequisites| {
      var k := flag.prerequisites[i].flagKey;
      if k in env.flags {
        var g := env.flags[k];
        assert ChainsFit(env, g, MAX_PREREQUISITE_DEPTH - depth - 1);
        PlainDepthFree(env, g, depth + 1);
        if k !in memo {
          MemoAgrees(env, g, depth + 1, memo);
        }
        MemoAgreesFrom(env, flag, i + 1, depth, Resolve(env, k, depth, memo).1);
      }
    }
  }

  /** evaluateWithSharedMemo over a list of flags, one memo threaded through. */
  ghost function Sweep(env: Env, roots: seq<Flag>, memo: Memo): seq<Detail> {
    if roots == [] then []
    else
      var (r, m) := EvaluateAt(env, roots[0], 0, memo);
      [r] + Sweep(env, roots[1..], m)
  }

  /** A sweep with a shared memo, in any order, reports what separate evaluations report. */
  lemma {:induction false} SweepAgrees(env: Env, roots: seq<Flag>, memo: Memo)
    requires KeysMatch(env) && CorrectMemo(env, memo)
    requires forall i | 0 <= i < |roots| :: Held(env, roots[i]) && ChainsFit(env, roots[i], MAX_PREREQUISITE_DEPTH)
    ensures |Sweep(env, roots, memo)| == |roots|
    ensures forall i | 0 <= i < |roots| :: Sweep(env, roots, memo)[i] == Evaluate(env, roots[i])
  {
    if roots != [] {
      MemoAgrees(env, roots[0], 0, memo);
      MemoAgrees(env, roots[0], 0, map[]);
      SweepAgrees(env, roots[1..], EvaluateAt(env, roots[0], 0, memo).1);
    }
  }

  // ---- what the cap cannot touch ------------------------------------------------------

  /** A result other than Error is the same at every shallower depth. */
  lemma {:induction false} PlainShallower(env: Env, flag: Flag, deep: nat, shallow: nat)
    requires shallow <= deep && Plain(env, flag, deep).reason != Error
    ensures Plain(env, flag, shallow) == Plain(env, flag, deep)
    decreases Remaining(deep), 1
  {
    if flag.enabled {
      BlockShallower(env, flag, 0, deep, shallow);
    }
  }

  lemma {:induction false} BlockShallower(env: Env, flag: Flag, i: nat, deep: nat, shallow: nat)
    requires i <= |flag.prerequisites| && shallow <= deep <= MAX_PREREQUISITE_DEPTH
    requires var blocked := PlainBlock(env, flag, i, deep); blocked.Some? ==> blocked.value.reason != Error
    ensures PlainBlock(env, flag, i, shallow) == PlainBlock(env, flag, i, deep)
    decreases Remaining(deep), 0, |flag.prerequisites| - i
  {
    if i < |flag.prerequisites| && flag.prerequisites[i].flagKey in env.flags {
      var p := flag.prerequisites[i];
      PlainShallower(env, env.flags[p.flagKey], deep + 1, shallow + 1);
      if Verdict(flag, p, Plain(env, env.flags[p.flagKey], deep + 1)).None? {
        BlockShallower(env, flag, i + 1, deep, shallow);
      }
    }
  }

  /** Entries may be wrong about flags that evaluate to an error on their own, and no others. */
  ghost predicate SoundMemo(env: Env, memo: Memo) {
    forall k | k in memo ::
      k in env.flags && (Plain(env, env.flags[k], 0).reason != Error ==> memo[k] == Plain(env, env.flags[k], 0))
  }

  /**
   * With no condition on chains at all: where memo-free evaluation reports anything but Error,
   * memoised evaluation reports the same.
   */
  lemma {:induction false} GoodResultsSurvive(env: Env, flag: Flag, depth: nat, memo: Memo)
    requires KeysMatch(env) && SoundMemo(env, memo) && Plain(env, flag, depth).reason != Error
    ensures EvaluateAt(env, flag, depth, memo).0 == Plain(env, flag, depth)
    ensures Held(env, flag) ==> SoundMemo(env, EvaluateAt(env, flag, depth, memo).1)
    decreases Remaining(depth), 2
  {
    PlainShallower(env, flag, depth, 0);
    if flag.enabled {
      GoodBlockSurvives(env, flag, 0, depth, memo);
    }
  }

  lemma {:induction false} GoodBlockSurvives(env: Env, flag: Flag, i: nat, depth: nat, memo: Memo)
    requires KeysMatch(env) && SoundMemo(env, memo)
    requires i <= |flag.prerequisites| && depth <= MAX_PREREQUISITE_DEPTH
    requires var blocked := PlainBlock(env, flag, i, depth); blocked.Some? ==> blocked.value.reason != Error
    ensures PrerequisitesFrom(env, flag, i, depth, memo).0 == PlainBlock(env, flag, i, depth)
    ensures SoundMemo(env, PrerequisitesFrom(env, flag, i, depth, memo).1)
    decreases Remaining(depth), 1, |flag.prerequisites| - i
  {
    if i < |flag.prerequisites| && flag.prerequisites[i].flagKey in env.flags {
      var p := flag.prerequisites[i];
      GoodResolve(env, p.flagKey, depth, memo);
      if Verdict(flag, p, Plain(env, env.flags[p.flagKey], depth + 1)).None? {
        GoodBlockSurvives(env, flag, i + 1, depth, Resolve(env, p.flagKey, depth, memo).1);
      }
    }
  }

  lemma {:induction false} GoodResolve(env: Env, key: string, depth: nat, memo: Memo)
    requires KeysMatch(env) && SoundMemo(env, memo) && depth <= MAX_PREREQUISITE_DEPTH
    requires key in env.flags && Plain(env, env.flags[key], depth + 1).reason != Error
    ensures Resolve(env, key, depth, memo).0 == Plain(env, env.flags[key], depth + 1)
    ensures SoundMemo(env, Resolve(env, key, depth, memo).1)
    decreases Remaining(depth), 0
  {
    PlainShallower(env, env.flags[key], depth + 1, 0);
    if key !in memo {
      GoodResultsSurvive(env, env.flags[key], depth + 1, memo);
    }
  }

  // ---- what a prerequisite does, in terms of separate evaluations ---------------------------

  ghost predicate Satisfied(env: Env, p: Prerequisite) {
    && p.flagKey in env.flags
    && Evaluate(env, env.flags[p.flagKey]).reason != Error
    && Evaluate(env, env.flags[p.flagKey]).variation == p.expectedVariation
  }

  lemma {:induction false} ChainsFitLonger(env: Env, flag: Flag, n: nat)
    requires ChainsFit(env, flag, n)
    ensures ChainsFit(env, flag, n + 1)
    decreases n
  {
    forall i | 0 <= i < |flag.prerequisites| && flag.prerequisites[i].flagKey in env.flags
      ensures ChainsFit(env, env.flags[flag.prerequisites[i].flagKey], n)
    {
      ChainsFitLonger(env, env.flags[flag.prerequisites[i].flagKey], n - 1);
    }
  }

  lemma PrerequisiteAlone(env: Env, flag: Flag, i: nat)
    requires KeysMatch(env) && ChainsFit(env, flag, MAX_PREREQUISITE_DEPTH)
    requires i < |flag.prerequisites| && flag.prerequisites[i].flagKey in env.flags
    ensures var g := env.flags[flag.prerequisites[i].flagKey]; Plain(env, g, 1) == Evaluate(env, g)
    ensures Satisfied(env, flag.prerequisites[i]) ==> PlainBlock(env, flag, i, 0) == PlainBlock(env, flag, i + 1, 0)
  {
    var g := env.flags[flag.prerequisites[i].flagKey];
    assert ChainsFit(env, g, MAX_PREREQUISITE_DEPTH - 1);
    PlainDepthFree(env, g, 1);
    ChainsFitLonger(env, g, MAX_PREREQUISITE_DEPTH - 1);
    MemoAgrees(env, g, 0, map[]);
  }

  /** The loop passes over prerequisites it has no objection to. */
  lemma {:induction false} BlockPasses(env: Env, flag: Flag, i: nat, depth: nat)
    requires i <= |flag.prerequisites| && depth <= MAX_PREREQUISITE_DEPTH
    requires forall m | 0 <= m < i :: PlainBlock(env, flag, m, depth) == PlainBlock(env, flag, m + 1, depth)
    ensures PlainBlock(env, flag, 0, depth) == PlainBlock(env, flag, i, depth)
  {
    if i > 0 {
      BlockPasses(env, flag, i - 1, depth);
    }
  }

  /**
   * The first prerequisite that, evaluated on its own, is not satisfied decides an enabled flag:
   * its error spreads, any other failure is named; when all are satisfied the flag's own rules
   * decide.
   */
  lemma PrerequisitesDecide(env: Env, flag: Flag, i: nat)
    requires KeysMatch(env) && ChainsFit(env, flag, MAX_PREREQUISITE_DEPTH) && flag.enabled
    requires i <= |flag.prerequisites| && forall m | 0 <= m < i :: Satisfied(env, flag.prerequisites[m])
    requires i < |flag.prerequisites| ==> !Satisfied(env, flag.prerequisites[i])
    ensures Evaluate(env, flag) ==
      if i == |flag.prerequisites| then OwnResult(env, flag)
      else
        var key := flag.prerequisites[i].flagKey;
        if key in env.flags && Evaluate(env, env.flags[key]).reason == Error then ServeOff(flag, Error, "")
        else ServeOff(flag, PrerequisiteFailed, key)
  {
    MemoAgrees(env, flag, 0, map[]);
    forall m | 0 <= m < i ensures PlainBlock(env, flag, m, 0) == PlainBlock(env, flag, m + 1, 0) {
      PrerequisiteAlone(env, flag, m);
    }
    BlockPasses(env, flag, i, 0);
    if i < |flag.prerequisites| && flag.prerequisites[i].flagKey in env.flags {
      PrerequisiteAlone(env, flag, i);
    }
  }
}
