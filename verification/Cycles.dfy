/** A prerequisite cycle that evaluation runs into always surfaces as an error (evaluation.go:56-96). */
module Cycles {
  import opened Models
  import opened Evaluation
  import opened Prerequisites

  /**
   * Evaluating flag comes back to a flag that is still being evaluated. active holds the keys
   * of the evaluations in progress around this one.
   */
  ghost predicate Reenters(env: Env, flag: Flag, depth: nat, memo: Memo, active: set<string>)
    decreases Remaining(depth), 1, 0
  {
    depth <= MAX_PREREQUISITE_DEPTH && flag.enabled
    && ReentersFrom(env, flag, 0, depth, memo, active + {flag.key})
  }

  /** The same for the prerequisite loop from index i on; active now includes flag itself. */
  ghost predicate ReentersFrom(env: Env, flag: Flag, i: nat, depth: nat, memo: Memo, active: set<string>)
    requires i <= |flag.prerequisites| && depth <= MAX_PREREQUISITE_DEPTH
    decreases Remaining(depth), 0, |flag.prerequisites| - i
  {
    i < |flag.prerequisites| &&
    var p := flag.prerequisites[i];
    (p.flagKey in memo || p.flagKey in env.flags) &&
    var (result, m) := Resolve(env, p.flagKey, depth, memo);
    || (p.flagKey !in memo && p.flagKey in active)
    || (p.flagKey !in memo && Reenters(env, env.flags[p.flagKey], depth + 1, memo, active))
    || (Verdict(flag, p, result).None? && ReentersFrom(env, flag, i + 1, depth, m, active))
  }

  // ---- evaluation only adds to the memo --------------------------------------------

  ghost predicate Extends(before: Memo, after: Memo) {
    forall k | k in before :: k in after && after[k] == before[k]
  }

  lemma {:induction false} MemoGrows(env: Env, flag: Flag, depth: nat, memo: Memo)
    requires KeysMatch(env) && flag.key !in memo
    ensures Extends(memo, EvaluateAt(env, flag, depth, memo).1)
    decreases Remaining(depth), 1
  {
    if depth <= MAX_PREREQUISITE_DEPTH && flag.enabled {
      MemoGrowsFrom(env, flag, 0, depth, memo);
    }
  }

  lemma {:induction false} MemoGrowsFrom(env: Env, flag: Flag, i: nat, depth: nat, memo: Memo)
    requires KeysMatch(env) && i <= |flag.prerequisites| && depth <= MAX_PREREQUISITE_DEPTH
    ensures Extends(memo, PrerequisitesFrom(env, flag, i, depth, memo).1)
    decreases Remaining(depth), 0, |flag.prerequisites| - i
  {
    if i < |flag.prerequisites| {
      var k := flag.prerequisites[i].flagKey;
      if k in memo || k in env.flags {
        if k !in memo {
          MemoGrows(env, env.flags[k], depth + 1, memo);
        }
        MemoGrowsFrom(env, flag, i + 1, depth, Resolve(env, k, depth, memo).1);
      }
    }
  }

  /** Without re-entry, no evaluation in progress gets a memo entry. */
  lemma {:induction false} ActiveStaysOut(env: Env, flag: Flag, depth: nat, memo: Memo, active: set<string>)
    requires KeysMatch(env) && flag.key !in active && memo.Keys !! active + {flag.key}
    requires !Reenters(env, flag, depth, memo, active)
    ensures EvaluateAt(env, flag, depth, memo).1.Keys !! active
    decreases Remaining(depth), 1
  {
    if depth <= MAX_PREREQUISITE_DEPTH && flag.enabled {
      ActiveStaysOutFrom(env, flag, 0, depth, memo, active + {flag.key});
    }
  }

  lemma {:induction false} ActiveStaysOutFrom(
      env: Env, flag: Flag, i: nat, depth: nat, memo: Memo, active: set<string>)
    requires KeysMatch(env) && i <= |flag.prerequisites| && depth <= MAX_PREREQUISITE_DEPTH
    requires memo.Keys !! active && !ReentersFrom(env, flag, i, depth, memo, active)
    ensures PrerequisitesFrom(env, flag, i, depth, memo).1.Keys !! active
    decreases Remaining(depth), 0, |flag.prerequisites| - i
  {
    if i < |flag.prerequisites| {
      var p := flag.prerequisites[i];
      if p.flagKey in memo || p.flagKey in env.flags {
        if p.flagKey !in memo {
          ActiveStaysOut(env, env.flags[p.flagKey], depth + 1, memo, active);
        }
        var (result, m) := Resolve(env, p.flagKey, depth, memo);
        if Verdict(flag, p, result).None? {
          ActiveStaysOutFrom(env, flag, i + 1, depth, m, active);
        }
      }
    }
  }

  // ---- frames of evaluations in progress ----------------------------------------------

  /** flag is resolving its prerequisite number index. */
  datatype Frame = Frame(flag: Flag, index: nat)

  /** The frame got past its earlier prerequisites, from the memo, and has no result of its own yet. */
  ghost predicate InProgress(env: Env, f: Frame, memo: Memo) {
    && Held(env, f.flag) && f.flag.enabled && f.flag.key !in memo
    && f.index < |f.flag.prerequisites|
    && (forall i | 0 <= i < f.index ::
         f.flag.prerequisites[i].flagKey in memo
         && Verdict(f.flag, f.flag.prerequisites[i], memo[f.flag.prerequisites[i].flagKey]).None?)
  }

  function Awaits(f: Frame): string
    requires f.index < |f.flag.prerequisites|
  {
    f.flag.prerequisites[f.index].flagKey
  }

  /** Outermost first; each frame awaits the next. */
  ghost predicate Stack(env: Env, frames: seq<Frame>, memo: Memo) {
    && (forall j | 0 <= j < |frames| :: InProgress(env, frames[j], memo))
    && (forall j | 0 <= j && j + 1 < |frames| :: Awaits(frames[j]) == frames[j + 1].flag.key)
  }

  ghost function KeysOf(frames: seq<Frame>): set<string> {
    set j | 0 <= j < |frames| :: frames[j].flag.key
  }

  lemma {:induction false} SkipResolved(env: Env, f: Frame, i: nat, depth: nat, memo: Memo)
    requires InProgress(env, f, memo) && i <= f.index && depth <= MAX_PREREQUISITE_DEPTH
    ensures PrerequisitesFrom(env, f.flag, i, depth, memo) == PrerequisitesFrom(env, f.flag, f.index, depth, memo)
    decreases f.index - i
  {
    if i < f.index {
      SkipResolved(env, f, i + 1, depth, memo);
    }
  }

  /** Round and round: a stack whose top awaits frame t leads every flag from t on to an error. */
  lemma {:induction false} CycleFails(env: Env, frames: seq<Frame>, t: nat, j: nat, depth: nat, memo: Memo)
    requires Stack(env, frames, memo) && t <= j < |frames|
    requires Awaits(frames[|frames| - 1]) == frames[t].flag.key
    ensures EvaluateAt(env, frames[j].flag, depth, memo).0.reason == Error
    decreases Remaining(depth)
  {
    if depth <= MAX_PREREQUISITE_DEPTH {
      var f := frames[j];
      var next := if j + 1 < |frames| then j + 1 else t;
      assert Awaits(f) == frames[next].flag.key;
      CycleFails(env, frames, t, next, depth + 1, memo);
      SkipResolved(env, f, 0, depth, memo);
      assert env.flags[Awaits(f)] == frames[next].flag;
    }
  }

  /** A loop that re-enters a frame of the stack is stopped by an error. */
  lemma {:induction false} ReentryStops(env: Env, frames: seq<Frame>, depth: nat, memo: Memo)
    requires KeysMatch(env) && |frames| > 0 && Stack(env, frames, memo)
    requires depth <= MAX_PREREQUISITE_DEPTH && memo.Keys !! KeysOf(frames)
    requires var top := frames[|frames| - 1]; ReentersFrom(env, top.flag, top.index, depth, memo, KeysOf(frames))
    ensures var top := frames[|frames| - 1];
      var stopped := PrerequisitesFrom(env, top.flag, top.index, depth, memo).0;
      stopped.Some? && stopped.value.reason == Error
    decreases Remaining(depth), |frames[|frames| - 1].flag.prerequisites| - frames[|frames| - 1].index
  {
    var n := |frames| - 1;
    var top := frames[n];
    var k := Awaits(top);
    if k !in memo && k in KeysOf(frames) {
      var t :| 0 <= t < |frames| && frames[t].flag.key == k;
      CycleFails(env, frames, t, t, depth + 1, memo);
    } else if k !in memo && Reenters(env, env.flags[k], depth + 1, memo, KeysOf(frames)) {
      ReentryStopsInside(env, frames, depth, memo);
    } else {
      ReentryContinues(env, frames, depth, memo);
    }
  }

  /** The awaited flag re-enters: push it and recurse. */
  lemma {:induction false} ReentryStopsInside(env: Env, frames: seq<Frame>, depth: nat, memo: Memo)
    requires KeysMatch(env) && |frames| > 0 && Stack(env, frames, memo)
    requires depth <= MAX_PREREQUISITE_DEPTH && memo.Keys !! KeysOf(frames)
    requires var k := Awaits(frames[|frames| - 1]);
      k !in memo && k in env.flags && Reenters(env, env.flags[k], depth + 1, memo, KeysOf(frames))
    ensures EvaluateAt(env, env.flags[Awaits(frames[|frames| - 1])], depth + 1, memo).0.reason == Error
    decreases Remaining(depth), 0
  {
    var g := env.flags[Awaits(frames[|frames| - 1])];
    var pushed := frames + [Frame(g, 0)];
    assert KeysOf(pushed) == KeysOf(frames) + {g.key} by {
      assert forall j | 0 <= j < |frames| :: pushed[j] == frames[j];
      assert pushed[|frames|].flag.key == g.key;
    }
    assert g.prerequisites != [];
    assert Stack(env, pushed, memo);
    ReentryStops(env, pushed, depth + 1, memo);
  }

  /** The stack after its top frame got past the prerequisite it awaited. */
  ghost function Moved(frames: seq<Frame>): seq<Frame>
    requires |frames| > 0
  {
    var n := |frames| - 1;
    frames[n := Frame(frames[n].flag, frames[n].index + 1)]
  }

  lemma MovedStack(env: Env, frames: seq<Frame>, memo: Memo, m: Memo)
    requires |frames| > 0 && Stack(env, frames, memo)
    requires Extends(memo, m) && m.Keys !! KeysOf(frames)
    requires var top := frames[|frames| - 1];
      && top.index + 1 < |top.flag.prerequisites| && Awaits(top) in m
      && Verdict(top.flag, top.flag.prerequisites[top.index], m[Awaits(top)]).None?
    ensures Stack(env, Moved(frames), m) && KeysOf(Moved(frames)) == KeysOf(frames)
  {
    var moved := Moved(frames);
    assert forall j | 0 <= j < |frames| :: moved[j].flag == frames[j].flag && frames[j].flag.key in KeysOf(frames);
    forall j | 0 <= j < |frames| ensures InProgress(env, moved[j], m) {
      assert InProgress(env, frames[j], memo);
    }
  }

  /** This prerequisite is fine and the re-entry comes later: move the top frame on. */
  lemma {:induction false} ReentryContinues(env: Env, frames: seq<Frame>, depth: nat, memo: Memo)
    requires KeysMatch(env) && |frames| > 0 && Stack(env, frames, memo)
    requires depth <= MAX_PREREQUISITE_DEPTH && memo.Keys !! KeysOf(frames)
    requires var top := frames[|frames| - 1]; ReentersFrom(env, top.flag, top.index, depth, memo, KeysOf(frames))
    requires var k := Awaits(frames[|frames| - 1]);
      k !in memo ==> k !in KeysOf(frames) && !Reenters(env, env.flags[k], depth + 1, memo, KeysOf(frames))
    ensures var top := frames[|frames| - 1];
      var stopped := PrerequisitesFrom(env, top.flag, top.index, depth, memo).0;
      stopped.Some? && stopped.value.reason == Error
    decreases Remaining(depth), |frames[|frames| - 1].flag.prerequisites| - frames[|frames| - 1].index, 0
  {
    var k := Awaits(frames[|frames| - 1]);
    var (result, m) := Resolve(env, k, depth, memo);
    if k !in memo {
      MemoGrows(env, env.flags[k], depth + 1, memo);
      ActiveStaysOut(env, env.flags[k], depth + 1, memo, KeysOf(frames));
    }
    MovedStack(env, frames, memo, m);
    ReentryStops(env, Moved(frames), depth, m);
  }

  /** Re-entering a flag still being evaluated makes the whole evaluation report Error. */
  lemma CyclesFailLoudly(env: Env, root: Flag)
    requires KeysMatch(env) && Held(env, root)
    requires Reenters(env, root, 0, map[], {})
    ensures Evaluate(env, root).reason == Error
  {
    var frames := [Frame(root, 0)];
    assert KeysOf(frames) == {} + {root.key} by {
      assert frames[0].flag.key == root.key;
    }
    assert root.prerequisites != [];
    ReentryStops(env, frames, 0, map[]);
  }

  /** So no flag on a cycle of enabled flags, each requiring the next first, ever serves a variation. */
  lemma CycleOfFirstsFails(env: Env, cycle: seq<Flag>, j: nat)
    requires j < |cycle|
    requires forall i | 0 <= i < |cycle| :: Held(env, cycle[i]) && cycle[i].enabled && cycle[i].prerequisites != []
    requires forall i | 0 <= i < |cycle| ::
      cycle[i].prerequisites[0].flagKey == cycle[if i + 1 < |cycle| then i + 1 else 0].key
    ensures Evaluate(env, cycle[j]).reason == Error
  {
    var frames := seq(|cycle|, i requires 0 <= i < |cycle| => Frame(cycle[i], 0));
    assert forall i | 0 <= i < |frames| :: frames[i] == Frame(cycle[i], 0);
    CycleFails(env, frames, 0, j, 0, map[]);
  }
}
