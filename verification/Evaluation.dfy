/** Local flag evaluation (evaluation.go:28-243), and the read path over one snapshot (featureflip.go:388-409). */
module Evaluation {
  import opened Text
  import opened Models
  import opened Bucketing

  const MAX_PREREQUISITE_DEPTH := 10

  /** Code evaluation relies on but does not define: the hash, condition matching and the sort. */
  datatype Library = Library(
    md5: Md5,
    matches: (seq<Condition>, string, Context) -> bool,
    sortRules: seq<Rule> -> seq<Rule>)

  /** Everything an evaluation reads: a context and one snapshot of the store. */
  datatype Env = Env(lib: Library, ctx: Context, segments: map<string, Segment>, flags: map<string, Flag>)

  type Memo = map<string, Detail>

  // ---- serving a variation -----------------------------------------------------

  predicate VariationExists(vs: seq<Variation>, key: string) {
    exists i | 0 <= i < |vs| :: vs[i].key == key
  }

  function ValueFrom(vs: seq<Variation>, key: string, i: nat): Option<string>
    requires i <= |vs|
    decreases |vs| - i
  {
    if i == |vs| then None else if vs[i].key == key then Some(vs[i].value) else ValueFrom(vs, key, i + 1)
  }

  /** The value of the first variation with that key. */
  function VariationValue(vs: seq<Variation>, key: string): Option<string> {
    ValueFrom(vs, key, 0)
  }

  function ServeOff(flag: Flag, reason: Reason, prerequisiteKey: string): Detail {
    if VariationExists(flag.variations, flag.offVariation) then
      Detail(VariationValue(flag.variations, flag.offVariation), flag.offVariation, reason, "", prerequisiteKey)
    else Detail(None, flag.offVariation, Error, "", "")
  }

  /** A rule's or the fallthrough's variation; a key the flag does not define is malformed config. */
  function Served(flag: Flag, key: string, reason: Reason, ruleId: string): Detail {
    if VariationExists(flag.variations, key) then
      Detail(VariationValue(flag.variations, key), key, reason, ruleId, "")
    else Detail(None, key, Error, "", "")
  }

  // ---- rules -----------------------------------------------------------------------

  predicate RuleMatches(env: Env, rule: Rule) {
    if rule.segmentKey != "" then
      rule.segmentKey in env.segments &&
      var seg := env.segments[rule.segmentKey];
      env.lib.matches(seg.conditions, seg.conditionLogic, env.ctx)
    else
      forall i | 0 <= i < |rule.conditionGroups| ::
        env.lib.matches(rule.conditionGroups[i].conditions, rule.conditionGroups[i].operator, env.ctx)
  }

  function FallthroughResult(env: Env, flag: Flag): Detail {
    match Serve(env.lib.md5, flag.fallthrough, env.ctx)
    case Some(key) => Served(flag, key, Fallthrough, "")
    case None => Served(flag, flag.fallthrough.variation, Fallthrough, "")
  }

  /** The first rule from i on that matches and can bucket the context, else the fallthrough. */
  function RulesFrom(env: Env, flag: Flag, rules: seq<Rule>, i: nat): Detail
    requires i <= |rules|
    decreases |rules| - i
  {
    if i == |rules| then FallthroughResult(env, flag)
    else if RuleMatches(env, rules[i]) && Serve(env.lib.md5, rules[i].serve, env.ctx).Some? then
      Served(flag, Serve(env.lib.md5, rules[i].serve, env.ctx).value, RuleMatch, rules[i].id)
    else RulesFrom(env, flag, rules, i + 1)
  }

  function OwnResult(env: Env, flag: Flag): Detail {
    RulesFrom(env, flag, env.lib.sortRules(flag.rules), 0)
  }

  // ---- prerequisites ------------------------------------------------------------------

  /** What a prerequisite's result means for the flag that declares it: None lets it go on. */
  function Verdict(flag: Flag, p: Prerequisite, result: Detail): Option<Detail> {
    if result.reason == Error then Some(ServeOff(flag, Error, ""))
    else if result.variation != p.expectedVariation then Some(ServeOff(flag, PrerequisiteFailed, p.flagKey))
    else None
  }

  function Remaining(depth: nat): nat {
    if depth > MAX_PREREQUISITE_DEPTH then 0 else MAX_PREREQUISITE_DEPTH + 1 - depth
  }

  /** evaluateInternal on values: the detail and the memo it leaves. */
  function EvaluateAt(env: Env, flag: Flag, depth: nat, memo: Memo): (Detail, Memo)
    decreases Remaining(depth), 2
  {
    if depth > MAX_PREREQUISITE_DEPTH then (ServeOff(flag, Error, ""), memo)
    else if !flag.enabled then (ServeOff(flag, FlagDisabled, ""), memo)
    else
      var (blocked, m) := PrerequisitesFrom(env, flag, 0, depth, memo);
      var r := if blocked.Some? then blocked.value else OwnResult(env, flag);
      (r, m[flag.key := r])
  }

  /** The prerequisite loop from index i on: the result that stops the flag, if any. */
  function PrerequisitesFrom(env: Env, flag: Flag, i: nat, depth: nat, memo: Memo): (Option<Detail>, Memo)
    requires i <= |flag.prerequisites| && depth <= MAX_PREREQUISITE_DEPTH
    decreases Remaining(depth), 1, |flag.prerequisites| - i
  {
    if i == |flag.prerequisites| then (None, memo)
    else
      var p := flag.prerequisites[i];
      if p.flagKey !in memo && p.flagKey !in env.flags then
        (Some(ServeOff(flag, PrerequisiteFailed, p.flagKey)), memo)
      else
        var (result, m) := Resolve(env, p.flagKey, depth, memo);
        var verdict := Verdict(flag, p, result);
        if verdict.Some? then (verdict, m) else PrerequisitesFrom(env, flag, i + 1, depth, m)
  }

  /** A prerequisite's result, from the memo or computed and recorded. */
  function Resolve(env: Env, key: string, depth: nat, memo: Memo): (Detail, Memo)
    requires (key in memo || key in env.flags) && depth <= MAX_PREREQUISITE_DEPTH
    decreases Remaining(depth), 0
  {
    if key in memo then (memo[key], memo)
    else
      var (result, m) := EvaluateAt(env, env.flags[key], depth + 1, memo);
      (result, m[key := result])
  }

  function Evaluate(env: Env, flag: Flag): Detail {
    EvaluateAt(env, flag, 0, map[]).0
  }

  /** evaluateFlag over one snapshot. */
  function EvaluateFlag(env: Env, key: string, defaultValue: Option<string>): Detail {
    if key !in env.flags then Detail(defaultValue, "", FlagNotFound, "", "")
    else
      var flag := env.flags[key];
      var detail := Evaluate(env, flag);
      if detail.variation != "" && !VariationExists(flag.variations, detail.variation)
      then detail.(reason := Error)
      else detail
  }

  // ---- the evaluator as written: one memo, updated in place -----------------------------

  class MemoTable {
    var entries: Memo

    constructor ()
      ensures entries == map[]
    {
      entries := map[];
    }
  }

  method EvaluateInternal(env: Env, flag: Flag, depth: nat, memo: MemoTable) returns (r: Detail)
    modifies memo
    ensures (r, memo.entries) == EvaluateAt(env, flag, depth, old(memo.entries))
    decreases Remaining(depth)
  {
    if depth > MAX_PREREQUISITE_DEPTH {
      return ServeOff(flag, Error, "");
    }
    if !flag.enabled {
      return ServeOff(flag, FlagDisabled, "");
    }
    for i := 0 to |flag.prerequisites|
      invariant PrerequisitesFrom(env, flag, 0, depth, old(memo.entries))
        == PrerequisitesFrom(env, flag, i, depth, memo.entries)
    {
      var p := flag.prerequisites[i];
      var result: Detail;
      if p.flagKey in memo.entries {
        result := memo.entries[p.flagKey];
      } else {
        if p.flagKey !in env.flags {
          r := ServeOff(flag, PrerequisiteFailed, p.flagKey);
          memo.entries := memo.entries[flag.key := r];
          return;
        }
        result := EvaluateInternal(env, env.flags[p.flagKey], depth + 1, memo);
        memo.entries := memo.entries[p.flagKey := result];
      }
      if result.reason == Error {
        r := ServeOff(flag, Error, "");
        memo.entries := memo.entries[flag.key := r];
        return;
      }
      if result.variation != p.expectedVariation {
        r := ServeOff(flag, PrerequisiteFailed, p.flagKey);
        memo.entries := memo.entries[flag.key := r];
        return;
      }
    }
    r := ApplyRules(env, flag);
    memo.entries := memo.entries[flag.key := r];
  }

  /** The sorted-rules loop and the fallthrough. */
  method ApplyRules(env: Env, flag: Flag) returns (r: Detail)
    ensures r == OwnResult(env, flag)
  {
    var rules := env.lib.sortRules(flag.rules);
    for i := 0 to |rules|
      invariant OwnResult(env, flag) == RulesFrom(env, flag, rules, i)
    {
      if RuleMatches(env, rules[i]) {
        var key := ResolveServe(env.lib.md5, rules[i].serve, env.ctx);
        if key.Some? {
          return Served(flag, key.value, RuleMatch, rules[i].id);
        }
      }
    }
    var key := ResolveServe(env.lib.md5, flag.fallthrough, env.ctx);
    r := Served(flag, if key.Some? then key.value else flag.fallthrough.variation, Fallthrough, "");
  }

  /** evaluate: a fresh memo for one read. */
  method EvaluateOnce(env: Env, flag: Flag) returns (r: Detail)
    ensures r == Evaluate(env, flag)
  {
    var memo := new MemoTable();
    r := EvaluateInternal(env, flag, 0, memo);
  }

  // ---- what a result promises -------------------------------------------------------------

  /** Any result but Error names a variation the flag defines and carries that variation's value. */
  ghost predicate WellServed(flag: Flag, r: Detail) {
    r.reason != Error ==>
      VariationExists(flag.variations, r.variation) && r.value == VariationValue(flag.variations, r.variation)
  }

  lemma {:induction false} RulesWellServed(env: Env, flag: Flag, rules: seq<Rule>, i: nat)
    requires i <= |rules|
    ensures WellServed(flag, RulesFrom(env, flag, rules, i))
    decreases |rules| - i
  {
    if i < |rules| {
      RulesWellServed(env, flag, rules, i + 1);
    }
  }

  lemma {:induction false} PrerequisitesWellServed(env: Env, flag: Flag, i: nat, depth: nat, memo: Memo)
    requires i <= |flag.prerequisites| && depth <= MAX_PREREQUISITE_DEPTH
    ensures var blocked := PrerequisitesFrom(env, flag, i, depth, memo).0;
      blocked.Some? ==> WellServed(flag, blocked.value)
    decreases |flag.prerequisites| - i
  {
    if i < |flag.prerequisites| {
      var p := flag.prerequisites[i];
      if p.flagKey in memo || p.flagKey in env.flags {
        PrerequisitesWellServed(env, flag, i + 1, depth, Resolve(env, p.flagKey, depth, memo).1);
      }
    }
  }

  /** No memo, however wrong, makes an evaluation serve a variation the flag does not define. */
  lemma EvaluationWellServed(env: Env, flag: Flag, depth: nat, memo: Memo)
    ensures WellServed(flag, EvaluateAt(env, flag, depth, memo).0)
  {
    if depth <= MAX_PREREQUISITE_DEPTH && flag.enabled {
      PrerequisitesWellServed(env, flag, 0, depth, memo);
      RulesWellServed(env, flag, env.lib.sortRules(flag.rules), 0);
    }
  }

  /** The read path's own malformed-config check never changes what the evaluator reported. */
  lemma ReadPathCheckIsRedundant(env: Env, key: string, defaultValue: Option<string>)
    requires key in env.flags
    ensures EvaluateFlag(env, key, defaultValue) == Evaluate(env, env.flags[key])
  {
    EvaluationWellServed(env, env.flags[key], 0, map[]);
  }

  // ---- which rule decides ------------------------------------------------------------------

  ghost predicate SortsByPriority(sort: seq<Rule> -> seq<Rule>) {
    forall rules :: multiset(sort(rules)) == multiset(rules) && Ascending(sort(rules))
  }

  ghost predicate Ascending(rules: seq<Rule>) {
    forall i, j | 0 <= i < j < |rules| :: rules[i].priority <= rules[j].priority
  }

  /** A rule that matches and can bucket the context. */
  ghost predicate Applies(env: Env, rule: Rule) {
    RuleMatches(env, rule) && Serve(env.lib.md5, rule.serve, env.ctx).Some?
  }

  /** An applicable rule of the flag that no applicable rule outranks. */
  ghost predicate Decides(env: Env, flag: Flag, rule: Rule) {
    && rule in flag.rules && Applies(env, rule)
    && forall other | other in flag.rules && Applies(env, other) :: rule.priority <= other.priority
  }

  function ByRule(env: Env, flag: Flag, rule: Rule): Detail
    requires Serve(env.lib.md5, rule.serve, env.ctx).Some?
  {
    Served(flag, Serve(env.lib.md5, rule.serve, env.ctx).value, RuleMatch, rule.id)
  }

  lemma {:induction false} FirstApplicable(env: Env, flag: Flag, rules: seq<Rule>, i: nat) returns (k: nat)
    requires i <= |rules|
    ensures i <= k <= |rules| && (forall j | i <= j < k :: !Applies(env, rules[j]))
    ensures k < |rules| ==> Applies(env, rules[k]) && RulesFrom(env, flag, rules, i) == ByRule(env, flag, rules[k])
    ensures k == |rules| ==> RulesFrom(env, flag, rules, i) == FallthroughResult(env, flag)
    decreases |rules| - i
  {
    if i < |rules| && !Applies(env, rules[i]) {
      k := FirstApplicable(env, flag, rules, i + 1);
    } else {
      k := i;
    }
  }

  /**
   * Whatever priority sort is used, the result comes from an applicable rule of least priority,
   * and from the fallthrough exactly when no rule applies.
   */
  lemma RuleChoice(env: Env, flag: Flag)
    requires SortsByPriority(env.lib.sortRules)
    ensures if exists rule :: rule in flag.rules && Applies(env, rule)
      then exists rule :: Decides(env, flag, rule) && OwnResult(env, flag) == ByRule(env, flag, rule)
      else OwnResult(env, flag) == FallthroughResult(env, flag)
  {
    var rules := env.lib.sortRules(flag.rules);
    assert multiset(rules) == multiset(flag.rules) && Ascending(rules);
    forall rule ensures rule in flag.rules <==> rule in rules {
      assert rule in flag.rules <==> rule in multiset(flag.rules);
      assert rule in rules <==> rule in multiset(rules);
    }
    var k := FirstApplicable(env, flag, rules, 0);
    if k < |rules| {
      assert Decides(env, flag, rules[k]);
    }
  }
}
