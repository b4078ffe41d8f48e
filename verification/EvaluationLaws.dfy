/**
 * What a detail says (evaluation.go:14-27, 41-163), told without the functions that compute it:
 * which variation is served, with which value, for which reason.
 */
module EvaluationLaws {
  import opened Bucketing
  import opened Evaluation
  import opened Models
  import opened Prerequisites
  import opened Text

  // ---- serving a variation ------------------------------------------------------------

  /** value is that of the first variation under key. */
  ghost predicate HasValue(flag: Flag, key: string, value: Option<string>) {
    exists i | 0 <= i < |flag.variations| ::
      && flag.variations[i].key == key && value == Some(flag.variations[i].value)
      && forall j | 0 <= j < i :: flag.variations[j].key != key
  }

  ghost predicate Defines(flag: Flag, key: string) {
    exists i | 0 <= i < |flag.variations| :: flag.variations[i].key == key
  }

  /**
   * The detail serves key for that reason. A key the flag does not define is malformed: reported
   * as an error, with the key and neither value, rule nor prerequisite.
   */
  ghost predicate Serves(r: Detail, flag: Flag, key: string, reason: Reason, ruleId: string, prerequisiteKey: string) {
    && r.variation == key
    && if Defines(flag, key)
       then HasValue(flag, key, r.value) && r.reason == reason && r.ruleId == ruleId && r.prerequisiteKey == prerequisiteKey
       else r.value == None && r.reason == Error && r.ruleId == "" && r.prerequisiteKey == ""
  }

  /** The detail serves the off variation. */
  ghost predicate ServesOff(r: Detail, flag: Flag, reason: Reason, prerequisiteKey: string) {
    Serves(r, flag, flag.offVariation, reason, "", prerequisiteKey)
  }

  lemma {:induction false} ValueFromFirst(flag: Flag, key: string, i: nat)
    requires i <= |flag.variations| && Defines(flag, key)
    requires forall j | 0 <= j < i :: flag.variations[j].key != key
    ensures HasValue(flag, key, ValueFrom(flag.variations, key, i))
    decreases |flag.variations| - i
  {
    if i < |flag.variations| && flag.variations[i].key != key {
      ValueFromFirst(flag, key, i + 1);
    }
  }

  lemma OffIsServed(flag: Flag, reason: Reason, prerequisiteKey: string)
    ensures ServesOff(ServeOff(flag, reason, prerequisiteKey), flag, reason, prerequisiteKey)
  {
    if Defines(flag, flag.offVariation) {
      ValueFromFirst(flag, flag.offVariation, 0);
    }
  }

  lemma KeyIsServed(flag: Flag, key: string, reason: Reason, ruleId: string)
    ensures Serves(Served(flag, key, reason, ruleId), flag, key, reason, ruleId, "")
  {
    if Defines(flag, key) {
      ValueFromFirst(flag, key, 0);
    }
  }

  // ---- before the rules -----------------------------------------------------------------------

  /** Whatever the memo: past the cap any flag serves off as an error, up to it a disabled one as disabled. */
  lemma CutShort(env: Env, flag: Flag, depth: nat, memo: Memo)
    ensures depth > MAX_PREREQUISITE_DEPTH ==> ServesOff(EvaluateAt(env, flag, depth, memo).0, flag, Error, "")
    ensures depth <= MAX_PREREQUISITE_DEPTH && !flag.enabled ==>
      ServesOff(EvaluateAt(env, flag, depth, memo).0, flag, FlagDisabled, "")
  {
    OffIsServed(flag, Error, "");
    OffIsServed(flag, FlagDisabled, "");
  }

  /** The detail serves off because of one of the flag's prerequisites. */
  ghost predicate Blocked(r: Detail, flag: Flag) {
    || ServesOff(r, flag, Error, "")
    || exists i | 0 <= i < |flag.prerequisites| :: ServesOff(r, flag, PrerequisiteFailed, flag.prerequisites[i].flagKey)
  }

  /** On every graph, at every depth and from every memo, a flag its prerequisites stop serves off. */
  lemma {:induction false} BlockedServesOff(env: Env, flag: Flag, i: nat, depth: nat, memo: Memo)
    requires i <= |flag.prerequisites| && depth <= MAX_PREREQUISITE_DEPTH
    ensures var stopped := PrerequisitesFrom(env, flag, i, depth, memo).0;
      stopped.Some? ==> Blocked(stopped.value, flag)
    decreases |flag.prerequisites| - i
  {
    if i < |flag.prerequisites| {
      var p := flag.prerequisites[i];
      OffIsServed(flag, Error, "");
      OffIsServed(flag, PrerequisiteFailed, p.flagKey);
      if p.flagKey in memo || p.flagKey in env.flags {
        BlockedServesOff(env, flag, i + 1, depth, Resolve(env, p.flagKey, depth, memo).1);
      }
    }
  }

  // ---- the rules -----------------------------------------------------------------------------------

  /** The context is who the rule is for: inside its segment, or else in all of its groups. */
  ghost predicate Targets(env: Env, rule: Rule) {
    if rule.segmentKey == "" then
      forall g | g in rule.conditionGroups :: env.lib.matches(g.conditions, g.operator, env.ctx)
    else
      rule.segmentKey in env.segments &&
      env.lib.matches(env.segments[rule.segmentKey].conditions, env.segments[rule.segmentKey].conditionLogic, env.ctx)
  }

  lemma TargetsIsMatch(env: Env, rule: Rule)
    ensures Targets(env, rule) <==> RuleMatches(env, rule)
  {
    if rule.segmentKey == "" && RuleMatches(env, rule) {
      forall g | g in rule.conditionGroups ensures env.lib.matches(g.conditions, g.operator, env.ctx) {
        var i :| 0 <= i < |rule.conditionGroups| && rule.conditionGroups[i] == g;
      }
    }
  }

  /** The rule targets the context and serves it key. */
  ghost predicate Offers(env: Env, rule: Rule, key: string) {
    Targets(env, rule) && Serve(env.lib.md5, rule.serve, env.ctx) == Some(key)
  }

  /** rule offers key, and no rule of the flag with a lower priority offers anything. */
  ghost predicate FirstOffer(env: Env, flag: Flag, rule: Rule, key: string) {
    && rule in flag.rules && Offers(env, rule, key)
    && forall other, k | other in flag.rules && Offers(env, other, k) :: rule.priority <= other.priority
  }

  /** What the fallthrough serves: its bucket, or its own variation to a context it cannot bucket. */
  function FallthroughKey(env: Env, flag: Flag): string {
    match Serve(env.lib.md5, flag.fallthrough, env.ctx)
    case Some(key) => key
    case None => flag.fallthrough.variation
  }

  ghost predicate SomeOffer(env: Env, flag: Flag) {
    exists rule, key :: rule in flag.rules && Offers(env, rule, key)
  }

  ghost predicate ServesByRules(env: Env, flag: Flag, r: Detail) {
    if SomeOffer(env, flag)
    then exists rule, key :: FirstOffer(env, flag, rule, key) && Serves(r, flag, key, RuleMatch, rule.id, "")
    else Serves(r, flag, FallthroughKey(env, flag), Fallthrough, "", "")
  }

  lemma OffersApplies(env: Env, rule: Rule)
    ensures Applies(env, rule) <==> exists key :: Offers(env, rule, key)
  {
    TargetsIsMatch(env, rule);
    if Applies(env, rule) {
      assert Offers(env, rule, Serve(env.lib.md5, rule.serve, env.ctx).value);
    }
  }

  lemma DecidesIsFirst(env: Env, flag: Flag, rule: Rule)
    requires Decides(env, flag, rule)
    ensures FirstOffer(env, flag, rule, Serve(env.lib.md5, rule.serve, env.ctx).value)
  {
    TargetsIsMatch(env, rule);
    forall other, k | other in flag.rules && Offers(env, other, k) ensures rule.priority <= other.priority {
      OffersApplies(env, other);
    }
  }

  /** The flag's own result, with any priority sort. */
  lemma RulesServe(env: Env, flag: Flag)
    requires SortsByPriority(env.lib.sortRules)
    ensures ServesByRules(env, flag, OwnResult(env, flag))
  {
    RuleChoice(env, flag);
    if exists rule :: rule in flag.rules && Applies(env, rule) {
      var applicable :| applicable in flag.rules && Applies(env, applicable);
      OffersApplies(env, applicable);
      var rule :| Decides(env, flag, rule) && OwnResult(env, flag) == ByRule(env, flag, rule);
      DecidesIsFirst(env, flag, rule);
      KeyIsServed(flag, Serve(env.lib.md5, rule.serve, env.ctx).value, RuleMatch, rule.id);
    } else {
      NoOffer(env, flag);
      KeyIsServed(flag, FallthroughKey(env, flag), Fallthrough, "");
    }
  }

  lemma NoOffer(env: Env, flag: Flag)
    requires forall rule | rule in flag.rules :: !Applies(env, rule)
    ensures !SomeOffer(env, flag)
  {
    forall rule, key | rule in flag.rules ensures !Offers(env, rule, key) {
      OffersApplies(env, rule);
    }
  }

  /** On every graph, at every depth and from every memo: cut short, blocked, or served by the rules. */
  lemma EvaluationServes(env: Env, flag: Flag, depth: nat, memo: Memo)
    requires SortsByPriority(env.lib.sortRules)
    ensures var r := EvaluateAt(env, flag, depth, memo).0;
      if depth > MAX_PREREQUISITE_DEPTH then ServesOff(r, flag, Error, "")
      else if !flag.enabled then ServesOff(r, flag, FlagDisabled, "")
      else Blocked(r, flag) || ServesByRules(env, flag, r)
  {
    CutShort(env, flag, depth, memo);
    if depth <= MAX_PREREQUISITE_DEPTH && flag.enabled {
      BlockedServesOff(env, flag, 0, depth, memo);
      RulesServe(env, flag);
    }
  }

  // ---- the whole evaluation ---------------------------------------------------------------------------

  /** The first prerequisite of the flag that, evaluated on its own, is not satisfied. */
  ghost predicate FirstFailure(env: Env, flag: Flag, i: nat) {
    && i < |flag.prerequisites| && !Satisfied(env, flag.prerequisites[i])
    && forall j | 0 <= j < i :: Satisfied(env, flag.prerequisites[j])
  }

  /** It is an error itself, rather than missing or serving another variation. */
  ghost predicate FailsByError(env: Env, p: Prerequisite) {
    p.flagKey in env.flags && Evaluate(env, env.flags[p.flagKey]).reason == Error
  }

  /** The algorithm, step by step, as its documentation tells it. */
  ghost predicate Explains(env: Env, flag: Flag, r: Detail) {
    if !flag.enabled then ServesOff(r, flag, FlagDisabled, "")
    else if exists i: nat :: FirstFailure(env, flag, i) then
      exists i: nat :: FirstFailure(env, flag, i) &&
        if FailsByError(env, flag.prerequisites[i]) then ServesOff(r, flag, Error, "")
        else ServesOff(r, flag, PrerequisiteFailed, flag.prerequisites[i].flagKey)
    else ServesByRules(env, flag, r)
  }

  lemma {:induction false} FindFailure(env: Env, flag: Flag, i: nat) returns (k: nat)
    requires i <= |flag.prerequisites| && forall j | 0 <= j < i :: Satisfied(env, flag.prerequisites[j])
    ensures k <= |flag.prerequisites| && forall j | 0 <= j < k :: Satisfied(env, flag.prerequisites[j])
    ensures k < |flag.prerequisites| ==> FirstFailure(env, flag, k)
    decreases |flag.prerequisites| - i
  {
    if i < |flag.prerequisites| && Satisfied(env, flag.prerequisites[i]) {
      k := FindFailure(env, flag, i + 1);
    } else {
      k := i;
    }
  }

  lemma FailureExplained(env: Env, flag: Flag, k: nat)
    requires KeysMatch(env) && ChainsFit(env, flag, MAX_PREREQUISITE_DEPTH) && flag.enabled && FirstFailure(env, flag, k)
    ensures Explains(env, flag, Evaluate(env, flag))
  {
    PrerequisitesDecide(env, flag, k);
    OffIsServed(flag, Error, "");
    OffIsServed(flag, PrerequisiteFailed, flag.prerequisites[k].flagKey);
  }

  /** Every evaluation of a flag whose chains fit the cap is explained, detail and all, by the documented algorithm. */
  lemma EvaluationExplained(env: Env, flag: Flag)
    requires SortsByPriority(env.lib.sortRules) && KeysMatch(env) && ChainsFit(env, flag, MAX_PREREQUISITE_DEPTH)
    ensures Explains(env, flag, Evaluate(env, flag))
  {
    CutShort(env, flag, 0, map[]);
    if flag.enabled {
      var k := FindFailure(env, flag, 0);
      if k < |flag.prerequisites| {
        FailureExplained(env, flag, k);
      } else {
        PrerequisitesDecide(env, flag, k);
        RulesServe(env, flag);
      }
    }
  }

  /** Explained is determined: apart from a tie of rules at one priority there is only one such detail. */
  lemma ServesOnce(a: Detail, b: Detail, flag: Flag, key: string, reason: Reason, ruleId: string, prerequisiteKey: string)
    requires Serves(a, flag, key, reason, ruleId, prerequisiteKey) && Serves(b, flag, key, reason, ruleId, prerequisiteKey)
    ensures a == b
  {
    if Defines(flag, key) {
      var i :| 0 <= i < |flag.variations| && flag.variations[i].key == key && a.value == Some(flag.variations[i].value)
        && forall j | 0 <= j < i :: flag.variations[j].key != key;
      var j :| 0 <= j < |flag.variations| && flag.variations[j].key == key && b.value == Some(flag.variations[j].value)
        && forall k | 0 <= k < j :: flag.variations[k].key != key;
      assert i == j;
    }
  }

  /** A read of a key the store does not hold answers the caller's default. */
  lemma UnknownAnswersDefault(env: Env, key: string, defaultValue: Option<string>)
    requires key !in env.flags
    ensures var r := EvaluateFlag(env, key, defaultValue);
      r.value == defaultValue && r.reason == FlagNotFound && r.variation == "" && r.ruleId == "" && r.prerequisiteKey == ""
  {
  }

  /** A read of a held flag is explained like its evaluation. */
  lemma ReadExplained(env: Env, key: string, defaultValue: Option<string>)
    requires SortsByPriority(env.lib.sortRules) && KeysMatch(env)
    requires key in env.flags && ChainsFit(env, env.flags[key], MAX_PREREQUISITE_DEPTH)
    ensures Explains(env, env.flags[key], EvaluateFlag(env, key, defaultValue))
  {
    ReadPathCheckIsRedundant(env, key, defaultValue);
    EvaluationExplained(env, env.flags[key]);
  }
}
