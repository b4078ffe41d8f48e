/**
 * The change-tracking store (store.go:8-141), and what its reports promise a listener: as long
 * as a key goes unreported, every read of it still answers the same.
 */
module Store {
  import opened Text
  import opened Models
  import opened Evaluation
  import opened Updates

  datatype Snapshot = Snapshot(flags: map<string, Flag>, segments: map<string, Segment>)

  datatype Op = SetAll(flags: seq<Flag>, segments: seq<Segment>) | SetFlag(flag: Flag) | RemoveFlag(key: string)

  // ---- what each operation does and reports -----------------------------------------

  /** Later entries replace earlier ones under the same key. */
  function FlagMap(flags: seq<Flag>): map<string, Flag> {
    if flags == [] then map[]
    else FlagMap(flags[..|flags| - 1])[flags[|flags| - 1].key := flags[|flags| - 1]]
  }

  function SegmentMap(segments: seq<Segment>): map<string, Segment> {
    if segments == [] then map[]
    else SegmentMap(segments[..|segments| - 1])[segments[|segments| - 1].key := segments[|segments| - 1]]
  }

  function Apply(s: Snapshot, op: Op): Snapshot {
    match op
    case SetAll(flags, segments) => Snapshot(FlagMap(flags), SegmentMap(segments))
    case SetFlag(flag) => s.(flags := s.flags[flag.key := flag])
    case RemoveFlag(key) => s.(flags := s.flags - {key})
  }

  /** flags lists the held flags, in some order. */
  ghost predicate ListsFlags(flags: seq<Flag>, held: map<string, Flag>) {
    (forall f | f in flags :: f.key in held && held[f.key] == f) && (forall k | k in held :: held[k] in flags)
  }

  ghost predicate WellKeyed(s: Snapshot) {
    (forall k | k in s.flags :: s.flags[k].key == k) && (forall k | k in s.segments :: s.segments[k].key == k)
  }

  /** Keys affected by a change to one flag, resolved against what is held afterwards. */
  ghost predicate FanOut(held: map<string, Flag>, key: string, report: set<string>) {
    exists flags :: ListsFlags(flags, held) && report == Affected(flags, {key})
  }

  /** report is what op returns on s. */
  ghost predicate Reports(s: Snapshot, op: Op, report: set<string>) {
    match op
    case SetAll(flags, segments) => report == SnapshotReport(s.flags, s.segments, flags, segments)
    case SetFlag(flag) =>
      if flag.key in s.flags && s.flags[flag.key] == flag then report == {}
      else FanOut(Apply(s, op).flags, flag.key, report)
    case RemoveFlag(key) =>
      if key !in s.flags then report == {} else FanOut(Apply(s, op).flags, key, report)
  }

  // ---- the store as written -----------------------------------------------------------

  class FlagStore {
    var flags: map<string, Flag>
    var segments: map<string, Segment>

    constructor ()
      ensures Held() == Snapshot(map[], map[]) && WellKeyed(Held())
    {
      flags, segments := map[], map[];
    }

    ghost function Held(): Snapshot
      reads this
    {
      Snapshot(flags, segments)
    }

    method SetAll(next: seq<Flag>, nextSegments: seq<Segment>) returns (changed: seq<string>)
      requires WellKeyed(Held())
      modifies this
      ensures WellKeyed(Held()) && Held() == Apply(old(Held()), Op.SetAll(next, nextSegments))
      ensures exists report :: Reports(old(Held()), Op.SetAll(next, nextSegments), report) && SortedListing(changed, report)
    {
      changed := DiffSnapshot(flags, segments, next, nextSegments);
      flags := map[];
      for i := 0 to |next|
        invariant flags == FlagMap(next[..i]) && segments == old(segments)
      {
        flags := flags[next[i].key := next[i]];
        assert next[..i + 1][..i] == next[..i];
      }
      assert next[..|next|] == next;
      segments := map[];
      for i := 0 to |nextSegments|
        invariant segments == SegmentMap(nextSegments[..i]) && flags == FlagMap(next)
      {
        segments := segments[nextSegments[i].key := nextSegments[i]];
        assert nextSegments[..i + 1][..i] == nextSegments[..i];
      }
      assert nextSegments[..|nextSegments|] == nextSegments;
      FlagMapKeys(next);
      SegmentMapKeys(nextSegments);
    }

    method SetFlag(flag: Flag) returns (changed: seq<string>)
      requires WellKeyed(Held())
      modifies this
      ensures WellKeyed(Held()) && Held() == Apply(old(Held()), Op.SetFlag(flag))
      ensures exists report :: Reports(old(Held()), Op.SetFlag(flag), report) && SortedListing(changed, report)
    {
      if flag.key in flags && flags[flag.key] == flag {
        assert SortedListing([], {});
        return [];
      }
      flags := flags[flag.key := flag];
      changed := Dependents(flag.key);
    }

    method RemoveFlag(key: string) returns (changed: seq<string>)
      requires WellKeyed(Held())
      modifies this
      ensures WellKeyed(Held()) && Held() == Apply(old(Held()), Op.RemoveFlag(key))
      ensures exists report :: Reports(old(Held()), Op.RemoveFlag(key), report) && SortedListing(changed, report)
    {
      if key !in flags {
        assert SortedListing([], {});
        assert flags - {key} == flags;
        return [];
      }
      flags := flags - {key};
      changed := Dependents(key);
    }

    /** The shared tail of setFlag and removeFlag: report the key and its dependents. */
    method Dependents(key: string) returns (changed: seq<string>)
      requires WellKeyed(Held())
      ensures exists report :: FanOut(flags, key, report) && SortedListing(changed, report)
    {
      var listed := FlagsSlice();
      var report := AddPrerequisiteDependents(listed, {key});
      assert FanOut(flags, key, report);
      changed := SortedKeys(report);
    }

    method FlagsSlice() returns (listed: seq<Flag>)
      requires WellKeyed(Held())
      ensures ListsFlags(listed, flags)
    {
      listed := [];
      var rest := flags.Keys;
      while rest != {}
        invariant rest <= flags.Keys
        invariant forall f | f in listed :: f.key in flags && flags[f.key] == f
        invariant forall k | k in flags && k !in rest :: flags[k] in listed
        decreases rest
      {
        var k :| k in rest;
        rest := rest - {k};
        listed := listed + [flags[k]];
      }
    }
  }

  // ---- facts about snapshots -------------------------------------------------------------

  lemma {:induction false} FlagMapKeys(flags: seq<Flag>)
    ensures FlagMap(flags).Keys == KeySet(flags)
    ensures forall k | k in FlagMap(flags) :: FlagMap(flags)[k].key == k && FlagMap(flags)[k] in flags
  {
    if flags != [] {
      FlagMapKeys(flags[..|flags| - 1]);
      assert flags == flags[..|flags| - 1] + [flags[|flags| - 1]];
    }
  }

  lemma {:induction false} SegmentMapKeys(segments: seq<Segment>)
    ensures SegmentMap(segments).Keys == SegmentKeySet(segments)
    ensures forall k | k in SegmentMap(segments) :: SegmentMap(segments)[k].key == k && SegmentMap(segments)[k] in segments
  {
    if segments != [] {
      SegmentMapKeys(segments[..|segments| - 1]);
      assert segments == segments[..|segments| - 1] + [segments[|segments| - 1]];
    }
  }

  lemma ApplyKeepsKeys(s: Snapshot, op: Op)
    requires WellKeyed(s)
    ensures WellKeyed(Apply(s, op))
  {
    if op.SetAll? {
      FlagMapKeys(op.flags);
      SegmentMapKeys(op.segments);
    }
  }

  // ---- what an operation leaves behind -----------------------------------------------------

  /** After setFlag its key holds exactly that flag; everything else is as it was. */
  lemma SetFlagLeaves(s: Snapshot, flag: Flag)
    ensures var t := Apply(s, SetFlag(flag));
      && flag.key in t.flags && t.flags[flag.key] == flag
      && (forall k | k != flag.key :: FlagAgrees(s, t, k))
      && (forall k :: SegmentAgrees(s, t, k))
  {
  }

  /** After removeFlag the key holds nothing; everything else is as it was. */
  lemma RemoveFlagLeaves(s: Snapshot, key: string)
    ensures var t := Apply(s, RemoveFlag(key));
      && key !in t.flags
      && (forall k | k != key :: FlagAgrees(s, t, k))
      && (forall k :: SegmentAgrees(s, t, k))
  {
  }

  /** Entry i is the last of the list under its key. */
  ghost predicate LastFlag(flags: seq<Flag>, i: nat) {
    i < |flags| && forall j | i < j < |flags| :: flags[j].key != flags[i].key
  }

  ghost predicate LastSegment(segments: seq<Segment>, i: nat) {
    i < |segments| && forall j | i < j < |segments| :: segments[j].key != segments[i].key
  }

  lemma {:induction false} FlagMapLast(flags: seq<Flag>, i: nat)
    requires LastFlag(flags, i)
    ensures flags[i].key in FlagMap(flags) && FlagMap(flags)[flags[i].key] == flags[i]
  {
    if i < |flags| - 1 {
      assert flags[|flags| - 1].key != flags[i].key;
      FlagMapLast(flags[..|flags| - 1], i);
    }
  }

  lemma {:induction false} SegmentMapLast(segments: seq<Segment>, i: nat)
    requires LastSegment(segments, i)
    ensures segments[i].key in SegmentMap(segments) && SegmentMap(segments)[segments[i].key] == segments[i]
  {
    if i < |segments| - 1 {
      assert segments[|segments| - 1].key != segments[i].key;
      SegmentMapLast(segments[..|segments| - 1], i);
    }
  }

  /**
   * After setAll a key is held exactly when it is listed, with the last entry listed under it,
   * whatever was held before.
   */
  lemma SetAllLeaves(s: Snapshot, flags: seq<Flag>, segments: seq<Segment>)
    ensures var t := Apply(s, SetAll(flags, segments));
      && (forall k :: k in t.flags <==> exists i | 0 <= i < |flags| :: flags[i].key == k)
      && (forall k :: k in t.segments <==> exists i | 0 <= i < |segments| :: segments[i].key == k)
      && (forall i: nat | LastFlag(flags, i) :: t.flags[flags[i].key] == flags[i])
      && (forall i: nat | LastSegment(segments, i) :: t.segments[segments[i].key] == segments[i])
  {
    FlagMapKeys(flags);
    SegmentMapKeys(segments);
    forall i: nat | LastFlag(flags, i) ensures FlagMap(flags)[flags[i].key] == flags[i] {
      FlagMapLast(flags, i);
    }
    forall i: nat | LastSegment(segments, i) ensures SegmentMap(segments)[segments[i].key] == segments[i] {
      SegmentMapLast(segments, i);
    }
  }

  // ---- what two snapshots agree on ------------------------------------------------------------

  ghost predicate SegmentAgrees(a: Snapshot, b: Snapshot, key: string) {
    (key in a.segments <==> key in b.segments) && (key in a.segments ==> a.segments[key] == b.segments[key])
  }

  ghost predicate FlagAgrees(a: Snapshot, b: Snapshot, key: string) {
    (key in a.flags <==> key in b.flags) && (key in a.flags ==> a.flags[key] == b.flags[key])
  }

  /** Nothing an unreported flag itself reads differs: its definition and its segments. */
  ghost predicate OwnAgrees(a: Snapshot, b: Snapshot, key: string) {
    FlagAgrees(a, b, key) && (key in b.flags ==> forall j | 0 <= j < |b.flags[key].rules| ::
      b.flags[key].rules[j].segmentKey == "" || SegmentAgrees(a, b, b.flags[key].rules[j].segmentKey))
  }

  /** No unreported flag declares a reported prerequisite. */
  ghost predicate LinksCovered(s: Snapshot, report: set<string>) {
    forall k, r | k in s.flags && r in report && Declares(s.flags[k], r) :: k in report
  }

  /** The report misses no link through the empty key, the one link the walk does not follow. */
  ghost predicate EmptyKeyCovered(s: Snapshot, report: set<string>) {
    "" in report ==> forall k | k in s.flags && Declares(s.flags[k], "") :: k in report
  }

  // ---- one operation ---------------------------------------------------------------------

  lemma SetAllOwnAgrees(s: Snapshot, flags: seq<Flag>, segments: seq<Segment>, report: set<string>, key: string)
    requires WellKeyed(s) && Reports(s, SetAll(flags, segments), report) && key !in report
    ensures OwnAgrees(s, Apply(s, SetAll(flags, segments)), key)
  {
    var next := Apply(s, SetAll(flags, segments));
    var changedSegments := ChangedSegments(s.segments, segments);
    var seeds := ChangedFlags(s.flags, flags) + SegmentUsers(flags, changedSegments);
    AffectedClosed(flags, seeds);
    FlagMapKeys(flags);
    SegmentMapKeys(segments);
    assert key !in ChangedFlags(s.flags, flags) && key !in SegmentUsers(flags, changedSegments);
    if key in next.flags {
      var f := next.flags[key];
      var i :| 0 <= i < |flags| && flags[i] == f;
      assert !FlagMoved(s.flags, flags[i]);
      assert !UsesSegment(flags[i], changedSegments);
      forall j | 0 <= j < |f.rules| && f.rules[j].segmentKey != ""
        ensures SegmentAgrees(s, next, f.rules[j].segmentKey)
      {
        UnchangedSegmentAgrees(s, segments, f.rules[j].segmentKey);
      }
    }
  }

  lemma UnchangedSegmentAgrees(s: Snapshot, segments: seq<Segment>, key: string)
    requires WellKeyed(s) && key !in ChangedSegments(s.segments, segments)
    ensures key in s.segments <==> key in SegmentMap(segments)
    ensures key in s.segments ==> s.segments[key] == SegmentMap(segments)[key]
  {
    SegmentMapKeys(segments);
    if key in SegmentMap(segments) {
      var i :| 0 <= i < |segments| && segments[i] == SegmentMap(segments)[key];
      assert !SegmentMoved(s.segments, segments[i]);
    }
  }

  lemma ReportOwnAgrees(s: Snapshot, op: Op, report: set<string>, key: string)
    requires WellKeyed(s) && Reports(s, op, report) && key !in report
    ensures OwnAgrees(s, Apply(s, op), key)
  {
    if op.SetAll? {
      SetAllOwnAgrees(s, op.flags, op.segments, report, key);
    } else {
      var target := if op.SetFlag? then op.flag.key else op.key;
      if report != {} || FanOut(Apply(s, op).flags, target, report) {
        FanOutHoldsSeed(s, op, target, report);
      }
    }
  }

  lemma FanOutHoldsSeed(s: Snapshot, op: Op, target: string, report: set<string>)
    requires FanOut(Apply(s, op).flags, target, report)
    ensures target in report
  {
    var flags :| ListsFlags(flags, Apply(s, op).flags) && report == Affected(flags, {target});
    AffectedClosed(flags, {target});
  }

  lemma RequiresListed(flags: seq<Flag>, held: map<string, Flag>, k: string, r: string)
    requires k in held && held[k].key == k && held[k] in flags && r != "" && Declares(held[k], r)
    ensures Requires(flags, k, r)
  {
  }

  lemma NonEmptyLinksCovered(s: Snapshot, op: Op, report: set<string>, k: string, r: string)
    requires WellKeyed(s) && Reports(s, op, report)
    requires k in Apply(s, op).flags && r in report && r != "" && Declares(Apply(s, op).flags[k], r)
    ensures k in report
  {
    var held := Apply(s, op).flags;
    ApplyKeepsKeys(s, op);
    if op.SetAll? {
      FlagMapKeys(op.flags);
      RequiresListed(op.flags, held, k, r);
      var seeds := ChangedFlags(s.flags, op.flags) + SegmentUsers(op.flags, ChangedSegments(s.segments, op.segments));
      AffectedClosed(op.flags, seeds);
    } else {
      var target := if op.SetFlag? then op.flag.key else op.key;
      var flags :| ListsFlags(flags, held) && report == Affected(flags, {target});
      RequiresListed(flags, held, k, r);
      AffectedClosed(flags, {target});
    }
  }

  /**
   * A report follows every prerequisite link of the new snapshot exactly when it follows those
   * through the empty key, which the walk skips and the evaluator looks up.
   */
  lemma LinksCoveredExactly(s: Snapshot, op: Op, report: set<string>)
    requires WellKeyed(s) && Reports(s, op, report)
    ensures LinksCovered(Apply(s, op), report) <==> EmptyKeyCovered(Apply(s, op), report)
  {
    var next := Apply(s, op);
    if EmptyKeyCovered(next, report) {
      forall k, r | k in next.flags && r in report && Declares(next.flags[k], r) ensures k in report {
        if r != "" {
          NonEmptyLinksCovered(s, op, report, k, r);
        }
      }
    }
  }

  /** No held flag declares an empty prerequisite, unless it is held under the empty key itself. */
  predicate NoEmptyLink(s: Snapshot) {
    forall k | k in s.flags && Declares(s.flags[k], "") :: k == ""
  }

  lemma EmptyLinksAside(s: Snapshot, flags: seq<Flag>, seeds: set<string>)
    requires WellKeyed(s) && ListsFlags(flags, s.flags) && NoEmptyLink(s)
    ensures LinksCovered(s, Affected(flags, seeds))
  {
    AffectedClosed(flags, seeds);
    forall k, r | k in s.flags && r in Affected(flags, seeds) && Declares(s.flags[k], r)
      ensures k in Affected(flags, seeds)
    {
      if r != "" {
        RequiresListed(flags, s.flags, k, r);
      }
    }
  }

  lemma EmptyLinkMissed(s: Snapshot, report: set<string>)
    requires LinksCovered(s, report) && report == {""}
    ensures NoEmptyLink(s)
  {
    var r := "";
    assert r in report;
    forall k | k in s.flags && Declares(s.flags[k], r) ensures k == "" {
      assert k in report;
    }
  }

  /**
   * What a snapshot must be like for the walk to follow all its links, whatever changes: exactly
   * when no flag but one under the empty key declares an empty prerequisite.
   */
  lemma WalkFollowsExactly(s: Snapshot, flags: seq<Flag>)
    requires WellKeyed(s) && ListsFlags(flags, s.flags)
    ensures (forall seeds :: LinksCovered(s, Affected(flags, seeds))) <==> NoEmptyLink(s)
  {
    if NoEmptyLink(s) {
      forall seeds ensures LinksCovered(s, Affected(flags, seeds)) {
        EmptyLinksAside(s, flags, seeds);
      }
    } else if forall seeds :: LinksCovered(s, Affected(flags, seeds)) {
      EmptyKeyAffected(flags);
      EmptyLinkMissed(s, Affected(flags, {""}));
    }
  }

  // ---- evaluation does not move ---------------------------------------------------------------

  function EnvOf(lib: Library, ctx: Context, s: Snapshot): Env {
    Env(lib, ctx, s.segments, s.flags)
  }

  /** Outside keys, the two snapshots agree on all an evaluation can come to read. */
  ghost predicate AgreeOutside(a: Snapshot, b: Snapshot, keys: set<string>) {
    (forall k | k !in keys :: OwnAgrees(a, b, k)) && LinksCovered(b, keys)
  }

  lemma {:induction false} RulesUnmoved(x: Env, y: Env, flag: Flag, rules: seq<Rule>, i: nat)
    requires i <= |rules| && x.lib == y.lib && x.ctx == y.ctx
    requires forall j | 0 <= j < |rules| :: RuleMatches(x, rules[j]) == RuleMatches(y, rules[j])
    ensures RulesFrom(x, flag, rules, i) == RulesFrom(y, flag, rules, i)
    decreases |rules| - i
  {
    if i < |rules| {
      RulesUnmoved(x, y, flag, rules, i + 1);
    }
  }

  lemma OwnResultUnmoved(lib: Library, ctx: Context, a: Snapshot, b: Snapshot, k: string)
    requires SortsByPriority(lib.sortRules) && k in b.flags && OwnAgrees(a, b, k)
    ensures OwnResult(EnvOf(lib, ctx, a), b.flags[k]) == OwnResult(EnvOf(lib, ctx, b), b.flags[k])
  {
    var flag := b.flags[k];
    var rules := lib.sortRules(flag.rules);
    assert multiset(rules) == multiset(flag.rules);
    forall j | 0 <= j < |rules|
      ensures RuleMatches(EnvOf(lib, ctx, a), rules[j]) == RuleMatches(EnvOf(lib, ctx, b), rules[j])
    {
      assert rules[j] in multiset(flag.rules);
      var n :| 0 <= n < |flag.rules| && flag.rules[n] == rules[j];
    }
    RulesUnmoved(EnvOf(lib, ctx, a), EnvOf(lib, ctx, b), flag, rules, 0);
  }

  lemma {:induction false} EvaluationUnmoved(lib: Library, ctx: Context, a: Snapshot, b: Snapshot, keys: set<string>,
      k: string, depth: nat, memo: Memo)
    requires SortsByPriority(lib.sortRules) && AgreeOutside(a, b, keys) && k !in keys && k in b.flags
    ensures EvaluateAt(EnvOf(lib, ctx, a), b.flags[k], depth, memo) == EvaluateAt(EnvOf(lib, ctx, b), b.flags[k], depth, memo)
    decreases Remaining(depth), 1
  {
    if depth <= MAX_PREREQUISITE_DEPTH && b.flags[k].enabled {
      PrerequisitesUnmoved(lib, ctx, a, b, keys, k, 0, depth, memo);
      OwnResultUnmoved(lib, ctx, a, b, k);
    }
  }

  lemma {:induction false} PrerequisitesUnmoved(lib: Library, ctx: Context, a: Snapshot, b: Snapshot, keys: set<string>,
      k: string, i: nat, depth: nat, memo: Memo)
    requires SortsByPriority(lib.sortRules) && AgreeOutside(a, b, keys) && k !in keys && k in b.flags
    requires i <= |b.flags[k].prerequisites| && depth <= MAX_PREREQUISITE_DEPTH
    ensures PrerequisitesFrom(EnvOf(lib, ctx, a), b.flags[k], i, depth, memo)
      == PrerequisitesFrom(EnvOf(lib, ctx, b), b.flags[k], i, depth, memo)
    decreases Remaining(depth), 0, |b.flags[k].prerequisites| - i
  {
    var flag := b.flags[k];
    if i < |flag.prerequisites| {
      var r := flag.prerequisites[i].flagKey;
      assert Declares(flag, r);
      assert r !in keys && FlagAgrees(a, b, r);
      if r in b.flags {
        EvaluationUnmoved(lib, ctx, a, b, keys, r, depth + 1, memo);
      }
      if r in memo || r in b.flags {
        PrerequisitesUnmoved(lib, ctx, a, b, keys, k, i + 1, depth, Resolve(EnvOf(lib, ctx, b), r, depth, memo).1);
      }
    }
  }

  lemma ReportAgrees(s: Snapshot, op: Op, report: set<string>)
    requires WellKeyed(s) && Reports(s, op, report) && EmptyKeyCovered(Apply(s, op), report)
    ensures AgreeOutside(s, Apply(s, op), report)
  {
    LinksCoveredExactly(s, op, report);
    forall k | k !in report ensures OwnAgrees(s, Apply(s, op), k) {
      ReportOwnAgrees(s, op, report, k);
    }
  }

  /**
   * No operation under-reports: a key it leaves out is held before iff after, and reading it
   * answers the same, detail and all, for every context.
   */
  lemma NeverUnderReports(lib: Library, ctx: Context, s: Snapshot, op: Op, report: set<string>, key: string,
      defaultValue: Option<string>)
    requires SortsByPriority(lib.sortRules) && WellKeyed(s) && Reports(s, op, report)
    requires EmptyKeyCovered(Apply(s, op), report) && key !in report
    ensures key in s.flags <==> key in Apply(s, op).flags
    ensures EvaluateFlag(EnvOf(lib, ctx, s), key, defaultValue) == EvaluateFlag(EnvOf(lib, ctx, Apply(s, op)), key, defaultValue)
  {
    ReportAgrees(s, op, report);
    assert OwnAgrees(s, Apply(s, op), key);
    if key in s.flags {
      EvaluationUnmoved(lib, ctx, s, Apply(s, op), report, key, 0, map[]);
    }
  }

  // ---- whole runs ------------------------------------------------------------------------------

  ghost function Run(s: Snapshot, ops: seq<Op>): Snapshot
    decreases |ops|
  {
    if ops == [] then s else Run(Apply(s, ops[0]), ops[1..])
  }

  /** reports[i] is what ops[i] returns in the run from s. */
  ghost predicate RunReports(s: Snapshot, ops: seq<Op>, reports: seq<set<string>>)
    decreases |ops|
  {
    |reports| == |ops| &&
    (ops != [] ==> Reports(s, ops[0], reports[0]) && RunReports(Apply(s, ops[0]), ops[1..], reports[1..]))
  }

  predicate NoEmptyKey(op: Op) {
    match op
    case SetAll(flags, _) => "" !in KeySet(flags)
    case SetFlag(flag) => flag.key != ""
    case RemoveFlag(_) => true
  }

  lemma AffectedAmong(flags: seq<Flag>, seeds: set<string>, key: string)
    requires key !in KeySet(flags) && key !in seeds
    ensures key !in Affected(flags, seeds)
  {
  }

  lemma ListedKey(flags: seq<Flag>, held: map<string, Flag>, key: string)
    requires ListsFlags(flags, held) && key !in held
    ensures key !in KeySet(flags)
  {
  }

  lemma NoEmptyKeyCoveredSetAll(s: Snapshot, flags: seq<Flag>, segments: seq<Segment>)
    requires "" !in s.flags && "" !in KeySet(flags)
    ensures "" !in FlagMap(flags) && "" !in SnapshotReport(s.flags, s.segments, flags, segments)
  {
    FlagMapKeys(flags);
    var seeds := ChangedFlags(s.flags, flags) + SegmentUsers(flags, ChangedSegments(s.segments, segments));
    AffectedAmong(flags, seeds, "");
  }

  lemma NoEmptyKeyCovered(s: Snapshot, op: Op, report: set<string>)
    requires WellKeyed(s) && Reports(s, op, report) && "" !in s.flags && NoEmptyKey(op)
    ensures "" !in Apply(s, op).flags && "" !in report
  {
    if op.SetAll? {
      NoEmptyKeyCoveredSetAll(s, op.flags, op.segments);
    } else if report != {} {
      var target := if op.SetFlag? then op.flag.key else op.key;
      var flags :| ListsFlags(flags, Apply(s, op).flags) && report == Affected(flags, {target});
      ListedKey(flags, Apply(s, op).flags, "");
      AffectedAmong(flags, {target}, "");
    }
  }

  /**
   * What a caller can check before the call: the snapshot it leads to has no link through the
   * empty key, or there is no flag under it, before and after.
   */
  predicate Followed(s: Snapshot, op: Op) {
    NoEmptyLink(Apply(s, op)) || ("" !in s.flags && NoEmptyKey(op))
  }

  lemma FollowedCovers(s: Snapshot, op: Op, report: set<string>)
    requires WellKeyed(s) && Reports(s, op, report) && Followed(s, op)
    ensures EmptyKeyCovered(Apply(s, op), report)
  {
    if !NoEmptyLink(Apply(s, op)) {
      NoEmptyKeyCovered(s, op, report);
    }
  }

  predicate AllFollowed(s: Snapshot, ops: seq<Op>)
    decreases |ops|
  {
    ops != [] ==> Followed(s, ops[0]) && AllFollowed(Apply(s, ops[0]), ops[1..])
  }

  /** In particular when no flag with an empty key is ever held. */
  lemma {:induction false} NoEmptyKeysFollowed(s: Snapshot, ops: seq<Op>)
    requires "" !in s.flags && forall i | 0 <= i < |ops| :: NoEmptyKey(ops[i])
    ensures AllFollowed(s, ops)
    decreases |ops|
  {
    if ops != [] {
      if ops[0].SetAll? {
        FlagMapKeys(ops[0].flags);
      }
      NoEmptyKeysFollowed(Apply(s, ops[0]), ops[1..]);
    }
  }

  /**
   * Over any run of store operations, a value read at the start is still right at the end unless
   * some operation in between reported its key.
   */
  lemma {:induction false} UnreportedNeverMoves(lib: Library, ctx: Context, s: Snapshot, ops: seq<Op>,
      reports: seq<set<string>>, key: string, defaultValue: Option<string>)
    requires SortsByPriority(lib.sortRules) && WellKeyed(s) && RunReports(s, ops, reports) && AllFollowed(s, ops)
    requires forall i | 0 <= i < |reports| :: key !in reports[i]
    ensures key in s.flags <==> key in Run(s, ops).flags
    ensures EvaluateFlag(EnvOf(lib, ctx, s), key, defaultValue) == EvaluateFlag(EnvOf(lib, ctx, Run(s, ops)), key, defaultValue)
    decreases |ops|
  {
    if ops != [] {
      FollowedCovers(s, ops[0], reports[0]);
      NeverUnderReports(lib, ctx, s, ops[0], reports[0], key, defaultValue);
      ApplyKeepsKeys(s, ops[0]);
      UnreportedNeverMoves(lib, ctx, Apply(s, ops[0]), ops[1..], reports[1..], key, defaultValue);
    }
  }

  // ---- the empty key -----------------------------------------------------------------------------

  const ON := Variation("on", "true")
  const OFF := Variation("off", "false")

  function Plainly(key: string, prerequisites: seq<Prerequisite>): Flag {
    Flag(key, 1, "Boolean", true, [ON, OFF], [], ServeConfig("Fixed", "on", "", "", []), "off", prerequisites)
  }

  /** Dropping the flag under the empty key moves a dependent nobody is told about. */
  lemma EmptyKeyUnderReports(lib: Library, ctx: Context)
    requires SortsByPriority(lib.sortRules)
    ensures var dependent := Plainly("a", [Prerequisite("", "on")]);
      var s := Apply(Snapshot(map[], map[]), SetAll([Plainly("", []), dependent], []));
      var op := SetAll([dependent], []);
      && Reports(s, op, {""})
      && EvaluateFlag(EnvOf(lib, ctx, s), "a", None).reason == Fallthrough
      && EvaluateFlag(EnvOf(lib, ctx, Apply(s, op)), "a", None).reason == PrerequisiteFailed
  {
    var base, dependent := Plainly("", []), Plainly("a", [Prerequisite("", "on")]);
    var s := Apply(Snapshot(map[], map[]), SetAll([base, dependent], []));
    var next := Apply(s, SetAll([dependent], []));
    OneFlag(base);
    OneFlag(dependent);
    assert [base, dependent][..1] == [base];
    assert s.flags == map["" := base, "a" := dependent] && next.flags == map["a" := dependent];
    EmptyKeyReport(base, dependent, s);
    EmptyKeyReads(EnvOf(lib, ctx, s), EnvOf(lib, ctx, next), base, dependent);
  }

  lemma OneFlag(flag: Flag)
    ensures FlagMap([flag]) == map[flag.key := flag]
  {
    assert [flag][..0] == [] && FlagMap([]) == map[];
  }

  lemma EmptyKeyReport(base: Flag, dependent: Flag, s: Snapshot)
    requires base == Plainly("", []) && dependent == Plainly("a", [Prerequisite("", "on")])
    requires s == Snapshot(map["" := base, "a" := dependent], map[])
    ensures Reports(s, SetAll([dependent], []), {""})
  {
    var next := [dependent];
    EmptyKeyChanged(s.flags, next);
    FlagsOnlyReport(s.flags, next, {""});
    EmptyKeyAffected(next);
  }

  lemma FlagsOnlyReport(previous: map<string, Flag>, next: seq<Flag>, seeds: set<string>)
    requires ChangedFlags(previous, next) == seeds
    ensures SnapshotReport(previous, map[], next, []) == Affected(next, seeds)
  {
    assert ChangedSegments(map[], []) == {} && SegmentUsers(next, {}) == {};
    assert seeds + {} == seeds;
  }

  lemma EmptyKeyChanged(previous: map<string, Flag>, next: seq<Flag>)
    requires |next| == 1 && next[0].key == "a" && previous.Keys == {"", "a"} && previous["a"] == next[0]
    ensures ChangedFlags(previous, next) == {""}
  {
    assert KeySet(next) == {"a"} by {
      assert next[0].key in KeySet(next);
    }
    assert previous.Keys - {"a"} == {""};
  }

  /** The walk has nowhere to go from the empty key. */
  lemma EmptyKeyAffected(flags: seq<Flag>)
    ensures Affected(flags, {""}) == {""}
  {
    AffectedClosed(flags, {""});
    assert Closed(flags, {""});
    AffectedLeast(flags, {""}, {""});
  }

  lemma EmptyKeyReads(before: Env, after: Env, base: Flag, dependent: Flag)
    requires base == Plainly("", []) && dependent == Plainly("a", [Prerequisite("", "on")])
    requires SortsByPriority(before.lib.sortRules) && SortsByPriority(after.lib.sortRules)
    requires before.flags == map["" := base, "a" := dependent] && after.flags == map["a" := dependent]
    ensures EvaluateFlag(before, "a", None).reason == Fallthrough
    ensures EvaluateFlag(after, "a", None).reason == PrerequisiteFailed
  {
    assert base.variations[0].key == "on" && base.variations[1].key == "off";
    PlainlyServesOn(before, "", []);
    PlainlyServesOn(before, "a", [Prerequisite("", "on")]);
    assert EvaluateAt(before, base, 1, map[]).0.variation == "on" by {
      assert PrerequisitesFrom(before, base, 0, 1, map[]) == (None, map[]);
    }
    assert Resolve(before, "", 0, map[]).0.variation == "on";
    assert PrerequisitesFrom(before, dependent, 1, 0, Resolve(before, "", 0, map[]).1).0 == None;
    assert PrerequisitesFrom(after, dependent, 0, 0, map[]).0 == Some(ServeOff(dependent, PrerequisiteFailed, ""));
  }

  lemma PlainlyServesOn(env: Env, key: string, prerequisites: seq<Prerequisite>)
    requires SortsByPriority(env.lib.sortRules)
    ensures OwnResult(env, Plainly(key, prerequisites)) == Detail(Some("true"), "on", Fallthrough, "", "")
  {
    var flag := Plainly(key, prerequisites);
    assert flag.variations[0].key == "on";
    assert multiset(env.lib.sortRules([])) == multiset([]);
    assert |env.lib.sortRules([])| == |multiset(env.lib.sortRules([]))|;
  }

  // ---- no noise, no dependence on map order ---------------------------------------------------

  /** A list without two entries under one key. */
  ghost predicate Distinct(flags: seq<Flag>) {
    forall i, j | 0 <= i < j < |flags| :: flags[i].key != flags[j].key
  }

  ghost predicate DistinctSegments(segments: seq<Segment>) {
    forall i, j | 0 <= i < j < |segments| :: segments[i].key != segments[j].key
  }

  lemma DistinctHeld(flags: seq<Flag>, i: nat)
    requires Distinct(flags) && i < |flags|
    ensures flags[i].key in FlagMap(flags) && FlagMap(flags)[flags[i].key] == flags[i]
  {
    FlagMapLast(flags, i);
  }

  lemma DistinctSegmentHeld(segments: seq<Segment>, i: nat)
    requires DistinctSegments(segments) && i < |segments|
    ensures segments[i].key in SegmentMap(segments) && SegmentMap(segments)[segments[i].key] == segments[i]
  {
    SegmentMapLast(segments, i);
  }

  /**
   * For lists without duplicate keys the diff calls a flag, or a segment, changed exactly when the
   * snapshots before and after do not agree on it.
   */
  lemma ChangedExactly(s: Snapshot, flags: seq<Flag>, segments: seq<Segment>, key: string)
    requires Distinct(flags) && DistinctSegments(segments)
    ensures var t := Apply(s, SetAll(flags, segments));
      && (key in ChangedFlags(s.flags, flags) <==> !FlagAgrees(s, t, key))
      && (key in ChangedSegments(s.segments, segments) <==> !SegmentAgrees(s, t, key))
  {
    FlagMapKeys(flags);
    SegmentMapKeys(segments);
    forall i | 0 <= i < |flags| ensures FlagMap(flags)[flags[i].key] == flags[i] {
      DistinctHeld(flags, i);
    }
    forall i | 0 <= i < |segments| ensures SegmentMap(segments)[segments[i].key] == segments[i] {
      DistinctSegmentHeld(segments, i);
    }
  }

  /** A refresh that reports nothing left every flag as it was. */
  lemma SilentMeansSame(s: Snapshot, op: Op)
    requires WellKeyed(s) && Reports(s, op, {})
    ensures Apply(s, op).flags == s.flags
  {
    var next := Apply(s, op);
    forall k | k in s.flags || k in next.flags
      ensures k in s.flags && k in next.flags && s.flags[k] == next.flags[k]
    {
      ReportOwnAgrees(s, op, {}, k);
    }
  }

  /** Re-fetching what is already held reports nothing. */
  lemma RefreshIsSilent(s: Snapshot, flags: seq<Flag>, segments: seq<Segment>)
    requires ListsFlags(flags, s.flags) && WellKeyed(s)
    requires forall g | g in segments :: g.key in s.segments && s.segments[g.key] == g
    requires forall k | k in s.segments :: s.segments[k] in segments
    ensures Reports(s, SetAll(flags, segments), {})
  {
    assert ChangedFlags(s.flags, flags) == {} by {
      forall k | k in s.flags ensures k in KeySet(flags) {
        assert s.flags[k] in flags;
      }
    }
    assert ChangedSegments(s.segments, segments) == {} by {
      forall k | k in s.segments ensures k in SegmentKeySet(segments) {
        assert s.segments[k] in segments;
      }
    }
    assert SegmentUsers(flags, {}) == {};
    NothingChanged(flags);
  }

  lemma AffectedIgnoresOrder(a: seq<Flag>, b: seq<Flag>, seeds: set<string>)
    requires forall f :: f in a <==> f in b
    ensures Affected(a, seeds) <= Affected(b, seeds)
  {
    AffectedClosed(b, seeds);
    forall k, r | r in Affected(b, seeds) && Requires(a, k, r) ensures k in Affected(b, seeds) {
      var i :| 0 <= i < |a| && a[i].key == k && Declares(a[i], r);
      assert a[i] in b;
    }
    AffectedLeast(a, seeds, Affected(b, seeds));
  }

  /** What an operation reports does not depend on the order Go's maps iterate in. */
  lemma ReportIsUnique(s: Snapshot, op: Op, x: set<string>, y: set<string>)
    requires Reports(s, op, x) && Reports(s, op, y)
    ensures x == y
  {
    if !op.SetAll? && x != y {
      var held := Apply(s, op).flags;
      var target := if op.SetFlag? then op.flag.key else op.key;
      var a :| ListsFlags(a, held) && x == Affected(a, {target});
      var b :| ListsFlags(b, held) && y == Affected(b, {target});
      AffectedIgnoresOrder(a, b, {target});
      AffectedIgnoresOrder(b, a, {target});
    }
  }

  // ---- exactly what is reported ------------------------------------------------------------------

  lemma ListingsAgree(a: seq<Flag>, b: seq<Flag>, held: map<string, Flag>, seeds: set<string>)
    requires ListsFlags(a, held) && ListsFlags(b, held)
    ensures Affected(a, seeds) == Affected(b, seeds)
  {
    AffectedIgnoresOrder(a, b, seeds);
    AffectedIgnoresOrder(b, a, seeds);
  }

  function Target(op: Op): string
    requires !op.SetAll?
  {
    if op.SetFlag? then op.flag.key else op.key
  }

  lemma DeltaChanges(s: Snapshot, op: Op)
    requires !op.SetAll?
    ensures Apply(s, op) == s <==> if op.SetFlag? then op.flag.key in s.flags && s.flags[op.flag.key] == op.flag else op.key !in s.flags
  {
    if op.SetFlag? {
      if op.flag.key in s.flags && s.flags[op.flag.key] == op.flag {
        assert s.flags[op.flag.key := op.flag] == s.flags;
      }
    } else if op.key !in s.flags {
      assert s.flags - {op.key} == s.flags;
    }
  }

  /**
   * setFlag and removeFlag report nothing when they change nothing, and otherwise exactly the key
   * and the keys that depend on it in what is held afterwards.
   */
  lemma DeltaReportsExactly(s: Snapshot, op: Op, report: set<string>, flags: seq<Flag>, key: string)
    requires !op.SetAll? && Reports(s, op, report) && ListsFlags(flags, Apply(s, op).flags)
    ensures key in report <==> Apply(s, op) != s && Reaches(flags, key, {Target(op)})
  {
    DeltaChanges(s, op);
    if Apply(s, op) != s {
      var listed :| ListsFlags(listed, Apply(s, op).flags) && report == Affected(listed, {Target(op)});
      ListingsAgree(listed, flags, Apply(s, op).flags, {Target(op)});
      AffectedExact(flags, key, {Target(op)});
    }
  }

  /** Two snapshots disagree on a flag, or on a segment the flag of the second names in a rule. */
  ghost predicate Moved(a: Snapshot, b: Snapshot, flags: seq<Flag>, key: string) {
    || !FlagAgrees(a, b, key)
    || exists i, j | 0 <= i < |flags| && 0 <= j < |flags[i].rules| ::
         flags[i].key == key && flags[i].rules[j].segmentKey != "" && !SegmentAgrees(a, b, flags[i].rules[j].segmentKey)
  }

  lemma SeedsAreMoved(s: Snapshot, flags: seq<Flag>, segments: seq<Segment>, key: string)
    requires Distinct(flags) && DistinctSegments(segments)
    ensures key in ChangedFlags(s.flags, flags) + SegmentUsers(flags, ChangedSegments(s.segments, segments))
      <==> Moved(s, Apply(s, SetAll(flags, segments)), flags, key)
  {
    var changed := ChangedSegments(s.segments, segments);
    var t := Apply(s, SetAll(flags, segments));
    forall k ensures k in changed <==> !SegmentAgrees(s, t, k) {
      ChangedExactly(s, flags, segments, k);
    }
    ChangedExactly(s, flags, segments, key);
    if key in SegmentUsers(flags, changed) {
      var i :| 0 <= i < |flags| && UsesSegment(flags[i], changed) && flags[i].key == key;
      var j :| 0 <= j < |flags[i].rules| && flags[i].rules[j].segmentKey != "" && flags[i].rules[j].segmentKey in changed;
    }
    if exists i, j | 0 <= i < |flags| && 0 <= j < |flags[i].rules| ::
         flags[i].key == key && flags[i].rules[j].segmentKey != "" && !SegmentAgrees(s, t, flags[i].rules[j].segmentKey) {
      var i, j :| 0 <= i < |flags| && 0 <= j < |flags[i].rules|
        && flags[i].key == key && flags[i].rules[j].segmentKey != "" && !SegmentAgrees(s, t, flags[i].rules[j].segmentKey);
      assert UsesSegment(flags[i], changed);
    }
  }

  lemma ReachesOne(flags: seq<Flag>, key: string, seeds: set<string>)
    ensures Reaches(flags, key, seeds) <==> exists seed :: seed in seeds && Reaches(flags, key, {seed})
  {
    if Reaches(flags, key, seeds) {
      var path :| Walk(flags, path) && path[0] == key && path[|path| - 1] in seeds;
      assert path[|path| - 1] in {path[|path| - 1]} && Reaches(flags, key, {path[|path| - 1]});
    }
    if exists seed :: seed in seeds && Reaches(flags, key, {seed}) {
      var seed :| seed in seeds && Reaches(flags, key, {seed});
      var path :| Walk(flags, path) && path[0] == key && path[|path| - 1] in {seed};
    }
  }

  /** setAll reports exactly the keys that moved and the keys that depend on one of those. */
  lemma SetAllReportsExactly(s: Snapshot, flags: seq<Flag>, segments: seq<Segment>, report: set<string>, key: string)
    requires Distinct(flags) && DistinctSegments(segments) && Reports(s, SetAll(flags, segments), report)
    ensures key in report <==>
      exists seed :: Moved(s, Apply(s, SetAll(flags, segments)), flags, seed) && Reaches(flags, key, {seed})
  {
    var seeds := ChangedFlags(s.flags, flags) + SegmentUsers(flags, ChangedSegments(s.segments, segments));
    AffectedExact(flags, key, seeds);
    ReachesOne(flags, key, seeds);
    forall seed ensures seed in seeds <==> Moved(s, Apply(s, SetAll(flags, segments)), flags, seed) {
      SeedsAreMoved(s, flags, segments, seed);
    }
  }
}
