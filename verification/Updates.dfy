/** Which flag keys a configuration change reports (updates.go:16-168). */
module Updates {
  import opened Text
  import opened Models

  // ---- what has to be reported ----------------------------------------------------

  /** A held flag under key declares required as a prerequisite; empty keys are not followed. */
  ghost predicate Requires(flags: seq<Flag>, key: string, required: string) {
    required != "" &&
    exists i | 0 <= i < |flags| :: flags[i].key == key && Declares(flags[i], required)
  }

  predicate Declares(flag: Flag, required: string) {
    exists j | 0 <= j < |flag.prerequisites| :: flag.prerequisites[j].flagKey == required
  }

  /** A walk along prerequisite links from its first key to its last. */
  ghost predicate Walk(flags: seq<Flag>, path: seq<string>) {
    |path| > 0 && forall i | 0 <= i && i + 1 < |path| :: Requires(flags, path[i], path[i + 1])
  }

  /** key depends, through any number of links, on one of the seeds. */
  ghost predicate Reaches(flags: seq<Flag>, key: string, seeds: set<string>) {
    exists path :: Walk(flags, path) && path[0] == key && path[|path| - 1] in seeds
  }

  ghost predicate Closed(flags: seq<Flag>, keys: set<string>) {
    forall k, r | r in keys && Requires(flags, k, r) :: k in keys
  }

  lemma SeedReaches(flags: seq<Flag>, key: string, seeds: set<string>)
    requires key in seeds
    ensures Reaches(flags, key, seeds)
  {
    assert Walk(flags, [key]);
  }

  lemma LinkReaches(flags: seq<Flag>, key: string, required: string, seeds: set<string>)
    requires Requires(flags, key, required) && Reaches(flags, required, seeds)
    ensures Reaches(flags, key, seeds)
  {
    var path :| Walk(flags, path) && path[0] == required && path[|path| - 1] in seeds;
    assert Walk(flags, [key] + path);
  }

  lemma {:induction false} WalkStaysInside(flags: seq<Flag>, path: seq<string>, keys: set<string>)
    requires Walk(flags, path) && Closed(flags, keys) && path[|path| - 1] in keys
    ensures path[0] in keys
  {
    if |path| > 1 {
      assert Requires(flags, path[0], path[1]);
      assert Walk(flags, path[1..]) by {
        forall i | 0 <= i && i + 1 < |path| - 1 ensures Requires(flags, path[1..][i], path[1..][i + 1]) {
          assert Requires(flags, path[i + 1], path[i + 2]);
        }
      }
      WalkStaysInside(flags, path[1..], keys);
    }
  }

  function KeySet(flags: seq<Flag>): set<string> {
    set i | 0 <= i < |flags| :: flags[i].key
  }

  /** The seeds and every key that reaches one. */
  ghost function Affected(flags: seq<Flag>, seeds: set<string>): set<string> {
    set k | k in KeySet(flags) + seeds && Reaches(flags, k, seeds)
  }

  lemma AffectedExact(flags: seq<Flag>, key: string, seeds: set<string>)
    ensures key in Affected(flags, seeds) <==> Reaches(flags, key, seeds)
  {
    if Reaches(flags, key, seeds) {
      var path :| Walk(flags, path) && path[0] == key && path[|path| - 1] in seeds;
      if |path| > 1 {
        assert Requires(flags, path[0], path[1]);
      }
    }
  }

  lemma AffectedClosed(flags: seq<Flag>, seeds: set<string>)
    ensures seeds <= Affected(flags, seeds) && Closed(flags, Affected(flags, seeds))
  {
    forall k | k in seeds ensures k in Affected(flags, seeds) {
      SeedReaches(flags, k, seeds);
    }
    forall k, r | r in Affected(flags, seeds) && Requires(flags, k, r) ensures k in Affected(flags, seeds) {
      LinkReaches(flags, k, r, seeds);
      AffectedExact(flags, k, seeds);
    }
  }

  /** Nothing smaller will do: every closed set over the seeds holds all affected keys. */
  lemma AffectedLeast(flags: seq<Flag>, seeds: set<string>, keys: set<string>)
    requires seeds <= keys && Closed(flags, keys)
    ensures Affected(flags, seeds) <= keys
  {
    forall k | k in Affected(flags, seeds) ensures k in keys {
      var path :| Walk(flags, path) && path[0] == k && path[|path| - 1] in seeds;
      WalkStaysInside(flags, path, keys);
    }
  }

  // ---- the worklist walk ---------------------------------------------------------------

  type Dependents = map<string, seq<string>>

  predicate Lists(dependents: Dependents, k: string, r: string) {
    r in dependents && k in dependents[r]
  }

  /** dependents maps each non-empty prerequisite key to the flags declaring it. */
  ghost predicate Indexes(dependents: Dependents, flags: seq<Flag>) {
    forall k, r :: Lists(dependents, k, r) <==> Requires(flags, k, r)
  }

  predicate DeclaresUpTo(flag: Flag, required: string, m: nat)
    requires m <= |flag.prerequisites|
  {
    exists j | 0 <= j < m :: flag.prerequisites[j].flagKey == required
  }

  /** Flags before n, and the first m prerequisites of flag n, are in the index. */
  ghost predicate IndexesUpTo(dependents: Dependents, flags: seq<Flag>, n: nat, m: nat)
    requires n < |flags| && m <= |flags[n].prerequisites|
  {
    forall k, r :: Lists(dependents, k, r) <==>
      Requires(flags[..n], k, r) || (r != "" && k == flags[n].key && DeclaresUpTo(flags[n], r, m))
  }

  lemma RequiresOneMore(flags: seq<Flag>, n: nat, k: string, r: string)
    requires n < |flags|
    ensures Requires(flags[..n + 1], k, r) <==>
      Requires(flags[..n], k, r) || (r != "" && flags[n].key == k && Declares(flags[n], r))
  {
    var longer, shorter := flags[..n + 1], flags[..n];
    assert forall i | 0 <= i < n :: longer[i] == shorter[i];
    assert longer[n] == flags[n];
  }

  lemma IndexFlag(dependents: Dependents, flags: seq<Flag>, n: nat)
    requires n < |flags| && IndexesUpTo(dependents, flags, n, |flags[n].prerequisites|)
    ensures Indexes(dependents, flags[..n + 1])
  {
    forall k, r ensures Lists(dependents, k, r) <==> Requires(flags[..n + 1], k, r) {
      RequiresOneMore(flags, n, k, r);
      assert DeclaresUpTo(flags[n], r, |flags[n].prerequisites|) <==> Declares(flags[n], r);
    }
  }

  lemma IndexStart(dependents: Dependents, flags: seq<Flag>, n: nat)
    requires n < |flags| && Indexes(dependents, flags[..n])
    ensures IndexesUpTo(dependents, flags, n, 0)
  {
    forall k, r ensures Lists(dependents, k, r) <==>
        Requires(flags[..n], k, r) || (r != "" && k == flags[n].key && DeclaresUpTo(flags[n], r, 0)) {
      assert Lists(dependents, k, r) <==> Requires(flags[..n], k, r);
    }
  }

  lemma IndexOneMore(before: Dependents, after: Dependents, flags: seq<Flag>, n: nat, m: nat)
    requires n < |flags| && m < |flags[n].prerequisites| && IndexesUpTo(before, flags, n, m)
    requires var key := flags[n].prerequisites[m].flagKey;
      after == if key == "" then before
        else before[key := (if key in before then before[key] else []) + [flags[n].key]]
    ensures IndexesUpTo(after, flags, n, m + 1)
  {
    var flag := flags[n];
    var key := flag.prerequisites[m].flagKey;
    forall k, r ensures Lists(after, k, r) <==>
        Requires(flags[..n], k, r) || (r != "" && k == flag.key && DeclaresUpTo(flag, r, m + 1)) {
      assert DeclaresUpTo(flag, r, m + 1) <==> DeclaresUpTo(flag, r, m) || key == r;
      assert Lists(before, k, r) <==>
        Requires(flags[..n], k, r) || (r != "" && k == flag.key && DeclaresUpTo(flag, r, m));
      assert Lists(after, k, r) <==> Lists(before, k, r) || (r == key && key != "" && k == flag.key);
    }
  }

  method BuildDependents(flags: seq<Flag>) returns (dependents: Dependents)
    ensures Indexes(dependents, flags)
  {
    dependents := map[];
    for n := 0 to |flags|
      invariant Indexes(dependents, flags[..n])
    {
      var flag := flags[n];
      IndexStart(dependents, flags, n);
      for m := 0 to |flag.prerequisites|
        invariant IndexesUpTo(dependents, flags, n, m)
      {
        var key := flag.prerequisites[m].flagKey;
        ghost var before := dependents;
        if key != "" {
          var known := if key in dependents then dependents[key] else [];
          dependents := dependents[key := known + [flag.key]];
        }
        IndexOneMore(before, dependents, flags, n, m);
      }
      IndexFlag(dependents, flags, n);
    }
    assert flags[..|flags|] == flags;
  }

  /**
   * The walk so far: only affected keys are reported, and every dependent of a reported key is
   * reported too unless the key is still queued or open.
   */
  ghost predicate Walking(flags: seq<Flag>, affected: set<string>, changed: set<string>, queue: seq<string>, open: set<string>) {
    && changed <= affected
    && (forall q | q in queue :: q in changed)
    && (forall k, r | Requires(flags, k, r) && r in changed && r !in queue && r !in open :: k in changed)
  }

  lemma WalkPops(flags: seq<Flag>, affected: set<string>, changed: set<string>, queue: seq<string>)
    requires |queue| > 0 && Walking(flags, affected, changed, queue, {})
    ensures Walking(flags, affected, changed, queue[..|queue| - 1], {queue[|queue| - 1]})
  {
    var n := |queue| - 1;
    assert queue == queue[..n] + [queue[n]];
  }

  lemma WalkReports(flags: seq<Flag>, affected: set<string>, changed: set<string>, queue: seq<string>, key: string, dependent: string)
    requires Walking(flags, affected, changed, queue, {key}) && dependent in affected
    ensures Walking(flags, affected, changed + {dependent}, queue + [dependent], {key})
  {
    var longer := queue + [dependent];
    assert forall q | q in queue :: q in longer;
    assert dependent in longer;
  }

  lemma WalkCloses(flags: seq<Flag>, affected: set<string>, changed: set<string>, queue: seq<string>, key: string)
    requires Walking(flags, affected, changed, queue, {key})
    requires forall k | Requires(flags, k, key) :: k in changed
    ensures Walking(flags, affected, changed, queue, {})
  {
  }

  lemma FoundAreDependents(flags: seq<Flag>, dependents: Dependents, key: string, found: seq<string>)
    requires Indexes(dependents, flags) && found == if key in dependents then dependents[key] else []
    ensures forall k :: k in found <==> Requires(flags, k, key)
  {
    forall k ensures k in found <==> Requires(flags, k, key) {
      assert Lists(dependents, k, key) <==> Requires(flags, k, key);
    }
  }

  lemma NothingListed(flags: seq<Flag>, dependents: Dependents, seeds: set<string>)
    requires Indexes(dependents, flags) && dependents == map[]
    ensures Affected(flags, seeds) == seeds
  {
    AffectedClosed(flags, seeds);
    assert forall k, r :: !Lists(dependents, k, r);
    AffectedLeast(flags, seeds, seeds);
  }

  lemma NothingChanged(flags: seq<Flag>)
    ensures Affected(flags, {}) == {}
  {
    AffectedLeast(flags, {}, {});
  }

  /**
   * addPrerequisiteDependents: terminates on every graph, cycles included, and yields the seeds
   * plus every key that reaches one.
   */
  method AddPrerequisiteDependents(flags: seq<Flag>, seeds: set<string>) returns (changed: set<string>)
    ensures changed == Affected(flags, seeds)
  {
    changed := seeds;
    ghost var affected := Affected(flags, seeds);
    AffectedClosed(flags, seeds);
    if changed == {} {
      NothingChanged(flags);
      return;
    }
    var dependents := BuildDependents(flags);
    if dependents == map[] {
      NothingListed(flags, dependents, seeds);
      return;
    }
    var queue := Enumerate(changed);
    while |queue| > 0
      invariant seeds <= changed && Walking(flags, affected, changed, queue, {})
      decreases affected - changed, |queue|
    {
      var key := queue[|queue| - 1];
      WalkPops(flags, affected, changed, queue);
      queue := queue[..|queue| - 1];
      var found := if key in dependents then dependents[key] else [];
      FoundAreDependents(flags, dependents, key, found);
      changed, queue := ReportDependents(flags, affected, key, found, changed, queue);
    }
    AffectedLeast(flags, seeds, changed);
  }

  /** The inner loop: report and push the dependents of one key that were not seen yet. */
  method ReportDependents(flags: seq<Flag>, ghost affected: set<string>, key: string, found: seq<string>,
      changed0: set<string>, queue0: seq<string>)
    returns (changed: set<string>, queue: seq<string>)
    requires Closed(flags, affected) && forall k :: k in found <==> Requires(flags, k, key)
    requires key in changed0 && Walking(flags, affected, changed0, queue0, {key})
    ensures changed0 <= changed && Walking(flags, affected, changed, queue, {})
    ensures changed == changed0 ==> queue == queue0
  {
    changed, queue := changed0, queue0;
    for i := 0 to |found|
      invariant changed0 <= changed && Walking(flags, affected, changed, queue, {key})
      invariant forall j | 0 <= j < i :: found[j] in changed
      invariant changed == changed0 ==> queue == queue0
    {
      var dependent := found[i];
      if dependent !in changed {
        assert Requires(flags, dependent, key);
        WalkReports(flags, affected, changed, queue, key, dependent);
        changed := changed + {dependent};
        queue := queue + [dependent];
      }
    }
    WalkCloses(flags, affected, changed, queue, key);
  }

  /** The keys of a set in some order: Go's map iteration. */
  method Enumerate(keys: set<string>) returns (listed: seq<string>)
    ensures forall k :: k in listed <==> k in keys
    ensures |listed| == |keys|
  {
    listed := [];
    var rest := keys;
    while rest != {}
      invariant rest <= keys
      invariant forall k :: k in listed <==> k in keys && k !in rest
      invariant |listed| + |rest| == |keys|
      decreases rest
    {
      var k :| k in rest;
      rest := rest - {k};
      listed := listed + [k];
    }
  }

  // ---- sorted report ---------------------------------------------------------------------

  ghost predicate StrictlyAscending(keys: seq<string>) {
    forall i, j | 0 <= i < j < |keys| :: Less(keys[i], keys[j])
  }

  /** keys lists the set once each, in byte order: there is only one such list. */
  ghost predicate SortedListing(keys: seq<string>, all: set<string>) {
    StrictlyAscending(keys) && forall k :: k in keys <==> k in all
  }

  lemma EmptyListing(a: seq<string>, all: set<string>)
    requires SortedListing(a, all)
    ensures a == [] <==> all == {}
  {
    if a == [] {
      assert forall k :: k in all <==> k in a;
    } else {
      assert a[0] in all;
    }
  }

  lemma {:induction false} SortedListingUnique(a: seq<string>, b: seq<string>, all: set<string>)
    requires SortedListing(a, all) && SortedListing(b, all)
    ensures a == b
  {
    EmptyListing(a, all);
    EmptyListing(b, all);
    if a != [] {
      assert a[0] in b && b[0] in a by {
        assert a[0] in all && b[0] in all;
      }
      var i :| 0 <= i < |b| && b[i] == a[0];
      var j :| 0 <= j < |a| && a[j] == b[0];
      CompareAntisymmetric(a[0], b[0]);
      assert a[0] == b[0];
      DropFirst(a, all);
      DropFirst(b, all);
      SortedListingUnique(a[1..], b[1..], all - {a[0]});
      assert a == [a[0]] + a[1..] && b == [b[0]] + b[1..];
    }
  }

  lemma DropFirst(a: seq<string>, all: set<string>)
    requires SortedListing(a, all) && a != []
    ensures SortedListing(a[1..], all - {a[0]})
  {
    CompareAntisymmetric(a[0], a[0]);
    forall k ensures k in a[1..] <==> k in all - {a[0]} {
      if k in a[1..] {
        var i :| 0 <= i < |a| - 1 && a[1..][i] == k;
        assert Less(a[0], a[i + 1]);
      }
    }
  }

  /** Where k belongs in an ascending list. */
  function Position(keys: seq<string>, k: string, i: nat): (p: nat)
    requires i <= |keys|
    ensures i <= p <= |keys|
    ensures forall j | i <= j < p :: Less(keys[j], k)
    ensures p < |keys| ==> !Less(keys[p], k)
    decreases |keys| - i
  {
    if i < |keys| && Less(keys[i], k) then Position(keys, k, i + 1) else i
  }

  lemma InsertKeepsOrder(keys: seq<string>, k: string)
    requires StrictlyAscending(keys) && k !in keys
    ensures var p := Position(keys, k, 0); StrictlyAscending(keys[..p] + [k] + keys[p..])
  {
    var p := Position(keys, k, 0);
    forall j | p <= j < |keys| ensures Less(k, keys[j]) {
      CompareAntisymmetric(keys[p], k);
      if p < j {
        LessTransitive(k, keys[p], keys[j]);
      }
    }
  }

  /** sortedKeys: the set's keys in byte order, whatever order the map iterated in. */
  method SortedKeys(keys: set<string>) returns (sorted: seq<string>)
    ensures SortedListing(sorted, keys)
  {
    sorted := [];
    var listed := Enumerate(keys);
    for i := 0 to |listed|
      invariant StrictlyAscending(sorted)
      invariant forall k :: k in sorted <==> k in listed[..i]
    {
      var k := listed[i];
      if k !in sorted {
        InsertKeepsOrder(sorted, k);
        var p := Position(sorted, k, 0);
        assert sorted == sorted[..p] + sorted[p..];
        sorted := sorted[..p] + [k] + sorted[p..];
      }
      assert listed[..i + 1] == listed[..i] + [k];
    }
    assert listed[..|listed|] == listed;
  }

  // ---- the difference of two snapshots -----------------------------------------------------

  predicate FlagMoved(previous: map<string, Flag>, flag: Flag) {
    flag.key !in previous || previous[flag.key] != flag
  }

  predicate SegmentMoved(previous: map<string, Segment>, segment: Segment) {
    segment.key !in previous || previous[segment.key] != segment
  }

  function SegmentKeySet(segments: seq<Segment>): set<string> {
    set i | 0 <= i < |segments| :: segments[i].key
  }

  /** Flags added, edited or removed. */
  function ChangedFlags(previous: map<string, Flag>, next: seq<Flag>): set<string> {
    (set i | 0 <= i < |next| && FlagMoved(previous, next[i]) :: next[i].key) + (previous.Keys - KeySet(next))
  }

  function ChangedSegments(previous: map<string, Segment>, next: seq<Segment>): set<string> {
    (set i | 0 <= i < |next| && SegmentMoved(previous, next[i]) :: next[i].key)
    + (previous.Keys - SegmentKeySet(next))
  }

  predicate UsesSegment(flag: Flag, segments: set<string>) {
    exists j | 0 <= j < |flag.rules| :: flag.rules[j].segmentKey != "" && flag.rules[j].segmentKey in segments
  }

  function SegmentUsers(flags: seq<Flag>, segments: set<string>): set<string> {
    set i | 0 <= i < |flags| && UsesSegment(flags[i], segments) :: flags[i].key
  }

  ghost function SnapshotReport(previousFlags: map<string, Flag>, previousSegments: map<string, Segment>,
      nextFlags: seq<Flag>, nextSegments: seq<Segment>): set<string> {
    Affected(nextFlags, ChangedFlags(previousFlags, nextFlags)
      + SegmentUsers(nextFlags, ChangedSegments(previousSegments, nextSegments)))
  }

  /** Keys that were held and are gone are changes too. */
  method AddRemoved(previous: set<string>, next: set<string>, changed0: set<string>) returns (changed: set<string>)
    ensures changed == changed0 + (previous - next)
  {
    changed := changed0;
    var rest := previous;
    while rest != {}
      invariant rest <= previous && changed == changed0 + (previous - rest - next)
      decreases rest
    {
      var key :| key in rest;
      rest := rest - {key};
      if key !in next {
        changed := changed + {key};
      }
    }
  }

  method DiffFlags(previous: map<string, Flag>, next: seq<Flag>) returns (changed: set<string>)
    ensures changed == ChangedFlags(previous, next)
  {
    changed := {};
    var nextKeys: set<string> := {};
    for n := 0 to |next|
      invariant nextKeys == KeySet(next[..n])
      invariant changed == set i | 0 <= i < n && FlagMoved(previous, next[i]) :: next[i].key
    {
      nextKeys := nextKeys + {next[n].key};
      if next[n].key !in previous || previous[next[n].key] != next[n] {
        changed := changed + {next[n].key};
      }
      assert next[..n + 1] == next[..n] + [next[n]];
    }
    assert next[..|next|] == next;
    changed := AddRemoved(previous.Keys, nextKeys, changed);
  }

  method DiffSegments(previous: map<string, Segment>, next: seq<Segment>) returns (changed: set<string>)
    ensures changed == ChangedSegments(previous, next)
  {
    changed := {};
    var nextKeys: set<string> := {};
    for n := 0 to |next|
      invariant nextKeys == SegmentKeySet(next[..n])
      invariant changed == set i | 0 <= i < n && SegmentMoved(previous, next[i]) :: next[i].key
    {
      nextKeys := nextKeys + {next[n].key};
      if next[n].key !in previous || previous[next[n].key] != next[n] {
        changed := changed + {next[n].key};
      }
      assert next[..n + 1] == next[..n] + [next[n]];
    }
    assert next[..|next|] == next;
    changed := AddRemoved(previous.Keys, nextKeys, changed);
  }

  method ReferencesAny(flag: Flag, segments: set<string>) returns (found: bool)
    ensures found == UsesSegment(flag, segments)
  {
    for j := 0 to |flag.rules|
      invariant forall i | 0 <= i < j :: flag.rules[i].segmentKey == "" || flag.rules[i].segmentKey !in segments
    {
      if flag.rules[j].segmentKey == "" {
        continue;
      }
      if flag.rules[j].segmentKey in segments {
        return true;
      }
    }
    found := false;
  }

  /** The segment scan: pull in the incoming flags that reference a changed segment. */
  method AddSegmentUsers(flags: seq<Flag>, segments: set<string>, changed0: set<string>) returns (changed: set<string>)
    ensures changed == changed0 + SegmentUsers(flags, segments)
  {
    changed := changed0;
    if segments == {} {
      assert SegmentUsers(flags, segments) == {};
      return;
    }
    for n := 0 to |flags|
      invariant changed == changed0 + SegmentUsers(flags[..n], segments)
    {
      var uses := ReferencesAny(flags[n], segments);
      if uses {
        changed := changed + {flags[n].key};
      }
      assert flags[..n + 1] == flags[..n] + [flags[n]];
    }
    assert flags[..|flags|] == flags;
  }

  /** diffSnapshot: changed flags, flags whose segment changed, and all their dependents, sorted. */
  method DiffSnapshot(previousFlags: map<string, Flag>, previousSegments: map<string, Segment>,
      nextFlags: seq<Flag>, nextSegments: seq<Segment>) returns (report: seq<string>)
    ensures SortedListing(report, SnapshotReport(previousFlags, previousSegments, nextFlags, nextSegments))
  {
    var changed := DiffFlags(previousFlags, nextFlags);
    var changedSegments := DiffSegments(previousSegments, nextSegments);
    changed := AddSegmentUsers(nextFlags, changedSegments, changed);
    changed := AddPrerequisiteDependents(nextFlags, changed);
    report := SortedKeys(changed);
  }
}
