/** parseSemver (conditions.go:569-617). */
module SemverParser {
  import opened Text
  import opened Semver

  lemma {:induction false} JoinAvoids(parts: seq<string>, c: char, d: char)
    requires |parts| > 0 && c != d && forall k | 0 <= k < |parts| :: d !in parts[k]
    ensures d !in Join(parts, c)
  {
    if |parts| > 1 {
      JoinAvoids(parts[1..], c, d);
    }
  }

  // ---- the parser ---------------------------------------------------------------

  predicate NoneEmpty(ids: seq<string>) {
    forall i | 0 <= i < |ids| :: ids[i] != ""
  }

  predicate AllNumeric(segs: seq<string>) {
    forall i | 0 <= i < |segs| :: IsAllDigits(segs[i])
  }

  function Unprefixed(s: string): string {
    if s != "" && (s[0] == 'v' || s[0] == 'V') then s[1..] else s
  }

  function ParseParts(s: string): Option<Version> {
    var dash := IndexByte(s, '-');
    var core := s[..dash];
    if dash < |s| && !NoneEmpty(Split(s[dash + 1..], '.')) then None
    else if core == "" || !AllNumeric(Split(core, '.')) then None
    else Some(Version(Split(core, '.'), if dash < |s| then Split(s[dash + 1..], '.') else []))
  }

  function ParseTrimmed(text: string): Option<Version> {
    if text == "" then None
    else
      var s := Unprefixed(text);
      ParseParts(s[..IndexByte(s, '+')])
  }

  function Parse(value: string): Option<Version> {
    ParseTrimmed(TrimSpace(value))
  }

  /** The parser as written: locals cut down step by step, early exits inside scanning loops. */
  method ParseSemver(value: string) returns (r: Option<Version>)
    ensures r == Parse(value)
  {
    var s := TrimSpace(value);
    ghost var trimmed := s;
    if s == "" {
      return None;
    }
    if s[0] == 'v' || s[0] == 'V' {
      s := s[1..];
    }
    assert s == Unprefixed(trimmed);
    var plus := IndexByte(s, '+');
    if plus < |s| {
      s := s[..plus];
    }
    assert s == Unprefixed(trimmed)[..plus];
    r := ScanParts(s);
  }

  /** The release core and the prerelease suffix of what is left. */
  method ScanParts(s: string) returns (r: Option<Version>)
    ensures r == ParseParts(s)
  {
    var core := s;
    var prerelease: seq<string> := [];
    var dash := IndexByte(s, '-');
    if dash < |s| {
      core := s[..dash];
      var pre := s[dash + 1..];
      if pre == "" {
        assert Split(pre, '.')[0] == "";
        return None;
      }
      prerelease := Split(pre, '.');
      for i := 0 to |prerelease|
        invariant forall k | 0 <= k < i :: prerelease[k] != ""
      {
        if prerelease[i] == "" {
          return None;
        }
      }
    }
    assert core == s[..dash];
    if core == "" {
      return None;
    }
    var release := Split(core, '.');
    for i := 0 to |release|
      invariant forall k | 0 <= k < i :: IsAllDigits(release[k])
    {
      if !IsAllDigits(release[i]) {
        return None;
      }
    }
    r := Some(Version(release, prerelease));
  }

  // ---- exactly the texts it accepts ------------------------------------------------

  /** A version that has a spelling: no identifier holds a separator of its own. */
  ghost predicate Spellable(v: Version) {
    ValidVersion(v) &&
    forall i | 0 <= i < |v.prerelease| :: '.' !in v.prerelease[i] && '+' !in v.prerelease[i]
  }

  ghost function Spelling(v: Version): string
    requires Spellable(v)
  {
    Join(v.release, '.') + if v.prerelease == [] then "" else ['-'] + Join(v.prerelease, '.')
  }

  ghost predicate Decorates(lead: string, build: string) {
    (lead == "" || lead == "v" || lead == "V") && (build == "" || build[0] == '+')
  }

  ghost predicate SpellsTrimmed(text: string, v: Version) {
    Spellable(v) && exists lead, build :: Decorates(lead, build) && text == lead + (Spelling(v) + build)
  }

  /** An optional v, the version's spelling and optional build metadata, with space around them. */
  ghost predicate Spells(value: string, v: Version) {
    exists left, text, right :: Padded(value, left, text, right) && SpellsTrimmed(text, v)
  }

  lemma {:induction false} DigitsJoined(segs: seq<string>)
    requires |segs| > 0 && AllNumeric(segs)
    ensures Join(segs, '.') != "" && IsDigit(Join(segs, '.')[0])
    ensures forall k | 0 <= k < |Join(segs, '.')| :: IsDigit(Join(segs, '.')[k]) || Join(segs, '.')[k] == '.'
  {
    if |segs| > 1 {
      DigitsJoined(segs[1..]);
      assert Join(segs, '.') == segs[0] + ['.'] + Join(segs[1..], '.');
    }
  }

  lemma CoreAndTail(core: string, tail: string)
    requires '-' !in core && (tail == "" || tail[0] == '-')
    ensures IndexByte(core + tail, '-') == |core| && (core + tail)[..|core|] == core
    ensures tail != "" ==> (core + tail)[|core| + 1..] == tail[1..]
  {
    IndexByteUnique(core + tail, '-', |core|);
  }

  lemma ParsePartsOf(core: string, tail: string)
    requires '-' !in core && core != "" && (tail == "" || tail[0] == '-')
    ensures ParseParts(core + tail) ==
      if tail != "" && !NoneEmpty(Split(tail[1..], '.')) then None
      else if !AllNumeric(Split(core, '.')) then None
      else Some(Version(Split(core, '.'), if tail != "" then Split(tail[1..], '.') else []))
  {
    CoreAndTail(core, tail);
  }

  lemma CoreSplits(release: seq<string>)
    requires |release| > 0 && AllNumeric(release)
    ensures var core := Join(release, '.'); '-' !in core && core != "" && Split(core, '.') == release
  {
    DigitsJoined(release);
    SplitJoin(release, '.');
  }

  lemma ParsePartsInverts(v: Version)
    requires Spellable(v)
    ensures ParseParts(Spelling(v)) == Some(v)
  {
    CoreSplits(v.release);
    var tail := if v.prerelease == [] then "" else ['-'] + Join(v.prerelease, '.');
    ParsePartsOf(Join(v.release, '.'), tail);
    if v.prerelease != [] {
      SplitJoin(v.prerelease, '.');
    }
  }

  lemma SpellingAvoidsPlus(v: Version)
    requires Spellable(v)
    ensures '+' !in Spelling(v) && Spelling(v) != "" && IsDigit(Spelling(v)[0])
  {
    DigitsJoined(v.release);
    if v.prerelease != [] {
      JoinAvoids(v.prerelease, '.', '+');
    }
  }

  lemma CutBuild(body: string, build: string)
    requires '+' !in body && (build == "" || build[0] == '+')
    ensures (body + build)[..IndexByte(body + build, '+')] == body
  {
    IndexByteUnique(body + build, '+', |body|);
  }

  lemma ParseAccepts(text: string, lead: string, v: Version, build: string)
    requires Spellable(v) && Decorates(lead, build) && text == lead + (Spelling(v) + build)
    ensures ParseTrimmed(text) == Some(v)
  {
    SpellingAvoidsPlus(v);
    assert Unprefixed(text) == Spelling(v) + build;
    CutBuild(Spelling(v), build);
    ParsePartsInverts(v);
  }

  lemma IdentifiersSpell(pre: string)
    requires '+' !in pre
    ensures Join(Split(pre, '.'), '.') == pre
    ensures forall i | 0 <= i < |Split(pre, '.')| :: '.' !in Split(pre, '.')[i] && '+' !in Split(pre, '.')[i]
  {
    JoinSplit(pre, '.');
    forall i | 0 <= i < |Split(pre, '.')| ensures '+' !in Split(pre, '.')[i] {
      PartsAvoid(pre, '.', '+', i);
    }
  }

  lemma CoreSpells(core: string, ids: seq<string>)
    requires core != "" && AllNumeric(Split(core, '.')) && NoneEmpty(ids)
    requires forall i | 0 <= i < |ids| :: '.' !in ids[i] && '+' !in ids[i]
    ensures var v := Version(Split(core, '.'), ids);
      Spellable(v) && Spelling(v) == core + if ids == [] then "" else ['-'] + Join(ids, '.')
  {
    JoinSplit(core, '.');
  }

  lemma CutAt(s: string, i: nat)
    requires i < |s|
    ensures s == s[..i] + ([s[i]] + s[i + 1..])
  {
  }

  lemma ParsePartsSpells(s: string)
    requires '+' !in s && ParseParts(s).Some?
    ensures Spellable(ParseParts(s).value) && Spelling(ParseParts(s).value) == s
  {
    var dash := IndexByte(s, '-');
    var ids := if dash < |s| then Split(s[dash + 1..], '.') else [];
    if dash < |s| {
      IdentifiersSpell(s[dash + 1..]);
    }
    CoreSpells(s[..dash], ids);
    if dash < |s| {
      CutAt(s, dash);
    }
  }

  lemma {:induction false} PartsAvoid(s: string, c: char, d: char, k: nat)
    requires d !in s && k < |Split(s, c)|
    ensures d !in Split(s, c)[k]
    decreases |s|
  {
    var i := IndexByte(s, c);
    if i < |s| && k > 0 {
      PartsAvoid(s[i + 1..], c, d, k - 1);
    }
  }

  lemma SpellsBy(text: string, lead: string, v: Version, build: string)
    requires Spellable(v) && Decorates(lead, build) && text == lead + (Spelling(v) + build)
    ensures SpellsTrimmed(text, v)
  {
  }

  lemma PartsToSpells(lead: string, head: string, build: string)
    requires Decorates(lead, build) && '+' !in head && ParseParts(head).Some?
    ensures SpellsTrimmed(lead + (head + build), ParseParts(head).value)
  {
    ParsePartsSpells(head);
    SpellsBy(lead + (head + build), lead, ParseParts(head).value, build);
  }

  lemma StripsDecoration(text: string) returns (lead: string, head: string, build: string)
    requires text != ""
    ensures Decorates(lead, build) && '+' !in head && text == lead + (head + build)
    ensures ParseTrimmed(text) == ParseParts(head)
  {
    var s := Unprefixed(text);
    var plus := IndexByte(s, '+');
    lead, head, build := text[..|text| - |s|], s[..plus], s[plus..];
    assert |lead| == 1 ==> lead == [text[0]];
    assert s == head + build;
  }

  lemma ParseSpells(text: string)
    requires ParseTrimmed(text).Some?
    ensures SpellsTrimmed(text, ParseTrimmed(text).value)
  {
    var lead, head, build := StripsDecoration(text);
    PartsToSpells(lead, head, build);
  }

  lemma ParseTrimmedExact(text: string, v: Version)
    ensures ParseTrimmed(text) == Some(v) <==> SpellsTrimmed(text, v)
  {
    if SpellsTrimmed(text, v) {
      var lead, build :| Decorates(lead, build) && text == lead + (Spelling(v) + build);
      ParseAccepts(text, lead, v, build);
    } else if ParseTrimmed(text) == Some(v) {
      ParseSpells(text);
    }
  }

  /**
   * The parser accepts a text as v exactly when, apart from space around it, it is an optional v,
   * v's own spelling and optional build metadata: it neither invents nor loses a version.
   */
  lemma ParseExact(value: string, v: Version)
    ensures Parse(value) == Some(v) <==> Spells(value, v)
  {
    if Spells(value, v) {
      var left, text, right :| Padded(value, left, text, right) && SpellsTrimmed(text, v);
      TrimUnique(value, left, text, right);
      ParseTrimmedExact(text, v);
    } else if Parse(value) == Some(v) {
      var left, right := TrimFinds(value);
      ParseTrimmedExact(TrimSpace(value), v);
    }
  }
}
