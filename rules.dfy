/** The rule engine (src/rules/mod.rs): configurable rules, how the one rule
    that governs a path is chosen, and what that rule reports. Glob matching
    is a parameter (`Matcher`), and the size of a path, which the source
    reads from the file system, is passed in (None when reading it fails). */
module Rules {
  import opened Base
  import opened Sorting
  import opened Configuration
  import opened Sizes
  import opened Violations
  import opened Git
  import opened Dedup

  /** Whether a glob pattern matches a path (the globset library). */
  type Matcher = (string, Path) -> bool

  /** `expand_if_path`: a pattern without '/' names a file anywhere below
      the root, so it gets the any-directory prefix (two stars, then a slash); a pattern with '/' is a path. */
  function ExpandIfPath(pattern: string): (r: string)
    ensures '/' in r
    ensures |pattern| <= |r| && r[|r| - |pattern|..] == pattern
    ensures r == pattern <==> '/' in pattern
  {
    if '/' in pattern then pattern else "**/" + pattern
  }

  /** Expanding twice is the same as expanding once. */
  lemma ExpandIfPathIdempotent(pattern: string)
    ensures ExpandIfPath(ExpandIfPath(pattern)) == ExpandIfPath(pattern)
  {
  }

  /** Whether any of `patterns`, expanded, matches `path`. */
  predicate AnyMatch(patterns: seq<string>, path: Path, matches: Matcher)
  {
    exists i | 0 <= i < |patterns| :: matches(ExpandIfPath(patterns[i]), path)
  }

  /** The parsed size of an optional size text (`Option::map(..).transpose()`). */
  function ParseOptionalSize(text: Option<string>): (r: Result<Option<nat>>)
    ensures text.None? ==> r == Ok(None)
    ensures text.Some? && ParseSizeString(text.value).Ok? ==> r == Ok(Some(ParseSizeString(text.value).value))
    ensures text.Some? && ParseSizeString(text.value).Err? ==> r == Err(ParseSizeString(text.value).error)
  {
    match text
    case None => Ok(None)
    case Some(s) =>
      match ParseSizeString(s)
      case Ok(n) => Ok(Some(n))
      case Err(e) => Err(e)
  }

  /** A rule built from its name and definition, with both thresholds parsed. */
  datatype ConfigurableRule = ConfigurableRule(
    name: string,
    definition: RuleDefinition,
    maxSize: Option<nat>,
    warnSize: Option<nat>)
  {
    predicate IsEnabled()
    {
      definition.enabled
    }

    /** `should_skip_file`. */
    predicate ShouldSkipFile(path: Path, matches: Matcher)
      ensures AnyMatch(definition.excludes, path, matches) ==> ShouldSkipFile(path, matches)
      ensures definition.includes == [] ==>
                (ShouldSkipFile(path, matches) <==> AnyMatch(definition.excludes, path, matches))
    {
      (definition.includes != [] && !AnyMatch(definition.includes, path, matches))
      || AnyMatch(definition.excludes, path, matches)
    }

    /** `get_priority`: the rule named "default" has none. */
    function GetPriority(): (p: Option<I32>)
      ensures p.None? <==> name == "default"
      ensures p.Some? ==> p.value == definition.priority
    {
      if name == "default" then None else Some(definition.priority)
    }

    /** The finding reported when the path matches the rule's patterns. */
    function MatchFinding(path: Path, severity: Severity): (v: Violation)
    {
      Violation(path, name, MatchesPattern(path), severity,
                Some(Literal("matched")), Some(Literal("not matched")), 0)
    }

    /** What `check` reports for `path`, whose size is `size` (None when it
        cannot be read). */
    function Findings(path: Path, size: Option<nat>, matches: Matcher): (r: Result<seq<Violation>>)
      ensures r.Err? <==> !ShouldSkipFile(path, matches) && !definition.errorOnMatch
                          && !definition.warnOnMatch && size.None?
      ensures r.Err? ==> r.error == FileSystem("get file metadata", path)
      ensures r.Ok? ==> |r.value| <= 1 &&
                        forall i | 0 <= i < |r.value| :: r.value[i].path == path && r.value[i].ruleName == name
    {
      if ShouldSkipFile(path, matches) then Ok([])
      else if definition.errorOnMatch then Ok([MatchFinding(path, Error)])
      else if definition.warnOnMatch then Ok([MatchFinding(path, Warning)])
      else if size.None? then Err(FileSystem("get file metadata", path))
      else if maxSize.Some? && size.value > maxSize.value then
        Ok([Violation(path, name, ExceedsMaximum(size.value, maxSize.value), Error,
                      Some(Size(size.value)), Some(AtMost(maxSize.value)), size.value)])
      else if warnSize.Some? && size.value > warnSize.value then
        Ok([Violation(path, name, ExceedsWarning(size.value, warnSize.value), Warning,
                      Some(Size(size.value)), Some(AtMost(warnSize.value)), size.value)])
      else Ok([])
    }

    /** `check`: the findings are pushed in the source's order, returning
        as soon as the outcome is decided. */
    method Check(path: Path, size: Option<nat>, matches: Matcher) returns (r: Result<seq<Violation>>)
      ensures r == Findings(path, size, matches)
    {
      var violations: seq<Violation> := [];
      if ShouldSkipFile(path, matches) {
        return Ok(violations);
      }
      if definition.errorOnMatch {
        violations := violations + [MatchFinding(path, Error)];
        assert violations == [MatchFinding(path, Error)];
        return Ok(violations);
      }
      if definition.warnOnMatch {
        violations := violations + [MatchFinding(path, Warning)];
        assert violations == [MatchFinding(path, Warning)];
      }
      if violations != [] {
        return Ok(violations);
      }
      if size.None? {
        return Err(FileSystem("get file metadata", path));
      }
      var fileSize := size.value;
      if maxSize.Some? && fileSize > maxSize.value {
        var finding := Violation(path, name, ExceedsMaximum(fileSize, maxSize.value), Error,
                                 Some(Size(fileSize)), Some(AtMost(maxSize.value)), fileSize);
        violations := violations + [finding];
        assert violations == [finding];
        return Ok(violations);
      }
      if warnSize.Some? && fileSize > warnSize.value {
        var finding := Violation(path, name, ExceedsWarning(fileSize, warnSize.value), Warning,
                                 Some(Size(fileSize)), Some(AtMost(warnSize.value)), fileSize);
        violations := violations + [finding];
        assert violations == [finding];
      }
      return Ok(violations);
    }
  }

  /** `ConfigurableRule::new`: fails with the size-format error of the
      maximum first, then of the warning threshold. */
  function NewRule(name: string, definition: RuleDefinition): (r: Result<ConfigurableRule>)
    ensures r.Ok? <==> ParseOptionalSize(definition.maxSize).Ok? && ParseOptionalSize(definition.warnSize).Ok?
    ensures ParseOptionalSize(definition.maxSize).Err? ==> r == Err(ParseOptionalSize(definition.maxSize).error)
    ensures ParseOptionalSize(definition.maxSize).Ok? && ParseOptionalSize(definition.warnSize).Err? ==>
              r == Err(ParseOptionalSize(definition.warnSize).error)
    ensures r.Ok? ==> r.value == ConfigurableRule(name, definition, ParseOptionalSize(definition.maxSize).value,
                                                   ParseOptionalSize(definition.warnSize).value)
  {
    match ParseOptionalSize(definition.maxSize)
    case Err(e) => Err(e)
    case Ok(maxSize) =>
      match ParseOptionalSize(definition.warnSize)
      case Err(e) => Err(e)
      case Ok(warnSize) => Ok(ConfigurableRule(name, definition, maxSize, warnSize))
  }

  /** Whether the rule reports any finding of the given severity. */
  predicate Reports(r: Result<seq<Violation>>, severity: Severity)
  {
    r.Ok? && exists i | 0 <= i < |r.value| :: r.value[i].severity == severity
  }

  /** A rule never reports on a path it skips. */
  lemma SkippedPathHasNoFindings(rule: ConfigurableRule, path: Path, size: Option<nat>, matches: Matcher)
    requires rule.ShouldSkipFile(path, matches)
    ensures rule.Findings(path, size, matches) == Ok([])
  {
  }

  /** Without include patterns a rule skips exactly the excluded paths. */
  lemma SkipWithoutIncludes(rule: ConfigurableRule, path: Path, matches: Matcher)
    requires rule.definition.includes == []
    ensures rule.ShouldSkipFile(path, matches) <==> AnyMatch(rule.definition.excludes, path, matches)
  {
  }

  /** A match flag decides the outcome on its own: the size is never
      consulted, and the one finding says "matched" against "not matched". */
  lemma MatchIgnoresSize(rule: ConfigurableRule, path: Path, size1: Option<nat>, size2: Option<nat>, matches: Matcher)
    requires !rule.ShouldSkipFile(path, matches)
    requires rule.definition.errorOnMatch || rule.definition.warnOnMatch
    ensures rule.Findings(path, size1, matches) == rule.Findings(path, size2, matches)
    ensures var r := rule.Findings(path, size1, matches);
      r.Ok? && |r.value| == 1 && r.value[0].actualValue == Some(Literal("matched"))
      && r.value[0].expectedValue == Some(Literal("not matched"))
      && r.value[0].severity == (if rule.definition.errorOnMatch then Error else Warning)
  {
  }

  /** An Error is reported exactly when error-on-match is set, or when no
      match flag is set and the size is strictly above the maximum. */
  lemma ErrorExactly(rule: ConfigurableRule, path: Path, size: Option<nat>, matches: Matcher)
    requires !rule.ShouldSkipFile(path, matches)
    ensures Reports(rule.Findings(path, size, matches), Error) <==>
            rule.definition.errorOnMatch ||
            (!rule.definition.warnOnMatch && size.Some? && rule.maxSize.Some? && size.value > rule.maxSize.value)
  {
    var r := rule.Findings(path, size, matches);
    if Reports(r, Error) {
      var i :| 0 <= i < |r.value| && r.value[i].severity == Error;
    } else if r.Ok? && r.value != [] {
      assert r.value[0].severity != Error;
    }
  }

  /** A Warning is reported exactly when the rule is not error-on-match and
      either warn-on-match is set or the size is within the maximum (or there
      is none) and strictly above the warning threshold. An oversized file
      gets its Error and no Warning. */
  lemma WarningExactly(rule: ConfigurableRule, path: Path, size: Option<nat>, matches: Matcher)
    requires !rule.ShouldSkipFile(path, matches)
    ensures Reports(rule.Findings(path, size, matches), Warning) <==>
            !rule.definition.errorOnMatch &&
            (rule.definition.warnOnMatch ||
             (size.Some? && (rule.maxSize.None? || size.value <= rule.maxSize.value) &&
              rule.warnSize.Some? && size.value > rule.warnSize.value))
  {
    var r := rule.Findings(path, size, matches);
    if Reports(r, Warning) {
      var i :| 0 <= i < |r.value| && r.value[i].severity == Warning;
    } else if r.Ok? && r.value != [] {
      assert r.value[0].severity != Warning;
    }
  }

  /** A rule with no thresholds and no match flags reports nothing for a
      readable file. */
  lemma NoThresholdsNoFindings(rule: ConfigurableRule, path: Path, size: nat, matches: Matcher)
    requires rule.maxSize.None? && rule.warnSize.None?
    requires !rule.definition.errorOnMatch && !rule.definition.warnOnMatch
    ensures rule.Findings(path, Some(size), matches) == Ok([])
  {
  }

  /** The rank that orders rules: a set priority is its value, and an unset
      one ranks below every `i32`. */
  function Rank(rule: ConfigurableRule): (k: int)
    ensures rule.GetPriority().Some? ==> k == rule.GetPriority().value
    ensures rule.GetPriority().None? ==> k < -0x8000_0000
  {
    match rule.GetPriority()
    case Some(p) => p
    case None => -0x8000_0001
  }

  /** The comparator the source sorts with (-1 Less, 0 Equal, 1 Greater):
      higher priorities first, any priority before none. */
  function ComparePriority(a: Option<I32>, b: Option<I32>): int
  {
    match (a, b)
    case (Some(p1), Some(p2)) => if p2 < p1 then -1 else if p2 == p1 then 0 else 1
    case (Some(_), None) => -1
    case (None, Some(_)) => 1
    case (None, None) => 0
  }

  /** Sorting by descending rank orders rules exactly as the comparator does. */
  lemma RankAgreesWithComparator(a: ConfigurableRule, b: ConfigurableRule)
    ensures ComparePriority(a.GetPriority(), b.GetPriority()) < 0 <==> Rank(a) > Rank(b)
    ensures ComparePriority(a.GetPriority(), b.GetPriority()) == 0 <==> Rank(a) == Rank(b)
  {
  }

  /** Whether `rule` takes part in the choice for `path`. */
  predicate Applies(rule: ConfigurableRule, path: Path, matches: Matcher)
  {
    rule.IsEnabled() && !rule.ShouldSkipFile(path, matches)
  }

  /** The enabled rules that do not skip `path`, in the engine's order. */
  function Applicable(rules: seq<ConfigurableRule>, path: Path, matches: Matcher): (a: seq<ConfigurableRule>)
    ensures forall x :: x in a <==> x in rules && Applies(x, path, matches)
  {
    if rules == [] then []
    else
      var last := rules[|rules| - 1];
      assert rules == rules[..|rules| - 1] + [last];
      Applicable(rules[..|rules| - 1], path, matches) + (if Applies(last, path, matches) then [last] else [])
  }

  /** What `check_file` reports: the findings of the first rule of the
      applicable rules sorted by descending rank, or none without one. */
  function FileFindings(rules: seq<ConfigurableRule>, path: Path, size: Option<nat>, matches: Matcher): (r: Result<seq<Violation>>)
    ensures r.Err? ==> size.None? && r.error == FileSystem("get file metadata", path)
    ensures r.Ok? ==> |r.value| <= 1 && forall i | 0 <= i < |r.value| :: r.value[i].path == path
  {
    var ranked := SortDesc(Applicable(rules, path, matches), Rank);
    if ranked == [] then Ok([]) else ranked[0].Findings(path, size, matches)
  }

  /** `check_file` runs exactly one rule: the first applicable rule with the
      highest rank. Every applicable rule ranks no higher, and every
      applicable rule added before it ranks strictly lower. */
  lemma CheckFileRunsTopRule(rules: seq<ConfigurableRule>, path: Path, size: Option<nat>, matches: Matcher)
    requires Applicable(rules, path, matches) != []
    ensures var a := Applicable(rules, path, matches);
      var top := a[FirstMaxIndex(a, Rank)];
      top in rules && Applies(top, path, matches) &&
      FileFindings(rules, path, size, matches) == top.Findings(path, size, matches)
  {
    SortDescHead(Applicable(rules, path, matches), Rank);
  }

  /** No rule applies when none of them does. */
  lemma {:induction false} NoneApplicable(rules: seq<ConfigurableRule>, path: Path, matches: Matcher)
    requires forall i | 0 <= i < |rules| :: !Applies(rules[i], path, matches)
    ensures Applicable(rules, path, matches) == []
  {
    if rules != [] {
      var init := rules[..|rules| - 1];
      assert forall i | 0 <= i < |init| :: init[i] == rules[i];
      NoneApplicable(init, path, matches);
    }
  }

  /** With no applicable rule there is nothing to report. */
  lemma NoApplicableRuleNoFindings(rules: seq<ConfigurableRule>, path: Path, size: Option<nat>, matches: Matcher)
    requires forall i | 0 <= i < |rules| :: !Applies(rules[i], path, matches)
    ensures FileFindings(rules, path, size, matches) == Ok([])
  {
    NoneApplicable(rules, path, matches);
  }

  /** The rule named "default" never governs a path that another applicable
      rule covers, whatever the priorities configured. */
  lemma DefaultRuleOutranked(rules: seq<ConfigurableRule>, path: Path, size: Option<nat>, matches: Matcher, other: ConfigurableRule)
    requires other in rules && Applies(other, path, matches) && other.name != "default"
    ensures var a := Applicable(rules, path, matches);
      a != [] && a[FirstMaxIndex(a, Rank)].name != "default"
  {
    var a := Applicable(rules, path, matches);
    assert other in a;
    var k := FirstMaxIndex(a, Rank);
    var j :| 0 <= j < |a| && a[j] == other;
    assert Rank(a[j]) <= Rank(a[k]);
  }

  /** What `check_file` reports for each path, given each path's size. */
  function FileCheck(rules: seq<ConfigurableRule>, sizeOf: Path -> Option<nat>, matches: Matcher): Path -> Result<seq<Violation>>
  {
    p => FileFindings(rules, p, sizeOf(p), matches)
  }

  /** The findings of `check` for several paths in order, or the first
      error. */
  function CheckAll(paths: seq<Path>, check: Path -> Result<seq<Violation>>): (r: Result<seq<Violation>>)
    ensures r.Err? ==> exists i | 0 <= i < |paths| :: check(paths[i]) == r
  {
    if paths == [] then Ok([])
    else
      var prefix := CheckAll(paths[..|paths| - 1], check);
      var here := check(paths[|paths| - 1]);
      if prefix.Err? then prefix
      else if here.Err? then here
      else Ok(prefix.value + here.value)
  }

  /** Checking several paths succeeds exactly when every path's check
      succeeds. */
  lemma {:induction false} CheckAllOk(paths: seq<Path>, check: Path -> Result<seq<Violation>>)
    ensures CheckAll(paths, check).Ok? <==> forall i | 0 <= i < |paths| :: check(paths[i]).Ok?
  {
    if paths != [] {
      var init := paths[..|paths| - 1];
      CheckAllOk(init, check);
      assert forall i | 0 <= i < |init| :: init[i] == paths[i];
    }
  }

  /** A successful check of several paths reports exactly the findings of
      the individual paths. */
  lemma {:induction false} CheckAllMembers(paths: seq<Path>, check: Path -> Result<seq<Violation>>, v: Violation)
    requires CheckAll(paths, check).Ok?
    ensures forall i | 0 <= i < |paths| :: check(paths[i]).Ok?
    ensures v in CheckAll(paths, check).value <==>
            exists i | 0 <= i < |paths| :: v in check(paths[i]).value
  {
    CheckAllOk(paths, check);
    if paths != [] {
      var n := |paths| - 1;
      var init := paths[..n];
      CheckAllMembers(init, check, v);
      var prefix := CheckAll(init, check);
      if v in prefix.value {
        var i :| 0 <= i < |init| && v in check(init[i]).value;
        assert init[i] == paths[i];
      }
      if exists i | 0 <= i < |paths| :: v in check(paths[i]).value {
        var i :| 0 <= i < |paths| && v in check(paths[i]).value;
        if i < n {
          assert init[i] == paths[i];
        }
      }
    }
  }

  /** The first failing path decides the error of a longer list. */
  lemma {:induction false} FirstErrorPersists(paths: seq<Path>, n: nat, check: Path -> Result<seq<Violation>>)
    requires n <= |paths|
    requires CheckAll(paths[..n], check).Err?
    ensures CheckAll(paths, check) == CheckAll(paths[..n], check)
    decreases |paths| - n
  {
    if n < |paths| {
      var init := paths[..|paths| - 1];
      assert init[..n] == paths[..n];
      FirstErrorPersists(init, n, check);
    } else {
      assert paths[..n] == paths;
    }
  }

  /** The findings for the given history blobs, each checked at its own size. */
  function BlobFindings(rules: seq<ConfigurableRule>, blobs: seq<HistoryBlob>, matches: Matcher): (vs: seq<Violation>)
    ensures forall i | 0 <= i < |vs| :: exists j | 0 <= j < |blobs| :: vs[i].path == blobs[j].path
  {
    if blobs == [] then []
    else
      var last := blobs[|blobs| - 1];
      var r := FileFindings(rules, last.path, Some(last.size), matches);
      BlobFindings(rules, blobs[..|blobs| - 1], matches) + (if r.Ok? then r.value else [])
  }

  /** A blob's size is known, so its check cannot fail. */
  lemma KnownSizeNeverFails(rules: seq<ConfigurableRule>, path: Path, size: nat, matches: Matcher)
    ensures FileFindings(rules, path, Some(size), matches).Ok?
  {
  }

  /** The finding a plain size rule reports for a file above its maximum. */
  function OversizeFinding(rule: ConfigurableRule, path: Path, size: nat): (v: Violation)
    requires rule.maxSize.Some?
  {
    Violation(path, rule.name, ExceedsMaximum(size, rule.maxSize.value), Error,
              Some(Size(size)), Some(AtMost(rule.maxSize.value)), size)
  }

  /** A rule without match flags or warning threshold, checking `path`. */
  predicate PlainSizeRule(rule: ConfigurableRule, path: Path, matches: Matcher)
  {
    Applies(rule, path, matches) && !rule.definition.errorOnMatch && !rule.definition.warnOnMatch
    && rule.maxSize.Some? && rule.warnSize.None?
  }

  /** With a single plain size rule, a version is reported exactly when it
      is above the maximum, and then with its size as key. */
  lemma SingleRuleFindings(rule: ConfigurableRule, path: Path, size: nat, matches: Matcher)
    requires PlainSizeRule(rule, path, matches)
    ensures size > rule.maxSize.value ==> FileFindings([rule], path, Some(size), matches) == Ok([OversizeFinding(rule, path, size)])
    ensures size <= rule.maxSize.value ==> FileFindings([rule], path, Some(size), matches) == Ok([])
  {
    assert Applicable([rule], path, matches) == [rule] by {
      assert [rule][..0] == [];
    }
  }

  /** Blobs that all stay within a plain rule's maximum give no findings. */
  lemma {:induction false} NoOversizedBlobNoFindings(rule: ConfigurableRule, blobs: seq<HistoryBlob>, matches: Matcher)
    requires forall i | 0 <= i < |blobs| ::
               PlainSizeRule(rule, blobs[i].path, matches) && blobs[i].size <= rule.maxSize.value
    ensures BlobFindings([rule], blobs, matches) == []
  {
    if blobs != [] {
      var n := |blobs| - 1;
      var init := blobs[..n];
      assert forall i | 0 <= i < |init| :: init[i] == blobs[i];
      NoOversizedBlobNoFindings(rule, init, matches);
      SingleRuleFindings(rule, blobs[n].path, blobs[n].size, matches);
    }
  }

  /** Checking one more blob appends that blob's findings. */
  lemma BlobFindingsSnoc(rules: seq<ConfigurableRule>, blobs: seq<HistoryBlob>, b: HistoryBlob, matches: Matcher, found: seq<Violation>)
    requires FileFindings(rules, b.path, Some(b.size), matches) == Ok(found)
    ensures BlobFindings(rules, blobs + [b], matches) == BlobFindings(rules, blobs, matches) + found
  {
    assert (blobs + [b])[..|blobs|] == blobs;
  }

  /** Under a plain 500-byte rule, the versions 600, 900 and 1200 of one
      path are each reported, in order. */
  lemma GrowingVersionsFindings(rule: ConfigurableRule, path: Path, matches: Matcher)
    requires PlainSizeRule(rule, path, matches) && rule.maxSize == Some(500)
    ensures BlobFindings([rule], [HistoryBlob(path, 600), HistoryBlob(path, 900), HistoryBlob(path, 1200)], matches)
         == [OversizeFinding(rule, path, 600), OversizeFinding(rule, path, 900), OversizeFinding(rule, path, 1200)]
  {
    var b1, b2, b3 := HistoryBlob(path, 600), HistoryBlob(path, 900), HistoryBlob(path, 1200);
    var f1, f2, f3 := OversizeFinding(rule, path, 600), OversizeFinding(rule, path, 900), OversizeFinding(rule, path, 1200);
    assert BlobFindings([rule], [b1], matches) == [f1] by {
      SingleRuleFindings(rule, path, 600, matches);
      BlobFindingsSnoc([rule], [], b1, matches, [f1]);
      assert [] + [b1] == [b1];
    }
    assert BlobFindings([rule], [b1, b2], matches) == [f1, f2] by {
      SingleRuleFindings(rule, path, 900, matches);
      BlobFindingsSnoc([rule], [b1], b2, matches, [f2]);
      assert [b1] + [b2] == [b1, b2];
    }
    SingleRuleFindings(rule, path, 1200, matches);
    BlobFindingsSnoc([rule], [b1, b2], b3, matches, [f3]);
    assert [b1, b2] + [b3] == [b1, b2, b3];
  }

  /** Three versions of one path of 600, 900 and 1200 bytes under a 500-byte
      maximum are reported once, with key 1200. */
  lemma HistoryKeepsLargestVersion(rule: ConfigurableRule, path: Path, matches: Matcher, r: seq<Violation>)
    requires PlainSizeRule(rule, path, matches) && rule.maxSize == Some(500)
    requires IsDedupOf(r, BlobFindings([rule], [HistoryBlob(path, 600), HistoryBlob(path, 900), HistoryBlob(path, 1200)], matches))
    ensures |r| == 1 && r[0].path == path && r[0].sortKey == 1200
  {
    GrowingVersionsFindings(rule, path, matches);
    DedupOnePath(r, [OversizeFinding(rule, path, 600), OversizeFinding(rule, path, 900), OversizeFinding(rule, path, 1200)], 2);
  }

  /** Under a plain 500-byte rule, a 1024-byte version followed by a
      100-byte one gives one finding, for the larger. */
  lemma ShrunkVersionsFindings(rule: ConfigurableRule, path: Path, matches: Matcher)
    requires PlainSizeRule(rule, path, matches) && rule.maxSize == Some(500)
    ensures BlobFindings([rule], [HistoryBlob(path, 1024), HistoryBlob(path, 100)], matches)
         == [OversizeFinding(rule, path, 1024)]
  {
    var b1, b2 := HistoryBlob(path, 1024), HistoryBlob(path, 100);
    SingleRuleFindings(rule, path, 1024, matches);
    SingleRuleFindings(rule, path, 100, matches);
    BlobFindingsSnoc([rule], [], b1, matches, [OversizeFinding(rule, path, 1024)]);
    assert [] + [b1] == [b1];
    BlobFindingsSnoc([rule], [b1], b2, matches, []);
    assert [b1] + [b2] == [b1, b2];
  }

  /** A version above the maximum and a later one below it give exactly one
      finding, the larger one. */
  lemma ShrunkFileStillReported(rule: ConfigurableRule, path: Path, matches: Matcher, r: seq<Violation>)
    requires PlainSizeRule(rule, path, matches) && rule.maxSize == Some(500)
    requires IsDedupOf(r, BlobFindings([rule], [HistoryBlob(path, 1024), HistoryBlob(path, 100)], matches))
    ensures |r| == 1 && r[0].path == path && r[0].sortKey == 1024
  {
    ShrunkVersionsFindings(rule, path, matches);
    DedupOnePath(r, [OversizeFinding(rule, path, 1024)], 0);
  }

  /** Under a plain 500-byte rule, a 2000-byte version followed by a
      600-byte one are both reported, in order. */
  lemma ShrinkingVersionsFindings(rule: ConfigurableRule, path: Path, matches: Matcher)
    requires PlainSizeRule(rule, path, matches) && rule.maxSize == Some(500)
    ensures BlobFindings([rule], [HistoryBlob(path, 2000), HistoryBlob(path, 600)], matches)
         == [OversizeFinding(rule, path, 2000), OversizeFinding(rule, path, 600)]
  {
    var b1, b2 := HistoryBlob(path, 2000), HistoryBlob(path, 600);
    SingleRuleFindings(rule, path, 2000, matches);
    SingleRuleFindings(rule, path, 600, matches);
    BlobFindingsSnoc([rule], [], b1, matches, [OversizeFinding(rule, path, 2000)]);
    assert [] + [b1] == [b1];
    BlobFindingsSnoc([rule], [b1], b2, matches, [OversizeFinding(rule, path, 600)]);
    assert [b1] + [b2] == [b1, b2];
  }

  /** Across the live check and the history check, the larger history
      version (2000 bytes) outranks the 600-byte version found live. */
  lemma CrossPhaseKeepsLargerHistory(rule: ConfigurableRule, path: Path, matches: Matcher, history: seq<Violation>, r: seq<Violation>)
    requires PlainSizeRule(rule, path, matches) && rule.maxSize == Some(500)
    requires IsDedupOf(history, BlobFindings([rule], [HistoryBlob(path, 2000), HistoryBlob(path, 600)], matches))
    requires IsDedupOf(r, FileFindings([rule], path, Some(600), matches).value + history)
    ensures |r| == 1 && r[0].path == path && r[0].sortKey == 2000
  {
    var f1, f2 := OversizeFinding(rule, path, 2000), OversizeFinding(rule, path, 600);
    ShrinkingVersionsFindings(rule, path, matches);
    DedupOnePath(history, [f1, f2], 0);
    SingleRuleFindings(rule, path, 600, matches);
    assert [f2] + history == [f2, f1];
    DedupOnePath(r, [f2, f1], 1);
  }

  /** Under a plain 500-byte rule, a single 800-byte version is reported. */
  lemma SingleVersionFindings(rule: ConfigurableRule, path: Path, matches: Matcher)
    requires PlainSizeRule(rule, path, matches) && rule.maxSize == Some(500)
    ensures BlobFindings([rule], [HistoryBlob(path, 800)], matches) == [OversizeFinding(rule, path, 800)]
  {
    var b := HistoryBlob(path, 800);
    SingleRuleFindings(rule, path, 800, matches);
    BlobFindingsSnoc([rule], [], b, matches, [OversizeFinding(rule, path, 800)]);
    assert [] + [b] == [b];
  }

  /** A file unchanged since it was added is found by both checks at the
      same size, and reported once. */
  lemma CrossPhaseUnchangedReportedOnce(rule: ConfigurableRule, path: Path, matches: Matcher, history: seq<Violation>, r: seq<Violation>)
    requires PlainSizeRule(rule, path, matches) && rule.maxSize == Some(500)
    requires IsDedupOf(history, BlobFindings([rule], [HistoryBlob(path, 800)], matches))
    requires IsDedupOf(r, FileFindings([rule], path, Some(800), matches).value + history)
    ensures |r| == 1 && r[0].path == path && r[0].sortKey == 800
  {
    var f := OversizeFinding(rule, path, 800);
    SingleVersionFindings(rule, path, matches);
    DedupOnePath(history, [f], 0);
    SingleRuleFindings(rule, path, 800, matches);
    assert [f] + history == [f, f];
    DedupOnePath(r, [f, f], 0);
  }

  /** `RuleEngine`: the rules in the order they were added. */
  /** The enabled rules, in their order. */
  function EnabledOf(rules: seq<ConfigurableRule>): (r: seq<ConfigurableRule>)
    ensures |r| <= |rules|
  {
    if rules == [] then []
    else
      var last := rules[|rules| - 1];
      EnabledOf(rules[..|rules| - 1]) + (if last.IsEnabled() then [last] else [])
  }

  /** A rule is listed as enabled exactly when it is one of the rules and is
      enabled. */
  lemma {:induction false} EnabledOfMembers(rules: seq<ConfigurableRule>)
    ensures forall x :: x in EnabledOf(rules) <==> x in rules && x.IsEnabled()
  {
    if rules != [] {
      var init := rules[..|rules| - 1];
      EnabledOfMembers(init);
      assert rules == init + [rules[|rules| - 1]];
    }
  }

  class RuleEngine {
    var rules: seq<ConfigurableRule>

    constructor()
      ensures rules == []
    {
      rules := [];
    }

    /** `add_rule`. */
    method AddRule(rule: ConfigurableRule)
      modifies this
      ensures rules == old(rules) + [rule]
    {
      rules := rules + [rule];
    }

    /** `get_enabled_rules`. */
    method GetEnabledRules() returns (r: seq<ConfigurableRule>)
      ensures r == EnabledOf(rules)
      ensures forall x :: x in r <==> x in rules && x.IsEnabled()
    {
      r := [];
      var i := 0;
      while i < |rules|
        invariant 0 <= i <= |rules|
        invariant r == EnabledOf(rules[..i])
      {
        assert rules[..i + 1][..i] == rules[..i];
        if rules[i].IsEnabled() {
          r := r + [rules[i]];
        }
        i := i + 1;
      }
      assert rules[..i] == rules;
      EnabledOfMembers(rules);
    }

    /** `check_file`: collect the applicable rules, sort them by priority
        and run the first. */
    method CheckFile(path: Path, size: Option<nat>, matches: Matcher) returns (r: Result<seq<Violation>>)
      ensures r == FileFindings(rules, path, size, matches)
    {
      var violations: seq<Violation> := [];
      var matching: seq<ConfigurableRule> := [];
      var i := 0;
      while i < |rules|
        invariant 0 <= i <= |rules|
        invariant matching == Applicable(rules[..i], path, matches)
      {
        var rule := rules[i];
        assert rules[..i + 1][..i] == rules[..i];
        if rule.IsEnabled() {
          if !rule.ShouldSkipFile(path, matches) {
            matching := matching + [rule];
          }
        }
        i := i + 1;
      }
      assert rules[..i] == rules;
      if matching != [] {
        matching := SortDesc(matching, Rank);
        var ruleViolations := matching[0].Check(path, size, matches);
        if ruleViolations.Err? {
          return ruleViolations;
        }
        violations := violations + ruleViolations.value;
        assert violations == ruleViolations.value;
      }
      return Ok(violations);
    }

    /** `check_files`: every path in order; the first failure aborts. */
    method CheckFiles(paths: seq<Path>, sizeOf: Path -> Option<nat>, matches: Matcher) returns (r: Result<seq<Violation>>)
      ensures r == CheckAll(paths, FileCheck(rules, sizeOf, matches))
    {
      var all: seq<Violation> := [];
      var i := 0;
      while i < |paths|
        invariant 0 <= i <= |paths|
        invariant CheckAll(paths[..i], FileCheck(rules, sizeOf, matches)) == Ok(all)
      {
        assert paths[..i + 1][..i] == paths[..i];
        var found := CheckFile(paths[i], sizeOf(paths[i]), matches);
        if found.Err? {
          FirstErrorPersists(paths, i + 1, FileCheck(rules, sizeOf, matches));
          return found;
        }
        all := all + found.value;
        i := i + 1;
      }
      assert paths[..i] == paths;
      return Ok(all);
    }

    /** The history-blob check: every blob is checked at its size as if it
        were a file, and the findings are deduplicated per path. */
    method CheckHistoryBlobs(blobs: seq<HistoryBlob>, matches: Matcher) returns (r: Result<seq<Violation>>)
      ensures r.Ok? && IsDedupOf(r.value, BlobFindings(rules, blobs, matches))
    {
      var all: seq<Violation> := [];
      var i := 0;
      while i < |blobs|
        invariant 0 <= i <= |blobs|
        invariant all == BlobFindings(rules, blobs[..i], matches)
      {
        assert blobs[..i + 1][..i] == blobs[..i];
        var found := CheckFile(blobs[i].path, Some(blobs[i].size), matches);
        KnownSizeNeverFails(rules, blobs[i].path, blobs[i].size, matches);
        all := all + found.value;
        i := i + 1;
      }
      assert blobs[..i] == blobs;
      var kept := Deduplicate(all);
      return Ok(kept);
    }
  }
}
