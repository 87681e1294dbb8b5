/** Reporting findings (src/output.rs): the summary, the paths shown
    relative to a base, the human report's grouping and order, and its
    closing status line. Colours, terminal writes, timing and JSON are not
    modelled; the report is returned as data. */
module Output {
  import opened Text
  import opened Base
  import opened Sorting
  import opened Violations

  /** `relative_path` before display: `path` without the `base` prefix when
      `base` is one, otherwise `path` itself. */
  function RelativeTo(base: Path, path: Path): (r: Path)
    ensures |base| <= |path| && path[..|base|] == base ==> base + r == path
    ensures !(|base| <= |path| && path[..|base|] == base) ==> r == path
  {
    match StripPrefix(path, base)
    case Some(rest) => rest
    case None => path
  }

  /** `relative_path`. */
  function RelativePath(base: Path, path: Path): string
  {
    Display(RelativeTo(base, path))
  }

  /** A path under the base is shown by its remainder alone. */
  lemma RelativeToUnderBase(base: Path, rest: Path)
    ensures RelativeTo(base, base + rest) == rest
  {
    assert (base + rest)[..|base|] == base;
  }

  function SeverityName(s: Severity): string
  {
    match s
    case Error => "error"
    case Warning => "warning"
  }

  /** `ViolationOutput`. */
  datatype ViolationOutput = ViolationOutput(
    path: string,
    ruleName: string,
    message: Message,
    severity: string,
    actualValue: Option<Value>,
    expectedValue: Option<Value>)

  /** `OutputSummary`. */
  datatype OutputSummary = OutputSummary(
    totalFilesChecked: nat,
    totalViolations: nat,
    errorCount: nat,
    warningCount: nat,
    rulesRun: seq<string>,
    violations: seq<ViolationOutput>)

  function ToOutput(base: Path, v: Violation): (o: ViolationOutput)
  {
    ViolationOutput(RelativePath(base, v.path), v.ruleName, v.message, SeverityName(v.severity),
                    v.actualValue, v.expectedValue)
  }

  /** The number of findings of one severity. */
  function CountSeverity(vs: seq<Violation>, s: Severity): (n: nat)
    ensures n <= |vs|
  {
    if vs == [] then 0
    else CountSeverity(vs[..|vs| - 1], s) + (if vs[|vs| - 1].severity == s then 1 else 0)
  }

  /** Every finding is either an error or a warning. */
  lemma {:induction false} CountsAddUp(vs: seq<Violation>)
    ensures CountSeverity(vs, Error) + CountSeverity(vs, Warning) == |vs|
  {
    if vs != [] {
      CountsAddUp(vs[..|vs| - 1]);
    }
  }

  /** No error is counted exactly when no finding is an error. */
  lemma {:induction false} CountZero(vs: seq<Violation>, s: Severity)
    ensures CountSeverity(vs, s) == 0 <==> forall i | 0 <= i < |vs| :: vs[i].severity != s
  {
    if vs != [] {
      var init := vs[..|vs| - 1];
      CountZero(init, s);
      assert forall i | 0 <= i < |init| :: init[i] == vs[i];
    }
  }

  /** Adding a finding counts it under its own severity only. */
  lemma CountSnoc(vs: seq<Violation>, i: nat, s: Severity)
    requires i < |vs|
    ensures CountSeverity(vs[..i + 1], s) == CountSeverity(vs[..i], s) + (if vs[i].severity == s then 1 else 0)
  {
    assert vs[..i + 1][..i] == vs[..i];
  }

  /** The rule names that occur among `vs`. */
  function RuleNames(vs: seq<Violation>): set<string>
  {
    if vs == [] then {} else RuleNames(vs[..|vs| - 1]) + {vs[|vs| - 1].ruleName}
  }

  /** A name is among the rule names exactly when some finding carries it. */
  lemma {:induction false} RuleNamesMembers(vs: seq<Violation>, n: string)
    ensures n in RuleNames(vs) <==> exists i | 0 <= i < |vs| :: vs[i].ruleName == n
  {
    if vs != [] {
      var init := vs[..|vs| - 1];
      RuleNamesMembers(init, n);
      if n in RuleNames(init) {
        var i :| 0 <= i < |init| && init[i].ruleName == n;
        assert vs[i] == init[i];
      }
      if exists i | 0 <= i < |vs| :: vs[i].ruleName == n {
        var i :| 0 <= i < |vs| && vs[i].ruleName == n;
        if i < |init| {
          assert vs[i] == init[i];
        }
      }
    }
  }

  /** Adding a finding adds its rule name. */
  lemma RuleNamesSnoc(vs: seq<Violation>, i: nat)
    requires i < |vs|
    ensures RuleNames(vs[..i + 1]) == RuleNames(vs[..i]) + {vs[i].ruleName}
  {
    assert vs[..i + 1][..i] == vs[..i];
  }

  /** `into_iter().collect()` on a set: each element once, in an
      unspecified order. */
  method SetToSeq(names: set<string>) returns (r: seq<string>)
    ensures forall n :: n in r <==> n in names
    ensures forall a, b | 0 <= a < b < |r| :: r[a] != r[b]
  {
    r := [];
    var remaining := names;
    while remaining != {}
      invariant remaining <= names
      invariant forall n :: n in r <==> n in names - remaining
      invariant forall a, b | 0 <= a < b < |r| :: r[a] != r[b]
      decreases remaining
    {
      var n :| n in remaining;
      assert n !in r;
      assert forall a | 0 <= a < |r| :: r[a] != n;
      r := r + [n];
      remaining := remaining - {n};
    }
  }

  /** The output entries of `vs`, one per finding, in order. */
  function Outputs(base: Path, vs: seq<Violation>): (os: seq<ViolationOutput>)
    ensures |os| == |vs| && forall i | 0 <= i < |vs| :: os[i] == ToOutput(base, vs[i])
  {
    if vs == [] then [] else Outputs(base, vs[..|vs| - 1]) + [ToOutput(base, vs[|vs| - 1])]
  }

  /** `create_summary`: one output per finding, in order; the two counts;
      and every rule name once, in the set's unspecified order. */
  method CreateSummary(base: Path, vs: seq<Violation>, filesChecked: nat) returns (s: OutputSummary)
    ensures s.totalFilesChecked == filesChecked && s.totalViolations == |vs|
    ensures s.errorCount == CountSeverity(vs, Error) && s.warningCount == CountSeverity(vs, Warning)
    ensures s.errorCount + s.warningCount == s.totalViolations
    ensures |s.violations| == |vs| && forall i | 0 <= i < |vs| :: s.violations[i] == ToOutput(base, vs[i])
    ensures forall n :: n in s.rulesRun <==> n in RuleNames(vs)
    ensures forall i, j | 0 <= i < j < |s.rulesRun| :: s.rulesRun[i] != s.rulesRun[j]
  {
    var rulesRun: set<string> := {};
    var errorCount := 0;
    var warningCount := 0;
    var outputs: seq<ViolationOutput> := [];
    var i := 0;
    while i < |vs|
      invariant 0 <= i <= |vs|
      invariant rulesRun == RuleNames(vs[..i])
      invariant errorCount == CountSeverity(vs[..i], Error)
      invariant warningCount == CountSeverity(vs[..i], Warning)
      invariant outputs == Outputs(base, vs[..i])
    {
      var v := vs[i];
      assert vs[..i + 1][..i] == vs[..i];
      ghost var errors, warnings := errorCount + (if v.severity == Error then 1 else 0),
                                    warningCount + (if v.severity == Warning then 1 else 0);
      assert RuleNames(vs[..i + 1]) == rulesRun + {v.ruleName}
          && CountSeverity(vs[..i + 1], Error) == errors
          && CountSeverity(vs[..i + 1], Warning) == warnings by {
        RuleNamesSnoc(vs, i);
        CountSnoc(vs, i, Error);
        CountSnoc(vs, i, Warning);
      }
      rulesRun := rulesRun + {v.ruleName};
      match v.severity {
        case Error => errorCount := errorCount + 1;
        case Warning => warningCount := warningCount + 1;
      }
      assert errorCount == errors && warningCount == warnings;
      outputs := outputs + [ToOutput(base, v)];
      i := i + 1;
    }
    assert vs[..i] == vs;
    assert errorCount + warningCount == |vs| by {
      CountsAddUp(vs);
    }
    var names := SetToSeq(rulesRun);
    s := OutputSummary(filesChecked, |vs|, errorCount, warningCount, names, outputs);
  }

  /** Byte-wise lexicographic order on names, the order of the report's
      rule map. */
  predicate NameLess(a: string, b: string)
  {
    if a == [] then b != []
    else if b == [] then false
    else if a[0] == b[0] then NameLess(a[1..], b[1..])
    else a[0] < b[0]
  }

  lemma {:induction false} NameLessIrreflexive(a: string)
    ensures !NameLess(a, a)
  {
    if a != [] {
      NameLessIrreflexive(a[1..]);
    }
  }

  lemma {:induction false} NameLessTotal(a: string, b: string)
    ensures a == b || NameLess(a, b) || NameLess(b, a)
  {
    if a != [] && b != [] && a[0] == b[0] {
      NameLessTotal(a[1..], b[1..]);
      if a[1..] == b[1..] {
        assert a == [a[0]] + a[1..] && b == [b[0]] + b[1..];
      }
    }
  }

  lemma {:induction false} NameLessTransitive(a: string, b: string, c: string)
    requires NameLess(a, b) && NameLess(b, c)
    ensures NameLess(a, c)
  {
    if a != [] && a[0] == b[0] && b[0] == c[0] {
      NameLessTransitive(a[1..], b[1..], c[1..]);
    }
  }

  /** Each name after its predecessor. */
  predicate Ascending(s: seq<string>)
  {
    forall i | 0 < i < |s| :: NameLess(s[i - 1], s[i])
  }

  /** In an ascending listing every name precedes all later ones. */
  lemma {:induction false} AscendingPairwise(s: seq<string>, i: nat, j: nat)
    requires Ascending(s) && i < j < |s|
    ensures NameLess(s[i], s[j])
    decreases j - i
  {
    if i + 1 < j {
      AscendingPairwise(s, i + 1, j);
      NameLessTransitive(s[i], s[i + 1], s[j]);
    }
  }

  /** Inserting a name into an ascending listing, as a sorted map adds a
      key; a name already present is not repeated. */
  function InsertName(n: string, s: seq<string>): (r: seq<string>)
    ensures r != [] && (r[0] == n || (s != [] && r[0] == s[0]))
    ensures forall x :: x in r <==> x == n || x in s
  {
    if s == [] then [n]
    else if n == s[0] then s
    else if NameLess(n, s[0]) then [n] + s
    else [s[0]] + InsertName(n, s[1..])
  }

  /** Insertion keeps a listing ascending. */
  lemma {:induction false} InsertNameAscending(n: string, s: seq<string>)
    requires Ascending(s)
    ensures Ascending(InsertName(n, s))
  {
    if s != [] && n != s[0] && !NameLess(n, s[0]) {
      NameLessTotal(n, s[0]);
      InsertNameAscending(n, s[1..]);
      var t := InsertName(n, s[1..]);
      assert Ascending([s[0]] + t) by {
        forall i | 0 < i < |[s[0]] + t| ensures NameLess(([s[0]] + t)[i - 1], ([s[0]] + t)[i]) {
          if i == 1 {
            assert t[0] == n || t[0] == s[1];
          } else {
            assert ([s[0]] + t)[i - 1] == t[i - 2] && ([s[0]] + t)[i] == t[i - 1];
          }
        }
      }
    }
  }

  /** The rule names of `vs` in the order the report lists them. */
  function SortedRuleNames(vs: seq<Violation>): seq<string>
  {
    if vs == [] then []
    else InsertName(vs[|vs| - 1].ruleName, SortedRuleNames(vs[..|vs| - 1]))
  }

  /** The report lists each rule name that occurs exactly once, in
      ascending order. */
  lemma {:induction false} SortedRuleNamesCorrect(vs: seq<Violation>)
    ensures Ascending(SortedRuleNames(vs))
    ensures forall n :: n in SortedRuleNames(vs) <==> n in RuleNames(vs)
  {
    if vs != [] {
      var init := vs[..|vs| - 1];
      SortedRuleNamesCorrect(init);
      InsertNameAscending(vs[|vs| - 1].ruleName, SortedRuleNames(init));
    }
  }

  /** The findings of one rule, in order. */
  function OfRule(vs: seq<Violation>, name: string): (r: seq<Violation>)
    ensures |r| <= |vs|
  {
    if vs == [] then []
    else OfRule(vs[..|vs| - 1], name) + (if vs[|vs| - 1].ruleName == name then [vs[|vs| - 1]] else [])
  }

  /** The findings of one severity, in order. */
  function OfSeverity(vs: seq<Violation>, s: Severity): (r: seq<Violation>)
    ensures |r| <= |vs|
  {
    if vs == [] then []
    else OfSeverity(vs[..|vs| - 1], s) + (if vs[|vs| - 1].severity == s then [vs[|vs| - 1]] else [])
  }

  lemma {:induction false} OfRuleMembers(vs: seq<Violation>, name: string, v: Violation)
    ensures v in OfRule(vs, name) <==> v in vs && v.ruleName == name
  {
    if vs != [] {
      var init := vs[..|vs| - 1];
      OfRuleMembers(init, name, v);
      assert vs == init + [vs[|vs| - 1]];
    }
  }

  lemma {:induction false} OfSeverityMembers(vs: seq<Violation>, s: Severity, v: Violation)
    ensures v in OfSeverity(vs, s) <==> v in vs && v.severity == s
  {
    if vs != [] {
      var init := vs[..|vs| - 1];
      OfSeverityMembers(init, s, v);
      assert vs == init + [vs[|vs| - 1]];
    }
  }

  function SortKey(v: Violation): int
  {
    v.sortKey
  }

  /** One block of the human report: a rule's errors, then its warnings,
      each headed by the message of its first entry. */
  datatype Group = Group(ruleName: string, errors: seq<Violation>, warnings: seq<Violation>)

  /** The block for one rule: its errors and its warnings, each sorted by
      descending key, ties in their original order. */
  function GroupOf(vs: seq<Violation>, name: string): Group
  {
    GroupFrom(name, OfRule(vs, name))
  }

  /** The block made from a rule's own findings `own`. */
  function GroupFrom(name: string, own: seq<Violation>): Group
  {
    Group(name, SortDesc(OfSeverity(own, Error), SortKey), SortDesc(OfSeverity(own, Warning), SortKey))
  }

  /** The blocks for the given names, in order. */
  function GroupsFor(vs: seq<Violation>, names: seq<string>): (gs: seq<Group>)
    ensures |gs| == |names|
  {
    if names == [] then [] else GroupsFor(vs, names[..|names| - 1]) + [GroupOf(vs, names[|names| - 1])]
  }

  /** The i-th block is the block of the i-th name. */
  lemma {:induction false} GroupsForIndex(vs: seq<Violation>, names: seq<string>, i: nat)
    requires i < |names|
    ensures GroupsFor(vs, names)[i] == GroupOf(vs, names[i])
  {
    var init := names[..|names| - 1];
    if i < |init| {
      GroupsForIndex(vs, init, i);
    }
  }

  /** The human report's blocks. */
  function Report(vs: seq<Violation>): (r: seq<Group>)
    ensures |r| == |SortedRuleNames(vs)|
    ensures forall i | 0 <= i < |r| :: r[i].ruleName == SortedRuleNames(vs)[i] && r[i].ruleName in RuleNames(vs)
  {
    GroupsForNames(vs, SortedRuleNames(vs));
    SortedRuleNamesCorrect(vs);
    GroupsFor(vs, SortedRuleNames(vs))
  }

  /** The i-th block is headed by the i-th name. */
  lemma {:induction false} GroupsForNames(vs: seq<Violation>, names: seq<string>)
    ensures forall i | 0 <= i < |names| :: GroupsFor(vs, names)[i].ruleName == names[i]
  {
    if names != [] {
      var init := names[..|names| - 1];
      GroupsForNames(vs, init);
      assert GroupsFor(vs, names) == GroupsFor(vs, init) + [GroupOf(vs, names[|names| - 1])];
    }
  }

  /** The report has one block per rule that has findings, in ascending
      name order. */
  lemma ReportOrder(vs: seq<Violation>)
    ensures forall i, j | 0 <= i < j < |Report(vs)| :: NameLess(Report(vs)[i].ruleName, Report(vs)[j].ruleName)
    ensures forall n :: (exists i | 0 <= i < |Report(vs)| :: Report(vs)[i].ruleName == n) <==> n in RuleNames(vs)
  {
    var names := SortedRuleNames(vs);
    var r := Report(vs);
    SortedRuleNamesCorrect(vs);
    GroupsForNames(vs, names);
    assert forall i | 0 <= i < |r| :: r[i].ruleName == names[i];
    forall i, j | 0 <= i < j < |r|
      ensures NameLess(r[i].ruleName, r[j].ruleName)
    {
      AscendingPairwise(names, i, j);
    }
    forall n | n in RuleNames(vs)
      ensures exists i | 0 <= i < |r| :: r[i].ruleName == n
    {
      var i :| 0 <= i < |names| && names[i] == n;
      assert r[i].ruleName == n;
    }
  }

  /** A block lists exactly the rule's errors, then exactly its warnings,
      each as a permutation sorted by descending key. */
  lemma GroupContents(vs: seq<Violation>, name: string, v: Violation)
    ensures var g := GroupOf(vs, name);
      SortedDesc(g.errors, SortKey) && SortedDesc(g.warnings, SortKey) &&
      multiset(g.errors) == multiset(OfSeverity(OfRule(vs, name), Error)) &&
      multiset(g.warnings) == multiset(OfSeverity(OfRule(vs, name), Warning)) &&
      (v in g.errors <==> v in vs && v.ruleName == name && v.severity == Error) &&
      (v in g.warnings <==> v in vs && v.ruleName == name && v.severity == Warning)
  {
    var own := OfRule(vs, name);
    SortDescSorted(OfSeverity(own, Error), SortKey);
    SortDescSorted(OfSeverity(own, Warning), SortKey);
    SortDescPermutation(OfSeverity(own, Error), SortKey);
    SortDescPermutation(OfSeverity(own, Warning), SortKey);
    OfRuleMembers(vs, name, v);
    OfSeverityMembers(own, Error, v);
    OfSeverityMembers(own, Warning, v);
    assert v in SortDesc(OfSeverity(own, Error), SortKey) <==> v in multiset(OfSeverity(own, Error));
    assert v in SortDesc(OfSeverity(own, Warning), SortKey) <==> v in multiset(OfSeverity(own, Warning));
  }

  /** The map `by_rule` after the findings `vs` are added in order: each
      finding appended to the list under its rule's name. */
  function ByRule(vs: seq<Violation>): map<string, seq<Violation>>
  {
    if vs == [] then map[]
    else
      var m := ByRule(vs[..|vs| - 1]);
      var v := vs[|vs| - 1];
      m[v.ruleName := (if v.ruleName in m then m[v.ruleName] else []) + [v]]
  }

  /** The map holds a key exactly for each rule that has findings, and under
      it exactly that rule's findings in their original order. */
  lemma {:induction false} ByRuleCorrect(vs: seq<Violation>)
    ensures forall n :: n in ByRule(vs) <==> n in RuleNames(vs)
    ensures forall n :: (if n in ByRule(vs) then ByRule(vs)[n] else []) == OfRule(vs, n)
  {
    if vs != [] {
      var init := vs[..|vs| - 1];
      ByRuleCorrect(init);
      forall n
        ensures (if n in ByRule(vs) then ByRule(vs)[n] else []) == OfRule(vs, n)
      {
        OfRuleSnoc(vs, |vs| - 1, n);
        assert vs[..|vs|] == vs;
      }
    }
  }

  /** The sorted map `by_rule`: each rule's findings in order, and its
      keys in ascending order. */
  method GroupByRule(vs: seq<Violation>) returns (byRule: map<string, seq<Violation>>, names: seq<string>)
    ensures names == SortedRuleNames(vs)
    ensures byRule == ByRule(vs)
  {
    byRule := map[];
    names := [];
    var i := 0;
    while i < |vs|
      invariant 0 <= i <= |vs|
      invariant names == SortedRuleNames(vs[..i])
      invariant byRule == ByRule(vs[..i])
    {
      var v := vs[i];
      assert vs[..i + 1][..i] == vs[..i];
      var entry := if v.ruleName in byRule then byRule[v.ruleName] else [];
      byRule := byRule[v.ruleName := entry + [v]];
      names := InsertName(v.ruleName, names);
      i := i + 1;
    }
    assert vs[..i] == vs;
  }

  /** Adding a finding extends its rule's list and no other. */
  lemma OfRuleSnoc(vs: seq<Violation>, i: nat, n: string)
    requires i < |vs|
    ensures OfRule(vs[..i + 1], n) == OfRule(vs[..i], n) + (if vs[i].ruleName == n then [vs[i]] else [])
  {
    assert vs[..i + 1][..i] == vs[..i];
  }

  /** A rule's findings split into errors and warnings, in order. */
  method SplitBySeverity(own: seq<Violation>) returns (errors: seq<Violation>, warnings: seq<Violation>)
    ensures errors == OfSeverity(own, Error) && warnings == OfSeverity(own, Warning)
  {
    errors := [];
    warnings := [];
    var k := 0;
    while k < |own|
      invariant 0 <= k <= |own|
      invariant errors == OfSeverity(own[..k], Error)
      invariant warnings == OfSeverity(own[..k], Warning)
    {
      assert own[..k + 1][..k] == own[..k];
      match own[k].severity {
        case Error => errors := errors + [own[k]];
        case Warning => warnings := warnings + [own[k]];
      }
      k := k + 1;
    }
    assert own[..k] == own;
  }

  /** One rule's block: its findings split by severity, each part sorted
      by descending key. */
  method BuildGroup(name: string, own: seq<Violation>) returns (g: Group)
    ensures g == GroupFrom(name, own)
  {
    var errors, warnings := SplitBySeverity(own);
    errors := SortDesc(errors, SortKey);
    warnings := SortDesc(warnings, SortKey);
    g := Group(name, errors, warnings);
  }

  /** Adding a name adds its block at the end. */
  lemma GroupsForSnoc(vs: seq<Violation>, names: seq<string>, j: nat)
    requires j < |names|
    ensures GroupsFor(vs, names[..j + 1]) == GroupsFor(vs, names[..j]) + [GroupOf(vs, names[j])]
  {
    assert names[..j + 1][..j] == names[..j];
  }

  /** The grouping part of `output_human`: fill a sorted map from rule name
      to findings, then split each rule's findings by severity and sort
      each part by descending key. */
  method HumanReport(vs: seq<Violation>) returns (groups: seq<Group>)
    ensures groups == Report(vs)
  {
    var byRule, names := GroupByRule(vs);
    groups := [];
    var j := 0;
    while j < |names|
      invariant 0 <= j <= |names|
      invariant groups == GroupsFor(vs, names[..j])
    {
      assert names[j] in byRule && byRule[names[j]] == OfRule(vs, names[j]) by {
        ByRuleCorrect(vs);
        SortedRuleNamesCorrect(vs);
      }
      var own := byRule[names[j]];
      var group := BuildGroup(names[j], own);
      GroupsForSnoc(vs, names, j);
      groups := groups + [group];
      j := j + 1;
    }
    assert names[..j] == names;
  }

  /** The closing status of the human report. */
  datatype Status = Failed | Warnings | Passed

  function StatusOf(errorCount: nat, warningCount: nat): (st: Status)
    ensures st == Failed <==> errorCount > 0
    ensures st == Warnings <==> errorCount == 0 && warningCount > 0
    ensures st == Passed <==> errorCount == 0 && warningCount == 0
  {
    if errorCount > 0 then Failed
    else if warningCount > 0 then Warnings
    else Passed
  }

  /** The status a list of findings earns: FAILED with any error, WARNINGS
      with warnings only, PASSED with none. */
  lemma StatusOfFindings(vs: seq<Violation>)
    ensures StatusOf(CountSeverity(vs, Error), CountSeverity(vs, Warning)) == Failed
            <==> exists i | 0 <= i < |vs| :: vs[i].severity == Error
    ensures StatusOf(CountSeverity(vs, Error), CountSeverity(vs, Warning)) == Passed <==> vs == []
  {
    CountZero(vs, Error);
    CountsAddUp(vs);
  }

  /** "n error" or "n errors": the singular noun exactly for a count of 1. */
  function Counted(n: nat, singular: string, plural: string): (s: string)
    ensures n == 1 ==> s == "1 " + singular
    ensures n != 1 ==> s == NatToString(n) + " " + plural
  {
    NatToString(n) + " " + (if n == 1 then singular else plural)
  }

  /** The parts of the closing line: files checked, then the error count
      and the warning count when they are not zero. */
  function SummaryParts(s: OutputSummary): (parts: seq<string>)
    ensures |parts| == 1 + (if s.errorCount > 0 then 1 else 0) + (if s.warningCount > 0 then 1 else 0)
    ensures parts[0] == "Checked " + NatToString(s.totalFilesChecked) + " files"
    ensures s.errorCount > 0 ==> parts[1] == Counted(s.errorCount, "error", "errors")
    ensures s.warningCount > 0 ==> parts[|parts| - 1] == Counted(s.warningCount, "warning", "warnings")
  {
    ["Checked " + NatToString(s.totalFilesChecked) + " files"]
      + (if s.errorCount > 0 then [Counted(s.errorCount, "error", "errors")] else [])
      + (if s.warningCount > 0 then [Counted(s.warningCount, "warning", "warnings")] else [])
  }
}
