/** The `check` command (src/app.rs): which paths are checked, how their
    files are discovered, how the rule engine is assembled from the
    configuration, and when the run ends with a failing exit status.
    Printing, timing and `process::exit` are outside the model: the exit
    status is returned as a value. */
module App {
  import opened Base
  import opened Configuration
  import opened Violations
  import opened Rules
  import opened Git
  import opened Discovery
  import Output
  import Cli

  /** `PathBuf::from(".")`. */
  const CurrentDir: Path := ["."]

  /** `determine_check_paths`: the paths given to the command, or the
      command line's default paths when none were given. */
  function DetermineCheckPaths(paths: seq<Path>, defaultPaths: seq<Path>): (r: seq<Path>)
    ensures paths != [] ==> r == paths
    ensures paths == [] ==> r == defaultPaths
  {
    if paths == [] then defaultPaths else paths
  }

  /** The root of `setup_file_discovery`: the first check path, or the
      current directory when there is none. */
  function DiscoveryRoot(checkPaths: seq<Path>): (root: Path)
    ensures checkPaths != [] ==> root == checkPaths[0]
    ensures checkPaths == [] ==> root == CurrentDir
  {
    if checkPaths == [] then CurrentDir else checkPaths[0]
  }

  /** The four ways `discover_files` can find the files to check. */
  datatype DiscoveryMode =
    | StagedFiles
    | WorkingTreeFiles
    | FullWalk(respectGitignore: bool)
    | SpecificPaths(paths: seq<Path>)

  /** The mode `discover_files` picks: staged files when asked on the command
      line, or by the configuration inside a repository; else working-tree
      files by the same rule; else a full walk for the single path "."; else
      the given paths. */
  function SelectMode(cliStaged: bool, cliWorkingTree: bool, settings: Settings, inRepo: bool,
                      checkPaths: seq<Path>): (m: DiscoveryMode)
    ensures m.StagedFiles? <==> cliStaged || (settings.checkStaged && inRepo)
    ensures m.WorkingTreeFiles? <==>
              !(cliStaged || (settings.checkStaged && inRepo)) && (cliWorkingTree || (settings.checkWorkingTree && inRepo))
    ensures m.FullWalk? <==>
              !(cliStaged || (settings.checkStaged && inRepo)) && !(cliWorkingTree || (settings.checkWorkingTree && inRepo))
              && checkPaths == [CurrentDir]
    ensures m.FullWalk? ==> m.respectGitignore == settings.respectGitignore
    ensures m.SpecificPaths? ==> m.paths == checkPaths
  {
    if cliStaged || (settings.checkStaged && inRepo) then StagedFiles
    else if cliWorkingTree || (settings.checkWorkingTree && inRepo) then WorkingTreeFiles
    else if |checkPaths| == 1 && checkPaths[0] == CurrentDir then FullWalk(settings.respectGitignore)
    else SpecificPaths(checkPaths)
  }

  /** Outside a repository the configuration's git flags are ignored: only
      the command-line flags can ask for git-based discovery. */
  lemma ConfigGitFlagsNeedRepo(settings: Settings, checkPaths: seq<Path>)
    ensures var m := SelectMode(false, false, settings, false, checkPaths);
      (m.FullWalk? || m.SpecificPaths?) && (m.FullWalk? <==> checkPaths == [CurrentDir])
  {
  }

  /** What the file system and git give the discovery: the output of the
      staged and working-tree queries, the walker's entries from the root
      (with or without gitignore handling), which paths are files and
      directories, and the walk of each directory. */
  datatype Environment = Environment(
    stagedOutput: CommandOutput,
    workingTreeOutput: CommandOutput,
    rootWalk: bool -> seq<WalkEntry>,
    isFile: Path -> bool,
    isDir: Path -> bool,
    dirWalk: Path -> seq<WalkEntry>)

  /** `discover_files` once the mode is chosen. */
  function DiscoverFiles(d: FileDiscovery, mode: DiscoveryMode, env: Environment): (r: Result<seq<Path>>)
    ensures mode.FullWalk? ==> r == Ok(Walked(env.rootWalk(mode.respectGitignore), d.excluded))
    ensures mode.SpecificPaths? ==> r == Ok(SpecificFiles(d, mode.paths, env.isFile, env.isDir, env.dirWalk))
    ensures mode.StagedFiles? ==> r == DiscoverStagedFiles(d, env.stagedOutput)
    ensures mode.WorkingTreeFiles? ==> r == DiscoverWorkingTreeFiles(d, env.workingTreeOutput)
    ensures (mode.StagedFiles? || mode.WorkingTreeFiles?) && !IsInGitRepo(d) ==> r == Err(NoRepo(d))
  {
    match mode
    case StagedFiles => DiscoverStagedFiles(d, env.stagedOutput)
    case WorkingTreeFiles => DiscoverWorkingTreeFiles(d, env.workingTreeOutput)
    case FullWalk(respectGitignore) => Ok(Walked(env.rootWalk(respectGitignore), d.excluded))
    case SpecificPaths(paths) => Ok(SpecificFiles(d, paths, env.isFile, env.isDir, env.dirWalk))
  }

  /** `--staged` outside a repository is an error; `check_staged` in the
      configuration outside a repository falls back to walking ".". */
  lemma StagedOutsideRepo(d: FileDiscovery, settings: Settings, env: Environment)
    requires !IsInGitRepo(d)
    ensures DiscoverFiles(d, SelectMode(true, false, settings, IsInGitRepo(d), [CurrentDir]), env) == Err(NoRepo(d))
    ensures settings.checkStaged ==>
              DiscoverFiles(d, SelectMode(false, false, settings, IsInGitRepo(d), [CurrentDir]), env)
              == Ok(Walked(env.rootWalk(settings.respectGitignore), d.excluded))
  {
  }

  /** `.iter().any(|v| v.severity == s)`. */
  function HasSeverity(vs: seq<Violation>, s: Severity): (b: bool)
    ensures b <==> exists i | 0 <= i < |vs| :: vs[i].severity == s
  {
    if vs == [] then false
    else
      var b := vs[0].severity == s || HasSeverity(vs[1..], s);
      assert forall i | 1 <= i < |vs| :: vs[i] == vs[1..][i - 1];
      b
  }

  /** The exit decision of `output_results_and_exit`: a run with findings
      fails when one is an error, or when warnings fail the run (on the
      command line or in the configuration) and one is a warning; an empty
      list never fails. */
  function ExitFailure(vs: seq<Violation>, cliFailOnWarn: bool, configFailOnWarn: bool): (b: bool)
    ensures b <==> (exists i | 0 <= i < |vs| :: vs[i].severity == Error) ||
                   ((cliFailOnWarn || configFailOnWarn) && exists i | 0 <= i < |vs| :: vs[i].severity == Warning)
  {
    if vs == [] then false
    else HasSeverity(vs, Error) || ((cliFailOnWarn || configFailOnWarn) && HasSeverity(vs, Warning))
  }

  /** Without fail-on-warn, the exit status fails exactly when the report's
      status is FAILED. */
  lemma ExitAgreesWithStatus(vs: seq<Violation>)
    ensures ExitFailure(vs, false, false) <==>
              Output.StatusOf(Output.CountSeverity(vs, Error), Output.CountSeverity(vs, Warning)) == Output.Failed
  {
    Output.StatusOfFindings(vs);
  }

  /** `add_default_rule`'s definition: enabled, priority 1000, the global
      thresholds, no include or exclude patterns and no match flags. */
  function DefaultRuleDefinition(settings: Settings): (def: RuleDefinition)
    ensures def.enabled && def.priority == 1000 && def.description == "Default file size check"
    ensures def.maxSize == settings.maxFileSize && def.warnSize == settings.warnFileSize
    ensures def.includes == [] && def.excludes == [] && !def.warnOnMatch && !def.errorOnMatch
  {
    RuleDefinition(true, "Default file size check", 1000, settings.maxFileSize, settings.warnFileSize,
                   [], [], false, false)
  }

  /** A configured rule with the global thresholds filled in where it sets
      none of its own. */
  function Inherit(settings: Settings, def: RuleDefinition): (r: RuleDefinition)
    ensures r.maxSize == (if def.maxSize.None? then settings.maxFileSize else def.maxSize)
    ensures r.warnSize == (if def.warnSize.None? then settings.warnFileSize else def.warnSize)
    ensures r.(maxSize := def.maxSize, warnSize := def.warnSize) == def
  {
    var withMax := if def.maxSize.None? then def.(maxSize := settings.maxFileSize) else def;
    if withMax.warnSize.None? then withMax.(warnSize := settings.warnFileSize) else withMax
  }

  /** How a rule is built from its name and definition (`NewRule` in the
      engine; any builder in the lemmas about the listing). */
  type RuleBuilder = (string, RuleDefinition) -> Result<ConfigurableRule>

  /** The configured rules built in listing order, or the error of the first
      that cannot be built. */
  function ConfiguredRules(settings: Settings, enabled: seq<(string, RuleDefinition)>, build: RuleBuilder): (r: Result<seq<ConfigurableRule>>)
    ensures r.Ok? ==> |r.value| == |enabled|
  {
    if enabled == [] then Ok([])
    else
      var last := enabled[|enabled| - 1];
      match ConfiguredRules(settings, enabled[..|enabled| - 1], build)
      case Err(e) => Err(e)
      case Ok(rules) =>
        match build(last.0, Inherit(settings, last.1))
        case Err(e) => Err(e)
        case Ok(rule) => Ok(rules + [rule])
  }

  /** The rules of the engine `create_rule_engine` builds: the default rule,
      then every enabled configured rule; or the first error. */
  function EngineRules(settings: Settings, enabled: seq<(string, RuleDefinition)>): (r: Result<seq<ConfigurableRule>>)
    ensures NewRule("default", DefaultRuleDefinition(settings)).Err? ==>
              r == Err(NewRule("default", DefaultRuleDefinition(settings)).error)
    ensures r.Ok? ==> |r.value| == |enabled| + 1 && r.value[0] == NewRule("default", DefaultRuleDefinition(settings)).value
  {
    match NewRule("default", DefaultRuleDefinition(settings))
    case Err(e) => Err(e)
    case Ok(defaultRule) =>
      match ConfiguredRules(settings, enabled, NewRule)
      case Err(e) => Err(e)
      case Ok(rules) => Ok([defaultRule] + rules)
  }

  /** The i-th configured rule is built from the i-th listed definition with
      the global thresholds inherited; building fails exactly when one of
      them cannot be built. */
  lemma {:induction false} ConfiguredRulesCorrect(settings: Settings, enabled: seq<(string, RuleDefinition)>, build: RuleBuilder)
    ensures ConfiguredRules(settings, enabled, build).Ok? <==>
              forall i | 0 <= i < |enabled| :: build(enabled[i].0, Inherit(settings, enabled[i].1)).Ok?
    ensures ConfiguredRules(settings, enabled, build).Ok? ==>
              forall i | 0 <= i < |enabled| ::
                ConfiguredRules(settings, enabled, build).value[i] == build(enabled[i].0, Inherit(settings, enabled[i].1)).value
  {
    if enabled != [] {
      var n := |enabled| - 1;
      var init := enabled[..n];
      ConfiguredRulesCorrect(settings, init, build);
      assert forall i | 0 <= i < n :: init[i] == enabled[i];
    }
  }

  /** The engine's rules are the default rule followed by the configured
      rules; the default rule's error comes first, then the first error
      among the configured rules. */
  lemma EngineRulesCases(settings: Settings, enabled: seq<(string, RuleDefinition)>)
    ensures var d := NewRule("default", DefaultRuleDefinition(settings));
      var c := ConfiguredRules(settings, enabled, NewRule);
      (d.Err? ==> EngineRules(settings, enabled) == Err(d.error)) &&
      (d.Ok? && c.Err? ==> EngineRules(settings, enabled) == Err(c.error)) &&
      (d.Ok? && c.Ok? ==> EngineRules(settings, enabled) == Ok([d.value] + c.value))
  {
  }

  /** The engine's first rule is the default rule, built from the global
      thresholds; it takes part for every path, so no path is left without
      a governing rule. */
  lemma DefaultRuleCoversEveryPath(settings: Settings, enabled: seq<(string, RuleDefinition)>, path: Path, matches: Matcher)
    requires EngineRules(settings, enabled).Ok?
    ensures var rules := EngineRules(settings, enabled).value;
      rules[0].name == "default" && rules[0].definition == DefaultRuleDefinition(settings) &&
      Applicable(rules, path, matches) != []
  {
    var rules := EngineRules(settings, enabled).value;
    EngineRulesCases(settings, enabled);
    assert !AnyMatch([], path, matches);
    assert Applies(rules[0], path, matches);
  }

  /** `add_default_rule`. */
  method AddDefaultRule(settings: Settings, engine: RuleEngine) returns (r: Result<()>)
    modifies engine
    ensures NewRule("default", DefaultRuleDefinition(settings)).Err? ==>
              r == Err(NewRule("default", DefaultRuleDefinition(settings)).error) && engine.rules == old(engine.rules)
    ensures NewRule("default", DefaultRuleDefinition(settings)).Ok? ==>
              r == Ok(()) && engine.rules == old(engine.rules) + [NewRule("default", DefaultRuleDefinition(settings)).value]
  {
    var defaultRule := DefaultRuleDefinition(settings);
    var rule := NewRule("default", defaultRule);
    if rule.Err? {
      return Err(rule.error);
    }
    engine.AddRule(rule.value);
    return Ok(());
  }

  /** The loop of `create_rule_engine`: each listed rule, with the global
      thresholds inherited, is built and added; the first that cannot be
      built ends the loop with its error. */
  method AddConfiguredRules(settings: Settings, enabled: seq<(string, RuleDefinition)>, engine: RuleEngine)
    returns (r: Result<()>)
    modifies engine
    ensures ConfiguredRules(settings, enabled, NewRule).Err? ==> r == Err(ConfiguredRules(settings, enabled, NewRule).error)
    ensures ConfiguredRules(settings, enabled, NewRule).Ok? ==>
              r == Ok(()) && engine.rules == old(engine.rules) + ConfiguredRules(settings, enabled, NewRule).value
  {
    var i := 0;
    while i < |enabled|
      invariant 0 <= i <= |enabled|
      invariant ConfiguredRules(settings, enabled[..i], NewRule).Ok?
      invariant engine.rules == old(engine.rules) + ConfiguredRules(settings, enabled[..i], NewRule).value
    {
      var (ruleName, ruleDefinition) := enabled[i];
      ruleDefinition := Inherit(settings, ruleDefinition);
      var rule := NewRule(ruleName, ruleDefinition);
      if rule.Err? {
        assert ConfiguredRules(settings, enabled, NewRule) == Err(rule.error) by {
          ConfiguredRulesSnoc(settings, enabled, i, NewRule);
          FirstRuleErrorPersists(settings, enabled, i + 1, NewRule);
        }
        return Err(rule.error);
      }
      assert ConfiguredRules(settings, enabled[..i + 1], NewRule)
             == Ok(ConfiguredRules(settings, enabled[..i], NewRule).value + [rule.value]) by {
        ConfiguredRulesSnoc(settings, enabled, i, NewRule);
      }
      engine.AddRule(rule.value);
      i := i + 1;
    }
    assert enabled[..i] == enabled;
    return Ok(());
  }

  /** A new engine holding the default rule for `settings`, then the rules
      of the listing `enabled`; or the first error. */
  method BuildEngine(settings: Settings, enabled: seq<(string, RuleDefinition)>) returns (r: Result<RuleEngine>)
    ensures r.Ok? <==> EngineRules(settings, enabled).Ok?
    ensures r.Err? ==> r.error == EngineRules(settings, enabled).error
    ensures r.Ok? ==> fresh(r.value) && r.value.rules == EngineRules(settings, enabled).value
  {
    var engine := new RuleEngine();
    EngineRulesCases(settings, enabled);
    var added := AddDefaultRule(settings, engine);
    if added.Err? {
      return Err(added.error);
    }
    added := AddConfiguredRules(settings, enabled, engine);
    if added.Err? {
      return Err(added.error);
    }
    return Ok(engine);
  }

  /** `create_rule_engine`: the default rule, then each enabled rule of the
      configuration, in the order the rule table lists them, with the global
      thresholds inherited. `enabled` is that listing. */
  method CreateRuleEngine(config: Config) returns (r: Result<RuleEngine>, enabled: seq<(string, RuleDefinition)>)
    ensures config.rules.None? ==> enabled == []
    ensures config.rules.Some? ==> IsEnabledListing(config.rules.value.rules, enabled)
    ensures r.Ok? <==> EngineRules(config.sizelint.Snapshot(), enabled).Ok?
    ensures r.Err? ==> r.error == EngineRules(config.sizelint.Snapshot(), enabled).error
    ensures r.Ok? ==> fresh(r.value) && r.value.rules == EngineRules(config.sizelint.Snapshot(), enabled).value
  {
    enabled := [];
    if config.rules.Some? {
      enabled := config.rules.value.GetEnabledRules();
    }
    r := BuildEngine(config.sizelint.Snapshot(), enabled);
  }

  /** Building one more listed rule appends it, or fails with its error. */
  lemma ConfiguredRulesSnoc(settings: Settings, enabled: seq<(string, RuleDefinition)>, i: nat, build: RuleBuilder)
    requires i < |enabled| && ConfiguredRules(settings, enabled[..i], build).Ok?
    ensures var built := build(enabled[i].0, Inherit(settings, enabled[i].1));
      (built.Err? ==> ConfiguredRules(settings, enabled[..i + 1], build) == Err(built.error)) &&
      (built.Ok? ==> ConfiguredRules(settings, enabled[..i + 1], build)
                     == Ok(ConfiguredRules(settings, enabled[..i], build).value + [built.value]))
  {
    assert enabled[..i + 1][..i] == enabled[..i];
  }

  /** A rule that cannot be built makes every longer listing fail with the
      same error. */
  lemma {:induction false} FirstRuleErrorPersists(settings: Settings, enabled: seq<(string, RuleDefinition)>, n: nat, build: RuleBuilder)
    requires n <= |enabled| && ConfiguredRules(settings, enabled[..n], build).Err?
    ensures ConfiguredRules(settings, enabled, build) == ConfiguredRules(settings, enabled[..n], build)
    decreases |enabled| - n
  {
    if n < |enabled| {
      assert enabled[..n + 1][..n] == enabled[..n];
      FirstRuleErrorPersists(settings, enabled, n + 1, build);
    } else {
      assert enabled[..n] == enabled;
    }
  }

  /** What a check run ends with: nothing to check, or the findings, the
      number of files checked and whether the run fails. */
  datatype Outcome =
    | NothingToCheck
    | Checked(violations: seq<Violation>, fileCount: nat, failure: bool)

  /** The outcome of `validate_and_check_files` for the engine rules
      `engine` (or the error building them). */
  function RunOutcome(files: seq<Path>, engine: Result<seq<ConfigurableRule>>, sizeOf: Path -> Option<nat>,
                      matches: Matcher, cliFailOnWarn: bool, configFailOnWarn: bool): (r: Result<Outcome>)
    ensures files == [] ==> r == Ok(NothingToCheck)
    ensures files != [] && engine.Err? ==> r == Err(engine.error)
    ensures files != [] && engine.Ok? && r.Err? ==>
              exists i | 0 <= i < |files| :: FileCheck(engine.value, sizeOf, matches)(files[i]) == Err(r.error)
    ensures files != [] && r.Ok? ==> r.value.Checked? && r.value.fileCount == |files|
  {
    if files == [] then Ok(NothingToCheck)
    else
      match engine
      case Err(e) => Err(e)
      case Ok(rules) =>
        match CheckAll(files, FileCheck(rules, sizeOf, matches))
        case Err(e) => Err(e)
        case Ok(vs) => Ok(Checked(vs, |files|, ExitFailure(vs, cliFailOnWarn, configFailOnWarn)))
  }

  /** An empty file list succeeds without building any rule, so even a
      configuration whose sizes do not parse passes. */
  lemma NoFilesAlwaysSucceeds(engine: Result<seq<ConfigurableRule>>, sizeOf: Path -> Option<nat>, matches: Matcher,
                              cliFailOnWarn: bool, configFailOnWarn: bool)
    ensures RunOutcome([], engine, sizeOf, matches, cliFailOnWarn, configFailOnWarn) == Ok(NothingToCheck)
  {
  }

  /** A run over files fails to start exactly when the engine cannot be
      built; otherwise it counts every file and fails exactly as the exit
      rule says. */
  lemma RunOutcomeCorrect(files: seq<Path>, engine: Result<seq<ConfigurableRule>>, sizeOf: Path -> Option<nat>,
                          matches: Matcher, cliFailOnWarn: bool, configFailOnWarn: bool)
    requires files != []
    ensures engine.Err? ==> RunOutcome(files, engine, sizeOf, matches, cliFailOnWarn, configFailOnWarn) == Err(engine.error)
    ensures var r := RunOutcome(files, engine, sizeOf, matches, cliFailOnWarn, configFailOnWarn);
      r.Ok? ==> r.value.Checked? && r.value.fileCount == |files| &&
                (r.value.failure <==>
                  (exists i | 0 <= i < |r.value.violations| :: r.value.violations[i].severity == Error) ||
                  ((cliFailOnWarn || configFailOnWarn) &&
                    exists i | 0 <= i < |r.value.violations| :: r.value.violations[i].severity == Warning))
  {
  }

  /** `validate_and_check_files` followed by the exit decision of
      `output_results_and_exit`. `enabled` is the rule listing the engine
      was built from. */
  method ValidateAndCheckFiles(cli: Cli.CommandLine, config: Config, files: seq<Path>,
                               sizeOf: Path -> Option<nat>, matches: Matcher)
    returns (r: Result<Outcome>, enabled: seq<(string, RuleDefinition)>)
    ensures files != [] && config.rules.Some? ==> IsEnabledListing(config.rules.value.rules, enabled)
    ensures files != [] && config.rules.None? ==> enabled == []
    ensures r == RunOutcome(files, EngineRules(config.sizelint.Snapshot(), enabled), sizeOf, matches,
                            cli.GetFailOnWarn(), config.sizelint.failOnWarn)
  {
    enabled := [];
    if files == [] {
      return Ok(NothingToCheck), enabled;
    }
    var engine;
    engine, enabled := CreateRuleEngine(config);
    if engine.Err? {
      return Err(engine.error), enabled;
    }
    var violations := engine.value.CheckFiles(files, sizeOf, matches);
    if violations.Err? {
      return Err(violations.error), enabled;
    }
    var failure := ExitFailure(violations.value, cli.GetFailOnWarn(), config.sizelint.failOnWarn);
    return Ok(Checked(violations.value, |files|, failure)), enabled;
  }
}
