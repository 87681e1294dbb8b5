/** Configuration (src/config.rs): the `[sizelint]` settings, the named rule
    definitions, how a user configuration is merged over the defaults, and
    the search for a configuration file up the directory tree. TOML reading
    and writing are outside the model; a configuration arrives as values. */
module Configuration {
  import opened Base

  /** Rust's `i32`. */
  type I32 = x: int | -0x8000_0000 <= x <= 0x7FFF_FFFF

  /** Priority of a rule whose configuration does not set one. */
  const DefaultPriority: I32 := 100

  /** One `[rules.<name>]` table. Higher priority numbers win. */
  datatype RuleDefinition = RuleDefinition(
    enabled: bool,
    description: string,
    priority: I32,
    maxSize: Option<string>,
    warnSize: Option<string>,
    includes: seq<string>,
    excludes: seq<string>,
    warnOnMatch: bool,
    errorOnMatch: bool)

  /** The value of every `[sizelint]` field at one moment. */
  datatype Settings = Settings(
    maxFileSize: Option<string>,
    warnFileSize: Option<string>,
    excludes: seq<string>,
    checkStaged: bool,
    checkWorkingTree: bool,
    git: Option<string>,
    respectGitignore: bool,
    failOnWarn: bool)

  /** The settings that result from laying `user` over `base`: optional
      fields and the exclude list are taken from the user only when the user
      gave them, the flags always come from the user. */
  function Merge(base: Settings, user: Settings): (r: Settings)
    ensures user.maxFileSize.Some? ==> r.maxFileSize == user.maxFileSize
    ensures user.maxFileSize.None? ==> r.maxFileSize == base.maxFileSize
    ensures user.warnFileSize.Some? ==> r.warnFileSize == user.warnFileSize
    ensures user.warnFileSize.None? ==> r.warnFileSize == base.warnFileSize
    ensures user.excludes != [] ==> r.excludes == user.excludes
    ensures user.excludes == [] ==> r.excludes == base.excludes
    ensures user.git.Some? ==> r.git == user.git
    ensures user.git.None? ==> r.git == base.git
    ensures r.checkStaged == user.checkStaged && r.checkWorkingTree == user.checkWorkingTree
    ensures r.respectGitignore == user.respectGitignore && r.failOnWarn == user.failOnWarn
  {
    Settings(
      if user.maxFileSize.Some? then user.maxFileSize else base.maxFileSize,
      if user.warnFileSize.Some? then user.warnFileSize else base.warnFileSize,
      if user.excludes != [] then user.excludes else base.excludes,
      user.checkStaged,
      user.checkWorkingTree,
      if user.git.Some? then user.git else base.git,
      user.respectGitignore,
      user.failOnWarn)
  }

  /** Merging the same user settings a second time changes nothing. */
  lemma MergeIdempotent(base: Settings, user: Settings)
    ensures Merge(Merge(base, user), user) == Merge(base, user)
  {
  }

  /** A user configuration that sets every field replaces the base entirely. */
  lemma MergeFullUserWins(base: Settings, user: Settings)
    requires user.maxFileSize.Some? && user.warnFileSize.Some? && user.git.Some?
    requires user.excludes != []
    ensures Merge(base, user) == user
  {
  }

  /** A user configuration that sets no optional field keeps the base values
      of those fields, while the flags still follow the user. */
  lemma MergeEmptyUserKeepsBase(base: Settings, user: Settings)
    requires user.maxFileSize.None? && user.warnFileSize.None? && user.git.None?
    requires user.excludes == []
    ensures Merge(base, user) == base.(checkStaged := user.checkStaged,
                                       checkWorkingTree := user.checkWorkingTree,
                                       respectGitignore := user.respectGitignore,
                                       failOnWarn := user.failOnWarn)
  {
  }

  /** `SizelintConfig`: the global settings, updated in place by a merge. */
  class SizelintConfig {
    var maxFileSize: Option<string>
    var warnFileSize: Option<string>
    var excludes: seq<string>
    var checkStaged: bool
    var checkWorkingTree: bool
    var git: Option<string>
    var respectGitignore: bool
    var failOnWarn: bool

    constructor(s: Settings)
      ensures Snapshot() == s
    {
      maxFileSize := s.maxFileSize;
      warnFileSize := s.warnFileSize;
      excludes := s.excludes;
      checkStaged := s.checkStaged;
      checkWorkingTree := s.checkWorkingTree;
      git := s.git;
      respectGitignore := s.respectGitignore;
      failOnWarn := s.failOnWarn;
    }

    function Snapshot(): Settings
      reads this
    {
      Settings(maxFileSize, warnFileSize, excludes, checkStaged, checkWorkingTree,
               git, respectGitignore, failOnWarn)
    }

    /** `SizelintConfig::merge_from`: the user's settings, moved in by
        value, are laid over this configuration. */
    method MergeFrom(other: Settings)
      modifies this
      ensures Snapshot() == Merge(old(Snapshot()), other)
    {
      var merged := Merge(Snapshot(), other);
      maxFileSize, warnFileSize, excludes := merged.maxFileSize, merged.warnFileSize, merged.excludes;
      checkStaged, checkWorkingTree := merged.checkStaged, merged.checkWorkingTree;
      git := merged.git;
      respectGitignore, failOnWarn := merged.respectGitignore, merged.failOnWarn;
    }
  }

  /** The names and definitions of the enabled rules of a rule table. */
  ghost predicate IsEnabledListing(rules: map<string, RuleDefinition>, r: seq<(string, RuleDefinition)>)
  {
    (forall e :: e in r <==> e.0 in rules && rules[e.0] == e.1 && e.1.enabled) &&
    (forall i, j | 0 <= i < j < |r| :: r[i].0 != r[j].0)
  }

  /** `RulesConfig`: the `[rules]` table, keyed by rule name. */
  class RulesConfig {
    var rules: map<string, RuleDefinition>

    constructor(rules: map<string, RuleDefinition>)
      ensures this.rules == rules
    {
      this.rules := rules;
    }

    /** `RulesConfig::merge_from`: every user rule is inserted, replacing a
        rule of the same name; the map is visited in an unspecified order. */
    method MergeFrom(other: map<string, RuleDefinition>)
      modifies this
      ensures rules == old(rules) + other
      ensures forall name | name in other :: rules[name] == other[name]
      ensures forall name | name in old(rules) && name !in other :: rules[name] == old(rules)[name]
      ensures rules.Keys == old(rules).Keys + other.Keys
    {
      var remaining := other.Keys;
      while remaining != {}
        invariant remaining <= other.Keys
        invariant rules == old(rules) + map name | name in other.Keys - remaining :: other[name]
        decreases remaining
      {
        var name :| name in remaining;
        rules := rules[name := other[name]];
        remaining := remaining - {name};
      }
      assert other.Keys - remaining == other.Keys;
      assert (map name | name in other.Keys :: other[name]) == other;
    }

    /** `RulesConfig::get_rule`. */
    function GetRule(name: string): (r: Option<RuleDefinition>)
      reads this
      ensures r.Some? <==> name in rules
      ensures r.Some? ==> r.value == rules[name]
    {
      if name in rules then Some(rules[name]) else None
    }

    /** `RulesConfig::get_enabled_rules`: the enabled entries, each once, in
        the map's unspecified iteration order. */
    method GetEnabledRules() returns (r: seq<(string, RuleDefinition)>)
      ensures IsEnabledListing(rules, r)
    {
      r := [];
      var remaining := rules.Keys;
      while remaining != {}
        invariant remaining <= rules.Keys
        invariant forall e :: e in r <==> e.0 in rules.Keys - remaining && rules[e.0] == e.1 && e.1.enabled
        invariant forall i, j | 0 <= i < j < |r| :: r[i].0 != r[j].0
        decreases remaining
      {
        var name :| name in remaining;
        if rules[name].enabled {
          r := r + [(name, rules[name])];
        }
        remaining := remaining - {name};
      }
    }
  }

  /** `Config`: the global settings and the optional rule table. */
  class Config {
    var sizelint: SizelintConfig
    var rules: Option<RulesConfig>

    constructor(sizelint: SizelintConfig, rules: Option<RulesConfig>)
      ensures this.sizelint == sizelint && this.rules == rules
    {
      this.sizelint := sizelint;
      this.rules := rules;
    }

    /** `Config::merge_from_user_config`. The user configuration is moved in,
        so none of its parts is shared with this one. */
    method MergeFromUserConfig(user: Config)
      requires user != this && user.sizelint != sizelint
      requires rules.Some? && user.rules.Some? ==> rules.value != user.rules.value
      modifies sizelint, this, if rules.Some? then {rules.value} else {}
      ensures sizelint == old(sizelint)
      ensures sizelint.Snapshot() == Merge(old(sizelint.Snapshot()), old(user.sizelint.Snapshot()))
      ensures old(user.rules).None? ==> rules == old(rules)
      ensures old(user.rules).Some? && old(rules).None? ==> rules == old(user.rules)
      ensures old(user.rules).Some? && old(rules).Some? ==>
                rules == old(rules) && rules.value.rules == old(rules.value.rules) + old(user.rules.value.rules)
    {
      sizelint.MergeFrom(user.sizelint.Snapshot());
      if user.rules.Some? {
        if rules.Some? {
          rules.value.MergeFrom(user.rules.value.rules);
        } else {
          rules := user.rules;
        }
      }
    }
  }

  /** The file names looked for in each directory, in order. */
  const ConfigFileNames: seq<string> := ["sizelint.toml", ".sizelint.toml"]

  /** The configuration file that the search finds starting in `dir`, given
      the set of paths that exist. */
  function FindFrom(dir: Path, present: set<Path>): (r: Option<Path>)
    ensures r.Some? ==> r.value in present && 0 < |r.value| <= |dir| + 1
                        && r.value[..|r.value| - 1] == dir[..|r.value| - 1]
                        && r.value[|r.value| - 1] in ConfigFileNames
    decreases |dir|
  {
    if dir + [ConfigFileNames[0]] in present then Some(dir + [ConfigFileNames[0]])
    else if dir + [ConfigFileNames[1]] in present then Some(dir + [ConfigFileNames[1]])
    else match Pop(dir)
      case None => None
      case Some(parent) => FindFrom(parent, present)
  }

  /** The shortest directory prefix the search reaches: the root of an
      absolute path, or the empty path of a relative one. */
  function Lowest(dir: Path): (k: nat)
    ensures k <= 1 && (k == 1 <==> |dir| > 0 && dir[0] == RootComponent)
  {
    if |dir| > 0 && dir[0] == RootComponent then 1 else 0
  }

  /** Whether directory `d` holds a configuration file. */
  predicate HasConfig(d: Path, present: set<Path>)
  {
    d + [ConfigFileNames[0]] in present || d + [ConfigFileNames[1]] in present
  }

  /** `Config::find_config_file`: walks from `startDir` to the root and
      returns the first configuration file found. */
  method FindConfigFile(startDir: Path, present: set<Path>) returns (r: Option<Path>)
    ensures r == FindFrom(startDir, present)
  {
    var current := startDir;
    while true
      invariant FindFrom(current, present) == FindFrom(startDir, present)
      decreases |current|
    {
      var i := 0;
      while i < |ConfigFileNames|
        invariant 0 <= i <= |ConfigFileNames|
        invariant forall j | 0 <= j < i :: current + [ConfigFileNames[j]] !in present
      {
        var configPath := current + [ConfigFileNames[i]];
        if configPath in present {
          return Some(configPath);
        }
        i := i + 1;
      }
      var parent := Pop(current);
      if parent.None? {
        break;
      }
      current := parent.value;
    }
    return None;
  }

  /** The file name the search picks in a directory that holds a
      configuration file: "sizelint.toml" when present, else ".sizelint.toml". */
  function ConfigName(d: Path, present: set<Path>): string
  {
    if d + [ConfigFileNames[0]] in present then ConfigFileNames[0] else ConfigFileNames[1]
  }

  /** Nothing is found exactly when no directory the search visits, from
      `dir` up to the root, holds a configuration file. */
  lemma {:induction false} FindFromNone(dir: Path, present: set<Path>)
    ensures FindFrom(dir, present).None? <==>
            forall k | Lowest(dir) <= k <= |dir| :: !HasConfig(dir[..k], present)
    decreases |dir|
  {
    assert dir[..|dir|] == dir;
    if !HasConfig(dir, present) && Pop(dir).Some? {
      var parent := dir[..|dir| - 1];
      FindFromNone(parent, present);
      PrefixesOfParent(dir);
      if forall k | Lowest(parent) <= k <= |parent| :: !HasConfig(parent[..k], present) {
        forall k | Lowest(dir) <= k <= |dir|
          ensures !HasConfig(dir[..k], present)
        {
          if k < |dir| {
            assert parent[..k] == dir[..k];
          }
        }
      } else {
        var k :| Lowest(parent) <= k <= |parent| && HasConfig(parent[..k], present);
        assert parent[..k] == dir[..k];
      }
    }
  }

  /** A found file lies in the nearest directory (from `dir` upward) that
      holds one, under the name preferred there. */
  lemma {:induction false} FindFromNearest(dir: Path, present: set<Path>, k: nat)
    requires Lowest(dir) <= k <= |dir| && HasConfig(dir[..k], present)
    requires forall j | k < j <= |dir| :: !HasConfig(dir[..j], present)
    ensures FindFrom(dir, present) == Some(dir[..k] + [ConfigName(dir[..k], present)])
    decreases |dir|
  {
    assert dir[..|dir|] == dir;
    if k < |dir| {
      var parent := dir[..|dir| - 1];
      PrefixesOfParent(dir);
      assert parent[..k] == dir[..k];
      forall j | k < j <= |parent|
        ensures !HasConfig(parent[..j], present)
      {
        assert parent[..j] == dir[..j];
      }
      FindFromNearest(parent, present, k);
    }
  }

  lemma PrefixesOfParent(dir: Path)
    requires Pop(dir).Some?
    ensures Lowest(dir[..|dir| - 1]) == Lowest(dir)
    ensures forall k | 0 <= k < |dir| :: dir[..|dir| - 1][..k] == dir[..k]
  {
    if |dir| >= 2 {
      assert dir[..|dir| - 1][0] == dir[0];
    }
  }
}
