/** The command line (src/cli.rs): the subcommands and their options, the
    accessors the application reads them through, and the lookup of a shell
    name for completion scripts. Argument parsing itself (clap) is outside
    the model; a command line arrives as a value. */
module Cli {
  import opened Base
  import opened Text

  /** The shells completion scripts can be generated for. */
  datatype Shell = Bash | Zsh | Fish | PowerShell | Elvish

  /** `SUPPORTED_SHELLS`: each shell under its lower-case name. */
  const SupportedShells: seq<(string, Shell)> :=
    [("bash", Bash), ("zsh", Zsh), ("fish", Fish), ("powershell", PowerShell), ("elvish", Elvish)]

  datatype OutputFormat = Human | Json

  datatype RuleAction = List | Describe(rule: string)

  datatype Commands =
    | Check(paths: seq<Path>, config: Option<Path>, format: OutputFormat, staged: bool,
            workingTree: bool, git: Option<string>, noHistory: bool, quiet: bool, failOnWarn: bool)
    | Init(force: bool, stdout: bool, edit: bool)
    | Rules(action: RuleAction)
    | Completions(shell: string)

  /** The parsed command line. Every accessor reads an option of `check`
      and gives the option's default for any other subcommand. */
  datatype CommandLine = CommandLine(command: Commands, config: Option<Path>, debug: bool)
  {
    function GetFormat(): (f: OutputFormat)
      ensures command.Check? ==> f == command.format
      ensures !command.Check? ==> f == Human
    {
      match command
      case Check(_, _, format, _, _, _, _, _, _) => format
      case _ => Human
    }

    function GetQuiet(): (b: bool)
      ensures b <==> command.Check? && command.quiet
    {
      match command
      case Check(_, _, _, _, _, _, _, quiet, _) => quiet
      case _ => false
    }

    function GetStaged(): (b: bool)
      ensures b <==> command.Check? && command.staged
    {
      match command
      case Check(_, _, _, staged, _, _, _, _, _) => staged
      case _ => false
    }

    function GetWorkingTree(): (b: bool)
      ensures b <==> command.Check? && command.workingTree
    {
      match command
      case Check(_, _, _, _, workingTree, _, _, _, _) => workingTree
      case _ => false
    }

    function GetGit(): (g: Option<string>)
      ensures command.Check? ==> g == command.git
      ensures !command.Check? ==> g == None
    {
      match command
      case Check(_, _, _, _, _, git, _, _, _) => git
      case _ => None
    }

    function GetNoHistory(): (b: bool)
      ensures b <==> command.Check? && command.noHistory
    {
      match command
      case Check(_, _, _, _, _, _, noHistory, _, _) => noHistory
      case _ => false
    }

    function GetFailOnWarn(): (b: bool)
      ensures b <==> command.Check? && command.failOnWarn
    {
      match command
      case Check(_, _, _, _, _, _, _, _, failOnWarn) => failOnWarn
      case _ => false
    }

    function GetCheckConfig(): (c: Option<Path>)
      ensures command.Check? ==> c == command.config
      ensures !command.Check? ==> c == None
    {
      match command
      case Check(_, config, _, _, _, _, _, _, _) => config
      case _ => None
    }
  }

  /** Outside `check`, every accessor gives its default: human output, no
      flag set, no revision range and no configuration path. */
  lemma NonCheckDefaults(cli: CommandLine)
    requires !cli.command.Check?
    ensures cli.GetFormat() == Human && cli.GetGit() == None && cli.GetCheckConfig() == None
    ensures !cli.GetQuiet() && !cli.GetStaged() && !cli.GetWorkingTree()
    ensures !cli.GetNoHistory() && !cli.GetFailOnWarn()
  {
  }

  /** The shell registered under `name`: the first entry of `table` with
      that name. */
  function FindShell(table: seq<(string, Shell)>, name: string): (r: Option<Shell>)
    ensures r.None? <==> forall i | 0 <= i < |table| :: table[i].0 != name
    ensures r.Some? ==> exists i | 0 <= i < |table| :: table[i] == (name, r.value)
  {
    if table == [] then None
    else if table[0].0 == name then Some(table[0].1)
    else
      var r := FindShell(table[1..], name);
      assert forall i | 1 <= i < |table| :: table[i] == table[1..][i - 1];
      r
  }

  /** The names of a table's shells, in order. */
  function ShellNames(table: seq<(string, Shell)>): (names: seq<string>)
    ensures |names| == |table| && forall i | 0 <= i < |table| :: names[i] == table[i].0
  {
    if table == [] then [] else [table[0].0] + ShellNames(table[1..])
  }

  /** The outcome of reading a shell name: the shell, or the message shown
      to the user. */
  datatype ShellChoice = Found(shell: Shell) | Unsupported(message: string)

  /** `Cli::parse_shell`: the name is lower-cased and looked up; an unknown
      name is reported as given, followed by the supported names. */
  function ParseShell(s: string): (r: ShellChoice)
    ensures r.Found? <==> exists i | 0 <= i < |SupportedShells| :: SupportedShells[i].0 == ToLower(s)
    ensures r.Found? ==> (ToLower(s), r.shell) in SupportedShells
    ensures r.Unsupported? ==>
              r.message == "Unsupported shell: " + s + ". Supported shells: " + JoinWith(ShellNames(SupportedShells), ", ")
  {
    match FindShell(SupportedShells, ToLower(s))
    case Some(shell) => Found(shell)
    case None => Unsupported("Unsupported shell: " + s + ". Supported shells: " + JoinWith(ShellNames(SupportedShells), ", "))
  }

  /** Lower-casing twice changes nothing more. */
  lemma {:induction false} ToLowerIdempotent(s: string)
    ensures ToLower(ToLower(s)) == ToLower(s)
  {
    forall i | 0 <= i < |s|
      ensures ToLower(ToLower(s))[i] == ToLower(s)[i]
    {
      var c := s[i];
      if 'A' <= c <= 'Z' {
        assert LowerChar(c) == (c as int + 32) as char;
      }
    }
  }

  /** The lookup ignores case: a name and its lower-case form choose the
      same shell. */
  lemma ParseShellIgnoresCase(s: string)
    ensures ParseShell(s).Found? <==> ParseShell(ToLower(s)).Found?
    ensures ParseShell(s).Found? ==> ParseShell(s).shell == ParseShell(ToLower(s)).shell
  {
    ToLowerIdempotent(s);
  }

  /** A name without upper-case letters is its own lower-case form. */
  lemma LowerFixed(s: string)
    requires forall i | 0 <= i < |s| :: !('A' <= s[i] <= 'Z')
    ensures ToLower(s) == s
  {
  }

  /** Every supported shell is found under its own name. */
  lemma SupportedShellsFound()
    ensures forall i | 0 <= i < |SupportedShells| :: ParseShell(SupportedShells[i].0) == Found(SupportedShells[i].1)
  {
    forall i | 0 <= i < |SupportedShells|
      ensures ParseShell(SupportedShells[i].0) == Found(SupportedShells[i].1)
    {
      var name := SupportedShells[i].0;
      LowerFixed(name);
      assert FindShell(SupportedShells, name) == Some(SupportedShells[i].1);
    }
  }

  /** The message lists the names in table order: bash, zsh, fish,
      powershell, elvish. */
  lemma UnsupportedMessage(s: string)
    requires ParseShell(s).Unsupported?
    ensures ParseShell(s).message ==
            "Unsupported shell: " + s + ". Supported shells: " + JoinWith(["bash", "zsh", "fish", "powershell", "elvish"], ", ")
  {
    assert ShellNames(SupportedShells) == ["bash", "zsh", "fish", "powershell", "elvish"];
  }
}
