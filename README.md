# sizelint core in Dafny

sizelint is a linter that checks the files of a repository against size
rules. It discovers the files to check: a full walk of the tree, explicit
paths, the staged or working-tree files reported by git, or the blobs found
in the history. For each file it picks the single governing rule:
- only enabled rules whose include and exclude patterns admit the path are candidates;
- the candidate with the highest priority wins;
- a set priority beats an unset one;
- among equal priorities the rule added first wins.

The governing rule reports an error-on-match or warn-on-match finding, or compares the
file's byte size with the rule's maximum (Error) and warning threshold
(Warning). History findings are folded per path, keeping the largest. A
summary is then printed, and the run fails when there is an error, or when
warnings are made fatal and there is a warning.

This project models that core, module by module, after the Rust sources:

| file | module | models |
|---|---|---|
| `violations.dfy` | `Violations` | findings (`Violation`, `Severity`) |
| `sizes.dfy` | `Sizes` | `parse_size_string` and `format_size` |
| `rules.dfy` | `Rules` | `ConfigurableRule`, rule selection, the `RuleEngine` class, and the history-blob check |
| `dedup.dfy` | `Dedup` | the keep-largest fold over findings per path |
| `config.dfy` | `Configuration` | settings merge, the `SizelintConfig`, `RulesConfig` and `Config` classes, and the search for the configuration file |
| `git.dfy` | `Git` | parsing of `git diff --name-only` and `git status --porcelain=v1` output, and the command failure errors |
| `discovery.dfy` | `Discovery` | exclude filtering, the `.git` skip of the walker, repository guards, and explicit paths |
| `output.dfy` | `Output` | the summary, the grouped and sorted human report, and the status label |
| `cli.dfy` | `Cli` | subcommands, option accessors, and shell lookup |
| `app.dfy` | `App` | check paths, discovery mode, engine construction, the empty-run shortcut, and the exit decision |
| `text.dfy`, `base.dfy`, `sorting.dfy` | `Text`, `Base`, `Sorting` | string helpers (`str::lines`, `trim`, ASCII case), paths, `Option`/`Result` and the error datatype, and a stable descending sort (`slice::sort_by`) |

How the model stands in for the environment:
- Glob matching is a parameter `matches(pattern, path)`, and a discovery's exclude set is a predicate `excluded(path)`.
- A file's size is an input (`Option<nat>`; None when the metadata cannot be read).
- Git's output (stdout, stderr, exit status) is an input value.
- The walker's entries are an input sequence.
- `is_file` and `is_dir` are predicates.

Classes are used where the code mutates objects in place:
- `RuleEngine.rules`
- `SizelintConfig`
- `RulesConfig.rules`
- `Config`

Loops that the code writes as loops are methods proved against specification functions:
- `check_file`
- `get_all_files`
- `format_size`
- `create_summary`
- the grouping of `output_human`
- `discover_specific_paths`
- `find_config_file`
- the dedup fold

Where parts of the code disagree, the model follows the code that uses the field:
- A `Violation` carries a `sort_key`, the byte size behind the finding (0 for a pattern match). `src/rules/mod.rs:38-45` declares no such field, but `src/output.rs:132-133` and `tests/git_diff_discovery.rs:467,527` use one.
- `check_history_blobs`, `walk_history_blobs` and `get_diff_files` are called from the tests but are not modelled. `Rules.RuleEngine.CheckHistoryBlobs` models what `tests/git_diff_discovery.rs` asserts of them: the per-path rule selection applied to each `(path, size)` blob, then the dedup fold.

## Model

| member | source | states |
|---|---|---|
| Rules.ExpandIfPath | src/rules/mod.rs:484-492 | the pattern is kept unchanged iff it contains '/'; otherwise it is prefixed (so the result always contains '/' and ends with the pattern) |
| Rules.ExpandIfPathIdempotent | src/rules/mod.rs:484-492 | expanding twice is the same as expanding once |
| Rules.ParseOptionalSize | src/rules/mod.rs:278-288 | an absent size stays absent; a present one is parsed, and a parse error is passed through unchanged |
| Rules.NewRule | src/rules/mod.rs:277-330 | a rule is built iff both its max and warn sizes parse; the max-size error comes first, then the warn-size error; the built rule holds the name, the definition and the parsed thresholds |
| Rules.ConfigurableRule.IsEnabled | src/rules/mod.rs:388-390 | a rule is enabled iff its definition says so |
| Rules.ConfigurableRule.ShouldSkipFile | src/rules/mod.rs:332-344 | a path matching an exclude pattern is always skipped; without include patterns, a path is skipped iff it matches an exclude pattern |
| Rules.ConfigurableRule.GetPriority | src/rules/mod.rs:353-359 | the priority is unset iff the rule is named "default"; otherwise it is the configured priority |
| Rules.ConfigurableRule.Findings | src/rules/mod.rs:396-481 | an error arises iff the path is not skipped, there is no match flag and the size is unreadable, and it is the "get file metadata" filesystem error; otherwise there is at most one finding, for this path and this rule |
| Rules.ConfigurableRule.Check | src/rules/mod.rs:396-481 | the early-returning push sequence yields exactly `Findings` |
| Rules.SkippedPathHasNoFindings | src/rules/mod.rs:399-401 | a skipped path yields no findings |
| Rules.SkipWithoutIncludes | src/rules/mod.rs:332-344 | with no include patterns, a path is skipped iff an exclude pattern matches it |
| Rules.MatchIgnoresSize | src/rules/mod.rs:404-434 | with error-on-match or warn-on-match set, the findings do not depend on the size: one finding, with actual "matched" and expected "not matched" |
| Rules.ErrorExactly | src/rules/mod.rs:404-458 | an Error is reported iff error-on-match is set, or there is no match flag and the size is strictly above the maximum |
| Rules.WarningExactly | src/rules/mod.rs:418-478 | a Warning is reported iff error-on-match is unset and either warn-on-match is set, or the size is within the maximum (or there is none) and strictly above the warning threshold |
| Rules.NoThresholdsNoFindings | src/rules/mod.rs:437-480 | a readable file under a rule without thresholds or match flags yields no findings |
| Rules.Rank | src/rules/mod.rs:151-156 | a set priority ranks as its value; an unset one ranks below every i32 |
| Rules.RankAgreesWithComparator | src/rules/mod.rs:151-156 | the comparator puts a before b iff a ranks higher, and calls them equal iff the ranks are equal |
| Rules.Applicable | src/rules/mod.rs:139-147 | the candidates are exactly the enabled rules of the engine that do not skip the path |
| Rules.FileFindings | src/rules/mod.rs:134-163 | a file check fails only when the size is unknown, with the metadata error for that path; otherwise at most one finding, about that path |
| Rules.CheckFileRunsTopRule | src/rules/mod.rs:134-163 | when some rule applies, the result is the findings of the first applicable rule of highest rank |
| Rules.NoApplicableRuleNoFindings | src/rules/mod.rs:149-162 | with no applicable rule there are no findings |
| Rules.DefaultRuleOutranked | src/rules/mod.rs:353-359 | if any other applicable rule exists, the rule chosen is not "default", whatever the configured priorities |
| Rules.CheckAll | src/rules/mod.rs:165-179 | a failed run returns the error of one of the files checked |
| Rules.CheckAllOk | src/rules/mod.rs:165-179 | checking a list of files succeeds iff every file's check succeeds |
| Rules.CheckAllMembers | src/rules/mod.rs:165-179 | on success, a finding is in the result iff it is in some file's findings |
| Rules.FirstErrorPersists | src/rules/mod.rs:168-171 | in the model, the error of the first failing file in path order is returned, whatever the later files give |
| Rules.BlobFindings | tests/git_diff_discovery.rs:443-467 | every finding is about the path of one of the blobs |
| Rules.KnownSizeNeverFails | src/rules/mod.rs:134-163 | a file whose size is known never makes the check fail |
| Rules.SingleRuleFindings | src/rules/mod.rs:437-458 | under a plain size rule, a size strictly above the maximum yields exactly the oversize Error; any other size yields nothing |
| Rules.NoOversizedBlobNoFindings | tests/git_diff_discovery.rs:207-251 | history blobs all within the maximum yield no findings |
| Rules.BlobFindingsSnoc | tests/git_diff_discovery.rs:443-467 | the findings of blobs are the findings of each blob, in blob order |
| Rules.GrowingVersionsFindings | tests/git_diff_discovery.rs:415-467 | versions of 600, 900 and 1200 bytes under a 500-byte maximum each give an Error, in order |
| Rules.HistoryKeepsLargestVersion | tests/git_diff_discovery.rs:415-467 | after the fold, those three versions give exactly one finding, with sort key 1200 |
| Rules.ShrunkVersionsFindings | tests/git_diff_discovery.rs:321-368 | a 1024-byte version and then a 100-byte one under a 500-byte maximum give one finding, for 1024 |
| Rules.ShrunkFileStillReported | tests/git_diff_discovery.rs:321-368 | after the fold, that history gives exactly one finding, with sort key 1024 |
| Rules.ShrinkingVersionsFindings | tests/git_diff_discovery.rs:471-537 | versions of 2000 and 600 bytes give two findings, in order |
| Rules.CrossPhaseKeepsLargerHistory | tests/git_diff_discovery.rs:471-537 | a live 600-byte finding folded before the history findings leaves one finding, with key 2000 |
| Rules.SingleVersionFindings | tests/git_diff_discovery.rs:541-575 | a single 800-byte version gives one finding |
| Rules.CrossPhaseUnchangedReportedOnce | tests/git_diff_discovery.rs:541-600 | the same 800-byte file found live and in history is reported once, with key 800 |
| Rules.RuleEngine.constructor | src/rules/mod.rs:126-128 | a new engine has no rules |
| Rules.RuleEngine.AddRule | src/rules/mod.rs:130-132 | the rule is appended, and nothing else changes |
| Rules.EnabledOf | src/rules/mod.rs:185-190 | the enabled rules in their order, never more than the rules |
| Rules.EnabledOfMembers | src/rules/mod.rs:185-190 | a rule is listed iff it is one of the rules and is enabled |
| Rules.RuleEngine.GetEnabledRules | src/rules/mod.rs:185-190 | the result is exactly the engine's enabled rules in the engine's order |
| Rules.RuleEngine.CheckFile | src/rules/mod.rs:134-163 | the candidate loop, stable sort and run of the first rule yield `FileFindings` (see CheckFileRunsTopRule) |
| Rules.RuleEngine.CheckFiles | src/rules/mod.rs:165-179 | the result is the concatenated per-file findings, or the first error (see CheckAllOk, CheckAllMembers) |
| Rules.RuleEngine.CheckHistoryBlobs | tests/git_diff_discovery.rs:443-467 | blob findings folded per path: each path at most once, keeping its largest finding |
| Sorting.SortDescSorted | src/rules/mod.rs:151-156 | the sort's result is in descending key order |
| Sorting.SortDescPermutation | src/rules/mod.rs:151-156 | the sort's result is a permutation of its input |
| Sorting.SortDescStable | src/rules/mod.rs:151-156 | elements with equal keys keep their relative order |
| Sorting.SortDescHead | src/rules/mod.rs:151-158 | the first element after the sort is the first element of largest key |
| Sorting.InsertSorted | src/rules/mod.rs:151-156 | inserting into a descending sequence keeps it descending |
| Sorting.InsertPermutation | src/rules/mod.rs:151-156 | insertion adds exactly the inserted element |
| Sorting.WithKeyInsert | src/rules/mod.rs:151-156 | insertion places the element after all elements with the same key |
| Sorting.FirstMaxIndex | src/rules/mod.rs:151-158 | the index has the largest key, and every earlier index a strictly smaller one |
| Sizes.ParseSizeString | src/rules/mod.rs:494-547 | the value fits in u64; every error is an invalid-size error carrying the trimmed, upper-cased input; blank input is the "Empty size string" error |
| Sizes.ParseNormalised | src/rules/mod.rs:497-546 | the same for input that is already trimmed and upper-cased |
| Sizes.SplitUnit | src/rules/mod.rs:504-516 | a suffix TB, GB, MB or KB is split off with its unit; otherwise a trailing B, or nothing, means bytes |
| Sizes.UnitLetter | src/rules/mod.rs:504-511 | a unit letter names one of the units KB to TB |
| Sizes.ParseDecimal | src/rules/mod.rs:518-523 | a parsed number is negative iff the text starts with '-' |
| Sizes.Saturate | src/rules/mod.rs:546 | the `as u64` cast leaves values up to u64::MAX unchanged and saturates above |
| Sizes.MultiplierIsPower | src/rules/mod.rs:11-14 | the multiplier of unit k is 1024^k |
| Sizes.ScaleWhole | src/rules/mod.rs:546 | a whole number times the multiplier is exact |
| Sizes.ParseNumberWithUnit | src/rules/mod.rs:494-547 | a natural number followed by any unit suffix, or by none, parses to n × 1024^k (saturated) |
| Sizes.ParseFractionWithUnit | src/rules/mod.rs:494-547 | whole.fraction followed by a unit parses to the truncated product |
| Sizes.NegativeRejected | src/rules/mod.rs:525-530 | a strictly negative whole number with a unit suffix is rejected with "Size cannot be negative" |
| Sizes.PaddingIgnored | src/rules/mod.rs:495 | surrounding whitespace does not change the result |
| Sizes.SameTrimSameParse | src/rules/mod.rs:495 | inputs equal after trimming parse alike |
| Sizes.FormattedBytesRejected | src/rules/mod.rs:518-523 | the formatter's "n B" text is not accepted back (the space stops the number) |
| Sizes.ParseBareNumberExample | src/rules/mod.rs:571 | "100" parses to 100 |
| Sizes.ParseBytesExample | src/rules/mod.rs:572 | "100B" parses to 100 |
| Sizes.ParseKilobytesExample | src/rules/mod.rs:573 | "1KB" parses to 1024 |
| Sizes.ParseMegabytesExample | src/rules/mod.rs:574 | "1MB" parses to 1048576 |
| Sizes.ParseGigabytesExample | src/rules/mod.rs:575 | "1GB" parses to 1073741824 |
| Sizes.ParseFractionExample | src/rules/mod.rs:576-579 | "1.5MB" parses to 1572864 |
| Sizes.ParsePaddedExample | src/rules/mod.rs:580 | "  2MB  " parses to 2097152 |
| Sizes.UnitIndex | src/rules/mod.rs:549-556 | the unit is the largest power of 1024 not above the size, capped at TB |
| Sizes.DividedBound | src/rules/mod.rs:553-555 | one more division by 1024 stays at least 1024^k iff the size is at least 1024^(k+1) |
| Sizes.FormatSize | src/rules/mod.rs:549-563 | below 1024 the text is the byte count in B; otherwise the amount is size / 1024^k in the unit of UnitIndex |
| Sizes.FormatSizeExamples | src/rules/mod.rs:584-590 | the unit choices and amounts for 100, 1024, 1536·1024 and 1024³ |
| Dedup.Best | tests/git_diff_discovery.rs:522-533 | each kept finding is stored under its own path |
| Dedup.BestKeys | tests/git_diff_discovery.rs:522-533 | the fold's keys are exactly the paths of the input |
| Dedup.BestFromInput | tests/git_diff_discovery.rs:524-531 | every kept finding is one of the inputs, unchanged |
| Dedup.BestLargest | tests/git_diff_discovery.rs:527 | the kept finding's sort key is at least that of every input for its path |
| Dedup.BestIsFirstLargest | tests/git_diff_discovery.rs:525-531 | the kept finding is the first input of largest sort key for its path |
| Dedup.EarlierWinsTies | tests/git_diff_discovery.rs:509-531 | findings fed first win ties against later ones of equal key |
| Dedup.KeepLargest | tests/git_diff_discovery.rs:522-532 | the loop of `entry().and_modify().or_insert()` builds exactly the fold |
| Dedup.IntoValues | tests/git_diff_discovery.rs:533 | the values come out once each, with distinct paths |
| Dedup.Deduplicate | tests/git_diff_discovery.rs:522-533 | the fold followed by `into_values` |
| Dedup.DedupMeaning | tests/git_diff_discovery.rs:522-535 | every input path appears in the output; each output finding is an input, of maximal key for its path |
| Dedup.DedupOnePath | tests/git_diff_discovery.rs:535-537 | findings of one path whose first maximum is at k give exactly that finding |
| Configuration.Merge | src/config.rs:96-113 | the max size, warn size, excludes and git settings come from the user when given and from the base otherwise; the flags always come from the user |
| Configuration.MergeIdempotent | src/config.rs:96-113 | merging the same user settings twice is merging once |
| Configuration.MergeFullUserWins | src/config.rs:96-113 | user settings that set every optional field replace the base |
| Configuration.MergeEmptyUserKeepsBase | src/config.rs:96-113 | user settings without optional values keep the base sizes, excludes and git range, while the four flags take the user's value |
| Configuration.SizelintConfig.constructor | src/config.rs:23-53 | the new configuration holds the given settings |
| Configuration.SizelintConfig.MergeFrom | src/config.rs:96-113 | sizes and git are overwritten only when the user sets them, excludes only when the user list is non-empty, and the flags always |
| Configuration.RulesConfig.constructor | src/config.rs:56-59 | the new rule table is the given map |
| Configuration.RulesConfig.MergeFrom | src/config.rs:117-121 | same-named rules take the user's definition, other rules are untouched, and the names are the union |
| Configuration.RulesConfig.GetRule | src/config.rs:123-125 | the rule is found iff the name is present, and it is that entry |
| Configuration.RulesConfig.GetEnabledRules | src/config.rs:127-129 | the listing holds exactly the enabled entries, each once |
| Configuration.Config.constructor | src/config.rs:16-20 | the configuration holds the given parts |
| Configuration.Config.MergeFromUserConfig | src/config.rs:161-171 | the settings are merged; absent user rules leave the rules unchanged; with no base rules the user's are adopted as they are; otherwise the tables are merged |
| Configuration.FindConfigFile | src/config.rs:173-187 | the loop that pops directories returns exactly `FindFrom` |
| Configuration.FindFrom | src/config.rs:173-187 | a file found exists, is named like a configuration file and lies in the starting directory or one of its ancestors |
| Configuration.FindFromNone | src/config.rs:173-187 | nothing is found iff no directory from the start up to the root holds a configuration file |
| Configuration.FindFromNearest | src/config.rs:173-187 | the nearest directory holding one is chosen, with "sizelint.toml" before ".sizelint.toml" |
| Configuration.Lowest | src/config.rs:182-184 | the last directory searched is the root of an absolute path, or the empty path of a relative one: where `pop` fails |
| Git.CommandFailed | src/git.rs:62-69 | the error names the command, carries stderr, and has the exit code or -1 |
| Git.GetStagedFiles | src/git.rs:49-78 | failure iff git failed, with the staged command's error; otherwise the non-empty lines joined to the root |
| Git.GetWorkingTreeFiles | src/git.rs:80-108 | failure iff git failed, with the working-tree command's error; otherwise the non-empty lines joined to the root |
| Git.JoinNonEmpty | src/git.rs:71-75 | every result lies under the root, and there are no more results than lines |
| Git.JoinNonEmptyAll | src/git.rs:71-75 | non-empty names map one to one, in order, to root/name |
| Git.JoinNonEmptySkipsEmpty | src/git.rs:73 | empty lines contribute nothing |
| Git.NameOnlyRoundTrip | src/git.rs:71-75 | the output listing names, one per line, gives back root/name for each name, in order |
| Git.StagedOf | src/git.rs:131-147 | no more staged paths than status lines, each under the repository root |
| Git.WorkingTreeOf | src/git.rs:131-147 | no more working-tree paths than status lines, each under the repository root |
| Git.GetAllFiles | src/git.rs:110-150 | failure iff git failed, with the status command's error; otherwise the staged and working-tree lists of the porcelain lines |
| Git.ShortLineIgnored | src/git.rs:134-135 | a line shorter than 3 characters changes neither list |
| Git.EntryClassified | src/git.rs:136-146 | a line XY␠name adds root/name to the staged list iff X ≠ ' ', and to the working-tree list iff Y ≠ ' ', in input order |
| Git.IsFileTracked | src/git.rs:152-166 | true iff the path is under the root and `ls-files` ran and succeeded |
| Git.IsFileLfs | src/git.rs:168-189 | true iff the path is under the root and `check-attr` ran, succeeded and printed "filter: lfs" |
| Git.OutsideRootNeverTracked | src/git.rs:152-172 | a path outside the root is neither tracked nor in LFS, whatever git answers |
| Discovery.Walked | src/discovery.rs:56-88 | the walk reports no more files than it was given entries, and none under a `.git` directory or excluded |
| Discovery.WalkedExactly | src/discovery.rs:63-84 | a path is reported iff it is a file entry before the first walk error, has no ".git" component, and is not excluded |
| Discovery.GitDirectoryNeverReported | src/discovery.rs:68-73 | entries with a ".git" component are never reported |
| Discovery.WalkParallel | src/discovery.rs:56-88 | the walker callback loop reports exactly `Walked` |
| Discovery.FilterFiles | src/discovery.rs:187-192 | no kept path is excluded, and no path is added |
| Discovery.FilterFilesMembers | src/discovery.rs:187-192 | a path is kept iff it is in the input and not excluded |
| Discovery.FilterFilesAppend | src/discovery.rs:187-192 | filtering preserves order (it distributes over concatenation) |
| Discovery.FilterFilesKeepsAll | src/discovery.rs:187-192 | with nothing excluded, all paths are kept |
| Discovery.NoRepo | src/discovery.rs:112-115 | the error is RepoNotFound for the discovery root |
| Discovery.DiscoverStagedFiles | src/discovery.rs:106-117 | RepoNotFound outside a repository; the git error on failure; otherwise the staged files, filtered |
| Discovery.DiscoverWorkingTreeFiles | src/discovery.rs:119-130 | RepoNotFound outside a repository; the git error on failure; otherwise the working-tree files, filtered |
| Discovery.DiscoverGitDiffFiles | src/discovery.rs:132-143 | RepoNotFound outside a repository; the diff error passed through; otherwise the diff files, filtered |
| Discovery.FilterBlobs | src/discovery.rs:145-155 | no kept blob has an excluded path, and no blob is added |
| Discovery.FilterBlobsMembers | src/discovery.rs:149-155 | a blob is kept iff its path is not excluded |
| Discovery.FilterBlobsAppend | src/discovery.rs:149-155 | blob filtering preserves order |
| Discovery.DiscoverHistoryBlobs | src/discovery.rs:145-162 | RepoNotFound outside a repository; the walk error passed through; otherwise the blobs, filtered |
| Discovery.IsInGitRepo | src/discovery.rs:194-196 | the discovery is in a repository iff it opened one |
| Discovery.RepoNotFoundExactlyOutsideRepo | src/discovery.rs:106-162 | each git-based discovery gives RepoNotFound iff there is no repository |
| Discovery.DiscoverSpecificPaths | src/discovery.rs:164-179 | the loop over paths returns exactly `SpecificFiles` |
| Discovery.SpecificFilesMembers | src/discovery.rs:164-179 | a file is found iff some given path contributes it |
| Discovery.NamedFileKept | src/discovery.rs:168-171 | a named file that is not excluded is always kept, ignored by git or not |
| Discovery.MissingPathDropped | src/discovery.rs:167-176 | a path that is neither file nor directory adds nothing |
| Output.RelativeTo | src/output.rs:46-51 | a path under the base loses the base prefix; any other path is unchanged |
| Output.RelativeToUnderBase | src/output.rs:46-51 | base + rest becomes rest |
| Output.CountsAddUp | src/output.rs:67-103 | error count + warning count = number of findings |
| Output.CountZero | src/output.rs:77-80 | a count is zero iff no finding has that severity |
| Output.RuleNamesMembers | src/output.rs:75 | a name is in the rule set iff some finding has it |
| Output.SetToSeq | src/output.rs:101 | the set becomes a sequence with the same members and no repeats |
| Output.CreateSummary | src/output.rs:67-103 | file and finding totals; the error and warning counts add up to the total; one output entry per finding, in order; `rules_run` is exactly the names that occur, each once |
| Output.NameLessTotal | src/output.rs:115 | the BTreeMap key order is total |
| Output.NameLessTransitive | src/output.rs:115 | the key order is transitive |
| Output.NameLessIrreflexive | src/output.rs:115 | the key order is strict |
| Output.InsertNameAscending | src/output.rs:115-118 | inserting a name into an ascending list keeps it ascending |
| Output.SortedRuleNamesCorrect | src/output.rs:115-120 | the rule names iterate in ascending order, exactly the names that occur |
| Output.OfRuleMembers | src/output.rs:116-118 | a rule's bucket holds exactly that rule's findings |
| Output.OfSeverityMembers | src/output.rs:124-131 | each severity list holds exactly the findings of that severity |
| Output.GroupsForIndex | src/output.rs:120-161 | the i-th group is the group of the i-th name |
| Output.Report | src/output.rs:115-161 | one block per rule name in the sorted listing, in that order, each for a rule that has findings |
| Output.ReportOrder | src/output.rs:115-161 | groups come in strictly ascending rule-name order, one per rule that occurs |
| Output.GroupContents | src/output.rs:124-133 | each group's errors and warnings are sorted by descending sort key and are permutations of that rule's findings of that severity |
| Output.ByRuleCorrect | src/output.rs:115-118 | the map's keys are the rule names, and each entry is that rule's findings in order |
| Output.GroupByRule | src/output.rs:115-118 | the loop fills exactly that map and name order |
| Output.SplitBySeverity | src/output.rs:124-131 | the loop splits a group into its errors and warnings, in order |
| Output.BuildGroup | src/output.rs:124-133 | split, then sort each list by descending sort key |
| Output.HumanReport | src/output.rs:106-161 | the grouping loop produces exactly `Report` (see ReportOrder, GroupContents) |
| Output.StatusOf | src/output.rs:194-200 | FAILED iff there are errors; WARNINGS iff only warnings; PASSED iff neither |
| Output.StatusOfFindings | src/output.rs:194-200 | FAILED iff some finding is an error; PASSED iff there are no findings |
| Output.Counted | src/output.rs:171-191 | "1 " and the singular noun for a count of 1; otherwise the count and the plural noun |
| Output.SummaryParts | src/output.rs:170-192 | "Checked n files", then the error part only when there are errors, and the warning part only when there are warnings |
| Cli.CommandLine.GetFormat | src/cli.rs:126-131 | the check's format; Human for any other command |
| Cli.CommandLine.GetQuiet | src/cli.rs:133-138 | true iff the command is check with quiet set |
| Cli.CommandLine.GetStaged | src/cli.rs:140-145 | true iff the command is check with staged set |
| Cli.CommandLine.GetWorkingTree | src/cli.rs:147-152 | true iff the command is check with working-tree set |
| Cli.CommandLine.GetGit | src/cli.rs:154-159 | the check's git range; None for any other command |
| Cli.CommandLine.GetNoHistory | src/cli.rs:161-166 | true iff the command is check with no-history set |
| Cli.CommandLine.GetFailOnWarn | src/cli.rs:168-173 | true iff the command is check with fail-on-warn set |
| Cli.CommandLine.GetCheckConfig | src/cli.rs:175-180 | the check's configuration path; None for any other command |
| Cli.NonCheckDefaults | src/cli.rs:126-180 | outside check, every accessor gives its default |
| Cli.FindShell | src/cli.rs:184-187 | None iff no table entry has the name; a found shell is registered under that name |
| Cli.ShellNames | src/cli.rs:190-193 | the table's names, in order |
| Cli.ParseShell | src/cli.rs:182-196 | found iff the lower-cased name is in the table; otherwise "Unsupported shell: <input>. Supported shells: " and the names joined by ", " |
| Cli.ToLowerIdempotent | src/cli.rs:184 | lower-casing twice is lower-casing once |
| Cli.ParseShellIgnoresCase | src/cli.rs:184-187 | a name and its lower-case form give the same answer |
| Cli.SupportedShellsFound | src/cli.rs:182-187 | each supported shell is found under its own name |
| Cli.UnsupportedMessage | src/cli.rs:188-195 | the message lists bash, zsh, fish, powershell, elvish |
| App.DetermineCheckPaths | src/app.rs:90-96 | the given paths, or the command line's default paths when none are given |
| App.DiscoveryRoot | src/app.rs:98-104 | the first check path, or "." when there is none |
| App.SelectMode | src/app.rs:113-125 | staged iff the CLI flag, or the config flag inside a repository; else working tree by the same rule; else a full walk honouring respect_gitignore iff the paths are exactly "."; else the specific paths |
| App.ConfigGitFlagsNeedRepo | src/app.rs:113-125 | outside a repository, the config flags alone never select git discovery |
| App.DiscoverFiles | src/app.rs:113-125 | each mode gives exactly its discovery: the staged or working-tree query, the full walk with the mode's gitignore setting, or the specific paths; staged and working-tree give RepoNotFound outside a repository |
| App.StagedOutsideRepo | src/app.rs:113-125 | the CLI staged flag outside a repository gives RepoNotFound; the config flag falls through to the walk |
| App.HasSeverity | src/app.rs:154-161 | true iff some finding has that severity |
| App.ExitFailure | src/app.rs:153-166 | the run fails iff some finding is an error, or fail-on-warn (CLI or config) is set and some finding is a warning |
| App.ExitAgreesWithStatus | src/app.rs:153-166 | without fail-on-warn, the run fails iff the status is FAILED |
| App.DefaultRuleDefinition | src/app.rs:451-463 | enabled, priority 1000, "Default file size check", the global max and warn sizes, no patterns and no match flags |
| App.Inherit | src/app.rs:434-441 | a rule takes the global max or warn size only where its own is None; nothing else changes |
| App.ConfiguredRules | src/app.rs:431-446 | one built rule per listed rule |
| App.ConfiguredRulesCorrect | src/app.rs:431-446 | success iff every listed rule builds with inherited sizes; the rules then match the listing position by position |
| App.FirstRuleErrorPersists | src/app.rs:443 | the first rule that fails to build decides the error |
| App.EngineRules | src/app.rs:424-449 | the default rule's error when it cannot be built; otherwise the default rule first, then one rule per listed rule |
| App.EngineRulesCases | src/app.rs:424-449 | the default rule's error comes first, then a configured rule's error; otherwise the default rule followed by the configured rules |
| App.DefaultRuleCoversEveryPath | src/app.rs:424-467 | the engine's first rule is "default" with the default definition, and some rule applies to every path |
| App.AddDefaultRule | src/app.rs:451-468 | the default rule is appended, or its build error returned with the engine unchanged |
| App.AddConfiguredRules | src/app.rs:431-446 | the configured rules are appended in listing order, or the first build error is returned |
| App.BuildEngine | src/app.rs:424-449 | a fresh engine whose rules are exactly `EngineRules`, or its error |
| App.CreateRuleEngine | src/app.rs:424-449 | the listing used is exactly the enabled rules of the configuration, and the engine is built from it |
| App.RunOutcome | src/app.rs:128-166 | no files: nothing to check; otherwise the engine's error, or an error of one of the files, or a result counting every file |
| App.NoFilesAlwaysSucceeds | src/app.rs:129-132 | an empty file list succeeds without building rules, whatever the configuration |
| App.RunOutcomeCorrect | src/app.rs:128-166 | with files, an engine error is returned; otherwise every file is counted and the run fails exactly by the exit rule |
| App.ValidateAndCheckFiles | src/app.rs:128-166 | the result is `RunOutcome` for the configuration's engine, the CLI's fail-on-warn and the config's; with files to check, the rule listing is the configuration's enabled rules, or empty without a rules section |

## Left out

- Process spawning: `Command::new("git")` and `GitRepo::discover` are not modelled. Their stdout, stderr and exit status are input values, and whether a repository was found is an `Option`.
- The batched history walk is not part of this model: `walk_history_blobs`, `get_diff_files`, rev-list, diff-tree, cat-file and the merge-base rewrite. Their results are inputs to `DiscoverHistoryBlobs` and `DiscoverGitDiffFiles`.
- `check_history_blobs` is not part of this model. `Rules.RuleEngine.CheckHistoryBlobs` models what `tests/git_diff_discovery.rs` asserts of it.
- Rules.FirstErrorPersists: with several unreadable files the code returns any one of their errors (a parallel collect into a `Result`); the model returns the first in path order.
- Rules.RuleEngine.CheckFiles: with several unreadable files the code returns any one of their errors; the model returns the first in path order.
- Base.SplitPath: `.` components are kept, where `Path::components` drops every `.` except a leading one. It is applied only to the paths that `git status --porcelain` prints, which have no such components.
- rayon parallelism and the mutex-based parallel walker are modelled sequentially. The order of a parallel walk is taken as the walker's order.
- Glob syntax and invalid-pattern errors from globset are left out, because they belong to an external library. Matching is the `matches` parameter, so `ConfigurableRule::new` never fails on a pattern.
- The `ignore` crate's gitignore semantics are left out, because they belong to an external library. Walk entries are an input, for a root walk with or without gitignore handling.
- Sizes.ParseSizeString: f64 parsing is modelled on exact decimals (sign, digits, optional fraction) with truncation and a saturating cast. Exponents, "inf", "nan" and f64 rounding are not modelled: the code rounds long fractions and whole numbers above 2^53 to the nearest f64 ("9007199254740993" gives 9007199254740992), where the model is exact.
- Sizes.FormatSize: the result is the unit and the exact real quotient. The `{:.1}` rendering is not modelled.
- Finding messages and the actual/expected texts are datatypes (`Message`, `Value`), not rendered strings.
- Case mapping is ASCII only. `to_uppercase`/`to_lowercase` of non-ASCII characters is not modelled.
- HashMap iteration order is unspecified in the code. It is a nondeterministic choice in `RulesConfig.MergeFrom`, `RulesConfig.GetEnabledRules` and `Dedup.IntoValues`, and `App.CreateRuleEngine` returns the listing it used.
- TOML/serde loading and saving, `load_config`, `create_default_config` and JSON output are left out: they are serialisation.
- Terminal printing, colours, the elapsed time and `process::exit` are left out. The exit decision is the `failure` flag of `App.Outcome`.
- `run_init`, `run_rules`, `open_editor`, `get_rule_info` and `get_all_rule_info` are left out: they are interactive or display-only.
- Clap argument parsing and `generate_completion` are left out. A command line arrives as a `Cli.CommandLine` value.
- `Cli::get_paths` is not part of this model. `App.DetermineCheckPaths` takes the default paths as a parameter.
- src/log.rs, src/main.rs and src/lib.rs are left out: they are wiring only.
- Integer widths: sizes are unbounded naturals except for the saturating `as u64` in size parsing. Priorities are constrained to i32. Counts are unbounded.
