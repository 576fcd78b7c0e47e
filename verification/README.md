# build.php, modelled in Dafny

build.php is the install script of "Drupal in a Box". It reads a `.run` file
of command templates, split into `[sections]`, and an INI file `build.ini` of
variable sets. It substitutes `%NAME%` placeholders and runs the commands of
one section in order, through the shell or, for `cd`, in the script's own
process. It stops at the first failure. This project models that logic and
proves what it does.

- `php.dfy` (module `Php`) holds the PHP semantics the script relies on:
  - `empty` on strings;
  - `trim` with its default character set;
  - `explode` on one character;
  - ordered arrays (`OrderedMap`: insertion-ordered keys plus a map).
- `run_file.dfy` (module `RunFile`) is `parse_run_file`. It is an imperative
  loop over the lines of the file, proved against `ParseLines`, a function
  over the lines. Lemmas relate that function to a reference view: the
  commands listed under each section, in file order, with none lost or
  duplicated.
- `substitution.dfy` (module `Substitution`) is `parse_command`. It scans
  left to right without overlap for matches of `%(%*([^%]+)%*)%`.
  `substitution_examples.dfy` works through concrete commands.
- `variables.dfy` (module `Variables`) is `parse_variable_file`: the choice
  of the build set and the three outcomes.
- `executor.dfy` (module `Execution`) is `execute_command`, a method of an
  `Executor` class whose field `cwd` is the process's working directory. The
  shell, `realpath` and `chdir` are oracle functions of an `Os` value. A
  ghost field records every command handed to the executor.
- `orchestrator.dfy` (module `Orchestrator`) covers `run_commands` and
  `main`. Their imperative forms (`RunCommands`, `RunAll`, `RunBuild`) are
  proved against the functions `Run`, `RunSets` and `Build`. In this model
  printing appends to a sequence of output lines, without the line ending,
  and `exit` becomes a final status.

Two behaviours of the code are worth knowing:

- A missing `[master]` section or `build` entry raises no error of its own.
  The code reads null, which works as the key `""`, so the build stops with
  `Could not access variable set: []`. `Variables.MissingMasterBuild` states
  this.
- The lookup key of a placeholder is the pattern's outer group, extra `%`
  included, not the inner name: `%%A%%` looks up `%A%`.
  `SubstitutionExamples.ExtraPercentsInKey` states this.

## Model

| member | source | states |
|---|---|---|
| Php.Trim | build.php:159 | `trim` leaves a string no longer than its input that neither starts nor ends with a trim character |
| Php.TrimSlice | build.php:159 | `trim` only removes: its result is the slice of the input after the leading trim characters, and only trim characters follow it |
| Php.TrimKeeps | build.php:159 | a string that neither starts nor ends with a trim character is unchanged by `trim` |
| Php.TrimEmpty | build.php:237 | `trim` gives "" exactly for strings made of trim characters only |
| Php.Explode | build.php:34 | `explode` gives at least one piece, no piece holds the separator, and there is exactly one piece iff the separator does not occur |
| Php.ImplodeExplode | build.php:34 | joining the pieces with the separator gives the input back |
| Php.ExplodeFirst | build.php:34 | `explode` cuts at the first separator: the first piece is everything before it |
| Php.ExplodeWhole | build.php:34 | a string without the separator explodes to itself alone |
| Php.Without | build.php:122 | removing a key leaves exactly the other keys and keeps them distinct |
| Php.WithoutAbsent | build.php:122 | removing a key that is not there changes nothing |
| Php.WithoutSplit | build.php:122 | removing a key that occurs once leaves the keys before it followed by those after it, in their order |
| Php.OrderedMap.Put | build.php:168 | assigning `$a[$k]` updates the value, appends a new key at the end, keeps an existing key's place, and keeps the array well formed |
| Php.OrderedMap.Unset | build.php:122 | `unset($a[$k])` removes the key and its value, leaves exactly the other keys, and keeps the array well formed |
| Php.OrderedMap.UnsetAt | build.php:122 | `unset` of the key at position `i` leaves the other keys, and the values `foreach` visits, in their order with position `i` taken out |
| Php.OrderedMap.UnsetAbsent | build.php:122 | `unset` of a key that is not there changes nothing |
| Php.OrderedMap.PutValues | build.php:168 | `foreach` visits a new key's value after all others, and an existing key's new value in its old place |
| RunFile.LineLength | build.php:158 | the comment's `.*` stops at the first line feed |
| RunFile.StripComments | build.php:160 | removing comments never lengthens the line |
| RunFile.StripLeavesNoMarker | build.php:158-160 | after comment removal no "// " is left, whatever the input |
| RunFile.StripSingleLine | build.php:158-160 | on a line without line feeds, comment removal keeps exactly the prefix before the first "// " |
| RunFile.StripKeeps | build.php:158-160 | a line without "// " is kept verbatim |
| RunFile.CutAtFirst | build.php:158-160 | `a // rest` on one line becomes `a` when `a` holds no "// " |
| RunFile.CommentLine | build.php:158-160 | a trimmed line with a comment reaches the classifier cut just before the "// ", trailing space kept |
| RunFile.PlainLine | build.php:159-160 | a trimmed line without '/' reaches the classifier unchanged |
| RunFile.PlainCommand | build.php:159-169 | a line whose trimmed form is not `empty`, has no comment and does not start with '[' is stored as that trimmed form |
| RunFile.TrailingMarkerKept | build.php:159-160 | `x // ` loses its space to `trim` first, so `x //` is kept as a command |
| RunFile.SlashesWithoutSpace | build.php:158 | `//` not followed by a space starts no comment |
| RunFile.NameLength | build.php:157 | the section name is the longest run of name characters |
| RunFile.HeaderName | build.php:157 | a header match is `[`, a non-empty run of name characters, `]`, anchored at the start of the line |
| RunFile.HeaderNameComplete | build.php:157 | every line that starts with `[name]` is a header of exactly that name, whatever follows |
| RunFile.Classify | build.php:159-169 | a line is blank iff trimmed and cut it is `empty`; a header has a non-`empty` name; a command is the trimmed and cut line, never `empty`, with no "// ", and is no header unless the header's name is "0" |
| RunFile.ZeroHeaderIsCommand | build.php:164 | `[0]` is stored as a command, because the name "0" is `empty` |
| RunFile.Step | build.php:159-169 | one line changes the current section only if it is a header, and the lists only if it is a command, which is appended to the current section's list; the arrays stay well formed |
| RunFile.ParseLines | build.php:154-171 | the sections after any number of lines are a well-formed ordered array |
| RunFile.Append | build.php:168 | `$commands[$section][] = $line` appends to that section's list, adding the section at the end when it is new |
| RunFile.CommandsIn | build.php:161-169 | the reference view: commands listed under a section are never `empty` and never hold "// " |
| RunFile.ParseLinesMeaning | build.php:154-171 | after any lines, the current section is the last header's, and each section's list is exactly the commands read under it, in file order; a section is present iff it has a command |
| RunFile.ParseLinesCount | build.php:154-171 | the lists together hold exactly as many commands as the file has command lines |
| RunFile.ParsedFile | build.php:151-178 | the parsed sections are well formed and agree with the reference view and the count |
| RunFile.ParseRunFile | build.php:151-178 | the loop yields the sections `ParseLines` defines, which are what the reference view says, or "Could not open file: " and the path when the file cannot be opened |
| Substitution.MatchEnd | build.php:194 | a match starting at the first character starts with '%' and is at least three characters long |
| Substitution.MatchEndLast | build.php:194 | a match ends with the '%' that closes it |
| Substitution.Replacement | build.php:197-201 | a match becomes the variable's value or its own name; a non-empty name never gives "", and the result is `empty` only when the name is |
| Substitution.Substitute | build.php:194-203 | the substituted command is empty iff the command is |
| Substitution.UnchangedWithoutPlaceholder | build.php:194-203 | text where the pattern does not match, in particular text without '%', is left unchanged |
| Substitution.LeftmostPlaceholder | build.php:194 | wherever the pattern matches, a leftmost match exists, with its runs |
| Substitution.TrailingPercentKept | build.php:194-203 | text without '%' followed by a lone '%' holds no match and is kept |
| Substitution.LeftmostMatchRuns | build.php:194 | the leftmost match is where the scan finds it |
| Substitution.SubstituteLeftmost | build.php:194-203 | the text before the leftmost match is kept, the match becomes the replacement of its outer group, and the scan resumes after the match |
| Substitution.SimplePlaceholder | build.php:194-201 | `pre%name%post` becomes `pre`, then the variable's value (or `name` when unset or `empty`), then the substituted `post` |
| Substitution.LonePlaceholder | build.php:198-200 | a placeholder around one character other than '%' (such as `%0%`) becomes the replacement of that character |
| Substitution.SubstitutesToZero | build.php:196-203 | only "0", or "%0%" with "0" unset, substitutes to "0" |
| Substitution.ParseCommand | build.php:193-210 | the result is the substituted command and never `empty`; otherwise the error "Error parsing command substitutions." |
| Substitution.ParseCommandFails | build.php:204-209 | the error is raised exactly for "", "0", and "%0%" with "0" unset |
| SubstitutionExamples.EchoName | build.php:196-201 | `echo %NAME%` becomes "echo " followed by the replacement of NAME |
| SubstitutionExamples.SetVariable | build.php:198-200 | with NAME = world, `echo %NAME%` becomes `echo world` |
| SubstitutionExamples.UnsetVariable | build.php:198-199 | with NAME unset or `empty`, `echo %NAME%` becomes `echo NAME` |
| SubstitutionExamples.NoOverlap | build.php:194-203 | matches do not overlap: for any names `a` and `b` without '%', `%a%b%` becomes the replacement of `a` followed by `b%` unchanged |
| SubstitutionExamples.ExtraPercentsInKey | build.php:198 | the key is the outer group: for any name `a` without '%', `%%a%%` looks up `%a%`, not `a` |
| Variables.ParseVariableFile | build.php:112-138 | the three outcomes: "Could not open file: " iff the parse failed or is empty; `all` iff the build set is "all", holding every section but `master` in order; a single set iff that section exists and is not empty; otherwise "Could not access variable set: [name]" |
| Variables.AllSetsWellFormed | build.php:121-123 | the `all` sets are a well-formed ordered array without `master` |
| Variables.AllSetsInFileOrder | build.php:121-123 | the `all` sets keep the order of build.ini, `master` taken out where it stood, values and names alike |
| Variables.MasterBuildSelects | build.php:118-119 | without a usable branch hint `master.build` names the set: "all", a single set, or "Could not access variable set: [name]" |
| Variables.BranchOverrides | build.php:115-116 | a usable branch hint decides, whatever `master.build` says |
| Variables.MissingMasterBuild | build.php:119 | without `master.build` the build set name reads as "" and the build stops with "Could not access variable set: []" |
| Variables.MasterHintIgnored | build.php:115 | the hint "master" is the same as no hint |
| Execution.CdArgument | build.php:229-231 | a `cd` command is "cd " and a line, with at most one final line feed; the capture holds no line feed |
| Execution.CdRecognised | build.php:229-231 | every "cd " line is recognised, with or without a final line feed |
| Execution.CdTarget | build.php:236-237 | the path handed to `realpath` never starts or ends with a trim character, and is the capture itself when that is not "0" and has none at its ends |
| Execution.CdTargetEmpty | build.php:236-237 | the path handed to `realpath` is "" exactly when the capture is "0" or only trim characters |
| Execution.Execute | build.php:226-256 | only a successful `cd` changes the working directory; every failure starts with "Error: "; any other command is the shell's, failing with the last output line iff its status is non-zero and otherwise returning its output unchanged |
| Execution.CdBypassesShell | build.php:232-249 | a `cd` command never consults the shell |
| Execution.OthersUseShellOnly | build.php:232-234 | any other command consults neither `realpath` nor `chdir` |
| Execution.CdUnresolvable | build.php:238-248 | an unresolvable path fails with "Could not cd to " plus the capture as written, untrimmed |
| Execution.CdSucceeds | build.php:236-244 | a resolved path that `chdir` accepts becomes the working directory, with no output |
| Execution.CdChdirFails | build.php:238-243 | a resolved path that `chdir` refuses fails with "Could not cd to " plus the resolved path, and the working directory stays |
| Execution.Executor.ExecuteCommand | build.php:226-256 | the method gives the result and the new working directory that `Execute` defines, and records the command |
| Orchestrator.RunCommand | build.php:76-88 | a refused command prints only "Error parsing command substitutions." and stops the build; otherwise it prints ">> " and the substituted command, then its output lines or its error message, goes on exactly when it succeeded, and leaves the working directory where `execute_command` put it |
| Orchestrator.Run | build.php:75-90 | a run executes at most its commands, and a failed run ends on an error line |
| Orchestrator.RunPrints | build.php:75-90 | a run that gets through prints, for each command in turn, ">> " and the substituted command followed by its output, and ends where its `cd` commands leave the working directory |
| Orchestrator.RunAppend | build.php:76-89 | running two lists in turn is running them joined; after a failure nothing more runs |
| Orchestrator.RunExtends | build.php:75-90 | what was printed or executed is never taken back |
| Orchestrator.RunSucceeds | build.php:75-90 | a run that gets through has executed every command, substituted, in order |
| Orchestrator.RunParsesOne | build.php:77-78 | in a run that gets through, command `i` was accepted by `parse_command` |
| Orchestrator.RunParsesAll | build.php:77-78 | a run that gets through had every command accepted by `parse_command` |
| Orchestrator.RunFailsAt | build.php:85-88 | a failed run stops at one command: those before it went through, and its outcome is that command's, so no later command runs |
| Orchestrator.FileCommandsParse | build.php:204-209 | of the commands a run file lists, only "%0%" with "0" unset is refused |
| Orchestrator.RunSets | build.php:55-59 | in `all` mode a failed build ends on an error line |
| Orchestrator.RunSetsSucceeds | build.php:55-59 | an `all` run that gets through has executed the whole list once per set, set after set |
| Orchestrator.RunSetsFailsAt | build.php:55-59 | an `all` run that fails stops inside one set; the sets before it went through and no later set runs |
| Orchestrator.SplitTarget | build.php:29-36 | the run file name ends in ".run"; without '.' there is no hint and the whole argument names the file; no part holds '.' |
| Orchestrator.SplitTargetParts | build.php:34-35 | `hint.name` and `hint.name.more` give hint `hint` and file `name.run` |
| Orchestrator.SplitTargetWithoutHint | build.php:30-31 | `deploy` gives no hint and deploy.run |
| Orchestrator.SplitTargetWithHint | build.php:34-35 | `dev.deploy` gives hint "dev" and deploy.run |
| Orchestrator.SplitTargetDropsRest | build.php:34 | whatever follows a second '.' is ignored: `hint.name.more` selects the same as `hint.name` |
| Orchestrator.SplitTargetEmptyHint | build.php:29-35 | a leading '.' gives the empty hint: `.name` selects the same as `name` |
| Orchestrator.Configure | build.php:39-49 | the variable file is read first and its error wins; then an unreadable run file gives "Could not open file: " and its path; then a command set without commands gives "Could not access command set: [name]"; otherwise it succeeds, with the list the run file holds under the trimmed command set |
| Orchestrator.Build | build.php:22-63 | exit status 0 or 1; usage lines and 1 for a wrong argument count; a configuration error prints its message alone and exits 1 before anything runs; a build that executed something and exits 1 ends on an error line |
| Orchestrator.BuildWithoutIni | build.php:40-52 | without a readable build.ini the build prints "Could not open file: " and its path, and exits 1 |
| Orchestrator.BuildSingle | build.php:60-62 | a single-set build exits 0 only after executing every command, in file order, with that set substituted |
| Orchestrator.BuildAll | build.php:55-58 | an `all` build exits 0 only after executing the list once per set other than `master`, in INI order |
| Orchestrator.PrintLines | build.php:81-83 | the output lines are printed in order |
| Orchestrator.RunCommands | build.php:75-90 | the loop prints, executes and stops exactly as `Run` says, leaving the executor where `Run` leaves it |
| Orchestrator.RunAll | build.php:55-59 | the loop over the sets does what `RunSets` says, on one executor |
| Orchestrator.RunBuild | build.php:22-63 | the script prints and exits exactly as `Build` says |

## Left out

- `parse_ini_file` is a parameter: its result, or `None` when it fails. INI syntax, value coercion, top-level keys outside sections and array values are not modelled; every value is a string.
- `fopen`, `fgets` and `fclose` are a parameter: each run file is its lines, or `None` when it cannot be opened. A read error in the middle of the file is not modelled.
- `exec`, `realpath` and `chdir` are oracle functions of `Os`. The shell and `realpath` get the working directory as an argument. What they do to the file system is not modelled.
- `print` and `exit` are a sequence of output lines and a status. `PHP_EOL` is not modelled.
- `__DIR__` is the parameter `dir`. PHP notices for undefined indexes are not modelled; only the `""` key they lead to is.
- The record of executed commands in `Executor` and in the trace is ghost, for the proofs; the script keeps no such record.
- Orchestrator.Run: its own contract states only bounds and the error line; what it executes and where it stops is stated by `RunSucceeds`, `RunPrints`, `RunParsesAll` and `RunFailsAt`.
