# backman in Dafny

backman is a command-line backup manager. It reads an INI configuration file.
Every `[target]` section of that file describes one directory to archive:
- its `path` and `name`;
- where the archive goes (`dest`, or the global `default_dest`);
- which compressor `tar` uses, and whether the archive is encrypted with `gpg`;
- whether `tar` runs elevated;
- exclusions and extra `tar` flags;
- shell hooks to run before and after the archive is made.

On the command line the user names the targets to back up, or `all`. backman asks for a passphrase for each selected target that encrypts. For each selected target, one after another, it runs the before-hooks, starts `tar` (piped into `gpg` when encrypting), waits for it, and runs the end-hooks. A target's hooks are started in parallel; `--jobs` is meant to bound how many run at once.

This project models the deterministic core of that program and proves properties of it:

- `IniParser` (`src/parser/parser.cpp`, `src/parser/parser.hpp`) covers the INI parser:
  - the trimming helpers;
  - field-name validation;
  - `key = value` splitting, with quotes and inline comments;
  - section headers;
  - the line splitter;
  - the cursor-driven loop that turns lines into sections, the first of them the global one.
  Helper functions in `StdString` model `std::string::find`, `find_first_not_of` and `find_last_not_of`.
- `PathEnv` (`src/utils.cpp`) covers `resolve_path_with_environment`, the single-pass expansion of `$NAME` and `${NAME}`. The environment is a map.
- `Commands` and `Hooks` (`src/target/target.cpp`, `src/target/target.hpp`) cover the `SystemCommand` state machine and the `run_hooks` scheduler. What the operating system answers (`fork`, `WNOHANG` probes, status words) is an oracle value. The status word is the forked child's, and that child exits with what `system` returns, cut to eight bits (`Commands.ChildStatus`).
- `Targets` (`src/target/target.cpp`) covers:
  - the `Target` constructor: multiplicity checks, case-insensitive booleans, defaults, destination precedence, file name, hook prefixes;
  - the `tar` and `gpg` argument vectors;
  - the passphrase check and payload of `run_main`;
  - `set_passphrase`.
- `Arguments` and `Backman` (`src/main.cpp`) cover:
  - `parse_args`, including `std::stoi`;
  - the default configuration path;
  - the section dispatch;
  - the checks on the requested names;
  - the in-place selection of targets;
  - the run loop.
  `Backman.Run` is `main` as a whole, from the command line, environment and files to its end.

Each loop of the source is a method, and each method is proved equal to a function on values. The properties are proved as lemmas about those functions. Classes stand where the source updates objects in place:
- `Commands.SystemCommand`, whose `run` and `wait` change its fields;
- `Targets.Target`, whose `set_passphrase` and `run_main` change its fields.

Several functions take a flag `fixed`. With `fixed` false they are the code as written. With `fixed` true they are the correction listed under "## Findings".

Nothing checks the job count: `--jobs 0` and negative counts are accepted (`Arguments.JobsUnchecked`). A non-empty hook list then never finishes (`Hooks.RunHooksSpec`), so `main` waits forever at the first selected target that has a hook (`Backman.NoJobsMainWaits`). With a positive count, the scheduler as written can still run more hooks at once than the count (`Hooks.DoubleWaitOverrunsJobs`).

Where the code disagrees with its own comments or declarations, the model follows the code:
- The comment on `INI_Section::operator[]` in `src/parser/parser.hpp` promises the first value only. The code returns every value, in order (`IniParser.ValuesNamed`).
- `src/target/target.hpp` declares `dest` and comments out `tar_flags`. The constructor in `src/target/target.cpp` uses `destdir`, `destfile` and `tar_flags`, and the model has the fields the constructor uses.
- `src/utils.hpp` has no `all_targets` field, but `src/main.cpp` sets and reads one. The model's `Options` has it.

## Model

| member | source | states |
|---|---|---|
| `StdString.Find` | src/utils.cpp:45 | `find` returns the first index at or after `from` that holds the character, and `None` exactly when no such index exists |
| `StdString.FindFirstNotOf` | src/parser/parser.cpp:64-68 | `find_first_not_of` returns the first index at or after `from` whose character is outside the set, or `None` when every later character is in it |
| `StdString.FindLastNotOf` | src/parser/parser.cpp:57-61 | `find_last_not_of` returns the last index whose character is outside the set, or `None` when every character is in it |
| `StdString.FindInSuffix` | src/parser/parser.cpp:249-253 | searching the rest of a string after erasing a prefix finds the same occurrence, shifted by the erased length |
| `IniParser.TrimCharsListed` | src/parser/parser.cpp:54 | the trimmed characters are exactly space, `\t`, `\n`, `\v`, `\f` and `\r` |
| `IniParser.TrimRightFacts` | src/parser/parser.cpp:57-61 | right-trimming keeps a prefix, drops only trim characters, and leaves no trim character at the end |
| `IniParser.TrimLeftFacts` | src/parser/parser.cpp:64-68 | left-trimming keeps a suffix, drops only trim characters, and leaves no trim character at the start |
| `IniParser.RTrimIsTrimRight` | src/parser/parser.cpp:57-61 | `rtrim` as written (erase from `find_last_not_of + 1`, where `npos + 1` wraps to 0) equals dropping trailing trim characters one at a time |
| `IniParser.LTrimIsTrimLeft` | src/parser/parser.cpp:64-68 | `ltrim` as written (erase up to `find_first_not_of`, all of it for `npos`) equals dropping leading trim characters one at a time |
| `IniParser.TrimIsTrimmed` | src/parser/parser.cpp:71-74 | `trim` (right then left) equals the one-character-at-a-time reference definition |
| `IniParser.TrimmedSlice` | src/parser/parser.cpp:71-74 | the trimmed string is a contiguous slice of the input with only trim characters before and after it, and neither of its ends is a trim character |
| `IniParser.TrimmedEnds` | src/parser/parser.cpp:71-74 | after trimming, neither end is a trim character |
| `IniParser.TrimKeeps` | src/parser/parser.cpp:71-74 | a string with no trim character at either end is its own trim |
| `IniParser.TrimAllSpace` | src/parser/parser.cpp:71-74 | a string of trim characters only trims to the empty string |
| `IniParser.TrimIdempotent` | src/parser/parser.cpp:71-74 | trimming twice gives the same as trimming once |
| `IniParser.NameEnd` | src/parser/parser.cpp:84-91 | the field name ends at the first space, tab or `=`, or at the end of the line |
| `IniParser.NameScanFacts` | src/parser/parser.cpp:84-96 | the name loop throws exactly when the would-be name holds a character other than an ASCII letter, digit or `_`, and otherwise stops at the name's end |
| `IniParser.ReadFieldName` | src/parser/parser.cpp:84-96 | the name loop returns the name prefix, or the invalid-character exception |
| `IniParser.ReadFieldValue` | src/parser/parser.cpp:102-123 | the value loop computes the value scan: quotes toggled and dropped, the other kind of quote kept inside quotes, and an end at a space, tab, `#` or `;` outside quotes |
| `IniParser.NewField` | src/parser/parser.cpp:79-127 | the `INI_Field` constructor is the field parse of the line: trim, name, text after the first `=` trimmed, value |
| `IniParser.ParseField` | src/parser/parser.cpp:79-98 | a line parses exactly when its trimmed text starts with a non-empty name of ASCII letters, digits and `_` ended by a space, tab, `=` or the end; the field has that name, and an empty name is the empty-name error |
| `IniParser.FieldWithoutEquals` | src/parser/parser.cpp:79-98 | a field line with no `=` still parses when its name does, and its value is scanned from the whole trimmed line, name included |
| `IniParser.FieldNameSplit` | src/parser/parser.cpp:80-98 | a line parses exactly when its name (the trimmed prefix before a space, tab or `=`) is non-empty and all name characters, and the field then has that name |
| `IniParser.FieldOfNameAndRest` | src/parser/parser.cpp:79-127 | a valid name followed by text with an `=` yields that name and the value scanned from the trimmed text after the first `=` |
| `IniParser.EqualsAfterName` | src/parser/parser.cpp:100 | with a valid name in front, the text after the line's first `=` is the text after the first `=` of the rest |
| `IniParser.FieldRoundTrip` | src/parser/parser.cpp:79-127 | `key = value`, for a valid key and a plain value, parses back to that key and value |
| `IniParser.QuotedFieldRoundTrip` | src/parser/parser.cpp:79-127 | `key="text"` parses back to `key` and `text` for any text without a double quote, spaces, `#` and `;` included |
| `IniParser.PlainValue` | src/parser/parser.cpp:114-122 | outside quotes, text with no quote and no value-ending character is kept unchanged |
| `IniParser.QuotedValue` | src/parser/parser.cpp:106-113 | a value in double quotes reads as the text between them |
| `IniParser.InsideDoubleQuotes` | src/parser/parser.cpp:106-122 | inside an open double quote everything is kept up to the closing quote |
| `IniParser.HeaderIsNotComment` | src/parser/parser.cpp:138-141 | a line whose first non-blank character is `[` is never skipped as comment or empty, so the body loop sees every header |
| `IniParser.ParseHeader` | src/parser/parser.cpp:146-178 | a header that parses gives a non-empty name with no space, tab or `\r` at either end |
| `IniParser.HeaderRoundTrip` | src/parser/parser.cpp:146-178 | `pad[name]after`, with blank padding and a trimmed name free of `]`, parses to `name` whatever follows |
| `IniParser.HeaderBrackets` | src/parser/parser.cpp:151-161 | in such a header, `[` is the first non-blank character and the first `]` after it closes the name |
| `IniParser.BodyEnd` | src/parser/parser.cpp:187-197 | the body stops at the first header line at or after the cursor, or at the end, and no line before that is a header |
| `IniParser.SectionAt` | src/parser/parser.hpp:53-58 | the global section is named `""` and never throws; the cursor ends at the next header line or at `lines.size()`; a non-global section advances it past its header |
| `IniParser.ParseBody` | src/parser/parser.cpp:187-205 | the field loop stops at the next header line and collects, in order, the fields of the lines before it |
| `IniParser.BodyScanCollects` | src/parser/parser.cpp:187-205 | the field loop as a function: it skips comments, drops lines that throw, and stops at the next header |
| `IniParser.ReadBodyLine` | src/parser/parser.cpp:189-204 | one line of the body is recognised as a header, or else yields its field, or nothing for comments and lines that throw |
| `IniParser.ParseSection` | src/parser/parser.cpp:145-206 | the `INI_Section` constructor computes the section and the advanced cursor as stated for `SectionAt` |
| `IniParser.ValuesNamed` | src/parser/parser.cpp:209-217 | a lookup returns nothing exactly when no field has the key |
| `IniParser.ValuesNamedAppend` | src/parser/parser.cpp:209-217 | lookups keep source order: the matches of a concatenation are the matches of each part, in turn |
| `IniParser.ValuesNamedMember` | src/parser/parser.cpp:209-217 | a value is returned for a key exactly when a field with that key carries it |
| `IniParser.SplitOn` | src/parser/parser.cpp:247-256 | no piece of a split holds the delimiter |
| `IniParser.Split` | src/parser/parser.cpp:247-256 | the erase-and-search loop returns the pieces before each delimiter |
| `IniParser.SplitTerminated` | src/parser/parser.cpp:247-256 | pieces each followed by the delimiter split back into those pieces, and text after the last delimiter is dropped |
| `IniParser.IniParseLines` | src/parser/parser.cpp:264-271 | no lines give no sections; a parse that completes starts with the global section named `""` |
| `IniParser.IniParse` | src/parser/parser.cpp:264-271 | the cursor loop computes the parse of the lines: the sections, the first exception, or a hang |
| `IniParser.ParseOne` | src/parser/parser.cpp:268 | one turn of the loop either ends the parse with its outcome or advances while keeping the loop invariant |
| `IniParser.IniParseString` | src/parser/parser.cpp:258-262 | `ini_parse(string)` is the line parse of the document split on `\n` |
| `IniParser.IniParseDivergesIff` | src/parser/parser.cpp:264-271 | as written, `ini_parse` runs forever exactly when its first line is a section header |
| `IniParser.FixedParseEnds` | src/parser/parser.cpp:264-271 | corrected, the parse always ends, agrees with the code wherever that ends, and gives a document starting with a header an empty global section |
| `IniParser.SectionsFromNames` | src/parser/parser.cpp:264-271 | every section after the global one has a non-empty name, and there are no more of them than lines |
| `PathEnv.VarRunEnd` | src/utils.cpp:64-70 | the bare name is the maximal run of ASCII letters, digits and `_` after the `$` |
| `PathEnv.Step` | src/utils.cpp:37-86 | each turn of the loop consumes at least one character |
| `PathEnv.ResolvePathWithEnvironment` | src/utils.cpp:33-89 | the loop computes the single-pass expansion of the path |
| `PathEnv.Expand` | src/utils.cpp:33-89 | a path that refers to no variable the environment defines comes back unchanged |
| `PathEnv.ExpandAt` | src/utils.cpp:38-85 | one turn of the loop: a character copied, a `${NAME}` or `$NAME` replaced or kept, or a lone `$` kept |
| `PathEnv.ScanName` | src/utils.cpp:64-70 | the inner loop stops at the end of the name run |
| `PathEnv.ExpandKeepsAcc` | src/utils.cpp:44-85 | the output so far is never revisited: inserted values are not expanded again |
| `PathEnv.UnboundKeeps` | src/utils.cpp:37-86 | when the environment defines none of the names the loop looks up, every reference is kept as written and the rest is copied |
| `PathEnv.ExpandEmptyEnv` | src/utils.cpp:33-89 | with no variable defined, the output equals the input |
| `PathEnv.LiteralKeeps` | src/utils.cpp:37-41 | text without `$` is copied unchanged, in order |
| `PathEnv.ExpandLiteral` | src/utils.cpp:33-89 | a path without `$` is returned unchanged, whatever the environment |
| `PathEnv.ExpandAfter` | src/utils.cpp:37-86 | expansion of a concatenation goes on with the second part where the first part's references end |
| `PathEnv.ExpandLiteralPrefix` | src/utils.cpp:37-41 | a prefix without `$` passes through untouched in front of the expanded rest |
| `PathEnv.ExpandBraced` | src/utils.cpp:44-61 | `${NAME}` becomes the variable's value, or stays `${NAME}` when it is unset, and expansion goes on after the `}` |
| `PathEnv.ExpandBare` | src/utils.cpp:64-85 | `$NAME` followed by a non-name character becomes the value, or stays `$NAME` when it is unset |
| `PathEnv.StepUnbound` | src/utils.cpp:43-75 | one turn of the loop does not depend on variables other than the one it looks up |
| `PathEnv.ExpandLoneDollar` | src/utils.cpp:43-75 | a `$` followed by no name, or a `${` never closed, is kept as a literal `$` and scanning resumes after it |
| `Commands.RunCmd` | src/target/target.cpp:512-523 | `run` always records that it ran, marks the command failed exactly on a failed `fork`, and records the child's pid |
| `Commands.WaitCmd` | src/target/target.cpp:525-547 | `wait` returns -1 exactly when the command is or becomes failed; otherwise it returns the signal or the exit status the status word carries |
| `Commands.ExitedNeverSet` | src/target/target.cpp:525-528 | nothing sets `exited`, so the cached code is never returned, and -1 comes only from a failed fork or an odd status word |
| `Commands.ChildStatus` | src/target/target.cpp:512-516 | as written, the child of `run` exits with the low eight bits of what `system` returns: every exit status of the command becomes 0, a shell killed by a signal gives that signal's number, a failed `system` gives 255; corrected, the command's exit status is passed on |
| `Commands.CommandExitLost` | src/target/target.cpp:512-547 | as written, `wait` on a started command returns 0 whatever status its command exited with |
| `Commands.CommandExitKept` | src/target/target.cpp:512-547 | corrected, `wait` on a started command returns its command's exit status, which is 0 only for success |
| `Commands.SystemCommand.constructor` | src/target/target.hpp:59-65 | a new command is not failed, has not run or exited, has code 0 and pid -1 |
| `Commands.SystemCommand.Run` | src/target/target.cpp:512-523 | `run` updates the fields as `RunCmd` states |
| `Commands.SystemCommand.Wait` | src/target/target.cpp:525-547 | `wait` updates the fields and returns the code as `WaitCmd` states |
| `Commands.BitOr` | src/target/target.cpp:483 | the bitwise or of two values stays in range, is 0 exactly when both are 0, and is the other value when one is 0 |
| `Commands.Or` | src/target/target.cpp:483 | for results from -1 to 255, `status` or-ed with a result is -1 exactly when either is -1, and 0 exactly when both are 0 |
| `Commands.OrAllMinusOne` | src/target/target.cpp:469-494 | the or of all results is -1 exactly when some result is -1 |
| `Commands.OrAllZero` | src/target/target.cpp:469-494 | the or of all results is 0 exactly when every result is 0 |
| `Commands.OrAllPositive` | src/target/target.cpp:494 | `status > 0` holds exactly when no result is -1 and some result is positive |
| `Hooks.Initial` | src/target/target.cpp:469-472 | the scheduler starts with the hooks copied as fresh commands, `num_hooks` their count and nothing running |
| `Hooks.Start` | src/target/target.cpp:477-478 | starting a hook lowers `num_hooks` by one |
| `Hooks.WaitHook` | src/target/target.cpp:483 | waiting a hook leaves the counters and the start record alone |
| `Hooks.Spawn` | src/target/target.cpp:473-489 | a spawning loop that ends has started every hook |
| `Hooks.WaitAll` | src/target/target.cpp:490-492 | the final loop leaves `num_hooks` and the start record alone |
| `Hooks.RunHooksSpec` | src/target/target.cpp:468-495 | an empty hook list returns false; with `jobs <= 0` and at least one hook, no hook starts and `run_hooks` never returns |
| `Hooks.SpawnStuck` | src/target/target.cpp:473-489 | with no hook started and no room to start one, the loop never ends |
| `Hooks.SpawnOrder` | src/target/target.cpp:473-478 | the spawning loop starts hooks `num_hooks - 1` down to 0, each exactly once, and every one of them has run |
| `Hooks.WaitAllWaits` | src/target/target.cpp:490-492 | the final loop waits every hook from the index on once, in index order, appending one result per hook |
| `Hooks.StartsAndWaitsAll` | src/target/target.cpp:468-495 | when `run_hooks` returns, every hook has been started exactly once, last first, and has run and been waited |
| `Hooks.SpawnAggregates` | src/target/target.cpp:473-489 | through the spawning loop, `status` stays the or of every `wait` result so far |
| `Hooks.WaitAllAggregates` | src/target/target.cpp:490-492 | through the final loop, `status` stays the or of every `wait` result so far |
| `Hooks.ResultIsOr` | src/target/target.cpp:483-494 | `run_hooks` returns true exactly when no `wait` result was -1 and some was positive |
| `Hooks.FixedRespectsJobs` | src/target/target.cpp:476 | corrected, every hook starts while fewer than `jobs` started hooks are unwaited |
| `Hooks.FixedReportsFailures` | src/target/target.cpp:468-495 | corrected, `run_hooks` returns true exactly when no hook failed internally and some hook's forked child exited non-zero or was signalled |
| `Hooks.RunningHookReportedExited` | src/target/target.cpp:506-510 | as written, a probe of a hook whose process is still running answers that it has exited; corrected, it does not |
| `Hooks.Probe` | src/target/target.cpp:506-510 | as written, every probe of a hook that has not failed or been reaped answers that it has exited; corrected, a probe answers yes exactly for a failed or terminated hook, and reaps nothing |
| `Hooks.LostExitStatus` | src/target/target.cpp:482-494 | as written, a hook whose forked child exits with status 1 (its shell killed by `SIGHUP`, or its command exiting with 1 once the child is corrected as in `ChildStatus`) is reported as success; with the scheduler corrected, as failure |
| `Hooks.QuickFailureWritten` | src/target/target.cpp:482-494 | as written, in that run every `wait` reads status 0 |
| `Hooks.QuickFailureFixed` | src/target/target.cpp:482-494 | corrected, the child status 1 of hook 1 reaches `status` |
| `Hooks.DoubleWaitOverrunsJobs` | src/target/target.cpp:481-486 | as written, with `jobs` 1, the fourth hook starts while another started hook is still unwaited |
| `Hooks.CopyHooks` | src/target/target.cpp:468 | the hooks are taken by value: `run_hooks` works on fresh, distinct, never-run commands |
| `Hooks.WaitOn` | src/target/target.cpp:525-547 | `hooks[i].wait()` updates the command and returns the code for the status word the blocking `waitpid` leaves |
| `Hooks.RunAt` | src/target/target.cpp:477 | `hooks[--num_hooks].run()` updates exactly the started command |
| `Hooks.PollRound` | src/target/target.cpp:481-487 | the polling `for` loop computes one polling round of the scheduler |
| `Hooks.PollAt` | src/target/target.cpp:482-485 | one turn of the polling loop keeps the objects in step with the scheduler's state |
| `Hooks.WaitEvery` | src/target/target.cpp:490-492 | the final `for` loop computes the scheduler's final loop |
| `Hooks.WaitAt` | src/target/target.cpp:491 | one turn of the final loop keeps the objects in step with the scheduler's state |
| `Hooks.StartTurn` | src/target/target.cpp:476-478 | a starting turn of the spawning loop keeps the objects in step and lowers `num_hooks` |
| `Hooks.PollTurn` | src/target/target.cpp:479-488 | a polling turn of the spawning loop keeps the objects in step and uses one unit of fuel |
| `Hooks.Turn` | src/target/target.cpp:473-489 | one turn of the `while (num_hooks > 0)` loop makes progress and keeps the objects in step |
| `Hooks.SpawnLoop` | src/target/target.cpp:473-489 | the spawning loop ends within the fuel exactly when the scheduler's spawning loop does, in the same state |
| `Hooks.RunHooks` | src/target/target.cpp:468-495 | `run_hooks` computes the scheduler's outcome as written |
| `Targets.ToLowerIdempotent` | src/target/target.cpp:46-49 | lower-casing twice changes nothing more |
| `Targets.LowerIsCaseOf` | src/target/target.cpp:46-49 | a string lower-cases to a lower-case word exactly when it spells that word in some mix of cases |
| `Targets.ParseBoolCases` | src/target/target.cpp:76-81 | a boolean is true for `true` in any case, false for `false` in any case, and an error for anything else |
| `Targets.OptionalBoolOk` | src/target/target.cpp:72-84 | a boolean key is accepted exactly when it is given at most once with a valid boolean |
| `Targets.ConfigureOk` | src/target/target.cpp:65-158 | the constructor succeeds exactly when `path` and `name` occur once, the other scalar keys at most once, booleans are valid, and `dest`/`default_dest` occur at most once when no `--destdir` is given |
| `Targets.Configure` | src/target/target.cpp:51-197 | the constructor succeeds on a section exactly when the section's entries pass the checks stated for `ConfigureOk` |
| `Targets.Assemble` | src/target/target.cpp:65-197 | a constructed target had `path` and `name` exactly once, has that name, and has one prefixed hook per configured hook |
| `Targets.ConfigureFirstError` | src/target/target.cpp:65-91 | the first failing check names its key and count: `path`, then `elavated`, then `name` |
| `Targets.ConfigureDefaults` | src/target/target.cpp:82-158 | missing keys default to not elevated, `xz -9e --threads=0`, encrypt as elevated, one file system, and `su` |
| `Targets.ConfigureValues` | src/target/target.cpp:65-166 | given values are taken as given: the path env-expanded, `compress_program` and `elavate_program` verbatim; excludes and `tar` flags are copied in order |
| `Targets.ConfigureFlags` | src/target/target.cpp:65-166 | `elavated`, `encrypt` and `one_file_system`, when given, are true exactly for `true` in any case |
| `Targets.DestDirPrecedence` | src/target/target.cpp:93-111 | `--destdir` wins unexpanded; otherwise `dest`, then the global `default_dest`, then `$HOME/Backups`, each env-expanded |
| `Targets.OverrideSkipsDestChecks` | src/target/target.cpp:93-95 | with `--destdir`, `dest` and `default_dest` are not checked, however often they occur |
| `Targets.JoinPath` | src/target/target.cpp:169 | an absolute name replaces the directory; a relative name follows the directory, with at most one separator between them |
| `Targets.FileName` | src/target/target.cpp:245-259 | the file name is the name, `_`, the date, `.tar.` and the whole compression command, plus `.gpg` exactly when encrypting |
| `Targets.FileNameSeparates` | src/target/target.cpp:245-259 | targets with different names of the same length get different archive names |
| `Targets.Prefixed` | src/target/target.cpp:173-197 | prefixing keeps the number of hooks |
| `Targets.PrefixedAt` | src/target/target.cpp:173-197 | each hook appears, in order, right behind the environment prefix with no separator |
| `Targets.StripPrefix` | src/target/target.cpp:174-182 | the original hook comes back from a prefixed command by dropping the prefix |
| `Targets.PrefixHooks` | src/target/target.cpp:173-197 | the hook loops build the prefixed hooks |
| `Targets.CopyAll` | src/target/target.cpp:160-166 | the `excludes` and `tar_flags` loops copy every value in order |
| `Targets.ConfigureArchive` | src/target/target.cpp:169-197 | `destfile` is the destination directory joined with the file name, and every hook is the prefix (built from `destfile`, name and `destdir`) followed by the hook |
| `Targets.ExcludeRoundTrip` | src/target/target.cpp:295 | the pattern comes back from its `--exclude="..."` argument |
| `Targets.ExcludeArgs` | src/target/target.cpp:294-297 | there is one exclude argument per exclude |
| `Targets.ExcludeArgsAt` | src/target/target.cpp:294-297 | each exclude argument is the corresponding pattern in literal quotes, in order |
| `Targets.TarHeadLayout` | src/target/target.cpp:278-292 | the `tar` command starts with the elevation program and `--` exactly when elevating, then `tar`, then `--one-file-system` exactly when set, and ends its head with `-I` and the compression command |
| `Targets.TarTailLayout` | src/target/target.cpp:294-307 | after the compression command come the excludes, the `tar` flags, the path, and `-f destfile` exactly when not encrypting |
| `Targets.TarArgv` | src/target/target.cpp:275-309 | the whole `tar` command has the positions and length that follow from the head and tail layouts |
| `Targets.BuildTarArgv` | src/target/target.cpp:275-309 | the `push_back` loops build the `tar` command |
| `Targets.PushTail` | src/target/target.cpp:294-307 | the `push_back` loops after the compression command append the tail: the excludes, the flags, the path and `-f destfile` |
| `Targets.GpgArgv` | src/target/target.cpp:314-327 | the `gpg` command is the twelve fixed arguments, with the descriptor slot at index 6 right after `--passphrase-fd`, and the output file last |
| `Targets.RunMainSpec` | src/target/target.cpp:263-413 | `run_main` gets its processes started exactly when it is not encrypting with an empty passphrase, the directory is created, and the `fork` calls succeed; an empty passphrase fails first and changes nothing |
| `Targets.PassphrasePayload` | src/target/target.cpp:339-389 | `gpg` runs exactly when encrypting; the bytes written to its pipe are the passphrase followed by `\n`, which the stored passphrase then holds, and `gpg` writes to `destfile` |
| `Targets.RootRunsTarDirectly` | src/target/target.cpp:271-282 | run as root, the target stops elevating and `tar` comes first; otherwise elevation is as configured |
| `Targets.ChildrenRecorded` | src/target/target.cpp:339-413 | the ids of the started processes are appended to `children`, `tar`'s and then `gpg`'s |
| `Targets.Target.constructor` | src/target/target.cpp:51-197 | a new target holds the settings, an empty passphrase and no children |
| `Targets.Target.Copy` | src/main.cpp:250 | the copy the run loop makes has the same fields as the original |
| `Targets.Target.SetPassphrase` | src/target/target.cpp:416-439 | only an encrypting target stores the confirmed passphrase; nothing else changes |
| `Targets.Target.RunMain` | src/target/target.cpp:263-413 | `run_main` returns and changes the fields as the run-main function states |
| `Targets.Target.StartProcesses` | src/target/target.cpp:339-413 | the `fork` branches start `tar`, then `gpg` when encrypting, record each started id in `children`, and write the passphrase and a newline to `gpg` |
| `Targets.NewTarget` | src/target/target.cpp:51-197 | the constructor yields a fresh target with the configured settings, or exactly the configuration error |
| `Targets.Build` | src/target/target.cpp:65-197 | the checks and field assignments after the lookups yield the settings or the error |
| `Targets.ReadDestDir` | src/target/target.cpp:93-111 | the destination branch computes the destination precedence |
| `Arguments.StoiDigits` | src/main.cpp:82 | `std::stoi` reads a run of digits followed by a non-digit as its value when that fits in an `int` |
| `Arguments.StoiRejects` | src/main.cpp:81-86 | a string not starting with white space, a sign or a digit is rejected |
| `Arguments.StoiNegative` | src/main.cpp:82 | a minus sign negates, down to the smallest `int` |
| `Arguments.Stoi` | src/main.cpp:81-86 | a number read lies within `int`, and a string with no digit at all is rejected |
| `Arguments.ConfigUnderXdg` | src/main.cpp:168 | with `XDG_CONFIG_HOME` set, the configuration file is its value followed by `/backman/backman.ini` |
| `Arguments.ConfigUnderHome` | src/main.cpp:169-170 | otherwise it is `HOME`'s value (or a literal `$HOME`) followed by `/.config/backman/backman.ini` |
| `Arguments.ShortOptions` | src/main.cpp:103-155 | a cluster either moves past the arguments it consumed, leaving the requested targets and `all_targets` alone, or ends the program without proceeding |
| `Arguments.ArgAt` | src/main.cpp:64-162 | one pass of the loop moves forward and only adds to the requested targets, or ends with help or an error |
| `Arguments.ArgsFrom` | src/main.cpp:63-163 | the loop only ever adds to the requested targets |
| `Arguments.ParseArgs` | src/main.cpp:62-164 | the argument loop computes the parse of the command line |
| `Arguments.ReadArg` | src/main.cpp:64-162 | the loop body computes one pass on `argv[i]` |
| `Arguments.ReadCluster` | src/main.cpp:101-155 | the character loop computes the cluster's outcome |
| `Arguments.PositionalsAppended` | src/main.cpp:156-161 | arguments not starting with `-`, the empty string included, are appended to the targets in order, and `all` sets `all_targets` |
| `Arguments.PositionalStep` | src/main.cpp:156-161 | a positional argument is appended to the targets and parsing moves to the next argument |
| `Arguments.AddTargetConsistent` | src/main.cpp:156-160 | appending a positional argument keeps `all_targets` set exactly when `all` is requested |
| `Arguments.ArgAtConsistent` | src/main.cpp:64-162 | one pass of the loop keeps the options consistent |
| `Arguments.ArgsKeepConsistent` | src/main.cpp:63-163 | the loop keeps the options consistent |
| `Arguments.ParseArgsSpec` | src/main.cpp:62-164 | parsed options have `all_targets` exactly when `all` was requested, and no requested name starts with `-` |
| `Arguments.ConfigWithoutArgument` | src/main.cpp:70-75 | a trailing `--config` is reported but not fatal: parsing returns the options so far |
| `Arguments.JobsUnchecked` | src/main.cpp:79-88 | `--jobs` and `-j` accept zero and negative numbers |
| `Arguments.ClusterTakesNextArgument` | src/main.cpp:118-135 | in `-vj n`, verbosity goes up and `-j` takes the next argument, then parsing goes on after it |
| `Arguments.SeveralArgumentsRejected` | src/main.cpp:120-149 | a cluster holding two of `j` and `c` is refused, whichever comes first |
| `Arguments.UnknownLongAsWritten` | src/main.cpp:110-113 | as written, an unknown `--name` is reported as the unknown short option `-` |
| `Arguments.LongCheckAsWritten` | src/main.cpp:110-113 | as written, the unknown-long-option message fires only for a `-` behind another letter, as in `-v-` |
| `Arguments.UnknownLongCorrected` | src/main.cpp:110-113 | corrected, every unknown `--name` is reported as an unknown option, whole |
| `Arguments.HelpStops` | src/main.cpp:65-78 | `-h`, `--help` and `--version` end parsing with the help text, whatever follows |
| `Arguments.MissingArgumentFails` | src/main.cpp:79-97 | `--jobs`, `--destdir`, `-j` and `-c` with nothing after them exit with status 1 |
| `Arguments.LoneDashIgnored` | src/main.cpp:101-161 | a lone `-` is neither an option nor a target and changes nothing |
| `Backman.TargetSections` | src/main.cpp:199-209 | only sections named `target` become targets: no more of them than sections |
| `Backman.ConfigureAllOk` | src/main.cpp:198-209 | the section loop succeeds exactly when every `[target]` section constructs, and then yields their settings in order |
| `Backman.ConfigureAllFirstError` | src/main.cpp:198-209 | a failing section loop fails with the error of the first `[target]` section that does not construct |
| `Backman.ConfigureAllStops` | src/main.cpp:198-209 | a failure among the first sections is the failure of the whole loop |
| `Backman.LoadTargets` | src/main.cpp:198-209 | the loop constructs fresh, distinct targets holding the configured settings, or stops with the first error |
| `Backman.LoadOne` | src/main.cpp:200-208 | one pass of the section loop: the global section and other names add nothing, and a `[target]` section adds its constructed target or stops the loop with the constructor's error |
| `Backman.AddTarget` | src/main.cpp:202-203 | a `[target]` section appends a new target, distinct from those before it, holding the configured settings, or yields exactly the constructor's error |
| `Backman.Construct` | src/main.cpp:203 | `targets.emplace_back(section)` yields a fresh target with the section's settings, or the constructor's error |
| `Backman.FirstDuplicateDistinct` | src/main.cpp:216-223 | no duplicate is reported exactly when the requested names are distinct, and a reported name occurs twice |
| `Backman.FindDuplicate` | src/main.cpp:216-223 | the nested loop finds the first name that is requested again later |
| `Backman.FirstMissingAll` | src/main.cpp:236-247 | nothing is missing exactly when every requested name is a selected target's, and a reported name is requested and absent |
| `Backman.FindMissing` | src/main.cpp:236-247 | the nested loop finds the first requested name no selected target has |
| `Backman.KeptIndices` | src/main.cpp:225-234 | the kept positions are valid and strictly increasing: configuration order is kept |
| `Backman.KeptExactly` | src/main.cpp:225-234 | a target is kept exactly when its name is requested, or when `all` is requested |
| `Backman.IsWanted` | src/main.cpp:226-231 | the inner loop decides whether the target is requested |
| `Backman.SelectTargets` | src/main.cpp:225-234 | the in-place erase loop leaves the kept targets in order and asks exactly those for their passphrase |
| `Backman.SelectOne` | src/main.cpp:226-233 | one pass of the erase loop either keeps and asks the target or erases it |
| `Backman.SelectedStates` | src/main.cpp:225-234 | after the selection the kept targets, and only they, have been asked for their passphrase |
| `Backman.Ask` | src/main.cpp:228 | asking a kept target is `set_passphrase` with the confirmed entry |
| `Backman.HooksReturnNoJobs` | src/target/target.cpp:468-495 | with a job count of zero or less, `run_hooks` returns exactly for an empty hook list |
| `Backman.TargetRun` | src/main.cpp:250-255 | a target's turn takes its four steps exactly when its before-hooks return, `run_main` succeeds and its end-hooks return; a fatal `run_main` happens only after the before-hooks return, and ends the turn right after the start with its error |
| `Backman.RunOf` | src/main.cpp:250-255 | the loop over the turns ends early exactly when some turn ends it |
| `Backman.RunOfLayout` | src/main.cpp:250-255 | when each turn that goes on has four steps, a loop that goes through is the turns' steps one after another, and a loop that ends early ends at the first turn that ends it, with that turn's steps last |
| `Backman.RunFrom` | src/main.cpp:250-255 | the loop takes at most four steps per remaining target, and exactly four each when it gets through them all |
| `Backman.RunFromIsRunOf` | src/main.cpp:250-255 | the loop over the targets is the loop over their turns |
| `Backman.RunCompletes` | src/main.cpp:250-255 | every selected target runs before-hooks, `run_main`, `wait_main` and end-hooks in turn exactly when every target's hooks return and no `run_main` is fatal |
| `Backman.RunStopsAtFirstFailure` | src/main.cpp:250-255 | an early end, a fatal `run_main` or hooks that never return, comes at the first target where it happens: every earlier target ran in full, and the trace ends with the steps this target took |
| `Backman.EmptyPassphraseStops` | src/main.cpp:250-255 | a selected target that encrypts with an empty passphrase ends the run |
| `Backman.NoJobsNeedNoHooks` | src/main.cpp:250-255 | with a job count of zero or less, the loop gets through every target exactly when no selected target has a hook and no `run_main` is fatal |
| `Backman.RunTarget` | src/main.cpp:250-255 | one pass on the loop's copy of the target, `run_before_hooks`, `run_main`, `wait_main`, `run_end_hooks`, computes the target's turn |
| `Backman.RunTargets` | src/main.cpp:250-255 | the run loop computes the run of the selected targets' states |
| `Backman.RunTurns` | src/main.cpp:250-255 | the loop computes the loop over the turns |
| `Backman.RunStep` | src/main.cpp:250-255 | the n-th pass computes the n-th target's turn |
| `Backman.ChosenMatchesRequest` | src/main.cpp:225-247 | without `all`, a selection that passes the checks holds only requested targets and every requested name |
| `Backman.ChosenAll` | src/main.cpp:211-234 | with `all`, the selection passes exactly when nothing else is requested, and then holds every target in configuration order |
| `Backman.NothingRequested` | src/main.cpp:225-234 | with no target named, nothing is selected |
| `Backman.Chosen` | src/main.cpp:211-247 | a selection that passes had `all` alone or not at all and no name requested twice; each selected target carries the confirmed passphrase for its name exactly when it encrypts, and no children |
| `Backman.BackmanSpec` | src/main.cpp:167-256 | `main` reaches the run loop exactly when the selection passes, and then takes at most four steps per selected target, four each when it gets through them all |
| `Backman.NoJobsMainWaits` | src/main.cpp:167-256 | when `main` reaches the run loop with a job count of zero or less, it gets through every selected target exactly when none of them has a hook and no `run_main` is fatal |
| `Backman.LoadConfig` | src/main.cpp:191-209 | reading, parsing and constructing yields fresh distinct targets holding the configured settings, or the first failure |
| `Backman.Choose` | src/main.cpp:211-247 | the `all` conflict, duplicate, selection and not-found steps on the constructed targets yield the chosen states or the first failure |
| `Backman.RunOptions` | src/main.cpp:191-256 | `main` after `parse_args` ends as the whole-program function states for the parsed options |
| `Backman.Run` | src/main.cpp:167-256 | `main` ends as the whole-program function states: stopped with its reason, or after the run loop with its steps |

## Left out

- The `Press enter to continue` prompt for a section that is neither global nor `target` (src/main.cpp:206-207). It waits on standard input; the model goes on, as the source does after the key press.
- The prompt loop of `set_passphrase` (src/target/target.cpp:418-433) reads the terminal. The confirmed entry is a parameter, a function of the target's name.
- Process mechanics are not modelled: `fork`, `execvp`, `pipe`, `dup2`, `close`, `kill` and `waitpid` in `run_main`, and the child side of `SystemCommand::run`. Their outcomes are parameters. `wait_main` and `Target::has_exited` become recorded steps.
- The hooks inside the run loop of `main` run through the scheduler as written, on the answers `World` gives for each target. Their result is ignored, as in the source. A hook run that does not end within the fuel ends the modelled run (`HooksOutOfFuel`); with a positive job count whether it ends depends on the operating system's answers.
- The 50 ms sleep in `run_hooks` has no logical content.
- `Hooks.Spawn`: the spawning loop's termination depends on the operating system, so it carries fuel (a number of polling rounds). Runs that need more rounds are `OutOfFuel`, not followed further.
- `Hooks.Probe`: a hook whose `fork` failed is probed with pid -1, which may reap another child. That is not modelled.
- `Backman.Chosen`: states the stored passphrase, not the prompt that produced it.
- `Commands.ChildStatus`: the core-dump bit of the shell's wait status is not modelled, and `system`'s own child is not modelled beyond the three outcomes.
- Other parts of the environment are parameters:
  - the clock (`time`, `localtime`, `strftime` in `get_file_name`) becomes a date string;
  - `getenv` becomes a map with no key for the empty name, since `getenv("")` is null;
  - `geteuid`/`getegid` become a root flag;
  - `fs::create_directories` becomes a success flag;
  - `fs::exists` and the file read of `ini_parse(path)` (src/parser/parser.cpp:223-245) become a map from path to contents, so the unterminated read buffer is not modelled.
- `std::isalnum` and `std::tolower` are taken in the C locale (ASCII).
- Logging (`src/log`), the debug `printf` blocks and the printed passphrase are left out.
- `verbosity` is an unbounded integer. The source's `int` could overflow after about two billion `-v` flags.
- The dangling `c_str()` pointers pushed into the `tar` argument vector (src/target/target.cpp:295-300) are not modelled. The argument vector holds the intended strings.
- `Targets.JoinPath`: `fs::path` `/` is modelled as joining with one `/` (none after a trailing `/`, and an absolute name replacing the directory). Path normalisation is not modelled.
- The target vector's copy semantics are not modelled as such. The targets are distinct objects. The erase loop works on a sequence of references, and the run loop's `auto target` copy is `Targets.Target.Copy`.
- An exception from `ini_parse` escaping `main` is modelled as a stop (`BadConfig`), without the C++ termination details.

## Findings

| source | as written | input that shows it | evidently intended | confidence | as-written member | corrected member |
|---|---|---|---|---|---|---|
| src/target/target.cpp:506-510 | `has_exited` tests `WIFEXITED` on a status word that starts at 0 and stays 0 while the process runs; 0 reads as a normal exit | a hook whose process has not terminated when probed | report exited only when `waitpid` returns the terminated child, leaving its status for `wait` | high; not executed | `Hooks.RunningHookReportedExited` | `Hooks.Probe` |
| src/target/target.cpp:481-486 | the polling loop waits every started hook the probe accepts, also hooks already waited, and decrements `running_children` each time | hooks `a b c d`, `jobs` 1, every process still running when probed: hook 3 is waited twice, and hook 0 starts while hook 1 is still running | only unwaited hooks are polled, so at most `jobs` hooks run at once | high; not executed | `Hooks.DoubleWaitOverrunsJobs` | `Hooks.FixedRespectsJobs` |
| src/target/target.cpp:482-483, 525-547 | the probe reaps a terminated hook and drops its status; `wait` then reads a zeroed status word as exit 0, and `exited` is never set | hooks `a b`, `jobs` 1, hook 1's child exits with status 1 (its shell killed by `SIGHUP`, or, with the child corrected, its command exiting with 1): `run_hooks` returns false | the failure is reported: `run_hooks` returns true | high; not executed | `Hooks.LostExitStatus` | `Hooks.FixedReportsFailures` |
| src/main.cpp:110 | the check for an unknown long option looks at index 2, but the second `-` of `--name` is at index 1 | `backman --foo` reports unknown option `'-'`; `backman -v-` reports unknown option `"-v-"` | every unknown `--name` is reported whole as an unknown option | high; not executed | `Arguments.UnknownLongAsWritten` | `Arguments.UnknownLongCorrected` |
| src/parser/parser.cpp:264-269 | the section at cursor 0 is always the global one; when line 0 is a header it consumes nothing, the cursor stays at 0 and the loop never ends; each pass appends another section, so memory grows without bound | a configuration whose first line is `[target]` | the first section constructed is global, and the header at line 0 starts the next section | high; not executed | `IniParser.IniParseDivergesIff` | `IniParser.FixedParseEnds` |
| src/target/target.cpp:516 | the child of `run` ends with `std::exit(system(command))`; `system` returns the shell's wait status, with the exit status in bits 8 to 15, and `exit` keeps only the low eight bits | a hook `false`: its shell exits with 1, `system` returns 256, the child exits with 0 and `wait` returns 0 | the child exits with the command's exit status, `WEXITSTATUS` of what `system` returns | high; not executed | `Commands.CommandExitLost` | `Commands.CommandExitKept` |
