# rewrite-args, modelled in Dafny

`rewrite-args` is a small Go program meant to be installed behind a shell alias
(`alias ssh='rewrite-args ssh -X'`). It loads an ordered list of pattern/replacement rules
from `~/.rewrite-args.conf`, rewrites every argument of its own argument vector with them,
looks up the command named by the (rewritten) first argument on `PATH`, and replaces itself
with that command through `exec`.

This project models the decision logic of `main.go`, with the operating system, the JSON
decoder and the regular-expression engine replaced by parameters:

- `wrappers.dfy` (`Wrappers`): `Option` and `Result`, for Go's nil pointers and error returns.
- `rules.dfy` (`Rules`): the `Replacement` record (pattern, compiled matcher, template) and the
  application of one rule to one argument through the oracle `replaceAll(matcher, input, template)`,
  which stands for `Regexp.ReplaceAllString`. The compiled matcher is a type parameter `M`.
- `tilde.dfy` (`Tilde`): `expandTilde`, with the home directory as a parameter, and the
  `strings.Replace(path, "~", home, -1)` it relies on.
- `config.dfy` (`Config`): `loadConfig`. The file is described by what the system calls report
  (`NotExist`, `OpenFails`, `ReadFails`, `Readable(bytes)`), `json.Unmarshal` is the oracle
  `parse`, and `regexp.Compile` is the oracle `compile(pattern): Option<M>`. The compile loop is
  a method that fills the `compiled` field of an array of rules in place and stops at the first
  bad pattern; `CompileAll` is its specification.
- `rewrite.dfy` (`Rewrite`): the nested rewrite loop of `main`, a method over an `array<string>`
  proved against `RewriteAll`/`RewriteArg`.
- `lookpath.dfy` (`Lookup`): `findExecutable` and the self-excluding `LookPath`. The file system is
  a map from path to `os.FileMode` (a `bv32`; `ModeDir` is the top bit, the execute mask is octal
  0111), `PATH` is given already split, and `filepath.Join` is a parameter.
- `program.dfy` (`Program`): the dispatch after rewriting (usage, command not found, exec), the
  whole of `main` as the function `Run`, and the method `RewriteAndExec` that runs the imperative
  pieces in the order `main` does and is proved equal to `Run`.

Behaviour of the code that the model follows, in places where the program's intent may be
read differently (that rules compose, that usage comes before any configuration is needed,
that the configuration file is closed after reading):

- Rules do not chain. Each rule is applied to the ORIGINAL argument and the argument is
  overwritten only when that rule's output differs from it, so the last rule (in list order)
  that changes the argument decides its value. With rules `a`→`b` then `b`→`c`, the argument
  `a` becomes `b`, not `c` (`Rewrite.NoChaining`).
- `args[0]`, the program's own name, is rewritten like every other argument.
- The `Usage` outcome (usage text and the vector on standard output, exit 1) happens only
  after the configuration has loaded: with a configuration error, even a bare invocation ends
  with that error. A missing configuration's message does carry the usage text itself (on
  standard error); the model drops that text together with all other printing.
- `main` calls the library `exec.LookPath`, not the self-excluding `LookPath` of the same file;
  `Program.Dispatch` therefore takes the library search as a parameter, and `Lookup.LookPath`
  is modelled on its own.
- The configuration file is opened but never closed (the process exits or execs right after).
- An empty argument vector is not rejected: `args[1]` is then out of range and Go panics
  (`IndexPanic`).

## Model

| member | source | states |
|---|---|---|
| `Rules.Apply` | main.go:69 | one rule applied to one argument: the engine's global replacement with the rule's compiled matcher and template |
| `Rewrite.RewriteArg` | main.go:68-73 | an argument ends as itself or as the output of some rule applied to the ORIGINAL argument (never of a rule applied to another rule's output) |
| `Rewrite.RewriteAll` | main.go:65-74 | rewriting never changes the length of the argument vector |
| `Rewrite.RewriteArgs` | main.go:65-74 | the in-place nested loop leaves exactly the vector `RewriteAll` describes: every position, `args[0]` included, rewritten from its own original value |
| `Rewrite.UnchangedIffNoRuleChanges` | main.go:68-73 | an argument is left byte for byte unchanged if and only if no rule's output differs from it |
| `Rewrite.LastChangingRuleWins` | main.go:68-73 | when rule k changes the argument and no later rule does, the result is rule k's output on the original argument |
| `Rewrite.ChangedByLastChangingRule` | main.go:68-73 | a changed argument is the output of some rule on the original argument, and no later rule changes the original |
| `Rewrite.NoChaining` | main.go:69-71 | rules apply to the original argument, not to each other's output: `a`→`b`, `b`→`c` turn `a` into `b`, not `c` |
| `Rewrite.PositionwiseRewrite` | main.go:66-71 | each rewritten position depends only on the original argument at that position |
| `Rewrite.UnmatchedVectorUnchanged` | main.go:65-74 | a vector that no rule changes comes back identical |
| `Config.FirstInvalid` | main.go:125-130 | the index where the compile loop stops: every earlier pattern compiles, the pattern there does not |
| `Config.FirstInvalidIs` | main.go:125-130 | the first failing pattern is unique: any index with all earlier patterns compiling and its own failing is that index |
| `Config.CompileAll` | main.go:125-131 | compilation succeeds iff every pattern compiles; then each rule keeps pattern and template and gets the matcher of its own pattern; otherwise the error names the first failing pattern in list order |
| `Config.CompileRules` | main.go:125-130 | the in-place loop fills `compiled` for every rule, or stops at the first bad pattern having overwritten only the rules up to it, and returns that pattern |
| `Config.LoadSpec` | main.go:102-132 | a configuration is returned only with every rule compiled |
| `Config.LoadConfig` | main.go:102-132 | the imperative load (array of rules, in-place compile loop) gives exactly `LoadSpec`: missing, unopenable, unreadable and malformed files and bad patterns each give their own error |
| `Config.LoadedRulesMatchFile` | main.go:119-131 | on success the rules are those of the file, in file order, with patterns and templates untouched and each matcher compiled from its own pattern; the debug flag is the file's |
| `Config.BadPatternFailsLoad` | main.go:125-129 | one bad pattern fails the whole load with the first bad pattern named, however many rules are valid |
| `Config.MissingFileNamesPath` | main.go:103-106 | a missing file is reported with the expanded path `<home>/.rewrite-args.conf` |
| `Tilde.HomeOrTilde` | main.go:153-156 | an empty home falls back to `"~"`; a set home is used as is |
| `Tilde.ExpandTilde` | main.go:134-137 | a path that does not start with `~` is returned unchanged |
| `Tilde.ReplaceEvery` | main.go:158 | every occurrence is replaced: no `~` is left when the replacement holds none |
| `Tilde.ReplaceEveryConcat` | main.go:158 | replacing every `~` distributes over concatenation |
| `Tilde.ReplaceEveryIdentity` | main.go:158 | a string without `~`, or with `~` replaced by `~`, is unchanged |
| `Tilde.ReplaceEveryLength` | main.go:158 | the result grows by the replacement's length minus one per occurrence |
| `Tilde.EmptyHomeKeepsPath` | main.go:153-158 | with an empty home the path is returned unchanged |
| `Tilde.ExpandsEveryTilde` | main.go:135-158 | with a home that is set and holds no `~`, a path starting with `~` starts with the home and keeps no `~` at all |
| `Tilde.DefaultConfigPath` | main.go:103 | the configuration file is `<home>/.rewrite-args.conf` (or `~/.rewrite-args.conf` with no home) |
| `Lookup.FindExecutable` | main.go:161-170 | success iff the path exists, is not a directory and has an execute bit; a missing path is a stat error, anything else a permission error |
| `Lookup.ExecutableIffSomeExecuteBit` | main.go:166 | the octal 0111 mask means: owner, group or others may execute |
| `Lookup.ExistingButNotRunnable` | main.go:166-169 | a directory, whatever its bits, or a file without execute bits gives a permission error |
| `Lookup.Candidate` | main.go:188-192 | a non-empty `PATH` entry is joined with the name as is; an empty one stands for `.` |
| `Lookup.LookPath` | main.go:177-200 | a name with `/` is checked alone and returned unchanged if executable, ignoring `ignore` and `PATH`; a bare name yields the first executable candidate in `PATH` order that is not `ignore`, never `ignore` itself, and not-found iff there is no such candidate |
| `Program.Dispatch` | main.go:76-95 | usage iff the vector has one element; not-found iff the search for `args[1]` fails, naming it; exec iff it succeeds, with the found path and exactly `args[1:]` |
| `Program.Run` | main.go:56-95 | the run ends in a configuration error iff loading fails, panics iff the configuration loads and the vector is empty, and an exec gets one argument fewer than the vector |
| `Program.RewriteAndExec` | main.go:56-100 | the imperative flow (load, rewrite in place, dispatch) ends exactly as `Run` says |
| `Program.ConfigFailureEndsRun` | main.go:58-62 | a configuration error ends the run before usage, search or exec |
| `Program.UsageIffOneArgument` | main.go:65-81 | usage iff the configuration loads and there is one argument, shown after rewriting |
| `Program.ExecGetsRewrittenTail` | main.go:65-95 | exec receives the rewritten vector without its first element, each argument rewritten on its own, and the path found for the rewritten command name |
| `Program.NotFoundNamesRewrittenCommand` | main.go:84-87 | a failed search reports the rewritten command name |
| `Program.UsageExample` | main.go:23-42 | the usage text's example: through the alias `ssh='rewrite-args ssh -X'`, `ssh worker-n01.use1` with rule `.use1` execs `/usr/bin/ssh` with `ssh -X worker-n01.prod.us-east-1.postgun.com`, the flag passing through in place |

## Left out

- The regular-expression engine: `regexp.Compile` and `ReplaceAllString` are the parameters
  `compile` and `replaceAll`; matching, back-references and global replacement are theirs.
- JSON decoding (`json.Unmarshal`, including its case-insensitive field names) is the parameter
  `parse`; its error text is carried as a string.
- File I/O: `os.Stat`, `os.Open` and `ioutil.ReadAll` are reduced to the four states of
  `ConfigFile`; a stat error other than "does not exist" is assumed to show up at open.
- The home directory lookup (`findHome`: `HOME`, or `HomeDrive`/`HomePath`/`UserProfile` on
  Windows, chosen by `runtime.GOOS`) depends on the environment; `home` is a parameter.
- `filepath.Join` (with its path cleaning) is a parameter, and `PATH` is given already split by
  `filepath.SplitList`.
- `os.Stat` follows symbolic links; the file-system map already holds the modes of the targets.
- `exec.LookPath` from the Go library, which `main` calls, is a parameter of `Program.Dispatch`.
- `syscall.Exec` and its failure path (message and exit 1) are operating-system primitives; the
  model stops at the `Exec(path, argv)` outcome, and the environment passed through is not modelled.
- All printing: the usage text (including the copy inside the missing-configuration message),
  the printed vector, the debug line before exec and the error messages with their
  `[rewrite-args] ` prefix; each error keeps the path, pattern or reason the model has for it.
- `Config.RuleInvalid` keeps the failing pattern but not the compiler's error text that the
  message also shows, because the `compile` parameter returns an `Option`.
- Go strings are byte strings; they are modelled as `seq<char>`, so arguments that are not valid
  UTF-8 cannot be represented. Equality and the tests for `~` and `/` are unaffected.
- A rule with no compiled matcher would make `ReplaceAllString` panic; the rewriter requires
  compiled rules, which a successful `loadConfig` always provides (`Config.LoadSpec`).
