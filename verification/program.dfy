/** The top-level flow of `main`: load the configuration, rewrite the whole argument vector,
    then show usage, report a missing command, or hand the rewritten arguments to `exec`. */
module Program {
  import opened Wrappers
  import opened Rules
  import opened Config
  import opened Rewrite

  /** How a run ends. `ConfigFailed`, `Usage` and `NotFound` exit with status 1; `IndexPanic`
      is a Go runtime panic, which exits with status 2; `Exec` replaces the process image, and a
      failing `syscall.Exec` is outside this model. */
  datatype Outcome =
    | ConfigFailed(error: ConfigError)   // `loadConfig` failed: message and exit 1
    | Usage(argv: seq<string>)           // only the program's own name: usage, the vector, exit 1
    | NotFound(name: string)             // `exec.LookPath(args[1])` failed: exit 1
    | Exec(path: string, argv: seq<string>) // `syscall.Exec(path, args[1:], environ)`
    | IndexPanic                         // an empty vector: `args[1]` is out of range

  /** The part of `main` after rewriting, given the rewritten vector and the library search
      `exec.LookPath` as a parameter (`None` for its error). */
  function Dispatch(args: seq<string>, lookPath: string -> Option<string>): (o: Outcome)
    ensures o.Usage? <==> |args| == 1
    ensures o.IndexPanic? <==> |args| == 0
    ensures o.NotFound? <==> |args| >= 2 && lookPath(args[1]).None?
    ensures o.NotFound? ==> o.name == args[1]
    ensures o.Exec? <==> |args| >= 2 && lookPath(args[1]).Some?
    ensures o.Exec? ==> o.path == lookPath(args[1]).value && o.argv == args[1..]
    ensures o.Usage? ==> o.argv == args
  {
    if |args| == 1 then Usage(args)
    else if |args| == 0 then IndexPanic
    else match lookPath(args[1])
      case None => NotFound(args[1])
      case Some(path) => Exec(path, args[1..])
  }

  /** The whole of `main` as a value, from the raw argument vector and the collaborators. */
  function Run<M>(rawArgs: seq<string>, home: string, file: ConfigFile,
                  parse: seq<bv8> -> Result<RawConfig, string>, compile: string -> Option<M>,
                  replaceAll: (M, string, string) -> string, lookPath: string -> Option<string>)
    : (o: Outcome)
    ensures o.ConfigFailed? <==> LoadSpec(home, file, parse, compile).Failure?
    ensures o.Exec? ==> |o.argv| == |rawArgs| - 1
    ensures o.IndexPanic? <==> LoadSpec(home, file, parse, compile).Success? && rawArgs == []
  {
    match LoadSpec(home, file, parse, compile)
    case Failure(e) => ConfigFailed(e)
    case Success(conf) => Dispatch(RewriteAll(rawArgs, conf.rewrites, replaceAll), lookPath)
  }

  /** `main`: the configuration is loaded, `os.Args` is rewritten in place by the nested loop,
      and the rewritten vector is dispatched. */
  method RewriteAndExec<M>(rawArgs: seq<string>, home: string, file: ConfigFile,
                  parse: seq<bv8> -> Result<RawConfig, string>, compile: string -> Option<M>,
                  replaceAll: (M, string, string) -> string, lookPath: string -> Option<string>)
    returns (o: Outcome)
    ensures o == Run(rawArgs, home, file, parse, compile, replaceAll, lookPath)
  {
    var loaded := LoadConfig(home, file, parse, compile);
    if loaded.Failure? {
      return ConfigFailed(loaded.error);
    }
    var conf := loaded.value;
    var args := new string[|rawArgs|](i requires 0 <= i < |rawArgs| => rawArgs[i]);
    assert args[..] == rawArgs;
    RewriteArgs(args, conf.rewrites, replaceAll);
    o := Dispatch(args[..], lookPath);
  }

  /** A configuration failure ends the run before anything else: no usage text, no search and
      no exec, even for a vector holding only the program's own name. */
  lemma ConfigFailureEndsRun<M>(rawArgs: seq<string>, home: string, file: ConfigFile,
                                parse: seq<bv8> -> Result<RawConfig, string>, compile: string -> Option<M>,
                                replaceAll: (M, string, string) -> string, lookPath: string -> Option<string>)
    requires LoadSpec(home, file, parse, compile).Failure?
    ensures Run(rawArgs, home, file, parse, compile, replaceAll, lookPath)
         == ConfigFailed(LoadSpec(home, file, parse, compile).error)
  {
  }

  /** Usage is shown exactly when the configuration loads and the vector holds one argument;
      that argument, the program's own name, has been rewritten too. */
  lemma UsageIffOneArgument<M>(rawArgs: seq<string>, home: string, file: ConfigFile,
                               parse: seq<bv8> -> Result<RawConfig, string>, compile: string -> Option<M>,
                               replaceAll: (M, string, string) -> string, lookPath: string -> Option<string>)
    ensures var o := Run(rawArgs, home, file, parse, compile, replaceAll, lookPath);
      o.Usage? <==> LoadSpec(home, file, parse, compile).Success? && |rawArgs| == 1
    ensures var o := Run(rawArgs, home, file, parse, compile, replaceAll, lookPath);
      o.Usage? ==> o.argv == [RewriteArg(rawArgs[0], LoadSpec(home, file, parse, compile).value.rewrites, replaceAll)]
  {
  }

  /** `exec` receives the rewritten vector without its first element: the command name and
      every later argument, each rewritten on its own, and the path the search gave for the
      rewritten command name. */
  lemma ExecGetsRewrittenTail<M>(rawArgs: seq<string>, home: string, file: ConfigFile,
                                 parse: seq<bv8> -> Result<RawConfig, string>, compile: string -> Option<M>,
                                 replaceAll: (M, string, string) -> string, lookPath: string -> Option<string>)
    requires Run(rawArgs, home, file, parse, compile, replaceAll, lookPath).Exec?
    ensures LoadSpec(home, file, parse, compile).Success? && |rawArgs| >= 2
    ensures var o := Run(rawArgs, home, file, parse, compile, replaceAll, lookPath);
      var rules := LoadSpec(home, file, parse, compile).value.rewrites;
      && |o.argv| == |rawArgs| - 1
      && (forall i :: 0 <= i < |o.argv| ==> o.argv[i] == RewriteArg(rawArgs[i + 1], rules, replaceAll))
      && lookPath(RewriteArg(rawArgs[1], rules, replaceAll)) == Some(o.path)
  {
  }

  /** A failed search reports the rewritten command name, not the one typed. */
  lemma NotFoundNamesRewrittenCommand<M>(rawArgs: seq<string>, home: string, file: ConfigFile,
                                         parse: seq<bv8> -> Result<RawConfig, string>, compile: string -> Option<M>,
                                         replaceAll: (M, string, string) -> string, lookPath: string -> Option<string>)
    requires Run(rawArgs, home, file, parse, compile, replaceAll, lookPath).NotFound?
    ensures LoadSpec(home, file, parse, compile).Success? && |rawArgs| >= 2
    ensures var rules := LoadSpec(home, file, parse, compile).value.rewrites;
      && Run(rawArgs, home, file, parse, compile, replaceAll, lookPath).name == RewriteArg(rawArgs[1], rules, replaceAll)
      && lookPath(RewriteArg(rawArgs[1], rules, replaceAll)).None?
  {
  }

  /** The example of the usage text: through the alias `ssh='rewrite-args ssh -X'` and with the
      single rule `.use1` -> `.prod.us-east-1.postgun.com`, `ssh worker-n01.use1` execs `ssh`
      with the flag `-X` kept in place and the expanded host name. */
  lemma UsageExample<M>(home: string, contents: seq<bv8>, parse: seq<bv8> -> Result<RawConfig, string>,
                        compile: string -> Option<M>, replaceAll: (M, string, string) -> string,
                        lookPath: string -> Option<string>, matcher: M)
    requires parse(contents) == Success(RawConfig([RawRule(".use1", ".prod.us-east-1.postgun.com")], false))
    requires compile(".use1") == Some(matcher)
    requires replaceAll(matcher, "rewrite-args", ".prod.us-east-1.postgun.com") == "rewrite-args"
    requires replaceAll(matcher, "ssh", ".prod.us-east-1.postgun.com") == "ssh"
    requires replaceAll(matcher, "-X", ".prod.us-east-1.postgun.com") == "-X"
    requires replaceAll(matcher, "worker-n01.use1", ".prod.us-east-1.postgun.com")
          == "worker-n01.prod.us-east-1.postgun.com"
    requires lookPath("ssh") == Some("/usr/bin/ssh")
    ensures Run(["rewrite-args", "ssh", "-X", "worker-n01.use1"], home, Readable(contents), parse, compile, replaceAll, lookPath)
         == Exec("/usr/bin/ssh", ["ssh", "-X", "worker-n01.prod.us-east-1.postgun.com"])
  {
    var raw := parse(contents).value;
    var rules := CompileAll(Uncompiled<M>(raw.rewrites), compile).value;
    assert rules == [Replacement(".use1", Some(matcher), ".prod.us-east-1.postgun.com")];
    assert rules[..0] == [];
    assert RewriteArg("rewrite-args", rules, replaceAll) == "rewrite-args";
    assert RewriteArg("ssh", rules, replaceAll) == "ssh";
    assert RewriteArg("-X", rules, replaceAll) == "-X";
    assert RewriteArg("worker-n01.use1", rules, replaceAll) == "worker-n01.prod.us-east-1.postgun.com";
    var rewritten := RewriteAll(["rewrite-args", "ssh", "-X", "worker-n01.use1"], rules, replaceAll);
    assert rewritten == ["rewrite-args", "ssh", "-X", "worker-n01.prod.us-east-1.postgun.com"];
  }
}
