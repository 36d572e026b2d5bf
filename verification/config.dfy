/** Loading the configuration (`loadConfig`): locating the file, reading and parsing it, and
    compiling every rule's pattern, all or nothing. */
module Config {
  import opened Wrappers
  import opened Rules
  import opened Tilde

  /** A rule as the JSON document gives it, before compilation. */
  datatype RawRule = RawRule(pattern: string, replacement: string)

  /** The parsed document: the rule list in file order and the debug flag. */
  datatype RawConfig = RawConfig(rewrites: seq<RawRule>, debug: bool)

  /** The loaded configuration (`Config`). */
  datatype Config<M> = Config(rewrites: seq<Replacement<M>>, debug: bool)

  /** What the operating system reports for the configuration file. */
  datatype ConfigFile =
    | NotExist                     // `os.Stat` says the file does not exist
    | OpenFails(reason: string)    // `os.Open` fails
    | ReadFails(reason: string)    // `ioutil.ReadAll` fails
    | Readable(contents: seq<bv8>) // the file's bytes

  /** The ways `loadConfig` fails, each with the text its message carries. */
  datatype ConfigError =
    | ConfigMissing(path: string)
    | OpenFailed(reason: string)
    | ReadFailed(path: string, reason: string)
    | Malformed(path: string, reason: string)
    | RuleInvalid(pattern: string)

  /** The rules as they stand right after unmarshalling: no matcher compiled yet.
      The ensures only spell out the comprehension position by position, for the verifier. */
  function Uncompiled<M>(raw: seq<RawRule>): (rules: seq<Replacement<M>>)
    ensures |rules| == |raw|
    ensures forall k :: 0 <= k < |raw| ==>
      rules[k] == Replacement(raw[k].pattern, None, raw[k].replacement)
  {
    seq(|raw|, k requires 0 <= k < |raw| => Replacement(raw[k].pattern, None, raw[k].replacement))
  }

  /** Index of the first rule whose pattern `compile` rejects, or `|rules|` when there is none. */
  function FirstInvalid<M>(rules: seq<Replacement<M>>, compile: string -> Option<M>): (k: nat)
    ensures k <= |rules|
    ensures forall j :: 0 <= j < k ==> compile(rules[j].pattern).Some?
    ensures k < |rules| ==> compile(rules[k].pattern).None?
  {
    if rules == [] then 0
    else if compile(rules[0].pattern).None? then 0
    else 1 + FirstInvalid(rules[1..], compile)
  }

  /** The rule with its matcher compiled from its own pattern; pattern and template untouched. */
  function WithMatcher<M>(rule: Replacement<M>, compile: string -> Option<M>): Replacement<M>
  {
    rule.(compiled := compile(rule.pattern))
  }

  /** The compile loop of `loadConfig` as a value: either every rule compiled from its own
      pattern, or the first pattern in list order that does not compile. */
  function CompileAll<M>(rules: seq<Replacement<M>>, compile: string -> Option<M>)
    : (r: Result<seq<Replacement<M>>, string>)
    ensures r.Success? <==> forall k :: 0 <= k < |rules| ==> compile(rules[k].pattern).Some?
    ensures r.Success? ==> |r.value| == |rules| && AllCompiled(r.value)
    ensures r.Success? ==> forall k :: 0 <= k < |rules| ==>
      r.value[k] == WithMatcher(rules[k], compile)
    ensures r.Failure? ==> exists k :: 0 <= k < |rules| && r.error == rules[k].pattern
                                   && compile(rules[k].pattern).None?
                                   && forall j :: 0 <= j < k ==> compile(rules[j].pattern).Some?
  {
    var k := FirstInvalid(rules, compile);
    if k < |rules| then Failure(rules[k].pattern)
    else Success(seq(|rules|, i requires 0 <= i < |rules| => WithMatcher(rules[i], compile)))
  }

  /** The loop of `loadConfig` that fills `Compiled` for each rule in place and stops at the
      first pattern that does not compile. On failure the rules up to and including the bad
      one have been overwritten (the bad one with no matcher) and the rest are untouched. */
  method CompileRules<M>(rules: array<Replacement<M>>, compile: string -> Option<M>)
    returns (err: Option<string>)
    modifies rules
    ensures err.None? <==> CompileAll(old(rules[..]), compile).Success?
    ensures err.None? ==> rules[..] == CompileAll(old(rules[..]), compile).value
    ensures err.Some? ==> err.value == CompileAll(old(rules[..]), compile).error
    ensures err.Some? ==> forall k :: 0 <= k < rules.Length ==>
      rules[k] == if k <= FirstInvalid(old(rules[..]), compile) then WithMatcher(old(rules[k]), compile)
                  else old(rules[k])
  {
    ghost var original := rules[..];
    var i := 0;
    while i < rules.Length
      invariant 0 <= i <= rules.Length
      invariant forall k :: 0 <= k < i ==> compile(original[k].pattern).Some?
      invariant forall k :: 0 <= k < i ==> rules[k] == WithMatcher(original[k], compile)
      invariant forall k :: i <= k < rules.Length ==> rules[k] == original[k]
    {
      var compiled := compile(rules[i].pattern);
      rules[i] := rules[i].(compiled := compiled);
      if compiled.None? {
        assert FirstInvalid(original, compile) == i by { FirstInvalidIs(original, compile, i); }
        return Some(rules[i].pattern);
      }
      i := i + 1;
    }
    assert rules[..] == CompileAll(original, compile).value;
    return None;
  }

  /** `FirstInvalid` is pinned down by its two properties. */
  lemma {:induction false} FirstInvalidIs<M>(rules: seq<Replacement<M>>, compile: string -> Option<M>, i: nat)
    requires i < |rules| && compile(rules[i].pattern).None?
    requires forall j :: 0 <= j < i ==> compile(rules[j].pattern).Some?
    ensures FirstInvalid(rules, compile) == i
  {
    if i > 0 {
      assert compile(rules[0].pattern).Some?;
      FirstInvalidIs(rules[1..], compile, i - 1);
    }
  }

  /** `loadConfig` as a value, with the file system, the JSON decoder and the regular-expression
      compiler as parameters. */
  function LoadSpec<M>(home: string, file: ConfigFile, parse: seq<bv8> -> Result<RawConfig, string>,
                       compile: string -> Option<M>): (r: Result<Config<M>, ConfigError>)
    ensures r.Success? ==> AllCompiled(r.value.rewrites)
  {
    var path := ExpandTilde(DefaultConfigFile, home);
    match file
    case NotExist => Failure(ConfigMissing(path))
    case OpenFails(reason) => Failure(OpenFailed(reason))
    case ReadFails(reason) => Failure(ReadFailed(path, reason))
    case Readable(contents) =>
      match parse(contents)
      case Failure(reason) => Failure(Malformed(path, reason))
      case Success(raw) =>
        match CompileAll(Uncompiled<M>(raw.rewrites), compile)
        case Failure(pattern) => Failure(RuleInvalid(pattern))
        case Success(rules) => Success(Config(rules, raw.debug))
  }

  /** `loadConfig`: the parsed rules are copied into an array that the compile loop updates in
      place; the configuration is returned only when every pattern compiled. */
  method LoadConfig<M>(home: string, file: ConfigFile, parse: seq<bv8> -> Result<RawConfig, string>,
                       compile: string -> Option<M>) returns (r: Result<Config<M>, ConfigError>)
    ensures r == LoadSpec(home, file, parse, compile)
  {
    var path := ExpandTilde(DefaultConfigFile, home);
    match file {
      case NotExist => return Failure(ConfigMissing(path));
      case OpenFails(reason) => return Failure(OpenFailed(reason));
      case ReadFails(reason) => return Failure(ReadFailed(path, reason));
      case Readable(contents) =>
        var parsed := parse(contents);
        if parsed.Failure? {
          return Failure(Malformed(path, parsed.error));
        }
        var raw := parsed.value;
        var rewrites := new Replacement<M>[|raw.rewrites|](k requires 0 <= k < |raw.rewrites| =>
          Replacement(raw.rewrites[k].pattern, None, raw.rewrites[k].replacement));
        assert rewrites[..] == Uncompiled<M>(raw.rewrites);
        var err := CompileRules(rewrites, compile);
        if err.Some? {
          return Failure(RuleInvalid(err.value));
        }
        return Success(Config(rewrites[..], raw.debug));
    }
  }

  /** All or nothing: a configuration is returned only if every pattern compiled, and then each
      rule keeps the pattern and template of the file, in file order, with the matcher compiled
      from its own pattern. */
  lemma LoadedRulesMatchFile<M>(home: string, file: ConfigFile, parse: seq<bv8> -> Result<RawConfig, string>,
                                compile: string -> Option<M>)
    requires LoadSpec(home, file, parse, compile).Success?
    ensures file.Readable? && parse(file.contents).Success?
    ensures var raw := parse(file.contents).value;
      var conf := LoadSpec(home, file, parse, compile).value;
      && |conf.rewrites| == |raw.rewrites| && conf.debug == raw.debug
      && forall k :: 0 <= k < |raw.rewrites| ==>
        && conf.rewrites[k].pattern == raw.rewrites[k].pattern
        && conf.rewrites[k].replacement == raw.rewrites[k].replacement
        && conf.rewrites[k].compiled == compile(raw.rewrites[k].pattern)
        && compile(raw.rewrites[k].pattern).Some?
  {
    var raw := parse(file.contents).value;
    var rules := Uncompiled<M>(raw.rewrites);
    assert CompileAll(rules, compile).Success?;
    var conf := LoadSpec(home, file, parse, compile).value;
    forall k | 0 <= k < |raw.rewrites|
      ensures conf.rewrites[k].pattern == raw.rewrites[k].pattern
      ensures conf.rewrites[k].replacement == raw.rewrites[k].replacement
      ensures conf.rewrites[k].compiled == compile(raw.rewrites[k].pattern)
      ensures compile(raw.rewrites[k].pattern).Some?
    {
      assert rules[k].pattern == raw.rewrites[k].pattern;
    }
  }

  /** A single bad pattern fails the whole load, naming the first bad pattern in file order,
      however many other rules are valid. */
  lemma BadPatternFailsLoad<M>(home: string, contents: seq<bv8>, parse: seq<bv8> -> Result<RawConfig, string>,
                               compile: string -> Option<M>, k: nat)
    requires parse(contents).Success?
    requires k < |parse(contents).value.rewrites|
    requires compile(parse(contents).value.rewrites[k].pattern).None?
    requires forall j :: 0 <= j < k ==> compile(parse(contents).value.rewrites[j].pattern).Some?
    ensures LoadSpec(home, Readable(contents), parse, compile)
         == Failure(RuleInvalid(parse(contents).value.rewrites[k].pattern))
  {
    var raw := parse(contents).value;
    var rules := Uncompiled<M>(raw.rewrites);
    FirstInvalidIs(rules, compile, k);
  }

  /** A missing file is reported with the expanded path `<home>/.rewrite-args.conf`. */
  lemma MissingFileNamesPath<M>(home: string, parse: seq<bv8> -> Result<RawConfig, string>,
                                compile: string -> Option<M>)
    ensures LoadSpec(home, NotExist, parse, compile)
         == Failure(ConfigMissing(HomeOrTilde(home) + "/.rewrite-args.conf"))
  {
    DefaultConfigPath(home);
  }
}
