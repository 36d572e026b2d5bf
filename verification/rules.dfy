/** One rewrite rule (`Replacement`) and its application to a single argument. */
module Rules {
  import opened Wrappers

  /** A rule as loaded from the configuration: the pattern text, the matcher compiled from it
      (`None` until compilation, as Go's nil `*regexp.Regexp`), and the replacement template.
      `M` stands for the regular-expression engine's compiled matcher, which is not modelled. */
  datatype Replacement<M> = Replacement(pattern: string, compiled: Option<M>, replacement: string)

  /** Every rule has a compiled matcher: what a successful configuration load leaves behind. */
  predicate AllCompiled<M>(rules: seq<Replacement<M>>)
  {
    forall k :: 0 <= k < |rules| ==> rules[k].compiled.Some?
  }

  /** `item.Compiled.ReplaceAllString(arg, item.Replace)`, with the engine's global
      replacement given as the oracle `replaceAll(matcher, input, template)`. */
  function Apply<M>(rule: Replacement<M>, arg: string, replaceAll: (M, string, string) -> string): string
    requires rule.compiled.Some?
  {
    replaceAll(rule.compiled.value, arg, rule.replacement)
  }
}
