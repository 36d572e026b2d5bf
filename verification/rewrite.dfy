/** The argument rewriter of `main`: every argument, `args[0]` included, is rewritten
    independently. Each rule is applied to the ORIGINAL argument, and the argument is
    overwritten only when that rule's output differs from it, so rules do not chain: the last
    rule in list order that changes the argument decides its final value. */
module Rewrite {
  import opened Rules

  /** The final value of one argument: the output of the last rule that changes `arg`, or
      `arg` itself when no rule changes it. */
  function RewriteArg<M>(arg: string, rules: seq<Replacement<M>>, replaceAll: (M, string, string) -> string)
    : (r: string)
    requires AllCompiled(rules)
    ensures r == arg || exists k :: 0 <= k < |rules| && r == Apply(rules[k], arg, replaceAll)
    decreases |rules|
  {
    if rules == [] then arg
    else
      var out := Apply(rules[|rules| - 1], arg, replaceAll);
      if out != arg then out else RewriteArg(arg, rules[..|rules| - 1], replaceAll)
  }

  /** The rewritten argument vector: one rewritten argument per position. */
  function RewriteAll<M>(args: seq<string>, rules: seq<Replacement<M>>, replaceAll: (M, string, string) -> string)
    : (r: seq<string>)
    requires AllCompiled(rules)
    ensures |r| == |args|
  {
    seq(|args|, i requires 0 <= i < |args| => RewriteArg(args[i], rules, replaceAll))
  }

  /** The nested loop of `main` that overwrites `args[i]` in place. */
  method RewriteArgs<M>(args: array<string>, rules: seq<Replacement<M>>, replaceAll: (M, string, string) -> string)
    requires AllCompiled(rules)
    modifies args
    ensures args[..] == RewriteAll(old(args[..]), rules, replaceAll)
  {
    ghost var original := args[..];
    for i := 0 to args.Length
      invariant forall k :: 0 <= k < i ==> args[k] == RewriteArg(original[k], rules, replaceAll)
      invariant forall k :: i <= k < args.Length ==> args[k] == original[k]
    {
      var arg := args[i];
      ghost var before := args[..];
      for j := 0 to |rules|
        invariant args[i] == RewriteArg(arg, rules[..j], replaceAll)
        invariant forall k :: 0 <= k < args.Length && k != i ==> args[k] == before[k]
      {
        assert rules[..j + 1][..j] == rules[..j];
        var replaced := Apply(rules[j], arg, replaceAll);
        if replaced != arg {
          args[i] := replaced;
        }
      }
      assert rules[..|rules|] == rules;
    }
  }

  /** An argument comes back unchanged exactly when no rule changes it. */
  lemma {:induction false} UnchangedIffNoRuleChanges<M>(arg: string, rules: seq<Replacement<M>>,
                                                         replaceAll: (M, string, string) -> string)
    requires AllCompiled(rules)
    ensures RewriteArg(arg, rules, replaceAll) == arg
        <==> forall k :: 0 <= k < |rules| ==> Apply(rules[k], arg, replaceAll) == arg
  {
    if rules != [] {
      var init := rules[..|rules| - 1];
      UnchangedIffNoRuleChanges(arg, init, replaceAll);
      assert forall k :: 0 <= k < |init| ==> init[k] == rules[k];
    }
  }

  /** Last writer wins: when rule `k` changes the argument and no later rule does, the
      argument ends as rule `k`'s output, whatever the earlier rules produce. */
  lemma {:induction false} LastChangingRuleWins<M>(arg: string, rules: seq<Replacement<M>>,
                                                    replaceAll: (M, string, string) -> string, k: nat)
    requires AllCompiled(rules)
    requires k < |rules| && Apply(rules[k], arg, replaceAll) != arg
    requires forall j :: k < j < |rules| ==> Apply(rules[j], arg, replaceAll) == arg
    ensures RewriteArg(arg, rules, replaceAll) == Apply(rules[k], arg, replaceAll)
  {
    if k < |rules| - 1 {
      var init := rules[..|rules| - 1];
      assert forall j :: 0 <= j < |init| ==> init[j] == rules[j];
      LastChangingRuleWins(arg, init, replaceAll, k);
    }
  }

  /** Conversely, a changed argument is the output of some rule applied to the original
      argument, and no later rule changes the original. */
  lemma {:induction false} ChangedByLastChangingRule<M>(arg: string, rules: seq<Replacement<M>>,
                                                         replaceAll: (M, string, string) -> string)
    requires AllCompiled(rules)
    requires RewriteArg(arg, rules, replaceAll) != arg
    ensures exists k :: 0 <= k < |rules|
                        && RewriteArg(arg, rules, replaceAll) == Apply(rules[k], arg, replaceAll)
                        && forall j :: k < j < |rules| ==> Apply(rules[j], arg, replaceAll) == arg
  {
    var last := |rules| - 1;
    var init := rules[..last];
    var k;
    if Apply(rules[last], arg, replaceAll) == arg {
      assert RewriteArg(arg, rules, replaceAll) == RewriteArg(arg, init, replaceAll);
      ChangedByLastChangingRule(arg, init, replaceAll);
      k :| 0 <= k < |init| && RewriteArg(arg, init, replaceAll) == Apply(init[k], arg, replaceAll)
           && forall j :: k < j < |init| ==> Apply(init[j], arg, replaceAll) == arg;
      forall j | k < j < |rules|
        ensures Apply(rules[j], arg, replaceAll) == arg
      {
        if j < last {
          assert init[j] == rules[j];
        }
      }
      assert init[k] == rules[k];
    } else {
      k := last;
    }
    assert RewriteArg(arg, rules, replaceAll) == Apply(rules[k], arg, replaceAll);
  }

  /** Rules do not chain: with `first` turning `a` into `b` and `second` turning `b` into `c`
      but leaving `a` alone, the argument `a` becomes `b`, not `c`. */
  lemma NoChaining<M>(first: Replacement<M>, second: Replacement<M>, replaceAll: (M, string, string) -> string)
    requires first.compiled.Some? && second.compiled.Some?
    requires Apply(first, "a", replaceAll) == "b"
    requires Apply(second, "b", replaceAll) == "c"
    requires Apply(second, "a", replaceAll) == "a"
    ensures RewriteArg("a", [first, second], replaceAll) == "b"
    ensures RewriteArg("a", [first, second], replaceAll) != Apply(second, Apply(first, "a", replaceAll), replaceAll)
  {
    assert [first, second][..1] == [first];
  }

  /** Each position of the rewritten vector depends only on the original argument at that
      position: the rewrite never moves, drops or merges arguments. */
  lemma PositionwiseRewrite<M>(args: seq<string>, other: seq<string>, rules: seq<Replacement<M>>,
                               replaceAll: (M, string, string) -> string, i: nat)
    requires AllCompiled(rules)
    requires i < |args| && i < |other| && args[i] == other[i]
    ensures RewriteAll(args, rules, replaceAll)[i] == RewriteAll(other, rules, replaceAll)[i]
  {
  }

  /** A vector that no rule changes anywhere is left exactly as it was. */
  lemma UnmatchedVectorUnchanged<M>(args: seq<string>, rules: seq<Replacement<M>>,
                                    replaceAll: (M, string, string) -> string)
    requires AllCompiled(rules)
    requires forall i, k :: 0 <= i < |args| && 0 <= k < |rules| ==> Apply(rules[k], args[i], replaceAll) == args[i]
    ensures RewriteAll(args, rules, replaceAll) == args
  {
    forall i | 0 <= i < |args|
      ensures RewriteAll(args, rules, replaceAll)[i] == args[i]
    {
      UnchangedIffNoRuleChanges(args[i], rules, replaceAll);
    }
  }
}
