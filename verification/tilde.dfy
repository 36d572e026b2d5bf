/** Expansion of a leading `~` in a path to the user's home directory (`expandTilde`). */
module Tilde {

  /** The configuration file the program reads, before expansion. */
  const DefaultConfigFile: string := "~/.rewrite-args.conf"

  /** `strings.Replace(s, string(c), t, -1)`: every occurrence of `c`, scanned left to right,
      is replaced by `t`; the inserted text is not scanned again. */
  function ReplaceEvery(s: string, c: char, t: string): (r: string)
    ensures c !in t ==> c !in r
  {
    if s == [] then []
    else (if s[0] == c then t else [s[0]]) + ReplaceEvery(s[1..], c, t)
  }

  /** Number of occurrences of `c` in `s`. */
  function Occurrences(s: string, c: char): nat
  {
    if s == [] then 0 else (if s[0] == c then 1 else 0) + Occurrences(s[1..], c)
  }

  /** The home directory the program substitutes: an empty home falls back to `~` itself. */
  function HomeOrTilde(home: string): (h: string)
    ensures h != []
    ensures home == [] ==> h == "~"
    ensures home != [] ==> h == home
  {
    if home == [] then "~" else home
  }

  /** `expandTilde(path)`, with the home directory given as a parameter. */
  function ExpandTilde(path: string, home: string): (r: string)
    ensures (path == [] || path[0] != '~') ==> r == path
  {
    if path == [] || path[0] != '~' then path
    else ReplaceEvery(path, '~', HomeOrTilde(home))
  }

  /** Replacing distributes over concatenation. */
  lemma {:induction false} ReplaceEveryConcat(a: string, b: string, c: char, t: string)
    ensures ReplaceEvery(a + b, c, t) == ReplaceEvery(a, c, t) + ReplaceEvery(b, c, t)
  {
    if a == [] {
      assert a + b == b;
    } else {
      assert (a + b)[1..] == a[1..] + b;
      ReplaceEveryConcat(a[1..], b, c, t);
    }
  }

  /** A string without `c`, or one where `c` is replaced by itself, is returned unchanged. */
  lemma {:induction false} ReplaceEveryIdentity(s: string, c: char, t: string)
    requires c !in s || t == [c]
    ensures ReplaceEvery(s, c, t) == s
  {
    if s != [] {
      assert s[0] != c || t == [c];
      assert c !in s ==> c !in s[1..];
      ReplaceEveryIdentity(s[1..], c, t);
    }
  }

  /** Each occurrence of `c` grows the string by `|t| - 1`; other characters are kept one for one. */
  lemma {:induction false} ReplaceEveryLength(s: string, c: char, t: string)
    ensures |ReplaceEvery(s, c, t)| == |s| + Occurrences(s, c) * (|t| - 1)
  {
    if s != [] {
      ReplaceEveryLength(s[1..], c, t);
      assert ReplaceEvery(s, c, t) == (if s[0] == c then t else [s[0]]) + ReplaceEvery(s[1..], c, t);
    }
  }

  /** With an empty home the path comes back unchanged, because `~` is replaced by `~`. */
  lemma EmptyHomeKeepsPath(path: string)
    ensures ExpandTilde(path, "") == path
  {
    if path != [] && path[0] == '~' {
      ReplaceEveryIdentity(path, '~', "~");
    }
  }

  /** With a home that is set and holds no `~`, a path starting with `~` starts with the home
      and has no `~` left: every `~`, not only the first, is expanded. */
  lemma ExpandsEveryTilde(path: string, home: string)
    requires path != [] && path[0] == '~'
    requires home != [] && '~' !in home
    ensures ExpandTilde(path, home)[..|home|] == home
    ensures '~' !in ExpandTilde(path, home)
  {
    assert path == [path[0]] + path[1..];
    ReplaceEveryConcat([path[0]], path[1..], '~', home);
    assert ReplaceEvery([path[0]], '~', home) == home;
  }

  /** The configuration file is `<home>/.rewrite-args.conf`, or itself when home is unset. */
  lemma DefaultConfigPath(home: string)
    ensures ExpandTilde(DefaultConfigFile, home) == HomeOrTilde(home) + "/.rewrite-args.conf"
  {
    var rest := "/.rewrite-args.conf";
    assert DefaultConfigFile == "~" + rest;
    ReplaceEveryConcat("~", rest, '~', HomeOrTilde(home));
    ReplaceEveryIdentity(rest, '~', HomeOrTilde(home));
    assert ReplaceEvery("~", '~', HomeOrTilde(home)) == HomeOrTilde(home);
  }
}
