/** Path templates such as `/orgs/{slug}/forms`: how the generator finds their
    `{name}` parameters (the expression /\{[^}]+\}/ used at two places of
    scripts/generate-http.js) and when a template matches the start of a
    concrete path (the regular expression findDirForPath builds from it). */
module PathTemplate {
  import opened Wrappers
  import opened Text

  /** A template read left to right: literal characters and parameters. */
  datatype Token = Lit(c: char) | Param(name: string)

  /** A parameter name: at least one character and no closing brace. */
  predicate IsName(n: string) {
    n != [] && '}' !in n
  }

  /** The name of a parameter that starts exactly at the beginning of `s`:
      an opening brace, then everything up to the first closing brace, which
      must not come right away. */
  function ParamAt(s: string): (r: Option<string>)
    ensures r.Some? ==> IsName(r.value) && StartsWith(s, "{" + r.value + "}")
  {
    if s == [] || s[0] != '{' then None
    else
      match FindChar(s[1..], '}')
      case None => None
      case Some(q) =>
        if q == 0 then None
        else
          var n := s[1..1 + q];
          assert n == s[1..][..q];
          assert s[..|n| + 2] == "{" + n + "}";
          Some(n)
  }

  /** A parameter at the start of the text is always recognised. */
  lemma ParamAtComplete(n: string, rest: string)
    requires IsName(n)
    ensures ParamAt("{" + n + "}" + rest) == Some(n)
  {
    var s := "{" + n + "}" + rest;
    var t := s[1..];
    assert t == n + "}" + rest;
    assert t[..|n|] == n;
    FindCharFirst(t, '}', |n|);
    assert s[1..1 + |n|] == n;
  }

  /** The tokens of a template, recognising parameters leftmost first and
      resuming after each one, as a global regular-expression scan does. */
  function Tokens(s: string): (toks: seq<Token>)
    ensures forall i :: 0 <= i < |toks| && toks[i].Param? ==> IsName(toks[i].name)
    decreases |s|
  {
    if s == [] then []
    else
      match ParamAt(s)
      case Some(n) => [Param(n)] + Tokens(s[|n| + 2..])
      case None => [Lit(s[0])] + Tokens(s[1..])
  }

  /** The text a token sequence stands for. */
  function Spell(toks: seq<Token>): string {
    if toks == [] then []
    else
      match toks[0]
      case Lit(c) => [c] + Spell(toks[1..])
      case Param(n) => "{" + n + "}" + Spell(toks[1..])
  }

  /** Tokenising loses nothing: spelling the tokens gives the template back. */
  lemma {:induction false} SpellTokens(s: string)
    ensures Spell(Tokens(s)) == s
    decreases |s|
  {
    if s != [] {
      match ParamAt(s)
      case Some(n) =>
        SpellTokens(s[|n| + 2..]);
        assert s == s[..|n| + 2] + s[|n| + 2..];
      case None =>
        SpellTokens(s[1..]);
        assert s == [s[0]] + s[1..];
    }
  }

  /** The parameter names of a token sequence, in order, repeats kept. */
  function ParamNames(toks: seq<Token>): (names: seq<string>)
    ensures |names| == ParamCount(toks)
  {
    if toks == [] then []
    else
      match toks[0]
      case Lit(_) => ParamNames(toks[1..])
      case Param(n) => [n] + ParamNames(toks[1..])
  }

  /** A parameter at the start of the text comes first among its names. */
  lemma NamesAtParam(s: string, n: string)
    requires ParamAt(s) == Some(n)
    ensures ParamNames(Tokens(s)) == [n] + ParamNames(Tokens(s[|n| + 2..]))
  {
    var rest := Tokens(s[|n| + 2..]);
    assert Tokens(s) == [Param(n)] + rest;
    assert ([Param(n)] + rest)[1..] == rest;
  }

  /** Without a parameter at the start, the names are those of the rest. */
  lemma NamesAtLiteral(s: string)
    requires s != [] && ParamAt(s).None?
    ensures ParamNames(Tokens(s)) == ParamNames(Tokens(s[1..]))
  {
    var rest := Tokens(s[1..]);
    assert Tokens(s) == [Lit(s[0])] + rest;
    assert ([Lit(s[0])] + rest)[1..] == rest;
  }

  /** extractPathParams: the names of the `{name}` parameters of a URL. */
  method ExtractPathParams(url: string) returns (params: seq<string>)
    ensures params == ParamNames(Tokens(url))
    ensures forall i :: 0 <= i < |params| ==> IsName(params[i])
  {
    params := [];
    var i: nat := 0;
    assert url[i..] == url;
    while i < |url|
      invariant i <= |url| && params + ParamNames(Tokens(url[i..])) == ParamNames(Tokens(url))
    {
      var at := url[i..];
      match ParamAt(at)
      case Some(n) =>
        var next := i + |n| + 2;
        NamesAtParam(at, n);
        assert at[|n| + 2..] == url[next..];
        AppendRegrouped(params, [n], ParamNames(Tokens(url[next..])));
        params := params + [n];
        i := next;
      case None =>
        NamesAtLiteral(at);
        assert at[1..] == url[i + 1..];
        i := i + 1;
    }
    assert url[i..] == [];
    ParamNamesAreNames(Tokens(url));
  }

  lemma AppendRegrouped<T>(a: seq<T>, b: seq<T>, c: seq<T>)
    ensures a + (b + c) == (a + b) + c
  {
  }

  lemma {:induction false} ParamNamesAreNames(toks: seq<Token>)
    requires forall i :: 0 <= i < |toks| && toks[i].Param? ==> IsName(toks[i].name)
    ensures forall i :: 0 <= i < |ParamNames(toks)| ==> IsName(ParamNames(toks)[i])
  {
    if toks != [] {
      ParamNamesAreNames(toks[1..]);
    }
  }

  // ---------------------------------------------------------------------
  // Matching a template against the start of a path

  /** Whether the tokens match a prefix of `p`: each literal matches itself,
      each parameter one or more characters other than `/` (the regular
      expression `[^/]+`). Nothing is required after the match. */
  predicate Matches(toks: seq<Token>, p: string)
    decreases |toks|, 0
  {
    if toks == [] then true
    else
      match toks[0]
      case Lit(c) => p != [] && p[0] == c && Matches(toks[1..], p[1..])
      case Param(_) => ParamSplit(toks[1..], p, 1)
  }

  /** Whether some `k' >= k` lets a parameter take `p[..k']` and the rest of
      the tokens match after it; `p[..k - 1]` is known to be free of `/`. */
  predicate ParamSplit(rest: seq<Token>, p: string, k: nat)
    requires 1 <= k
    decreases |rest|, |p| + 1 - k
  {
    if k > |p| || p[k - 1] == '/' then false
    else Matches(rest, p[k..]) || ParamSplit(rest, p, k + 1)
  }

  /** findDirForPath's test of one route against a path. */
  predicate RouteMatches(route: string, path: string) {
    Matches(Tokens(route), path)
  }

  /** A value a parameter can take: one path segment, non-empty, without `/`. */
  predicate IsSegment(v: string) {
    v != [] && '/' !in v
  }

  function ParamCount(toks: seq<Token>): nat {
    if toks == [] then 0 else (if toks[0].Param? then 1 else 0) + ParamCount(toks[1..])
  }

  /** The path obtained by giving each parameter, in order, a value. */
  function Fill(toks: seq<Token>, vals: seq<string>): string
    requires |vals| == ParamCount(toks)
  {
    if toks == [] then []
    else
      match toks[0]
      case Lit(c) => [c] + Fill(toks[1..], vals)
      case Param(_) => vals[0] + Fill(toks[1..], vals[1..])
  }

  predicate AllSegments(vals: seq<string>) {
    forall i :: 0 <= i < |vals| ==> IsSegment(vals[i])
  }

  /** Soundness of matching: a matched path starts with the template filled
      with one path segment per parameter. */
  lemma {:induction false} MatchesSound(toks: seq<Token>, p: string) returns (vals: seq<string>)
    requires Matches(toks, p)
    ensures |vals| == ParamCount(toks) && AllSegments(vals)
    ensures StartsWith(p, Fill(toks, vals))
    decreases |toks|, 0
  {
    if toks == [] {
      vals := [];
    } else {
      match toks[0]
      case Lit(c) =>
        vals := MatchesSound(toks[1..], p[1..]);
        assert p == [c] + p[1..];
      case Param(_) =>
        vals := ParamSplitSound(toks[1..], p, 1);
    }
  }

  lemma {:induction false} ParamSplitSound(rest: seq<Token>, p: string, k: nat) returns (vals: seq<string>)
    requires 1 <= k && ParamSplit(rest, p, k)
    requires '/' !in p[..k - 1]
    ensures |vals| == 1 + ParamCount(rest) && AllSegments(vals)
    ensures StartsWith(p, vals[0] + Fill(rest, vals[1..]))
    decreases |rest|, |p| + 1 - k
  {
    assert p[..k] == p[..k - 1] + [p[k - 1]];
    if Matches(rest, p[k..]) {
      var tail := MatchesSound(rest, p[k..]);
      vals := [p[..k]] + tail;
      assert vals[1..] == tail;
      assert p == p[..k] + p[k..];
    } else {
      vals := ParamSplitSound(rest, p, k + 1);
    }
  }

  /** Completeness of matching: a path starting with the template filled
      with path segments is matched. */
  lemma {:induction false} MatchesComplete(toks: seq<Token>, p: string, vals: seq<string>)
    requires |vals| == ParamCount(toks) && AllSegments(vals)
    requires StartsWith(p, Fill(toks, vals))
    ensures Matches(toks, p)
    decreases |toks|, 0, 0
  {
    if toks != [] {
      match toks[0]
      case Lit(c) =>
        var f := Fill(toks[1..], vals);
        assert Fill(toks, vals) == [c] + f;
        assert p[..1 + |f|] == [c] + f;
        assert p[1..][..|f|] == p[..1 + |f|][1..];
        MatchesComplete(toks[1..], p[1..], vals);
      case Param(_) =>
        ParamSplitComplete(toks[1..], p, 1, vals);
    }
  }

  lemma {:induction false} ParamSplitComplete(rest: seq<Token>, p: string, k: nat, vals: seq<string>)
    requires |vals| == 1 + ParamCount(rest) && AllSegments(vals)
    requires 1 <= k <= |vals[0]|
    requires StartsWith(p, vals[0] + Fill(rest, vals[1..]))
    ensures ParamSplit(rest, p, k)
    decreases |rest|, 1, |vals[0]| - k
  {
    assert p[..|vals[0]|] == vals[0];
    assert p[k - 1] == vals[0][k - 1];
    if k == |vals[0]| {
      assert AllSegments(vals[1..]);
      var f := Fill(rest, vals[1..]);
      assert p[..k + |f|] == vals[0] + f;
      assert p[k..][..|f|] == p[..k + |f|][k..];
      MatchesComplete(rest, p[k..], vals[1..]);
    } else {
      ParamSplitComplete(rest, p, k + 1, vals);
    }
  }

  /** Filling a template that has no parameters gives its literal text. */
  lemma {:induction false} FillLiteral(toks: seq<Token>)
    requires ParamCount(toks) == 0
    ensures Fill(toks, []) == Spell(toks)
  {
    if toks != [] {
      FillLiteral(toks[1..]);
    }
  }

  /** A route without parameters matches exactly the paths that start with
      it, with no segment boundary required after it (`/orgs` matches
      `/orgsX`). */
  lemma LiteralRouteMatches(route: string, path: string)
    requires ParamCount(Tokens(route)) == 0
    ensures RouteMatches(route, path) <==> StartsWith(path, route)
  {
    FillLiteral(Tokens(route));
    SpellTokens(route);
    if RouteMatches(route, path) {
      var vals := MatchesSound(Tokens(route), path);
    } else if StartsWith(path, route) {
      MatchesComplete(Tokens(route), path, []);
    }
  }

  /** `path` starts with `route` with its parameters given the path
      segments `vals`, in order. */
  predicate FilledPrefix(route: string, path: string, vals: seq<string>) {
    |vals| == ParamCount(Tokens(route)) && AllSegments(vals) && StartsWith(path, Fill(Tokens(route), vals))
  }

  /** A route matches a path exactly when the path starts with the route
      with each parameter replaced by one path segment. */
  lemma RouteMatchesInstance(route: string, path: string)
    ensures RouteMatches(route, path) <==> exists vals :: FilledPrefix(route, path, vals)
  {
    if RouteMatches(route, path) {
      var vals := MatchesSound(Tokens(route), path);
      assert FilledPrefix(route, path, vals);
    }
    if exists vals :: FilledPrefix(route, path, vals) {
      var vals :| FilledPrefix(route, path, vals);
      MatchesComplete(Tokens(route), path, vals);
    }
  }
}
