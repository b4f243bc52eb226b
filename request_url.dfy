/** The URL of a request line: generateHttpRequest turns each `{name}` of the
    OpenAPI path into the REST Client variable `{{name}}`, one `replace` per
    extracted name, then drops a leading `/api`, which the base URL already
    carries. */
module RequestUrl {
  import opened Wrappers
  import opened Text
  import opened PathTemplate

  function Braced(n: string): string {
    "{" + n + "}"
  }

  function Variable(n: string): string {
    "{{" + n + "}}"
  }

  /** The replacement loop: for each name in turn, the leftmost `{name}` of
      the text as it stands is replaced by `{{name}}`. */
  function ReplaceParams(u: string, names: seq<string>): string
    decreases names
  {
    if names == [] then u
    else ReplaceParams(ReplaceFirst(u, Braced(names[0]), Variable(names[0])), names[1..])
  }

  /** `u.replace(/^\/api/, "")`: the four characters go only when they open
      the text, whatever follows them. */
  function StripApi(u: string): (r: string)
    ensures StartsWith(u, "/api") ==> u == "/api" + r
    ensures !StartsWith(u, "/api") ==> r == u
  {
    if StartsWith(u, "/api") then u[4..] else u
  }

  /** The URL of the request line, as the loop computes it. */
  function RequestPath(url: string): string {
    StripApi(ReplaceParams(url, ParamNames(Tokens(url))))
  }

  // ---------------------------------------------------------------------
  // Reference: every parameter of the template written as a variable

  function Placeholders(names: seq<string>): (r: seq<string>)
    ensures |r| == |names|
  {
    seq(|names|, i requires 0 <= i < |names| => Variable(names[i]))
  }

  /** The template with every parameter filled with its own variable. */
  function Templated(url: string): string {
    Fill(Tokens(url), Placeholders(ParamNames(Tokens(url))))
  }

  /** Names that the replacement loop handles as intended: pairwise
      different and without an opening brace. */
  predicate Plain(names: seq<string>) {
    (forall i :: 0 <= i < |names| ==> IsName(names[i]) && '{' !in names[i])
    && (forall i, j :: 0 <= i < j < |names| ==> names[i] != names[j])
  }

  /** The text with the first `k` parameters already written as variables
      and the others still as `{name}`. */
  function Marked(toks: seq<Token>, k: nat): string {
    if toks == [] then []
    else
      match toks[0]
      case Lit(c) => [c] + Marked(toks[1..], k)
      case Param(n) =>
        if k > 0 then Variable(n) + Marked(toks[1..], k - 1)
        else Braced(n) + Marked(toks[1..], 0)
  }

  /** What the tokeniser guarantees about a literal `{`: when a parameter
      follows it somewhere, the very next token is a literal `}` (otherwise
      the brace would have opened a parameter). */
  predicate Tidy(toks: seq<Token>) {
    toks == [] ||
    ((toks[0] == Lit('{') && ParamCount(toks[1..]) > 0 ==> |toks| > 1 && toks[1] == Lit('}'))
     && Tidy(toks[1..]))
  }

  lemma {:induction false} NoBraceNoParams(t: string)
    requires '}' !in t
    ensures ParamCount(Tokens(t)) == 0
    decreases |t|
  {
    if t != [] {
      match ParamAt(t)
      case Some(n) =>
      case None =>
        assert forall c :: c in t[1..] ==> c in t;
        NoBraceNoParams(t[1..]);
    }
  }

  lemma {:induction false} TokensTidy(s: string)
    ensures Tidy(Tokens(s))
    decreases |s|
  {
    if s != [] {
      match ParamAt(s)
      case Some(n) =>
        TokensTidy(s[|n| + 2..]);
      case None =>
        TokensTidy(s[1..]);
        if s[0] == '{' {
          var t := s[1..];
          match FindChar(t, '}')
          case None =>
            NoBraceNoParams(t);
          case Some(q) =>
            assert q == 0;
            assert t[0] == '}';
            assert ParamAt(t).None?;
        }
    }
  }

  lemma {:induction false} MarkedNone(toks: seq<Token>)
    ensures Marked(toks, 0) == Spell(toks)
  {
    if toks != [] {
      MarkedNone(toks[1..]);
    }
  }

  lemma {:induction false} MarkedAll(toks: seq<Token>, k: nat)
    requires k >= ParamCount(toks)
    ensures Marked(toks, k) == Fill(toks, Placeholders(ParamNames(toks)))
  {
    if toks != [] {
      match toks[0]
      case Lit(_) =>
        assert ParamNames(toks) == ParamNames(toks[1..]);
        MarkedAll(toks[1..], k);
      case Param(n) =>
        var names := ParamNames(toks);
        assert names[1..] == ParamNames(toks[1..]);
        assert Placeholders(names)[1..] == Placeholders(names[1..]);
        assert Placeholders(names)[0] == Variable(n);
        MarkedAll(toks[1..], k - 1);
    }
  }

  /** `{p}` does not start anywhere inside the variable `{{n}}` of a
      different name. */
  lemma NotInVariable(n: string, p: string, rest: string, j: nat)
    requires IsName(n) && IsName(p) && '{' !in n && '{' !in p && n != p
    requires j < |n| + 4
    ensures !OccursAt(Variable(n) + rest, Braced(p), j)
  {
    var s := Variable(n) + rest;
    var b := Braced(p);
    if j == 0 {
      assert s[1] == '{' && b[1] == p[0];
    } else if j == 1 {
      var t := s[1..];
      if |p| < |n| {
        assert t[|p| + 1] == n[|p|] && b[|p| + 1] == '}';
      } else if |p| == |n| {
        assert t[1..|n| + 1] == n && b[1..|p| + 1] == p;
        if |t| >= |b| {
          assert t[..|b|][1..|p| + 1] == n;
        }
      } else {
        assert t[|n| + 1] == '}' && b[|n| + 1] == p[|n|];
      }
    } else if j < |n| + 2 {
      assert s[j] == n[j - 2] && b[0] == '{';
    } else {
      assert s[j] == '}' && b[0] == '{';
    }
  }

  /** The `k`-th parameter as it stands in `Marked(toks, k)`: the text
      around it, and no earlier place where its `{name}` starts. */
  lemma {:induction false} Around(toks: seq<Token>, k: nat) returns (pre: string, post: string)
    requires Tidy(toks) && Plain(ParamNames(toks)) && k < ParamCount(toks)
    ensures Marked(toks, k) == pre + Braced(ParamNames(toks)[k]) + post
    ensures Marked(toks, k + 1) == pre + Variable(ParamNames(toks)[k]) + post
    ensures forall j :: 0 <= j < |pre| ==> !OccursAt(Marked(toks, k), Braced(ParamNames(toks)[k]), j)
    decreases |toks|
  {
    var names := ParamNames(toks);
    match toks[0]
    case Lit(c) =>
      assert ParamNames(toks[1..]) == names;
      var pre', post' := Around(toks[1..], k);
      var m' := Marked(toks[1..], k);
      if c == '{' {
        assert toks[1] == Lit('}');
        assert m'[0] == '}';
      }
      pre, post := AroundLiteral(c, names[k], m', Marked(toks[1..], k + 1), pre', post');
    case Param(n) =>
      if k == 0 {
        pre := [];
        post := Marked(toks[1..], 0);
        assert Marked(toks, 1) == Variable(n) + post;
      } else {
        assert ParamNames(toks[1..]) == names[1..];
        PlainTail(names);
        var pre', post' := Around(toks[1..], k - 1);
        pre, post := AroundVariable(n, names[k], Marked(toks[1..], k - 1), Marked(toks[1..], k),
          pre', post');
      }
  }

  lemma PlainTail(names: seq<string>)
    requires Plain(names) && names != []
    ensures Plain(names[1..]) && names[0] !in names[1..]
  {
    forall i, j | 0 <= i < j < |names| - 1
      ensures names[1..][i] != names[1..][j]
    {
      assert names[1..][i] == names[i + 1] && names[1..][j] == names[j + 1];
    }
  }

  /** A literal character in front of the text keeps the parameter's place
      and adds no earlier occurrence of it. */
  lemma AroundLiteral(c: char, p: string, m': string, m1': string, pre': string, post': string)
    returns (pre: string, post: string)
    requires IsName(p)
    requires m' == pre' + Braced(p) + post' && m1' == pre' + Variable(p) + post'
    requires forall j :: 0 <= j < |pre'| ==> !OccursAt(m', Braced(p), j)
    requires c == '{' ==> m'[0] == '}'
    ensures [c] + m' == pre + Braced(p) + post && [c] + m1' == pre + Variable(p) + post
    ensures forall j :: 0 <= j < |pre| ==> !OccursAt([c] + m', Braced(p), j)
  {
    pre, post := [c] + pre', post';
    assert [c] + (pre' + Braced(p) + post') == pre + Braced(p) + post;
    assert [c] + (pre' + Variable(p) + post') == pre + Variable(p) + post;
    var m := [c] + m';
    forall j | 0 <= j < |pre|
      ensures !OccursAt(m, Braced(p), j)
    {
      if j == 0 {
        assert m[0..] == m;
        if c == '{' {
          assert m[1] == '}' && Braced(p)[1] == p[0] && p[0] in p;
        } else {
          assert m[0] == c && Braced(p)[0] == '{';
        }
      } else {
        OccursAfter([c], m', Braced(p), j);
      }
    }
  }

  /** A variable of a different name in front of the text keeps the
      parameter's place and adds no earlier occurrence of it. */
  lemma AroundVariable(n: string, p: string, m': string, m1': string, pre': string, post': string)
    returns (pre: string, post: string)
    requires IsName(n) && IsName(p) && '{' !in n && '{' !in p && n != p
    requires m' == pre' + Braced(p) + post' && m1' == pre' + Variable(p) + post'
    requires forall j :: 0 <= j < |pre'| ==> !OccursAt(m', Braced(p), j)
    ensures Variable(n) + m' == pre + Braced(p) + post
    ensures Variable(n) + m1' == pre + Variable(p) + post
    ensures forall j :: 0 <= j < |pre| ==> !OccursAt(Variable(n) + m', Braced(p), j)
  {
    var v := Variable(n);
    pre, post := v + pre', post';
    assert v + (pre' + Braced(p) + post') == pre + Braced(p) + post;
    assert v + (pre' + Variable(p) + post') == pre + Variable(p) + post;
    forall j | 0 <= j < |pre|
      ensures !OccursAt(v + m', Braced(p), j)
    {
      if j < |n| + 4 {
        NotInVariable(n, p, m', j);
      } else {
        OccursAfter(v, m', Braced(p), j);
      }
    }
  }

  lemma {:induction false} ReplaceFrom(toks: seq<Token>, k: nat)
    requires Tidy(toks) && Plain(ParamNames(toks)) && k <= ParamCount(toks)
    ensures ReplaceParams(Marked(toks, k), ParamNames(toks)[k..]) == Marked(toks, ParamCount(toks))
    decreases ParamCount(toks) - k
  {
    var names := ParamNames(toks);
    if k < ParamCount(toks) {
      var pre, post := Around(toks, k);
      ReplaceAt(pre, Braced(names[k]), post, Variable(names[k]));
      assert names[k..][1..] == names[k + 1..];
      ReplaceFrom(toks, k + 1);
    }
  }

  /** When the parameter names of a path are pairwise different and contain
      no `{`, the replacement loop writes every parameter, and nothing else,
      as a variable. */
  lemma ReplaceParamsTemplated(url: string)
    requires Plain(ParamNames(Tokens(url)))
    ensures ReplaceParams(url, ParamNames(Tokens(url))) == Templated(url)
  {
    var toks := Tokens(url);
    TokensTidy(url);
    MarkedNone(toks);
    SpellTokens(url);
    ReplaceFrom(toks, 0);
    assert ParamNames(toks)[0..] == ParamNames(toks);
    MarkedAll(toks, ParamCount(toks));
  }

  /** A name used twice is not written twice: the second `replace` finds
      `{x}` inside the `{{x}}` the first one wrote, and the second `{x}` of
      the path stays as it is. */
  lemma RepeatedName(x: string)
    requires IsName(x) && '{' !in x
    ensures ReplaceParams("/" + Braced(x) + "/" + Braced(x), [x, x])
            == "/{" + Variable(x) + "}/" + Braced(x)
  {
    var once := FirstOfTwo(x);
    var twice := SecondOfTwo(x, once);
    var u := "/" + Braced(x) + "/" + Braced(x);
    assert [x, x][1..] == [x] && [x][1..] == [];
    assert ReplaceParams(twice, []) == twice;
    assert ReplaceParams(once, [x]) == ReplaceParams(twice, []);
    assert ReplaceParams(u, [x, x]) == ReplaceParams(once, [x]);
  }

  lemma FirstOfTwo(x: string) returns (once: string)
    requires IsName(x)
    ensures once == "/" + Variable(x) + "/" + Braced(x)
    ensures ReplaceFirst("/" + Braced(x) + "/" + Braced(x), Braced(x), Variable(x)) == once
  {
    var b := Braced(x);
    once := "/" + Variable(x) + "/" + b;
    assert b[0] == '{';
    ReplaceAt("/", b, "/" + b, Variable(x));
    assert "/" + b + ("/" + b) == "/" + b + "/" + b;
    assert "/" + Variable(x) + ("/" + b) == once;
  }

  lemma SecondOfTwo(x: string, once: string) returns (twice: string)
    requires IsName(x) && '{' !in x
    requires once == "/" + Variable(x) + "/" + Braced(x)
    ensures twice == "/{" + Variable(x) + "}/" + Braced(x)
    ensures ReplaceFirst(once, Braced(x), Variable(x)) == twice
  {
    var b := Braced(x);
    twice := "/{" + Variable(x) + "}/" + b;
    assert once == "/{" + b + ("}/" + b);
    assert once[0] == '/' && once[1..][1] == '{' && b[1] == x[0] && x[0] in x;
    ReplaceAt("/{", b, "}/" + b, Variable(x));
    assert "/{" + Variable(x) + ("}/" + b) == twice;
  }
}
