/** generateVariables: the `@name = {{NAME}}` declarations at the top of an
    `.http` file, one per distinct path parameter of its operations, sorted. */
module Variables {
  import opened Text
  import opened PathTemplate
  import opened RequestRenderer

  // ---------------------------------------------------------------------
  // The display name of one parameter

  predicate NoUpper(s: string) {
    forall i :: 0 <= i < |s| ==> !IsUpperAscii(s[i])
  }

  function Piece(c: char): string {
    if IsUpperAscii(c) then "_" + [c] else [c]
  }

  /** `replace(/([A-Z])/g, "_$1")`: an underscore before every capital. */
  function Underscored(p: string): string {
    if p == [] then [] else Piece(p[0]) + Underscored(p[1..])
  }

  /** The placeholder name of a parameter: underscores before capitals,
      upper-cased, one leading underscore dropped. */
  function SnakeName(p: string): string {
    var u := UpperAscii(Underscored(p));
    if u != [] && u[0] == '_' then u[1..] else u
  }

  /** The placeholder name with the explicit case for `id`. */
  function DisplayName(p: string): string {
    if p == "id" then "ID" else SnakeName(p)
  }

  /** The declaration line of a parameter. */
  function Declaration(p: string): string {
    "@" + p + " = {{" + DisplayName(p) + "}}"
  }

  /** The special case for `id` changes nothing: the general rule gives `ID`
      already. */
  lemma IdCaseRedundant(p: string)
    ensures DisplayName(p) == SnakeName(p)
  {
    if p == "id" {
      UnderscoredLower(p);
      assert UpperAscii(p) == "ID";
    }
  }

  /** A display name has no lower-case ASCII letter. */
  lemma DisplayNameUpper(p: string)
    ensures forall i :: 0 <= i < |DisplayName(p)| ==> !IsLowerAscii(DisplayName(p)[i])
  {
    IdCaseRedundant(p);
  }

  lemma UnderscoredCons(c: char, s: string)
    ensures Underscored([c] + s) == Piece(c) + Underscored(s)
  {
    assert ([c] + s)[1..] == s;
  }

  lemma {:induction false} UnderscoredAppend(a: string, b: string)
    ensures Underscored(a + b) == Underscored(a) + Underscored(b)
  {
    if a == [] {
      assert a + b == b;
    } else {
      var t := a[1..];
      UnderscoredAppend(t, b);
      UnderscoredHead(a, b);
      Regrouped(Piece(a[0]), Underscored(t), Underscored(b), Underscored(t + b),
        Underscored(a + b), Underscored(a));
    }
  }

  lemma UnderscoredHead(a: string, b: string)
    requires a != []
    ensures Underscored(a + b) == Piece(a[0]) + Underscored(a[1..] + b)
  {
    assert (a + b)[1..] == a[1..] + b;
  }

  /** Associativity of concatenation, stated over names for the pieces. */
  lemma Regrouped(p: string, x: string, y: string, xy: string, whole: string, px: string)
    requires xy == x + y && whole == p + xy && px == p + x
    ensures whole == px + y
  {
  }

  lemma {:induction false} UnderscoredLower(p: string)
    requires NoUpper(p)
    ensures Underscored(p) == p
  {
    if p != [] {
      UnderscoredLower(p[1..]);
      assert p == [p[0]] + p[1..];
    }
  }

  lemma {:induction false} UpperAppend(a: string, b: string)
    ensures UpperAscii(a + b) == UpperAscii(a) + UpperAscii(b)
  {
  }

  /** A camel-case word after the first: a capital, then no capitals. */
  predicate CamelTail(w: string) {
    w != [] && IsUpperAscii(w[0]) && NoUpper(w[1..])
  }

  function Concat(words: seq<string>): string {
    if words == [] then [] else words[0] + Concat(words[1..])
  }

  function Prefixed(words: seq<string>): (r: seq<string>)
    ensures |r| == |words|
  {
    seq(|words|, i requires 0 <= i < |words| => "_" + words[i])
  }

  function Uppers(words: seq<string>): (r: seq<string>)
    ensures |r| == |words|
  {
    seq(|words|, i requires 0 <= i < |words| => UpperAscii(words[i]))
  }

  /** The words upper-cased and joined by underscores. */
  function Screaming(words: seq<string>): string {
    Join(Uppers(words), "_")
  }

  /** A camel-case tail word gains one underscore in front. */
  lemma UnderscoredCamel(w: string)
    requires CamelTail(w)
    ensures Underscored(w) == "_" + w
  {
    var t := w[1..];
    assert w == [w[0]] + t;
    UnderscoredCons(w[0], t);
    UnderscoredLower(t);
  }

  lemma {:induction false} UnderscoredTails(rest: seq<string>)
    requires forall i :: 0 <= i < |rest| ==> CamelTail(rest[i])
    ensures Underscored(Concat(rest)) == Concat(Prefixed(rest))
  {
    if rest != [] {
      var w, more := rest[0], rest[1..];
      assert forall i :: 0 <= i < |more| ==> CamelTail(more[i]) by {
        forall i | 0 <= i < |more|
          ensures CamelTail(more[i])
        {
          assert more[i] == rest[i + 1];
        }
      }
      UnderscoredTails(more);
      assert Concat(rest) == w + Concat(more);
      UnderscoredAppend(w, Concat(more));
      assert CamelTail(rest[0]);
      UnderscoredCamel(w);
      assert Prefixed(rest)[1..] == Prefixed(more);
      assert Concat(Prefixed(rest)) == ("_" + w) + Concat(Prefixed(more));
    }
  }

  lemma ScreamingCons(first: string, rest: seq<string>)
    requires rest != []
    ensures Screaming([first] + rest) == UpperAscii(first) + "_" + Screaming(rest)
  {
    var ups := Uppers([first] + rest);
    assert |ups| >= 2 && ups[0] == UpperAscii(first);
    assert ups[1..] == Uppers(rest);
  }

  lemma PrefixedCons(rest: seq<string>)
    requires rest != []
    ensures UpperAscii(Concat(Prefixed(rest)))
            == "_" + UpperAscii(rest[0]) + UpperAscii(Concat(Prefixed(rest[1..])))
  {
    assert Prefixed(rest)[0] == "_" + rest[0];
    assert Prefixed(rest)[1..] == Prefixed(rest[1..]);
    UpperAppend("_" + rest[0], Concat(Prefixed(rest[1..])));
    UpperAppend("_", rest[0]);
  }

  /** The string algebra behind `ScreamingTails`, apart from what the strings are. */
  lemma ScreamingAssembled(a: string, h: string, t: string, cp: string, sr: string, sf: string)
    requires h + t == sr && cp == "_" + h + t && sf == a + "_" + sr
    ensures a + cp == sf
  {
    assert a + ("_" + h + t) == a + "_" + (h + t);
  }

  lemma {:induction false} ScreamingTails(first: string, rest: seq<string>)
    ensures UpperAscii(first) + UpperAscii(Concat(Prefixed(rest))) == Screaming([first] + rest)
    decreases |rest|
  {
    if rest == [] {
      assert Uppers([first]) == [UpperAscii(first)];
      assert Concat(Prefixed(rest)) == [];
    } else {
      ScreamingTails(rest[0], rest[1..]);
      assert [rest[0]] + rest[1..] == rest;
      PrefixedCons(rest);
      ScreamingCons(first, rest);
      ScreamingAssembled(UpperAscii(first), UpperAscii(rest[0]), UpperAscii(Concat(Prefixed(rest[1..]))),
        UpperAscii(Concat(Prefixed(rest))), Screaming(rest), Screaming([first] + rest));
    }
  }

  /** A camel-case name `first` + `Second` + `Third`... becomes
      `FIRST_SECOND_THIRD`, the naming the placeholders are meant to follow. */
  lemma CamelToScreaming(first: string, rest: seq<string>)
    requires first != [] && first[0] != '_' && NoUpper(first)
    requires forall i :: 0 <= i < |rest| ==> CamelTail(rest[i])
    ensures DisplayName(first + Concat(rest)) == Screaming([first] + rest)
  {
    IdCaseRedundant(first + Concat(rest));
    UnderscoredAppend(first, Concat(rest));
    UnderscoredLower(first);
    UnderscoredTails(rest);
    UpperAppend(first, Underscored(Concat(rest)));
    ScreamingTails(first, rest);
    var u := UpperAscii(Underscored(first + Concat(rest)));
    assert u[0] == ToUpperAscii(first[0]);
  }

  // ---------------------------------------------------------------------
  // Collecting the declarations

  predicate Distinct(s: seq<string>) {
    forall i, j :: 0 <= i < j < |s| ==> s[i] != s[j]
  }

  /** `set.add(x)` on a set kept in insertion order. */
  function Add(seen: seq<string>, x: string): (r: seq<string>)
    ensures Distinct(seen) ==> Distinct(r)
    ensures forall y :: y in r <==> y in seen || y == x
  {
    if x in seen then seen else seen + [x]
  }

  /** Adding each of `xs` in turn. */
  function AddAll(seen: seq<string>, xs: seq<string>): (r: seq<string>)
    ensures Distinct(seen) ==> Distinct(r)
    ensures forall y :: y in r <==> y in seen || y in xs
  {
    if xs == [] then seen
    else
      var r := Add(AddAll(seen, xs[..|xs| - 1]), xs[|xs| - 1]);
      assert forall y :: y in xs <==> y in xs[..|xs| - 1] || y == xs[|xs| - 1] by {
        assert xs == xs[..|xs| - 1] + [xs[|xs| - 1]];
      }
      r
  }

  lemma AddAllStep(seen: seq<string>, xs: seq<string>, j: nat)
    requires j < |xs|
    ensures AddAll(seen, xs[..j + 1]) == Add(AddAll(seen, xs[..j]), xs[j])
  {
    assert xs[..j + 1][..j] == xs[..j];
  }

  /** The declaration lines of one operation, in the order of its path
      parameters. */
  function Declarations(o: Operation): (r: seq<string>)
    ensures |r| == |ParamNames(Tokens(o.url))|
  {
    var ps := ParamNames(Tokens(o.url));
    seq(|ps|, j requires 0 <= j < |ps| => Declaration(ps[j]))
  }

  /** The set of declarations after the loop over `ops`. */
  function Collected(ops: seq<Operation>): seq<string> {
    if ops == [] then []
    else AddAll(Collected(ops[..|ops| - 1]), Declarations(ops[|ops| - 1]))
  }

  /** `line` declares a path parameter of one of the operations. */
  predicate Declares(ops: seq<Operation>, line: string) {
    exists i :: 0 <= i < |ops| && line in Declarations(ops[i])
  }

  /** The collected lines are pairwise different, and are exactly the
      declarations of the parameters of the operations. */
  lemma {:induction false} CollectedSpec(ops: seq<Operation>)
    ensures Distinct(Collected(ops))
    ensures forall line :: line in Collected(ops) <==> Declares(ops, line)
  {
    if ops != [] {
      var init := ops[..|ops| - 1];
      CollectedSpec(init);
      assert Collected(ops) == AddAll(Collected(init), Declarations(ops[|ops| - 1]));
      forall line
        ensures line in Collected(ops) <==> Declares(ops, line)
      {
        DeclaresSnoc(ops, line);
      }
    }
  }

  /** An operation appended to the list adds its own declarations. */
  lemma DeclaresSnoc(ops: seq<Operation>, line: string)
    requires ops != []
    ensures Declares(ops, line)
            <==> Declares(ops[..|ops| - 1], line) || line in Declarations(ops[|ops| - 1])
  {
    if Declares(ops, line) {
      var i :| 0 <= i < |ops| && line in Declarations(ops[i]);
      DeclaresBefore(ops, line, i);
    }
    if Declares(ops[..|ops| - 1], line) {
      var i :| 0 <= i < |ops| - 1 && line in Declarations(ops[..|ops| - 1][i]);
      assert ops[..|ops| - 1][i] == ops[i];
    }
  }

  lemma DeclaresBefore(ops: seq<Operation>, line: string, i: nat)
    requires i < |ops| && line in Declarations(ops[i])
    ensures Declares(ops[..|ops| - 1], line) || line in Declarations(ops[|ops| - 1])
  {
    if i < |ops| - 1 {
      assert ops[..|ops| - 1][i] == ops[i];
    }
  }

  // ---------------------------------------------------------------------
  // `Array.prototype.sort` with the default comparator

  predicate Ascending(s: seq<string>) {
    forall i, j :: 0 <= i < j < |s| ==> Below(s[i], s[j])
  }

  /** Places `x` before the first element it is not after. */
  function Insert(x: string, s: seq<string>): (r: seq<string>)
    ensures multiset(r) == multiset(s) + multiset{x}
  {
    if s == [] || !Below(s[0], x) then [x] + s
    else
      assert s == [s[0]] + s[1..];
      [s[0]] + Insert(x, s[1..])
  }

  function Sort(s: seq<string>): (r: seq<string>)
    ensures multiset(r) == multiset(s)
  {
    if s == [] then []
    else
      assert s == [s[0]] + s[1..];
      Insert(s[0], Sort(s[1..]))
  }

  lemma {:induction false} InsertAscending(x: string, s: seq<string>)
    requires Ascending(s) && x !in s
    ensures Ascending(Insert(x, s))
  {
    if s != [] {
      BelowTotal(x, s[0]);
      if Below(s[0], x) {
        InsertAscending(x, s[1..]);
        var r := Insert(x, s[1..]);
        forall k | 0 <= k < |r|
          ensures Below(s[0], r[k])
        {
          assert r[k] in multiset(r);
          if r[k] != x {
            assert r[k] in s[1..];
          }
        }
      } else {
        forall k | 0 <= k < |s|
          ensures Below(x, s[k])
        {
          if k > 0 {
            BelowTransitive(x, s[0], s[k]);
          }
        }
      }
    }
  }

  /** Sorting pairwise different strings gives them in strictly ascending
      code-unit order. */
  lemma {:induction false} SortAscending(s: seq<string>)
    requires Distinct(s)
    ensures Ascending(Sort(s))
  {
    if s != [] {
      SortAscending(s[1..]);
      assert s[0] !in multiset(s[1..]);
      InsertAscending(s[0], Sort(s[1..]));
    }
  }

  /** Two strictly ascending sequences of the same strings start alike. */
  lemma SameLeast(a: seq<string>, b: seq<string>)
    requires Ascending(a) && Ascending(b) && a != [] && b != []
    requires forall y :: y in a <==> y in b
    ensures a[0] == b[0]
  {
    assert a[0] in b && b[0] in a;
    var i :| 0 <= i < |b| && b[i] == a[0];
    var j :| 0 <= j < |a| && a[j] == b[0];
    if i > 0 {
      assert Below(b[0], b[i]);
      if j > 0 {
        BelowAsymmetric(a[0], a[j]);
      } else {
        BelowIrreflexive(a[0]);
      }
    }
  }

  lemma AscendingTail(a: seq<string>, y: string)
    requires Ascending(a) && a != [] && y in a[1..]
    ensures y in a && y != a[0]
  {
    var k :| 0 <= k < |a[1..]| && a[1..][k] == y;
    assert Below(a[0], a[k + 1]);
    BelowIrreflexive(a[0]);
  }

  /** Two strictly ascending arrangements of the same strings are equal:
      the sorted output does not depend on the order the set was filled in. */
  lemma {:induction false} AscendingUnique(a: seq<string>, b: seq<string>)
    requires Ascending(a) && Ascending(b)
    requires forall y :: y in a <==> y in b
    ensures a == b
  {
    if a != [] {
      assert a[0] in b;
    }
    if b != [] {
      assert b[0] in a;
    }
    if a != [] && b != [] {
      SameLeast(a, b);
      forall y
        ensures y in a[1..] <==> y in b[1..]
      {
        if y in a[1..] {
          AscendingTail(a, y);
          assert b == [b[0]] + b[1..];
        }
        if y in b[1..] {
          AscendingTail(b, y);
          assert a == [a[0]] + a[1..];
        }
      }
      AscendingUnique(a[1..], b[1..]);
      assert a == [a[0]] + a[1..] && b == [b[0]] + b[1..];
    }
  }

  // ---------------------------------------------------------------------
  // The variables section

  /** The text of the variables section of an operations file. */
  function VariablesText(ops: seq<Operation>): string {
    Join(Sort(Collected(ops)), "\n")
  }

  /** generateVariables: the loop over the operations filling the set,
      then sorting and joining. */
  method GenerateVariables(ops: seq<Operation>) returns (text: string)
    ensures text == VariablesText(ops)
  {
    var variables: seq<string> := [];
    for i := 0 to |ops|
      invariant variables == Collected(ops[..i])
    {
      variables := AddParameters(variables, ops[i]);
      assert ops[..i + 1][..i] == ops[..i];
    }
    assert ops[..|ops|] == ops;
    text := Join(Sort(variables), "\n");
  }

  /** The inner loop: the declaration of each path parameter of one
      operation added to the set. */
  method AddParameters(variables: seq<string>, o: Operation) returns (r: seq<string>)
    ensures r == AddAll(variables, Declarations(o))
  {
    var pathParams := ExtractPathParams(o.url);
    ghost var decls := Declarations(o);
    r := variables;
    for j := 0 to |pathParams|
      invariant r == AddAll(variables, decls[..j])
    {
      var param := pathParams[j];
      var displayName := SnakeName(param);
      if param == "id" {
        displayName := "ID";
      }
      AddAllStep(variables, decls, j);
      assert displayName == DisplayName(param);
      assert decls[j] == Declaration(param);
      r := Add(r, "@" + param + " = {{" + displayName + "}}");
    }
    assert decls[..|pathParams|] == decls;
  }

  /** The section lists, in strictly ascending order, exactly the
      declarations of the path parameters of the operations, each once. */
  lemma VariablesSection(ops: seq<Operation>)
    ensures Ascending(Sort(Collected(ops)))
    ensures forall line :: line in Sort(Collected(ops)) <==> Declares(ops, line)
  {
    CollectedSpec(ops);
    SortAscending(Collected(ops));
    forall line
      ensures line in Sort(Collected(ops)) <==> line in Collected(ops)
    {
      assert line in Sort(Collected(ops)) <==> line in multiset(Sort(Collected(ops)));
    }
  }

  /** Operations declaring the same parameters give the same section,
      whatever their order and multiplicity. */
  lemma SameDeclarationsSameSection(ops: seq<Operation>, others: seq<Operation>)
    requires forall line :: Declares(ops, line) <==> Declares(others, line)
    ensures VariablesText(ops) == VariablesText(others)
  {
    VariablesSection(ops);
    VariablesSection(others);
    AscendingUnique(Sort(Collected(ops)), Sort(Collected(others)));
  }
}
