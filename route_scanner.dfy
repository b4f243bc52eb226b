/** The route extractor: a best-effort literal scan of a declaration file
    for `@route("...")` markers (scripts/generate-http.js, parseTspRoutes).
    It is a text scan, not a parser: markers inside comments are found too. */
module RouteScanner {
  import opened Wrappers
  import opened Text

  const Marker: string := "@route(\""
  const Close: string := "\")"

  /** The text of one route declaration whose body is `body`. */
  function Literal(body: string): string {
    Marker + body + Close
  }

  /** A body the scan can return: at least one character, no double quote. */
  predicate IsBody(body: string) {
    body != [] && '"' !in body
  }

  /** The body of a route literal that starts exactly at the beginning of
      `s`, as the pattern /@route\("([^"]+)"\)/ matches it there. */
  function LiteralAt(s: string): (r: Option<string>)
    ensures r.Some? ==> IsBody(r.value) && StartsWith(s, Literal(r.value))
  {
    if !StartsWith(s, Marker) then None
    else
      match FindChar(s[|Marker|..], '"')
      case None => None
      case Some(q) =>
        if q > 0 && StartsWith(s[|Marker| + q..], Close) then
          var body := s[|Marker|..|Marker| + q];
          assert body == s[|Marker|..][..q];
          assert s[..|Literal(body)|] == Marker + body + Close by {
            assert s[..|Marker|] == Marker;
            assert s[|Marker| + q..][..2] == Close;
          }
          Some(body)
        else None
  }

  /** A literal at the start of the text is always recognised, whatever
      follows it. */
  lemma LiteralAtComplete(body: string, rest: string)
    requires IsBody(body)
    ensures LiteralAt(Literal(body) + rest) == Some(body)
  {
    var s := Literal(body) + rest;
    var t := s[|Marker|..];
    assert s[..|Marker|] == Marker;
    assert t == body + Close + rest;
    assert t[..|body|] == body;
    FindCharFirst(t, '"', |body|);
    assert s[|Marker| + |body|..][..|Close|] == Close;
    assert StartsWith(s, Marker);
    assert StartsWith(s[|Marker| + |body|..], Close);
    assert s[|Marker|..|Marker| + |body|] == body;
  }

  /** Every route literal of `s` in textual order, scanning left to right and
      resuming after each literal found, as a global regular expression's
      `exec` loop does. */
  function Routes(s: string): seq<string>
    decreases |s|
  {
    if s == [] then []
    else
      match LiteralAt(s)
      case Some(body) => [body] + Routes(s[|Literal(body)|..])
      case None => Routes(s[1..])
  }

  /** A literal at the start of the text is the first route. */
  lemma RoutesAtLiteral(s: string, body: string)
    requires LiteralAt(s) == Some(body)
    ensures Routes(s) == [body] + Routes(s[|Literal(body)|..])
  {
  }

  /** parseTspRoutes: the bodies of the route literals of a declaration file,
      or none when the file is missing. */
  method ParseTspRoutes(file: Option<string>) returns (routes: seq<string>)
    ensures file.None? ==> routes == []
    ensures file.Some? ==> routes == Routes(file.value)
  {
    routes := [];
    if file.None? {
      return;
    }
    var content := file.value;
    var i: nat := 0;
    assert content[i..] == content;
    while i < |content|
      invariant i <= |content|
      invariant routes + Routes(content[i..]) == Routes(content)
    {
      var at := content[i..];
      match LiteralAt(at)
      case Some(body) =>
        var next := i + |Literal(body)|;
        RoutesAtLiteral(at, body);
        assert at[|Literal(body)|..] == content[next..];
        assert routes + ([body] + Routes(content[next..])) == (routes + [body]) + Routes(content[next..]);
        routes := routes + [body];
        i := next;
      case None =>
        assert at[1..] == content[i + 1..];
        i := i + 1;
    }
    assert content[i..] == [];
  }

  /** Every route found is a valid body whose literal occurs in the text. */
  lemma {:induction false} RoutesAreLiterals(s: string)
    ensures forall r :: r in Routes(s) ==> IsBody(r) && exists k: nat :: OccursAt(s, Literal(r), k)
    decreases |s|
  {
    if s != [] {
      match LiteralAt(s)
      case Some(body) =>
        var n := |Literal(body)|;
        RoutesAtLiteral(s, body);
        RoutesAreLiterals(s[n..]);
        forall r | r in Routes(s[n..])
          ensures exists k: nat :: OccursAt(s, Literal(r), k)
        {
          var k: nat :| OccursAt(s[n..], Literal(r), k);
          OccursAfter(s[..n], s[n..], Literal(r), n + k);
          assert s[..n] + s[n..] == s;
        }
        assert s[0..] == s;
        assert OccursAt(s, Literal(body), 0);
      case None =>
        RoutesAreLiterals(s[1..]);
        forall r | r in Routes(s[1..])
          ensures exists k: nat :: OccursAt(s, Literal(r), k)
        {
          var k: nat :| OccursAt(s[1..], Literal(r), k);
          OccursAfter(s[..1], s[1..], Literal(r), 1 + k);
          assert s[..1] + s[1..] == s;
        }
    }
  }

  /** Text without an `@` holds no route. */
  lemma {:induction false} NoMarkerNoRoutes(s: string)
    requires '@' !in s
    ensures Routes(s) == []
    decreases |s|
  {
    if s != [] {
      assert s[0] != '@';
      assert !StartsWith(s, Marker);
      NoMarkerNoRoutes(s[1..]);
    }
  }

  /** Text at none of whose positions a route literal starts is skipped
      over, whatever it is followed by. */
  lemma {:induction false} SkipFiller(filler: string, s: string)
    requires forall k :: 0 <= k < |filler| ==> LiteralAt((filler + s)[k..]).None?
    ensures Routes(filler + s) == Routes(s)
    decreases |filler|
  {
    if filler != [] {
      assert (filler + s)[0..] == filler + s;
      assert (filler + s)[1..] == filler[1..] + s;
      forall k | 0 <= k < |filler[1..]|
        ensures LiteralAt((filler[1..] + s)[k..]).None?
      {
        assert (filler[1..] + s)[k..] == (filler + s)[k + 1..];
      }
      SkipFiller(filler[1..], s);
    } else {
      assert filler + s == s;
    }
  }

  /** Text that holds no marker, and that ends in no beginning of one: the
      decorators, comments and declarations around the route literals. */
  predicate Quiet(filler: string) {
    forall k :: 0 <= k < |filler| ==> !StartsWith(filler[k..], Marker) && !StartsWith(Marker, filler[k..])
  }

  /** No route literal starts inside quiet text, whatever follows it. */
  lemma QuietSkipped(filler: string, s: string)
    requires Quiet(filler)
    ensures forall k :: 0 <= k < |filler| ==> LiteralAt((filler + s)[k..]).None?
  {
    forall k | 0 <= k < |filler|
      ensures LiteralAt((filler + s)[k..]).None?
    {
      var t := (filler + s)[k..];
      var f := filler[k..];
      assert t == f + s;
      if StartsWith(t, Marker) {
        PrefixCases(f, s, Marker);
        assert false;
      }
    }
  }

  /** A text that starts with `m` either continues `f` past `m`, or `f`
      itself is a beginning of `m`. */
  lemma PrefixCases(f: string, s: string, m: string)
    requires StartsWith(f + s, m)
    ensures StartsWith(f, m) || StartsWith(m, f)
  {
    if |f| >= |m| {
      assert f[..|m|] == (f + s)[..|m|];
    } else {
      assert m[..|f|] == (f + s)[..|f|] == f;
    }
  }

  /** A declaration file: each route literal preceded by its own quiet
      text, then a quiet tail. */
  function Decorated(fillers: seq<string>, bodies: seq<string>, tail: string): string
    requires |fillers| == |bodies|
  {
    if bodies == [] then tail
    else fillers[0] + Literal(bodies[0]) + Decorated(fillers[1..], bodies[1..], tail)
  }

  /** Round trip for a realistic file: whatever quiet text (decorators such
      as `@get`, comments, models) surrounds the route literals, the scan
      gives back exactly their bodies, in order and with duplicates kept. */
  lemma {:induction false} ScanDecorated(fillers: seq<string>, bodies: seq<string>, tail: string)
    requires |fillers| == |bodies|
    requires forall i :: 0 <= i < |bodies| ==> IsBody(bodies[i]) && Quiet(fillers[i])
    requires Quiet(tail)
    ensures Routes(Decorated(fillers, bodies, tail)) == bodies
  {
    if bodies == [] {
      QuietSkipped(tail, "");
      SkipFiller(tail, "");
      assert tail + "" == tail;
    } else {
      var rest := Decorated(fillers[1..], bodies[1..], tail);
      var lit := Literal(bodies[0]);
      var s := lit + rest;
      assert Decorated(fillers, bodies, tail) == fillers[0] + s;
      QuietSkipped(fillers[0], s);
      SkipFiller(fillers[0], s);
      assert s == Literal(bodies[0]) + rest;
      LiteralAtComplete(bodies[0], rest);
      RoutesAtLiteral(s, bodies[0]);
      assert s[|lit|..] == rest;
      ScanDecorated(fillers[1..], bodies[1..], tail);
      assert bodies == [bodies[0]] + bodies[1..];
    }
  }

  /** A line break is quiet text. */
  lemma QuietNewline()
    ensures Quiet("\n")
  {
    assert "\n"[0..] == "\n";
    assert Marker[0] == '@';
  }

  /** A declaration file holding one route literal per line, in order. */
  function Declarations(bodies: seq<string>): string {
    if bodies == [] then [] else Literal(bodies[0]) + "\n" + Declarations(bodies[1..])
  }

  /** Round trip: scanning a file written with the given route bodies gives
      exactly those bodies back, in order and with duplicates kept. */
  lemma {:induction false} ScanDeclarations(bodies: seq<string>)
    requires forall i :: 0 <= i < |bodies| ==> IsBody(bodies[i])
    ensures Routes(Declarations(bodies)) == bodies
  {
    if bodies != [] {
      var rest := Declarations(bodies[1..]);
      var lit := Literal(bodies[0]);
      var s := lit + ("\n" + rest);
      assert Declarations(bodies) == s;
      LiteralAtComplete(bodies[0], "\n" + rest);
      RoutesAtLiteral(s, bodies[0]);
      assert s[|lit|..] == "\n" + rest;
      QuietNewline();
      QuietSkipped("\n", rest);
      SkipFiller("\n", rest);
      ScanDeclarations(bodies[1..]);
      assert bodies == [bodies[0]] + bodies[1..];
    }
  }
}
