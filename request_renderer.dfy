/** generateHttpRequest: the text of one request block of an `.http` file,
    from an OpenAPI operation object, its path and its method. */
module RequestRenderer {
  import opened Wrappers
  import opened Text
  import opened JsValue
  import opened PathTemplate
  import opened RequestUrl
  import opened SchemaExample

  /** The conversions the block relies on that are outside this model: the
      text of a number as a template literal prints it, and
      `JSON.stringify(example, null, 2)`. */
  datatype Printers = Printers(numeral: real -> string, stringify: Value -> string)

  /** One operation as the generator collects it: the OpenAPI path, the
      method key and the operation object. */
  datatype Operation = Operation(url: string, verb: string, op: Value)

  const ContentType: string := "Content-Type: application/json"

  /** `${v}` in a template literal: strings as they are, arrays as their
      elements joined by commas (a `null` element printing as nothing),
      objects as `[object Object]`. */
  function TemplateText(v: Value, numeral: real -> string): string
    decreases v
  {
    match v
    case Null => "null"
    case Bool(b) => if b then "true" else "false"
    case Num(n) => numeral(n)
    case Str(s) => s
    case Arr(items) =>
      Join(seq(|items|, i requires 0 <= i < |items| =>
                 if items[i].Null? then "" else TemplateText(items[i], numeral)), ",")
    case Obj(_) => "[object Object]"
  }

  /** The `# @title` and `# @description` lines, each present when the
      operation's field is truthy. */
  function Heading(op: Value, numeral: real -> string): seq<string> {
    var summary := Member(op, "summary");
    var description := Member(op, "description");
    (if Truthy(summary) then ["# @title " + TemplateText(summary.value, numeral)] else [])
    + (if Truthy(description) then ["# @description " + TemplateText(description.value, numeral)] else [])
  }

  /** Whether the scan of `parameters` for query parameters reads `in` from
      a `null` entry, which throws. */
  predicate QueryScanThrows(op: Value) {
    var ps := Member(op, "parameters");
    ps.Some? && ps.value.Arr? && exists i :: 0 <= i < |ps.value.items| && ps.value.items[i].Null?
  }

  /** The request line: upper-cased method, the base-URL variable, and the
      path with its parameters written as variables and `/api` dropped. */
  function RequestLine(url: string, verb: string): string {
    UpperAscii(verb) + " {{BASE_URL}}" + RequestPath(url)
  }

  /** The JSON schema of the request body, when every step of
      `requestBody.content["application/json"].schema` is truthy. */
  function BodySchema(op: Value): Option<Value> {
    var rb := Member(op, "requestBody");
    if !Truthy(rb) then None
    else
      var content := Member(rb.value, "content");
      if !Truthy(content) then None
      else
        var json := Member(content.value, "application/json");
        if !Truthy(json) then None
        else
          var schema := Member(json.value, "schema");
          if !Truthy(schema) then None else Some(schema.value)
  }

  /** The body lines: an empty line and the printed example, when there is a
      body schema and its example is truthy. */
  function BodyLines(op: Value, spec: Value, fuel: nat, stringify: Value -> string): Outcome<seq<string>> {
    match BodySchema(op)
    case None => Done([])
    case Some(schema) =>
      match GetSchemaExample(schema, spec, fuel)
      case Thrown => Thrown
      case Done(ex) => Done(if Truthy(Some(ex)) then ["", stringify(ex)] else [])
  }

  /** The lines of the block, or the exception that ends the generator. */
  function RequestLines(op: Value, url: string, verb: string, spec: Value, fuel: nat, pr: Printers)
    : Outcome<seq<string>>
  {
    if op.Null? || QueryScanThrows(op) then Thrown
    else
      match BodyLines(op, spec, fuel, pr.stringify)
      case Thrown => Thrown
      case Done(body) => Done(Assemble(op, url, verb, pr.numeral, body))
  }

  /** The lines of a block around its body lines: separator, empty line,
      heading, request line, content-type header when there is a truthy
      `requestBody`, the body lines and a closing empty line. */
  function Assemble(op: Value, url: string, verb: string, numeral: real -> string, body: seq<string>)
    : seq<string>
  {
    ["###", ""] + Heading(op, numeral) + [RequestLine(url, verb)]
    + (if Truthy(Member(op, "requestBody")) then [ContentType] else [])
    + body + [""]
  }

  function RenderRequest(op: Value, url: string, verb: string, spec: Value, fuel: nat, pr: Printers)
    : Outcome<string>
  {
    match RequestLines(op, url, verb, spec, fuel, pr)
    case Thrown => Thrown
    case Done(lines) => Done(Join(lines, "\n"))
  }

  /** generateHttpRequest, pushing one line at a time. */
  method GenerateHttpRequest(op: Value, url: string, verb: string, spec: Value, fuel: nat, pr: Printers)
    returns (r: Outcome<string>)
    ensures r == RenderRequest(op, url, verb, spec, fuel, pr)
  {
    if op.Null? {
      return Thrown;
    }
    var lines := ["###", ""];
    var heading := HeadingLines(op, pr.numeral);
    lines := lines + heading;

    var httpUrl := WritePathVariables(url);
    var scanned := ScanQueryParameters(op);
    if !scanned {
      return Thrown;
    }
    var requestLine := UpperAscii(verb) + " {{BASE_URL}}" + StripApi(httpUrl);
    lines := lines + [requestLine];

    var header: seq<string> := [];
    if Truthy(Member(op, "requestBody")) {
      header := [ContentType];
    }
    lines := lines + header;
    var body := ExampleBody(op, spec, fuel, pr.stringify);
    if body.Thrown? {
      return Thrown;
    }
    lines := lines + body.value + [""];
    assert requestLine == RequestLine(url, verb);
    assert header == (if Truthy(Member(op, "requestBody")) then [ContentType] else []);
    AssembledFrom(op, url, verb, pr.numeral, body.value, heading, requestLine, header);
    RenderedFrom(op, url, verb, spec, fuel, pr, body.value);
    r := Done(Join(lines, "\n"));
  }

  /** The `# @title` and `# @description` lines, pushed one at a time. */
  method HeadingLines(op: Value, numeral: real -> string) returns (lines: seq<string>)
    ensures lines == Heading(op, numeral)
  {
    lines := [];
    var summary := Member(op, "summary");
    if Truthy(summary) {
      lines := lines + ["# @title " + TemplateText(summary.value, numeral)];
    }
    var description := Member(op, "description");
    if Truthy(description) {
      lines := lines + ["# @description " + TemplateText(description.value, numeral)];
    }
  }

  lemma AssembledFrom(op: Value, url: string, verb: string, numeral: real -> string, body: seq<string>,
                      heading: seq<string>, requestLine: string, header: seq<string>)
    requires heading == Heading(op, numeral) && requestLine == RequestLine(url, verb)
    requires header == (if Truthy(Member(op, "requestBody")) then [ContentType] else [])
    ensures ["###", ""] + heading + [requestLine] + header + body + [""] == Assemble(op, url, verb, numeral, body)
  {
  }

  /** Once the body lines are known, the block is their assembly. */
  lemma RenderedFrom(op: Value, url: string, verb: string, spec: Value, fuel: nat, pr: Printers, body: seq<string>)
    requires !op.Null? && !QueryScanThrows(op) && BodyLines(op, spec, fuel, pr.stringify) == Done(body)
    ensures RenderRequest(op, url, verb, spec, fuel, pr) == Done(Join(Assemble(op, url, verb, pr.numeral, body), "\n"))
  {
    LinesFrom(op, url, verb, spec, fuel, pr, body);
  }

  lemma LinesFrom(op: Value, url: string, verb: string, spec: Value, fuel: nat, pr: Printers, body: seq<string>)
    requires !op.Null? && !QueryScanThrows(op) && BodyLines(op, spec, fuel, pr.stringify) == Done(body)
    ensures RequestLines(op, url, verb, spec, fuel, pr) == Done(Assemble(op, url, verb, pr.numeral, body))
  {
  }

  /** The loop over the extracted names, each `{name}` replaced in turn. */
  method WritePathVariables(url: string) returns (httpUrl: string)
    ensures httpUrl == ReplaceParams(url, ParamNames(Tokens(url)))
  {
    var pathParams := ExtractPathParams(url);
    httpUrl := url;
    for i := 0 to |pathParams|
      invariant ReplaceParams(httpUrl, pathParams[i..]) == ReplaceParams(url, pathParams)
    {
      assert pathParams[i..][1..] == pathParams[i + 1..];
      httpUrl := ReplaceFirst(httpUrl, Braced(pathParams[i]), Variable(pathParams[i]));
    }
    assert pathParams[|pathParams|..] == [];
  }

  /** The loop that collects query parameters; it completes unless an entry
      of an array `parameters` is `null`. */
  method ScanQueryParameters(op: Value) returns (completes: bool)
    ensures completes <==> !QueryScanThrows(op)
  {
    var parameters := Member(op, "parameters");
    if parameters.Some? && parameters.value.Arr? {
      var items := parameters.value.items;
      for i := 0 to |items|
        invariant forall j :: 0 <= j < i ==> !items[j].Null?
      {
        if items[i].Null? {
          return false;
        }
      }
    }
    return true;
  }

  /** The body lines, read step by step from the request body. */
  method ExampleBody(op: Value, spec: Value, fuel: nat, stringify: Value -> string)
    returns (body: Outcome<seq<string>>)
    ensures body == BodyLines(op, spec, fuel, stringify)
  {
    body := Done([]);
    var requestBody := Member(op, "requestBody");
    if Truthy(requestBody) {
      var content := Member(requestBody.value, "content");
      if Truthy(content) {
        var json := Member(content.value, "application/json");
        if Truthy(json) {
          var schema := Member(json.value, "schema");
          if Truthy(schema) {
            match GetSchemaExample(schema.value, spec, fuel)
            case Thrown =>
              body := Thrown;
            case Done(example) =>
              if Truthy(Some(example)) {
                body := Done(["", stringify(example)]);
              }
          }
        }
      }
    }
  }

  // ---------------------------------------------------------------------
  // What a block looks like

  /** A block opens with the `###` separator and an empty line, has the
      request line right after the heading, and closes with an empty line,
      whatever its body lines. */
  lemma BlockFraming(op: Value, url: string, verb: string, numeral: real -> string, body: seq<string>)
    ensures var lines := Assemble(op, url, verb, numeral, body);
            var h := |Heading(op, numeral)|;
            h <= 2 && |lines| >= h + 4 && lines[0] == "###" && lines[1] == ""
            && lines[h + 2] == RequestLine(url, verb) && lines[|lines| - 1] == ""
  {
  }

  /** The third line is a title exactly when the operation has a truthy
      `summary`: neither a description line nor a request line (whose
      method is upper-cased) can start with `# @title `. */
  lemma TitleIffSummary(op: Value, url: string, verb: string, numeral: real -> string, body: seq<string>)
    ensures var lines := Assemble(op, url, verb, numeral, body);
            StartsWith(lines[2], "# @title ") <==> Truthy(Member(op, "summary"))
  {
    var lines := Assemble(op, url, verb, numeral, body);
    var summary := Member(op, "summary");
    var description := Member(op, "description");
    BlockFraming(op, url, verb, numeral, body);
    if Truthy(summary) {
      var t := TemplateText(summary.value, numeral);
      assert lines[2] == "# @title " + t;
      assert ("# @title " + t)[..9] == "# @title ";
    } else if Truthy(description) {
      var t := TemplateText(description.value, numeral);
      assert lines[2] == "# @description " + t;
      NotTitle("# @description " + t, 'd');
    } else {
      assert lines[2] == RequestLine(url, verb);
      RequestLineNotTitle(url, verb);
    }
  }

  /** A line whose fourth character is not `t` is not a title. */
  lemma NotTitle(line: string, c: char)
    requires |line| > 3 && line[3] == c && c != 't'
    ensures !StartsWith(line, "# @title ")
  {
    assert "# @title "[3] == 't';
  }

  /** A request line never reads as a title: its fourth character is an
      upper-cased method letter or part of ` {{BASE_URL}}`. */
  lemma RequestLineNotTitle(url: string, verb: string)
    ensures !StartsWith(RequestLine(url, verb), "# @title ")
  {
    var line := RequestLine(url, verb);
    var m := UpperAscii(verb);
    assert line == m + (" {{BASE_URL}}" + RequestPath(url));
    if |m| > 3 {
      assert line[3] == m[3] && !IsLowerAscii(m[3]);
    } else {
      assert line[3] == " {{BASE_URL}}"[3 - |m|];
    }
    assert "# @title "[3] == 't';
  }

  /** The line after the title, or the third line when there is no title,
      is a description exactly when the operation has a truthy
      `description`. */
  lemma DescriptionIff(op: Value, url: string, verb: string, numeral: real -> string, body: seq<string>)
    ensures var lines := Assemble(op, url, verb, numeral, body);
            var at := if Truthy(Member(op, "summary")) then 3 else 2;
            at < |lines| && (StartsWith(lines[at], "# @description ") <==> Truthy(Member(op, "description")))
  {
    var lines := Assemble(op, url, verb, numeral, body);
    var summary := Member(op, "summary");
    var description := Member(op, "description");
    var at := if Truthy(summary) then 3 else 2;
    var head := ["###", ""] + (if Truthy(summary) then ["# @title " + TemplateText(summary.value, numeral)] else []);
    assert |head| == at;
    BlockFraming(op, url, verb, numeral, body);
    if Truthy(description) {
      var t := TemplateText(description.value, numeral);
      assert lines[at] == "# @description " + t;
      assert ("# @description " + t)[..15] == "# @description ";
    } else {
      assert lines[at] == RequestLine(url, verb);
      RequestLineNotTagged(url, verb, "# @description ");
    }
  }

  /** A request line never starts with a tag whose fourth character is a
      lower-case letter: its fourth character is an upper-cased method
      letter or part of ` {{BASE_URL}}`. */
  lemma RequestLineNotTagged(url: string, verb: string, tag: string)
    requires |tag| > 3 && IsLowerAscii(tag[3])
    ensures !StartsWith(RequestLine(url, verb), tag)
  {
    var line := RequestLine(url, verb);
    var m := UpperAscii(verb);
    assert line == m + (" {{BASE_URL}}" + RequestPath(url));
    if |m| > 3 {
      assert line[3] == m[3] && !IsLowerAscii(m[3]);
    } else {
      assert line[3] == " {{BASE_URL}}"[3 - |m|];
    }
  }

  /** There are body lines exactly when the operation has a JSON body
      schema whose example is truthy. */
  lemma BodyIff(op: Value, spec: Value, fuel: nat, stringify: Value -> string)
    requires BodyLines(op, spec, fuel, stringify).Done?
    ensures BodyLines(op, spec, fuel, stringify).value != [] <==>
              BodySchema(op).Some? && Truthy(Some(GetSchemaExample(BodySchema(op).value, spec, fuel).value))
  {
  }

  /** Without a JSON body schema, or with a falsy example, the block has no
      body: after the request line comes at most the content-type header,
      then the closing empty line. */
  lemma NoExampleNoBody(op: Value, url: string, verb: string, spec: Value, fuel: nat, pr: Printers)
    requires !op.Null? && !QueryScanThrows(op)
    requires BodySchema(op).None?
             || (GetSchemaExample(BodySchema(op).value, spec, fuel).Done?
                 && !Truthy(Some(GetSchemaExample(BodySchema(op).value, spec, fuel).value)))
    ensures RequestLines(op, url, verb, spec, fuel, pr)
            == Done(["###", ""] + Heading(op, pr.numeral) + [RequestLine(url, verb)]
                    + (if Truthy(Member(op, "requestBody")) then [ContentType] else []) + [""])
  {
    assert BodyLines(op, spec, fuel, pr.stringify) == Done([]);
    LinesFrom(op, url, verb, spec, fuel, pr, []);
    var front := ["###", ""] + Heading(op, pr.numeral) + [RequestLine(url, verb)]
                 + (if Truthy(Member(op, "requestBody")) then [ContentType] else []);
    assert front + [] + [""] == front + [""];
  }

  /** The line after the request line is the JSON content-type header
      exactly when the operation has a truthy `requestBody`, whatever the
      body lines (which start with an empty line when present). */
  lemma ContentTypeIffRequestBody(op: Value, url: string, verb: string, numeral: real -> string, body: seq<string>)
    requires body == [] || body[0] == ""
    ensures var lines := Assemble(op, url, verb, numeral, body);
            var h := |Heading(op, numeral)|;
            h + 3 < |lines| && (lines[h + 3] == ContentType <==> Truthy(Member(op, "requestBody")))
  {
  }

  /** Without a truthy `requestBody` the block has no header and no body:
      after the request line comes only the closing empty line. */
  lemma NoRequestBodyNoBody(op: Value, url: string, verb: string, spec: Value, fuel: nat, pr: Printers)
    requires !op.Null? && !QueryScanThrows(op) && !Truthy(Member(op, "requestBody"))
    ensures RequestLines(op, url, verb, spec, fuel, pr)
            == Done(["###", ""] + Heading(op, pr.numeral) + [RequestLine(url, verb), ""])
  {
    assert BodyLines(op, spec, fuel, pr.stringify) == Done([]);
    var head := ["###", ""] + Heading(op, pr.numeral);
    assert head + [RequestLine(url, verb)] + [] + [] + [""] == head + [RequestLine(url, verb), ""];
  }

  /** With a body schema whose example is truthy, the block ends with an
      empty line, the printed example and the closing empty line, after the
      content-type header. */
  lemma ExampleClosesBlock(op: Value, url: string, verb: string, spec: Value, fuel: nat, pr: Printers, example: Value)
    requires !op.Null? && !QueryScanThrows(op) && BodySchema(op).Some?
    requires GetSchemaExample(BodySchema(op).value, spec, fuel) == Done(example) && Truthy(Some(example))
    ensures RequestLines(op, url, verb, spec, fuel, pr)
            == Done(["###", ""] + Heading(op, pr.numeral)
                    + [RequestLine(url, verb), ContentType, "", pr.stringify(example), ""])
  {
    var body := ["", pr.stringify(example)];
    assert BodyLines(op, spec, fuel, pr.stringify) == Done(body);
    assert Truthy(Member(op, "requestBody"));
    LinesFrom(op, url, verb, spec, fuel, pr, body);
    ExampleAssembly(["###", ""] + Heading(op, pr.numeral), RequestLine(url, verb), pr.stringify(example));
  }

  lemma ExampleAssembly(head: seq<string>, line: string, printed: string)
    ensures head + [line] + [ContentType] + ["", printed] + [""] == head + [line, ContentType, "", printed, ""]
  {
  }

  /** The block fails exactly when the operation is `null`, when `parameters`
      holds a `null` entry, or when producing the body example throws. */
  lemma RequestThrows(op: Value, url: string, verb: string, spec: Value, fuel: nat, pr: Printers)
    ensures RequestLines(op, url, verb, spec, fuel, pr).Thrown? <==>
              op.Null? || QueryScanThrows(op)
              || (BodySchema(op).Some? && GetSchemaExample(BodySchema(op).value, spec, fuel).Thrown?)
  {
  }

  /** With pairwise different parameter names free of `{`, the request line
      carries the path with every parameter, and nothing else, written as a
      variable. */
  lemma RequestLineTemplated(url: string, verb: string)
    requires Plain(ParamNames(Tokens(url)))
    ensures RequestLine(url, verb) == UpperAscii(verb) + " {{BASE_URL}}" + StripApi(Templated(url))
  {
    ReplaceParamsTemplated(url);
  }

  /** The text of a block starts with `###` and an empty line, and ends
      with a line break, so blocks joined by line breaks stay apart. */
  lemma BlockText(op: Value, url: string, verb: string, spec: Value, fuel: nat, pr: Printers)
    requires RenderRequest(op, url, verb, spec, fuel, pr).Done?
    ensures var text := RenderRequest(op, url, verb, spec, fuel, pr).value;
            StartsWith(text, "###\n\n") && |text| > 0 && text[|text| - 1] == '\n'
  {
    var body := BodyLines(op, spec, fuel, pr.stringify);
    AssembledText(op, url, verb, pr.numeral, body.value);
  }

  lemma AssembledText(op: Value, url: string, verb: string, numeral: real -> string, body: seq<string>)
    ensures var text := Join(Assemble(op, url, verb, numeral, body), "\n");
            StartsWith(text, "###\n\n") && |text| > 0 && text[|text| - 1] == '\n'
  {
    var lines := Assemble(op, url, verb, numeral, body);
    BlockFraming(op, url, verb, numeral, body);
    var text := Join(lines, "\n");
    assert text == "###" + "\n" + Join(lines[1..], "\n");
    assert Join(lines[1..], "\n") == "" + "\n" + Join(lines[2..], "\n");
    JoinEndsWithEmpty(lines[2..], "\n");
  }
}
