# HTTP request file generator, modelled in Dafny

`scripts/generate-http.js` turns an OpenAPI document into `.http` request
files, one per source directory. It runs in five steps:

1. It indexes the source tree. Every directory whose `operations.tsp` declares
   `@route("...")` literals is recorded under its relative path.
2. It takes every operation of the document's `paths` and routes it to the
   directory owning the longest declared route that matches the operation's
   path. A `{param}` segment of a route matches one non-empty path segment.
3. For each directory it writes a file. The file starts with a variables
   section: one `@param = {{PARAM}}` line per path parameter, sorted.
4. The variables section is followed by one request block per operation. A
   block holds a title, a description, the request line, a content-type
   header and an example body.
5. The example body is synthesised from the request schema. `$ref` pointers
   are followed, and placeholders fill in scalar properties.

The model keeps every step of that computation and leaves out the file
system, YAML parsing, JSON printing and the console. The pieces are:

- `Wrappers`: `Option`, and `Outcome` for results that may throw.
- `Text`: splitting, joining, `indexOf`, `replace` with a string pattern,
  ASCII upper-casing, and string order.
- `Assoc`: insertion-ordered maps (`Map`, plain objects) as association lists.
- `JsValue`: the JSON values the document holds. It also models JavaScript
  truthiness, property reads that throw on `null`, and `Object.entries`.
- `RouteScanner`: parseTspRoutes.
- `DirectoryIndex`: scanOperationsDirs and scanDir, over an abstract
  directory tree.
- `PathTemplate`: extractPathParams, and the route-to-path match that
  findDirForPath builds from a regular expression.
- `DirectoryMatcher`: findDirForPath.
- `SchemaExample`: resolveRef and getSchemaExample.
- `RequestUrl`: the path-parameter replacement loop and the `/api` strip of
  the request line.
- `RequestRenderer`: generateHttpRequest.
- `Variables`: generateVariables.
- `Generator`: the grouping loop and the content assembly of
  generateHttpFiles.

A JavaScript exception is modelled as the outcome `Thrown`. It can be a
`TypeError` from reading a property of `null`, or a stack overflow on a
cyclic `$ref`. getSchemaExample has no recursion bound in the source. The
model gives it a `fuel` parameter that stands for the remaining call stack.
With fuel exhausted the call throws. A reference cycle throws for every
fuel (`SchemaExample.CycleThrows`).

findDirForPath replaces the best match only on a strictly longer route
(`scripts/generate-http.js:81`). Of two matching routes of equal length,
the first one enumerated therefore wins.

## Model

| member | source | states |
|---|---|---|
| Text.Split | scripts/generate-http.js:95 | `split` with a one-character separator gives at least one piece, and no piece contains the separator |
| Text.JoinSplit | scripts/generate-http.js:95 | joining the pieces of a split with the same separator gives the string back |
| Text.SplitJoin | scripts/generate-http.js:95 | splitting a join of separator-free pieces gives the pieces back |
| Text.IndexOf | scripts/generate-http.js:180 | the result is the leftmost occurrence of the pattern, and `None` means there is no occurrence |
| Text.FindChar | scripts/generate-http.js:16 | the first position of a character; `None` means the character does not occur |
| Text.ReplaceFirst | scripts/generate-http.js:180 | `replace` with a string pattern leaves a text without an occurrence of the pattern unchanged |
| Text.ReplaceAt | scripts/generate-http.js:180 | an occurrence of the pattern with no earlier occurrence is the one replaced, and the text around it is kept |
| Text.UpperAscii | scripts/generate-http.js:197 | upper-casing keeps the length and maps each character through the ASCII case map |
| Text.BelowTransitive | scripts/generate-http.js:242 | the default sort order of strings is transitive |
| Text.BelowTotal | scripts/generate-http.js:242 | any two different strings are ordered one way or the other |
| Text.BelowAsymmetric | scripts/generate-http.js:242 | the order is asymmetric |
| Assoc.Lookup | scripts/generate-http.js:282 | a key is found exactly when some entry has it, and the value found is that of an entry with the key |
| Assoc.Put | scripts/generate-http.js:41 | `set` makes the key map to the value and leaves every other key as it was; entries only come from the map or the write, and the size grows by at most one |
| Assoc.PutDistinct | scripts/generate-http.js:41 | repeated `set` never creates a duplicate key |
| Assoc.PutAllEntries | scripts/generate-http.js:41 | after a series of `set` calls every entry comes from the map or a write, and every written key is present |
| JsValue.IndexNameRoundTrip | scripts/generate-http.js:129 | the key `Object.entries` gives an array or string slot reads back as the same index |
| JsValue.EntriesReadBack | scripts/generate-http.js:129 | `Object.entries` and a property read throw on the same values, and every entry `[k, x]` of an object with distinct keys, an array or a string reads back: `v[k]` is `x` |
| RouteScanner.LiteralAt | scripts/generate-http.js:16 | a recognised route body is non-empty and free of `"`, and the text starts with its `@route("...")` literal |
| RouteScanner.LiteralAtComplete | scripts/generate-http.js:16 | a route literal at the start of the text is always recognised, whatever follows it |
| RouteScanner.ParseTspRoutes | scripts/generate-http.js:9-24 | a missing file gives no routes; otherwise the loop over `exec` gives the routes of the scan, in order |
| RouteScanner.RoutesAreLiterals | scripts/generate-http.js:16-21 | every route found is a valid body whose literal occurs in the text |
| RouteScanner.NoMarkerNoRoutes | scripts/generate-http.js:16-21 | text without `@` holds no route |
| RouteScanner.SkipFiller | scripts/generate-http.js:16-21 | text at none of whose positions a route literal starts is skipped over, whatever follows it |
| RouteScanner.QuietSkipped | scripts/generate-http.js:16-21 | no route literal starts inside text that holds no marker and ends in no beginning of one, such as decorators like `@get` or `@doc(...)` |
| RouteScanner.ScanDecorated | scripts/generate-http.js:9-24 | scanning a file whose route literals are surrounded by such text gives back exactly their bodies, in order and with duplicates kept |
| RouteScanner.ScanDeclarations | scripts/generate-http.js:16-21 | scanning a file of route literals gives back exactly their bodies, in order and with duplicates kept |
| DirectoryIndex.DeclarationOf | scripts/generate-http.js:34 | nothing is found exactly when the listing has no regular file named `operations.tsp`, and otherwise the content of the first such file |
| DirectoryIndex.ScanDir | scripts/generate-http.js:30-58 | the recursive walk records into the map exactly the writes of the visit of the directory |
| DirectoryIndex.ScanOperationsDirs | scripts/generate-http.js:27-62 | each entry of the index describes a reachable directory and its non-empty routes, and every reachable directory that declares a route is indexed under its path |
| DirectoryIndex.IndexSound | scripts/generate-http.js:36-46 | every recorded entry is a directory reached through non-hidden subdirectories, keyed by its `/`-joined path (`.` for the root), holding its non-empty declared routes |
| DirectoryIndex.IndexComplete | scripts/generate-http.js:36-55 | every reachable directory with at least one route is recorded, whether or not the directories above it are |
| DirectoryIndex.VisitSound | scripts/generate-http.js:30-58 | every write of the walk describes a directory below the one walked |
| DirectoryIndex.VisitComplete | scripts/generate-http.js:49-55 | the walk writes every reachable declaring directory under its key |
| DirectoryIndex.HiddenIgnored | scripts/generate-http.js:51 | a subdirectory whose name starts with `.` makes no difference to the index, wherever the listing puts it |
| PathTemplate.ParamAt | scripts/generate-http.js:150 | a recognised parameter name is non-empty and free of `}`, and the text starts with `{name}` |
| PathTemplate.ParamAtComplete | scripts/generate-http.js:150 | a `{name}` at the start of the text is always recognised |
| PathTemplate.Tokens | scripts/generate-http.js:150-154 | every parameter token found carries a valid name |
| PathTemplate.SpellTokens | scripts/generate-http.js:150-154 | the tokenisation loses nothing: spelling the tokens gives the URL back |
| PathTemplate.ExtractPathParams | scripts/generate-http.js:148-156 | the loop over `exec` gives the parameter names of the URL in order, repeats kept, each a valid name |
| PathTemplate.MatchesSound | scripts/generate-http.js:73-79 | a path the route pattern matches starts with the route filled with one non-empty, slash-free segment per parameter |
| PathTemplate.MatchesComplete | scripts/generate-http.js:73-79 | a path that starts with such a filling is matched |
| PathTemplate.RouteMatchesInstance | scripts/generate-http.js:73-79 | a route matches a path exactly when the path starts with the route with each parameter replaced by one path segment |
| PathTemplate.LiteralRouteMatches | scripts/generate-http.js:73-79 | a route without parameters matches exactly the paths it is a prefix of, with no segment boundary needed after it |
| DirectoryMatcher.BestIndexSpec | scripts/generate-http.js:66-89 | the scan chooses nothing exactly when no non-empty route matches, and otherwise chooses the first of the longest matching routes |
| DirectoryMatcher.FindDirForPath | scripts/generate-http.js:65-90 | the nested loops return the directory the scan chooses |
| DirectoryMatcher.BestDirSpec | scripts/generate-http.js:65-90 | the result is `null` exactly when no route matches, and otherwise the owner of a longest matching route that is strictly longer than every earlier match |
| DirectoryMatcher.BestDirIndexed | scripts/generate-http.js:65-90 | the directory returned is a directory of the index |
| SchemaExample.Walk | scripts/generate-http.js:96-100 | the walk throws exactly when it has a segment to read from `null`; from any other value it gives the value at the segments when every read is truthy, and `null` as soon as one read is falsy |
| SchemaExample.Resolve | scripts/generate-http.js:93-102 | resolveRef throws exactly when a truthy reference is not a string, or is a `#/` string while the document is `null`; a non-null result comes from a `#/` reference and is truthy |
| SchemaExample.ResolveRef | scripts/generate-http.js:93-102 | the loop over the segments gives the resolution |
| SchemaExample.RefRoundTrip | scripts/generate-http.js:94-101 | a `#/` pointer built from slash-free segments resolves to the value reached by reading those segments, and to `null` when one of the reads is falsy (a dangling pointer) |
| SchemaExample.DanglingRef | scripts/generate-http.js:109-145 | a node whose `$ref` dangles falls through to its own `examples`, `example` and properties, as if it had no `$ref` |
| SchemaExample.FalsySchemaNull | scripts/generate-http.js:106 | a falsy schema has the example `null` |
| SchemaExample.FuelMonotone | scripts/generate-http.js:105-145 | once an example is produced with some stack, any larger stack produces the same example |
| SchemaExample.NoRecursion | scripts/generate-http.js:106-124 | where the function does not call itself, the result does not depend on the stack left |
| SchemaExample.CycleThrows | scripts/generate-http.js:109-113 | a `$ref` cycle throws for every fuel, as the unbounded recursion overflows the stack |
| SchemaExample.NoFuelThrows | scripts/generate-http.js:105 | with no stack left every call throws |
| SchemaExample.RefPrecedence | scripts/generate-http.js:109-114 | a resolving `$ref` takes precedence over everything else on the node |
| SchemaExample.RefStep | scripts/generate-http.js:109-113 | a node whose `$ref` resolves has the example of its target |
| SchemaExample.ExplicitExamples | scripts/generate-http.js:116-124 | the first element of a non-empty `examples` array wins; otherwise `example` wins whenever it is present, even when it is `null`, `false` or `0` |
| SchemaExample.SynthesizeKeys | scripts/generate-http.js:128-140 | the property loop adds only property names, and adds every property of a string, number, integer or boolean type |
| SchemaExample.SynthesizeValues | scripts/generate-http.js:128-140 | with distinct property names, the loop leaves each property's name holding that property's contribution (its non-null example, else its type's placeholder), or what it held before when the property contributes nothing; other names are untouched |
| SchemaExample.SynthesizeEmpty | scripts/generate-http.js:128-141 | the loop leaves the object empty exactly when it started empty and no property contributes |
| SchemaExample.SynthesizedObject | scripts/generate-http.js:127-142 | a synthesised example is `null` or a non-empty object whose keys are property names; every scalar-typed property is present; and it is `null` exactly when no property contributes |
| SchemaExample.SynthesizedFields | scripts/generate-http.js:127-142 | with distinct property names, each property of the synthesised example holds exactly its contribution and no other name is present |
| SchemaExample.PlaceholderStep | scripts/generate-http.js:130-139 | a property whose own example is `null` contributes its type's placeholder |
| SchemaExample.ObjectStep | scripts/generate-http.js:127-141 | an object schema with no reference and no example gets the object its properties synthesise, when that is non-empty |
| SchemaExample.PlaceholderExample | scripts/generate-http.js:127-141 | a one-property object schema gets its property's placeholder: the nil UUID for a `uuid` string, `0` for an integer |
| SchemaExample.TwoPlaceholders | scripts/generate-http.js:127-141 | an object schema with two scalar-typed properties and no examples gets both placeholders, in property order |
| SchemaExample.IdCountExample | scripts/generate-http.js:127-141 | the schema `{id: uuid string, count: integer}` with no examples gets `{id: "00000000-0000-0000-0000-000000000000", count: 0}` |
| SchemaExample.UuidPlaceholder | scripts/generate-http.js:133-134 | the placeholder of a `uuid` string is the nil UUID |
| SchemaExample.IntegerPlaceholder | scripts/generate-http.js:135-136 | the placeholder of an integer is `0` |
| SchemaExample.NoOwnExample | scripts/generate-http.js:106-145 | a scalar-typed schema with no resolving reference and no example of its own has the example `null`, so it falls back to its placeholder |
| RequestUrl.StripApi | scripts/generate-http.js:195 | a leading `/api` is removed wherever the text starts with it, segment boundary or not, and nothing else changes |
| RequestUrl.MarkedAll | scripts/generate-http.js:179-181 | with every parameter marked, the text is the template filled with each parameter's own variable |
| RequestUrl.ReplaceParamsTemplated | scripts/generate-http.js:175-181 | with pairwise different names free of `{`, the replacement loop writes every parameter, and nothing else, as `{{name}}` |
| RequestUrl.RepeatedName | scripts/generate-http.js:179-181 | a name that occurs twice is replaced inside the first variable the second time round, leaving `{{{x}}}` and a bare `{x}` |
| RequestRenderer.HeadingLines | scripts/generate-http.js:167-172 | a title line is pushed when `summary` is truthy, and a description line when `description` is truthy |
| RequestRenderer.WritePathVariables | scripts/generate-http.js:175-181 | the loop replaces the extracted names one after the other |
| RequestRenderer.ScanQueryParameters | scripts/generate-http.js:184-191 | the query-parameter scan completes exactly when no entry of an array `parameters` is `null` |
| RequestRenderer.ExampleBody | scripts/generate-http.js:205-214 | the body lines read step by step are an empty line and the printed example, when the JSON schema yields a truthy example |
| RequestRenderer.GenerateHttpRequest | scripts/generate-http.js:159-219 | pushing the lines one at a time gives the rendered block, or throws where the block throws |
| RequestRenderer.BlockFraming | scripts/generate-http.js:163-216 | a block opens with `###` and an empty line, has the request line right after the heading, and closes with an empty line |
| RequestRenderer.TitleIffSummary | scripts/generate-http.js:167-169 | the third line is a title exactly when `summary` is truthy |
| RequestRenderer.DescriptionIff | scripts/generate-http.js:170-172 | the line after the title, or the third line without a title, is a description exactly when `description` is truthy |
| RequestRenderer.RequestLineNotTagged | scripts/generate-http.js:197 | a request line never starts with `# @title ` or `# @description `, as its method is upper-cased |
| RequestRenderer.ContentTypeIffRequestBody | scripts/generate-http.js:200-202 | the line after the request line is the JSON content-type header exactly when `requestBody` is truthy |
| RequestRenderer.NoRequestBodyNoBody | scripts/generate-http.js:200-214 | without a truthy `requestBody` the block has neither a header nor a body |
| RequestRenderer.BodyIff | scripts/generate-http.js:205-214 | there are body lines exactly when the request body has a JSON schema whose example is truthy |
| RequestRenderer.NoExampleNoBody | scripts/generate-http.js:205-216 | without a JSON schema, or with a falsy example, the block ends after the request line and any content-type header with the closing empty line |
| RequestRenderer.ExampleClosesBlock | scripts/generate-http.js:205-216 | with a truthy example the block ends with the header, an empty line, the printed example and the closing empty line |
| RequestRenderer.RequestThrows | scripts/generate-http.js:159-219 | the block throws exactly when the operation is `null`, when `parameters` holds a `null` entry, or when the body example throws |
| RequestRenderer.RequestLineTemplated | scripts/generate-http.js:179-197 | the request line is the upper-cased method, `{{BASE_URL}}` and the path with every parameter as a variable and a leading `/api` dropped |
| RequestRenderer.BlockText | scripts/generate-http.js:216-218 | the block text starts with `###` and an empty line and ends with a line break |
| Variables.IdCaseRedundant | scripts/generate-http.js:231-237 | the special case for `id` changes nothing, since the general rule already gives `ID` |
| Variables.DisplayNameUpper | scripts/generate-http.js:231-237 | a placeholder name has no lower-case ASCII letter |
| Variables.CamelToScreaming | scripts/generate-http.js:231-234 | a camel-case name `orgSlug` becomes `ORG_SLUG`: its words upper-cased and joined by underscores |
| Variables.Add | scripts/generate-http.js:238 | `Set.add` keeps the elements distinct and adds exactly the new one |
| Variables.AddAll | scripts/generate-http.js:227-239 | adding several lines keeps them distinct and adds exactly those lines |
| Variables.AddParameters | scripts/generate-http.js:226-239 | the inner loop adds the declaration of each path parameter of one operation |
| Variables.CollectedSpec | scripts/generate-http.js:225-240 | the collected lines are pairwise different and are exactly the declarations of the operations' path parameters |
| Variables.Sort | scripts/generate-http.js:242 | sorting is a permutation |
| Variables.SortAscending | scripts/generate-http.js:242 | sorting pairwise different strings puts them in strictly ascending order |
| Variables.AscendingUnique | scripts/generate-http.js:242 | two ascending arrangements of the same strings are equal |
| Variables.GenerateVariables | scripts/generate-http.js:222-243 | the loops and the sort give the variables section |
| Variables.VariablesSection | scripts/generate-http.js:222-243 | the section lists, in strictly ascending order, each declaration of a path parameter of the operations exactly once |
| Variables.SameDeclarationsSameSection | scripts/generate-http.js:222-243 | operations declaring the same parameters give the same section, whatever their order and repeats |
| Generator.PathOperations | scripts/generate-http.js:272 | `Object.entries` of a path item throws exactly when the path item is `null` |
| Generator.GroupedSpec | scripts/generate-http.js:271-292 | each directory's group holds exactly the operations whose stripped path matches it, in document order; unmatched operations are in no group; no directory has two groups |
| Generator.GroupEntries | scripts/generate-http.js:277-290 | every group is non-empty, and every operation in a group is matched to that group's directory |
| Generator.GroupsIndexed | scripts/generate-http.js:275-283 | every group belongs to a directory of the index |
| Generator.GroupOperations | scripts/generate-http.js:271-292 | the nested loop fills the map with the groups, or throws when `paths` is missing or holds a `null` path item |
| Generator.GroupPath | scripts/generate-http.js:272-291 | the inner loop adds one path item's operations to the groups |
| Generator.GroupOne | scripts/generate-http.js:274-290 | one operation is appended to its directory's list, which is created if need be; an unmatched one is skipped |
| Generator.RenderFile | scripts/generate-http.js:304-307 | a file's content is the variables section, an empty line, and the request blocks joined by line breaks |
| Generator.WriteFiles | scripts/generate-http.js:295-313 | the writing loop writes the groups' files in order until one of them throws |
| Generator.GenerateHttpFiles | scripts/generate-http.js:246-316 | the scan, the grouping and the writing loop together give the run |
| Generator.EmitSpec | scripts/generate-http.js:295-313 | the files written are a prefix of the groups, each with its own content; the run completes exactly when every group is written, and otherwise stops at a group that throws |
| Generator.EmittedGroups | scripts/generate-http.js:295-313 | no file is written twice |
| Generator.WrittenAt | scripts/generate-http.js:295-311 | each file written belongs to a directory of the index, and holds the content of that directory's non-empty list of matched operations |
| Generator.WrittenFiles | scripts/generate-http.js:246-316 | a run over a readable document writes each file at most once, each the file of a directory of the index |
| Generator.OutputPathInjective | scripts/generate-http.js:296-310 | distinct directories get distinct output files |
| Generator.BrokenDocumentWritesNothing | scripts/generate-http.js:271-272 | a document that cannot be read, or whose `paths` is missing, `null` or holds a `null` path item, stops the run before any file is written |
| Generator.NullItem | scripts/generate-http.js:271-272 | one `null` path item anywhere in `paths` makes the loop over the paths throw |
| Generator.RequestsSpec | scripts/generate-http.js:305 | each block of a file is the rendering of its operation, in order |
| Generator.FileLayout | scripts/generate-http.js:304-307 | a file opens with its variables section, an empty line, and the first block's `###` line |

## Left out

- The file system is not modelled: `existsSync`, `readdirSync`, `readFileSync` and `writeFileSync`. The source tree is a datatype, a declaration file's content is an optional string, and the files written are a list of (path, content) pairs.
- The existence check on each target directory before writing is not modelled, because every group's directory comes from the scan of that same tree.
- `tspPath` and `fullPath` in the index entries are not modelled; only the routes are ever read.
- scanDir's boolean return value is not modelled; the caller ignores it.
- `yaml.load` is not modelled. The loaded document is an optional JSON value, and duplicate YAML keys are out of scope.
- `JSON.stringify(example, null, 2)` and the printing of numbers in template literals are parameters of the model (`Printers`). Only where a printed value goes is modelled.
- Console output, `process.exit`, the missing-spec check and the top-level call are not modelled.
- `toUpperCase` is modelled on ASCII letters only; other characters are left unchanged.
- String order is order by character code, as in the default comparator of `sort`.
- A string is a sequence of characters, not of UTF-16 code units, so a character outside the Basic Multilingual Plane counts as one where JavaScript sees a surrogate pair of two. This affects the string order above, `route.length` in the tie-break at `scripts/generate-http.js:81`, the `length` and index reads of a string (`JsValue.Member`), and `Object.entries` of a string (`JsValue.OwnEntries`).
- Route patterns are matched as literal text plus `{name}` segments. Other regular-expression metacharacters in a declared route are not modelled.
- Property reads see only own fields, array and string indexes and `length`; inherited properties such as `toString` are not modelled.
- `Object.entries` lists an object's fields in stored order. JavaScript puts integer-like keys first; that reordering is not modelled.
- A `__proto__` key is not modelled.
- Replacement strings are taken literally; `$` patterns in a parameter name are not modelled.
- Numbers are reals; `NaN` and infinities are not modelled.
- The query-parameter collection has no effect on the output. It is modelled only for the `TypeError` it raises on a `null` entry of `parameters`.
- The unused `spec` argument of generateVariables is not modelled.
- SchemaExample.GetSchemaExample: the `fuel` bound is an addition. It stands for the call stack: a run that exhausts it throws, as a stack overflow would.
- SchemaExample.PlaceholderExample: states the placeholders for a one-property schema only. For any number of distinctly named properties, `SynthesizedFields` gives each property's value.
- SchemaExample.SynthesizedFields: gives each key's value, not the order of the keys. Property order is stated for two properties, by `TwoPlaceholders`.
- SchemaExample.SynthesizeValues: needs distinct property names, which every object of a parsed JSON document has. With a repeated name the last contribution wins, and the model does the same, but that case is not stated.
- RequestRenderer.GenerateHttpRequest: always appends the header lines, as an empty list when there is no `requestBody`. The resulting lines are the same as the source's conditional push.
- scripts/patch-openapi.js and orval.config.js are not part of this model: one is a fixed rewrite of a YAML file, the other static configuration.
