/** generateHttpFiles: the operations of the loaded OpenAPI document grouped
    by the directory whose route matches their path, and one `.http` file
    per group. */
module Generator {
  import opened Wrappers
  import opened Text
  import opened Assoc
  import opened JsValue
  import opened DirectoryIndex
  import opened DirectoryMatcher
  import opened RequestUrl
  import opened RequestRenderer
  import opened Variables

  // ---------------------------------------------------------------------
  // The operations of the document

  /** The operations under one path, in the order of its method keys;
      `Object.entries` of a `null` path item throws. */
  function PathOperations(url: string, methods: Value): (r: Outcome<seq<Operation>>)
    ensures r.Thrown? <==> methods.Null?
  {
    match Entries(Some(methods))
    case Thrown => Thrown
    case Done(es) => Done(MethodOperations(url, es))
  }

  /** One operation per method entry of a path item, in order. */
  function MethodOperations(url: string, es: seq<(string, Value)>): (r: seq<Operation>)
    ensures |r| == |es|
    ensures forall j :: 0 <= j < |es| ==> r[j] == Operation(url, es[j].0, es[j].1)
  {
    seq(|es|, j requires 0 <= j < |es| => Operation(url, es[j].0, es[j].1))
  }

  function AllOperations(paths: seq<(string, Value)>): Outcome<seq<Operation>>
    decreases |paths|
  {
    if paths == [] then Done([])
    else
      match AllOperations(paths[..|paths| - 1])
      case Thrown => Thrown
      case Done(before) =>
        var last := paths[|paths| - 1];
        match PathOperations(last.0, last.1)
        case Thrown => Thrown
        case Done(more) => Done(before + more)
  }

  /** Every operation of `spec.paths`, paths in document order and methods
      in path-item order; the loop throws when the document or its `paths`
      is missing or a path item is `null`. */
  function Operations(spec: Option<Value>): Outcome<seq<Operation>> {
    match Get(spec, "paths")
    case Thrown => Thrown
    case Done(paths) =>
      match Entries(paths)
      case Thrown => Thrown
      case Done(es) => AllOperations(es)
  }

  // ---------------------------------------------------------------------
  // Grouping

  type Groups = seq<(string, seq<Operation>)>

  /** The directory an operation goes to: the match of its path with a
      leading `/api` removed. */
  function Target(index: Index, o: Operation): Option<string> {
    BestDir(index, StripApi(o.url))
  }

  function Existing(groups: Groups, dir: string): seq<Operation> {
    match Lookup(groups, dir)
    case None => []
    case Some(ops) => ops
  }

  /** The groups after the loop over `ops`: each matched operation appended
      to its directory's list, a new directory added at the end. */
  function Grouped(index: Index, ops: seq<Operation>): Groups
    decreases |ops|
  {
    if ops == [] then []
    else
      var groups := Grouped(index, ops[..|ops| - 1]);
      var o := ops[|ops| - 1];
      match Target(index, o)
      case None => groups
      case Some(dir) => Put(groups, dir, Existing(groups, dir) + [o])
  }

  /** The operations that go to `dir`, in their order. */
  function Matched(index: Index, ops: seq<Operation>, dir: string): (r: seq<Operation>)
    ensures forall o :: o in r ==> o in ops && Target(index, o) == Some(dir)
    decreases |ops|
  {
    if ops == [] then []
    else
      var o := ops[|ops| - 1];
      Matched(index, ops[..|ops| - 1], dir) + (if Target(index, o) == Some(dir) then [o] else [])
  }

  /** The group `dir` should have: its matched operations, if any. */
  function Expected(index: Index, ops: seq<Operation>, dir: string): Option<seq<Operation>> {
    var m := Matched(index, ops, dir);
    if m == [] then None else Some(m)
  }

  /** Each directory's group is exactly its matched operations in order,
      a directory has a group exactly when some operation matched it, and
      no directory has two. */
  ghost predicate GroupedAsMatched(index: Index, ops: seq<Operation>) {
    DistinctKeys(Grouped(index, ops)) &&
    forall dir :: Lookup(Grouped(index, ops), dir) == Expected(index, ops, dir)
  }

  lemma {:induction false} GroupedSpec(index: Index, ops: seq<Operation>)
    ensures GroupedAsMatched(index, ops)
    decreases |ops|
  {
    if ops != [] {
      GroupedSpec(index, ops[..|ops| - 1]);
      GroupedStep(index, ops);
    }
  }

  lemma GroupedStep(index: Index, ops: seq<Operation>)
    requires ops != [] && GroupedAsMatched(index, ops[..|ops| - 1])
    ensures GroupedAsMatched(index, ops)
  {
    var init, o := ops[..|ops| - 1], ops[|ops| - 1];
    var groups := Grouped(index, init);
    if Target(index, o).Some? {
      PutDistinct(groups, Target(index, o).value, Existing(groups, Target(index, o).value) + [o]);
    }
    forall dir
      ensures Lookup(Grouped(index, ops), dir) == Expected(index, ops, dir)
    {
      GroupedStepAt(index, ops, dir);
    }
  }

  lemma GroupedStepAt(index: Index, ops: seq<Operation>, dir: string)
    requires ops != []
    requires Lookup(Grouped(index, ops[..|ops| - 1]), dir) == Expected(index, ops[..|ops| - 1], dir)
    ensures Lookup(Grouped(index, ops), dir) == Expected(index, ops, dir)
  {
    var init, o := ops[..|ops| - 1], ops[|ops| - 1];
    var groups := Grouped(index, init);
    assert Existing(groups, dir) == Matched(index, init, dir);
    if Target(index, o) == Some(dir) {
      assert Lookup(Grouped(index, ops), dir) == Some(Matched(index, init, dir) + [o]);
    } else {
      assert Lookup(Grouped(index, ops), dir) == Lookup(groups, dir);
      assert Matched(index, init, dir) + [] == Matched(index, init, dir);
    }
  }

  /** Every group is non-empty and holds the matched operations of its
      directory; an operation that matches no directory is in no group. */
  lemma GroupEntries(index: Index, ops: seq<Operation>)
    ensures forall i :: 0 <= i < |Grouped(index, ops)| ==>
              Grouped(index, ops)[i].1 == Matched(index, ops, Grouped(index, ops)[i].0) != []
    ensures forall o, i :: 0 <= i < |Grouped(index, ops)| && o in Grouped(index, ops)[i].1 ==>
              Target(index, o) == Some(Grouped(index, ops)[i].0)
  {
    var groups := Grouped(index, ops);
    GroupedSpec(index, ops);
    forall i | 0 <= i < |groups|
      ensures groups[i].1 == Matched(index, ops, groups[i].0) != []
    {
      LookupEntry(groups, i);
    }
  }

  /** Every group belongs to a directory of the index. */
  lemma GroupsIndexed(index: Index, ops: seq<Operation>)
    ensures forall i :: 0 <= i < |Grouped(index, ops)| ==>
              exists j :: 0 <= j < |index| && index[j].0 == Grouped(index, ops)[i].0
  {
    var groups := Grouped(index, ops);
    GroupEntries(index, ops);
    forall i | 0 <= i < |groups|
      ensures exists j :: 0 <= j < |index| && index[j].0 == groups[i].0
    {
      var o := groups[i].1[0];
      assert o in groups[i].1;
      BestDirIndexed(index, StripApi(o.url));
    }
  }

  // ---------------------------------------------------------------------
  // The files

  /** The request blocks of a group, in order; the first block that throws
      ends the generator. */
  function Requests(ops: seq<Operation>, spec: Value, fuel: nat, pr: Printers): Outcome<seq<string>>
    decreases |ops|
  {
    if ops == [] then Done([])
    else
      match Requests(ops[..|ops| - 1], spec, fuel, pr)
      case Thrown => Thrown
      case Done(before) =>
        var o := ops[|ops| - 1];
        match RenderRequest(o.op, o.url, o.verb, spec, fuel, pr)
        case Thrown => Thrown
        case Done(block) => Done(before + [block])
  }

  /** The content of a group's file: the variables section, an empty line,
      then the request blocks separated by line breaks. */
  function FileContent(ops: seq<Operation>, spec: Value, fuel: nat, pr: Printers): Outcome<string> {
    match Requests(ops, spec, fuel, pr)
    case Thrown => Thrown
    case Done(blocks) => Done(VariablesText(ops) + "\n\n" + Join(blocks, "\n"))
  }

  /** `path.join("src", dir, "operations.http")`: the root directory, keyed
      `.`, writes directly under `src`. */
  function OutputPath(dir: string): string {
    if dir == "." then "src/operations.http" else "src/" + dir + "/operations.http"
  }

  /** What a run leaves behind: the files written, in order, and whether it
      ran to the end rather than stopping at an exception. */
  datatype Run = Run(writes: seq<(string, string)>, completed: bool)

  /** What each group's file would hold, group by group. */
  function Contents(groups: Groups, spec: Value, fuel: nat, pr: Printers): (r: seq<Outcome<string>>)
    ensures |r| == |groups|
    decreases |groups|
  {
    if groups == [] then [] else [FileContent(groups[0].1, spec, fuel, pr)] + Contents(groups[1..], spec, fuel, pr)
  }

  /** Group `i`'s entry is its file's content. */
  lemma {:induction false} ContentAt(groups: Groups, i: nat, spec: Value, fuel: nat, pr: Printers, content: Outcome<string>)
    requires i < |groups|
    requires FileContent(groups[i].1, spec, fuel, pr) == content
    ensures Contents(groups, spec, fuel, pr)[i] == content
    decreases i
  {
    if i > 0 {
      ContentAt(groups[1..], i - 1, spec, fuel, pr, content);
    }
  }

  /** The converse of `ContentAt`: the entry tells the file's content. */
  lemma {:induction false} ContentIs(groups: Groups, i: nat, spec: Value, fuel: nat, pr: Printers, content: Outcome<string>)
    requires i < |groups|
    requires Contents(groups, spec, fuel, pr)[i] == content
    ensures FileContent(groups[i].1, spec, fuel, pr) == content
    decreases i
  {
    if i > 0 {
      ContentIs(groups[1..], i - 1, spec, fuel, pr, content);
    }
  }

  /** Writing the groups' files in order until one of them throws;
      `contents[i]` is what group `i`'s file holds. */
  function Emit(groups: Groups, contents: seq<Outcome<string>>): Run
    requires |contents| == |groups|
    decreases |groups|
  {
    if groups == [] then Run([], true)
    else
      match contents[0]
      case Thrown => Run([], false)
      case Done(content) =>
        var rest := Emit(groups[1..], contents[1..]);
        Run([(OutputPath(groups[0].0), content)] + rest.writes, rest.completed)
  }

  /** A whole run over a source tree and a loaded document. */
  function Generate(root: seq<Node>, spec: Option<Value>, fuel: nat, pr: Printers): Run {
    var index := PutAll([], Visit(root, ""));
    match Operations(spec)
    case Thrown => Run([], false)
    case Done(ops) =>
      var groups := Grouped(index, ops);
      Emit(groups, Contents(groups, spec.value, fuel, pr))
  }

  // ---------------------------------------------------------------------
  // The loops

  /** The nested loop over `Object.entries(spec.paths)` and each path
      item's methods, filling the map from directory to operations. */
  method GroupOperations(spec: Option<Value>, index: Index) returns (groups: Outcome<Groups>)
    ensures Operations(spec).Thrown? ==> groups.Thrown?
    ensures Operations(spec).Done? ==> groups == Done(Grouped(index, Operations(spec).value))
  {
    var paths := Get(spec, "paths");
    if paths.Thrown? {
      return Thrown;
    }
    var entries := Entries(paths.value);
    if entries.Thrown? {
      return Thrown;
    }
    var es := entries.value;
    var result: Groups := [];
    ghost var done: seq<Operation> := [];
    for i := 0 to |es|
      invariant AllOperations(es[..i]) == Done(done)
      invariant result == Grouped(index, done)
    {
      AllOperationsStep(es, i, done);
      var methods := Entries(Some(es[i].1));
      if methods.Thrown? {
        AllOperationsThrownPrefix(es, i + 1);
        return Thrown;
      }
      result := GroupPath(index, es[i].0, methods.value, result, done);
      done := done + MethodOperations(es[i].0, methods.value);
    }
    assert es[..|es|] == es;
    return Done(result);
  }

  lemma AllOperationsStep(es: seq<(string, Value)>, i: nat, done: seq<Operation>)
    requires i < |es|
    requires AllOperations(es[..i]) == Done(done)
    ensures AllOperations(es[..i + 1])
            == match PathOperations(es[i].0, es[i].1)
               case Thrown => Thrown
               case Done(more) => Done(done + more)
  {
    assert es[..i + 1][..i] == es[..i];
  }

  /** Once a path item throws, the whole loop throws. */
  lemma {:induction false} AllOperationsThrownPrefix(es: seq<(string, Value)>, k: nat)
    requires k <= |es|
    requires AllOperations(es[..k]).Thrown?
    ensures AllOperations(es).Thrown?
    decreases |es| - k
  {
    if k < |es| {
      var next := es[..k + 1];
      assert next[..k] == es[..k];
      assert AllOperations(next).Thrown?;
      AllOperationsThrownPrefix(es, k + 1);
    } else {
      assert es[..k] == es;
    }
  }

  /** The inner loop over one path item's methods. */
  method GroupPath(index: Index, url: string, ms: seq<(string, Value)>, groups: Groups, ghost done: seq<Operation>)
    returns (result: Groups)
    requires groups == Grouped(index, done)
    ensures result == Grouped(index, done + MethodOperations(url, ms))
  {
    ghost var seen := done;
    result := groups;
    assert MethodOperations(url, ms[..0]) == [];
    for j := 0 to |ms|
      invariant seen == done + MethodOperations(url, ms[..j])
      invariant result == Grouped(index, seen)
    {
      var o := Operation(url, ms[j].0, ms[j].1);
      result := GroupOne(index, o, result, seen);
      MethodOperationsSnoc(url, ms, j);
      seen := seen + [o];
    }
    assert ms[..|ms|] == ms;
  }

  lemma MethodOperationsSnoc(url: string, ms: seq<(string, Value)>, j: nat)
    requires j < |ms|
    ensures MethodOperations(url, ms[..j + 1]) == MethodOperations(url, ms[..j]) + [Operation(url, ms[j].0, ms[j].1)]
  {
  }

  /** One step of the inner loop: find the operation's directory and push
      the operation onto that directory's list, creating it if need be. */
  method GroupOne(index: Index, o: Operation, groups: Groups, ghost seen: seq<Operation>) returns (result: Groups)
    requires groups == Grouped(index, seen)
    ensures result == Grouped(index, seen + [o])
  {
    var targetDir := FindDirForPath(StripApi(o.url), index);
    GroupedSnoc(index, seen, o, groups, targetDir);
    result := groups;
    if targetDir.Some? {
      result := Put(result, targetDir.value, Existing(result, targetDir.value) + [o]);
    }
  }

  lemma GroupedSnoc(index: Index, ops: seq<Operation>, o: Operation, groups: Groups, target: Option<string>)
    requires groups == Grouped(index, ops)
    requires target == Target(index, o)
    ensures target.None? ==> Grouped(index, ops + [o]) == groups
    ensures target.Some? ==> Grouped(index, ops + [o]) == Put(groups, target.value, Existing(groups, target.value) + [o])
  {
    assert (ops + [o])[..|ops|] == ops;
  }
  /** One group's file: generateVariables, then generateHttpRequest for
      each operation, joined. */
  method RenderFile(ops: seq<Operation>, spec: Value, fuel: nat, pr: Printers) returns (content: Outcome<string>)
    ensures content == FileContent(ops, spec, fuel, pr)
  {
    var variables := GenerateVariables(ops);
    var blocks: seq<string> := [];
    for i := 0 to |ops|
      invariant Requests(ops[..i], spec, fuel, pr) == Done(blocks)
    {
      var block := GenerateHttpRequest(ops[i].op, ops[i].url, ops[i].verb, spec, fuel, pr);
      RequestsStep(ops, i, spec, fuel, pr, blocks);
      if block.Thrown? {
        RequestsThrownPrefix(ops, i + 1, spec, fuel, pr);
        return Thrown;
      }
      blocks := blocks + [block.value];
    }
    assert ops[..|ops|] == ops;
    content := Done(variables + "\n\n" + Join(blocks, "\n"));
  }

  lemma RequestsStep(ops: seq<Operation>, i: nat, spec: Value, fuel: nat, pr: Printers, blocks: seq<string>)
    requires i < |ops|
    requires Requests(ops[..i], spec, fuel, pr) == Done(blocks)
    ensures Requests(ops[..i + 1], spec, fuel, pr)
            == match RenderRequest(ops[i].op, ops[i].url, ops[i].verb, spec, fuel, pr)
               case Thrown => Thrown
               case Done(block) => Done(blocks + [block])
  {
    assert ops[..i + 1][..i] == ops[..i];
  }

  /** Once a block throws, the whole file throws. */
  lemma {:induction false} RequestsThrownPrefix(ops: seq<Operation>, k: nat, spec: Value, fuel: nat, pr: Printers)
    requires k <= |ops|
    requires Requests(ops[..k], spec, fuel, pr).Thrown?
    ensures Requests(ops, spec, fuel, pr).Thrown?
    decreases |ops| - k
  {
    if k < |ops| {
      var next := ops[..k + 1];
      assert next[..k] == ops[..k];
      assert Requests(next, spec, fuel, pr).Thrown?;
      RequestsThrownPrefix(ops, k + 1, spec, fuel, pr);
    } else {
      assert ops[..k] == ops;
    }
  }

  /** The loop over the groups writing one file each. */
  method WriteFiles(groups: Groups, spec: Value, fuel: nat, pr: Printers)
    returns (writes: seq<(string, string)>, completed: bool)
    ensures Run(writes, completed) == Emit(groups, Contents(groups, spec, fuel, pr))
  {
    ghost var contents := Contents(groups, spec, fuel, pr);
    writes := [];
    EmitResumes(groups, contents);
    for i := 0 to |groups|
      invariant Resumes(groups, contents, i, writes)
    {
      var content := RenderGroup(groups, i, spec, fuel, pr);
      if content.Thrown? {
        ResumesStop(groups, contents, i, writes);
        return writes, false;
      }
      ResumesStep(groups, contents, i, writes);
      writes := writes + [(OutputPath(groups[i].0), content.value)];
    }
    ResumesEnd(groups, contents, writes);
    completed := true;
  }

  /** After `i` groups the loop has written `writes`, and the rest of the
      run is `Emit` over the remaining groups. */
  ghost predicate Resumes(groups: Groups, contents: seq<Outcome<string>>, i: nat, writes: seq<(string, string)>) {
    |contents| == |groups| && i <= |groups| &&
    Emit(groups, contents) == Run(writes + Emit(groups[i..], contents[i..]).writes, Emit(groups[i..], contents[i..]).completed)
  }

  lemma EmitResumes(groups: Groups, contents: seq<Outcome<string>>)
    requires |contents| == |groups|
    ensures Resumes(groups, contents, 0, [])
  {
    assert groups[0..] == groups && contents[0..] == contents;
  }

  lemma ResumesStep(groups: Groups, contents: seq<Outcome<string>>, i: nat, writes: seq<(string, string)>)
    requires Resumes(groups, contents, i, writes) && i < |groups| && contents[i].Done?
    ensures Resumes(groups, contents, i + 1, writes + [(OutputPath(groups[i].0), contents[i].value)])
  {
    EmitStep(groups, contents, i);
    var w := (OutputPath(groups[i].0), contents[i].value);
    var rest := Emit(groups[i + 1..], contents[i + 1..]).writes;
    assert writes + ([w] + rest) == (writes + [w]) + rest;
  }

  lemma ResumesStop(groups: Groups, contents: seq<Outcome<string>>, i: nat, writes: seq<(string, string)>)
    requires Resumes(groups, contents, i, writes) && i < |groups| && contents[i].Thrown?
    ensures Emit(groups, contents) == Run(writes, false)
  {
    EmitStep(groups, contents, i);
    assert writes + [] == writes;
  }

  lemma ResumesEnd(groups: Groups, contents: seq<Outcome<string>>, writes: seq<(string, string)>)
    requires Resumes(groups, contents, |groups|, writes)
    ensures Emit(groups, contents) == Run(writes, true)
  {
    assert groups[|groups|..] == [];
    assert writes + [] == writes;
  }

  /** Group `i`'s file, as the writing loop renders it. */
  method RenderGroup(groups: Groups, i: nat, spec: Value, fuel: nat, pr: Printers) returns (content: Outcome<string>)
    requires i < |groups|
    ensures content == Contents(groups, spec, fuel, pr)[i]
  {
    content := RenderFile(groups[i].1, spec, fuel, pr);
    ContentAt(groups, i, spec, fuel, pr, content);
  }

  lemma EmitStep(groups: Groups, contents: seq<Outcome<string>>, i: nat)
    requires |contents| == |groups| && i < |groups|
    ensures contents[i].Thrown? ==> Emit(groups[i..], contents[i..]) == Run([], false)
    ensures contents[i].Done? ==>
              Emit(groups[i..], contents[i..])
              == Run([(OutputPath(groups[i].0), contents[i].value)] + Emit(groups[i + 1..], contents[i + 1..]).writes,
                     Emit(groups[i + 1..], contents[i + 1..]).completed)
  {
    assert groups[i..][1..] == groups[i + 1..];
    assert contents[i..][1..] == contents[i + 1..];
  }

  /** generateHttpFiles from the scan of the source tree to the last file. */
  method GenerateHttpFiles(root: seq<Node>, spec: Option<Value>, fuel: nat, pr: Printers)
    returns (writes: seq<(string, string)>, completed: bool)
    ensures Run(writes, completed) == Generate(root, spec, fuel, pr)
  {
    var index := ScanOperationsDirs(root);
    var groups := GroupOperations(spec, index);
    if groups.Thrown? {
      return [], false;
    }
    writes, completed := WriteFiles(groups.value, spec.value, fuel, pr);
  }

  // ---------------------------------------------------------------------
  // What a run writes

  /** The files are written in group order, one per group, each with its
      group's content, until the first group whose content throws; the
      files before it stay written. */
  lemma {:induction false} EmitSpec(groups: Groups, contents: seq<Outcome<string>>)
    requires |contents| == |groups|
    ensures var r := Emit(groups, contents);
            |r.writes| <= |groups| &&
            (r.completed <==> |r.writes| == |groups|) &&
            (!r.completed ==> contents[|r.writes|].Thrown?) &&
            forall i :: 0 <= i < |r.writes| ==>
              contents[i].Done? && r.writes[i] == (OutputPath(groups[i].0), contents[i].value)
    decreases |groups|
  {
    if groups != [] && contents[0].Done? {
      EmitSpec(groups[1..], contents[1..]);
      var r := Emit(groups, contents);
      var t := Emit(groups[1..], contents[1..]);
      assert r.writes == [(OutputPath(groups[0].0), contents[0].value)] + t.writes;
      forall i | 1 <= i < |r.writes|
        ensures r.writes[i] == t.writes[i - 1] && groups[i] == groups[1..][i - 1] && contents[i] == contents[1..][i - 1]
      {
      }
    }
  }

  /** Distinct directories get distinct files. */
  lemma OutputPathInjective(a: string, b: string)
    requires OutputPath(a) == OutputPath(b)
    ensures a == b
  {
    var pa, pb := OutputPath(a), OutputPath(b);
    if a != "." && b != "." {
      assert a == pa[4..|pa| - 16];
      assert b == pb[4..|pb| - 16];
    }
  }

  /** The file `w` is the one for the directory `index[k].0`: it holds the
      content of the operations whose path that directory's route matches,
      and there is at least one. */
  predicate FileOf(index: Index, ops: seq<Operation>, spec: Value, fuel: nat, pr: Printers, k: int, w: (string, string)) {
    0 <= k < |index| && w.0 == OutputPath(index[k].0) &&
    Matched(index, ops, index[k].0) != [] &&
    FileContent(Matched(index, ops, index[k].0), spec, fuel, pr) == Done(w.1)
  }

  /** `w` is the file of some directory of the index. */
  predicate FileOfSome(index: Index, ops: seq<Operation>, spec: Value, fuel: nat, pr: Printers, w: (string, string)) {
    exists k :: 0 <= k < |index| && FileOf(index, ops, spec, fuel, pr, k, w)
  }

  /** Each file is written at most once, and each is the file of some
      directory of the index. */
  predicate WrittenAsGrouped(index: Index, ops: seq<Operation>, spec: Value, fuel: nat, pr: Printers,
                             writes: seq<(string, string)>)
  {
    DistinctKeys(writes) &&
    forall i :: 0 <= i < |writes| ==> FileOfSome(index, ops, spec, fuel, pr, writes[i])
  }

  /** A run over a document it can read writes its files as grouped. */
  lemma WrittenFiles(root: seq<Node>, spec: Option<Value>, fuel: nat, pr: Printers)
    requires Operations(spec).Done?
    ensures WrittenAsGrouped(PutAll([], Visit(root, "")), Operations(spec).value, spec.value, fuel, pr,
                             Generate(root, spec, fuel, pr).writes)
  {
    EmitWrittenAsGrouped(PutAll([], Visit(root, "")), Operations(spec).value, spec.value, fuel, pr);
  }

  lemma EmitWrittenAsGrouped(index: Index, ops: seq<Operation>, spec: Value, fuel: nat, pr: Printers)
    ensures var groups := Grouped(index, ops);
            WrittenAsGrouped(index, ops, spec, fuel, pr, Emit(groups, Contents(groups, spec, fuel, pr)).writes)
  {
    var groups := Grouped(index, ops);
    var contents := Contents(groups, spec, fuel, pr);
    var writes := Emit(groups, contents).writes;
    EmittedGroups(index, ops, contents);
    forall i | 0 <= i < |writes|
      ensures FileOfSome(index, ops, spec, fuel, pr, writes[i])
    {
      var k := WrittenAt(index, ops, contents, i);
      ContentIs(groups, i, spec, fuel, pr, Done(writes[i].1));
      assert FileOf(index, ops, spec, fuel, pr, k, writes[i]);
    }
  }

  /** `Emit` writes each file at most once, whatever the contents. */
  lemma EmittedGroups(index: Index, ops: seq<Operation>, contents: seq<Outcome<string>>)
    requires |contents| == |Grouped(index, ops)|
    ensures DistinctKeys(Emit(Grouped(index, ops), contents).writes)
  {
    var groups := Grouped(index, ops);
    var r := Emit(groups, contents);
    EmitSpec(groups, contents);
    GroupedSpec(index, ops);
    forall i, j | 0 <= i < j < |r.writes|
      ensures r.writes[i].0 != r.writes[j].0
    {
      if r.writes[i].0 == r.writes[j].0 {
        OutputPathInjective(groups[i].0, groups[j].0);
      }
    }
  }

  /** The `i`th file written goes to the directory `index[k].0` and holds
      the content of that directory's matched operations. */
  lemma WrittenAt(index: Index, ops: seq<Operation>, contents: seq<Outcome<string>>, i: nat) returns (k: nat)
    requires |contents| == |Grouped(index, ops)|
    requires i < |Emit(Grouped(index, ops), contents).writes|
    ensures i < |Grouped(index, ops)|
    ensures var groups := Grouped(index, ops);
            var w := Emit(groups, contents).writes[i];
            k < |index| && w.0 == OutputPath(index[k].0) &&
            groups[i].1 == Matched(index, ops, index[k].0) != [] && contents[i] == Done(w.1)
  {
    var groups := Grouped(index, ops);
    EmitSpec(groups, contents);
    GroupAt(index, ops, i);
    k :| 0 <= k < |index| && index[k].0 == groups[i].0;
  }

  /** One group: a directory of the index, holding its matched operations. */
  lemma GroupAt(index: Index, ops: seq<Operation>, i: nat)
    requires i < |Grouped(index, ops)|
    ensures exists k :: 0 <= k < |index| && index[k].0 == Grouped(index, ops)[i].0
    ensures Grouped(index, ops)[i].1 == Matched(index, ops, Grouped(index, ops)[i].0) != []
  {
    GroupEntries(index, ops);
    GroupsIndexed(index, ops);
  }

  /** A document that cannot be read, or whose `paths` is missing, `null` or
      holds a `null` path item, stops the run before any file is written. */
  lemma BrokenDocumentWritesNothing(root: seq<Node>, spec: Option<Value>, fuel: nat, pr: Printers)
    ensures Generate(root, spec, fuel, pr).writes == [] && !Generate(root, spec, fuel, pr).completed
            <== Operations(spec).Thrown?
    ensures Operations(spec).Thrown? <== spec.None? || Member(spec.value, "paths").None?
    ensures spec.Some? && Member(spec.value, "paths").Some? &&
            (var paths := Member(spec.value, "paths").value;
             paths.Null? || exists i :: 0 <= i < |OwnEntries(paths)| && OwnEntries(paths)[i].1.Null?)
            ==> Operations(spec).Thrown?
  {
    if spec.Some? && Member(spec.value, "paths").Some? {
      var paths := Member(spec.value, "paths").value;
      if !paths.Null? && exists i :: 0 <= i < |OwnEntries(paths)| && OwnEntries(paths)[i].1.Null? {
        var i :| 0 <= i < |OwnEntries(paths)| && OwnEntries(paths)[i].1.Null?;
        NullItem(OwnEntries(paths), i);
      }
    }
  }

  /** One `null` path item anywhere makes the loop over the paths throw. */
  lemma {:induction false} NullItem(es: seq<(string, Value)>, i: nat)
    requires i < |es| && es[i].1.Null?
    ensures AllOperations(es).Thrown?
    decreases |es|
  {
    if i < |es| - 1 {
      NullItem(es[..|es| - 1], i);
    }
  }

  /** `blocks` holds the rendering of each operation, in order. */
  predicate RenderedInOrder(ops: seq<Operation>, spec: Value, fuel: nat, pr: Printers, blocks: seq<string>) {
    |blocks| == |ops| &&
    forall k :: 0 <= k < |ops| ==> RenderRequest(ops[k].op, ops[k].url, ops[k].verb, spec, fuel, pr) == Done(blocks[k])
  }

  /** Each block of a file is the rendering of its operation, in order. */
  lemma {:induction false} RequestsSpec(ops: seq<Operation>, spec: Value, fuel: nat, pr: Printers)
    requires Requests(ops, spec, fuel, pr).Done?
    ensures RenderedInOrder(ops, spec, fuel, pr, Requests(ops, spec, fuel, pr).value)
    decreases |ops|
  {
    if ops != [] {
      var n := |ops| - 1;
      var init := ops[..n];
      var blocks := Requests(ops, spec, fuel, pr).value;
      RequestsSpec(init, spec, fuel, pr);
      var before := Requests(init, spec, fuel, pr).value;
      assert blocks == before + [RenderRequest(ops[n].op, ops[n].url, ops[n].verb, spec, fuel, pr).value];
      forall k | 0 <= k < n
        ensures RenderRequest(ops[k].op, ops[k].url, ops[k].verb, spec, fuel, pr) == Done(blocks[k])
      {
        assert ops[k] == init[k] && blocks[k] == before[k];
      }
    }
  }

  /** A group's file opens with its variables section, an empty line and
      the first request block's separator line. */
  lemma FileLayout(ops: seq<Operation>, spec: Value, fuel: nat, pr: Printers)
    requires ops != []
    requires FileContent(ops, spec, fuel, pr).Done?
    ensures StartsWith(FileContent(ops, spec, fuel, pr).value, VariablesText(ops) + "\n\n###\n\n")
  {
    var blocks := Requests(ops, spec, fuel, pr).value;
    RequestsSpec(ops, spec, fuel, pr);
    BlockText(ops[0].op, ops[0].url, ops[0].verb, spec, fuel, pr);
    JoinedLayout(VariablesText(ops), blocks);
  }

  lemma JoinedLayout(v: string, blocks: seq<string>)
    requires blocks != [] && StartsWith(blocks[0], "###\n\n")
    ensures StartsWith(v + "\n\n" + Join(blocks, "\n"), v + "\n\n###\n\n")
  {
    var joined := Join(blocks, "\n");
    assert joined[..|blocks[0]|] == blocks[0];
    assert joined[..5] == blocks[0][..5];
    var c := v + "\n\n" + joined;
    assert c[..|v| + 7] == v + "\n\n" + joined[..5];
  }
}
