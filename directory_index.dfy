/** The directory indexer (scripts/generate-http.js, scanOperationsDirs): a
    depth-first walk of the source tree that records, for every directory
    whose `operations.tsp` declares at least one route, those routes under
    the directory's `/`-joined path relative to the root (`.` for the root). */
module DirectoryIndex {
  import opened Wrappers
  import opened Text
  import opened Assoc
  import RouteScanner

  /** An entry of a directory listing, in the order the listing returns it.
      `Other` is anything that is neither a regular file nor a directory
      (a symbolic link, for one): the walk neither reads nor follows it. */
  datatype Node =
    | File(name: string, content: string)
    | Dir(name: string, items: seq<Node>)
    | Other(name: string)

  /** The index: relative directory path to the routes declared there, in
      insertion order. */
  type Index = seq<(string, seq<string>)>

  const DeclarationFile: string := "operations.tsp"

  /** A subdirectory the walk descends into: its name does not start with `.`. */
  predicate Visible(n: Node) {
    n.Dir? && !StartsWith(n.name, ".")
  }

  /** A regular file named `operations.tsp`. */
  predicate IsDeclaration(n: Node) {
    n.File? && n.name == DeclarationFile
  }

  /** The content of the first regular file named `operations.tsp`, and
      none exactly when the listing has no such file. */
  function DeclarationOf(items: seq<Node>): (r: Option<string>)
    ensures r.None? <==> forall i :: 0 <= i < |items| ==> !IsDeclaration(items[i])
    ensures r.Some? ==> exists i :: 0 <= i < |items| && items[i] == File(DeclarationFile, r.value)
                                    && forall j :: 0 <= j < i ==> !IsDeclaration(items[j])
  {
    if items == [] then None
    else if IsDeclaration(items[0]) then Some(items[0].content)
    else
      var r := DeclarationOf(items[1..]);
      assert forall i :: 1 <= i < |items| ==> items[i] == items[1..][i - 1];
      if r.Some? then
        var i :| 0 <= i < |items[1..]| && items[1..][i] == File(DeclarationFile, r.value)
                 && forall j :: 0 <= j < i ==> !IsDeclaration(items[1..][j]);
        assert items[i + 1] == File(DeclarationFile, r.value);
        assert forall j :: 0 <= j < i + 1 ==> !IsDeclaration(items[j]) by {
          forall j | 0 <= j < i + 1 ensures !IsDeclaration(items[j]) {
            if j > 0 { assert items[j] == items[1..][j - 1]; }
          }
        }
        r
      else
        r
  }

  /** The routes a directory declares; none without a declaration file. */
  function DeclaredRoutes(items: seq<Node>): seq<string> {
    match DeclarationOf(items)
    case None => []
    case Some(text) => RouteScanner.Routes(text)
  }

  /** The path of a subdirectory named `name` of the directory at `rel`. */
  function SubPath(rel: string, name: string): string {
    if rel == "" then name else rel + "/" + name
  }

  /** The path of the directory reached from `rel` through `segs`. */
  function PathOf(rel: string, segs: seq<string>): string
    decreases |segs|
  {
    if segs == [] then rel else PathOf(SubPath(rel, segs[0]), segs[1..])
  }

  /** The key a directory is recorded under: its relative path, `.` for the root. */
  function Key(rel: string): string {
    if rel == "" then "." else rel
  }

  /** Whether following the visible subdirectories named `segs` from a
      directory with entries `items` reaches a directory with entries `d`. */
  ghost predicate Reaches(items: seq<Node>, segs: seq<string>, d: seq<Node>)
    decreases |segs|
  {
    if segs == [] then d == items
    else exists j :: 0 <= j < |items| && Visible(items[j]) && items[j].name == segs[0]
                     && Reaches(items[j].items, segs[1..], d)
  }

  /** The writes the walk makes, in order, for the directory at `rel`:
      its own entry when it declares a route, then those of each visible
      subdirectory in listing order. */
  function Visit(items: seq<Node>, rel: string): Index
    decreases items, 1
  {
    var routes := DeclaredRoutes(items);
    (if |routes| > 0 then [(Key(rel), routes)] else []) + VisitAll(items, rel)
  }

  function VisitAll(items: seq<Node>, rel: string): Index
    decreases items, 0
  {
    if items == [] then []
    else
      (if Visible(items[0]) then Visit(items[0].items, SubPath(rel, items[0].name)) else [])
      + VisitAll(items[1..], rel)
  }

  /** scanDir: walks the directory at `rel` and records into `index`. */
  method ScanDir(items: seq<Node>, rel: string, index: Index) returns (result: Index)
    ensures result == PutAll(index, Visit(items, rel))
    decreases items
  {
    result := index;
    var declaration := DeclarationOf(items);
    var own: Index := [];
    if declaration.Some? {
      var routes := RouteScanner.ParseTspRoutes(declaration);
      if |routes| > 0 {
        result := Put(result, Key(rel), routes);
        own := [(Key(rel), routes)];
      }
    }
    assert result == PutAll(index, own);
    PutAllAppend(index, own, VisitAll(items, rel));
    for j := 0 to |items|
      invariant PutAll(result, VisitAll(items[j..], rel)) == PutAll(index, Visit(items, rel))
    {
      assert items[j..][1..] == items[j + 1..];
      var item := items[j];
      if item.Dir? && !StartsWith(item.name, ".") {
        PutAllAppend(result, Visit(item.items, SubPath(rel, item.name)), VisitAll(items[j + 1..], rel));
        result := ScanDir(item.items, SubPath(rel, item.name), result);
      } else {
        assert VisitAll(items[j..], rel) == VisitAll(items[j + 1..], rel);
      }
    }
  }

  /** An index entry stands for a directory reachable from `items` through
      visible subdirectories: its key is that directory's path from `rel`,
      its value the non-empty routes the directory declares. */
  ghost predicate Describes(items: seq<Node>, rel: string, e: (string, seq<string>), nested: bool) {
    e.1 != [] &&
    exists segs, d :: Reaches(items, segs, d) && (nested ==> segs != [])
                      && e.0 == Key(PathOf(rel, segs)) && e.1 == DeclaredRoutes(d)
  }

  /** scanOperationsDirs: the index of the whole tree below a root directory. */
  method ScanOperationsDirs(root: seq<Node>) returns (index: Index)
    ensures index == PutAll([], Visit(root, ""))
    ensures forall e :: e in index ==> Describes(root, "", e, false)
    ensures forall segs, d :: Reaches(root, segs, d) && DeclaredRoutes(d) != [] ==>
              Lookup(index, Key(PathOf("", segs))).Some?
  {
    index := ScanDir(root, "", []);
    IndexSound(root);
    IndexComplete(root);
  }

  /** Every recorded entry describes a directory of the tree. */
  lemma IndexSound(root: seq<Node>)
    ensures forall e :: e in PutAll([], Visit(root, "")) ==> Describes(root, "", e, false)
  {
    PutAllEntries([], Visit(root, ""));
    VisitSound(root, "");
  }

  /** Every directory that declares a route is recorded. */
  lemma IndexComplete(root: seq<Node>)
    ensures forall segs, d :: Reaches(root, segs, d) && DeclaredRoutes(d) != [] ==>
              Lookup(PutAll([], Visit(root, "")), Key(PathOf("", segs))).Some?
  {
    PutAllEntries([], Visit(root, ""));
    forall segs, d | Reaches(root, segs, d) && DeclaredRoutes(d) != []
      ensures Lookup(PutAll([], Visit(root, "")), Key(PathOf("", segs))).Some?
    {
      VisitComplete(root, "", segs, d);
    }
  }

  /** Every write records the non-empty routes of a directory reachable
      through visible subdirectories, under that directory's path. */
  lemma {:induction false} VisitSound(items: seq<Node>, rel: string)
    ensures forall e :: e in Visit(items, rel) ==> Describes(items, rel, e, false)
    decreases items, 1
  {
    VisitAllSound(items, rel);
    forall e | e in Visit(items, rel)
      ensures Describes(items, rel, e, false)
    {
      if e !in VisitAll(items, rel) {
        assert e == (Key(rel), DeclaredRoutes(items));
        assert Reaches(items, [], items) && e.0 == Key(PathOf(rel, [])) && e.1 == DeclaredRoutes(items);
      } else {
        assert Describes(items, rel, e, true);
      }
    }
  }

  lemma {:induction false} VisitAllSound(items: seq<Node>, rel: string)
    ensures forall e :: e in VisitAll(items, rel) ==> Describes(items, rel, e, true)
    decreases items, 0
  {
    if items != [] {
      VisitAllSound(items[1..], rel);
      forall e | e in VisitAll(items[1..], rel)
        ensures Describes(items, rel, e, true)
      {
        var segs, d :| Reaches(items[1..], segs, d) && segs != [] && e.0 == Key(PathOf(rel, segs))
                       && e.1 == DeclaredRoutes(d);
        ReachesTail(items, segs, d);
      }
      if Visible(items[0]) {
        var child := items[0];
        VisitSound(child.items, SubPath(rel, child.name));
        forall e | e in Visit(child.items, SubPath(rel, child.name))
          ensures Describes(items, rel, e, true)
        {
          var segs, d :| Reaches(child.items, segs, d) && e.0 == Key(PathOf(SubPath(rel, child.name), segs))
                         && e.1 == DeclaredRoutes(d);
          var full := [child.name] + segs;
          assert full[1..] == segs;
          assert Reaches(items, full, d);
          assert PathOf(rel, full) == PathOf(SubPath(rel, child.name), segs);
        }
      }
    }
  }

  lemma ReachesTail(items: seq<Node>, segs: seq<string>, d: seq<Node>)
    requires items != [] && segs != [] && Reaches(items[1..], segs, d)
    ensures Reaches(items, segs, d)
  {
    var j :| 0 <= j < |items[1..]| && Visible(items[1..][j]) && items[1..][j].name == segs[0]
             && Reaches(items[1..][j].items, segs[1..], d);
    assert items[j + 1] == items[1..][j];
  }

  /** Every directory reachable through visible subdirectories that declares
      a route is written, whether or not the directories above it are. */
  lemma {:induction false} VisitComplete(items: seq<Node>, rel: string, segs: seq<string>, d: seq<Node>)
    requires Reaches(items, segs, d) && DeclaredRoutes(d) != []
    ensures (Key(PathOf(rel, segs)), DeclaredRoutes(d)) in Visit(items, rel)
    decreases |segs|
  {
    if segs == [] {
      assert Visit(items, rel)[0] == (Key(rel), DeclaredRoutes(d));
    } else {
      var j :| 0 <= j < |items| && Visible(items[j]) && items[j].name == segs[0]
               && Reaches(items[j].items, segs[1..], d);
      VisitComplete(items[j].items, SubPath(rel, segs[0]), segs[1..], d);
      VisitAllContains(items, rel, j);
    }
  }

  lemma {:induction false} VisitAllContains(items: seq<Node>, rel: string, j: nat)
    requires j < |items| && Visible(items[j])
    ensures forall e :: e in Visit(items[j].items, SubPath(rel, items[j].name)) ==> e in VisitAll(items, rel)
    decreases j
  {
    if j > 0 {
      VisitAllContains(items[1..], rel, j - 1);
      assert items[1..][j - 1] == items[j];
    }
  }

  /** A hidden subdirectory makes no difference to the index, wherever the
      listing puts it. */
  lemma HiddenIgnored(pre: seq<Node>, post: seq<Node>, rel: string, name: string, hidden: seq<Node>)
    requires StartsWith(name, ".")
    ensures Visit(pre + [Dir(name, hidden)] + post, rel) == Visit(pre + post, rel)
  {
    VisitAllSkipsHidden(pre, post, rel, name, hidden);
    DeclarationSkips(pre, Dir(name, hidden), post);
  }

  lemma {:induction false} VisitAllSkipsHidden(pre: seq<Node>, post: seq<Node>, rel: string, name: string,
                                               hidden: seq<Node>)
    requires StartsWith(name, ".")
    ensures VisitAll(pre + [Dir(name, hidden)] + post, rel) == VisitAll(pre + post, rel)
    decreases |pre|
  {
    var n := Dir(name, hidden);
    if pre == [] {
      assert ([n] + post)[1..] == post;
      assert [] + [n] + post == [n] + post && [] + post == post;
    } else {
      assert (pre + [n] + post)[1..] == pre[1..] + [n] + post;
      assert (pre + post)[1..] == pre[1..] + post;
      VisitAllSkipsHidden(pre[1..], post, rel, name, hidden);
    }
  }

  /** An entry that is not a file does not change the declaration found. */
  lemma {:induction false} DeclarationSkips(pre: seq<Node>, n: Node, post: seq<Node>)
    requires !n.File?
    ensures DeclarationOf(pre + [n] + post) == DeclarationOf(pre + post)
    decreases |pre|
  {
    if pre == [] {
      assert ([n] + post)[1..] == post;
      assert [] + [n] + post == [n] + post && [] + post == post;
    } else {
      assert (pre + [n] + post)[1..] == pre[1..] + [n] + post;
      assert (pre + post)[1..] == pre[1..] + post;
      DeclarationSkips(pre[1..], n, post);
    }
  }
}
