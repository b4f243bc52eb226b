/** The directory matcher (scripts/generate-http.js, findDirForPath): picks
    the indexed directory owning the longest route that matches the start of
    a path; among routes of equal length the first one enumerated wins. */
module DirectoryMatcher {
  import opened Wrappers
  import opened PathTemplate
  import opened DirectoryIndex

  /** Every (directory, route) pair of the index, in enumeration order:
      directories in insertion order, each directory's routes in order. */
  function Candidates(index: Index): (c: seq<(string, string)>)
    decreases |index|
  {
    if index == [] then []
    else Candidates(index[..|index| - 1]) + Pairs(index[|index| - 1])
  }

  function Pairs(e: (string, seq<string>)): (p: seq<(string, string)>)
    ensures |p| == |e.1|
    ensures forall j :: 0 <= j < |p| ==> p[j] == (e.0, e.1[j])
  {
    seq(|e.1|, j requires 0 <= j < |e.1| => (e.0, e.1[j]))
  }

  /** Candidate `k` is a route that matches `path` and can be chosen: the
      search only takes a route strictly longer than the best so far, which
      starts at length 0, so an empty route is never chosen. */
  predicate Hit(c: seq<(string, string)>, path: string, k: int) {
    0 <= k < |c| && |c[k].1| > 0 && RouteMatches(c[k].1, path)
  }

  function Length(c: seq<(string, string)>, best: Option<nat>): nat
    requires best.Some? ==> best.value < |c|
  {
    if best.None? then 0 else |c[best.value].1|
  }

  /** The position of the chosen candidate: scanning left to right, a hit
      replaces the current choice only when it is strictly longer. */
  function BestIndex(c: seq<(string, string)>, path: string): (r: Option<nat>)
    ensures r.Some? ==> r.value < |c|
    decreases |c|
  {
    if c == [] then None
    else
      var prev := BestIndex(c[..|c| - 1], path);
      var k := |c| - 1;
      if Hit(c, path, k) && |c[k].1| > Length(c[..k], prev) then Some(k) else prev
  }

  /** The directory owning the candidate at `at`, if any. */
  function Owner(c: seq<(string, string)>, at: Option<nat>): Option<string>
    requires at.Some? ==> at.value < |c|
  {
    if at.None? then None else Some(c[at.value].0)
  }

  /** The directory findDirForPath returns. */
  function BestDir(index: Index, path: string): Option<string> {
    var c := Candidates(index);
    Owner(c, BestIndex(c, path))
  }

  /** Candidate `k` is the one to choose: a hit, at least as long as every
      hit, and strictly longer than every earlier hit. */
  ghost predicate Chosen(c: seq<(string, string)>, path: string, k: nat) {
    Hit(c, path, k)
    && (forall k' :: Hit(c, path, k') ==> |c[k'].1| <= |c[k].1|)
    && (forall k' :: Hit(c, path, k') && k' < k ==> |c[k'].1| < |c[k].1|)
  }

  /** What the scan has chosen among `c`: nothing when nothing matched, and
      otherwise the first of the longest hits. */
  ghost predicate ChoiceCorrect(c: seq<(string, string)>, path: string, at: Option<nat>) {
    (at.None? <==> forall k :: !Hit(c, path, k))
    && (at.Some? ==> Chosen(c, path, at.value))
  }

  /** The scan chooses nothing exactly when no route matches, and otherwise
      the first of the longest matching routes. */
  lemma {:induction false} BestIndexSpec(c: seq<(string, string)>, path: string)
    ensures BestIndex(c, path).None? <==> forall k :: !Hit(c, path, k)
    ensures BestIndex(c, path).Some? ==> Chosen(c, path, BestIndex(c, path).value)
    decreases |c|
  {
    if c != [] {
      var n := |c| - 1;
      var pre := c[..n];
      BestIndexSpec(pre, path);
      var prev := BestIndex(pre, path);
      if Hit(c, path, n) && |c[n].1| > Length(pre, prev) {
        TakeLast(c, pre, path, prev);
      } else {
        KeepPrevious(c, pre, path, prev);
      }
    }
  }

  lemma TakeLast(c: seq<(string, string)>, pre: seq<(string, string)>, path: string, prev: Option<nat>)
    requires c != [] && pre == c[..|c| - 1]
    requires prev.Some? ==> prev.value < |pre|
    requires ChoiceCorrect(pre, path, prev)
    requires Hit(c, path, |c| - 1) && |c[|c| - 1].1| > Length(pre, prev)
    ensures Chosen(c, path, |c| - 1)
  {
    var n := |c| - 1;
    forall k | Hit(c, path, k)
      ensures |c[k].1| <= |c[n].1| && (k < n ==> |c[k].1| < |c[n].1|)
    {
      if k < n {
        assert c[k] == pre[k] && Hit(pre, path, k);
      }
    }
  }

  lemma KeepPrevious(c: seq<(string, string)>, pre: seq<(string, string)>, path: string, prev: Option<nat>)
    requires c != [] && pre == c[..|c| - 1]
    requires prev.Some? ==> prev.value < |pre|
    requires ChoiceCorrect(pre, path, prev)
    requires !(Hit(c, path, |c| - 1) && |c[|c| - 1].1| > Length(pre, prev))
    ensures ChoiceCorrect(c, path, prev)
  {
    var n := |c| - 1;
    if prev.Some? {
      var b := prev.value;
      assert c[b] == pre[b] && Hit(c, path, b);
      forall k | Hit(c, path, k)
        ensures |c[k].1| <= |c[b].1| && (k < b ==> |c[k].1| < |c[b].1|)
      {
        if k < n {
          assert c[k] == pre[k] && Hit(pre, path, k);
        }
      }
    } else {
      forall k ensures !Hit(c, path, k) {
        if 0 <= k < n {
          assert c[k] == pre[k] && !Hit(pre, path, k);
        }
      }
    }
  }

  /** One step of the scan: a route replaces the current choice exactly when
      it matches and is strictly longer than the current best length. */
  lemma ScanStep(seen: seq<(string, string)>, dir: string, route: string, path: string)
    ensures var at := BestIndex(seen, path);
            var next := BestIndex(seen + [(dir, route)], path);
            var taken := RouteMatches(route, path) && |route| > Length(seen, at);
            next == (if taken then Some(|seen|) else at)
            && Length(seen + [(dir, route)], next) == (if taken then |route| else Length(seen, at))
            && Owner(seen + [(dir, route)], next) == (if taken then Some(dir) else Owner(seen, at))
  {
    var c := seen + [(dir, route)];
    assert c[..|c| - 1] == seen;
  }

  lemma CandidatesSnoc(index: Index, i: nat)
    requires i < |index|
    ensures Candidates(index[..i + 1]) == Candidates(index[..i]) + Pairs(index[i])[..|index[i].1|]
    ensures Candidates(index[..i]) + Pairs(index[i])[..0] == Candidates(index[..i])
  {
    assert index[..i + 1][..i] == index[..i];
    assert Pairs(index[i])[..|index[i].1|] == Pairs(index[i]);
  }

  lemma PairsSnoc(before: seq<(string, string)>, e: (string, seq<string>), j: nat)
    requires j < |e.1|
    ensures before + Pairs(e)[..j] + [(e.0, e.1[j])] == before + Pairs(e)[..j + 1]
  {
    assert Pairs(e)[..j + 1] == Pairs(e)[..j] + [(e.0, e.1[j])];
  }

  /** findDirForPath: the directory of the chosen route, or none. */
  method FindDirForPath(path: string, index: Index) returns (best: Option<string>)
    ensures best == BestDir(index, path)
  {
    best := None;
    var bestLength := 0;
    ghost var seen: seq<(string, string)> := [];
    for i := 0 to |index|
      invariant seen == Candidates(index[..i])
      invariant bestLength == Length(seen, BestIndex(seen, path))
      invariant best == Owner(seen, BestIndex(seen, path))
    {
      var dir := index[i].0;
      var routes := index[i].1;
      ghost var before := seen;
      CandidatesSnoc(index, i);
      for j := 0 to |routes|
        invariant seen == before + Pairs(index[i])[..j]
        invariant bestLength == Length(seen, BestIndex(seen, path))
        invariant best == Owner(seen, BestIndex(seen, path))
      {
        var route := routes[j];
        ScanStep(seen, dir, route, path);
        if RouteMatches(route, path) {
          if |route| > bestLength {
            best := Some(dir);
            bestLength := |route|;
          }
        }
        PairsSnoc(before, index[i], j);
        seen := seen + [(dir, route)];
      }
    }
    assert index[..|index|] == index;
  }

  /** findDirForPath finds nothing exactly when no route matches the path,
      and otherwise the directory of the first of the longest matching
      routes. */
  lemma BestDirSpec(index: Index, path: string)
    ensures BestDir(index, path).None? ==> forall k :: !Hit(Candidates(index), path, k)
    ensures (forall k :: !Hit(Candidates(index), path, k)) ==> BestDir(index, path).None?
    ensures BestDir(index, path).Some? ==>
              exists k: nat :: Chosen(Candidates(index), path, k) && Candidates(index)[k].0 == BestDir(index, path).value
  {
    var c := Candidates(index);
    BestIndexSpec(c, path);
    assert BestDir(index, path).None? <==> BestIndex(c, path).None?;
    if BestIndex(c, path).Some? {
      var k := BestIndex(c, path).value;
      assert Chosen(c, path, k) && c[k].0 == BestDir(index, path).value;
    }
  }

  /** Every candidate names a directory of the index. */
  lemma {:induction false} CandidatesIndexed(index: Index, k: nat)
    requires k < |Candidates(index)|
    ensures exists i :: 0 <= i < |index| && index[i].0 == Candidates(index)[k].0
    decreases |index|
  {
    var init := index[..|index| - 1];
    if k < |Candidates(init)| {
      CandidatesIndexed(init, k);
      var i :| 0 <= i < |init| && init[i].0 == Candidates(init)[k].0;
      assert index[i] == init[i];
    } else {
      assert Candidates(index)[k] == Pairs(index[|index| - 1])[k - |Candidates(init)|];
    }
  }

  /** The directory chosen for a path is one of the indexed directories. */
  lemma BestDirIndexed(index: Index, path: string)
    requires BestDir(index, path).Some?
    ensures exists i :: 0 <= i < |index| && index[i].0 == BestDir(index, path).value
  {
    CandidatesIndexed(index, BestIndex(Candidates(index), path).value);
  }
}
