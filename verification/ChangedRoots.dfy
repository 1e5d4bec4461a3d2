/** internal/analysis/pipeline.go: which analysis roots contain a changed file. */
module ChangedRoots {
  import opened Strings
  import opened Seqs

  /** A clean absolute path, as its components; none of them is empty, `.` or `..`. */
  type Path = seq<string>

  const UP := ".."

  predicate IsClean(path: Path) {
    forall i :: 0 <= i < |path| ==> path[i] != UP
  }

  /** `filepath.Dir`: the root directory is its own parent. */
  function Parent(path: Path): Path {
    if path == [] then [] else path[..|path| - 1]
  }

  // ----- the reference -----

  function Ups(n: nat): (r: Path)
    ensures |r| == n && forall i :: 0 <= i < n ==> r[i] == UP
  {
    if n == 0 then [] else [UP] + Ups(n - 1)
  }

  /** `filepath.Rel`: out of `from` to the common part, then down; the empty list stands for `.`. */
  function Relative(from: Path, to: Path): Path {
    if from != [] && to != [] && from[0] == to[0] then Relative(from[1..], to[1..]) else Ups(|from|) + to
  }

  /** `rootContainsFile`. */
  predicate RootContainsFile(root: Path, file: Path) {
    var relative := Relative(root, file);
    relative == [] || relative[0] != UP
  }

  /** A root contains the files whose path it begins. */
  lemma {:induction false} ContainsIsPrefix(root: Path, file: Path)
    requires IsClean(file)
    ensures RootContainsFile(root, file) <==> root <= file
  {
    if root != [] && file != [] && root[0] == file[0] {
      ContainsIsPrefix(root[1..], file[1..]);
      assert root == [root[0]] + root[1..] && file == [file[0]] + file[1..];
    } else if root != [] {
      assert Ups(|root|)[0] == UP;
    }
  }

  // ----- sorting without repetition -----

  lemma LargerIsLast(items: seq<string>, i: nat, unique: seq<string>)
    requires Ordered(items) && 0 < i < |items| && items[i] != items[i - 1]
    requires unique != [] && Ascending(unique) && unique[|unique| - 1] == items[i - 1]
    ensures Ascending(unique + [items[i]])
  {
    assert AtMost(items[i - 1], items[i]);
    forall k | 0 <= k < |unique| ensures Less(unique[k], items[i]) {
      if k < |unique| - 1 { LessTransitive(unique[k], items[i - 1], items[i]); }
    }
  }

  /** `uniqueSorted`. */
  method UniqueSorted(values: seq<string>) returns (unique: seq<string>)
    ensures Ascending(unique) && forall x :: x in unique <==> x in values
  {
    hide AtMost, Less;
    if |values| == 0 { return []; }
    var items := Sort(values);
    unique := items[..1];
    for i := 1 to |items|
      invariant unique != [] && unique[|unique| - 1] == items[i - 1]
      invariant Ascending(unique) && forall x :: x in unique <==> x in items[..i]
    {
      TakeLast(items, i);
      if items[i] != items[i - 1] {
        LargerIsLast(items, i, unique);
        unique := unique + [items[i]];
      }
    }
    TakeAll(items);
  }

  // ----- the ancestor index -----

  /** Where each root lies: `absoluteRootPath` with the repository path fixed. */
  type Locate = string -> Path

  /** The index lists every root under its place, and nothing else. */
  ghost predicate Indexes(index: map<Path, seq<string>>, roots: seq<string>, locate: Locate) {
    (forall r <- roots :: locate(r) in index && r in index[locate(r)]) &&
    forall p <- index :: forall r <- index[p] :: r in roots && locate(r) == p
  }

  function RootsAt(index: map<Path, seq<string>>, path: Path): seq<string> {
    if path in index then index[path] else []
  }

  lemma IndexOne(index: map<Path, seq<string>>, roots: seq<string>, root: string, locate: Locate)
    requires Indexes(index, roots, locate)
    ensures Indexes(index[locate(root) := RootsAt(index, locate(root)) + [root]], roots + [root], locate)
  {
  }

  /** `changedRootIndex`. */
  method RootIndex(roots: seq<string>, locate: Locate) returns (index: map<Path, seq<string>>)
    ensures Indexes(index, roots, locate)
    ensures roots != [] ==> index != map[]
  {
    index := map[];
    for i := 0 to |roots|
      invariant Indexes(index, roots[..i], locate)
      invariant i > 0 ==> locate(roots[0]) in index
    {
      TakeLast(roots, i);
      IndexOne(index, roots[..i], roots[i], locate);
      index := index[locate(roots[i]) := RootsAt(index, locate(roots[i])) + [roots[i]]];
    }
    TakeAll(roots);
  }

  /** What has been collected is what has been seen, once each. */
  ghost predicate Collected(changed: seq<string>, seen: set<string>) {
    Distinct(changed) && forall r :: r in changed <==> r in seen
  }

  /** `appendChangedRoots`. */
  method AppendRoots(changed: seq<string>, seen: set<string>, roots: seq<string>)
      returns (more: seq<string>, now: set<string>)
    requires Collected(changed, seen)
    ensures Collected(more, now) && now == seen + Elements(roots)
  {
    more, now := changed, seen;
    for i := 0 to |roots|
      invariant Collected(more, now) && now == seen + Elements(roots[..i])
    {
      TakeLast(roots, i);
      if roots[i] in now { continue; }
      now := now + {roots[i]};
      more := more + [roots[i]];
    }
    TakeAll(roots);
  }

  /** The roots that lie at `path` or above it. */
  ghost predicate AtOrAbove(roots: seq<string>, locate: Locate, path: Path, root: string) {
    root in roots && locate(root) <= path
  }

  /** Adding the roots of one level of the climb. */
  lemma LevelAdded(roots: seq<string>, locate: Locate, path: Path, current: Path, seen: set<string>,
      before: set<string>, now: set<string>)
    requires current <= path
    requires forall r :: r in before <==> r in seen || (AtOrAbove(roots, locate, path, r) && |locate(r)| > |current|)
    requires forall r :: r in now <==> r in before || (r in roots && locate(r) == current)
    ensures forall r :: r in now <==> r in seen || (AtOrAbove(roots, locate, path, r) && |locate(r)| >= |current|)
  {
    forall r ensures r in now <==> r in seen || (AtOrAbove(roots, locate, path, r) && |locate(r)| >= |current|) {
      if AtOrAbove(roots, locate, path, r) && |locate(r)| == |current| {
        assert locate(r) == path[..|current|] == current;
      }
    }
  }

  /** `appendChangedRootAncestors`: the climb ends because a parent has fewer components. */
  method AppendAncestors(changed: seq<string>, seen: set<string>, index: map<Path, seq<string>>, path: Path,
      ghost roots: seq<string>, locate: Locate)
    returns (more: seq<string>, now: set<string>)
    requires Collected(changed, seen) && Indexes(index, roots, locate)
    ensures Collected(more, now)
    ensures forall r :: r in now <==> r in seen || AtOrAbove(roots, locate, path, r)
  {
    more, now := changed, seen;
    var current := path;
    while true
      invariant current <= path && Collected(more, now)
      invariant forall r :: r in now <==> r in seen || (AtOrAbove(roots, locate, path, r) && |locate(r)| > |current|)
      decreases |current|
    {
      ghost var before := now;
      more, now := AppendRoots(more, now, RootsAt(index, current));
      forall r ensures r in RootsAt(index, current) <==> r in roots && locate(r) == current { }
      LevelAdded(roots, locate, path, current, seen, before, now);
      var parent := Parent(current);
      if parent == current { return; }
      current := parent;
    }
  }

  lemma SeenContains(roots: seq<string>, locate: Locate, files: seq<Path>, r: string)
    requires forall f <- files :: IsClean(f)
    ensures (exists k :: 0 <= k < |files| && AtOrAbove(roots, locate, files[k], r))
       <==> r in roots && exists f <- files :: RootContainsFile(locate(r), f)
  {
    hide RootContainsFile, IsClean;
    forall k | 0 <= k < |files| ensures RootContainsFile(locate(r), files[k]) <==> locate(r) <= files[k] {
      assert files[k] in files;
      ContainsIsPrefix(locate(r), files[k]);
    }
    if r in roots && exists f <- files :: RootContainsFile(locate(r), f) {
      var f :| f in files && RootContainsFile(locate(r), f);
      var k :| 0 <= k < |files| && files[k] == f;
      assert AtOrAbove(roots, locate, files[k], r);
    }
    if k :| 0 <= k < |files| && AtOrAbove(roots, locate, files[k], r) {
      assert files[k] in files && RootContainsFile(locate(r), files[k]);
    }
  }

  /** `changedRoots`: exactly the roots that contain a changed file, sorted, each once. */
  method ChangedRootsOf(roots: seq<string>, locate: Locate, files: seq<Path>) returns (changed: seq<string>)
    requires forall f <- files :: IsClean(f)
    ensures Ascending(changed)
    ensures forall r :: r in changed <==> r in roots && exists f <- files :: RootContainsFile(locate(r), f)
  {
    hide Indexes, RootContainsFile, IsClean;
    if |roots| == 0 || |files| == 0 { return []; }
    var index := RootIndex(roots, locate);
    if |index| == 0 { return []; }
    var collected: seq<string>, seen: set<string> := [], {};
    for i := 0 to |files|
      invariant Collected(collected, seen)
      invariant forall r :: r in seen <==> exists k :: 0 <= k < i && AtOrAbove(roots, locate, files[k], r)
    {
      collected, seen := AppendAncestors(collected, seen, index, files[i], roots, locate);
    }
    changed := UniqueSorted(collected);
    forall r ensures r in seen <==> r in roots && exists f <- files :: RootContainsFile(locate(r), f) {
      SeenContains(roots, locate, files, r);
    }
  }
}
