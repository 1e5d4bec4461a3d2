/** internal/app/lockfile_drift_git.go: the git context of a list of candidate paths. A repository is an
    oracle that answers path by path and does not change during a scan. */
module GitContext {
  import opened Strings
  import opened Results
  import opened GitPathspec
  import opened Seqs

  datatype DriftError =
    | ManifestRead(manifest: string, section: string, tooLarge: bool)
    | WalkFailed(detail: string)
    | GitFailed(detail: string)
    | FilterAmbiguity(assignments: seq<(string, string)>)

  /** `down` makes every git command fail with a text that may name the asked paths; `filtered` maps tracked paths to
      their active filter driver, and `probeFailures` those whose filter git fails to tell to its message. */
  datatype Repository = Repository(
    down: Option<seq<string> -> string>,
    visible: set<string>,
    untracked: set<string>,
    filtered: map<string, string>,
    probeFailures: map<string, string>,
    hasHead: bool,
    headDiff: set<string>,
    stagedDiff: set<string>,
    unstagedDiff: set<string>)

  predicate IsTracked(repo: Repository, p: string) {
    p in repo.visible && p !in repo.untracked
  }

  /** Changed against HEAD, or staged or unstaged while HEAD is unborn; untracked files count as changed. */
  predicate IsChanged(repo: Repository, p: string) {
    p in repo.visible &&
    (p in repo.untracked || p in (if repo.hasHead then repo.headDiff else repo.stagedDiff + repo.unstagedDiff))
  }

  function Filters(repo: Repository, paths: seq<string>): (r: seq<(string, string)>)
    ensures r == [] <==> forall p :: p in paths && IsTracked(repo, p) ==> p !in repo.filtered
  {
    if paths == [] then []
    else
      var n := |paths| - 1;
      assert paths == paths[..n] + [paths[n]];
      Filters(repo, paths[..n]) +
      (if IsTracked(repo, paths[n]) && paths[n] in repo.filtered
       then [(paths[n], repo.filtered[paths[n]])] else [])
  }

  predicate FailsProbe(repo: Repository, p: string, detail: string) {
    IsTracked(repo, p) && p in repo.probeFailures && repo.probeFailures[p] == detail
  }

  /** The message of the first tracked path whose filter cannot be told. */
  function ProbeFailure(repo: Repository, paths: seq<string>): (r: Option<string>)
    ensures r == None <==> forall p :: p in paths && IsTracked(repo, p) ==> p !in repo.probeFailures
    ensures r.Some? ==> exists p :: p in paths && FailsProbe(repo, p, r.value)
  {
    if paths == [] then None
    else
      var n := |paths| - 1;
      assert paths == paths[..n] + [paths[n]];
      var earlier := ProbeFailure(repo, paths[..n]);
      if earlier.Some? || !IsTracked(repo, paths[n]) || paths[n] !in repo.probeFailures then earlier
      else
        assert paths[n] in paths && FailsProbe(repo, paths[n], repo.probeFailures[paths[n]]);
        Some(repo.probeFailures[paths[n]])
  }

  /** What a query on these paths answers: an error if git fails, for all paths or for one of these, or any tracked
      path has an active filter, and otherwise the changed ones among them. */
  function Query(repo: Repository, paths: seq<string>): Result<set<string>, DriftError> {
    if paths == [] then Ok({})
    else if repo.down.Some? then Err(GitFailed(repo.down.value(paths)))
    else if ProbeFailure(repo, paths).Some? then Err(GitFailed(ProbeFailure(repo, paths).value))
    else if Filters(repo, paths) != [] then Err(FilterAmbiguity(Filters(repo, paths)))
    else Ok(set p | p in paths && IsChanged(repo, p))
  }

  function Among(list: seq<string>, hits: set<string>): (r: seq<string>)
    ensures forall p :: p in r <==> p in list && p in hits
  {
    if list == [] then []
    else Among(list[..|list| - 1], hits) +
         (if list[|list| - 1] in hits then [list[|list| - 1]] else [])
  }

  lemma AmongIsPathwise(hits: set<string>)
    ensures Pathwise(list => Among(list, hits), hits)
  {
  }

  lemma FiltersSnoc(repo: Repository, paths: seq<string>, p: string)
    ensures Filters(repo, paths + [p]) ==
      Filters(repo, paths) + (if IsTracked(repo, p) && p in repo.filtered then [(p, repo.filtered[p])] else [])
  {
    SnocTake(paths, p);
  }

  lemma ProbeSnoc(repo: Repository, paths: seq<string>, p: string)
    ensures ProbeFailure(repo, paths + [p]) ==
      var earlier := ProbeFailure(repo, paths);
      if earlier.Some? || !IsTracked(repo, p) || p !in repo.probeFailures then earlier else Some(repo.probeFailures[p])
  {
    SnocTake(paths, p);
  }

  method Classify(repo: Repository, paths: seq<string>) returns (tracked: seq<string>, untracked: seq<string>)
    ensures forall p :: p in tracked <==> p in paths && IsTracked(repo, p)
    ensures forall p :: p in untracked <==> p in paths && p in repo.visible && p in repo.untracked
    ensures Filters(repo, tracked) == Filters(repo, paths) && ProbeFailure(repo, tracked) == ProbeFailure(repo, paths)
  {
    AmongIsPathwise(repo.visible);
    var visible := FilesForPaths(list => Among(list, repo.visible), repo.visible, paths);
    AmongIsPathwise(repo.untracked);
    var others := FilesForPaths(list => Among(list, repo.untracked), repo.untracked, paths);
    tracked, untracked := [], [];
    hide Filters, ProbeFailure;
    assert paths[..0] == [];
    for i := 0 to |paths|
      invariant forall p :: p in tracked <==> p in paths[..i] && IsTracked(repo, p)
      invariant forall p :: p in untracked <==> p in paths[..i] && p in repo.visible && p in repo.untracked
      invariant Filters(repo, tracked) == Filters(repo, paths[..i])
      invariant ProbeFailure(repo, tracked) == ProbeFailure(repo, paths[..i])
    {
      var path := paths[i];
      TakeLast(paths, i);
      FiltersSnoc(repo, paths[..i], path);
      ProbeSnoc(repo, paths[..i], path);
      if path in visible {
        if path in others {
          untracked := untracked + [path];
        } else {
          FiltersSnoc(repo, tracked, path);
          ProbeSnoc(repo, tracked, path);
          tracked := tracked + [path];
        }
      }
    }
    TakeAll(paths);
  }

  method TrackedChanges(repo: Repository, paths: seq<string>) returns (changed: seq<string>)
    ensures forall p :: p in changed <==>
      p in paths && p in (if repo.hasHead then repo.headDiff else repo.stagedDiff + repo.unstagedDiff)
  {
    if |paths| == 0 { return []; }
    if repo.hasHead {
      AmongIsPathwise(repo.headDiff);
      changed := FilesForPaths(list => Among(list, repo.headDiff), repo.headDiff, paths);
      return;
    }
    AmongIsPathwise(repo.stagedDiff);
    var staged := FilesForPaths(list => Among(list, repo.stagedDiff), repo.stagedDiff, paths);
    AmongIsPathwise(repo.unstagedDiff);
    var unstaged := FilesForPaths(list => Among(list, repo.unstagedDiff), repo.unstagedDiff, paths);
    changed := Merge([staged, unstaged]);
    assert Concat([staged, unstaged]) == staged + unstaged by {
      assert [staged, unstaged][1..] == [unstaged];
      assert Concat([unstaged]) == unstaged;
    }
  }

  /** `collectLockfileGitContextForPaths`: classification, filter probe and batched diffs together answer
      exactly the path-by-path query. */
  method CollectContext(repo: Repository, paths: seq<string>) returns (r: Result<set<string>, DriftError>)
    ensures r == Query(repo, paths)
  {
    if |paths| == 0 { return Ok({}); }
    if repo.down.Some? { return Err(GitFailed(repo.down.value(paths))); }
    var tracked, untracked := Classify(repo, paths);
    var failure := ProbeFailure(repo, tracked);
    if failure.Some? { return Err(GitFailed(failure.value)); }
    var assignments := Filters(repo, tracked);
    if |assignments| > 0 { return Err(FilterAmbiguity(assignments)); }
    var diff := TrackedChanges(repo, tracked);
    var changed := Elements(diff) + Elements(untracked);
    assert changed == set p | p in paths && IsChanged(repo, p);
    r := Ok(changed);
  }
}
