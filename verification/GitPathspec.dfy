/** internal/app/lockfile_drift_git.go: splitting path lists into bounded git invocations and putting
    the answers together again. */
module GitPathspec {
  import opened Strings
  import opened Seqs

  const BATCH_PATHS := 128
  const BATCH_BYTES := 16 * 1024
  const LITERAL_PREFIX := ":(literal)"

  function ArgBytes(path: string): nat {
    |LITERAL_PREFIX| + |path| + 1
  }

  function Bytes(paths: seq<string>): nat {
    if paths == [] then 0 else Bytes(paths[..|paths| - 1]) + ArgBytes(paths[|paths| - 1])
  }

  /** What one git invocation may carry; a single path cannot be split. */
  predicate Fits(batch: seq<string>) {
    |batch| == 1 || (1 < |batch| <= BATCH_PATHS && Bytes(batch) <= BATCH_BYTES)
  }

  function Concat(batches: seq<seq<string>>): seq<string> {
    if batches == [] then [] else batches[0] + Concat(batches[1..])
  }

  ghost predicate IsPartition(batches: seq<seq<string>>, paths: seq<string>) {
    && (forall i :: 0 <= i < |batches| ==> Fits(batches[i]))
    && Concat(batches) == paths
  }

  // ----- the greedy partition and why no partition is shorter -----

  /** The length of the longest fitting prefix that extends the first n paths one by one. */
  function Extend(s: seq<string>, n: nat): (r: nat)
    requires 1 <= n <= |s| && Fits(s[..n])
    ensures n <= r <= |s| && Fits(s[..r])
    ensures r == |s| || !Fits(s[..r + 1])
    decreases |s| - n
  {
    if n == |s| || !Fits(s[..n + 1]) then n else Extend(s, n + 1)
  }

  function Greedy(s: seq<string>): seq<seq<string>> {
    if s == [] then []
    else var n := Extend(s, 1); [s[..n]] + Greedy(s[n..])
  }

  lemma {:induction false} BytesConcat(a: seq<string>, b: seq<string>)
    ensures Bytes(a + b) == Bytes(a) + Bytes(b)
  {
    if b == [] {
      assert a + b == a;
    } else {
      assert (a + b)[..|a + b| - 1] == a + b[..|b| - 1];
      BytesConcat(a, b[..|b| - 1]);
    }
  }

  /** A contiguous nonempty piece of a fitting batch fits. */
  lemma PieceFits(s: seq<string>, lo: nat, hi: nat)
    requires Fits(s) && lo < hi <= |s|
    ensures Fits(s[lo..hi])
  {
    BytesConcat(s[..lo], s[lo..hi]);
    BytesConcat(s[..lo] + s[lo..hi], s[hi..]);
    assert s[..lo] + s[lo..hi] + s[hi..] == s;
  }

  /** Longest prefix really is longest: every fitting prefix is at most as long. */
  lemma ExtendIsLongest(s: seq<string>, m: nat)
    requires 1 <= m <= |s| && Fits(s[..m])
    ensures m <= Extend(s, 1)
  {
    var n := Extend(s, 1);
    if n < m {
      assert s[..m][0..n + 1] == s[..n + 1];
      PieceFits(s[..m], 0, n + 1);
    }
  }

  /** Dropping paths from the front never needs more batches. */
  lemma {:induction false} GreedyMonotone(s: seq<string>, k: nat)
    requires k <= |s|
    ensures |Greedy(s[k..])| <= |Greedy(s)|
    decreases |s|
  {
    hide Bytes;
    if k == 0 {
      assert s[0..] == s;
    } else if k < |s| {
      var n := Extend(s, 1);
      if n <= k {
        GreedyMonotone(s[n..], k - n);
        DropDrop(s, n, k - n);
      } else {
        PieceFits(s[..n], k, n);
        SliceOfTake(s, n, k, n);
        TakeOfDrop(s, k, n - k);
        ExtendIsLongest(s[k..], n - k);
        var m := Extend(s[k..], 1);
        DropDrop(s, k, m);
        DropDrop(s, n, k + m - n);
        GreedyMonotone(s[n..], k + m - n);
      }
    }
  }

  lemma {:induction false} GreedyIsMinimal(batches: seq<seq<string>>, paths: seq<string>)
    requires IsPartition(batches, paths)
    ensures |Greedy(paths)| <= |batches|
    decreases |batches|
  {
    hide Bytes;
    if batches != [] {
      var first, rest := batches[0], Concat(batches[1..]);
      assert paths == first + rest;
      assert paths[..|first|] == first;
      ExtendIsLongest(paths, |first|);
      var n := Extend(paths, 1);
      GreedyIsMinimal(batches[1..], rest);
      assert rest[n - |first|..] == paths[n..];
      GreedyMonotone(rest, n - |first|);
    }
  }

  lemma PartitionCons(first: seq<string>, rest: seq<seq<string>>, tail: seq<string>)
    requires Fits(first) && IsPartition(rest, tail)
    ensures IsPartition([first] + rest, first + tail)
  {
    var all := [first] + rest;
    assert all[1..] == rest;
    forall i | 0 <= i < |all| ensures Fits(all[i]) {
      if i > 0 { assert all[i] == rest[i - 1]; }
    }
  }

  lemma {:induction false} GreedyIsPartition(paths: seq<string>)
    ensures IsPartition(Greedy(paths), paths)
    decreases |paths|
  {
    if paths != [] {
      var n := Extend(paths, 1);
      var first, rest := paths[..n], Greedy(paths[n..]);
      GreedyIsPartition(paths[n..]);
      PartitionCons(first, rest, paths[n..]);
      assert paths == first + paths[n..];
    }
  }

  /** Where the greedy batch that begins at `start` ends. */
  function Cut(paths: seq<string>, start: nat): (end: nat)
    requires start < |paths|
    ensures start < end <= |paths|
  {
    start + Extend(paths[start..], 1)
  }

  lemma CutLater(paths: seq<string>, start: nat, index: nat)
    requires start < index <= |paths| && Fits(paths[start..index])
    ensures index <= Cut(paths, start)
  {
    assert paths[start..][..index - start] == paths[start..index];
    ExtendIsLongest(paths[start..], index - start);
  }

  lemma CutHere(paths: seq<string>, start: nat, index: nat)
    requires start < index < |paths| && Fits(paths[start..index]) && !Fits(paths[start..index + 1])
    ensures Cut(paths, start) == index
  {
    CutLater(paths, start, index);
    var s := paths[start..];
    var n := Extend(s, 1);
    if n > index - start {
      assert s[..n][0..index + 1 - start] == paths[start..index + 1];
      PieceFits(s[..n], 0, index + 1 - start);
    }
  }

  lemma GreedyUnfold(paths: seq<string>, start: nat, end: nat)
    requires start < |paths| && end == Cut(paths, start)
    ensures Greedy(paths[start..]) == [paths[start..end]] + Greedy(paths[end..])
  {
    assert paths[start..][..end - start] == paths[start..end];
    assert paths[start..][end - start..] == paths[end..];
  }

  lemma BytesSnoc(paths: seq<string>, start: nat, index: nat)
    requires start <= index < |paths|
    ensures Bytes(paths[start..index + 1]) == Bytes(paths[start..index]) + ArgBytes(paths[index])
  {
    assert paths[start..index + 1][..index - start] == paths[start..index];
  }

  lemma GreedyEmpty(paths: seq<string>)
    requires paths == []
    ensures Greedy(paths) == [] && Bytes(paths) == 0
  {
  }

  method GreedyBatches(paths: seq<string>) returns (batches: seq<seq<string>>)
    ensures batches == Greedy(paths)
  {
    hide Greedy, Bytes, Cut, ArgBytes;
    batches := [];
    if |paths| == 0 { assert Greedy(paths) == [] by { GreedyEmpty(paths); } return; }
    assert paths[0..] == paths;
    var start, batchBytes := 0, 0;
    GreedyEmpty(paths[0..0]);
    for index := 0 to |paths|
      invariant start <= index && (start == index ==> index == 0)
      invariant batchBytes == Bytes(paths[start..index])
      invariant start < index ==> Fits(paths[start..index])
      invariant Greedy(paths) == batches + Greedy(paths[start..])
    {
      var pathBytes := ArgBytes(paths[index]);
      BytesSnoc(paths, start, index);
      GreedyEmpty(paths[index..index]);
      if index > start && (index - start >= BATCH_PATHS || batchBytes + pathBytes > BATCH_BYTES) {
        CutHere(paths, start, index);
        GreedyUnfold(paths, start, index);
        batches := batches + [paths[start..index]];
        start := index;
        batchBytes := 0;
        BytesSnoc(paths, start, index);
      }
      batchBytes := batchBytes + pathBytes;
    }
    CutLater(paths, start, |paths|);
    GreedyUnfold(paths, start, |paths|);
    GreedyEmpty(paths[|paths|..]);
    assert paths[start..|paths|] == paths[start..];
    batches := batches + [paths[start..]];
  }

  /** `gitPathspecBatches`: contiguous, each piece within the limits or a single path, and as few
      pieces as any such split can have. */
  method Batches(paths: seq<string>) returns (batches: seq<seq<string>>)
    ensures IsPartition(batches, paths)
    ensures forall other :: IsPartition(other, paths) ==> |batches| <= |other|
  {
    batches := GreedyBatches(paths);
    GreedyIsPartition(paths);
    forall other | IsPartition(other, paths) ensures |Greedy(paths)| <= |other| {
      GreedyIsMinimal(other, paths);
    }
  }

  // ----- merging the per-batch answers -----

  /** `mergeGitPaths`: first occurrences, in order. */
  method Merge(groups: seq<seq<string>>) returns (merged: seq<string>)
    ensures Distinct(merged)
    ensures forall p :: p in merged <==> p in Concat(groups)
  {
    merged := [];
    var seen: set<string> := {};
    for g := 0 to |groups|
      invariant Distinct(merged) && seen == Elements(merged)
      invariant forall p :: p in Concat(groups) <==> p in merged || p in Concat(groups[g..])
    {
      assert groups[g..][0] == groups[g] && groups[g..][1..] == groups[g + 1..];
      for i := 0 to |groups[g]|
        invariant Distinct(merged) && seen == Elements(merged)
        invariant forall p :: p in Concat(groups) <==>
          p in merged || p in groups[g][i..] || p in Concat(groups[g + 1..])
      {
        var path := groups[g][i];
        assert groups[g][i..] == [path] + groups[g][i + 1..];
        if path !in seen {
          seen := seen + {path};
          merged := merged + [path];
        }
      }
    }
  }

  /** `mergeSortedGitPaths`. */
  method MergeSorted(groups: seq<seq<string>>) returns (merged: seq<string>)
    ensures Ascending(merged)
    ensures forall p :: p in merged <==> p in Concat(groups)
  {
    var unsorted := Merge(groups);
    SortDistinct(unsorted);
    merged := Sort(unsorted);
  }

  /** A git query that answers path by path: from any list it returns the listed paths among `hits`. */
  ghost predicate Pathwise(query: seq<string> -> seq<string>, hits: set<string>) {
    forall list: seq<string>, p: string :: p in query(list) <==> p in list && p in hits
  }

  lemma {:induction false} ConcatMember(batches: seq<seq<string>>, i: nat, p: string)
    requires i < |batches| && p in batches[i]
    ensures p in Concat(batches)
  {
    if i > 0 { ConcatMember(batches[1..], i - 1, p); }
  }

  lemma {:induction false} MemberConcat(batches: seq<seq<string>>, p: string) returns (i: nat)
    requires p in Concat(batches)
    ensures i < |batches| && p in batches[i]
  {
    if p in batches[0] {
      i := 0;
    } else {
      i := MemberConcat(batches[1..], p);
      i := i + 1;
    }
  }

  lemma Answers(query: seq<string> -> seq<string>, hits: set<string>, list: seq<string>, p: string)
    requires Pathwise(query, hits)
    ensures p in query(list) <==> p in list && p in hits
  {
  }

  lemma AnswerOfBatches(query: seq<string> -> seq<string>, hits: set<string>,
                        batches: seq<seq<string>>, groups: seq<seq<string>>, p: string)
    requires Pathwise(query, hits)
    requires |groups| == |batches| && forall i :: 0 <= i < |batches| ==> groups[i] == query(batches[i])
    ensures p in Concat(groups) <==> p in Concat(batches) && p in hits
  {
    hide Pathwise, Concat;
    if p in Concat(groups) {
      var i := MemberConcat(groups, p);
      Answers(query, hits, batches[i], p);
      ConcatMember(batches, i, p);
    }
    if p in Concat(batches) && p in hits {
      var i := MemberConcat(batches, p);
      Answers(query, hits, batches[i], p);
      ConcatMember(groups, i, p);
    }
  }

  /** `gitFilesForPaths` and `gitDiffNameOnlyForPaths`: one query per batch, merged and sorted, is the
      sorted answer of a single unlimited query. */
  method FilesForPaths(query: seq<string> -> seq<string>, ghost hits: set<string>, paths: seq<string>)
    returns (files: seq<string>)
    requires Pathwise(query, hits)
    ensures Ascending(files)
    ensures forall p :: p in files <==> p in paths && p in hits
  {
    hide Pathwise, Concat, Fits;
    if |paths| == 0 { return []; }
    var batches := Batches(paths);
    var groups: seq<seq<string>> := [];
    for b := 0 to |batches|
      invariant |groups| == b
      invariant forall i :: 0 <= i < b ==> groups[i] == query(batches[i])
    {
      groups := groups + [query(batches[b])];
    }
    files := MergeSorted(groups);
    forall p ensures p in Concat(groups) <==> p in paths && p in hits {
      AnswerOfBatches(query, hits, batches, groups, p);
    }
  }

  /** The merged answer does not depend on how the paths were cut: it is the one-invocation answer. */
  lemma BatchingIsInvisible(query: seq<string> -> seq<string>, hits: set<string>, paths: seq<string>,
                            batched: seq<string>, single: seq<string>)
    requires Pathwise(query, hits)
    requires Ascending(batched) && forall p :: p in batched <==> p in paths && p in hits
    requires Ascending(single) && forall p :: p in single <==> p in query(paths)
    ensures batched == single
  {
    AscendingIsUnique(batched, single);
  }
}
