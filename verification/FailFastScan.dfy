/** internal/app/lockfile_drift_scanner.go, fail mode: directory snapshots are buffered, git is asked once per batch,
    and ambiguity or a read error falls back to the rule-by-rule replay. The scanner takes the steps of
    `FailFastSteps`. */
module FailFastScan {
  import opened Strings
  import opened Results
  import opened GitPathspec
  import opened GitContext
  import opened DriftRules
  import opened FailFastSteps

  class SnapshotBatch {
    var snapshots: seq<Snapshot>
    var candidatePaths: seq<string>
    var candidatePathBytes: nat
    var seenCandidates: set<string>

    constructor ()
      ensures Valid() && Waiting() == NOTHING
    {
      snapshots, candidatePaths, candidatePathBytes, seenCandidates := [], [], 0, {};
    }

    ghost function Waiting(): Pending
      reads this
    {
      Pending(snapshots, candidatePaths)
    }

    /** The limits a batch of two or more snapshots keeps; one snapshot alone may exceed them. */
    ghost predicate Valid()
      reads this
    {
      && seenCandidates == Elements(candidatePaths)
      && Distinct(candidatePaths)
      && candidatePathBytes == Bytes(candidatePaths)
      && |snapshots| <= BATCH_SNAPSHOTS
      && (|snapshots| >= 2 ==> |candidatePaths| <= BATCH_PATHS && candidatePathBytes <= BATCH_BYTES)
      && (snapshots == [] ==> candidatePaths == [])
    }

    /** `wouldOverflow`: would adding these paths break a limit of a batch of two or more? */
    method WouldOverflow(paths: seq<string>) returns (overflow: bool)
      requires Valid() && Distinct(paths)
      ensures overflow == Overflows(Waiting(), paths)
    {
      if |snapshots| == 0 { return false; }
      var additionalPaths, additionalBytes := 0, 0;
      for i := 0 to |paths|
        invariant additionalPaths == |Fresh(paths[..i], seenCandidates)|
        invariant additionalBytes == Bytes(Fresh(paths[..i], seenCandidates))
      {
        FreshStep(paths, i, seenCandidates);
        if paths[i] !in seenCandidates {
          additionalPaths := additionalPaths + 1;
          additionalBytes := additionalBytes + ArgBytes(paths[i]);
        }
      }
      assert paths[..|paths|] == paths;
      BytesConcat(candidatePaths, Fresh(paths, seenCandidates));
      overflow := |snapshots| >= BATCH_SNAPSHOTS
        || |candidatePaths| + additionalPaths > BATCH_PATHS
        || candidatePathBytes + additionalBytes > BATCH_BYTES;
    }

    method Add(snapshot: Snapshot, paths: seq<string>)
      requires Valid() && Distinct(paths) && !Overflows(Waiting(), paths)
      modifies this
      ensures Valid() && Waiting() == With(old(Waiting()), snapshot, paths)
    {
      AddedPaths(candidatePaths, paths, seenCandidates);
      hide Fresh, Bytes, Distinct, Elements;
      snapshots := snapshots + [snapshot];
      AddPaths(paths);
    }

    method AddPaths(paths: seq<string>)
      requires Distinct(paths) && candidatePathBytes == Bytes(candidatePaths)
      modifies this
      ensures snapshots == old(snapshots)
      ensures candidatePaths == old(candidatePaths) + Fresh(paths, old(seenCandidates))
      ensures seenCandidates == old(seenCandidates) + Elements(paths)
      ensures candidatePathBytes == Bytes(candidatePaths)
    {
      ghost var before, known := candidatePaths, seenCandidates;
      NoneAdded(before, known, paths[..0]);
      hide Fresh, Bytes, Elements, ArgBytes;
      for i := 0 to |paths|
        invariant snapshots == old(snapshots)
        invariant candidatePaths == before + Fresh(paths[..i], known)
        invariant seenCandidates == known + Elements(paths[..i])
        invariant candidatePathBytes == Bytes(candidatePaths)
      {
        AddStep(before, paths, i, known);
        if paths[i] !in seenCandidates {
          seenCandidates := seenCandidates + {paths[i]};
          candidatePaths := candidatePaths + [paths[i]];
          candidatePathBytes := candidatePathBytes + ArgBytes(paths[i]);
        }
      }
      assert paths[..|paths|] == paths;
    }

    method Take() returns (taken: seq<Snapshot>, paths: seq<string>)
      requires Valid()
      modifies this
      ensures Valid() && Waiting() == NOTHING
      ensures Pending(taken, paths) == old(Waiting())
    {
      taken, paths := snapshots, candidatePaths;
      snapshots, candidatePaths, candidatePathBytes, seenCandidates := [], [], 0, {};
    }
  }

  // ----- the scanner -----

  /** What a walk callback returns: carry on, `fs.SkipAll`, or an error. */
  datatype Signal = Continue | SkipAll | Fail(error: DriftError)

  ghost predicate Reports(signal: Signal, warnings: seq<Warning>, outcome: Outcome) {
    match signal
    case Continue => outcome == Quiet && warnings == []
    case SkipAll => |warnings| == 1 && outcome == Found(warnings[0])
    case Fail(e) => outcome == Failed(e) && warnings == []
  }

  /** The signal is to end the walk with the step's outcome, or to go on with nothing reported. */
  ghost predicate Signals(signal: Signal, warnings: seq<Warning>, step: Step) {
    match step
    case Going(_) => signal == Continue && warnings == []
    case Over(outcome) => signal != Continue && Reports(signal, warnings, outcome)
  }

  /** `appendUniqueLockfilePaths`. */
  method AppendUnique(candidates: seq<string>, paths: seq<string>) returns (all: seq<string>)
    ensures Distinct(all) && forall p :: p in all <==> p in candidates || p in paths
  {
    assert Concat([candidates, paths]) == candidates + paths by {
      assert [candidates, paths][1..] == [paths];
      assert Concat([paths]) == paths;
    }
    all := Merge([candidates, paths]);
  }

  method SortUnique(paths: seq<string>) returns (sorted: seq<string>)
    requires Distinct(paths)
    ensures Ascending(sorted) && Distinct(sorted) && forall p :: p in sorted <==> p in paths
  {
    SortDistinct(paths);
    sorted := Sort(paths);
    forall i, j | 0 <= i < j < |sorted| ensures sorted[i] != sorted[j] { LessIrreflexive(sorted[i]); }
  }

  /** `lockfileManifestChangeCandidatePathsWithCache`. */
  method CandidatePaths(s: Snapshot, rules: seq<Rule>) returns (r: Result<seq<string>, seq<DriftError>>)
    ensures r.Ok? <==> forall i :: 0 <= i < |rules| ==> Candidates(s, rules[i]).Ok?
    ensures r.Ok? ==> Ascending(r.value) && Distinct(r.value)
    ensures r.Ok? ==> forall p :: p in r.value <==>
      exists i :: 0 <= i < |rules| && p in CandidatesOf(s, rules[i])
  {
    hide Candidates;
    var candidates: seq<string>, errors: seq<DriftError> := [], [];
    for i := 0 to |rules|
      invariant errors == [] <==> forall j :: 0 <= j < i ==> Candidates(s, rules[j]).Ok?
      invariant Distinct(candidates)
      invariant forall p :: p in candidates <==>
        exists j :: 0 <= j < i && p in CandidatesOf(s, rules[j])
    {
      var own := Candidates(s, rules[i]);
      if own.Err? {
        errors := errors + [own.error];
        if !IsRecoverable(own.error) { return Err(errors); }
      } else {
        candidates := AppendUnique(candidates, own.value);
      }
    }
    if errors != [] { return Err(errors); }
    var sorted := SortUnique(candidates);
    r := Ok(sorted);
  }

  /** `firstLockfileDriftWarningWithRuleIndex`. */
  method FirstWarning(s: Snapshot, rules: seq<Rule>, git: GitView) returns (outcome: Outcome, index: nat)
    ensures outcome == FirstFinding(s, rules, git)
    ensures outcome.Found? && git == NO_GIT ==> index == BeforeFinding(s, rules)
  {
    for i := 0 to |rules|
      invariant FirstFinding(s, rules, git) == FirstFinding(s, rules[i..], git)
      invariant git == NO_GIT ==> BeforeFinding(s, rules) == i + BeforeFinding(s, rules[i..])
    {
      assert rules[i..][1..] == rules[i + 1..];
      match Evaluate(s, rules[i], git) {
        case Err(e) => return Failed(e), 0;
        case Ok(Some(finding)) => return Found(BuildWarning(finding)), i;
        case Ok(None) =>
      }
    }
    return Quiet, 0;
  }

  /** `lockfileFailFastBatchScanner`. */
  class Scanner {
    const repo: Repository
    const rules: seq<Rule>
    const batch: SnapshotBatch
    var warnings: seq<Warning>

    constructor (repo: Repository, rules: seq<Rule>)
      ensures Valid() && fresh(batch) && batch.Waiting() == NOTHING
      ensures this.repo == repo && this.rules == rules
    {
      this.repo, this.rules, warnings := repo, rules, [];
      batch := new SnapshotBatch();
    }

    /** Nothing reported yet, and every buffered snapshot's outcome is settled by one shared answer. */
    ghost predicate Valid()
      reads this, batch
    {
      warnings == [] && batch.Valid() && Settled(batch.Waiting(), rules)
    }

    /** `recordFirst`. */
    method RecordFirst(s: Snapshot, git: GitView) returns (signal: Signal)
      requires warnings == []
      modifies this
      ensures Reports(signal, warnings, FirstFinding(s, rules, git))
    {
      var outcome, _ := FirstWarning(s, rules, git);
      match outcome {
        case Failed(e) => signal := Fail(e);
        case Quiet => signal := Continue;
        case Found(w) =>
          warnings := warnings + [w];
          signal := SkipAll;
      }
    }

    /** `recordFirstSnapshotRuleByRule`: every rule asks git for its own candidates only. */
    method RecordRuleByRule(s: Snapshot) returns (signal: Signal)
      requires warnings == []
      modifies this
      ensures Reports(signal, warnings, RuleByRule(s, rules, repo))
    {
      for i := 0 to |rules|
        invariant warnings == []
        invariant RuleByRule(s, rules, repo) == RuleByRule(s, rules[i..], repo)
      {
        assert rules[i..][1..] == rules[i + 1..];
        var candidates := Candidates(s, rules[i]);
        if candidates.Err? { return Fail(candidates.error); }
        var git := NO_GIT;
        if candidates.value != [] {
          var answer := CollectContext(repo, candidates.value);
          if answer.Err? { return Fail(answer.error); }
          git := GitView(true, answer.value);
        }
        match Evaluate(s, rules[i], git) {
          case Err(e) => return Fail(e);
          case Ok(Some(finding)) =>
            warnings := warnings + [BuildWarning(finding)];
            return SkipAll;
          case Ok(None) =>
        }
      }
      signal := Continue;
    }

    /** `flushSnapshotsInOrder`. */
    method FlushInOrder(snapshots: seq<Snapshot>) returns (signal: Signal)
      requires warnings == []
      modifies this
      ensures Reports(signal, warnings, FirstOf(snapshots, rules, repo))
    {
      for i := 0 to |snapshots|
        invariant warnings == []
        invariant FirstOf(snapshots, rules, repo) == FirstOf(snapshots[i..], rules, repo)
      {
        assert snapshots[i..][1..] == snapshots[i + 1..];
        signal := RecordRuleByRule(snapshots[i]);
        if signal != Continue { return; }
      }
      signal := Continue;
    }

    /** `flush`: one git question for the whole batch, whose failure is the outcome; ambiguity falls back to the
        replay. */
    method Flush() returns (signal: Signal)
      requires Valid()
      modifies this, batch
      ensures batch.Valid() && batch.Waiting() == NOTHING
      ensures signal == Continue ==> Valid()
      ensures Reports(signal, warnings, Settle(old(batch.Waiting()), rules, repo))
    {
      var snapshots, asked := batch.Take();
      if |snapshots| == 0 { return Continue; }
      var answer := CollectContext(repo, asked);
      if answer.Err? {
        if answer.error.FilterAmbiguity? {
          signal := FlushInOrder(snapshots);
        } else {
          signal := Fail(answer.error);
        }
      } else {
        signal := RecordBatch(snapshots, asked, answer.value);
      }
    }

    method RecordBatch(snapshots: seq<Snapshot>, ghost asked: seq<string>, changed: set<string>)
        returns (signal: Signal)
      requires warnings == [] && asked != [] && Query(repo, asked) == Ok(changed)
      requires forall s <- snapshots :: Covered(s, rules, Elements(asked))
      modifies this
      ensures Reports(signal, warnings, FirstOf(snapshots, rules, repo))
    {
      for i := 0 to |snapshots|
        invariant warnings == []
        invariant FirstOf(snapshots, rules, repo) == FirstOf(snapshots[i..], rules, repo)
      {
        assert snapshots[i..][1..] == snapshots[i + 1..];
        SharedAnswerServes(snapshots[i], rules, repo, asked);
        signal := RecordFirst(snapshots[i], GitView(true, changed));
        if signal != Continue { return; }
      }
      signal := Continue;
    }

    /** `visit`. */
    method VisitSnapshot(s: Snapshot) returns (signal: Signal)
      requires Valid()
      modifies this, batch
      ensures Stepped(signal, VisitStep(old(batch.Waiting()), s, rules, repo))
    {
      hide RuleByRule, FirstFinding, AskedPaths, Settle, Settled, Covered, Asks, BufferStep;
      var early, paths := EvaluateEarly(s);
      if early.Failed? {
        signal := Flush();
        if signal == Continue { signal := RecordRuleByRule(s); }
      } else if |paths| == 0 {
        signal := SettleUnasked(early);
      } else {
        AskedCovers(s, rules, repo);
        signal := Buffer(s, paths, early.Found?);
      }
    }

    /** The scanner is where the step says, with the same snapshots waiting. */
    ghost predicate Stepped(signal: Signal, step: Step)
      reads this, batch
    {
      Signals(signal, warnings, step) && batch.Valid() &&
        batch.Waiting() == (if step.Going? then step.pending else NOTHING) &&
      (step.Going? ==> Valid())
    }

    /** `visit` up to its first decision: the git-free outcome and what must be asked about. */
    method EvaluateEarly(s: Snapshot) returns (early: Outcome, paths: seq<string>)
      ensures early == FirstFinding(s, rules, NO_GIT)
      ensures !early.Failed? ==> paths == AskedPaths(s, rules)
    {
      hide *;
      var findingRuleIndex;
      BeforeFindingBounds(s, rules);
      early, findingRuleIndex := FirstWarning(s, rules, NO_GIT);
      if early.Failed? { return early, []; }
      var candidateRules := rules;
      if early.Found? { candidateRules := rules[..findingRuleIndex]; }
      assert candidateRules == rules[..BeforeFinding(s, rules)];
      var candidates := CandidatePaths(s, candidateRules);
      // The same manifests were read without error just above.
      if candidates.Err? { assert false; }
      paths := candidates.value;
      AscendingIsUnique(paths, AskedPaths(s, rules));
    }

    /** `visit` when no rule has anything to ask git about. */
    method SettleUnasked(early: Outcome) returns (signal: Signal)
      requires Valid() && !early.Failed?
      modifies this, batch
      ensures Stepped(signal, if early == Quiet then Going(old(batch.Waiting()))
                              else Over(Then(Settle(old(batch.Waiting()), rules, repo), early)))
    {
      if early == Quiet { return Continue; }
      signal := Flush();
      if signal == Continue {
        warnings := warnings + [early.warning];
        signal := SkipAll;
      }
    }

    /** `visit` when some rule must ask: make room, buffer, and settle at once if drift is already known. */
    method Buffer(s: Snapshot, paths: seq<string>, found: bool) returns (signal: Signal)
      requires Valid() && Distinct(paths) && paths != []
      requires Covered(s, rules, Elements(paths)) && Asks(s, rules)
      modifies this, batch
      ensures Stepped(signal, BufferStep(old(batch.Waiting()), s, paths, found, rules, repo))
    {
      hide Covered, Asks, Settle, Settled, Overflows;
      NothingFits(paths);
      var overflow := batch.WouldOverflow(paths);
      if overflow {
        signal := Flush();
        if signal != Continue { return; }
      }
      AddBuffered(s, paths);
      signal := Continue;
      if found { signal := Flush(); }
    }

    method AddBuffered(s: Snapshot, paths: seq<string>)
      requires Valid() && Distinct(paths) && paths != []
      requires Covered(s, rules, Elements(paths)) && Asks(s, rules) && !Overflows(batch.Waiting(), paths)
      modifies batch
      ensures Valid() && batch.Waiting() == With(old(batch.Waiting()), s, paths)
    {
      AddedCovers(batch.Waiting(), s, paths, rules);
      batch.Add(s, paths);
    }

    /** `handleWalkEntry`: a failing entry is reported only after the buffered snapshots had their say. */
    method HandleWalkEntry(event: WalkEvent) returns (signal: Signal)
      requires Valid()
      modifies this, batch
      ensures Stepped(signal, EntryStep(old(batch.Waiting()), event, rules, repo))
    {
      hide VisitStep, Settle, Settled;
      match event {
        case PassOver => signal := Continue;
        case WalkError(e) =>
          signal := Flush();
          if signal == Continue { signal := Fail(e); }
        case Visit(s) =>
          signal := VisitSnapshot(s);
          NothingSettled(rules);
          if signal.Fail? {
            var flushed := Flush();
            if flushed != Continue { signal := flushed; }
          }
      }
    }
  }

  /** `scan` and `result`: whatever was walked, however git answers, the outcome is that of the batched steps. */
  method Scan(events: seq<WalkEvent>, rules: seq<Rule>, repo: Repository) returns (outcome: Outcome)
    ensures outcome == Batched(events, NOTHING, rules, repo)
    ensures Agrees(outcome, InOrder(events, rules, repo), AskedBy(events, rules), repo)
  {
    hide EntryStep, Settle, Settled, InOrder, AskedBy, Agrees;
    ScanAgrees(events, rules, repo);
    var scanner := new Scanner(repo, rules);
    for i := 0 to |events|
      invariant scanner.Valid() && scanner.repo == repo && scanner.rules == rules
      invariant fresh(scanner) && fresh(scanner.batch)
      invariant Batched(events, NOTHING, rules, repo) == Batched(events[i..], scanner.batch.Waiting(), rules, repo)
    {
      assert events[i..][1..] == events[i + 1..];
      var signal := scanner.HandleWalkEntry(events[i]);
      match signal {
        case Continue =>
        case SkipAll => return Found(scanner.warnings[0]);
        case Fail(e) => return Failed(e);
      }
    }
    var signal := scanner.Flush();
    match signal {
      case Continue => outcome := Quiet;
      case SkipAll => outcome := Found(scanner.warnings[0]);
      case Fail(e) => outcome := Failed(e);
    }
  }
}
