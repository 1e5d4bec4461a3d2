/** internal/app/lockfile_drift_scanner.go, warn mode: a prepare pass reads every manifest and collects the
    paths to ask git about; a replay pass then reports. Together they report what direct evaluation does. */
module PreparedScan {
  import opened Strings
  import opened Results
  import opened GitContext
  import opened DriftRules
  import opened FailFastSteps

  /** An ordered warning: drift, or a manifest too large to inspect. */
  datatype Line = Drift(warning: Warning) | Oversized(error: DriftError)

  /** A size error, filed under the manifest it concerns (`lockfileManifestReadErrorKey`). */
  datatype ReadRecord = ReadRecord(key: (string, string), error: DriftError)

  function RecordKey(s: Snapshot, rule: Rule): (string, string) {
    (s.path, View(Select(s.files, rule), []).ManifestName(rule))
  }

  predicate Known(records: seq<ReadRecord>, key: (string, string)) {
    exists i :: 0 <= i < |records| && records[i].key == key
  }

  function AddRecord(records: seq<ReadRecord>, record: ReadRecord): seq<ReadRecord> {
    if Known(records, record.key) then records else records + [record]
  }

  function MergeRecords(records: seq<ReadRecord>, other: seq<ReadRecord>): seq<ReadRecord> {
    if other == [] then records
    else AddRecord(MergeRecords(records, other[..|other| - 1]), other[|other| - 1])
  }

  /** `lockfileManifestReadErrors`. */
  class ReadErrors {
    var records: seq<ReadRecord>
    var seen: set<(string, string)>

    constructor ()
      ensures Valid() && records == []
    {
      records, seen := [], {};
    }

    ghost predicate Valid()
      reads this
    {
      forall key :: key in seen <==> Known(records, key)
    }

    method Add(record: ReadRecord) returns (added: bool)
      requires Valid()
      modifies this
      ensures Valid()
      ensures added == !Known(old(records), record.key)
      ensures records == AddRecord(old(records), record)
    {
      if record.key in seen { return false; }
      ghost var before := records;
      seen := seen + {record.key};
      records := records + [record];
      forall key ensures key in seen <==> Known(records, key) {
        if Known(before, key) {
          var i :| 0 <= i < |before| && before[i].key == key;
          assert records[i].key == key;
        }
        assert records[|before|].key == record.key;
      }
      added := true;
    }

    method Merge(other: seq<ReadRecord>)
      requires Valid()
      modifies this
      ensures Valid() && records == MergeRecords(old(records), other)
    {
      ghost var before := records;
      for i := 0 to |other|
        invariant Valid() && records == MergeRecords(before, other[..i])
      {
        assert other[..i + 1][..i] == other[..i];
        var _ := Add(other[i]);
      }
      assert other[..|other|] == other;
    }
  }

  /** `lockfileManifestCache`: a read is remembered, error or not, and answers like the file system. */
  class ManifestCache {
    const snapshot: Snapshot
    var answers: map<string, Result<string, bool>>

    constructor (snapshot: Snapshot)
      ensures Valid() && this.snapshot == snapshot
    {
      this.snapshot, answers := snapshot, map[];
    }

    ghost predicate Valid()
      reads this
    {
      forall name :: name in answers ==> answers[name] == ReadManifest(snapshot, name)
    }

    method Read(name: string) returns (content: Result<string, bool>)
      requires Valid()
      modifies this
      ensures Valid() && content == ReadManifest(snapshot, name)
      ensures answers.Keys == old(answers).Keys + {name}
    {
      if name in answers { return answers[name]; }
      content := ReadManifest(snapshot, name);
      answers := answers[name := content];
    }
  }

  // ----- direct evaluation -----

  datatype Evaluation = Evaluation(lines: seq<Line>, records: seq<ReadRecord>, fatal: Option<DriftError>)

  /** One rule's answer, added to what the directory gave so far. */
  function Absorb(key: (string, string), answer: Result<Option<Finding>, DriftError>, so: Evaluation): Evaluation {
    match answer
    case Err(e) =>
      if !IsRecoverable(e) then so.(fatal := Some(e))
      else if Known(so.records, key) then so
      else so.(lines := so.lines + [Oversized(e)], records := so.records + [ReadRecord(key, e)])
    case Ok(None) => so
    case Ok(Some(finding)) => so.(lines := so.lines + [Drift(BuildWarning(finding))])
  }

  function DirectStep(s: Snapshot, rule: Rule, git: GitView, so: Evaluation): Evaluation {
    Absorb(RecordKey(s, rule), Evaluate(s, rule, git), so)
  }

  /** `evaluateLockfileDirWithRulesAndCache`. */
  function DirectDir(s: Snapshot, rules: seq<Rule>, git: GitView): Evaluation {
    if rules == [] then Evaluation([], [], None)
    else
      var so := DirectDir(s, rules[..|rules| - 1], git);
      if so.fatal.Some? then so else DirectStep(s, rules[|rules| - 1], git, so)
  }

  /** `scanLockfileDriftDetailed` without a prepared scan. */
  function Direct(events: seq<WalkEvent>, rules: seq<Rule>, git: GitView): Evaluation {
    if events == [] then Evaluation([], [], None)
    else
      var so := Direct(events[..|events| - 1], rules, git);
      if so.fatal.Some? then so
      else match events[|events| - 1]
        case PassOver => so
        case WalkError(e) => so.(fatal := Some(e))
        case Visit(s) =>
          var dir := DirectDir(s, rules, git);
          Evaluation(so.lines + dir.lines, MergeRecords(so.records, dir.records), dir.fatal)
  }

  // ----- the prepare pass -----

  datatype PreparedRule =
    | Replay(rule: Rule, view: View)
    | Change(rule: Rule, relDir: string, manifests: seq<(string, string)>, lockfiles: seq<(string, string)>)
    | Unreadable(error: DriftError)

  datatype PreparedDir = PreparedDir(path: string, relDir: string, rules: seq<PreparedRule>)

  function References(relDir: string, names: seq<string>): seq<(string, string)> {
    if names == [] then [] else [(names[0], RelPath(relDir, names[0]))] + References(relDir, names[1..])
  }

  /** What one rule contributes: a prepared rule to keep, a record to file, paths to ask about. */
  datatype Prepared = Prepared(kept: Option<PreparedRule>, record: Option<ReadRecord>, paths: seq<string>)

  function PrepareError(s: Snapshot, rule: Rule, e: DriftError, records: seq<ReadRecord>)
      : Result<Prepared, DriftError> {
    if !IsRecoverable(e) then Err(e)
    else if Known(records, RecordKey(s, rule)) then Ok(Prepared(None, None, []))
    else Ok(Prepared(Some(Unreadable(e)), Some(ReadRecord(RecordKey(s, rule), e)), []))
  }

  /** `prepareLockfileRule`. */
  function PrepareRule(s: Snapshot, rule: Rule, records: seq<ReadRecord>): Result<Prepared, DriftError> {
    var v :- Look(s, rule);
    match MissingOrStale(s, rule, v)
    case Err(e) => PrepareError(s, rule, e, records)
    case Ok(Some(_)) => Ok(Prepared(Some(Replay(rule, v)), None, []))
    case Ok(None) =>
      if !v.HasManifest() && v.lockfiles == [] then Ok(Prepared(None, None, []))
      else match Matches(s, rule, v.ManifestName(rule))
        case Err(e) => PrepareError(s, rule, e, records)
        case Ok(matches) =>
          if !matches && v.lockfiles != [] then Ok(Prepared(Some(Replay(rule, v)), None, []))
          else if !v.HasManifest() || v.lockfiles == [] || !matches then Ok(Prepared(None, None, []))
          else Ok(Prepared(Some(Change(rule, s.relDir, References(s.relDir, v.manifests),
            References(s.relDir, v.lockfiles))),
                           None, RelPaths(s.relDir, v.manifests) + RelPaths(s.relDir, v.lockfiles)))
  }

  datatype Preparation = Preparation(
    dirs: seq<PreparedDir>, records: seq<ReadRecord>, candidates: set<string>, fatal: Option<DriftError>)

  datatype DirPreparation = DirPreparation(
    rules: seq<PreparedRule>, records: seq<ReadRecord>, candidates: set<string>, fatal: Option<DriftError>)

  function Keep(prepared: Result<Prepared, DriftError>, so: DirPreparation): DirPreparation {
    match prepared
    case Err(e) => so.(fatal := Some(e))
    case Ok(p) =>
      DirPreparation(
        so.rules + (if p.kept.Some? then [p.kept.value] else []),
        so.records + (if p.record.Some? then [p.record.value] else []),
        so.candidates + Elements(p.paths), None)
  }

  function PrepareStep(s: Snapshot, rule: Rule, so: DirPreparation): DirPreparation {
    Keep(PrepareRule(s, rule, so.records), so)
  }

  /** `prepareLockfileDir`, filing read errors behind the ones already known. */
  function PrepareDir(s: Snapshot, rules: seq<Rule>, records: seq<ReadRecord>): DirPreparation {
    if rules == [] then DirPreparation([], records, {}, None)
    else
      var so := PrepareDir(s, rules[..|rules| - 1], records);
      if so.fatal.Some? then so else PrepareStep(s, rules[|rules| - 1], so)
  }

  /** `prepareLockfileManifestChangeCandidatesWithIO`. */
  function Prepare(events: seq<WalkEvent>, rules: seq<Rule>): Preparation {
    if events == [] then Preparation([], [], {}, None)
    else
      var so := Prepare(events[..|events| - 1], rules);
      if so.fatal.Some? then so
      else match events[|events| - 1]
        case PassOver => so
        case WalkError(e) => so.(fatal := Some(e))
        case Visit(s) =>
          var dir := PrepareDir(s, rules, so.records);
          Preparation(
            so.dirs + (if dir.rules != [] then [PreparedDir(s.path, s.relDir, dir.rules)] else []),
            dir.records, so.candidates + dir.candidates, dir.fatal)
  }

  // ----- the replay pass -----

  /** `disk` is what the manifests of a directory read as when the replay looks again. */
  type Disk = string -> map<string, Result<string, bool>>

  function FirstChangedReference(references: seq<(string, string)>, changed: set<string>): Option<string> {
    if references == [] then None
    else if references[0].1 in changed then Some(references[0].0)
    else FirstChangedReference(references[1..], changed)
  }

  function Names(references: seq<(string, string)>): seq<string> {
    if references == [] then [] else [references[0].0] + Names(references[1..])
  }

  /** `evaluatePreparedManifestChange`. */
  function ReplayChange(p: PreparedRule, git: GitView): Option<Finding>
    requires p.Change?
  {
    if !git.hasGit || git.changed == {} then None
    else match FirstChangedReference(p.manifests, git.changed)
      case None => None
      case Some(manifest) =>
        if FirstChangedReference(p.lockfiles, git.changed).Some? then None
        else Some(Finding(ManifestChange, p.rule, manifest, p.relDir, Names(p.lockfiles)))
  }

  /** `evaluatePreparedReplayRule`: a snapshot without a file listing, read from the disk again. */
  function ReplayRule(dir: PreparedDir, rule: Rule, v: View, disk: Disk): Result<Option<Finding>, DriftError> {
    var s := Snapshot(dir.path, dir.relDir, [], disk(dir.path), Ok([]));
    var early :- MissingOrStale(s, rule, v);
    if early.Some? then Ok(early)
    else if !v.HasManifest() && v.lockfiles == [] then Ok(None)
    else
      var matches :- Matches(s, rule, v.ManifestName(rule));
      if !matches && v.lockfiles != [] then Ok(Some(StaleFinding(dir.relDir, rule, v.lockfiles))) else Ok(None)
  }

  datatype Replayed = Replayed(lines: seq<Line>, errors: seq<DriftError>, stopped: bool)

  function ReplayStep(dir: PreparedDir, p: PreparedRule, git: GitView, disk: Disk, so: Replayed): Replayed {
    match p
    case Unreadable(e) => so.(lines := so.lines + [Oversized(e)])
    case Change(_, _, _, _) =>
      var finding := ReplayChange(p, git);
      if finding.None? then so else so.(lines := so.lines + [Drift(BuildWarning(finding.value))])
    case Replay(rule, v) =>
      match ReplayRule(dir, rule, v, disk)
      case Err(e) =>
        if IsRecoverable(e) then so.(lines := so.lines + [Oversized(e)], errors := so.errors + [e])
        else so.(errors := so.errors + [e], stopped := true)
      case Ok(None) => so
      case Ok(Some(finding)) => so.(lines := so.lines + [Drift(BuildWarning(finding))])
  }

  function ReplayDir(dir: PreparedDir, rules: seq<PreparedRule>, git: GitView, disk: Disk, so: Replayed): Replayed {
    if rules == [] then so
    else
      var before := ReplayDir(dir, rules[..|rules| - 1], git, disk, so);
      if before.stopped then before else ReplayStep(dir, rules[|rules| - 1], git, disk, before)
  }

  /** `scanPreparedLockfileDrift`. */
  function ReplayAll(dirs: seq<PreparedDir>, git: GitView, disk: Disk): Replayed {
    if dirs == [] then Replayed([], [], false)
    else
      var before := ReplayAll(dirs[..|dirs| - 1], git, disk);
      if before.stopped then before
      else
        var dir := dirs[|dirs| - 1];
        ReplayDir(dir, dir.rules, git, disk, before)
  }

  // ----- one rule: prepare and replay say what direct evaluation says -----

  ghost predicate Unchanged(s: Snapshot, disk: Disk) {
    disk(s.path) == s.contents
  }

  lemma {:induction false} ReferencesAgree(relDir: string, names: seq<string>, changed: set<string>)
    ensures FirstChangedReference(References(relDir, names), changed) == FirstChanged(relDir, names, changed)
  {
    if names != [] { ReferencesAgree(relDir, names[1..], changed); }
  }

  /** Reading again without a listing gives the same answer, because the view was kept. */
  lemma ReplayReadsTheSame(s: Snapshot, rule: Rule, v: View, disk: Disk, dir: PreparedDir)
    requires Unchanged(s, disk) && dir.path == s.path && dir.relDir == s.relDir
    ensures var again := Snapshot(dir.path, dir.relDir, [], disk(dir.path), Ok([]));
      MissingOrStale(again, rule, v) == MissingOrStale(s, rule, v) &&
      Matches(again, rule, v.ManifestName(rule)) == Matches(s, rule, v.ManifestName(rule))
  {
    hide Contains, SkipsByContent, Blank, TrimSpace, Lower, NeedsInspection;
  }

  /** The line and the record an answer contributes, given whether its manifest is already on file. */
  ghost function LineOf(answer: Result<Option<Finding>, DriftError>, known: bool): seq<Line> {
    match answer
    case Err(e) => if IsRecoverable(e) && !known then [Oversized(e)] else []
    case Ok(None) => []
    case Ok(Some(finding)) => [Drift(BuildWarning(finding))]
  }

  ghost function RecordOf(answer: Result<Option<Finding>, DriftError>, known: bool,
      key: (string, string)): Option<ReadRecord> {
    if answer.Err? && !known then Some(ReadRecord(key, answer.error)) else None
  }

  /** Preparing a rule keeps what its direct answer will need: the same fatal error, the same record, and
      something that replays to the same line. */
  ghost predicate Stands(answer: Result<Option<Finding>, DriftError>, prepared: Result<Prepared, DriftError>,
                         known: bool, key: (string, string), dir: PreparedDir, git: GitView, disk: Disk, so: Replayed)
  {
    if answer.Err? && !IsRecoverable(answer.error) then prepared == Err(answer.error)
    else
      && prepared.Ok?
      && prepared.value.record == RecordOf(answer, known, key)
      && if prepared.value.kept.None? then LineOf(answer, known) == []
         else
           ReplayStep(dir, prepared.value.kept.value, git, disk, so) == so.(lines := so.lines + LineOf(answer, known))
  }

  lemma ChangeReplays(dir: PreparedDir, rule: Rule, v: View, git: GitView, disk: Disk, so: Replayed)
    ensures var kept := Change(rule, dir.relDir, References(dir.relDir, v.manifests),
      References(dir.relDir, v.lockfiles));
      ReplayStep(dir, kept, git, disk, so) ==
      so.(lines := so.lines + LineOf(Ok(ManifestChanged(dir.relDir, rule, v, git)), false))
  {
    ReferencesAgree(dir.relDir, v.manifests, git.changed);
    ReferencesAgree(dir.relDir, v.lockfiles, git.changed);
    assert so.lines + [] == so.lines;
  }

  /** A kept replay answers again exactly what the git-free part of the evaluation answered. */
  lemma GitFreeReplays(s: Snapshot, rule: Rule, v: View, git: GitView, disk: Disk, dir: PreparedDir, so: Replayed)
    requires Unchanged(s, disk) && dir.path == s.path && dir.relDir == s.relDir
    requires Look(s, rule) == Ok(v)
    requires MissingOrStale(s, rule, v).Ok?
    requires MissingOrStale(s, rule, v).value.None? ==>
      !v.HasManifest() || v.lockfiles == [] || Matches(s, rule, v.ManifestName(rule)) != Ok(true)
    ensures Evaluate(s, rule, git).Ok? ==>
      ReplayStep(dir, Replay(rule, v), git, disk, so) == so.(lines := so.lines + LineOf(Evaluate(s, rule, git), false))
  {
    ReplayReadsTheSame(s, rule, v, disk, dir);
    assert so.lines + [] == so.lines;
  }

  lemma RuleAgrees(s: Snapshot, rule: Rule, git: GitView, disk: Disk, dir: PreparedDir, records: seq<ReadRecord>,
      so: Replayed)
    requires Unchanged(s, disk) && dir.path == s.path && dir.relDir == s.relDir && !so.stopped
    ensures Stands(Evaluate(s, rule, git), PrepareRule(s, rule, records),
                   Known(records, RecordKey(s, rule)), RecordKey(s, rule), dir, git, disk, so)
  {
    hide MissingOrStale, References, Select;
    var found := Look(s, rule);
    if found.Ok? {
      var v := found.value;
      var early := MissingOrStale(s, rule, v);
      if early.Ok? && early.value.None? && v.HasManifest() && v.lockfiles != [] &&
        Matches(s, rule, v.ManifestName(rule)) == Ok(true) {
        ChangeReplays(dir, rule, v, git, disk, so);
        assert Evaluate(s, rule, git) == Ok(ManifestChanged(s.relDir, rule, v, git));
      } else if early.Ok? && (early.value.Some? || (v.HasManifest() || v.lockfiles != [])) {
        GitFreeReplays(s, rule, v, git, disk, dir, so);
      }
    }
  }

  // ----- one directory -----

  ghost predicate PathUnknown(records: seq<ReadRecord>, path: string) {
    forall i :: 0 <= i < |records| ==> records[i].key.0 != path
  }

  /** Records of one directory: filed under its path, no manifest twice. */
  ghost predicate OfDirectory(records: seq<ReadRecord>, path: string) {
    && (forall i :: 0 <= i < |records| ==> records[i].key.0 == path)
    && (forall i, j :: 0 <= i < j < |records| ==> records[i].key != records[j].key)
  }

  /** The two passes over the rules so far agree. */
  ghost predicate Agree(direct: Evaluation, prep: DirPreparation, path: string, records: seq<ReadRecord>,
                        dir: PreparedDir, git: GitView, disk: Disk, so: Replayed)
  {
    && prep.fatal == direct.fatal
    && PathUnknown(records, path)
    && prep.records == records + direct.records
    && OfDirectory(direct.records, path)
    && ReplayDir(dir, prep.rules, git, disk, so) == so.(lines := so.lines + direct.lines)
  }

  lemma KnownBehind(records: seq<ReadRecord>, more: seq<ReadRecord>, key: (string, string))
    requires PathUnknown(records, key.0)
    ensures Known(records + more, key) <==> Known(more, key)
  {
    if Known(more, key) {
      var i :| 0 <= i < |more| && more[i].key == key;
      assert (records + more)[|records| + i].key == key;
    }
    if Known(records + more, key) {
      var i :| 0 <= i < |records + more| && (records + more)[i].key == key;
      assert i >= |records|;
      assert more[i - |records|].key == key;
    }
  }

  lemma ReplayOneMore(dir: PreparedDir, rules: seq<PreparedRule>, kept: Option<PreparedRule>, git: GitView,
      disk: Disk, so: Replayed)
    requires !ReplayDir(dir, rules, git, disk, so).stopped
    ensures ReplayDir(dir, rules + (if kept.Some? then [kept.value] else []), git, disk, so) ==
      if kept.Some? then ReplayStep(dir, kept.value, git, disk, ReplayDir(dir, rules, git, disk, so))
      else ReplayDir(dir, rules, git, disk, so)
  {
    if kept.Some? {
      assert (rules + [kept.value])[..|rules|] == rules;
    } else {
      assert rules + [] == rules;
    }
  }

  lemma OneMoreRecord(records: seq<ReadRecord>, record: ReadRecord)
    requires OfDirectory(records, record.key.0) && !Known(records, record.key)
    ensures OfDirectory(records + [record], record.key.0)
  {
  }

  lemma AbsorbAgrees(answer: Result<Option<Finding>, DriftError>, prepared: Result<Prepared, DriftError>,
                     key: (string, string), git: GitView, disk: Disk, dir: PreparedDir,
                     records: seq<ReadRecord>, so: Replayed, direct: Evaluation, prep: DirPreparation)
    requires !so.stopped && direct.fatal.None? && Agree(direct, prep, key.0, records, dir, git, disk, so)
    requires Stands(answer, prepared, Known(prep.records, key), key, dir, git, disk,
      so.(lines := so.lines + direct.lines))
    ensures Agree(Absorb(key, answer, direct), Keep(prepared, prep), key.0, records, dir, git, disk, so)
  {
    KnownBehind(records, direct.records, key);
    if prepared.Ok? {
      var known := Known(prep.records, key);
      assert so.lines + (direct.lines + LineOf(answer, known)) == (so.lines + direct.lines) + LineOf(answer, known);
      assert direct.lines + [] == direct.lines && prep.records + [] == prep.records;
      ReplayOneMore(dir, prep.rules, prepared.value.kept, git, disk, so);
      if prepared.value.record.Some? {
        var record := prepared.value.record.value;
        assert prep.records + [record] == records + (direct.records + [record]);
        OneMoreRecord(direct.records, record);
      }
    }
  }

  lemma StepAgrees(s: Snapshot, rule: Rule, git: GitView, disk: Disk, dir: PreparedDir,
                   records: seq<ReadRecord>, so: Replayed, direct: Evaluation, prep: DirPreparation)
    requires Unchanged(s, disk) && dir.path == s.path && dir.relDir == s.relDir && !so.stopped
    requires Agree(direct, prep, s.path, records, dir, git, disk, so) && direct.fatal.None?
    ensures Agree(DirectStep(s, rule, git, direct), PrepareStep(s, rule, prep), s.path, records, dir, git, disk, so)
  {
    var before := so.(lines := so.lines + direct.lines);
    RuleAgrees(s, rule, git, disk, dir, prep.records, before);
    AbsorbAgrees(Evaluate(s, rule, git), PrepareRule(s, rule, prep.records), RecordKey(s, rule),
                 git, disk, dir, records, so, direct, prep);
  }

  lemma {:induction false} DirAgrees(s: Snapshot, rules: seq<Rule>, git: GitView, disk: Disk, dir: PreparedDir,
                                     records: seq<ReadRecord>, so: Replayed)
    requires Unchanged(s, disk) && dir.path == s.path && dir.relDir == s.relDir && !so.stopped
    requires PathUnknown(records, s.path)
    ensures Agree(DirectDir(s, rules, git), PrepareDir(s, rules, records), s.path, records, dir, git, disk, so)
    decreases |rules|
  {
    if rules == [] {
      assert so.lines + [] == so.lines && records + [] == records;
    } else {
      var n := |rules| - 1;
      DirAgrees(s, rules[..n], git, disk, dir, records, so);
      if DirectDir(s, rules[..n], git).fatal.None? {
        StepAgrees(s, rules[n], git, disk, dir, records, so, DirectDir(s, rules[..n], git),
          PrepareDir(s, rules[..n], records));
      }
    }
  }

  /** Merging a new directory's records only appends them. */
  lemma {:induction false} MergeAppends(records: seq<ReadRecord>, more: seq<ReadRecord>, path: string)
    requires PathUnknown(records, path) && OfDirectory(more, path)
    ensures MergeRecords(records, more) == records + more
  {
    if more != [] {
      var n := |more| - 1;
      MergeAppends(records, more[..n], path);
      KnownBehind(records, more[..n], more[n].key);
      assert more == more[..n] + [more[n]];
      assert records + more == (records + more[..n]) + [more[n]];
    }
  }

  // ----- the whole scan -----

  /** The walk enters every directory once. */
  ghost predicate VisitsOnce(events: seq<WalkEvent>) {
    forall i, j :: 0 <= i < j < |events| && events[i].Visit? && events[j].Visit? ==>
      events[i].snapshot.path != events[j].snapshot.path
  }

  ghost predicate AllUnchanged(events: seq<WalkEvent>, disk: Disk) {
    forall i :: 0 <= i < |events| && events[i].Visit? ==> Unchanged(events[i].snapshot, disk)
  }

  ghost predicate Enters(events: seq<WalkEvent>, path: string) {
    exists j :: 0 <= j < |events| && events[j].Visit? && events[j].snapshot.path == path
  }

  ghost predicate FromVisits(records: seq<ReadRecord>, events: seq<WalkEvent>) {
    forall i :: 0 <= i < |records| ==> Enters(events, records[i].key.0)
  }

  lemma EntersMore(events: seq<WalkEvent>, n: nat, path: string)
    requires n < |events| && Enters(events[..n], path)
    ensures Enters(events[..n + 1], path)
    ensures VisitsOnce(events) && events[n].Visit? ==> events[n].snapshot.path != path
  {
    var some, more := events[..n], events[..n + 1];
    var j :| 0 <= j < |some| && some[j].Visit? && some[j].snapshot.path == path;
    assert more[j] == some[j] == events[j];
  }

  lemma FromVisitsGrows(records: seq<ReadRecord>, events: seq<WalkEvent>, n: nat)
    requires n < |events| && FromVisits(records, events[..n])
    ensures FromVisits(records, events[..n + 1])
  {
    forall i | 0 <= i < |records| ensures Enters(events[..n + 1], records[i].key.0) {
      EntersMore(events, n, records[i].key.0);
    }
  }

  lemma RecordsStayFresh(records: seq<ReadRecord>, more: seq<ReadRecord>, events: seq<WalkEvent>, n: nat)
    requires n < |events| && events[n].Visit? && VisitsOnce(events)
    requires FromVisits(records, events[..n])
    ensures PathUnknown(records, events[n].snapshot.path)
    ensures OfDirectory(more, events[n].snapshot.path) ==> FromVisits(records + more, events[..n + 1])
  {
    FromVisitsGrows(records, events, n);
    forall i | 0 <= i < |records| ensures records[i].key.0 != events[n].snapshot.path {
      EntersMore(events, n, records[i].key.0);
    }
    assert events[..n + 1][n] == events[n];
    assert Enters(events[..n + 1], events[n].snapshot.path);
  }

  /** On an unchanged file system the two passes report what direct evaluation in the same git context
      reports, line by line, and file the same read errors; the prepare pass fails exactly when direct
      evaluation does, with the same error. */
  lemma {:induction false} PrepareThenReplay(events: seq<WalkEvent>, rules: seq<Rule>, git: GitView, disk: Disk)
    requires VisitsOnce(events) && AllUnchanged(events, disk)
    ensures var direct, prep := Direct(events, rules, git), Prepare(events, rules);
      && prep.fatal == direct.fatal
      && prep.records == direct.records
      && ReplayAll(prep.dirs, git, disk) == Replayed(direct.lines, [], false)
      && FromVisits(direct.records, events)
    decreases |events|
  {
    if events != [] {
      var n := |events| - 1;
      assert events[..n + 1] == events;
      PrepareThenReplay(events[..n], rules, git, disk);
      var direct, prep := Direct(events[..n], rules, git), Prepare(events[..n], rules);
      FromVisitsGrows(direct.records, events, n);
      if direct.fatal.None? && events[n].Visit? {
        var s := events[n].snapshot;
        var dir := PrepareDir(s, rules, prep.records);
        var kept := PreparedDir(s.path, s.relDir, dir.rules);
        var so := Replayed(direct.lines, [], false);
        RecordsStayFresh(direct.records, DirectDir(s, rules, git).records, events, n);
        DirAgrees(s, rules, git, disk, kept, prep.records, so);
        MergeAppends(direct.records, DirectDir(s, rules, git).records, s.path);
        if dir.rules != [] {
          assert (prep.dirs + [kept])[..|prep.dirs|] == prep.dirs;
        } else {
          assert prep.dirs + [] == prep.dirs;
        }
      }
    }
  }

  // ----- the collected candidates are all that git needs to be asked about -----

  lemma RuleAsksEnough(s: Snapshot, rule: Rule, records: seq<ReadRecord>, a: GitView, b: GitView)
    requires a.hasGit == b.hasGit && PrepareRule(s, rule, records).Ok?
    requires forall p :: p in PrepareRule(s, rule, records).value.paths ==> (p in a.changed <==> p in b.changed)
    ensures Evaluate(s, rule, a) == Evaluate(s, rule, b)
  {
    GitFreeAnswerStands(s, rule, a);
    GitFreeAnswerStands(s, rule, b);
    if Evaluate(s, rule, NO_GIT).Ok? {
      assert Elements(Candidates(s, rule).value) <= Elements(PrepareRule(s, rule, records).value.paths);
      forall p | p in Candidates(s, rule).value ensures p in a.changed <==> p in b.changed {
        assert p in Elements(Candidates(s, rule).value);
        assert p in PrepareRule(s, rule, records).value.paths;
      }
      OnlyCandidatesMatter(s, rule, a, b);
    }
  }

  lemma {:induction false} DirAsksEnough(s: Snapshot, rules: seq<Rule>, records: seq<ReadRecord>, a: GitView,
      b: GitView)
    requires a.hasGit == b.hasGit && PrepareDir(s, rules, records).fatal.None?
    requires forall p :: p in PrepareDir(s, rules, records).candidates ==> (p in a.changed <==> p in b.changed)
    ensures DirectDir(s, rules, a) == DirectDir(s, rules, b)
    decreases |rules|
  {
    if rules != [] {
      var n := |rules| - 1;
      var so := PrepareDir(s, rules[..n], records);
      DirAsksEnough(s, rules[..n], records, a, b);
      RuleAsksEnough(s, rules[n], so.records, a, b);
    }
  }

  /** Direct evaluation with the answer for the collected candidates equals direct evaluation with complete
      knowledge of what changed. */
  lemma {:induction false} CandidatesSuffice(events: seq<WalkEvent>, rules: seq<Rule>, a: GitView, b: GitView)
    requires a.hasGit == b.hasGit && Prepare(events, rules).fatal.None?
    requires forall p :: p in Prepare(events, rules).candidates ==> (p in a.changed <==> p in b.changed)
    ensures Direct(events, rules, a) == Direct(events, rules, b)
    decreases |events|
  {
    if events != [] {
      var n := |events| - 1;
      var so := Prepare(events[..n], rules);
      CandidatesSuffice(events[..n], rules, a, b);
      if events[n].Visit? {
        DirAsksEnough(events[n].snapshot, rules, so.records, a, b);
      }
    }
  }

  // ----- the passes as the code runs them -----

  lemma {:induction false} DirectDirStops(s: Snapshot, rules: seq<Rule>, n: nat, git: GitView)
    requires n <= |rules| && DirectDir(s, rules[..n], git).fatal.Some?
    ensures DirectDir(s, rules, git) == DirectDir(s, rules[..n], git)
    decreases |rules|
  {
    if n < |rules| {
      assert rules[..|rules| - 1][..n] == rules[..n];
      DirectDirStops(s, rules[..|rules| - 1], n, git);
    } else {
      assert rules[..n] == rules;
    }
  }

  method EvaluateDirectory(s: Snapshot, rules: seq<Rule>, git: GitView) returns (e: Evaluation)
    ensures e == DirectDir(s, rules, git)
  {
    var collector := new ReadErrors();
    var lines: seq<Line> := [];
    for i := 0 to |rules|
      invariant fresh(collector) && collector.Valid()
      invariant DirectDir(s, rules[..i], git) == Evaluation(lines, collector.records, None)
    {
      assert rules[..i + 1][..i] == rules[..i];
      match Evaluate(s, rules[i], git) {
        case Err(error) =>
          if !IsRecoverable(error) {
            DirectDirStops(s, rules, i + 1, git);
            return Evaluation(lines, collector.records, Some(error));
          }
          var added := collector.Add(ReadRecord(RecordKey(s, rules[i]), error));
          if added { lines := lines + [Oversized(error)]; }
        case Ok(None) =>
        case Ok(Some(finding)) => lines := lines + [Drift(BuildWarning(finding))];
      }
    }
    assert rules[..|rules|] == rules;
    e := Evaluation(lines, collector.records, None);
  }

  lemma NewRecordsOnly(s: Snapshot, rule: Rule, records: seq<ReadRecord>)
    ensures var prepared := PrepareRule(s, rule, records);
      prepared.Ok? && prepared.value.record.Some? ==> !Known(records, prepared.value.record.value.key)
  {
    hide Select;
  }

  lemma {:induction false} PrepareDirStops(s: Snapshot, rules: seq<Rule>, n: nat, records: seq<ReadRecord>)
    requires n <= |rules| && PrepareDir(s, rules[..n], records).fatal.Some?
    ensures PrepareDir(s, rules, records) == PrepareDir(s, rules[..n], records)
    decreases |rules|
  {
    if n < |rules| {
      assert rules[..|rules| - 1][..n] == rules[..n];
      PrepareDirStops(s, rules[..|rules| - 1], n, records);
    } else {
      assert rules[..n] == rules;
    }
  }

  /** `prepareLockfileDir` over the scan's one read-error collector. */
  method PrepareDirectory(s: Snapshot, rules: seq<Rule>, collector: ReadErrors) returns (d: DirPreparation)
    requires collector.Valid()
    modifies collector
    ensures collector.Valid() && d == PrepareDir(s, rules, old(collector.records)) && collector.records == d.records
  {
    ghost var before := collector.records;
    d := DirPreparation([], collector.records, {}, None);
    for i := 0 to |rules|
      invariant collector.Valid() && collector.records == d.records
      invariant d.fatal.None? && d == PrepareDir(s, rules[..i], before)
    {
      assert rules[..i + 1][..i] == rules[..i];
      NewRecordsOnly(s, rules[i], collector.records);
      var prepared := PrepareRule(s, rules[i], collector.records);
      if prepared.Err? {
        PrepareDirStops(s, rules, i + 1, before);
        d := d.(fatal := Some(prepared.error));
        return;
      }
      if prepared.value.record.Some? {
        var added := collector.Add(prepared.value.record.value);
      }
      d := Keep(prepared, d);
    }
    assert rules[..|rules|] == rules;
  }

  lemma {:induction false} PrepareStops(events: seq<WalkEvent>, rules: seq<Rule>, n: nat)
    requires n <= |events| && Prepare(events[..n], rules).fatal.Some?
    ensures Prepare(events, rules) == Prepare(events[..n], rules)
    decreases |events|
  {
    if n < |events| {
      assert events[..|events| - 1][..n] == events[..n];
      PrepareStops(events[..|events| - 1], rules, n);
    } else {
      assert events[..n] == events;
    }
  }

  method PrepareScan(events: seq<WalkEvent>, rules: seq<Rule>) returns (p: Preparation)
    ensures p == Prepare(events, rules)
  {
    var collector := new ReadErrors();
    p := Preparation([], [], {}, None);
    for i := 0 to |events|
      invariant fresh(collector) && collector.Valid() && collector.records == p.records
      invariant p.fatal.None? && p == Prepare(events[..i], rules)
    {
      assert events[..i + 1][..i] == events[..i];
      match events[i] {
        case PassOver =>
        case WalkError(e) => p := p.(fatal := Some(e));
        case Visit(s) =>
          var dir := PrepareDirectory(s, rules, collector);
          var kept := if dir.rules != [] then [PreparedDir(s.path, s.relDir, dir.rules)] else [];
          p := Preparation(p.dirs + kept, dir.records, p.candidates + dir.candidates, dir.fatal);
      }
      if p.fatal.Some? {
        PrepareStops(events, rules, i + 1);
        return;
      }
    }
    assert events[..|events|] == events;
  }

  lemma {:induction false} ReplayDirStops(dir: PreparedDir, rules: seq<PreparedRule>, n: nat, git: GitView,
      disk: Disk, so: Replayed)
    requires n <= |rules| && ReplayDir(dir, rules[..n], git, disk, so).stopped
    ensures ReplayDir(dir, rules, git, disk, so) == ReplayDir(dir, rules[..n], git, disk, so)
    decreases |rules|
  {
    if n < |rules| {
      assert rules[..|rules| - 1][..n] == rules[..n];
      ReplayDirStops(dir, rules[..|rules| - 1], n, git, disk, so);
    } else {
      assert rules[..n] == rules;
    }
  }

  lemma {:induction false} ReplayAllStops(dirs: seq<PreparedDir>, n: nat, git: GitView, disk: Disk)
    requires n <= |dirs| && ReplayAll(dirs[..n], git, disk).stopped
    ensures ReplayAll(dirs, git, disk) == ReplayAll(dirs[..n], git, disk)
    decreases |dirs|
  {
    if n < |dirs| {
      assert dirs[..|dirs| - 1][..n] == dirs[..n];
      ReplayAllStops(dirs[..|dirs| - 1], n, git, disk);
    } else {
      assert dirs[..n] == dirs;
    }
  }

  method ReplayScan(dirs: seq<PreparedDir>, git: GitView, disk: Disk) returns (r: Replayed)
    ensures r == ReplayAll(dirs, git, disk)
  {
    r := Replayed([], [], false);
    for i := 0 to |dirs|
      invariant !r.stopped && r == ReplayAll(dirs[..i], git, disk)
    {
      assert dirs[..i + 1][..i] == dirs[..i];
      var dir := dirs[i];
      ghost var so := r;
      for k := 0 to |dir.rules|
        invariant !r.stopped && r == ReplayDir(dir, dir.rules[..k], git, disk, so)
      {
        assert dir.rules[..k + 1][..k] == dir.rules[..k];
        r := ReplayStep(dir, dir.rules[k], git, disk, r);
        if r.stopped {
          ReplayDirStops(dir, dir.rules, k + 1, git, disk, so);
          ReplayAllStops(dirs, i + 1, git, disk);
          return;
        }
      }
      assert dir.rules[..|dir.rules|] == dir.rules;
    }
    assert dirs[..|dirs|] == dirs;
  }

  function CompleteView(repo: Repository): GitView {
    GitView(true, set p | p in repo.visible && IsChanged(repo, p))
  }

  datatype WarnReport = WarnReport(lines: seq<Line>, records: seq<ReadRecord>, replayErrors: seq<DriftError>)

  /** A fatal error or git's, joined with the read errors met before. */
  datatype WarnFailure = WarnFailure(records: seq<ReadRecord>, cause: DriftError)

  method SortedCandidates(paths: set<string>) returns (sorted: seq<string>)
    ensures Ascending(sorted) && forall p :: p in sorted <==> p in paths
  {
    var rest, list: seq<string> := paths, [];
    while rest != {}
      invariant Distinct(list) && rest <= paths
      invariant forall p :: p in paths <==> p in rest || p in list
      invariant forall p :: p in list ==> p !in rest
      decreases rest
    {
      var p :| p in rest;
      rest := rest - {p};
      list := list + [p];
    }
    SortDistinct(list);
    sorted := Sort(list);
  }

  /** `detectLockfileDriftDetailed` in warn mode, in a git work tree: prepare, ask git once about the sorted
      candidates, replay. It fails with the fatal error of direct evaluation, or else with git's answer about the
      candidates, and otherwise reports what direct evaluation reports when it knows every change. */
  method WarnMode(events: seq<WalkEvent>, rules: seq<Rule>, repo: Repository, disk: Disk)
    returns (r: Result<WarnReport, WarnFailure>)
    requires VisitsOnce(events) && AllUnchanged(events, disk)
    ensures var direct := Direct(events, rules, CompleteView(repo));
      if direct.fatal.Some? then r == Err(WarnFailure(direct.records, direct.fatal.value))
      else
        forall asked :: Ascending(asked) && Elements(asked) == Prepare(events, rules).candidates ==>
          match Query(repo, asked)
          case Err(e) => r == Err(WarnFailure(direct.records, e))
          case Ok(_) => r == Ok(WarnReport(direct.lines, direct.records, []))
  {
    var prepared := PrepareScan(events, rules);
    PrepareThenReplay(events, rules, CompleteView(repo), disk);
    if prepared.fatal.Some? { return Err(WarnFailure(prepared.records, prepared.fatal.value)); }
    var candidates := SortedCandidates(prepared.candidates);
    forall asked | Ascending(asked) && Elements(asked) == prepared.candidates ensures asked == candidates {
      assert forall p :: p in asked <==> p in Elements(asked);
      AscendingIsUnique(asked, candidates);
    }
    var answer := CollectContext(repo, candidates);
    if answer.Err? { return Err(WarnFailure(prepared.records, answer.error)); }
    var git := GitView(true, answer.value);
    PrepareThenReplay(events, rules, git, disk);
    forall p | p in prepared.candidates ensures p in git.changed <==> p in CompleteView(repo).changed {
      assert p in candidates;
    }
    CandidatesSuffice(events, rules, git, CompleteView(repo));
    var replayed := ReplayScan(prepared.dirs, git, disk);
    r := Ok(WarnReport(replayed.lines, prepared.records, replayed.errors));
  }

  // ----- the two modes agree on the first finding -----

  function HeadOutcome(lines: seq<Line>): Outcome {
    if lines == [] then Quiet
    else match lines[0] case Drift(w) => Found(w) case Oversized(e) => Failed(e)
  }

  lemma {:induction false} FirstFindingConcat(s: Snapshot, a: seq<Rule>, b: seq<Rule>, git: GitView)
    ensures FirstFinding(s, a + b, git) == Then(FirstFinding(s, a, git), FirstFinding(s, b, git))
  {
    if a == [] {
      assert a + b == b;
    } else {
      assert (a + b)[1..] == a[1..] + b;
      FirstFindingConcat(s, a[1..], b, git);
    }
  }

  function OutcomeOf(answer: Result<Option<Finding>, DriftError>): Outcome {
    match answer
    case Err(e) => Failed(e)
    case Ok(None) => Quiet
    case Ok(Some(finding)) => Found(BuildWarning(finding))
  }

  lemma AbsorbHead(key: (string, string), answer: Result<Option<Finding>, DriftError>, so: Evaluation)
    requires Absorb(key, answer, so).fatal.None? && Absorb(key, answer, so).records == []
    ensures so.fatal.None? && so.records == [] && answer.Ok?
    ensures HeadOutcome(Absorb(key, answer, so).lines) == Then(HeadOutcome(so.lines), OutcomeOf(answer))
  {
  }

  lemma {:induction false} DirectHead(s: Snapshot, rules: seq<Rule>, git: GitView)
    requires DirectDir(s, rules, git).fatal.None? && DirectDir(s, rules, git).records == []
    ensures HeadOutcome(DirectDir(s, rules, git).lines) == FirstFinding(s, rules, git)
    ensures !FirstFinding(s, rules, git).Failed?
    decreases |rules|
  {
    hide Evaluate, Select;
    if rules != [] {
      var n := |rules| - 1;
      var so, answer := DirectDir(s, rules[..n], git), Evaluate(s, rules[n], git);
      AbsorbHead(RecordKey(s, rules[n]), answer, so);
      DirectHead(s, rules[..n], git);
      assert rules == rules[..n] + [rules[n]];
      FirstFindingConcat(s, rules[..n], [rules[n]], git);
      assert FirstFinding(s, [rules[n]], git) == OutcomeOf(answer);
    }
  }

  lemma {:induction false} UnfilteredReplay(s: Snapshot, rules: seq<Rule>, repo: Repository)
    requires repo.down.None? && repo.filtered == map[] && repo.probeFailures == map[]
    requires !FirstFinding(s, rules, CompleteView(repo)).Failed?
    ensures RuleByRule(s, rules, repo) == FirstFinding(s, rules, CompleteView(repo))
  {
    hide Evaluate, Candidates;
    if rules != [] {
      var rule := rules[0];
      GitFreeAnswerStands(s, rule, CompleteView(repo));
      var paths := Candidates(s, rule).value;
      assert Filters(repo, paths) == [];
      var own := GitView(paths != [], if paths == [] then {} else set p | p in paths && IsChanged(repo, p));
      assert (if paths == [] then Ok({}) else Query(repo, paths)) == Ok(own.changed);
      OnlyCandidatesMatter(s, rule, own, CompleteView(repo));
      if Evaluate(s, rule, own).value.None? { UnfilteredReplay(s, rules[1..], repo); }
    }
  }

  lemma {:induction false} InOrderConcat(a: seq<WalkEvent>, b: seq<WalkEvent>, rules: seq<Rule>, repo: Repository)
    ensures InOrder(a + b, rules, repo) == Then(InOrder(a, rules, repo), InOrder(b, rules, repo))
  {
    if a == [] {
      assert a + b == b;
    } else {
      assert (a + b)[1..] == a[1..] + b;
      InOrderConcat(a[1..], b, rules, repo);
    }
  }

  lemma {:induction false} MergeKeeps(records: seq<ReadRecord>, more: seq<ReadRecord>)
    ensures records <= MergeRecords(records, more)
    ensures MergeRecords(records, more) == [] ==> records == [] && more == []
  {
    if more != [] {
      MergeKeeps(records, more[..|more| - 1]);
    }
  }

  lemma HeadConcat(a: seq<Line>, b: seq<Line>)
    ensures HeadOutcome(a + b) == Then(HeadOutcome(a), HeadOutcome(b))
  {
    if a == [] { assert a + b == b; }
  }

  lemma SnapshotHead(s: Snapshot, rules: seq<Rule>, repo: Repository)
    requires repo.down.None? && repo.filtered == map[] && repo.probeFailures == map[]
    requires DirectDir(s, rules, CompleteView(repo)).fatal.None? &&
      DirectDir(s, rules, CompleteView(repo)).records == []
    ensures RuleByRule(s, rules, repo) == HeadOutcome(DirectDir(s, rules, CompleteView(repo)).lines)
  {
    hide DirectDir, RuleByRule, FirstFinding, CompleteView;
    DirectHead(s, rules, CompleteView(repo));
    UnfilteredReplay(s, rules, repo);
  }

  function OfEvent(event: WalkEvent, rules: seq<Rule>, repo: Repository): Outcome {
    match event
    case PassOver => Quiet
    case WalkError(e) => Failed(e)
    case Visit(s) => RuleByRule(s, rules, repo)
  }

  lemma InOrderSnoc(events: seq<WalkEvent>, rules: seq<Rule>, repo: Repository)
    requires events != []
    ensures var n := |events| - 1;
      InOrder(events, rules, repo) == Then(InOrder(events[..n], rules, repo), OfEvent(events[n], rules, repo))
  {
    hide RuleByRule;
    var n := |events| - 1;
    assert events == events[..n] + [events[n]];
    InOrderConcat(events[..n], [events[n]], rules, repo);
    assert [events[n]][1..] == [];
  }

  lemma NothingToReport(events: seq<WalkEvent>, rules: seq<Rule>, repo: Repository)
    requires events == []
    ensures HeadOutcome([]) == Quiet && InOrder(events, rules, repo) == Quiet
  {
  }

  lemma {:induction false} ReplayStopsAtTheFirstLine(events: seq<WalkEvent>, rules: seq<Rule>, repo: Repository)
    requires repo.down.None? && repo.filtered == map[] && repo.probeFailures == map[]
    requires var direct := Direct(events, rules, CompleteView(repo)); direct.fatal.None? && direct.records == []
    ensures InOrder(events, rules, repo) == HeadOutcome(Direct(events, rules, CompleteView(repo)).lines)
    decreases |events|
  {
    hide CompleteView, InOrder, RuleByRule, DirectDir, MergeRecords, HeadOutcome;
    if events != [] {
      var n := |events| - 1;
      var git := CompleteView(repo);
      var so := Direct(events[..n], rules, git);
      InOrderSnoc(events, rules, repo);
      if events[n].Visit? {
        var dir := DirectDir(events[n].snapshot, rules, git);
        MergeKeeps(so.records, dir.records);
        SnapshotHead(events[n].snapshot, rules, repo);
        HeadConcat(so.lines, dir.lines);
      }
      ReplayStopsAtTheFirstLine(events[..n], rules, repo);
      HeadConcat(so.lines, []);
    } else {
      NothingToReport(events, rules, repo);
    }
  }

  /** With no filter drivers, no git failure and nothing unreadable, fail mode stops at the very first line
      that warn mode reports, and is quiet exactly when warn mode is. */
  lemma FailModeStopsAtTheFirstLine(events: seq<WalkEvent>, rules: seq<Rule>, repo: Repository)
    requires repo.down.None? && repo.filtered == map[] && repo.probeFailures == map[]
    requires var direct := Direct(events, rules, CompleteView(repo)); direct.fatal.None? && direct.records == []
    ensures Batched(events, NOTHING, rules, repo) == HeadOutcome(Direct(events, rules, CompleteView(repo)).lines)
  {
    hide Batched, InOrder, AskedBy, HeadOutcome, Direct, CompleteView;
    ReplayStopsAtTheFirstLine(events, rules, repo);
    ScanAgrees(events, rules, repo);
  }
}
