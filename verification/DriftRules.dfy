/** internal/app/lockfile_drift_scanner.go and lockfile_drift_ruleset.go: what one rule says about one
    directory snapshot, and which paths its answer depends on. */
module DriftRules {
  import opened Strings
  import opened Results
  import opened GitContext

  datatype Rule = Rule(
    manager: string,
    manifest: string,
    manifestNames: seq<string>,
    manifestExts: seq<string>,
    manifestLabel: string,
    lockfiles: seq<string>,
    remedy: string,
    section: string,
    needle: string)

  /** One directory: its files in any order, what reading each manifest gives, and the
      project lockfiles found below it. The file system does not change during a scan. */
  datatype Snapshot = Snapshot(
    path: string,
    relDir: string,
    files: seq<string>,
    contents: map<string, Result<string, bool>>,
    projectLockfiles: Result<seq<string>, string>)

  datatype GitView = GitView(hasGit: bool, changed: set<string>)
  const NO_GIT := GitView(false, {})

  datatype Kind = MissingLockfile | StaleLockfile | ManifestChange
  datatype Finding = Finding(kind: Kind, rule: Rule, manifest: string, relDir: string, lockfiles: seq<string>)

  /** The parts a warning line is formatted from. */
  datatype Warning =
    | Missing(manager: string, relDir: string, manifest: string, lockfiles: seq<string>, remedy: string)
    | Stale(manager: string, relDir: string, lockfile: string, description: string)
    | Changed(manager: string, relDir: string, manifest: string, remedy: string)

  function BuildWarning(f: Finding): Warning {
    var manifest := if Blank(f.manifest) then f.rule.manifest else f.manifest;
    match f.kind
    case MissingLockfile => Missing(f.rule.manager, f.relDir, manifest, f.rule.lockfiles, f.rule.remedy)
    case StaleLockfile =>
      Stale(f.rule.manager, f.relDir, if f.lockfiles == [] then "" else f.lockfiles[0],
            if Blank(f.rule.manifestLabel) then f.rule.manifest else f.rule.manifestLabel)
    case ManifestChange => Changed(f.rule.manager, f.relDir, manifest, f.rule.remedy)
  }

  // ----- which manifests and lockfiles a rule sees -----

  predicate IsManifest(rule: Rule, name: string) {
    || name == rule.manifest
    || name in rule.manifestNames
    || exists e :: e in rule.manifestExts && !Blank(e) && HasSuffix(Lower(name), Lower(TrimSpace(e)))
  }

  function ManifestsAmong(files: seq<string>, rule: Rule): seq<string> {
    if files == [] then []
    else (if IsManifest(rule, files[0]) then [files[0]] else []) + ManifestsAmong(files[1..], rule)
  }

  /** `findRuleManifests`: sorted, and each name once. */
  function Select(files: seq<string>, rule: Rule): seq<string> {
    SortedOnce(ManifestsAmong(files, rule))
  }

  function Present(names: seq<string>, files: seq<string>): seq<string> {
    if names == [] then []
    else (if names[0] in files then [names[0]] else []) + Present(names[1..], files)
  }

  predicate IsProjectManifest(name: string) {
    HasSuffix(Lower(TrimSpace(name)), ".csproj") || HasSuffix(Lower(TrimSpace(name)), ".fsproj")
  }

  predicate IsDotnetCentralOnly(rule: Rule, manifests: seq<string>) {
    && rule.manager == ".NET"
    && (exists m :: m in manifests && EqualFold(TrimSpace(m), rule.manifest))
    && (forall m :: m in manifests && IsProjectManifest(m) ==> EqualFold(TrimSpace(m), rule.manifest))
  }

  /** Manifests and lockfiles of a rule in a directory; a lone central manifest looks further down. */
  datatype View = View(manifests: seq<string>, lockfiles: seq<string>) {
    predicate HasManifest() { manifests != [] }

    function ManifestName(rule: Rule): string {
      if manifests != [] then manifests[0] else rule.manifest
    }
  }

  function Look(s: Snapshot, rule: Rule): Result<View, DriftError> {
    var manifests := Select(s.files, rule);
    var here := Present(rule.lockfiles, s.files);
    if here != [] || !IsDotnetCentralOnly(rule, manifests) then Ok(View(manifests, here))
    else match s.projectLockfiles
      case Err(detail) => Err(WalkFailed(detail))
      case Ok(below) => Ok(View(manifests, below))
  }

  // ----- reading manifests -----

  function ReadManifest(s: Snapshot, name: string): Result<string, bool> {
    if name in s.contents then s.contents[name] else Err(false)
  }

  function ReadFor(s: Snapshot, name: string, section: string): Result<string, DriftError> {
    match ReadManifest(s, name)
    case Ok(content) => Ok(content)
    case Err(tooLarge) => Err(ManifestRead(name, section, tooLarge))
  }

  predicate IsRecoverable(e: DriftError) {
    e.ManifestRead? && e.tooLarge
  }

  predicate NeedsInspection(name: string) {
    name == "go.mod" || name == "Cargo.toml"
  }

  predicate SkipsByContent(name: string, content: string) {
    if name == "go.mod" then
      forall line :: line in Split(content, '\n') ==> !("require" <= TrimSpace(line))
    else if name == "Cargo.toml" then !Contains(content, "[[bin]]")
    else false
  }

  function SkipMissing(s: Snapshot, rule: Rule, name: string): Result<bool, DriftError> {
    if !Blank(rule.needle) then
      var content :- ReadFor(s, name, "");
      if !Contains(Lower(content), TrimSpace(rule.needle)) then Ok(true)
      else Ok(SkipsByContent(name, content))
    else if !NeedsInspection(name) then Ok(false)
    else
      var content :- ReadFor(s, name, "");
      Ok(SkipsByContent(name, content))
  }

  function Matches(s: Snapshot, rule: Rule, name: string): Result<bool, DriftError> {
    if Blank(rule.needle) then Ok(true)
    else
      var content :- ReadFor(s, name, rule.section);
      Ok(Contains(Lower(content), TrimSpace(rule.needle)))
  }

  // ----- evaluating one rule -----

  function StaleFinding(relDir: string, rule: Rule, lockfiles: seq<string>): Finding {
    Finding(StaleLockfile, rule, "", relDir, lockfiles)
  }

  /** `evaluateMissingOrStaleLockfileWithManifestAndCache`. */
  function MissingOrStale(s: Snapshot, rule: Rule, v: View): Result<Option<Finding>, DriftError> {
    if v.HasManifest() && v.lockfiles == [] then
      var skip :- SkipMissing(s, rule, v.ManifestName(rule));
      if skip then Ok(None)
      else Ok(Some(Finding(MissingLockfile, rule, v.ManifestName(rule), s.relDir, [])))
    else if !v.HasManifest() && v.lockfiles != [] then
      Ok(Some(StaleFinding(s.relDir, rule, v.lockfiles)))
    else Ok(None)
  }

  function RelPath(relDir: string, name: string): string {
    if relDir == "." then name else relDir + "/" + name
  }

  function RelPaths(relDir: string, names: seq<string>): (r: seq<string>)
    ensures |r| == |names|
    ensures forall i :: 0 <= i < |r| ==> r[i] == RelPath(relDir, names[i])
  {
    if names == [] then [] else [RelPath(relDir, names[0])] + RelPaths(relDir, names[1..])
  }

  function FirstChanged(relDir: string, names: seq<string>, changed: set<string>): Option<string> {
    if names == [] then None
    else if RelPath(relDir, names[0]) in changed then Some(names[0])
    else FirstChanged(relDir, names[1..], changed)
  }

  function ManifestChanged(relDir: string, rule: Rule, v: View, git: GitView): Option<Finding> {
    if !git.hasGit || git.changed == {} then None
    else match FirstChanged(relDir, v.manifests, git.changed)
      case None => None
      case Some(manifest) =>
        if FirstChanged(relDir, v.lockfiles, git.changed).Some? then None
        else Some(Finding(ManifestChange, rule, manifest, relDir, []))
  }

  /** `evaluateLockfileRuleWithCache`. */
  function Evaluate(s: Snapshot, rule: Rule, git: GitView): Result<Option<Finding>, DriftError> {
    var v :- Look(s, rule);
    var early :- MissingOrStale(s, rule, v);
    if early.Some? then Ok(early)
    else if !v.HasManifest() && v.lockfiles == [] then Ok(None)
    else
      var matches :- Matches(s, rule, v.ManifestName(rule));
      if !matches && v.lockfiles != [] then Ok(Some(StaleFinding(s.relDir, rule, v.lockfiles)))
      else if !v.HasManifest() || v.lockfiles == [] || !matches then Ok(None)
      else Ok(ManifestChanged(s.relDir, rule, v, git))
  }

  /** `lockfileManifestChangeCandidatePathsForRule`. */
  function Candidates(s: Snapshot, rule: Rule): Result<seq<string>, DriftError> {
    var manifests := Select(s.files, rule);
    if manifests == [] then Ok([])
    else
      var v :- Look(s, rule);
      if v.lockfiles == [] then Ok([])
      else
        var matches :- Matches(s, rule, manifests[0]);
        if !matches then Ok([])
        else Ok(RelPaths(s.relDir, manifests) + RelPaths(s.relDir, v.lockfiles))
  }

  // ----- what an answer depends on -----

  /** Where the git-free evaluation meets no error, the candidate paths can be computed, and where it
      already finds drift that finding stands in every git context. */
  lemma GitFreeAnswerStands(s: Snapshot, rule: Rule, git: GitView)
    ensures Evaluate(s, rule, NO_GIT).Ok? ==> Candidates(s, rule).Ok?
    ensures Evaluate(s, rule, NO_GIT).Err? ==> Evaluate(s, rule, git) == Evaluate(s, rule, NO_GIT)
    ensures Evaluate(s, rule, NO_GIT).Ok? && Evaluate(s, rule, NO_GIT).value.Some?
        ==> Evaluate(s, rule, git) == Evaluate(s, rule, NO_GIT)
    ensures Evaluate(s, rule, git).Ok? <==> Evaluate(s, rule, NO_GIT).Ok?
  {
    hide Select;
  }

  lemma {:induction false} FirstChangedLocal(relDir: string, names: seq<string>, a: set<string>, b: set<string>)
    requires forall n :: n in names ==> (RelPath(relDir, n) in a <==> RelPath(relDir, n) in b)
    ensures FirstChanged(relDir, names, a) == FirstChanged(relDir, names, b)
  {
    if names != [] { FirstChangedLocal(relDir, names[1..], a, b); }
  }

  lemma {:induction false} NothingChanged(relDir: string, names: seq<string>)
    ensures FirstChanged(relDir, names, {}) == None
  {
    if names != [] { NothingChanged(relDir, names[1..]); }
  }

  lemma ManifestChangedLocal(relDir: string, rule: Rule, v: View, a: set<string>, b: set<string>)
    requires forall n :: n in v.manifests || n in v.lockfiles ==>
      (RelPath(relDir, n) in a <==> RelPath(relDir, n) in b)
    ensures ManifestChanged(relDir, rule, v, GitView(true, a)) == ManifestChanged(relDir, rule, v, GitView(true, b))
  {
    FirstChangedLocal(relDir, v.manifests, a, b);
    FirstChangedLocal(relDir, v.lockfiles, a, b);
    NothingChanged(relDir, v.manifests);
  }

  lemma CandidatesCoverView(s: Snapshot, rule: Rule, v: View, a: set<string>, b: set<string>)
    requires Look(s, rule) == Ok(v) && Candidates(s, rule).Ok? && Candidates(s, rule).value != []
    requires forall p :: p in Candidates(s, rule).value ==> (p in a <==> p in b)
    ensures forall n :: n in v.manifests || n in v.lockfiles ==>
      (RelPath(s.relDir, n) in a <==> RelPath(s.relDir, n) in b)
  {
    hide Select;
    var ms, ls := RelPaths(s.relDir, v.manifests), RelPaths(s.relDir, v.lockfiles);
    assert Candidates(s, rule).value == ms + ls;
    forall n | n in v.manifests ensures RelPath(s.relDir, n) in a <==> RelPath(s.relDir, n) in b {
      var i :| 0 <= i < |v.manifests| && v.manifests[i] == n;
      assert (ms + ls)[i] == RelPath(s.relDir, n);
    }
    forall n | n in v.lockfiles ensures RelPath(s.relDir, n) in a <==> RelPath(s.relDir, n) in b {
      var i :| 0 <= i < |v.lockfiles| && v.lockfiles[i] == n;
      assert (ms + ls)[|ms| + i] == RelPath(s.relDir, n);
    }
  }

  /** A rule's answer depends on git only through its candidate paths: any two contexts that agree on
      them give the same answer, and a rule without candidates does not look at git at all. */
  lemma OnlyCandidatesMatter(s: Snapshot, rule: Rule, a: GitView, b: GitView)
    requires Candidates(s, rule).Ok?
    requires Candidates(s, rule).value != [] ==> a.hasGit == b.hasGit
    requires forall p :: p in Candidates(s, rule).value ==> (p in a.changed <==> p in b.changed)
    ensures Evaluate(s, rule, a) == Evaluate(s, rule, b)
  {
    hide Select;
    var found := Look(s, rule);
    if found.Ok? {
      var v := found.value;
      if Candidates(s, rule).value != [] && a.hasGit {
        CandidatesCoverView(s, rule, v, a.changed, b.changed);
        ManifestChangedLocal(s.relDir, rule, v, a.changed, b.changed);
      }
    }
  }
}
