/** internal/app/lockfile_drift_scanner.go and lockfile_drift_ruleset.go: what a rule concludes about a directory, said
    of its files, the texts of its manifests and the changed paths alone, and carried to the outcomes of both modes. */
module DriftVerdict {
  import opened Strings
  import opened Results
  import opened GitContext
  import opened DriftRules
  import opened FailFastSteps
  import opened PreparedScan

  // ----- manifests and lockfiles -----

  ghost predicate Mentions(text: string, part: string) {
    exists a, b :: text == a + part + b
  }

  ghost predicate EndsIn(name: string, extension: string) {
    exists stem :: Lower(name) == stem + Lower(TrimSpace(extension))
  }

  ghost predicate ManifestFile(s: Snapshot, rule: Rule, name: string) {
    name in s.files &&
    (name == rule.manifest || name in rule.manifestNames ||
     exists e <- rule.manifestExts :: !Blank(e) && EndsIn(name, e))
  }

  ghost predicate NoManifest(s: Snapshot, rule: Rule) {
    forall name <- s.files :: !ManifestFile(s, rule, name)
  }

  /** The first manifest in the order of names. */
  ghost predicate FirstManifest(s: Snapshot, rule: Rule, name: string) {
    ManifestFile(s, rule, name) && forall other :: ManifestFile(s, rule, other) ==> AtMost(name, other)
  }

  ghost predicate LockfileHere(s: Snapshot, rule: Rule) {
    exists name <- rule.lockfiles :: name in s.files
  }

  ghost predicate IsProjectFile(name: string) {
    EndsIn(TrimSpace(name), ".csproj") || EndsIn(TrimSpace(name), ".fsproj")
  }

  /** A central .NET manifest without a project beside it and without a lockfile stands for the projects below. */
  ghost predicate LooksBelow(s: Snapshot, rule: Rule) {
    !LockfileHere(s, rule) && rule.manager == ".NET" &&
    (exists name :: ManifestFile(s, rule, name) && EqualFold(TrimSpace(name), rule.manifest)) &&
    forall name :: ManifestFile(s, rule, name) && IsProjectFile(name) ==> EqualFold(TrimSpace(name), rule.manifest)
  }

  ghost predicate Lockfile(s: Snapshot, rule: Rule, name: string) {
    if LooksBelow(s, rule) then s.projectLockfiles.Ok? && name in s.projectLockfiles.value
    else name in rule.lockfiles && name in s.files
  }

  ghost predicate HasLockfile(s: Snapshot, rule: Rule) {
    exists name :: Lockfile(s, rule, name)
  }

  /** The first lockfile in the order of the rule, or of those below. */
  ghost predicate FirstLockfile(s: Snapshot, rule: Rule, name: string) {
    if LooksBelow(s, rule) then
      s.projectLockfiles.Ok? && s.projectLockfiles.value != [] && s.projectLockfiles.value[0] == name
    else
      name in s.files &&
      exists k :: 0 <= k < |rule.lockfiles| && rule.lockfiles[k] == name &&
        forall j :: 0 <= j < k ==> rule.lockfiles[j] !in s.files
  }

  /** The projects below could not be looked through. */
  ghost predicate Blind(s: Snapshot, rule: Rule) {
    LooksBelow(s, rule) && s.projectLockfiles.Err?
  }

  function PathOf(s: Snapshot, name: string): string {
    if s.relDir == "." then name else s.relDir + ['/'] + name
  }

  // ----- texts -----

  predicate Reads(s: Snapshot, name: string, text: string) {
    name in s.contents && s.contents[name] == Ok(text)
  }

  predicate Unread(s: Snapshot, name: string, tooLarge: bool) {
    if name in s.contents then s.contents[name] == Err(tooLarge) else !tooLarge
  }

  ghost predicate HasNeedle(rule: Rule, text: string) {
    Mentions(Lower(text), TrimSpace(rule.needle))
  }

  predicate NeedsText(rule: Rule, manifest: string) {
    !Blank(rule.needle) || manifest == "go.mod" || manifest == "Cargo.toml"
  }

  /** A manifest that needs no lockfile: the needle is absent, a module requires nothing, a crate has no binary. */
  ghost predicate Exempt(rule: Rule, manifest: string, text: string) {
    (!Blank(rule.needle) && !HasNeedle(rule, text)) ||
    (manifest == "go.mod" && forall line <- Split(text, '\n') :: !("require" <= TrimSpace(line))) ||
    (manifest == "Cargo.toml" && !Mentions(text, "[[bin]]"))
  }

  function Named(rule: Rule, manifest: string): string {
    if Blank(manifest) then rule.manifest else manifest
  }

  // ----- the verdict of one rule -----

  /** A manifest, no lockfile, and no exemption. */
  ghost predicate IsMissing(s: Snapshot, rule: Rule, w: Warning) {
    !Blind(s, rule) && !HasLockfile(s, rule) &&
    exists m :: FirstManifest(s, rule, m) &&
      (NeedsText(rule, m) ==> exists text :: Reads(s, m, text) && !Exempt(rule, m, text)) &&
      w == Missing(rule.manager, s.relDir, Named(rule, m), rule.lockfiles, rule.remedy)
  }

  /** The first manifest is not the rule's own, as its text lacks the needle. */
  ghost predicate Foreign(s: Snapshot, rule: Rule, m: string) {
    FirstManifest(s, rule, m) && !Blank(rule.needle) && exists text :: Reads(s, m, text) && !HasNeedle(rule, text)
  }

  ghost predicate Own(s: Snapshot, rule: Rule, m: string) {
    FirstManifest(s, rule, m) && (Blank(rule.needle) || exists text :: Reads(s, m, text) && HasNeedle(rule, text))
  }

  /** A lockfile without a manifest, or with one of something else. */
  ghost predicate IsStale(s: Snapshot, rule: Rule, w: Warning) {
    exists l :: FirstLockfile(s, rule, l) && (NoManifest(s, rule) || exists m :: Foreign(s, rule, m)) &&
      w == Stale(rule.manager, s.relDir, l, if Blank(rule.manifestLabel) then rule.manifest else rule.manifestLabel)
  }

  /** Manifest and lockfile; a manifest changed, this being the first, and no lockfile did. */
  ghost predicate IsChange(s: Snapshot, rule: Rule, git: GitView, w: Warning) {
    git.hasGit && HasLockfile(s, rule) && (exists m :: Own(s, rule, m)) &&
    (forall l :: Lockfile(s, rule, l) ==> PathOf(s, l) !in git.changed) &&
    exists m :: ManifestFile(s, rule, m) && PathOf(s, m) in git.changed &&
      (forall n :: ManifestFile(s, rule, n) && PathOf(s, n) in git.changed ==> AtMost(m, n)) &&
      w == Changed(rule.manager, s.relDir, Named(rule, m), rule.remedy)
  }

  /** What cannot be read and has to be. */
  ghost predicate IsError(s: Snapshot, rule: Rule, e: DriftError) {
    if Blind(s, rule) then e == WalkFailed(s.projectLockfiles.error)
    else
      exists m, tooLarge :: FirstManifest(s, rule, m) && Unread(s, m, tooLarge) &&
        if HasLockfile(s, rule) then !Blank(rule.needle) && e == ManifestRead(m, rule.section, tooLarge)
        else NeedsText(rule, m) && e == ManifestRead(m, "", tooLarge)
  }

  ghost predicate Says(s: Snapshot, rule: Rule, git: GitView, o: Outcome) {
    match o
    case Found(w) => IsMissing(s, rule, w) || IsStale(s, rule, w) || IsChange(s, rule, git, w)
    case Failed(e) => IsError(s, rule, e)
    case Quiet =>
      (forall w :: !IsMissing(s, rule, w) && !IsStale(s, rule, w) && !IsChange(s, rule, git, w)) &&
      forall e :: !IsError(s, rule, e)
  }

  // ----- the rule against its verdict -----

  lemma PrefixMentions(s: string, part: string, a: string, b: string)
    requires s == a + part + b
    ensures a == "" ==> part <= s
    ensures a != "" ==> s != "" && s[1..] == a[1..] + part + b
  {
    if a == "" { assert s == part + b; }
  }

  lemma {:induction false} ContainsMentions(s: string, part: string)
    ensures Contains(s, part) <==> Mentions(s, part)
  {
    if part <= s {
      assert s == "" + part + s[|part|..];
    } else {
      if s != "" {
        ContainsMentions(s[1..], part);
        if Mentions(s[1..], part) {
          var a, b :| s[1..] == a + part + b;
          assert s == ([s[0]] + a) + part + b;
        }
      }
      if a, b :| s == a + part + b {
        PrefixMentions(s, part, a, b);
        assert Mentions(s[1..], part);
      }
    }
  }

  lemma SuffixEnds(name: string, extension: string)
    ensures HasSuffix(Lower(name), Lower(TrimSpace(extension))) <==> EndsIn(name, extension)
  {
    var s, end := Lower(name), Lower(TrimSpace(extension));
    if HasSuffix(s, end) { assert s == s[..|s| - |end|] + end; }
    if stem :| s == stem + end { assert s[|s| - |end|..] == end; }
  }

  lemma SameManifest(rule: Rule, name: string)
    ensures IsManifest(rule, name) <==>
      (name == rule.manifest || name in rule.manifestNames ||
       exists e <- rule.manifestExts :: !Blank(e) && EndsIn(name, e))
  {
    hide HasSuffix, EndsIn, TrimSpace, Lower, Blank;
    forall e | e in rule.manifestExts ensures HasSuffix(Lower(name), Lower(TrimSpace(e))) <==> EndsIn(name, e) {
      SuffixEnds(name, e);
    }
  }

  lemma {:induction false} AmongMembers(files: seq<string>, rule: Rule, name: string)
    ensures name in ManifestsAmong(files, rule) <==> name in files && IsManifest(rule, name)
  {
    hide IsManifest;
    if files != [] {
      AmongMembers(files[1..], rule, name);
      assert files == [files[0]] + files[1..];
    }
  }

  lemma ManifestIsFile(s: Snapshot, rule: Rule, name: string)
    requires ManifestFile(s, rule, name)
    ensures name in s.files
  {
  }

  lemma FirstIsFirst(s: Snapshot, rule: Rule, selected: seq<string>)
    requires Ascending(selected) && selected != []
    requires forall name :: name in selected <==> ManifestFile(s, rule, name)
    ensures forall m :: FirstManifest(s, rule, m) <==> m == selected[0]
    ensures !NoManifest(s, rule)
  {
    hide ManifestFile, Less;
    assert selected[0] in selected && ManifestFile(s, rule, selected[0]);
    assert selected[0] in s.files by { ManifestIsFile(s, rule, selected[0]); }
    assert FirstManifest(s, rule, selected[0]) by {
      forall other | ManifestFile(s, rule, other) ensures AtMost(selected[0], other) {
        assert other in selected;
        var i :| 0 <= i < |selected| && selected[i] == other;
      }
    }
    forall m | FirstManifest(s, rule, m) ensures m == selected[0] {
      if m != selected[0] {
        LessTransitive(m, selected[0], m);
        LessIrreflexive(m);
      }
    }
  }

  lemma SelectMembers(s: Snapshot, rule: Rule)
    ensures forall name :: name in Select(s.files, rule) <==> ManifestFile(s, rule, name)
    ensures Ascending(Select(s.files, rule))
    ensures Select(s.files, rule) == [] <==> NoManifest(s, rule)
    ensures Select(s.files, rule) != [] ==> forall m :: FirstManifest(s, rule, m) <==> m == Select(s.files, rule)[0]
  {
    hide IsManifest, SortedOnce, ManifestsAmong, Less;
    var selected := Select(s.files, rule);
    forall name ensures name in selected <==> ManifestFile(s, rule, name) {
      AmongMembers(s.files, rule, name);
      SameManifest(rule, name);
    }
    hide ManifestFile;
    if selected == [] {
    } else {
      assert selected[0] in selected;
      FirstIsFirst(s, rule, selected);
    }
  }

  lemma {:induction false} PresentMembers(names: seq<string>, files: seq<string>)
    ensures forall name :: name in Present(names, files) <==> name in names && name in files
    ensures Present(names, files) != [] ==>
      exists k :: 0 <= k < |names| && names[k] == Present(names, files)[0] && names[k] in files &&
        forall j :: 0 <= j < k ==> names[j] !in files
  {
    if names != [] {
      PresentMembers(names[1..], files);
      assert names == [names[0]] + names[1..];
      if names[0] !in files && Present(names[1..], files) != [] {
        var k :| 0 <= k < |names[1..]| && names[1..][k] == Present(names[1..], files)[0] && names[1..][k] in files &&
          forall j :: 0 <= j < k ==> names[1..][j] !in files;
        assert names[k + 1] == names[1..][k];
        forall j | 0 <= j < k + 1 ensures names[j] !in files {
          if j > 0 { assert names[j] == names[1..][j - 1]; }
        }
      }
    }
  }

  lemma ExtensionsAreTight()
    ensures TrimSpace(".csproj") == ".csproj" && TrimSpace(".fsproj") == ".fsproj"
  {
    assert !IsSpace('.') && !IsSpace('j');
  }

  lemma ExtensionsAreLow()
    ensures Lower(".csproj") == ".csproj" && Lower(".fsproj") == ".fsproj"
  {
  }

  lemma SameProjectFile(name: string)
    ensures IsProjectManifest(name) <==> IsProjectFile(name)
  {
    hide HasSuffix, EndsIn, TrimSpace, Lower;
    assert TrimSpace(".csproj") == ".csproj" && TrimSpace(".fsproj") == ".fsproj" by { ExtensionsAreTight(); }
    assert Lower(".csproj") == ".csproj" && Lower(".fsproj") == ".fsproj" by { ExtensionsAreLow(); }
    SuffixEnds(TrimSpace(name), ".csproj");
    SuffixEnds(TrimSpace(name), ".fsproj");
  }

  lemma SameBelow(s: Snapshot, rule: Rule)
    ensures LooksBelow(s, rule) <==>
      Present(rule.lockfiles, s.files) == [] && IsDotnetCentralOnly(rule, Select(s.files, rule))
  {
    hide ManifestFile, Select, EqualFold, TrimSpace, IsProjectManifest, IsProjectFile, Present;
    var manifests, here := Select(s.files, rule), Present(rule.lockfiles, s.files);
    SelectMembers(s, rule);
    PresentMembers(rule.lockfiles, s.files);
    forall m ensures IsProjectManifest(m) <==> IsProjectFile(m) { SameProjectFile(m); }
    if here != [] { assert here[0] in here; }
  }

  lemma FirstPresent(s: Snapshot, rule: Rule)
    requires !LooksBelow(s, rule)
    ensures var here := Present(rule.lockfiles, s.files);
      forall l :: FirstLockfile(s, rule, l) <==> here != [] && l == here[0]
  {
    hide LooksBelow, Present;
    var here := Present(rule.lockfiles, s.files);
    PresentMembers(rule.lockfiles, s.files);
    forall l | FirstLockfile(s, rule, l) ensures here != [] && l == here[0] {
      assert l in here;
      var k :| 0 <= k < |rule.lockfiles| && rule.lockfiles[k] == here[0] && rule.lockfiles[k] in s.files &&
        forall j :: 0 <= j < k ==> rule.lockfiles[j] !in s.files;
      var i :| 0 <= i < |rule.lockfiles| && rule.lockfiles[i] == l &&
        forall j :: 0 <= j < i ==> rule.lockfiles[j] !in s.files;
      assert i == k;
    }
  }

  /** The view of a rule lists its manifests and lockfiles; there is none where it would have to look below and cannot.
      */
  lemma ViewMeans(s: Snapshot, rule: Rule)
    ensures Look(s, rule).Err? <==> Blind(s, rule)
    ensures Blind(s, rule) ==> Look(s, rule) == Err(WalkFailed(s.projectLockfiles.error))
    ensures Look(s, rule).Ok? ==>
      var v := Look(s, rule).value;
      v.manifests == Select(s.files, rule) && (forall l :: l in v.lockfiles <==> Lockfile(s, rule, l)) &&
      (v.lockfiles == [] <==> !HasLockfile(s, rule)) &&
      forall l :: FirstLockfile(s, rule, l) <==> v.lockfiles != [] && l == v.lockfiles[0]
  {
    hide Select, LooksBelow, IsDotnetCentralOnly, Present;
    SameBelow(s, rule);
    PresentMembers(rule.lockfiles, s.files);
    if Look(s, rule).Ok? {
      var lockfiles := Look(s, rule).value.lockfiles;
      assert lockfiles != [] ==> lockfiles[0] in lockfiles;
      if !LooksBelow(s, rule) { FirstPresent(s, rule); }
    }
  }

  lemma ReadAnswers(s: Snapshot, name: string)
    ensures forall text :: ReadManifest(s, name) == Ok(text) <==> Reads(s, name, text)
    ensures forall tooLarge :: ReadManifest(s, name) == Err(tooLarge) <==> Unread(s, name, tooLarge)
  {
  }

  lemma MatchesMeans(s: Snapshot, rule: Rule, m: string)
    ensures Blank(rule.needle) ==> Matches(s, rule, m) == Ok(true)
    ensures !Blank(rule.needle) ==>
      (forall text :: Reads(s, m, text) ==> Matches(s, rule, m) == Ok(HasNeedle(rule, text))) &&
      forall tooLarge :: Unread(s, m, tooLarge) ==> Matches(s, rule, m) == Err(ManifestRead(m, rule.section, tooLarge))
  {
    hide Mentions, Contains, Lower, TrimSpace, Blank;
    ReadAnswers(s, m);
    forall text ensures Contains(Lower(text), TrimSpace(rule.needle)) <==> HasNeedle(rule, text) {
      ContainsMentions(Lower(text), TrimSpace(rule.needle));
    }
  }

  lemma ExemptByText(rule: Rule, m: string, text: string)
    ensures Exempt(rule, m, text) <==>
      (!Blank(rule.needle) && !Contains(Lower(text), TrimSpace(rule.needle))) || SkipsByContent(m, text)
  {
    hide Mentions, Contains, Lower, TrimSpace, Blank, Split;
    ContainsMentions(Lower(text), TrimSpace(rule.needle));
    ContainsMentions(text, "[[bin]]");
    assert "go.mod"[0] != "Cargo.toml"[0];
  }

  lemma SkipMeans(s: Snapshot, rule: Rule, m: string)
    ensures !NeedsText(rule, m) ==> SkipMissing(s, rule, m) == Ok(false)
    ensures NeedsText(rule, m) ==>
      (forall text :: Reads(s, m, text) ==> SkipMissing(s, rule, m) == Ok(Exempt(rule, m, text))) &&
      forall tooLarge :: Unread(s, m, tooLarge) ==> SkipMissing(s, rule, m) == Err(ManifestRead(m, "", tooLarge))
  {
    hide Mentions, Contains, Lower, TrimSpace, Blank, Split, Exempt, SkipsByContent;
    ReadAnswers(s, m);
    forall text ensures Exempt(rule, m, text) <==>
      (!Blank(rule.needle) && !Contains(Lower(text), TrimSpace(rule.needle))) || SkipsByContent(m, text)
    {
      ExemptByText(rule, m, text);
    }
  }

  lemma {:induction false} FirstChangedMeans(s: Snapshot, names: seq<string>, changed: set<string>)
    ensures FirstChanged(s.relDir, names, changed) == None <==> forall n <- names :: PathOf(s, n) !in changed
    ensures FirstChanged(s.relDir, names, changed).Some? ==>
      var m := FirstChanged(s.relDir, names, changed).value;
      m in names && PathOf(s, m) in changed &&
      (Ascending(names) ==> forall n <- names :: PathOf(s, n) in changed ==> AtMost(m, n))
  {
    hide Less;
    if names != [] {
      FirstChangedMeans(s, names[1..], changed);
      assert names == [names[0]] + names[1..];
      assert "/" == ['/'];
      assert RelPath(s.relDir, names[0]) == PathOf(s, names[0]);
    }
  }

  lemma AtMostOnce(a: string, b: string)
    requires AtMost(a, b) && AtMost(b, a)
    ensures a == b
  {
    if a != b {
      LessTransitive(a, b, a);
      LessIrreflexive(a);
    }
  }

  /** What the code answers for one rule, as an outcome. */
  function Answered(s: Snapshot, rule: Rule, git: GitView): Outcome {
    OutcomeOf(Evaluate(s, rule, git))
  }

  lemma ChangeMeans(s: Snapshot, rule: Rule, v: View, git: GitView, w: Warning)
    requires Look(s, rule) == Ok(v) && v.manifests != [] && v.lockfiles != [] && Own(s, rule, v.manifests[0])
    ensures IsChange(s, rule, git, w) <==>
      ManifestChanged(s.relDir, rule, v, git).Some? && w == BuildWarning(ManifestChanged(s.relDir, rule, v, git).value)
  {
    hide ManifestFile, Lockfile, Own, Less, Blank, Ascending, PathOf, LooksBelow, Select;
    SelectMembers(s, rule);
    ViewMeans(s, rule);
    FirstChangedMeans(s, v.manifests, git.changed);
    FirstChangedMeans(s, v.lockfiles, git.changed);
    var first := FirstChanged(s.relDir, v.manifests, git.changed);
    if IsChange(s, rule, git, w) {
      var m :| ManifestFile(s, rule, m) && PathOf(s, m) in git.changed &&
        (forall n :: ManifestFile(s, rule, n) && PathOf(s, n) in git.changed ==> AtMost(m, n)) &&
        w == Changed(rule.manager, s.relDir, Named(rule, m), rule.remedy);
      assert m in v.manifests;
      AtMostOnce(first.value, m);
    }
  }

  lemma EvaluateWithoutManifest(s: Snapshot, rule: Rule, git: GitView, v: View)
    requires Look(s, rule) == Ok(v) && v.manifests == []
    ensures Evaluate(s, rule, git) ==
      Ok(if v.lockfiles == [] then None else Some(StaleFinding(s.relDir, rule, v.lockfiles)))
  {
  }

  lemma VerdictWithoutManifest(s: Snapshot, rule: Rule, git: GitView, v: View)
    requires Look(s, rule) == Ok(v) && v.manifests == []
    ensures Says(s, rule, git, Answered(s, rule, git))
  {
    hide ManifestFile, Lockfile, LooksBelow, Select, Blank, Exempt, HasNeedle, Evaluate, FirstLockfile, HasLockfile,
      Look, Blind;
    SelectMembers(s, rule);
    ViewMeans(s, rule);
    EvaluateWithoutManifest(s, rule, git, v);
    assert forall m :: !FirstManifest(s, rule, m) by { assert forall m :: !ManifestFile(s, rule, m); }
    hide FirstManifest;
    if v.lockfiles != [] {
      var l := v.lockfiles[0];
      var described := if Blank(rule.manifestLabel) then rule.manifest else rule.manifestLabel;
      assert FirstLockfile(s, rule, l);
      assert Answered(s, rule, git) == Found(Stale(rule.manager, s.relDir, l, described));
      assert IsStale(s, rule, Stale(rule.manager, s.relDir, l, described));
    }
  }

  /** A manifest is read or not, with one text or one kind of failure. */
  lemma ReadsOrNot(s: Snapshot, m: string)
    ensures (exists text :: Reads(s, m, text)) || exists tooLarge :: Unread(s, m, tooLarge)
    ensures forall text, tooLarge :: !(Reads(s, m, text) && Unread(s, m, tooLarge))
    ensures forall a, b :: Reads(s, m, a) && Reads(s, m, b) ==> a == b
    ensures forall a, b :: Unread(s, m, a) && Unread(s, m, b) ==> a == b
  {
    if m in s.contents {
      match s.contents[m]
      case Ok(text) => assert Reads(s, m, text);
      case Err(tooLarge) => assert Unread(s, m, tooLarge);
    } else {
      assert Unread(s, m, false);
    }
  }

  lemma OnlyMissing(s: Snapshot, rule: Rule, git: GitView, v: View)
    requires Look(s, rule) == Ok(v) && v.manifests != [] && v.lockfiles == []
    ensures var m := v.manifests[0];
      Evaluate(s, rule, git) ==
        match SkipMissing(s, rule, m)
        case Err(e) => Err(e)
        case Ok(skip) => Ok(if skip then None else Some(Finding(MissingLockfile, rule, m, s.relDir, [])))
  {
  }

  lemma MissingNamed(rule: Rule, m: string)
    ensures Named(rule, m) == if Blank(m) then rule.manifest else m
  {
  }

  lemma VerdictWithoutLockfile(s: Snapshot, rule: Rule, git: GitView, v: View)
    requires Look(s, rule) == Ok(v) && v.manifests != [] && v.lockfiles == []
    ensures Says(s, rule, git, Answered(s, rule, git))
  {
    hide ManifestFile, Lockfile, LooksBelow, Select, Blank, Exempt, HasNeedle, Evaluate, SkipMissing, NeedsText, Look,
      Named, FirstLockfile, FirstManifest, HasLockfile, Blind, Reads, Unread;
    SelectMembers(s, rule);
    ViewMeans(s, rule);
    var m := v.manifests[0];
    assert FirstManifest(s, rule, m);
    SkipMeans(s, rule, m);
    ReadsOrNot(s, m);
    OnlyMissing(s, rule, git, v);
    var skip := SkipMissing(s, rule, m);
    match skip
    case Err(e) =>
      var tooLarge :| Unread(s, m, tooLarge);
      assert IsError(s, rule, e);
    case Ok(true) =>
    case Ok(false) =>
      assert Answered(s, rule, git) ==
        Found(Missing(rule.manager, s.relDir, Named(rule, m), rule.lockfiles, rule.remedy))
          by { MissingNamed(rule, m); }
  }

  lemma EvaluateBoth(s: Snapshot, rule: Rule, git: GitView, v: View)
    requires Look(s, rule) == Ok(v) && v.manifests != [] && v.lockfiles != []
    ensures Evaluate(s, rule, git) ==
      match Matches(s, rule, v.manifests[0])
      case Err(e) => Err(e)
      case Ok(matches) =>
        Ok(if matches then ManifestChanged(s.relDir, rule, v, git) else Some(StaleFinding(s.relDir, rule, v.lockfiles)))
  {
  }

  lemma NotStale(s: Snapshot, rule: Rule, m: string)
    requires Own(s, rule, m) && (forall other :: FirstManifest(s, rule, other) ==> other == m) && !NoManifest(s, rule)
    ensures forall other :: !Foreign(s, rule, other)
    ensures forall w :: !IsStale(s, rule, w)
  {
    hide FirstManifest, Blank, HasNeedle, Reads, NoManifest;
    ReadsOrNot(s, m);
  }

  lemma VerdictOnBoth(s: Snapshot, rule: Rule, git: GitView, v: View)
    requires Look(s, rule) == Ok(v) && v.manifests != [] && v.lockfiles != []
    ensures Says(s, rule, git, Answered(s, rule, git))
  {
    hide ManifestFile, Lockfile, LooksBelow, Select, Blank, HasNeedle, Evaluate, Matches, ManifestChanged, NeedsText,
      Look, FirstLockfile, FirstManifest, HasLockfile, Blind, Reads, Unread, Exempt, IsChange;
    SelectMembers(s, rule);
    ViewMeans(s, rule);
    EvaluateBoth(s, rule, git, v);
    var m, l := v.manifests[0], v.lockfiles[0];
    assert FirstManifest(s, rule, m) && FirstLockfile(s, rule, l);
    MatchesMeans(s, rule, m);
    ReadsOrNot(s, m);
    var matches := Matches(s, rule, m);
    match matches
    case Err(e) =>
      var tooLarge :| Unread(s, m, tooLarge);
      assert IsError(s, rule, e);
    case Ok(false) =>
      var described := if Blank(rule.manifestLabel) then rule.manifest else rule.manifestLabel;
      assert Foreign(s, rule, m);
      assert Answered(s, rule, git) == Found(Stale(rule.manager, s.relDir, l, described));
      assert IsStale(s, rule, Stale(rule.manager, s.relDir, l, described));
    case Ok(true) =>
      assert Own(s, rule, m);
      forall w ensures IsChange(s, rule, git, w) <==>
        ManifestChanged(s.relDir, rule, v, git).Some? &&
          w == BuildWarning(ManifestChanged(s.relDir, rule, v, git).value)
      {
        ChangeMeans(s, rule, v, git, w);
      }
      NotStale(s, rule, m);
  }

  lemma BlindFails(s: Snapshot, rule: Rule, git: GitView)
    requires Blind(s, rule)
    ensures Says(s, rule, git, Answered(s, rule, git))
  {
    hide LooksBelow;
    ViewMeans(s, rule);
  }

  /** There is always a verdict, that of the code. */
  lemma AnswerIsSaid(s: Snapshot, rule: Rule, git: GitView)
    ensures Says(s, rule, git, Answered(s, rule, git))
  {
    hide Says, Blind;
    ViewMeans(s, rule);
    if Look(s, rule).Err? {
      BlindFails(s, rule, git);
    } else {
      var v := Look(s, rule).value;
      if v.manifests == [] {
        VerdictWithoutManifest(s, rule, git, v);
      } else if v.lockfiles == [] {
        VerdictWithoutLockfile(s, rule, git, v);
      } else {
        VerdictOnBoth(s, rule, git, v);
      }
    }
  }

  lemma NoFirst(s: Snapshot, rule: Rule)
    requires NoManifest(s, rule)
    ensures forall a :: !FirstManifest(s, rule, a)
  {
  }

  lemma NoneBelow(s: Snapshot, rule: Rule)
    requires Blind(s, rule)
    ensures forall a :: !FirstLockfile(s, rule, a)
  {
    hide LooksBelow;
  }

  /** Which manifest and which lockfile come first is not open, and where there is none no verdict speaks of one. */
  lemma FirstsAreOne(s: Snapshot, rule: Rule)
    ensures forall a, b :: FirstManifest(s, rule, a) && FirstManifest(s, rule, b) ==> a == b
    ensures forall a, b :: FirstLockfile(s, rule, a) && FirstLockfile(s, rule, b) ==> a == b
    ensures forall a :: FirstManifest(s, rule, a) ==> !NoManifest(s, rule)
    ensures forall a :: FirstLockfile(s, rule, a) ==> HasLockfile(s, rule)
    ensures HasLockfile(s, rule) ==> !Blind(s, rule)
  {
    hide ManifestFile, LooksBelow, Select, Less, FirstManifest, FirstLockfile, NoManifest;
    SelectMembers(s, rule);
    ViewMeans(s, rule);
    if Select(s.files, rule) == [] {
      assert forall a :: !FirstManifest(s, rule, a) by { NoFirst(s, rule); }
    }
    if Blind(s, rule) {
      assert !HasLockfile(s, rule);
      assert forall a :: !FirstLockfile(s, rule, a) by { NoneBelow(s, rule); }
    }
  }

  lemma OneWarningOrError(s: Snapshot, rule: Rule, git: GitView, w: Warning, e: DriftError)
    requires IsMissing(s, rule, w) || IsStale(s, rule, w) || IsChange(s, rule, git, w)
    ensures !IsError(s, rule, e)
  {
    hide ManifestFile, Lockfile, LooksBelow, Blank, HasNeedle, NeedsText, Exempt, Reads, Unread, FirstManifest,
      FirstLockfile, HasLockfile, Blind, NoManifest;
    FirstsAreOne(s, rule);
    forall m, text, tooLarge ensures !(Reads(s, m, text) && Unread(s, m, tooLarge)) { ReadsOrNot(s, m); }
  }

  lemma OwnIsFirst(s: Snapshot, rule: Rule, m: string)
    requires Own(s, rule, m)
    ensures FirstManifest(s, rule, m)
  {
  }

  lemma ChangeIsOnBoth(s: Snapshot, rule: Rule, git: GitView, w: Warning)
    ensures IsChange(s, rule, git, w) ==> HasLockfile(s, rule) && forall x :: !IsStale(s, rule, x)
  {
    hide ManifestFile, Lockfile, LooksBelow, HasLockfile, NoManifest, FirstManifest, Own, IsStale;
    if IsChange(s, rule, git, w) {
      var m :| Own(s, rule, m);
      assert FirstManifest(s, rule, m) by { OwnIsFirst(s, rule, m); }
      FirstsAreOne(s, rule);
      NotStale(s, rule, m);
    }
  }

  lemma OneChange(s: Snapshot, rule: Rule, git: GitView, a: Warning, b: Warning)
    requires IsChange(s, rule, git, a) && IsChange(s, rule, git, b)
    ensures a == b
  {
    hide ManifestFile, Lockfile, LooksBelow, HasLockfile, Own, Less;
    var m :| ManifestFile(s, rule, m) && PathOf(s, m) in git.changed &&
      (forall n :: ManifestFile(s, rule, n) && PathOf(s, n) in git.changed ==> AtMost(m, n)) &&
      a == Changed(rule.manager, s.relDir, Named(rule, m), rule.remedy);
    var k :| ManifestFile(s, rule, k) && PathOf(s, k) in git.changed &&
      (forall n :: ManifestFile(s, rule, n) && PathOf(s, n) in git.changed ==> AtMost(k, n)) &&
      b == Changed(rule.manager, s.relDir, Named(rule, k), rule.remedy);
    AtMostOnce(m, k);
  }

  lemma OneWarning(s: Snapshot, rule: Rule, git: GitView, a: Warning, b: Warning)
    requires IsMissing(s, rule, a) || IsStale(s, rule, a) || IsChange(s, rule, git, a)
    requires IsMissing(s, rule, b) || IsStale(s, rule, b) || IsChange(s, rule, git, b)
    ensures a == b
  {
    hide ManifestFile, Lockfile, LooksBelow, Blank, HasNeedle, NeedsText, Exempt, Reads, Unread, FirstManifest,
      FirstLockfile, HasLockfile, Blind, NoManifest, IsChange;
    FirstsAreOne(s, rule);
    if IsChange(s, rule, git, a) || IsChange(s, rule, git, b) {
      if m :| Own(s, rule, m) { NotStale(s, rule, m); }
      ChangeIsOnBoth(s, rule, git, a);
      ChangeIsOnBoth(s, rule, git, b);
      if IsChange(s, rule, git, a) && IsChange(s, rule, git, b) { OneChange(s, rule, git, a, b); }
    }
  }

  lemma OneError(s: Snapshot, rule: Rule, a: DriftError, b: DriftError)
    requires IsError(s, rule, a) && IsError(s, rule, b)
    ensures a == b
  {
    hide ManifestFile, Lockfile, LooksBelow, Blank, NeedsText, Unread, FirstManifest, HasLockfile;
    FirstsAreOne(s, rule);
    forall m, x, y | Unread(s, m, x) && Unread(s, m, y) ensures x == y { ReadsOrNot(s, m); }
  }

  /** A rule answers what the verdict says and nothing else. */
  lemma RuleVerdict(s: Snapshot, rule: Rule, git: GitView, o: Outcome)
    ensures Answered(s, rule, git) == o <==> Says(s, rule, git, o)
  {
    hide IsMissing, IsStale, IsChange, IsError, Answered;
    AnswerIsSaid(s, rule, git);
    var answer := Answered(s, rule, git);
    if Says(s, rule, git, o) {
      match (answer, o)
      case (Found(a), Found(b)) => OneWarning(s, rule, git, a, b);
      case (Found(a), Failed(b)) => OneWarningOrError(s, rule, git, a, b);
      case (Failed(a), Found(b)) => OneWarningOrError(s, rule, git, b, a);
      case (Failed(a), Failed(b)) => OneError(s, rule, a, b);
      case _ =>
    }
  }

  // ----- fail mode -----

  /** The first rule that says something, or none does. */
  ghost predicate DirectorySays(s: Snapshot, rules: seq<Rule>, git: GitView, o: Outcome) {
    if o == Quiet then forall rule <- rules :: Says(s, rule, git, Quiet)
    else
      exists i :: 0 <= i < |rules| && Says(s, rules[i], git, o) &&
        forall j :: 0 <= j < i ==> Says(s, rules[j], git, Quiet)
  }

  ghost predicate EventSays(event: WalkEvent, rules: seq<Rule>, git: GitView, o: Outcome) {
    match event
    case Visit(s) => DirectorySays(s, rules, git, o)
    case PassOver => o == Quiet
    case WalkError(e) => o == Failed(e)
  }

  /** The first entry of the walk that has something said of it, or none has. */
  ghost predicate WalkSays(events: seq<WalkEvent>, rules: seq<Rule>, git: GitView, o: Outcome) {
    if o == Quiet then forall event <- events :: EventSays(event, rules, git, Quiet)
    else
      exists k :: 0 <= k < |events| && EventSays(events[k], rules, git, o) &&
        forall j :: 0 <= j < k ==> EventSays(events[j], rules, git, Quiet)
  }

  function FirstAnswer(s: Snapshot, rules: seq<Rule>, git: GitView): Outcome {
    if rules == [] then Quiet else Then(Answered(s, rules[0], git), FirstAnswer(s, rules[1..], git))
  }

  lemma {:induction false} DirectoryVerdict(s: Snapshot, rules: seq<Rule>, git: GitView, o: Outcome)
    ensures FirstAnswer(s, rules, git) == o <==> DirectorySays(s, rules, git, o)
  {
    hide Says, Answered;
    if rules != [] {
      assert rules == [rules[0]] + rules[1..];
      RuleVerdict(s, rules[0], git, o);
      RuleVerdict(s, rules[0], git, Quiet);
      DirectoryVerdict(s, rules[1..], git, o);
      if o != Quiet {
        if DirectorySays(s, rules[1..], git, o) && Says(s, rules[0], git, Quiet) {
          var i :| 0 <= i < |rules[1..]| && Says(s, rules[1..][i], git, o) &&
            forall j :: 0 <= j < i ==> Says(s, rules[1..][j], git, Quiet);
          assert rules[i + 1] == rules[1..][i];
          forall j | 0 <= j < i + 1 ensures Says(s, rules[j], git, Quiet) {
            if j > 0 { assert rules[j] == rules[1..][j - 1]; }
          }
        }
        if DirectorySays(s, rules, git, o) {
          var i :| 0 <= i < |rules| && Says(s, rules[i], git, o) &&
            forall j :: 0 <= j < i ==> Says(s, rules[j], git, Quiet);
          if i > 0 {
            assert Says(s, rules[0], git, Quiet) && rules[1..][i - 1] == rules[i];
            assert forall j :: 0 <= j < i - 1 ==> rules[1..][j] == rules[j + 1];
          }
        }
      }
    }
  }

  /** Neither a filter nor a failing probe stands in the way of git's answer about this directory. */
  ghost predicate Clean(s: Snapshot, rules: seq<Rule>, repo: Repository) {
    forall rule, name ::
      (rule in rules && (ManifestFile(s, rule, name) || Lockfile(s, rule, name)) &&
        IsTracked(repo, PathOf(s, name))) ==>
        PathOf(s, name) !in repo.filtered && PathOf(s, name) !in repo.probeFailures
  }

  lemma {:induction false} PathsOf(s: Snapshot, names: seq<string>, p: string)
    ensures p in RelPaths(s.relDir, names) <==> exists n <- names :: p == PathOf(s, n)
  {
    if names != [] {
      PathsOf(s, names[1..], p);
      assert names == [names[0]] + names[1..];
      assert "/" == ['/'];
      assert RelPath(s.relDir, names[0]) == PathOf(s, names[0]);
    }
  }

  lemma CandidatesOfView(s: Snapshot, rule: Rule)
    requires Candidates(s, rule).Ok?
    ensures Select(s.files, rule) == [] ==> Candidates(s, rule).value == []
    ensures Select(s.files, rule) != [] ==>
      Look(s, rule).Ok? &&
      var v := Look(s, rule).value;
      v.manifests == Select(s.files, rule) &&
      (v.lockfiles == [] ==> Candidates(s, rule).value == []) &&
      (v.lockfiles != [] ==>
        Matches(s, rule, v.manifests[0]).Ok? &&
        Candidates(s, rule).value ==
          if Matches(s, rule, v.manifests[0]).value
            then RelPaths(s.relDir, v.manifests) + RelPaths(s.relDir, v.lockfiles)
          else [])
  {
    hide Select, Matches, RelPaths, IsDotnetCentralOnly;
  }

  lemma OwnMeans(s: Snapshot, rule: Rule, m: string)
    requires FirstManifest(s, rule, m)
    ensures (exists x :: Own(s, rule, x)) <==> Own(s, rule, m)
    ensures Matches(s, rule, m).Ok? ==> (Matches(s, rule, m).value <==> Own(s, rule, m))
  {
    hide FirstManifest, Blank, HasNeedle, Reads, Unread, Matches;
    FirstsAreOne(s, rule);
    MatchesMeans(s, rule, m);
    ReadsOrNot(s, m);
  }

  /** A rule asks git about its manifests and lockfiles when both are there and the first manifest is its own. */
  lemma AsksAbout(s: Snapshot, rule: Rule, p: string)
    requires Candidates(s, rule).Ok?
    ensures p in Candidates(s, rule).value <==>
      HasLockfile(s, rule) && (exists m :: Own(s, rule, m)) &&
      exists n :: (ManifestFile(s, rule, n) || Lockfile(s, rule, n)) && p == PathOf(s, n)
  {
    hide ManifestFile, Lockfile, LooksBelow, Select, Matches, Look, FirstManifest, HasLockfile, Own, Blind,
      FirstLockfile, PathOf, NoManifest, Candidates;
    SelectMembers(s, rule);
    ViewMeans(s, rule);
    CandidatesOfView(s, rule);
    if Select(s.files, rule) == [] {
      NoFirst(s, rule);
      forall m ensures !Own(s, rule, m) { if Own(s, rule, m) { OwnIsFirst(s, rule, m); } }
    } else {
      var v := Look(s, rule).value;
      var m := v.manifests[0];
      OwnMeans(s, rule, m);
      PathsOf(s, v.manifests, p);
      PathsOf(s, v.lockfiles, p);
      assert forall n :: n in v.manifests <==> ManifestFile(s, rule, n);
    }
  }

  /** Where a rule's candidates cannot be told, no answer is had for the same reason. */
  lemma CandidatesFail(s: Snapshot, rule: Rule, git: GitView)
    ensures Candidates(s, rule).Err? ==> Answered(s, rule, git) == Failed(Candidates(s, rule).error)
  {
    hide Matches, ManifestChanged, SkipMissing, IsDotnetCentralOnly, Present, Select;
  }

  lemma CleanQuery(s: Snapshot, rules: seq<Rule>, rule: Rule, repo: Repository)
    requires repo.down.None? && rule in rules && Clean(s, rules, repo) && Candidates(s, rule).Ok?
    ensures var paths := Candidates(s, rule).value;
      (if paths == [] then Ok({}) else Query(repo, paths)) == Ok(set p | p in paths && IsChanged(repo, p))
  {
    hide ManifestFile, Lockfile, Candidates, HasLockfile, Own, PathOf, IsTracked;
    var paths := Candidates(s, rule).value;
    forall p | p in paths && IsTracked(repo, p) ensures p !in repo.filtered && p !in repo.probeFailures {
      AsksAbout(s, rule, p);
      var n :| (ManifestFile(s, rule, n) || Lockfile(s, rule, n)) && p == PathOf(s, n);
    }
    assert Filters(repo, paths) == [] && ProbeFailure(repo, paths) == None;
    if paths == [] { assert (set p | p in paths && IsChanged(repo, p)) == {}; }
  }

  lemma {:induction false} CleanReplay(s: Snapshot, all: seq<Rule>, rules: seq<Rule>, repo: Repository)
    requires repo.down.None? && Clean(s, all, repo) && forall rule <- rules :: rule in all
    ensures RuleByRule(s, rules, repo) == FirstAnswer(s, rules, CompleteView(repo))
  {
    hide Clean, Candidates, Evaluate, Query;
    if rules != [] {
      var rule := rules[0];
      CandidatesFail(s, rule, CompleteView(repo));
      if Candidates(s, rule).Ok? {
        CleanQuery(s, all, rule, repo);
        var paths := Candidates(s, rule).value;
        var own := GitView(paths != [], set p | p in paths && IsChanged(repo, p));
        OnlyCandidatesMatter(s, rule, own, CompleteView(repo));
      }
      CleanReplay(s, all, rules[1..], repo);
    }
  }

  lemma EventVerdict(event: WalkEvent, rules: seq<Rule>, repo: Repository, o: Outcome)
    requires repo.down.None? && (event.Visit? ==> Clean(event.snapshot, rules, repo))
    ensures InOrder([event], rules, repo) == o <==> EventSays(event, rules, CompleteView(repo), o)
  {
    hide DirectorySays, Clean, CompleteView, RuleByRule;
    assert [event][1..] == [];
    if event.Visit? {
      CleanReplay(event.snapshot, rules, rules, repo);
      DirectoryVerdict(event.snapshot, rules, CompleteView(repo), o);
    }
  }

  /** What is said later is said when the first entry is quiet. */
  lemma SaidLater(events: seq<WalkEvent>, rules: seq<Rule>, git: GitView, o: Outcome)
    requires events != [] && o != Quiet && EventSays(events[0], rules, git, Quiet)
    requires WalkSays(events[1..], rules, git, o)
    ensures WalkSays(events, rules, git, o)
  {
    hide EventSays;
    var rest := events[1..];
    var k :| 0 <= k < |rest| && EventSays(rest[k], rules, git, o) &&
      forall j :: 0 <= j < k ==> EventSays(rest[j], rules, git, Quiet);
    assert events[k + 1] == rest[k];
    forall j | 0 <= j < k + 1 ensures EventSays(events[j], rules, git, Quiet) {
      if j > 0 { assert events[j] == rest[j - 1]; }
    }
  }

  lemma SaidNowOrLater(events: seq<WalkEvent>, rules: seq<Rule>, git: GitView, o: Outcome)
    requires events != [] && o != Quiet && WalkSays(events, rules, git, o)
    ensures EventSays(events[0], rules, git, o) ||
      (EventSays(events[0], rules, git, Quiet) && WalkSays(events[1..], rules, git, o))
  {
    hide EventSays;
    var rest := events[1..];
    var k :| 0 <= k < |events| && EventSays(events[k], rules, git, o) &&
      forall j :: 0 <= j < k ==> EventSays(events[j], rules, git, Quiet);
    if k > 0 {
      assert EventSays(events[0], rules, git, Quiet) && rest[k - 1] == events[k];
      assert forall j :: 0 <= j < k - 1 ==> rest[j] == events[j + 1];
    }
  }

  lemma QuietStep(events: seq<WalkEvent>, rules: seq<Rule>, git: GitView)
    requires events != []
    ensures WalkSays(events, rules, git, Quiet) <==>
      EventSays(events[0], rules, git, Quiet) && WalkSays(events[1..], rules, git, Quiet)
  {
    hide EventSays;
    assert events == [events[0]] + events[1..];
  }

  lemma WalkSaysStep(events: seq<WalkEvent>, rules: seq<Rule>, git: GitView, o: Outcome)
    requires events != []
    ensures WalkSays(events, rules, git, o) <==>
      if o == Quiet then EventSays(events[0], rules, git, Quiet) && WalkSays(events[1..], rules, git, Quiet)
      else
        EventSays(events[0], rules, git, o) ||
        (EventSays(events[0], rules, git, Quiet) && WalkSays(events[1..], rules, git, o))
  {
    hide EventSays;
    if o == Quiet {
      QuietStep(events, rules, git);
    } else if WalkSays(events, rules, git, o) {
      SaidNowOrLater(events, rules, git, o);
    } else if EventSays(events[0], rules, git, Quiet) && WalkSays(events[1..], rules, git, o) {
      SaidLater(events, rules, git, o);
    }
  }

  lemma NothingSaid(rules: seq<Rule>, repo: Repository, o: Outcome)
    ensures InOrder([], rules, repo) == Quiet
    ensures WalkSays([], rules, CompleteView(repo), o) <==> o == Quiet
  {
  }

  lemma {:induction false} InOrderVerdict(events: seq<WalkEvent>, rules: seq<Rule>, repo: Repository, o: Outcome)
    requires repo.down.None? && forall event <- events :: event.Visit? ==> Clean(event.snapshot, rules, repo)
    ensures InOrder(events, rules, repo) == o <==> WalkSays(events, rules, CompleteView(repo), o)
  {
    hide Clean, CompleteView, EventSays, InOrder, WalkSays;
    if events == [] {
      NothingSaid(rules, repo, o);
    } else {
      assert events == [events[0]] + events[1..];
      InOrderVerdict(events[1..], rules, repo, o);
      EventVerdict(events[0], rules, repo, o);
      EventVerdict(events[0], rules, repo, Quiet);
      InOrderStep(events, rules, repo);
      WalkSaysStep(events, rules, CompleteView(repo), o);
    }
  }

  lemma CleanDirectory(s: Snapshot, rules: seq<Rule>, repo: Repository)
    requires Clean(s, rules, repo)
    ensures forall p <- AskedPaths(s, rules) :: IsTracked(repo, p) ==> p !in repo.probeFailures
  {
    hide ManifestFile, Lockfile, Candidates, HasLockfile, Own, PathOf, IsTracked, AskedPaths;
    forall p | p in AskedPaths(s, rules) && IsTracked(repo, p) ensures p !in repo.probeFailures {
      var i :| 0 <= i < BeforeFinding(s, rules) && p in CandidatesOf(s, rules[i]);
      AsksAbout(s, rules[i], p);
      var n :| (ManifestFile(s, rules[i], n) || Lockfile(s, rules[i], n)) && p == PathOf(s, n);
    }
  }

  lemma {:induction false} CleanAsked(events: seq<WalkEvent>, rules: seq<Rule>, repo: Repository)
    requires forall event <- events :: event.Visit? ==> Clean(event.snapshot, rules, repo)
    ensures forall p <- AskedBy(events, rules) :: IsTracked(repo, p) ==> p !in repo.probeFailures
  {
    hide Clean, FirstFinding, AskedPaths;
    if events != [] {
      assert events == [events[0]] + events[1..];
      CleanAsked(events[1..], rules, repo);
      if events[0].Visit? { CleanDirectory(events[0].snapshot, rules, repo); }
    }
  }

  /** Fail mode over any walk: while git is up and answers, the scan ends with what is said first, in the order of the
      walk and of the rules, and is quiet exactly when nothing is said. */
  lemma ScanVerdict(events: seq<WalkEvent>, rules: seq<Rule>, repo: Repository, o: Outcome)
    requires repo.down.None? && forall event <- events :: event.Visit? ==> Clean(event.snapshot, rules, repo)
    ensures Batched(events, NOTHING, rules, repo) == o <==> WalkSays(events, rules, CompleteView(repo), o)
  {
    hide Clean, Batched, InOrder, WalkSays, AskedBy, CompleteView;
    CleanAsked(events, rules, repo);
    ScanAgrees(events, rules, repo);
    InOrderVerdict(events, rules, repo, o);
  }

  // ----- warn mode -----

  /** The lines so far, and the error that ended the scan. */
  datatype Said = Said(lines: seq<Line>, fatal: Option<DriftError>)

  predicate IsReported(lines: seq<Line>, manifest: string) {
    exists i :: 0 <= i < |lines| && lines[i].Oversized? && lines[i].error.ManifestRead? &&
      lines[i].error.manifest == manifest
  }

  /** What a rule said makes a line, a manifest too large one for all rules, and every other error ends the scan. */
  function Heard(so: Said, o: Outcome): Said {
    match o
    case Quiet => so
    case Found(w) => so.(lines := so.lines + [Drift(w)])
    case Failed(e) =>
      if !(e.ManifestRead? && e.tooLarge) then so.(fatal := Some(e))
      else if IsReported(so.lines, e.manifest) then so
      else so.(lines := so.lines + [Oversized(e)])
  }

  /** All rules over one directory, up to a fatal error. */
  ghost predicate DirectoryReports(s: Snapshot, rules: seq<Rule>, git: GitView, r: Said)
    decreases |rules|
  {
    if rules == [] then r == Said([], None)
    else
      exists so, o :: DirectoryReports(s, rules[..|rules| - 1], git, so) && Says(s, rules[|rules| - 1], git, o) &&
        r == if so.fatal.Some? then so else Heard(so, o)
  }

  /** All directories of the walk, in order, up to a fatal error. */
  ghost predicate WalkReports(events: seq<WalkEvent>, rules: seq<Rule>, git: GitView, r: Said)
    decreases |events|
  {
    if events == [] then r == Said([], None)
    else
      exists so :: WalkReports(events[..|events| - 1], rules, git, so) &&
        if so.fatal.Some? then r == so
        else
          match events[|events| - 1]
          case PassOver => r == so
          case WalkError(e) => r == so.(fatal := Some(e))
          case Visit(s) =>
            exists dir :: DirectoryReports(s, rules, git, dir) && r == Said(so.lines + dir.lines, dir.fatal)
  }

  lemma SaidError(s: Snapshot, rule: Rule, git: GitView, e: DriftError)
    requires Says(s, rule, git, Failed(e))
    ensures IsError(s, rule, e)
  {
  }

  lemma ErrorNamesManifest(s: Snapshot, rule: Rule, git: GitView)
    ensures var answer := Evaluate(s, rule, git);
      answer.Err? && answer.error.ManifestRead? ==> RecordKey(s, rule) == (s.path, answer.error.manifest)
  {
    hide Says, Evaluate, ManifestFile, LooksBelow, Select, NeedsText, Blank, Unread, HasLockfile, Less;
    var answer := Evaluate(s, rule, git);
    if answer.Err? && answer.error.ManifestRead? {
      var e := answer.error;
      RuleVerdict(s, rule, git, Failed(e));
      assert IsError(s, rule, e) by { SaidError(s, rule, git, e); }
      SelectMembers(s, rule);
      assert FirstManifest(s, rule, e.manifest);
      if Select(s.files, rule) == [] { NoFirst(s, rule); }
    }
  }

  lemma MoreLines(lines: seq<Line>, line: Line, m: string)
    ensures IsReported(lines + [line], m) <==>
      IsReported(lines, m) || (line.Oversized? && line.error.ManifestRead? && line.error.manifest == m)
  {
    var all := lines + [line];
    if IsReported(lines, m) {
      var i :| 0 <= i < |lines| && lines[i].Oversized? && lines[i].error.ManifestRead? && lines[i].error.manifest == m;
      assert all[i] == lines[i];
    }
    assert all[|lines|] == line;
  }

  lemma MoreRecords(records: seq<ReadRecord>, record: ReadRecord, key: (string, string))
    ensures Known(records + [record], key) <==> Known(records, key) || record.key == key
  {
    var all := records + [record];
    if Known(records, key) {
      var i :| 0 <= i < |records| && records[i].key == key;
      assert all[i] == records[i];
    }
    assert all[|records|] == record;
  }

  /** One rule's answer is heard as it is absorbed: the records are the manifests that have a line. */
  lemma AbsorbHeard(s: Snapshot, rule: Rule, git: GitView, so: Evaluation)
    requires forall m :: Known(so.records, (s.path, m)) <==> IsReported(so.lines, m)
    ensures var next := DirectStep(s, rule, git, so);
      Said(next.lines, next.fatal) == Heard(Said(so.lines, so.fatal), Answered(s, rule, git)) &&
      forall m :: Known(next.records, (s.path, m)) <==> IsReported(next.lines, m)
  {
    hide Evaluate, Known, IsReported, RecordKey;
    ErrorNamesManifest(s, rule, git);
    var answer, next := Evaluate(s, rule, git), DirectStep(s, rule, git, so);
    forall m ensures Known(next.records, (s.path, m)) <==> IsReported(next.lines, m) {
      match answer
      case Err(e) =>
        MoreRecords(so.records, ReadRecord(RecordKey(s, rule), e), (s.path, m));
        MoreLines(so.lines, Oversized(e), m);
      case Ok(None) =>
      case Ok(Some(finding)) => MoreLines(so.lines, Drift(BuildWarning(finding)), m);
    }
  }

  lemma NothingKnown(s: Snapshot)
    ensures forall m :: !Known([], (s.path, m)) && !IsReported([], m)
  {
  }

  lemma {:induction false} DirectoryHeard(s: Snapshot, rules: seq<Rule>, git: GitView, r: Said)
    ensures var direct := DirectDir(s, rules, git);
      (DirectoryReports(s, rules, git, r) <==> r == Said(direct.lines, direct.fatal)) &&
      forall m :: Known(direct.records, (s.path, m)) <==> IsReported(direct.lines, m)
    decreases |rules|
  {
    hide Says, Answered, Heard, DirectStep, Known, IsReported;
    if rules == [] {
      assert forall m :: !Known([], (s.path, m)) && !IsReported([], m) by { NothingKnown(s); }
    } else {
      var n := |rules| - 1;
      var so := DirectDir(s, rules[..n], git);
      var before := Said(so.lines, so.fatal);
      DirectoryHeard(s, rules[..n], git, before);
      AbsorbHeard(s, rules[n], git, so);
      var answer := Answered(s, rules[n], git);
      RuleVerdict(s, rules[n], git, answer);
      if DirectoryReports(s, rules, git, r) {
        var x, o :| DirectoryReports(s, rules[..n], git, x) && Says(s, rules[n], git, o) &&
          r == if x.fatal.Some? then x else Heard(x, o);
        DirectoryHeard(s, rules[..n], git, x);
        RuleVerdict(s, rules[n], git, o);
      }
    }
  }

  /** Warn mode over any walk: the lines are what is said, in the order of the walk and of the rules, a manifest that is
      too large once for each directory, up to the first other error. */
  lemma {:induction false} WarnVerdict(events: seq<WalkEvent>, rules: seq<Rule>, git: GitView, r: Said)
    ensures var direct := Direct(events, rules, git);
      WalkReports(events, rules, git, r) <==> r == Said(direct.lines, direct.fatal)
    decreases |events|
  {
    hide DirectoryReports, DirectDir, MergeRecords;
    if events != [] {
      var n := |events| - 1;
      var so := Direct(events[..n], rules, git);
      var before := Said(so.lines, so.fatal);
      WarnVerdict(events[..n], rules, git, before);
      if events[n].Visit? {
        var s := events[n].snapshot;
        var dir := DirectDir(s, rules, git);
        DirectoryHeard(s, rules, git, Said(dir.lines, dir.fatal));
        assert Said(so.lines + dir.lines, dir.fatal) ==
          Said(before.lines + Said(dir.lines, dir.fatal).lines, Said(dir.lines, dir.fatal).fatal);
      }
      if WalkReports(events, rules, git, r) {
        var x :| WalkReports(events[..n], rules, git, x) &&
          if x.fatal.Some? then r == x
          else
            match events[n]
            case PassOver => r == x
            case WalkError(e) => r == x.(fatal := Some(e))
            case Visit(s) =>
              exists dir :: DirectoryReports(s, rules, git, dir) && r == Said(x.lines + dir.lines, dir.fatal);
        WarnVerdict(events[..n], rules, git, x);
        if x.fatal.None? && events[n].Visit? {
          var s := events[n].snapshot;
          var dir :| DirectoryReports(s, rules, git, dir) && r == Said(x.lines + dir.lines, dir.fatal);
          DirectoryHeard(s, rules, git, dir);
        }
      }
    }
  }
}
