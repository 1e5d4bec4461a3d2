/** internal/analysis/identity_enrichment_dotnet.go: the versions a project can resolve, the evidence declared for
    them, and why unlocked declared evidence leaves none of them out. */
module NuGetEvidence {
  import opened Strings
  import opened Results
  import opened Seqs
  import opened MsBuild
  import opened MsBuildMeaning
  import opened NuGetVersions
  import opened NuGetCoverage

  datatype Evidence = Evidence(name: string, version: string, source: string)

  function Renamed(candidates: seq<Candidate>, name: string): (r: seq<Candidate>)
    ensures |r| == |candidates| && forall i :: 0 <= i < |r| ==> r[i] == candidates[i].(name := name)
  {
    seq(|candidates|, i requires 0 <= i < |candidates| => candidates[i].(name := name))
  }

  /** What one candidate of the project contributes: its override, its version, or the central candidates. */
  function Contribution(name: string, candidate: ProjectVersion, central: seq<Candidate>,
      source: string): seq<Candidate> {
    var overridden, version := TrimSpace(candidate.versionOverride), TrimSpace(candidate.version);
    if overridden != "" then [Candidate(name, overridden, source)]
    else if version != "" then [Candidate(name, version, source)]
    else if central == [] then [Candidate(name, "", source)]
    else Renamed(central, name)
  }

  function EffectiveOf(name: string, candidates: seq<ProjectVersion>, central: seq<Candidate>,
      source: string): seq<Candidate> {
    if candidates == [] then []
    else
      AppendAll(EffectiveOf(name, candidates[..|candidates| - 1], central, source),
        Contribution(name, candidates[|candidates| - 1], central, source))
  }

  lemma AppendOne<T(!new)>(candidates: seq<T>, x: T)
    ensures AppendAll(candidates, [x]) == AppendUnique(candidates, x)
  {
    assert [x][..0] == [];
    assert AppendAll(candidates, []) == candidates;
  }

  method AppendRenamed(candidates: seq<Candidate>, central: seq<Candidate>, name: string) returns (r: seq<Candidate>)
    ensures r == AppendAll(candidates, Renamed(central, name))
  {
    r := candidates;
    ghost var all := Renamed(central, name);
    for i := 0 to |central|
      invariant r == AppendAll(candidates, all[..i])
    {
      TakeLast(all, i);
      r := AppendUniqueVersion(r, central[i].(name := name));
    }
    TakeAll(all);
  }

  /** `effectiveNuGetProjectVersions`. */
  method EffectiveVersions(dependency: Dependency, central: seq<Candidate>, source: string) returns (r: seq<Candidate>)
    ensures r == EffectiveOf(dependency.name, dependency.candidates, central, source)
  {
    hide AppendUnique, AppendAll, TrimSpace;
    var name := dependency.name;
    r := [];
    for i := 0 to |dependency.candidates|
      invariant r == EffectiveOf(name, dependency.candidates[..i], central, source)
    {
      TakeLast(dependency.candidates, i);
      var candidate := dependency.candidates[i];
      var version := TrimSpace(candidate.versionOverride);
      if version == "" { version := TrimSpace(candidate.version); }
      if version != "" {
        AppendOne(r, Candidate(name, version, source));
        r := AppendUniqueVersion(r, Candidate(name, version, source));
        continue;
      }
      if |central| == 0 {
        AppendOne(r, Candidate(name, "", source));
        r := AppendUniqueVersion(r, Candidate(name, "", source));
        continue;
      }
      r := AppendRenamed(r, central, name);
    }
    TakeAll(dependency.candidates);
  }

  /** `exactNuGetVersion`: the normalized form of an exact version range. */
  type Exact = string -> Option<string>

  predicate HasInexact(candidates: seq<Candidate>, exact: Exact) {
    candidates != [] && (exact(candidates[|candidates| - 1].version).None? ||
      HasInexact(candidates[..|candidates| - 1], exact))
  }

  function ExactEvidence(candidates: seq<Candidate>, exact: Exact): seq<Evidence> {
    if candidates == [] then []
    else
      var last := candidates[|candidates| - 1];
      ExactEvidence(candidates[..|candidates| - 1], exact) +
      match exact(last.version)
      case Some(version) => [Evidence(last.name, version, last.source)]
      case None => []
  }

  /** The first nonempty source of a candidate that is not exact. */
  function InexactSource(candidates: seq<Candidate>, exact: Exact): string {
    if candidates == [] then ""
    else
      var last := candidates[|candidates| - 1];
      var earlier := InexactSource(candidates[..|candidates| - 1], exact);
      if earlier == "" && exact(last.version).None? then last.source else earlier
  }

  function FirstNonblank(a: string, b: string): string {
    if !Blank(a) then TrimSpace(a) else TrimSpace(b)
  }

  /** Where a version that is not exact comes from: the candidate's source, or the project's when that is blank. */
  function EvidenceSource(candidates: seq<Candidate>, source: string, exact: Exact): string {
    if Blank(InexactSource(candidates, exact)) then source else InexactSource(candidates, exact)
  }

  lemma {:induction false} NoInexactSource(candidates: seq<Candidate>, exact: Exact)
    requires forall c <- candidates :: exact(c.version).Some? || c.source == ""
    ensures InexactSource(candidates, exact) == ""
  {
    if candidates != [] { NoInexactSource(candidates[..|candidates| - 1], exact); }
  }

  /** The first candidate that is not exact and has a source names it. */
  lemma {:induction false} InexactSourceIsFirst(candidates: seq<Candidate>, exact: Exact, k: nat)
    requires k < |candidates| && exact(candidates[k].version).None? && candidates[k].source != ""
    requires forall i :: 0 <= i < k ==> exact(candidates[i].version).Some? || candidates[i].source == ""
    ensures InexactSource(candidates, exact) == candidates[k].source
    decreases |candidates|
  {
    var n := |candidates| - 1;
    if k < n {
      InexactSourceIsFirst(candidates[..n], exact, k);
    } else {
      NoInexactSource(candidates[..n], exact);
    }
  }

  lemma {:induction false} AllExact(candidates: seq<Candidate>, exact: Exact)
    requires !HasInexact(candidates, exact)
    ensures |ExactEvidence(candidates, exact)| == |candidates|
  {
    if candidates != [] { AllExact(candidates[..|candidates| - 1], exact); }
  }

  method Sift(candidates: seq<Candidate>, exact: Exact) returns (found: seq<Evidence>, uncertain: bool, source: string)
    ensures found == ExactEvidence(candidates, exact) && uncertain == HasInexact(candidates, exact)
    ensures source == InexactSource(candidates, exact)
  {
    found, uncertain, source := [], false, "";
    for i := 0 to |candidates|
      invariant found == ExactEvidence(candidates[..i], exact)
      invariant uncertain == HasInexact(candidates[..i], exact) && source == InexactSource(candidates[..i], exact)
    {
      TakeLast(candidates, i);
      match exact(candidates[i].version)
      case None =>
        uncertain := true;
        if source == "" { source := candidates[i].source; }
      case Some(version) =>
        found := found + [Evidence(candidates[i].name, version, candidates[i].source)];
    }
    TakeAll(candidates);
  }

  class PackageEvidence {
    var declared: seq<Evidence>
    var unknown: seq<Evidence>

    constructor ()
      ensures declared == [] && unknown == []
    {
      declared, unknown := [], [];
    }

    /** `appendNuGetDeclarationEvidence`: without a lock, one version that is not exact withholds them all. */
    method AppendDeclaration(name: string, candidates: seq<Candidate>, source: string, resolvedByLock: bool,
        exact: Exact)
      modifies this
      ensures var withheld := (candidates == [] || HasInexact(candidates, exact)) && !resolvedByLock;
        declared == old(declared) + (if withheld then [] else ExactEvidence(candidates, exact)) &&
        unknown == old(unknown) +
          if withheld then [Evidence(name, "", TrimSpace(EvidenceSource(candidates, source, exact)))] else []
    {
      hide HasInexact;
      var found, uncertain, uncertainSource := Sift(candidates, exact);
      if !uncertain { AllExact(candidates, exact); }
      if uncertain || |found| == 0 {
        if !resolvedByLock {
          unknown := unknown + [Evidence(name, "", FirstNonblank(uncertainSource, source))];
        }
        if resolvedByLock { declared := declared + found; }
        return;
      }
      declared := declared + found;
    }
  }

  // ----- coverage -----

  /** NuGet gives an instance its override while central versions are on, else its version, else the version of a
      central entry. */
  predicate ResolvesTo(c: ProjectVersion, holds: bool, central: seq<ProjectVersion>, version: string) {
    var overridden, own := TrimSpace(c.versionOverride), TrimSpace(c.version);
    if holds && overridden != "" then version == overridden
    else if own != "" then version == own
    else holds && exists x <- central :: version == TrimSpace(x.version)
  }

  /** An override that NuGet ignores takes the place of this version. */
  predicate Hidden(c: ProjectVersion, holds: bool) {
    var overridden, own := TrimSpace(c.versionOverride), TrimSpace(c.version);
    !holds && overridden != "" && own != "" && overridden != own
  }

  lemma {:induction false} EffectiveHas(name: string, candidates: seq<ProjectVersion>, central: seq<Candidate>,
      source: string, c: ProjectVersion, x: Candidate)
    requires c in candidates && x in Contribution(name, c, central, source)
    ensures x in EffectiveOf(name, candidates, central, source)
  {
    hide Contribution;
    var n := |candidates| - 1;
    assert candidates == candidates[..n] + [candidates[n]];
    if candidates[n] != c {
      assert c in candidates[..n];
      EffectiveHas(name, candidates[..n], central, source, c, x);
    }
  }

  /** The central entries in use, as the project sees them and as MSBuild does. */
  function InUse(active: bool, entries: CentralModel, key: string): seq<Candidate> {
    if active then CentralCandidates(entries, key) else []
  }

  /** With central versions in use as NuGet has them. */
  lemma ResolvedIsEffective(packages: ProjectModel, entries: CentralModel, source: string, centralSource: string,
      key: string, c: ProjectVersion, pins: Instances, active: bool, version: string)
    requires Covers(Projects(packages), key, c) && CoversAll(Centrals(entries, centralSource), pins)
    requires ResolvesTo(c, active, InstancesOf(pins, key), version) && !Hidden(c, active)
    ensures
      var effective := EffectiveOf(packages[key].name, packages[key].candidates, InUse(active, entries, key), source);
      exists x <- effective :: x.version == version
  {
    hide TrimSpace, EffectiveOf;
    var name, candidates, central := packages[key].name, packages[key].candidates, InUse(active, entries, key);
    var x: Candidate;
    if TrimSpace(c.versionOverride) != "" || TrimSpace(c.version) != "" {
      x := Candidate(name, version, source);
    } else {
      var pin :| pin in InstancesOf(pins, key) && version == TrimSpace(pin.version);
      assert Covers(Centrals(entries, centralSource), key, pin);
      var i :| 0 <= i < |entries[key]| && entries[key][i].version == version;
      x := Renamed(central, name)[i];
    }
    assert x in Contribution(name, c, central, source);
    EffectiveHas(name, candidates, central, source, c, x);
  }

  lemma {:induction false} ExactHas(candidates: seq<Candidate>, exact: Exact, x: Candidate)
    requires x in candidates && !HasInexact(candidates, exact)
    ensures exact(x.version).Some?
    ensures Evidence(x.name, exact(x.version).value, x.source) in ExactEvidence(candidates, exact)
  {
    var n := |candidates| - 1;
    assert candidates == candidates[..n] + [candidates[n]];
    if candidates[n] != x {
      assert x in candidates[..n];
      ExactHas(candidates[..n], exact, x);
    }
  }

  function ProjectPackages(nodes: seq<Node>): ProjectModel {
    var model := ModelOf(Projects(map[]), CollectAll(nodes, "PackageReference", false, EMPTY_DOCUMENT));
    if model.Projects? then model.packages else map[]
  }

  function CentralEntries(nodes: seq<Node>, source: string): CentralModel {
    var model := ModelOf(Centrals(map[], source), CollectAll(nodes, "PackageVersion", false, EMPTY_DOCUMENT));
    if model.Centrals? then model.entries else map[]
  }

  lemma {:induction false} ApplyAllKeepsKind(model: Model, items: seq<Item>)
    ensures model.Projects? ==> ApplyAll(model, items).Projects?
    ensures model.Centrals? ==> ApplyAll(model, items).Centrals? && ApplyAll(model, items).source == model.source
  {
    if items != [] { ApplyAllKeepsKind(model, items[..|items| - 1]); }
  }

  ghost predicate UpdatesState(nodes: seq<Node>, element: string) {
    forall i :: 0 <= i < |nodes| ==> UpdatesStateValues(nodes[i], element)
  }

  lemma NothingToApply(model: Model)
    ensures ApplyAll(model, []) == model
  {
  }

  /** Whatever the conditions turn out to be, an instance MSBuild creates is among the candidates. */
  lemma ProjectCandidatesCover(nodes: seq<Node>, truth: Truth)
    requires UpdatesState(nodes, "PackageReference")
    ensures CoversAll(Projects(ProjectPackages(nodes)), EvaluateAll(nodes, "PackageReference", truth, map[]))
  {
    hide CollectAll, EvaluateAll, Covers, ApplyAll;
    assert ApplyAll(Projects(map[]), []) == Projects(map[]) by { NothingToApply(Projects(map[])); }
    NodesCovered(nodes, "PackageReference", false, truth, Projects(map[]), EMPTY_DOCUMENT, map[], true);
    ApplyAllKeepsKind(Projects(map[]), CollectAll(nodes, "PackageReference", false, EMPTY_DOCUMENT).items);
  }

  lemma CentralCandidatesCover(nodes: seq<Node>, source: string, truth: Truth)
    requires UpdatesState(nodes, "PackageVersion")
    ensures CoversAll(Centrals(CentralEntries(nodes, source), source),
      EvaluateAll(nodes, "PackageVersion", truth, map[]))
  {
    hide CollectAll, EvaluateAll, Covers, ApplyAll;
    var empty := Centrals(map[], source);
    assert ApplyAll(empty, []) == empty by { NothingToApply(empty); }
    NodesCovered(nodes, "PackageVersion", false, truth, empty, EMPTY_DOCUMENT, map[], true);
    ApplyAllKeepsKind(empty, CollectAll(nodes, "PackageVersion", false, EMPTY_DOCUMENT).items);
  }

  // ----- central activation -----

  /** `centralPackageVersionsAllowed`. */
  predicate CentralAllowed(document: Document) {
    !document.centralSeen || (document.centralEnabled && !document.centralAmbiguous)
  }

  /** Unless the document is ambiguous, the recorded activation is the evaluated one. */
  predicate Records(document: Document, value: Option<bool>) {
    (!document.centralSeen ==> value.None?) &&
    (!document.centralAmbiguous ==> value == if document.centralSeen then Some(document.centralEnabled) else None)
  }

  lemma {:induction false} ActivationRecorded(node: Node, element: string, conditional: bool, truth: Truth,
      document: Document, value: Option<bool>, enabled: bool)
    requires enabled || conditional
    requires Records(document, value)
    ensures Records(Collect(node, element, conditional, document),
      if enabled then ActivationOf(node, element, truth, value) else value)
    decreases node
  {
    hide Variants, Valid, FirstItem, HasCondition, TextOf, Inside, TrimSpace, Holds, Opens, IsSwitch, IsActivation,
      IsConditionalScope, Lower;
    match node
    case Chars(_) =>
    case Element(tag, children) =>
      TagReads(tag, truth);
      SameText(children);
      if !EqualFold(tag.name, element) && !IsActivation(tag) {
        ActivationsRecorded(children, element, conditional || IsConditionalScope(tag), truth, document, value,
          enabled && Opens(tag, truth));
      }
  }

  lemma {:induction false} ActivationsRecorded(nodes: seq<Node>, element: string, conditional: bool, truth: Truth,
      document: Document, value: Option<bool>, enabled: bool)
    requires enabled || conditional
    requires Records(document, value)
    ensures Records(CollectAll(nodes, element, conditional, document),
      if enabled then ActivationOfAll(nodes, element, truth, value) else value)
    decreases nodes
  {
    hide Collect, ActivationOf, Records;
    if nodes != [] {
      ActivationRecorded(nodes[0], element, conditional, truth, document, value, enabled);
      var next := if enabled then ActivationOf(nodes[0], element, truth, value) else value;
      ActivationsRecorded(nodes[1..], element, conditional, truth, Collect(nodes[0], element, conditional, document),
        next, enabled);
    }
  }

  /** When the project is taken to use the central file, no truth of the conditions switches that off. */
  lemma ActivationIsCertain(project: seq<Node>, central: seq<Node>, truth: Truth, centralTruth: Truth)
    requires CentralAllowed(CollectAll(project, "PackageReference", false, EMPTY_DOCUMENT))
    requires var document := CollectAll(central, "PackageVersion", false, EMPTY_DOCUMENT);
      document.centralSeen && CentralAllowed(document)
    ensures ActivationOfAll(project, "PackageReference", truth, None) in {None, Some(true)}
    ensures ActivationOfAll(central, "PackageVersion", centralTruth, None) == Some(true)
  {
    hide CollectAll, ActivationOfAll;
    ActivationsRecorded(project, "PackageReference", false, truth, EMPTY_DOCUMENT, None, true);
    ActivationsRecorded(central, "PackageVersion", false, centralTruth, EMPTY_DOCUMENT, None, true);
  }

  // ----- declared evidence -----

  /** The code's decision: neither file leaves the activation open, and the central file switches it on. */
  predicate CentralInUse(project: seq<Node>, central: seq<Node>) {
    var own, shared := CollectAll(project, "PackageReference", false, EMPTY_DOCUMENT),
      CollectAll(central, "PackageVersion", false, EMPTY_DOCUMENT);
    CentralAllowed(own) && shared.centralSeen && CentralAllowed(shared)
  }

  /** MSBuild's: the project's own value, else the one of the central file it imports. */
  predicate CentralHolds(project: seq<Node>, central: seq<Node>, truth: Truth, centralTruth: Truth) {
    ActivationOfAll(project, "PackageReference", truth, None)
      .GetOr(ActivationOfAll(central, "PackageVersion", centralTruth, None) == Some(true))
  }

  lemma InUseHolds(project: seq<Node>, central: seq<Node>, truth: Truth, centralTruth: Truth)
    requires CentralInUse(project, central)
    ensures CentralHolds(project, central, truth, centralTruth)
  {
    hide CollectAll, ActivationOfAll;
    ActivationIsCertain(project, central, truth, centralTruth);
  }

  lemma {:induction false} InexactHas(candidates: seq<Candidate>, exact: Exact, x: Candidate)
    requires x in candidates && exact(x.version).None?
    ensures HasInexact(candidates, exact)
  {
    var n := |candidates| - 1;
    assert candidates == candidates[..n] + [candidates[n]];
    if candidates[n] != x {
      assert x in candidates[..n];
      InexactHas(candidates[..n], exact, x);
    }
  }

  /** What the project says about a package, with the central entries in use. */
  function Effective(packages: ProjectModel, entries: CentralModel, key: string, active: bool,
      source: string): seq<Candidate>
    requires key in packages
  {
    EffectiveOf(packages[key].name, packages[key].candidates, InUse(active, entries, key), source)
  }

  /** The code's activation may be more cautious than NuGet's, never less: then a version that only the central file
      gives shows as one that is not exact. */
  lemma ResolvedIsEffectiveOrInexact(packages: ProjectModel, entries: CentralModel, source: string,
      centralSource: string, key: string, c: ProjectVersion, pins: Instances, inUse: bool, holds: bool, version: string,
      exact: Exact)
    requires Covers(Projects(packages), key, c) && CoversAll(Centrals(entries, centralSource), pins)
    requires (inUse ==> holds) && exact("").None? && ResolvesTo(c, holds, InstancesOf(pins, key), version) &&
      !Hidden(c, holds)
    requires !HasInexact(Effective(packages, entries, key, inUse, source), exact)
    ensures exists x <- Effective(packages, entries, key, inUse, source) :: x.version == version
  {
    hide EffectiveOf, TrimSpace, HasInexact, CoversAll;
    if inUse == holds {
      ResolvedIsEffective(packages, entries, source, centralSource, key, c, pins, inUse, version);
    } else {
      var own := TrimSpace(c.versionOverride) != "" || TrimSpace(c.version) != "";
      var x := Candidate(packages[key].name, if own then version else "", source);
      EffectiveHas(packages[key].name, packages[key].candidates, [], source, c, x);
      if !own { InexactHas(Effective(packages, entries, key, inUse, source), exact, x); }
    }
  }

  /** The effective versions of a package in a project with a central file. */
  function Declared(project: seq<Node>, central: seq<Node>, source: string, centralSource: string,
      key: string): seq<Candidate>
    requires key in ProjectPackages(project)
  {
    Effective(ProjectPackages(project), CentralEntries(central, centralSource), key, CentralInUse(project, central),
      source)
  }

  /** Evidence for the version in what is declared without a lock file. */
  predicate HasEvidence(project: seq<Node>, central: seq<Node>, source: string, centralSource: string, exact: Exact,
      key: string, version: string)
  {
    key in ProjectPackages(project) && exact(version).Some? &&
    exists e <- ExactEvidence(Declared(project, central, source, centralSource, key), exact) ::
      e.version == exact(version).value
  }

  /** Without a lock file, a package whose evidence is declared (not unknown) has evidence for every version that any
      truth of the conditions can give it, in the project and in the central file, activation included, unless an
      override takes its place that is ignored while central versions are off. */
  lemma DeclaredEvidenceIsComplete(project: seq<Node>, central: seq<Node>, source: string, centralSource: string,
      exact: Exact, truth: Truth, centralTruth: Truth, key: string, c: ProjectVersion, version: string)
    requires UpdatesState(project, "PackageReference") && UpdatesState(central, "PackageVersion") && exact("").None?
    requires c in InstancesOf(EvaluateAll(project, "PackageReference", truth, map[]), key)
    requires ResolvesTo(c, CentralHolds(project, central, truth, centralTruth),
               InstancesOf(EvaluateAll(central, "PackageVersion", centralTruth, map[]), key), version)
    requires key in ProjectPackages(project) ==>
      !HasInexact(Declared(project, central, source, centralSource, key), exact)
    ensures !Hidden(c, CentralHolds(project, central, truth, centralTruth)) ==>
      HasEvidence(project, central, source, centralSource, exact, key, version)
  {
    hide EvaluateAll, ResolvesTo, Effective, ProjectPackages, CentralEntries, ExactEvidence, HasInexact,
      UpdatesStateValues, CentralInUse, CentralHolds, Hidden;
    ProjectCandidatesCover(project, truth);
    CentralCandidatesCover(central, centralSource, centralTruth);
    var packages, entries := ProjectPackages(project), CentralEntries(central, centralSource);
    var inUse, holds := CentralInUse(project, central), CentralHolds(project, central, truth, centralTruth);
    assert Covers(Projects(packages), key, c);
    if inUse { InUseHolds(project, central, truth, centralTruth); }
    if !Hidden(c, holds) {
      ResolvedIsEffectiveOrInexact(packages, entries, source, centralSource, key, c,
        EvaluateAll(central, "PackageVersion", centralTruth, map[]), inUse, holds, version, exact);
      var effective := Effective(packages, entries, key, inUse, source);
      var x :| x in effective && x.version == version;
      ExactHas(effective, exact, x);
    }
  }

  // ----- why updates have to state values -----

  function Included(name: string, version: string): Tag {
    Tag("PackageReference", [Attribute("Include", name), Attribute("Version", version)], 0)
  }

  function BlankUpdate(name: string): Tag {
    Tag("PackageReference", [Attribute("Update", name), Attribute("Version", "")], 1)
  }

  lemma TwoAttributes(a: Attribute, b: Attribute, name: string)
    ensures AttributeValue([a, b], name) ==
      if Lower(b.name) == name then Some(TrimSpace(b.value))
      else if Lower(a.name) == name then Some(TrimSpace(a.value)) else None
  {
    hide TrimSpace, Lower;
    assert [a, b][..1] == [a] && [a][..0] == [];
    assert AttributeValue([], name) == None;
  }

  lemma NoConditionAttribute(name: string, other: string)
    requires name == "Include" || name == "Update"
    ensures !HasCondition(Tag("PackageReference", [Attribute(name, other), Attribute("Version", "")], 0))
    ensures Lower("Include") == "include" && Lower("Update") == "update" && Lower("Version") == "version"
    ensures !EqualFold(name, "Condition") && !EqualFold("Version", "Condition")
  {
    assert |Lower("Condition")| == 9;
    assert Lower("Include") == "include" && Lower("Update") == "update" && Lower("Version") == "version";
  }

  lemma IncludedItem(name: string, version: string)
    requires TrimSpace(name) == name && name != "" && TrimSpace(version) == version
    ensures BaseItem(Included(name, version)) == Item(name, version, "", false, false)
    ensures Attributes(Included(name, version)) == Setting(Some(version), None)
  {
    hide TrimSpace, EqualFold, Lower;
    TagReads(Included(name, version), _ => true);
    NoConditionAttribute("Include", name);
    forall field ensures AttributeValue(Included(name, version).attributes, field)
      == if Lower("Version") == field then Some(version) else if Lower("Include") == field then Some(name) else None
    {
      TwoAttributes(Attribute("Include", name), Attribute("Version", version), field);
    }
  }

  lemma BlankUpdateItem(name: string)
    requires TrimSpace(name) == name && name != ""
    ensures BaseItem(BlankUpdate(name)) == Item(name, "", "", false, true)
    ensures Attributes(BlankUpdate(name)) == Setting(Some(""), None)
  {
    hide TrimSpace, EqualFold, Lower;
    TagReads(BlankUpdate(name), _ => true);
    NoConditionAttribute("Update", name);
    TrimEmpty();
    forall field ensures AttributeValue(BlankUpdate(name).attributes, field)
      == if Lower("Version") == field then Some("") else if Lower("Update") == field then Some(name) else None
    {
      TwoAttributes(Attribute("Update", name), Attribute("Version", ""), field);
    }
  }

  /** A document that includes a package with a version and then updates it with a blank one. */
  function BlankingDocument(name: string, version: string): seq<Node> {
    [Element(Included(name, version), []), Element(BlankUpdate(name), [])]
  }

  lemma SameFold()
    ensures EqualFold("PackageReference", "PackageReference")
  {
  }

  lemma TagNames(name: string, version: string)
    ensures Included(name, version).name == BlankUpdate(name).name == "PackageReference"
  {
  }

  lemma TwoApplied(first: Item, second: Item, name: string, version: string)
    requires TrimSpace(name) == name && Key(name) != ""
    requires first == Item(name, version, "", false, false) && second == Item(name, "", "", false, true)
    ensures ApplyAll(Projects(map[]), [first, second]) ==
      Projects(map[Key(name) := Dependency(name, [ProjectVersion(version, "")])])
  {
    hide TrimSpace, Key;
    var model := Projects(map[Key(name) := Dependency(name, [ProjectVersion(version, "")])]);
    assert [first, second][..1] == [first] && [first][..0] == [];
    assert ApplyAll(Projects(map[]), []) == Projects(map[]);
    assert [] + [ProjectVersion(version, "")] == [ProjectVersion(version, "")];
    assert Apply(Projects(map[]), first) == model;
    assert Apply(model, second) == model;
  }

  lemma BlankedItems(name: string, version: string)
    requires TrimSpace(name) == name && IsPackageName(name) && TrimSpace(version) == version
    ensures CollectAll(BlankingDocument(name, version), "PackageReference", false, EMPTY_DOCUMENT).items ==
      [Item(name, version, "", false, false), Item(name, "", "", false, true)]
  {
    hide TrimSpace, Key, IsPackageName, BaseItem, EqualFold, Included, BlankUpdate;
    NameNotEmpty(name);
    IncludedItem(name, version);
    BlankUpdateItem(name);
    var first, second := Item(name, version, "", false, false), Item(name, "", "", false, true);
    ValidIsAllOrNone([first], name);
    ValidIsAllOrNone([second], name);
    SameFold();
    TagNames(name, version);
    var nodes := BlankingDocument(name, version);
    assert nodes[1..] == [nodes[1]] && [nodes[1]][1..] == [];
    var document := Collect(nodes[0], "PackageReference", false, EMPTY_DOCUMENT);
    assert document.items == [] + [first] == [first];
    var whole := Collect(nodes[1], "PackageReference", false, document);
    assert whole.items == [first] + [second] == [first, second];
    assert CollectAll([nodes[1]], "PackageReference", false, document) == whole;
  }

  lemma BlankedModel(name: string, version: string)
    requires TrimSpace(name) == name && IsPackageName(name) && TrimSpace(version) == version
    ensures ProjectPackages(BlankingDocument(name, version)) ==
      map[Key(name) := Dependency(name, [ProjectVersion(version, "")])]
  {
    hide TrimSpace, Key, IsPackageName, CollectAll, ApplyAll, BlankingDocument;
    KeyNotEmpty(name);
    BlankedItems(name, version);
    TwoApplied(Item(name, version, "", false, false), Item(name, "", "", false, true), name, version);
  }

  lemma NoConditions(name: string, version: string)
    ensures !HasCondition(Included(name, version)) && !HasCondition(BlankUpdate(name))
  {
    hide EqualFold;
    NoConditionAttribute("Include", name);
    NoConditionAttribute("Update", name);
  }

  lemma BlankedInstances(name: string, version: string, truth: Truth)
    requires TrimSpace(name) == name && IsPackageName(name) && TrimSpace(version) == version
    ensures EvaluateAll(BlankingDocument(name, version), "PackageReference", truth, map[]) ==
      map[Key(name) := [ProjectVersion("", "")]]
  {
    hide TrimSpace, Key, IsPackageName, BaseItem, Lower, Included, BlankUpdate, Attributes, HasCondition, Holds, Opens,
      Evaluate, PackageIn, IsUpdate;
    NameNotEmpty(name);
    IncludedItem(name, version);
    BlankUpdateItem(name);
    NoConditions(name, version);
    TagNames(name, version);
    TagReads(Included(name, version), truth);
    TagReads(BlankUpdate(name), truth);
    ElementReads(Included(name, version), [], truth, map[]);
    var nodes := BlankingDocument(name, version);
    assert nodes[1..] == [nodes[1]] && [nodes[1]][1..] == [];
    var before := map[Key(name) := [ProjectVersion(version, "")]];
    assert EvaluateNode(nodes[0], "PackageReference", truth, map[]) == before by {
      assert InstancesOf(map[], Key(name)) + [ProjectVersion(version, "")] == [ProjectVersion(version, "")];
    }
    assert RestateAll([ProjectVersion(version, "")], Setting(Some(""), None)) == [ProjectVersion("", "")];
    ElementReads(BlankUpdate(name), [], truth, before);
    assert EvaluateNode(nodes[1], "PackageReference", truth, before) == map[Key(name) := [ProjectVersion("", "")]];
    assert EvaluateAll(nodes, "PackageReference", truth, map[]) ==
      EvaluateAll([nodes[1]], "PackageReference", truth, before);
  }

  lemma NotCovered(name: string, version: string)
    requires version != ""
    ensures !CoversAll(Projects(map[Key(name) := Dependency(name, [ProjectVersion(version, "")])]),
      map[Key(name) := [ProjectVersion("", "")]])
  {
    hide Key;
    var instances := map[Key(name) := [ProjectVersion("", "")]];
    assert ProjectVersion("", "") in instances[Key(name)];
    assert !Covers(Projects(map[Key(name) := Dependency(name, [ProjectVersion(version, "")])]), Key(name),
      ProjectVersion("", ""));
  }

  /** MSBuild takes the version away, the candidates keep it: nothing covers the instance without a version. */
  lemma BlankUpdateEscapes(name: string, version: string, truth: Truth)
    requires TrimSpace(name) == name && IsPackageName(name) && TrimSpace(version) == version && version != ""
    ensures var nodes := BlankingDocument(name, version);
      ProjectPackages(nodes) == map[Key(name) := Dependency(name, [ProjectVersion(version, "")])] &&
      EvaluateAll(nodes, "PackageReference", truth, map[]) == map[Key(name) := [ProjectVersion("", "")]] &&
      !CoversAll(Projects(ProjectPackages(nodes)), EvaluateAll(nodes, "PackageReference", truth, map[]))
  {
    hide CoversAll, ProjectPackages, EvaluateAll;
    var packages := map[Key(name) := Dependency(name, [ProjectVersion(version, "")])];
    BlankedModel(name, version);
    BlankedInstances(name, version, truth);
    assert !CoversAll(Projects(packages), map[Key(name) := [ProjectVersion("", "")]]) by { NotCovered(name, version); }
  }

  // ----- what an override hides -----

  function Overridden(name: string, version: string, versionOverride: string): Tag {
    Tag("PackageReference", [Attribute("Include", name), Attribute("Version", version),
      Attribute("VersionOverride", versionOverride)], 0)
  }

  lemma OverrideNames()
    ensures Lower("VersionOverride") == "versionoverride" && !EqualFold("VersionOverride", "Condition")
  {
    assert |Lower("Condition")| == 9;
  }

  lemma OverriddenItem(name: string, version: string, versionOverride: string)
    requires TrimSpace(name) == name && name != "" && TrimSpace(version) == version &&
      TrimSpace(versionOverride) == versionOverride
    ensures var tag := Overridden(name, version, versionOverride);
      BaseItem(tag) == Item(name, version, versionOverride, false, false) && !HasCondition(tag) &&
      Attributes(tag) == Setting(Some(version), Some(versionOverride)) && tag.name == "PackageReference"
  {
    hide TrimSpace, EqualFold, Lower;
    TagReads(Overridden(name, version, versionOverride), _ => true);
    var a, b, c := Attribute("Include", name), Attribute("Version", version),
      Attribute("VersionOverride", versionOverride);
    NoConditionAttribute("Include", name);
    OverrideNames();
    assert [a, b, c][..2] == [a, b];
    forall field ensures AttributeValue([a, b, c], field) ==
      if Lower(c.name) == field then Some(versionOverride) else AttributeValue([a, b], field)
    {
    }
    forall field ensures AttributeValue([a, b], field) ==
      if Lower(b.name) == field then Some(version) else if Lower(a.name) == field then Some(name) else None
    {
      TwoAttributes(a, b, field);
    }
  }

  lemma OneApplied(item: Item, name: string, version: string, versionOverride: string)
    requires TrimSpace(name) == name && Key(name) != "" && item == Item(name, version, versionOverride, false, false)
    ensures ApplyAll(Projects(map[]), [item]) ==
      Projects(map[Key(name) := Dependency(name, [ProjectVersion(version, versionOverride)])])
  {
    hide TrimSpace, Key;
    assert [item][..0] == [];
    assert ApplyAll(Projects(map[]), []) == Projects(map[]);
    assert [] + [ProjectVersion(version, versionOverride)] == [ProjectVersion(version, versionOverride)];
  }

  lemma OverriddenModel(name: string, version: string, versionOverride: string, truth: Truth)
    requires TrimSpace(name) == name && IsPackageName(name)
    requires TrimSpace(version) == version && TrimSpace(versionOverride) == versionOverride
    ensures var project, both :=
      [Element(Overridden(name, version, versionOverride), [])], ProjectVersion(version, versionOverride);
      ProjectPackages(project) == map[Key(name) := Dependency(name, [both])] &&
      EvaluateAll(project, "PackageReference", truth, map[]) == map[Key(name) := [both]] &&
      forall truth :: ActivationOfAll(project, "PackageReference", truth, None) == None
  {
    hide TrimSpace, Key, IsPackageName, BaseItem, Lower, Overridden, Attributes, HasCondition, Holds, Opens, Evaluate,
      PackageIn, IsUpdate;
    NameNotEmpty(name);
    KeyNotEmpty(name);
    OverriddenItem(name, version, versionOverride);
    SameFold();
    var tag, both := Overridden(name, version, versionOverride), ProjectVersion(version, versionOverride);
    var item := Item(name, version, versionOverride, false, false);
    ValidIsAllOrNone([item], name);
    var project := [Element(tag, [])];
    assert project[1..] == [];
    assert Collect(project[0], "PackageReference", false, EMPTY_DOCUMENT).items == [] + [item];
    assert CollectAll(project, "PackageReference", false, EMPTY_DOCUMENT).items == [item];
    OneApplied(item, name, version, versionOverride);
    TagReads(tag, truth);
    ElementReads(tag, [], truth, map[]);
    assert InstancesOf(map[], Key(name)) + [both] == [both];
    assert EvaluateNode(project[0], "PackageReference", truth, map[]) == map[Key(name) := [both]];
  }

  lemma NothingCollected()
    ensures !CollectAll([], "PackageVersion", false, EMPTY_DOCUMENT).centralSeen
  {
  }

  lemma OverrideIsEffective(name: string, version: string, versionOverride: string, central: seq<Candidate>,
      source: string, exact: Exact)
    requires TrimSpace(versionOverride) == versionOverride && versionOverride != ""
    ensures var effective := EffectiveOf(name, [ProjectVersion(version, versionOverride)], central, source);
      (HasInexact(effective, exact) <==> exact(versionOverride).None?) &&
      (exact(versionOverride).Some? ==>
        ExactEvidence(effective, exact) == [Evidence(name, exact(versionOverride).value, source)])
  {
    hide TrimSpace;
    var c, x := ProjectVersion(version, versionOverride), Candidate(name, versionOverride, source);
    assert [c][..0] == [] && [x][..0] == [];
    AppendOne([], x);
    assert EffectiveOf(name, [c], central, source) == [x];
    assert ExactEvidence([], exact) == [] && !HasInexact([], exact);
  }

  /** In a project without central versions that gives a package both a version and an override, the version is resolved
      and the evidence is the override. */
  lemma OverrideHidesTheVersion(name: string, version: string, versionOverride: string, source: string, exact: Exact,
      truth: Truth)
    requires TrimSpace(name) == name && IsPackageName(name)
    requires TrimSpace(version) == version && version != "" && TrimSpace(versionOverride) == versionOverride &&
      versionOverride != ""
    requires exact(versionOverride).Some? && exact(versionOverride) != exact(version)
    ensures var project, key := [Element(Overridden(name, version, versionOverride), [])], Key(name);
      var c := ProjectVersion(version, versionOverride);
      EvaluateAll(project, "PackageReference", truth, map[]) == map[key := [c]] &&
      !CentralHolds(project, [], truth, truth) && Hidden(c, false) && ResolvesTo(c, false, [], version) &&
      key in ProjectPackages(project) && !HasInexact(Declared(project, [], source, "", key), exact) &&
      !HasEvidence(project, [], source, "", exact, key, version)
  {
    hide TrimSpace, Key, IsPackageName, EvaluateAll, ProjectPackages, Overridden, CollectAll, EffectiveOf,
      ExactEvidence, HasInexact, CentralEntries;
    OverriddenModel(name, version, versionOverride, truth);
    var project := [Element(Overridden(name, version, versionOverride), [])];
    assert !CentralInUse(project, []) by { NothingCollected(); }
    OverrideIsEffective(name, version, versionOverride, [], source, exact);
  }

  lemma OverriddenUpdates(name: string, version: string, versionOverride: string)
    requires TrimSpace(name) == name && name != ""
    requires TrimSpace(version) == version && TrimSpace(versionOverride) == versionOverride
    ensures UpdatesState([Element(Overridden(name, version, versionOverride), [])], "PackageReference")
  {
    hide TrimSpace, Lower, Overridden, Attributes, BaseItem, PackageIn, IsUpdate;
    OverriddenItem(name, version, versionOverride);
    TagReads(Overridden(name, version, versionOverride), _ => true);
  }

  /** For a project of one such element, whatever the central file: the declared evidence has the version that is
      resolved exactly when no ignored override takes its place, or both are the same exact version. */
  lemma CompleteExactlyWhen(name: string, version: string, versionOverride: string, central: seq<Node>, source: string,
      centralSource: string, exact: Exact, truth: Truth, centralTruth: Truth, resolved: string)
    requires TrimSpace(name) == name && IsPackageName(name) && exact("").None?
    requires TrimSpace(version) == version && TrimSpace(versionOverride) == versionOverride
    requires UpdatesState(central, "PackageVersion")
    requires var project, key := [Element(Overridden(name, version, versionOverride), [])], Key(name);
      ResolvesTo(ProjectVersion(version, versionOverride), CentralHolds(project, central, truth, centralTruth),
        InstancesOf(EvaluateAll(central, "PackageVersion", centralTruth, map[]), key), resolved) &&
      (key in ProjectPackages(project) ==> !HasInexact(Declared(project, central, source, centralSource, key), exact))
    ensures var project, key := [Element(Overridden(name, version, versionOverride), [])], Key(name);
      HasEvidence(project, central, source, centralSource, exact, key, resolved) <==>
        !Hidden(ProjectVersion(version, versionOverride), CentralHolds(project, central, truth, centralTruth)) ||
        exact(version) == exact(versionOverride)
  {
    hide TrimSpace, Key, IsPackageName, EvaluateAll, ProjectPackages, Overridden, CollectAll, EffectiveOf,
      ExactEvidence, HasInexact, CentralEntries, CentralHolds, CentralInUse, UpdatesState, InUse;
    NameNotEmpty(name);
    OverriddenModel(name, version, versionOverride, truth);
    OverriddenUpdates(name, version, versionOverride);
    var project, key := [Element(Overridden(name, version, versionOverride), [])], Key(name);
    var c := ProjectVersion(version, versionOverride);
    DeclaredEvidenceIsComplete(project, central, source, centralSource, exact, truth, centralTruth, key, c, resolved);
    if Hidden(c, CentralHolds(project, central, truth, centralTruth)) {
      var entries := InUse(CentralInUse(project, central), CentralEntries(central, centralSource), key);
      OverrideIsEffective(name, version, versionOverride, entries, source, exact);
    }
  }
}
