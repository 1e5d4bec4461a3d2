/** internal/analysis/identity_enrichment_dotnet.go: candidate versions of NuGet packages, and what they cover of the
    versions that MSBuild gives the packages when it evaluates the document. */
module NuGetVersions {
  import opened Strings
  import opened Results
  import opened Seqs
  import opened MsBuild
  import opened MsBuildMeaning

  // ----- the candidate models -----

  datatype ProjectVersion = ProjectVersion(version: string, versionOverride: string)
  datatype Dependency = Dependency(name: string, candidates: seq<ProjectVersion>)
  datatype Candidate = Candidate(name: string, version: string, source: string)

  type ProjectModel = map<string, Dependency>
  type CentralModel = map<string, seq<Candidate>>

  /** `normalizeIdentityName`. */
  function Key(name: string): string {
    Lower(TrimSpace(name))
  }

  function AppendUnique<T(==,!new)>(candidates: seq<T>, addition: T): (r: seq<T>)
    ensures forall x :: x in r <==> x in candidates || x == addition
    ensures Distinct(candidates) ==> Distinct(r)
  {
    if addition in candidates then candidates else candidates + [addition]
  }

  function AppendAll<T(==,!new)>(candidates: seq<T>, additions: seq<T>): (r: seq<T>)
    ensures forall x :: x in r <==> x in candidates || x in additions
  {
    if additions == [] then candidates
    else
      assert additions == additions[..|additions| - 1] + [additions[|additions| - 1]];
      AppendUnique(AppendAll(candidates, additions[..|additions| - 1]), additions[|additions| - 1])
  }

  function Updated(candidate: ProjectVersion, item: Item): ProjectVersion {
    ProjectVersion(if item.version != "" then item.version else candidate.version,
      if item.versionOverride != "" then item.versionOverride else candidate.versionOverride)
  }

  function UpdatedAll(candidates: seq<ProjectVersion>, item: Item): (r: seq<ProjectVersion>)
    ensures forall c <- candidates :: Updated(c, item) in r
    ensures forall x <- r :: exists c <- candidates :: x == Updated(c, item)
  {
    if candidates == [] then []
    else
      var last := candidates[|candidates| - 1];
      assert candidates == candidates[..|candidates| - 1] + [last];
      AppendUnique(UpdatedAll(candidates[..|candidates| - 1], item), Updated(last, item))
  }

  function ApplyToProject(model: ProjectModel, item: Item): ProjectModel {
    var key := Key(item.name);
    if key == "" then model
    else if !item.update then
      var dependency := if key in model then model[key] else Dependency(TrimSpace(item.name), []);
      model[key := dependency.(candidates :=
        AppendUnique(dependency.candidates, ProjectVersion(item.version, item.versionOverride)))]
    else if key !in model || (item.version == "" && item.versionOverride == "") then model
    else
      var updated := UpdatedAll(model[key].candidates, item);
      model[key := model[key].(candidates :=
        if item.conditional then AppendAll(model[key].candidates, updated) else updated)]
  }

  function CentralCandidates(model: CentralModel, key: string): seq<Candidate> {
    if key in model then model[key] else []
  }

  /** A conditional entry may be absent, so the empty version joins it. */
  function AfterInclude(model: CentralModel, key: string, candidate: Candidate, conditional: bool): CentralModel {
    var known := CentralCandidates(model, key);
    model[key := AppendUnique(if conditional then AppendUnique(known, candidate.(version := "")) else known, candidate)]
  }

  function AfterUpdate(model: CentralModel, key: string, candidate: Candidate, conditional: bool): CentralModel {
    var known := CentralCandidates(model, key);
    if known == [] then model else model[key := if conditional then AppendAll([candidate], known) else [candidate]]
  }

  function ApplyToCentral(model: CentralModel, item: Item, source: string): CentralModel {
    var key := Key(item.name);
    var candidate := Candidate(TrimSpace(item.name), TrimSpace(item.version), source);
    if key == "" then model
    else if !item.update then AfterInclude(model, key, candidate, item.conditional)
    else if candidate.version == "" then model
    else AfterUpdate(model, key, candidate, item.conditional)
  }

  method AppendUniqueVersion<T(==,!new)>(candidates: seq<T>, addition: T) returns (r: seq<T>)
    ensures r == AppendUnique(candidates, addition)
  {
    for i := 0 to |candidates|
      invariant addition !in candidates[..i]
    {
      if candidates[i] == addition { return candidates; }
    }
    assert candidates[..|candidates|] == candidates;
    r := candidates + [addition];
  }

  method AppendAllUnique<T(==,!new)>(candidates: seq<T>, additions: seq<T>) returns (r: seq<T>)
    ensures r == AppendAll(candidates, additions)
  {
    r := candidates;
    for i := 0 to |additions|
      invariant r == AppendAll(candidates, additions[..i])
    {
      TakeLast(additions, i);
      r := AppendUniqueVersion(r, additions[i]);
    }
    TakeAll(additions);
  }

  method UpdateEach(originals: seq<ProjectVersion>, item: Item) returns (updated: seq<ProjectVersion>)
    ensures updated == UpdatedAll(originals, item)
  {
    updated := [];
    for i := 0 to |originals|
      invariant updated == UpdatedAll(originals[..i], item)
    {
      TakeLast(originals, i);
      updated := AppendUniqueVersion(updated, Updated(originals[i], item));
    }
    TakeAll(originals);
  }

  method RepeatUnique<T(==,!new)>(x: T, times: nat) returns (r: seq<T>)
    ensures r == if times == 0 then [] else [x]
  {
    r := [];
    for i := 0 to times
      invariant r == if i == 0 then [] else [x]
    {
      r := AppendUniqueVersion(r, x);
    }
  }

  class Project {
    var packages: ProjectModel

    constructor ()
      ensures packages == map[]
    {
      packages := map[];
    }

    /** `applyNuGetProjectItem`. */
    method Apply(item: Item)
      modifies this
      ensures packages == ApplyToProject(old(packages), item)
    {
      hide Key, AppendUnique, AppendAll, UpdatedAll;
      var key := Key(item.name);
      if key == "" { return; }
      if !item.update {
        var dependency := if key in packages then packages[key] else Dependency(TrimSpace(item.name), []);
        var candidates := AppendUniqueVersion(dependency.candidates,
          ProjectVersion(item.version, item.versionOverride));
        packages := packages[key := dependency.(candidates := candidates)];
        return;
      }
      if key !in packages || (item.version == "" && item.versionOverride == "") { return; }
      var originals := packages[key].candidates;
      var updated := UpdateEach(originals, item);
      if item.conditional { updated := AppendAllUnique(originals, updated); }
      packages := packages[key := packages[key].(candidates := updated)];
    }
  }

  class Central {
    var packages: CentralModel

    constructor ()
      ensures packages == map[]
    {
      packages := map[];
    }

    method Include(key: string, candidate: Candidate, conditional: bool)
      modifies this
      ensures packages == AfterInclude(old(packages), key, candidate, conditional)
    {
      hide AppendUnique;
      if conditional {
        var widened := AppendUniqueVersion(CentralCandidates(packages, key), candidate.(version := ""));
        packages := packages[key := widened];
      }
      var extended := AppendUniqueVersion(CentralCandidates(packages, key), candidate);
      packages := packages[key := extended];
    }

    method Update(key: string, candidate: Candidate, conditional: bool)
      modifies this
      ensures packages == AfterUpdate(old(packages), key, candidate, conditional)
    {
      hide AppendUnique, AppendAll;
      var originals := CentralCandidates(packages, key);
      if |originals| == 0 { return; }
      var updated := RepeatUnique(candidate, |originals|);
      if conditional { updated := AppendAllUnique(updated, originals); }
      packages := packages[key := updated];
    }

    /** `applyNuGetCentralItem`. */
    method Apply(item: Item, source: string)
      modifies this
      ensures packages == ApplyToCentral(old(packages), item, source)
    {
      hide Key, AfterInclude, AfterUpdate, TrimSpace;
      var key := Key(item.name);
      if key == "" { return; }
      var candidate := Candidate(TrimSpace(item.name), TrimSpace(item.version), source);
      if !item.update {
        Include(key, candidate, item.conditional);
        return;
      }
      if candidate.version == "" { return; }
      Update(key, candidate, item.conditional);
    }
  }

  // ----- what MSBuild does with the document -----

  /** Whether the condition at each place of the file held. */
  type Truth = nat -> bool

  predicate Holds(tag: Tag, truth: Truth) {
    Conditioned(tag) ==> truth(tag.offset)
  }

  predicate Opens(tag: Tag, truth: Truth) {
    Conditioned(tag) || IsChoice(tag) ==> truth(tag.offset)
  }

  /** The metadata an item states. */
  datatype Setting = Setting(version: Option<string>, versionOverride: Option<string>)

  function Attributes(tag: Tag): Setting {
    Setting(Given(tag.attributes, "version"), Given(tag.attributes, "versionoverride"))
  }

  function State(setting: Setting, field: string, value: string): Setting {
    if field == "versionoverride" then setting.(versionOverride := Some(value)) else setting.(version := Some(value))
  }

  /** Metadata elements whose condition holds set their field, in document order. */
  function Stated(children: seq<Node>, truth: Truth, setting: Setting): Setting {
    if children == [] then setting
    else if children[0].Element? && IsField(children[0].tag) && Holds(children[0].tag, truth) then
      Stated(children[1..], truth,
        State(setting, Lower(children[0].tag.name), TrimSpace(Inside(children[0].children))))
    else Stated(children[1..], truth, setting)
  }

  function Restate(c: ProjectVersion, setting: Setting): ProjectVersion {
    ProjectVersion(setting.version.GetOr(c.version), setting.versionOverride.GetOr(c.versionOverride))
  }

  function RestateAll(cs: seq<ProjectVersion>, setting: Setting): (r: seq<ProjectVersion>)
    ensures |r| == |cs| && forall i :: 0 <= i < |cs| ==> r[i] == Restate(cs[i], setting)
  {
    seq(|cs|, i requires 0 <= i < |cs| => Restate(cs[i], setting))
  }

  /** The package items so far, under their names, which are taken without regard to case. */
  type Instances = map<string, seq<ProjectVersion>>

  function InstancesOf(instances: Instances, key: string): seq<ProjectVersion> {
    if key in instances then instances[key] else []
  }

  /** One item element whose conditions hold. */
  function Evaluate(tag: Tag, children: seq<Node>, truth: Truth, instances: Instances): Instances {
    var name := PackageIn(tag);
    var key := Lower(TrimSpace(name));
    var setting := Stated(children, truth, Attributes(tag));
    if name == "" then instances - {Lower(TrimSpace(Given(tag.attributes, "remove").GetOr("")))}
    else if !IsLiteral(name) then instances
    else if IsUpdate(tag) then instances[key := RestateAll(InstancesOf(instances, key), setting)]
    else instances[key := InstancesOf(instances, key) + [Restate(ProjectVersion("", ""), setting)]]
  }

  function EvaluateNode(node: Node, element: string, truth: Truth, instances: Instances): Instances
    decreases node
  {
    match node
    case Chars(_) => instances
    case Element(tag, children) =>
      if Lower(tag.name) == Lower(element) then
        if Holds(tag, truth) then Evaluate(tag, children, truth, instances) else instances
      else if IsSwitch(tag) then instances
      else if Opens(tag, truth) then EvaluateAll(children, element, truth, instances)
      else instances
  }

  function EvaluateAll(nodes: seq<Node>, element: string, truth: Truth, instances: Instances): Instances
    decreases nodes
  {
    if nodes == [] then instances
    else EvaluateAll(nodes[1..], element, truth, EvaluateNode(nodes[0], element, truth, instances))
  }

  /** The value the document gives to central package management, if any. */
  function ActivationOf(node: Node, element: string, truth: Truth, value: Option<bool>): Option<bool>
    decreases node
  {
    match node
    case Chars(_) => value
    case Element(tag, children) =>
      if Lower(tag.name) == Lower(element) then value
      else if IsSwitch(tag) then
        if Holds(tag, truth) then Some(Lower(TrimSpace(TrimSpace(Inside(children)))) == "true") else value
      else if Opens(tag, truth) then ActivationOfAll(children, element, truth, value)
      else value
  }

  function ActivationOfAll(nodes: seq<Node>, element: string, truth: Truth, value: Option<bool>): Option<bool>
    decreases nodes
  {
    if nodes == [] then value
    else ActivationOfAll(nodes[1..], element, truth, ActivationOf(nodes[0], element, truth, value))
  }

  predicate MetadataHasValue(node: Node) {
    node.Element? && IsField(node.tag) ==> TrimSpace(Inside(node.children)) != ""
  }

  predicate StatesValues(tag: Tag, children: seq<Node>) {
    Attributes(tag).version != Some("") && Attributes(tag).versionOverride != Some("") &&
    forall i :: 0 <= i < |children| ==> MetadataHasValue(children[i])
  }

  /** An update never states a blank version: the candidate model reads a blank as "not stated". */
  predicate UpdatesStateValues(node: Node, element: string)
    decreases node
  {
    match node
    case Chars(_) => true
    case Element(tag, children) =>
      if Lower(tag.name) == Lower(element) then IsUpdate(tag) ==> StatesValues(tag, children)
      else IsSwitch(tag) || forall i :: 0 <= i < |children| ==> UpdatesStateValues(children[i], element)
  }

  /** The code's reading of a tag, in the words of the evaluation. */
  lemma TagReads(tag: Tag, truth: Truth)
    ensures Holds(tag, truth) == (HasCondition(tag) ==> truth(tag.offset))
    ensures Opens(tag, truth) == (IsConditionalScope(tag) ==> truth(tag.offset))
    ensures IsSwitch(tag) == IsActivation(tag) && IsField(tag) == IsMetadata(tag)
    ensures PackageIn(tag) == BaseItem(tag).name && IsUpdate(tag) == BaseItem(tag).update
    ensures Attributes(tag) ==
      Setting(AttributeValue(tag.attributes, "version"), AttributeValue(tag.attributes, "versionoverride"))
  {
    hide HasCondition, Conditioned, IsConditionalScope, IsChoice, IsSwitch, IsActivation, IsField, IsMetadata, BaseItem,
      PackageIn, IsUpdate, AttributeValue, Given;
    SameCondition(tag);
    SameScope(tag);
    SamePackage(tag);
    SameValue(tag.attributes, "version");
    SameValue(tag.attributes, "versionoverride");
  }

  lemma ElementReads(tag: Tag, children: seq<Node>, truth: Truth, instances: Instances)
    ensures var base := BaseItem(tag);
      var key, setting := Key(base.name), Stated(children, truth, Attributes(tag));
      Evaluate(tag, children, truth, instances) ==
        if base.name == "" then instances - {Key(OrEmpty(AttributeValue(tag.attributes, "remove")))}
        else if !IsPackageName(base.name) then instances
        else if base.update then instances[key := RestateAll(InstancesOf(instances, key), setting)]
        else instances[key := InstancesOf(instances, key) + [Restate(ProjectVersion("", ""), setting)]]
  {
    hide BaseItem, PackageIn, IsUpdate, AttributeValue, Given, IsLiteral, IsPackageName, Stated, Attributes, Lower,
      TrimSpace;
    SamePackage(tag);
    SameName(BaseItem(tag).name);
  }
}
