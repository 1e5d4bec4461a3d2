/** internal/analysis/identity_enrichment_dotnet.go: the candidate models cover every version that evaluating the
    document can give, whatever its conditions turn out to be. The proof goes from the inside out: the variants of
    one item element represent the metadata that any truth of the conditions selects, applying the variants covers
    the effect of the element, and reading a document keeps the coverage from element to element. The project and the
    central model take the same road; only the three lemmas about applying one item differ. */
module NuGetCoverage {
  import opened Strings
  import opened Results
  import opened MsBuild
  import opened MsBuildMeaning
  import opened NuGetVersions

  datatype Model = Projects(packages: ProjectModel) | Centrals(entries: CentralModel, source: string)

  function Apply(model: Model, item: Item): Model {
    match model
    case Projects(packages) => Projects(ApplyToProject(packages, item))
    case Centrals(entries, source) => Centrals(ApplyToCentral(entries, item, source), source)
  }

  function ApplyAll(model: Model, items: seq<Item>): Model {
    if items == [] then model else Apply(ApplyAll(model, items[..|items| - 1]), items[|items| - 1])
  }

  /** `c` is among the candidates of `key`; a central model keeps versions only. */
  predicate Covers(model: Model, key: string, c: ProjectVersion) {
    match model
    case Projects(packages) => key in packages && c in packages[key].candidates
    case Centrals(entries, _) => key in entries && exists x <- entries[key] :: x.version == TrimSpace(c.version)
  }

  ghost predicate CoversAll(model: Model, instances: Instances) {
    forall key, c :: key in instances && c in instances[key] ==> Covers(model, key, c)
  }

  lemma {:induction false} ApplyAllConcat(model: Model, a: seq<Item>, b: seq<Item>)
    ensures ApplyAll(model, a + b) == ApplyAll(ApplyAll(model, a), b)
    decreases |b|
  {
    if b == [] {
      assert a + b == a;
    } else {
      var n := |b| - 1;
      assert (a + b)[..|a + b| - 1] == a + b[..n] && (a + b)[|a + b| - 1] == b[n];
      ApplyAllConcat(model, a, b[..n]);
    }
  }

  // ----- one item -----

  /** A conditional item, or one that adds, leaves every covered version covered. */
  lemma ApplyKeeps(model: Model, item: Item, key: string, c: ProjectVersion)
    requires Covers(model, key, c)
    requires item.conditional || !item.update || Key(item.name) != key
    ensures Covers(Apply(model, item), key, c)
  {
    hide TrimSpace, Key;
  }

  lemma ProjectUpdates(packages: ProjectModel, item: Item, c: ProjectVersion)
    requires item.update && Key(item.name) != "" && Covers(Projects(packages), Key(item.name), c)
    ensures Covers(Projects(ApplyToProject(packages, item)), Key(item.name), Updated(c, item))
  {
    hide Key, UpdatedAll, AppendAll, TrimSpace;
    if item.version == "" && item.versionOverride == "" {
      assert Updated(c, item) == c;
    } else {
      assert Updated(c, item) in UpdatedAll(packages[Key(item.name)].candidates, item);
    }
  }

  lemma TrimEmpty()
    ensures TrimSpace("") == ""
  {
  }

  lemma CentralUpdates(entries: CentralModel, source: string, item: Item, c: ProjectVersion)
    requires item.update && Key(item.name) != "" && Covers(Centrals(entries, source), Key(item.name), c)
    requires item.version == "" || !Blank(item.version)
    ensures Covers(Centrals(ApplyToCentral(entries, item, source), source), Key(item.name), Updated(c, item))
  {
    hide Key, AppendAll, TrimSpace, Blank;
    var key := Key(item.name);
    TrimEmpty();
    assert CentralCandidates(entries, key) != [];
    var candidate := Candidate(TrimSpace(item.name), TrimSpace(item.version), source);
    Trimmed(item.version);
    if item.version != "" {
      var after := AfterUpdate(entries, key, candidate, item.conditional);
      assert candidate in after[key];
    }
  }

  lemma ApplyUpdates(model: Model, item: Item, c: ProjectVersion)
    requires item.update && Key(item.name) != "" && Covers(model, Key(item.name), c)
    requires item.version == "" || !Blank(item.version)
    ensures Covers(Apply(model, item), Key(item.name), Updated(c, item))
  {
    match model
    case Projects(packages) => ProjectUpdates(packages, item, c);
    case Centrals(entries, source) => CentralUpdates(entries, source, item, c);
  }

  lemma ApplyIncludes(model: Model, item: Item)
    requires !item.update && Key(item.name) != ""
    ensures Covers(Apply(model, item), Key(item.name), ProjectVersion(item.version, item.versionOverride))
  {
    hide Key, TrimSpace;
    match model
    case Projects(packages) =>
    case Centrals(entries, source) =>
      var candidate := Candidate(TrimSpace(item.name), TrimSpace(item.version), source);
      assert candidate in AfterInclude(entries, Key(item.name), candidate, item.conditional)[Key(item.name)];
  }

  lemma {:induction false} AllKeep(model: Model, items: seq<Item>, key: string, c: ProjectVersion)
    requires Covers(model, key, c)
    requires forall x <- items :: x.conditional || !x.update || Key(x.name) != key
    ensures Covers(ApplyAll(model, items), key, c)
  {
    hide Covers, Apply, Key;
    if items != [] {
      AllKeep(model, items[..|items| - 1], key, c);
      ApplyKeeps(ApplyAll(model, items[..|items| - 1]), items[|items| - 1], key, c);
    }
  }

  lemma KeyNotEmpty(name: string)
    requires IsPackageName(name)
    ensures Key(name) != ""
  {
    Trimmed(name);
  }

  // ----- the variants of one element -----

  predicate Matches(item: Item, setting: Setting) {
    item.version == OrEmpty(setting.version) && item.versionOverride == OrEmpty(setting.versionOverride)
  }

  /** When the head of an updating element states a field, so does every variant. */
  predicate AtLeast(item: Item, head: Item) {
    item.name == head.name && item.update == head.update && (item == head || item.conditional) &&
    (head.update && head.version != "" ==> item.version != "") &&
    (head.update && head.versionOverride != "" ==> item.versionOverride != "")
  }

  predicate Solid(item: Item) {
    item.version == "" || !Blank(item.version)
  }

  /** The head carries the unconditional metadata, every other variant is conditional, and one has the values that
      the conditions select. */
  ghost predicate Represents(items: seq<Item>, first: Item, setting: Setting) {
    items != [] && Distinct(items) &&
    items[0].name == first.name && items[0].update == first.update && items[0].conditional == first.conditional &&
    (forall x <- items :: AtLeast(x, items[0]) && Solid(x)) &&
    (exists x <- items :: Matches(x, setting))
  }

  lemma SetKeepsAtLeast(x: Item, head: Item, field: string, value: string)
    requires AtLeast(x, head) && Solid(x)
    requires (head.update ==> value != "") && (value == "" || !Blank(value))
    ensures AtLeast(SetField(x, field, value), SetField(head, field, value)) && Solid(SetField(x, field, value))
    ensures AtLeast(SetField(x, field, value).(conditional := true), head)
  {
    hide Blank;
  }

  lemma FieldKeepsIdentity(x: Item, field: string, value: string)
    ensures var y := SetField(x, field, value);
      y.name == x.name && y.update == x.update && y.conditional == x.conditional
  {
  }

  lemma MarkedIsSolid(x: Item)
    requires Solid(x)
    ensures Solid(x.(conditional := true))
  {
  }

  lemma SetMatches(x: Item, setting: Setting, field: string, value: string)
    requires Matches(x, setting)
    ensures Matches(SetField(x, field, value), State(setting, field, value))
  {
  }

  lemma UniqueRepresents(all: seq<Item>, first: Item, setting: Setting, chosen: Item)
    requires all != []
    requires all[0].name == first.name && all[0].update == first.update && all[0].conditional == first.conditional
    requires forall i :: 0 <= i < |all| ==> AtLeast(all[i], all[0]) && Solid(all[i])
    requires chosen in all && Matches(chosen, setting)
    ensures Represents(Unique(all), first, setting)
  {
    hide Unique, AtLeast, Solid, Matches;
    var r := Unique(all);
    forall x | x in r ensures AtLeast(x, r[0]) && Solid(x) {
      var i :| 0 <= i < |all| && all[i] == x;
    }
  }

  lemma UnconditionalMetadata(items: seq<Item>, first: Item, setting: Setting, field: string, value: string)
    requires Represents(items, first, setting)
    requires (first.update ==> value != "") && (value == "" || !Blank(value))
    ensures Represents(WithMetadata(items, field, value, false), first, State(setting, field, value))
  {
    hide Blank, Unique, AtLeast, Solid, Matches, SetField, State;
    var all := SetAll(items, field, value);
    assert [] + all == all;
    assert WithMetadata(items, field, value, false) == Unique(all);
    FieldKeepsIdentity(items[0], field, value);
    forall i | 0 <= i < |all| ensures AtLeast(all[i], all[0]) && Solid(all[i]) {
      assert items[i] in items;
      SetKeepsAtLeast(items[i], items[0], field, value);
    }
    var y :| y in items && Matches(y, setting);
    var j :| 0 <= j < |items| && items[j] == y;
    SetMatches(y, setting, field, value);
    UniqueRepresents(all, first, State(setting, field, value), all[j]);
  }

  lemma MarkedMatches(x: Item, setting: Setting)
    requires Matches(x, setting)
    ensures Matches(x.(conditional := true), setting)
  {
  }

  lemma ConditionalMetadata(items: seq<Item>, first: Item, setting: Setting, field: string, value: string, holds: bool)
    requires Represents(items, first, setting)
    requires (first.update ==> value != "") && (value == "" || !Blank(value))
    ensures Represents(WithMetadata(items, field, value, true), first,
      if holds then State(setting, field, value) else setting)
  {
    hide Blank, Unique, AtLeast, Solid, Matches, SetField, State;
    var marked := MarkAll(SetAll(items, field, value));
    var all := items + marked;
    forall i | 0 <= i < |all| ensures AtLeast(all[i], all[0]) && Solid(all[i]) {
      if i < |items| {
        assert items[i] in items;
      } else {
        var k := i - |items|;
        assert items[k] in items;
        SetKeepsAtLeast(items[k], items[0], field, value);
        MarkedIsSolid(SetField(items[k], field, value));
      }
    }
    var y :| y in items && Matches(y, setting);
    var j :| 0 <= j < |items| && items[j] == y;
    SetMatches(y, setting, field, value);
    MarkedMatches(SetField(y, field, value), State(setting, field, value));
    assert all[j] == y && all[|items| + j] == SetField(y, field, value).(conditional := true);
    if holds {
      UniqueRepresents(all, first, State(setting, field, value), all[|items| + j]);
    } else {
      UniqueRepresents(all, first, setting, y);
    }
  }

  lemma {:induction false} VariantsRepresent(children: seq<Node>, items: seq<Item>, first: Item, truth: Truth,
      setting: Setting)
    requires Represents(items, first, setting)
    requires first.update ==> forall i :: 0 <= i < |children| ==> MetadataHasValue(children[i])
    ensures Represents(Variants(children, items), first, Stated(children, truth, setting))
    decreases children
  {
    hide Represents, WithMetadata, TrimSpace, TextOf, Inside, HasCondition, Conditioned, IsMetadata, IsField, Holds,
      State, Lower;
    if children != [] {
      var node := children[0];
      if node.Element? {
        TagReads(node.tag, truth);
        SameText(node.children);
      }
      if node.Element? && IsMetadata(node.tag) {
        var field, value := Lower(node.tag.name), TrimSpace(TextOf(node.children));
        Trimmed(TextOf(node.children));
        assert MetadataHasValue(node) || !first.update;
        if HasCondition(node.tag) {
          ConditionalMetadata(items, first, setting, field, value, truth(node.tag.offset));
        } else {
          UnconditionalMetadata(items, first, setting, field, value);
        }
        VariantsRepresent(children[1..], WithMetadata(items, field, value, HasCondition(node.tag)), first, truth,
          if Holds(node.tag, truth) then State(setting, field, value) else setting);
      } else {
        VariantsRepresent(children[1..], items, first, truth, setting);
      }
    }
  }

  lemma {:induction false} SettingHasValues(children: seq<Node>, truth: Truth, setting: Setting)
    requires forall i :: 0 <= i < |children| ==> MetadataHasValue(children[i])
    requires setting.version != Some("") && setting.versionOverride != Some("")
    ensures var s := Stated(children, truth, setting); s.version != Some("") && s.versionOverride != Some("")
    decreases children
  {
    hide TrimSpace, Inside, Conditioned, Lower;
    if children != [] {
      assert MetadataHasValue(children[0]);
      SettingHasValues(children[1..], truth,
        if children[0].Element? && IsField(children[0].tag) && Holds(children[0].tag, truth)
        then State(setting, Lower(children[0].tag.name), TrimSpace(Inside(children[0].children))) else setting);
    }
  }

  lemma {:induction false} AttributeIsSolid(attributes: seq<Attribute>, name: string)
    ensures var v := OrEmpty(AttributeValue(attributes, name)); v == "" || !Blank(v)
  {
    hide TrimSpace, Blank;
    if attributes != [] {
      Trimmed(attributes[|attributes| - 1].value);
      AttributeIsSolid(attributes[..|attributes| - 1], name);
    }
  }

  lemma FirstRepresents(tag: Tag, conditional: bool)
    ensures Represents([FirstItem(tag, conditional)], FirstItem(tag, conditional), Attributes(tag))
  {
    hide AttributeValue, HasCondition, Attributes;
    TagReads(tag, _ => true);
    AttributeIsSolid(tag.attributes, "version");
    var item := FirstItem(tag, conditional);
    assert Matches(item, Attributes(tag));
    assert item in [item];
  }

  lemma {:induction false} ValidIsAllOrNone(items: seq<Item>, name: string)
    requires forall x <- items :: x.name == name
    ensures Valid(items) == if IsPackageName(name) then items else []
  {
    hide IsPackageName;
    if items != [] {
      var n := |items| - 1;
      assert items == items[..n] + [items[n]];
      ValidIsAllOrNone(items[..n], name);
    }
  }

  // ----- an element against its evaluation -----

  lemma {:induction false} LaterReaches(model: Model, items: seq<Item>, chosen: Item, c: ProjectVersion)
    requires chosen in items && chosen.update && Key(chosen.name) != ""
    requires forall x <- items :: x.conditional && Solid(x)
    requires Covers(model, Key(chosen.name), c)
    ensures Covers(ApplyAll(model, items), Key(chosen.name), Updated(c, chosen))
  {
    hide Covers, Apply, Key;
    var n := |items| - 1;
    var before := ApplyAll(model, items[..n]);
    assert items == items[..n] + [items[n]];
    if items[n] == chosen {
      AllKeep(model, items[..n], Key(chosen.name), c);
      ApplyUpdates(before, chosen, c);
    } else {
      assert chosen in items[..n];
      LaterReaches(model, items[..n], chosen, c);
      ApplyKeeps(before, items[n], Key(chosen.name), Updated(c, chosen));
    }
  }

  /** Applying the head and then the conditional variants covers the update by any one of them. */
  lemma UpdateReaches(model: Model, items: seq<Item>, first: Item, setting: Setting, chosen: Item, c: ProjectVersion)
    requires Represents(items, first, setting) && first.update && Key(first.name) != ""
    requires chosen in items && Covers(model, Key(first.name), c)
    ensures Covers(ApplyAll(model, items), Key(first.name), Updated(c, chosen))
  {
    hide Covers, Apply, Key;
    var key, head := Key(first.name), items[0];
    assert items == [head] + items[1..];
    var after := Apply(model, head);
    assert [head][..0] == [];
    assert ApplyAll(model, []) == model;
    assert ApplyAll(model, [head]) == after;
    ApplyAllConcat(model, [head], items[1..]);
    assert head in items;
    forall x | x in items[1..] ensures x.conditional && x in items && x.name == head.name && x.update {
      var i :| 0 <= i < |items[1..]| && items[1..][i] == x;
      assert items[i + 1] == x && items[i + 1] != items[0];
      assert AtLeast(x, head);
    }
    ApplyUpdates(model, head, c);
    if chosen == head {
      AllKeep(after, items[1..], key, Updated(c, head));
    } else {
      assert AtLeast(chosen, head);
      assert Updated(Updated(c, head), chosen) == Updated(c, chosen);
      LaterReaches(after, items[1..], chosen, Updated(c, head));
    }
  }

  lemma {:induction false} IncludeReaches(model: Model, items: seq<Item>, chosen: Item)
    requires chosen in items && Key(chosen.name) != ""
    requires forall x <- items :: !x.update
    ensures Covers(ApplyAll(model, items), Key(chosen.name), ProjectVersion(chosen.version, chosen.versionOverride))
  {
    hide Covers, Apply, Key;
    var n := |items| - 1;
    var before := ApplyAll(model, items[..n]);
    assert items == items[..n] + [items[n]];
    if items[n] == chosen {
      ApplyIncludes(before, chosen);
    } else {
      assert chosen in items[..n];
      IncludeReaches(model, items[..n], chosen);
      ApplyKeeps(before, items[n], Key(chosen.name), ProjectVersion(chosen.version, chosen.versionOverride));
    }
  }

  lemma MatchedUpdate(c: ProjectVersion, item: Item, setting: Setting)
    requires Matches(item, setting) && setting.version != Some("") && setting.versionOverride != Some("")
    ensures Updated(c, item) == Restate(c, setting)
  {
  }

  lemma MatchedInclude(item: Item, setting: Setting)
    requires Matches(item, setting)
    ensures ProjectVersion(item.version, item.versionOverride) == Restate(ProjectVersion("", ""), setting)
  {
  }

  lemma FirstItemIs(tag: Tag, conditional: bool)
    ensures var first := FirstItem(tag, conditional);
      first.name == BaseItem(tag).name && first.update == BaseItem(tag).update &&
        first.conditional == (conditional || HasCondition(tag))
  {
  }

  lemma ElementRepresented(tag: Tag, children: seq<Node>, conditional: bool, truth: Truth)
    requires BaseItem(tag).update ==> StatesValues(tag, children)
    ensures var setting := Stated(children, truth, Attributes(tag));
      Represents(Variants(children, [FirstItem(tag, conditional)]), FirstItem(tag, conditional), setting) &&
      (BaseItem(tag).update ==> setting.version != Some("") && setting.versionOverride != Some(""))
  {
    hide FirstItem, Variants, Stated, BaseItem, Represents, Attributes, MetadataHasValue;
    TagReads(tag, truth);
    FirstItemIs(tag, conditional);
    FirstRepresents(tag, conditional);
    if BaseItem(tag).update { SettingHasValues(children, truth, Attributes(tag)); }
    VariantsRepresent(children, [FirstItem(tag, conditional)], FirstItem(tag, conditional), truth, Attributes(tag));
  }

  lemma RepresentsUnfolds(items: seq<Item>, first: Item, setting: Setting)
    requires Represents(items, first, setting)
    ensures forall x <- items ::
      x.name == first.name && x.update == first.update && (first.conditional ==> x.conditional)
    ensures exists x <- items :: Matches(x, setting)
  {
  }

  /** `Evaluate` on a named item. */
  function Effect(name: string, update: bool, setting: Setting, instances: Instances): Instances {
    var key := Key(name);
    if update then instances[key := RestateAll(InstancesOf(instances, key), setting)]
    else instances[key := InstancesOf(instances, key) + [Restate(ProjectVersion("", ""), setting)]]
  }

  lemma NameNotEmpty(name: string)
    requires IsPackageName(name)
    ensures name != ""
  {
  }

  lemma EvaluateIsEffect(tag: Tag, children: seq<Node>, truth: Truth, instances: Instances)
    ensures var base, setting := BaseItem(tag), Stated(children, truth, Attributes(tag));
      IsPackageName(base.name) ==>
        Evaluate(tag, children, truth, instances) == Effect(base.name, base.update, setting, instances)
  {
    hide BaseItem, Key, IsPackageName, Stated, Attributes, AttributeValue, Evaluate;
    ElementReads(tag, children, truth, instances);
    if IsPackageName(BaseItem(tag).name) { NameNotEmpty(BaseItem(tag).name); }
  }

  lemma NothingApplied(model: Model, instances: Instances, enabled: bool, tag: Tag, children: seq<Node>, truth: Truth)
    requires CoversAll(model, instances) && !IsPackageName(BaseItem(tag).name)
    ensures CoversAll(ApplyAll(model, []), if enabled then Evaluate(tag, children, truth, instances) else instances)
  {
    hide BaseItem, Covers, Key, IsPackageName, AttributeValue, Evaluate;
    ElementReads(tag, children, truth, instances);
    assert ApplyAll(model, []) == model;
  }

  lemma EnabledCovered(model: Model, items: seq<Item>, first: Item, setting: Setting, instances: Instances)
    requires CoversAll(model, instances)
    requires Represents(items, first, setting) && Key(first.name) != ""
    requires first.update ==> setting.version != Some("") && setting.versionOverride != Some("")
    ensures CoversAll(ApplyAll(model, items), Effect(first.name, first.update, setting, instances))
  {
    hide Covers, ApplyAll, Represents, Key, Updated, Restate, Matches;
    RepresentsUnfolds(items, first, setting);
    var mine := Key(first.name);
    var chosen :| chosen in items && Matches(chosen, setting);
    forall key, c | key in Effect(first.name, first.update, setting, instances) &&
      c in Effect(first.name, first.update, setting, instances)[key]
      ensures Covers(ApplyAll(model, items), key, c)
    {
      if key != mine {
        AllKeep(model, items, key, c);
      } else if first.update {
        var i :| 0 <= i < |InstancesOf(instances, key)| && c == Restate(InstancesOf(instances, key)[i], setting);
        var was := InstancesOf(instances, key)[i];
        MatchedUpdate(was, chosen, setting);
        UpdateReaches(model, items, first, setting, chosen, was);
      } else if c in InstancesOf(instances, key) {
        AllKeep(model, items, key, c);
      } else {
        MatchedInclude(chosen, setting);
        IncludeReaches(model, items, chosen);
      }
    }
  }

  lemma DisabledCovered(model: Model, items: seq<Item>, instances: Instances)
    requires CoversAll(model, instances)
    requires forall x <- items :: x.conditional
    ensures CoversAll(ApplyAll(model, items), instances)
  {
    hide Covers, ApplyAll;
    forall key, c | key in instances && c in instances[key] ensures Covers(ApplyAll(model, items), key, c) {
      AllKeep(model, items, key, c);
    }
  }

  /** One element: a conditional one may have no effect, an unconditional one has. */
  lemma ElementCovered(model: Model, tag: Tag, children: seq<Node>, conditional: bool, truth: Truth,
      instances: Instances, enabled: bool)
    requires CoversAll(model, instances)
    requires enabled || conditional || HasCondition(tag)
    requires BaseItem(tag).update ==> StatesValues(tag, children)
    ensures var after := ApplyAll(model, Valid(Variants(children, [FirstItem(tag, conditional)])));
      CoversAll(after, if enabled then Evaluate(tag, children, truth, instances) else instances)
  {
    hide *;
    TagReads(tag, truth);
    var first, base := FirstItem(tag, conditional), BaseItem(tag);
    var setting := Stated(children, truth, Attributes(tag));
    var items := Variants(children, [first]);
    FirstItemIs(tag, conditional);
    ElementRepresented(tag, children, conditional, truth);
    RepresentsUnfolds(items, first, setting);
    ValidIsAllOrNone(items, base.name);
    EvaluateIsEffect(tag, children, truth, instances);
    if !IsPackageName(base.name) {
      NothingApplied(model, instances, enabled, tag, children, truth);
    } else {
      KeyNotEmpty(base.name);
      if enabled {
        EnabledCovered(model, items, first, setting, instances);
      } else {
        DisabledCovered(model, items, instances);
      }
    }
  }

  // ----- the whole document -----

  /** What the items read so far make of the empty model. */
  function ModelOf(empty: Model, document: Document): Model {
    ApplyAll(empty, document.items)
  }

  lemma ActivateKeepsItems(document: Document, value: string, conditional: bool)
    ensures Activate(document, value, conditional).items == document.items
  {
  }

  lemma {:induction false} NodeCovered(node: Node, element: string, conditional: bool, truth: Truth, empty: Model,
      document: Document, instances: Instances, enabled: bool)
    requires enabled || conditional
    requires UpdatesStateValues(node, element)
    requires CoversAll(ModelOf(empty, document), instances)
    ensures var after := ModelOf(empty, Collect(node, element, conditional, document));
      CoversAll(after, if enabled then EvaluateNode(node, element, truth, instances) else instances)
    decreases node
  {
    hide CoversAll, ApplyAll, Evaluate, Variants, Valid, FirstItem, HasCondition, BaseItem, StatesValues, TextOf,
      Inside, TrimSpace, Holds, Opens, IsSwitch, IsActivation, IsUpdate, IsConditionalScope, Lower;
    match node
    case Chars(_) =>
    case Element(tag, children) =>
      TagReads(tag, truth);
      if EqualFold(tag.name, element) {
        var items := Valid(Variants(children, [FirstItem(tag, conditional)]));
        ApplyAllConcat(empty, document.items, items);
        ElementCovered(ModelOf(empty, document), tag, children, conditional, truth, instances,
          enabled && Holds(tag, truth));
      } else if IsActivation(tag) {
        ActivateKeepsItems(document, TrimSpace(TextOf(children)), conditional || HasCondition(tag));
      } else {
        var inner, opens := conditional || IsConditionalScope(tag), enabled && Opens(tag, truth);
        NodesCovered(children, element, inner, truth, empty, document, instances, opens);
      }
  }

  lemma {:induction false} NodesCovered(nodes: seq<Node>, element: string, conditional: bool, truth: Truth,
      empty: Model, document: Document, instances: Instances, enabled: bool)
    requires enabled || conditional
    requires forall i :: 0 <= i < |nodes| ==> UpdatesStateValues(nodes[i], element)
    requires CoversAll(ModelOf(empty, document), instances)
    ensures var after := ModelOf(empty, CollectAll(nodes, element, conditional, document));
      CoversAll(after, if enabled then EvaluateAll(nodes, element, truth, instances) else instances)
    decreases nodes
  {
    hide CoversAll, ModelOf, Collect, EvaluateNode, UpdatesStateValues;
    if nodes != [] {
      NodeCovered(nodes[0], element, conditional, truth, empty, document, instances, enabled);
      var next := if enabled then EvaluateNode(nodes[0], element, truth, instances) else instances;
      NodesCovered(nodes[1..], element, conditional, truth, empty, Collect(nodes[0], element, conditional, document),
        next, enabled);
    }
  }
}
