/** internal/analysis/identity_enrichment_dotnet.go: the candidate models hold nothing that could not be. Conditions are
    not evaluated, so whether a conditional element takes effect is a free choice for each; every candidate is what some
    choice leads to in document order. */
module NuGetSoundness {
  import opened Strings
  import opened Results
  import opened MsBuild
  import opened MsBuildMeaning
  import opened NuGetVersions
  import opened NuGetCoverage
  import opened NuGetEvidence

  /** An element of packages, and whether it is conditional, by itself or by what it stands in. */
  datatype Place = Place(tag: Tag, children: seq<Node>, conditional: bool)

  /** The elements of packages in document order. */
  function Places(nodes: seq<Node>, element: string, under: bool): seq<Place>
    decreases nodes
  {
    if nodes == [] then [] else PlacesIn(nodes[0], element, under) + Places(nodes[1..], element, under)
  }

  function PlacesIn(node: Node, element: string, under: bool): seq<Place>
    decreases node
  {
    match node
    case Chars(_) => []
    case Element(tag, children) =>
      if Lower(tag.name) == Lower(element) then [Place(tag, children, under || Conditioned(tag))]
      else if IsSwitch(tag) then []
      else Places(children, element, under || Conditioned(tag) || IsChoice(tag))
  }

  /** Whether each conditional element takes effect, by its place in the file. */
  type Choice = Truth

  predicate Takes(place: Place, choice: Choice) {
    place.conditional ==> choice(place.tag.offset)
  }

  /** The instances after these elements. */
  function Chosen(places: seq<Place>, choice: Choice): Instances {
    if places == [] then map[]
    else
      var last := places[|places| - 1];
      var before := Chosen(places[..|places| - 1], choice);
      if Takes(last, choice) then Evaluate(last.tag, last.children, choice, before) else before
  }

  // ----- the items of a document are those of its places -----

  function ItemsAt(place: Place): seq<Item> {
    Valid(Variants(place.children, [BaseItem(place.tag).(conditional := place.conditional)]))
  }

  function ItemsOf(places: seq<Place>): seq<Item> {
    if places == [] then [] else ItemsOf(places[..|places| - 1]) + ItemsAt(places[|places| - 1])
  }

  lemma {:induction false} ItemsConcat(a: seq<Place>, b: seq<Place>)
    ensures ItemsOf(a + b) == ItemsOf(a) + ItemsOf(b)
    decreases |b|
  {
    hide ItemsAt;
    if b == [] {
      assert a + b == a;
      assert ItemsOf(a) + [] == ItemsOf(a);
    } else {
      var n := |b| - 1;
      assert (a + b)[..|a + b| - 1] == a + b[..n] && (a + b)[|a + b| - 1] == b[n];
      ItemsConcat(a, b[..n]);
    }
  }

  lemma FirstItemAt(tag: Tag, under: bool)
    ensures FirstItem(tag, under) == BaseItem(tag).(conditional := under || Conditioned(tag))
  {
    hide HasCondition, Conditioned, AttributeValue;
    SameCondition(tag);
  }

  lemma {:induction false} NodesItems(nodes: seq<Node>, element: string, under: bool, document: Document)
    ensures CollectAll(nodes, element, under, document).items == document.items + ItemsOf(Places(nodes, element, under))
    decreases nodes
  {
    hide Collect, PlacesIn, ItemsAt;
    if nodes == [] {
      assert document.items + [] == document.items;
    } else {
      NodeItems(nodes[0], element, under, document);
      NodesItems(nodes[1..], element, under, Collect(nodes[0], element, under, document));
      ItemsConcat(PlacesIn(nodes[0], element, under), Places(nodes[1..], element, under));
    }
  }

  lemma {:induction false} NodeItems(node: Node, element: string, under: bool, document: Document)
    ensures Collect(node, element, under, document).items == document.items + ItemsOf(PlacesIn(node, element, under))
    decreases node
  {
    hide HasCondition, Conditioned, IsConditionalScope, IsChoice, IsActivation, IsSwitch, Variants, Valid, BaseItem,
      FirstItem, Lower, TextOf, TrimSpace;
    match node
    case Chars(_) => assert document.items + [] == document.items;
    case Element(tag, children) =>
      SameCondition(tag);
      SameScope(tag);
      FirstItemAt(tag, under);
      if EqualFold(tag.name, element) {
        var place := Place(tag, children, under || Conditioned(tag));
        assert [place][..0] == [];
        assert ItemsOf([place]) == [] + ItemsAt(place);
      } else if IsActivation(tag) {
        assert document.items + [] == document.items;
      } else {
        NodesItems(children, element, under || IsConditionalScope(tag), document);
      }
  }

  // ----- choices at places -----

  /** The places in the file that the element's effect depends on: its own and those of its metadata. */
  function ChildOffsets(children: seq<Node>): seq<nat> {
    if children == [] then []
    else (if children[0].Element? then [children[0].tag.offset] else []) + ChildOffsets(children[1..])
  }

  function OffsetsAt(place: Place): seq<nat> {
    [place.tag.offset] + ChildOffsets(place.children)
  }

  function Offsets(places: seq<Place>): seq<nat> {
    if places == [] then [] else Offsets(places[..|places| - 1]) + OffsetsAt(places[|places| - 1])
  }

  predicate Same(f: Choice, g: Choice, offsets: seq<nat>) {
    forall k <- offsets :: f(k) == g(k)
  }

  lemma {:induction false} SameStated(children: seq<Node>, f: Choice, g: Choice, setting: Setting)
    requires Same(f, g, ChildOffsets(children))
    ensures Stated(children, f, setting) == Stated(children, g, setting)
  {
    hide State, Inside, TrimSpace, Conditioned;
    if children != [] {
      var node := children[0];
      var offsets := ChildOffsets(children);
      assert forall k <- ChildOffsets(children[1..]) :: k in offsets;
      if node.Element? { assert node.tag.offset in offsets; }
      var next := if node.Element? && IsField(node.tag) && Holds(node.tag, f)
        then State(setting, Lower(node.tag.name), TrimSpace(Inside(node.children))) else setting;
      SameStated(children[1..], f, g, next);
    }
  }

  lemma {:induction false} SameChosen(places: seq<Place>, f: Choice, g: Choice)
    requires Same(f, g, Offsets(places))
    ensures Chosen(places, f) == Chosen(places, g)
  {
    hide Stated, IsLiteral, Given, TrimSpace, Lower;
    if places != [] {
      var n := |places| - 1;
      var last, offsets := places[n], Offsets(places);
      assert forall k <- Offsets(places[..n]) :: k in offsets;
      assert forall k <- OffsetsAt(last) :: k in offsets;
      SameChosen(places[..n], f, g);
      assert last.tag.offset in OffsetsAt(last);
      assert forall k <- ChildOffsets(last.children) :: k in OffsetsAt(last);
      SameStated(last.children, f, g, Attributes(last.tag));
    }
  }

  /** `f`, but at this element it is taken or not as said, and its metadata as `h` has them. */
  function At(f: Choice, h: Choice, place: Place, taken: bool): Choice {
    (k: nat) => if k == place.tag.offset then taken else if k in ChildOffsets(place.children) then h(k) else f(k)
  }

  // ----- the variants of one element -----

  /** `h` makes of an item that stands for a setting the item `v`. */
  ghost predicate Makes(children: seq<Node>, x: Item, v: Item, h: Choice) {
    forall setting :: Matches(x, setting) ==> Matches(v, Stated(children, h, setting))
  }

  lemma WithMetadataMembers(items: seq<Item>, field: string, value: string, conditional: bool, v: Item)
    requires v in WithMetadata(items, field, value, conditional)
    ensures (conditional && v in items) ||
      exists x <- items :: v.version == SetField(x, field, value).version &&
        v.versionOverride == SetField(x, field, value).versionOverride
  {
    var changed := SetAll(items, field, value);
    var all := (if conditional then items else []) + (if conditional then MarkAll(changed) else changed);
    assert v in all;
    var i :| 0 <= i < |all| && all[i] == v;
    if !conditional {
      assert all == changed && items[i] in items;
    } else if i >= |items| {
      assert items[i - |items|] in items;
    }
  }

  lemma SameFieldsMatch(a: Item, b: Item, setting: Setting)
    requires a.version == b.version && a.versionOverride == b.versionOverride
    ensures Matches(a, setting) == Matches(b, setting)
  {
  }

  lemma TailDistinct(children: seq<Node>)
    requires children != [] && Distinct(ChildOffsets(children))
    ensures Distinct(ChildOffsets(children[1..]))
  {
    var all, rest := ChildOffsets(children), ChildOffsets(children[1..]);
    var skip := if children[0].Element? then 1 else 0;
    assert forall i :: 0 <= i < |rest| ==> rest[i] == all[i + skip];
  }

  lemma FirstIsNew(children: seq<Node>)
    requires children != [] && children[0].Element? && Distinct(ChildOffsets(children))
    ensures children[0].tag.offset !in ChildOffsets(children[1..])
  {
    var all, rest := ChildOffsets(children), ChildOffsets(children[1..]);
    forall i | 0 <= i < |rest| ensures rest[i] != children[0].tag.offset {
      assert rest[i] == all[i + 1] && all[0] == children[0].tag.offset;
    }
  }

  /** Every variant is made by some choice of the metadata. */
  lemma {:induction false} VariantMade(children: seq<Node>, items: seq<Item>, v: Item) returns (x: Item, h: Choice)
    requires Distinct(ChildOffsets(children)) && v in Variants(children, items)
    ensures x in items && Makes(children, x, v, h)
    decreases children
  {
    hide WithMetadata, Matches, State, SetField, TrimSpace, TextOf, Inside, HasCondition, Conditioned, IsMetadata,
      IsField, Lower;
    if children == [] {
      x, h := v, _ => true;
    } else {
      var node, rest := children[0], children[1..];
      assert Distinct(ChildOffsets(rest)) by { TailDistinct(children); }
      if node.Element? && IsMetadata(node.tag) {
        var field, value := Lower(node.tag.name), TrimSpace(TextOf(node.children));
        SameScope(node.tag);
        SameCondition(node.tag);
        SameText(node.children);
        var conditional := HasCondition(node.tag);
        var y, g := VariantMade(rest, WithMetadata(items, field, value, conditional), v);
        WithMetadataMembers(items, field, value, conditional, y);
        var offset := node.tag.offset;
        assert offset !in ChildOffsets(rest) by { FirstIsNew(children); }
        if conditional && y in items {
          x, h := y, ((k: nat) => if k == offset then false else g(k));
          forall setting | Matches(x, setting) ensures Matches(v, Stated(children, h, setting)) {
            SameStated(rest, g, h, setting);
          }
        } else {
          x :| x in items && y.version == SetField(x, field, value).version &&
            y.versionOverride == SetField(x, field, value).versionOverride;
          h := (k: nat) => if k == offset then true else g(k);
          forall setting | Matches(x, setting) ensures Matches(v, Stated(children, h, setting)) {
            SetMatches(x, setting, field, value);
            SameFieldsMatch(y, SetField(x, field, value), State(setting, field, value));
            SameStated(rest, g, h, State(setting, field, value));
          }
        }
      } else {
        if node.Element? { SameScope(node.tag); }
        x, h := VariantMade(rest, items, v);
      }
    }
  }

  // ----- what applying the variants of an element leaves -----

  /** The version and the override that an item states. */
  predicate States(items: seq<Item>, version: string, versionOverride: string) {
    exists x <- items :: x.version == version && x.versionOverride == versionOverride
  }

  /** For any two variants there is one with the version of the first and the override of the second. */
  ghost predicate Mixes(items: seq<Item>) {
    forall a, b :: a in items && b in items ==> States(items, a.version, b.versionOverride)
  }

  lemma MetadataStates(items: seq<Item>, field: string, value: string, conditional: bool, v: string, o: string)
    ensures States(WithMetadata(items, field, value, conditional), v, o) <==>
      (conditional && States(items, v, o)) ||
      if field == "versionoverride" then o == value && exists x <- items :: x.version == v
      else v == value && exists x <- items :: x.versionOverride == o
  {
    var r, changed := WithMetadata(items, field, value, conditional), SetAll(items, field, value);
    var all := (if conditional then items else []) + (if conditional then MarkAll(changed) else changed);
    var skip := if conditional then |items| else 0;
    assert forall x :: x in r <==> x in all;
    forall x | x in items
      ensures States(all, SetField(x, field, value).version, SetField(x, field, value).versionOverride)
      ensures conditional ==> x in all
    {
      var i :| 0 <= i < |items| && items[i] == x;
      assert conditional ==> all[i] == x;
      assert all[skip + i] in all;
    }
    forall y | y in r
      ensures (conditional && y in items) ||
        exists x <- items :: y.version == SetField(x, field, value).version &&
          y.versionOverride == SetField(x, field, value).versionOverride
    {
      WithMetadataMembers(items, field, value, conditional, y);
    }
  }

  lemma MetadataMixes(items: seq<Item>, field: string, value: string, conditional: bool)
    requires Mixes(items)
    ensures Mixes(WithMetadata(items, field, value, conditional))
  {
    hide WithMetadata;
    var r := WithMetadata(items, field, value, conditional);
    forall a, b | a in r && b in r ensures States(r, a.version, b.versionOverride) {
      MetadataStates(items, field, value, conditional, a.version, a.versionOverride);
      MetadataStates(items, field, value, conditional, b.version, b.versionOverride);
      MetadataStates(items, field, value, conditional, a.version, b.versionOverride);
      assert States(r, a.version, a.versionOverride) && States(r, b.version, b.versionOverride);
      assert States(items, a.version, a.versionOverride) ==> exists x <- items :: x.version == a.version;
      assert States(items, b.version, b.versionOverride) ==>
        exists x <- items :: x.versionOverride == b.versionOverride;
    }
  }

  lemma {:induction false} VariantsMix(children: seq<Node>, items: seq<Item>)
    requires Mixes(items)
    ensures Mixes(Variants(children, items))
    decreases children
  {
    hide WithMetadata, HasCondition, TextOf, TrimSpace, Lower;
    if children != [] {
      var node := children[0];
      if node.Element? && IsMetadata(node.tag) {
        var field, value, conditional :=
          Lower(node.tag.name), TrimSpace(TextOf(node.children)), HasCondition(node.tag);
        var next := WithMetadata(items, field, value, conditional);
        MetadataMixes(items, field, value, conditional);
        VariantsMix(children[1..], next);
      } else {
        VariantsMix(children[1..], items);
      }
    }
  }

  /** A place whose element has a name and, if it updates, states no blank. */
  ghost predicate IsPlace(place: Place) {
    (Conditioned(place.tag) ==> place.conditional) && PackageIn(place.tag) != "" &&
    (IsUpdate(place.tag) ==> StatesValues(place.tag, place.children)) && Distinct(OffsetsAt(place))
  }

  /** What is known of the items of a place. */
  ghost predicate AreVariants(items: seq<Item>, place: Place) {
    (forall x <- items :: Key(x.name) == Key(PackageIn(place.tag)) && x.update == IsUpdate(place.tag)) &&
    (items != [] ==> items[0].conditional == place.conditional) &&
    (forall i :: 1 <= i < |items| ==> items[i].conditional) && Mixes(items) &&
    (items != [] ==> IsLiteral(PackageIn(place.tag)) && Key(PackageIn(place.tag)) != "")
  }

  lemma BaseCondition(tag: Tag)
    ensures BaseItem(tag).conditional == HasCondition(tag)
  {
  }

  lemma FirstAt(place: Place)
    requires IsPlace(place)
    ensures BaseItem(place.tag).(conditional := place.conditional) == FirstItem(place.tag, place.conditional)
  {
    hide BaseItem, HasCondition, Conditioned;
    SameCondition(place.tag);
    BaseCondition(place.tag);
  }

  lemma OneMixes(x: Item)
    ensures Mixes([x])
  {
    assert x in [x];
  }

  lemma NothingMixes()
    ensures Mixes([])
  {
  }

  lemma RepresentsOrder(items: seq<Item>, first: Item, setting: Setting)
    requires Represents(items, first, setting)
    ensures items[0].conditional == first.conditional && forall i :: 1 <= i < |items| ==> items[i].conditional
  {
    forall i | 1 <= i < |items| ensures items[i].conditional {
      assert items[i] in items && items[i] != items[0];
      assert AtLeast(items[i], items[0]);
    }
  }

  /** The variants read at a place, before names that are none are dropped. */
  lemma VariantsAt(place: Place)
    requires IsPlace(place)
    ensures var first := FirstItem(place.tag, place.conditional);
      var items := Variants(place.children, [first]);
      ItemsAt(place) == Valid(items) && items != [] && items[0].conditional == place.conditional &&
      (forall i :: 1 <= i < |items| ==> items[i].conditional) &&
      forall x <- items :: x.name == first.name && x.update == first.update
  {
    hide BaseItem, Variants, PackageIn, IsUpdate, StatesValues, FirstItem, Conditioned, Distinct, Valid, Represents;
    var first := FirstItem(place.tag, place.conditional);
    var items := Variants(place.children, [first]);
    var setting := Stated(place.children, _ => true, Attributes(place.tag));
    FirstAt(place);
    TagReads(place.tag, _ => true);
    FirstItemIs(place.tag, place.conditional);
    ElementRepresented(place.tag, place.children, place.conditional, _ => true);
    RepresentsUnfolds(items, first, setting);
    RepresentsOrder(items, first, setting);
  }

  lemma ItemsKnown(place: Place)
    requires IsPlace(place)
    ensures AreVariants(ItemsAt(place), place)
    ensures ItemsAt(place) != [] ==>
      ItemsAt(place) == Variants(place.children, [FirstItem(place.tag, place.conditional)])
  {
    hide BaseItem, Variants, PackageIn, IsUpdate, IsPlace, IsPackageName, IsLiteral, Mixes, Key, FirstItem, ItemsAt;
    var first := FirstItem(place.tag, place.conditional);
    var items := Variants(place.children, [first]);
    VariantsAt(place);
    TagReads(place.tag, _ => true);
    FirstItemIs(place.tag, place.conditional);
    SameName(first.name);
    ValidIsAllOrNone(items, first.name);
    if IsPackageName(first.name) {
      KeyNotEmpty(first.name);
      OneMixes(first);
      VariantsMix(place.children, [first]);
    } else {
      NothingMixes();
    }
  }

  function CandidatesFor(packages: ProjectModel, key: string): seq<ProjectVersion> {
    if key in packages then packages[key].candidates else []
  }

  function Applied(packages: ProjectModel, items: seq<Item>): ProjectModel {
    if items == [] then packages else ApplyToProject(Applied(packages, items[..|items| - 1]), items[|items| - 1])
  }

  lemma {:induction false} AppliedIs(packages: ProjectModel, items: seq<Item>)
    ensures ApplyAll(Projects(packages), items) == Projects(Applied(packages, items))
  {
    hide ApplyToProject;
    if items != [] { AppliedIs(packages, items[..|items| - 1]); }
  }

  /** Where a candidate comes from after some variants of an update. */
  ghost predicate FromUpdate(c: ProjectVersion, before: seq<ProjectVersion>, items: seq<Item>, untouched: bool) {
    (untouched && c in before) || exists x, v :: x in before && v in items && c == Updated(x, v)
  }

  lemma UpdatedTwice(x: ProjectVersion, items: seq<Item>, v: Item, y: Item)
    requires Mixes(items) && v in items && y in items
    ensures exists w :: w in items && Updated(Updated(x, v), y) == Updated(x, w)
  {
    var a := if y.version != "" then y else v;
    var b := if y.versionOverride != "" then y else v;
    assert States(items, a.version, b.versionOverride);
    var w :| w in items && w.version == a.version && w.versionOverride == b.versionOverride;
  }

  lemma UpdateOnce(packages: ProjectModel, y: Item, key: string, c: ProjectVersion)
    requires y.update && Key(y.name) != "" && c in CandidatesFor(ApplyToProject(packages, y), key)
    ensures var before := CandidatesFor(packages, key);
      if Key(y.name) != key then c in before
      else
        (c in before && (y.conditional || (y.version == "" && y.versionOverride == ""))) ||
        exists x <- before :: c == Updated(x, y)
  {
    hide Key, UpdatedAll, AppendAll, TrimSpace;
  }

  lemma BlankUpdates(c: ProjectVersion, y: Item)
    requires y.version == "" && y.versionOverride == ""
    ensures Updated(c, y) == c
  {
  }

  lemma {:induction false} UpdatesOrigin(packages: ProjectModel, items: seq<Item>, place: Place, k: nat,
      c: ProjectVersion)
    requires AreVariants(items, place) && IsUpdate(place.tag) && k <= |items|
    requires c in CandidatesFor(Applied(packages, items[..k]), Key(PackageIn(place.tag)))
    ensures FromUpdate(c, CandidatesFor(packages, Key(PackageIn(place.tag))), items, k == 0 || place.conditional)
  {
    hide Key, ApplyToProject, Updated, Mixes;
    var key := Key(PackageIn(place.tag));
    var before := CandidatesFor(packages, key);
    if k > 0 {
      var y := items[k - 1];
      var middle := Applied(packages, items[..k - 1]);
      assert items[..k][..k - 1] == items[..k - 1];
      assert y in items;
      UpdateOnce(middle, y, key, c);
      if y.version == "" && y.versionOverride == "" { BlankUpdates(c, y); }
      if x :| x in CandidatesFor(middle, key) && c == Updated(x, y) {
        UpdatesOrigin(packages, items, place, k - 1, x);
        if x !in before || !(k == 1 || place.conditional) {
          var z, v :| z in before && v in items && x == Updated(z, v);
          UpdatedTwice(z, items, v, y);
        }
      } else {
        UpdatesOrigin(packages, items, place, k - 1, c);
      }
    }
  }

  lemma IncludeOnce(packages: ProjectModel, y: Item, key: string, c: ProjectVersion)
    requires !y.update && c in CandidatesFor(ApplyToProject(packages, y), key)
    ensures c in CandidatesFor(packages, key) ||
      (Key(y.name) == key && c == ProjectVersion(y.version, y.versionOverride))
  {
    hide Key, TrimSpace;
  }

  lemma {:induction false} IncludesOrigin(packages: ProjectModel, items: seq<Item>, place: Place, k: nat, key: string,
      c: ProjectVersion)
    requires AreVariants(items, place) && !IsUpdate(place.tag) && k <= |items|
    requires c in CandidatesFor(Applied(packages, items[..k]), key)
    ensures c in CandidatesFor(packages, key) ||
      (key == Key(PackageIn(place.tag)) &&
       exists v :: v in items && c == ProjectVersion(v.version, v.versionOverride))
  {
    hide Key, ApplyToProject, Mixes;
    if k > 0 {
      var y := items[k - 1];
      assert items[..k][..k - 1] == items[..k - 1];
      assert y in items;
      IncludeOnce(Applied(packages, items[..k - 1]), y, key, c);
      if c in CandidatesFor(Applied(packages, items[..k - 1]), key) {
        IncludesOrigin(packages, items, place, k - 1, key, c);
      }
    }
  }

  lemma {:induction false} OtherKeysStay(packages: ProjectModel, items: seq<Item>, place: Place, k: nat, key: string,
      c: ProjectVersion)
    requires AreVariants(items, place) && IsUpdate(place.tag) && k <= |items| && key != Key(PackageIn(place.tag))
    requires c in CandidatesFor(Applied(packages, items[..k]), key)
    ensures c in CandidatesFor(packages, key)
  {
    hide Key, ApplyToProject, Mixes;
    if k > 0 {
      var y := items[k - 1];
      assert items[..k][..k - 1] == items[..k - 1];
      assert y in items;
      UpdateOnce(Applied(packages, items[..k - 1]), y, key, c);
      OtherKeysStay(packages, items, place, k - 1, key, c);
    }
  }

  // ----- one more place -----

  /** The candidate is an instance under this choice. */
  predicate Leads(places: seq<Place>, f: Choice, key: string, c: ProjectVersion) {
    c in InstancesOf(Chosen(places, f), key)
  }

  predicate AreNew(place: Place, offsets: seq<nat>) {
    forall k <- OffsetsAt(place) :: k !in offsets
  }

  lemma AtAgrees(places: seq<Place>, place: Place, f: Choice, h: Choice, taken: bool)
    requires AreNew(place, Offsets(places)) && Distinct(OffsetsAt(place))
    ensures var g := At(f, h, place, taken);
      Chosen(places, g) == Chosen(places, f) && g(place.tag.offset) == taken &&
      forall setting :: Stated(place.children, g, setting) == Stated(place.children, h, setting)
  {
    hide Chosen, Offsets, Stated;
    var g := At(f, h, place, taken);
    var offsets := OffsetsAt(place);
    assert place.tag.offset == offsets[0] && offsets[0] in offsets;
    assert forall k <- ChildOffsets(place.children) :: k in offsets;
    assert Same(g, f, Offsets(places));
    SameChosen(places, g, f);
    var inner := ChildOffsets(place.children);
    forall i | 0 <= i < |inner| ensures inner[i] != place.tag.offset { assert offsets[i + 1] == inner[i]; }
    assert Same(g, h, ChildOffsets(place.children));
    forall setting ensures Stated(place.children, g, setting) == Stated(place.children, h, setting) {
      SameStated(place.children, g, h, setting);
    }
  }

  lemma ChosenStep(places: seq<Place>, place: Place, g: Choice)
    ensures Chosen(places + [place], g) ==
      if Takes(place, g) then Evaluate(place.tag, place.children, g, Chosen(places, g)) else Chosen(places, g)
  {
    assert (places + [place])[..|places|] == places;
  }

  /** What an element with a name does to the instances. */
  lemma PlaceEvaluates(place: Place, g: Choice, before: Instances)
    requires PackageIn(place.tag) != ""
    ensures var key, setting := Key(PackageIn(place.tag)), Stated(place.children, g, Attributes(place.tag));
      Evaluate(place.tag, place.children, g, before) ==
        if !IsLiteral(PackageIn(place.tag)) then before
        else if IsUpdate(place.tag) then before[key := RestateAll(InstancesOf(before, key), setting)]
        else before[key := InstancesOf(before, key) + [Restate(ProjectVersion("", ""), setting)]]
  {
    hide Lower, TrimSpace, PackageIn, IsUpdate, IsLiteral, Stated, Attributes;
  }

  /** An element that need not take effect, or concerns other packages, or adds one, leaves the instances of a package.
      */
  lemma StillLeads(places: seq<Place>, place: Place, f: Choice, key: string, c: ProjectVersion) returns (g: Choice)
    requires IsPlace(place) && AreNew(place, Offsets(places)) && Leads(places, f, key, c)
    requires place.conditional || !IsUpdate(place.tag) || key != Key(PackageIn(place.tag)) ||
      !IsLiteral(PackageIn(place.tag))
    ensures Leads(places + [place], g, key, c)
  {
    hide Key, PackageIn, IsUpdate, IsLiteral, Stated, Attributes, StatesValues, Conditioned, Chosen, Offsets, Evaluate;
    g := At(f, f, place, false);
    AtAgrees(places, place, f, f, false);
    ChosenStep(places, place, g);
    PlaceEvaluates(place, g, Chosen(places, g));
  }

  lemma ChildrenDistinct(place: Place)
    requires Distinct(OffsetsAt(place))
    ensures Distinct(ChildOffsets(place.children))
  {
    var all, rest := OffsetsAt(place), ChildOffsets(place.children);
    assert forall i :: 0 <= i < |rest| ==> rest[i] == all[i + 1];
  }

  lemma FirstMatches(tag: Tag, conditional: bool)
    ensures Matches(FirstItem(tag, conditional), Attributes(tag))
  {
    hide AttributeValue, HasCondition, Given;
    TagReads(tag, _ => true);
  }

  /** A variant and the setting that some choice of the metadata makes of it. */
  lemma VariantChosen(place: Place, v: Item) returns (h: Choice)
    requires IsPlace(place) && v in ItemsAt(place)
    ensures Matches(v, Stated(place.children, h, Attributes(place.tag)))
  {
    hide BaseItem, Variants, PackageIn, IsUpdate, StatesValues, Conditioned, Stated, Matches, AreVariants, FirstItem;
    ItemsKnown(place);
    var first := FirstItem(place.tag, place.conditional);
    assert Distinct(ChildOffsets(place.children)) by { ChildrenDistinct(place); }
    var x;
    x, h := VariantMade(place.children, [first], v);
    assert x == first;
    FirstMatches(place.tag, place.conditional);
  }

  lemma ElementStates(place: Place, g: Choice)
    requires IsPlace(place) && IsUpdate(place.tag)
    ensures var setting := Stated(place.children, g, Attributes(place.tag));
      setting.version != Some("") && setting.versionOverride != Some("")
  {
    hide Conditioned, Attributes, StatesValues, Stated, BaseItem, IsUpdate;
    TagReads(place.tag, g);
    ElementRepresented(place.tag, place.children, place.conditional, g);
  }

  /** An update that takes effect restates an instance as a variant does. */
  lemma UpdateLeads(places: seq<Place>, place: Place, f: Choice, x: ProjectVersion, v: Item) returns (g: Choice)
    requires IsPlace(place) && AreNew(place, Offsets(places)) && IsUpdate(place.tag) && v in ItemsAt(place)
    requires Leads(places, f, Key(PackageIn(place.tag)), x)
    ensures Leads(places + [place], g, Key(PackageIn(place.tag)), Updated(x, v))
  {
    hide Key, PackageIn, IsUpdate, IsLiteral, Stated, Attributes, StatesValues, Conditioned, Chosen, Offsets, Evaluate,
      ItemsAt, Updated, Restate, Matches, Mixes;
    ItemsKnown(place);
    var h := VariantChosen(place, v);
    g := At(f, h, place, true);
    AtAgrees(places, place, f, h, true);
    ChosenStep(places, place, g);
    PlaceEvaluates(place, g, Chosen(places, g));
    var setting := Stated(place.children, g, Attributes(place.tag));
    ElementStates(place, g);
    MatchedUpdate(x, v, setting);
    var key := Key(PackageIn(place.tag));
    var before := InstancesOf(Chosen(places, g), key);
    var i :| 0 <= i < |before| && before[i] == x;
    assert RestateAll(before, setting)[i] == Updated(x, v);
  }

  /** An include that takes effect adds an instance as a variant states it. */
  lemma IncludeLeads(places: seq<Place>, place: Place, v: Item) returns (g: Choice)
    requires IsPlace(place) && AreNew(place, Offsets(places)) && !IsUpdate(place.tag) && v in ItemsAt(place)
    ensures Leads(places + [place], g, Key(PackageIn(place.tag)), ProjectVersion(v.version, v.versionOverride))
  {
    hide Key, PackageIn, IsUpdate, IsLiteral, Stated, Attributes, StatesValues, Conditioned, Chosen, Offsets, Evaluate,
      ItemsAt, Restate, Matches, Mixes;
    ItemsKnown(place);
    var h := VariantChosen(place, v);
    g := At(h, h, place, true);
    AtAgrees(places, place, h, h, true);
    ChosenStep(places, place, g);
    PlaceEvaluates(place, g, Chosen(places, g));
    MatchedInclude(v, Stated(place.children, g, Attributes(place.tag)));
  }

  // ----- all places -----

  ghost predicate ArePlaces(places: seq<Place>) {
    (forall place <- places :: IsPlace(place)) && Distinct(Offsets(places))
  }

  lemma OffsetsSplit(places: seq<Place>)
    requires places != []
    ensures Offsets(places) == Offsets(places[..|places| - 1]) + OffsetsAt(places[|places| - 1])
  {
  }

  lemma PlacesSplit(places: seq<Place>)
    requires places != [] && ArePlaces(places)
    ensures var n := |places| - 1;
      ArePlaces(places[..n]) && IsPlace(places[n]) && AreNew(places[n], Offsets(places[..n])) &&
      places == places[..n] + [places[n]]
  {
    hide IsPlace, Offsets, OffsetsAt;
    var n := |places| - 1;
    var a, b := Offsets(places[..n]), OffsetsAt(places[n]);
    assert Offsets(places) == a + b by { OffsetsSplit(places); }
    forall i, j | 0 <= i < j < |a| ensures a[i] != a[j] { assert (a + b)[i] == a[i] && (a + b)[j] == a[j]; }
    forall i, j | 0 <= i < |a| && 0 <= j < |b| ensures a[i] != b[j] {
      assert (a + b)[i] == a[i] && (a + b)[|a| + j] == b[j];
    }
  }

  lemma {:induction false} AppliedConcat(packages: ProjectModel, a: seq<Item>, b: seq<Item>)
    ensures Applied(packages, a + b) == Applied(Applied(packages, a), b)
    decreases |b|
  {
    hide ApplyToProject;
    if b == [] {
      assert a + b == a;
    } else {
      var n := |b| - 1;
      assert (a + b)[..|a + b| - 1] == a + b[..n] && (a + b)[|a + b| - 1] == b[n];
      AppliedConcat(packages, a, b[..n]);
    }
  }

  lemma LiteralIfItems(items: seq<Item>, place: Place)
    requires AreVariants(items, place)
    ensures items == [] || IsLiteral(PackageIn(place.tag))
  {
  }

  lemma NotLiteralWithoutItems(place: Place)
    requires IsPlace(place)
    ensures ItemsAt(place) == [] ==> !IsLiteral(PackageIn(place.tag))
  {
    hide BaseItem, PackageIn, IsLiteral, IsPackageName, Conditioned, StatesValues, IsUpdate, FirstItem, Variants, Valid;
    var first := FirstItem(place.tag, place.conditional);
    var items := Variants(place.children, [first]);
    FirstAt(place);
    FirstItemIs(place.tag, place.conditional);
    TagReads(place.tag, _ => true);
    ElementRepresented(place.tag, place.children, place.conditional, _ => true);
    RepresentsUnfolds(items, first, Stated(place.children, _ => true, Attributes(place.tag)));
    ValidIsAllOrNone(items, first.name);
    SameName(first.name);
  }

  /** Every candidate of a project is what some choice leads to. */
  lemma {:induction false} CandidateChosen(places: seq<Place>, key: string, c: ProjectVersion) returns (f: Choice)
    requires ArePlaces(places) && c in CandidatesFor(Applied(map[], ItemsOf(places)), key)
    ensures Leads(places, f, key, c)
    decreases |places|
  {
    hide ArePlaces, IsPlace, Key, PackageIn, IsUpdate, ItemsAt, AreVariants, Updated, Leads, AreNew;
    if places == [] {
      f := _ => true;
      assert false;
    } else {
      PlacesSplit(places);
      var n := |places| - 1;
      var before, place := Applied(map[], ItemsOf(places[..n])), places[n];
      var items, mine := ItemsAt(place), Key(PackageIn(place.tag));
      ItemsKnown(place);
      AppliedConcat(map[], ItemsOf(places[..n]), items);
      assert items[..|items|] == items;
      assert items == [] || IsLiteral(PackageIn(place.tag)) by { LiteralIfItems(items, place); }
      if IsUpdate(place.tag) && key == mine {
        UpdatesOrigin(before, items, place, |items|, c);
        if (|items| == 0 || place.conditional) && c in CandidatesFor(before, key) {
          var g := CandidateChosen(places[..n], key, c);
          NotLiteralWithoutItems(place);
          f := StillLeads(places[..n], place, g, key, c);
        } else {
          var x, v :| x in CandidatesFor(before, key) && v in items && c == Updated(x, v);
          var g := CandidateChosen(places[..n], key, x);
          f := UpdateLeads(places[..n], place, g, x, v);
        }
      } else {
        if IsUpdate(place.tag) {
          OtherKeysStay(before, items, place, |items|, key, c);
        } else {
          IncludesOrigin(before, items, place, |items|, key, c);
        }
        if c in CandidatesFor(before, key) {
          var g := CandidateChosen(places[..n], key, c);
          f := StillLeads(places[..n], place, g, key, c);
        } else {
          var v :| v in items && c == ProjectVersion(v.version, v.versionOverride);
          f := IncludeLeads(places[..n], place, v);
        }
      }
    }
  }

  /** The elements of a document that name packages, each at a place of its own, no update stating a blank. */
  ghost predicate HasPlaces(nodes: seq<Node>, element: string) {
    ArePlaces(Places(nodes, element, false))
  }

  /** What the choice leads to in the document. */
  function ChosenIn(nodes: seq<Node>, element: string, choice: Choice): Instances {
    Chosen(Places(nodes, element, false), choice)
  }

  /** A project's candidates are all possible: each is what some choice of conditional elements leads to. */
  lemma ProjectCandidatesArePossible(nodes: seq<Node>, key: string, c: ProjectVersion) returns (choice: Choice)
    requires HasPlaces(nodes, "PackageReference") && key in ProjectPackages(nodes)
    requires c in ProjectPackages(nodes)[key].candidates
    ensures c in InstancesOf(ChosenIn(nodes, "PackageReference", choice), key)
  {
    hide CollectAll, ArePlaces, Chosen, Applied, ItemsOf, Places;
    var places := Places(nodes, "PackageReference", false);
    NodesItems(nodes, "PackageReference", false, EMPTY_DOCUMENT);
    assert [] + ItemsOf(places) == ItemsOf(places);
    AppliedIs(map[], ItemsOf(places));
    choice := CandidateChosen(places, key, c);
  }

  // ----- central files -----

  function AppliedCentral(items: seq<Item>, entries: CentralModel, source: string): CentralModel {
    if items == [] then entries
    else ApplyToCentral(AppliedCentral(items[..|items| - 1], entries, source), items[|items| - 1], source)
  }

  lemma {:induction false} AppliedCentralIs(items: seq<Item>, entries: CentralModel, source: string)
    ensures ApplyAll(Centrals(entries, source), items) == Centrals(AppliedCentral(items, entries, source), source)
  {
    hide ApplyToCentral;
    if items != [] { AppliedCentralIs(items[..|items| - 1], entries, source); }
  }

  lemma {:induction false} AppliedCentralConcat(a: seq<Item>, b: seq<Item>, entries: CentralModel, source: string)
    ensures AppliedCentral(a + b, entries, source) == AppliedCentral(b, AppliedCentral(a, entries, source), source)
    decreases |b|
  {
    hide ApplyToCentral;
    if b == [] {
      assert a + b == a;
    } else {
      var n := |b| - 1;
      assert (a + b)[..|a + b| - 1] == a + b[..n] && (a + b)[|a + b| - 1] == b[n];
      AppliedCentralConcat(a, b[..n], entries, source);
    }
  }

  lemma CentralUpdateOnce(entries: CentralModel, y: Item, source: string, key: string, x: Candidate)
    requires y.update && Key(y.name) != "" && x in CentralCandidates(ApplyToCentral(entries, y, source), key)
    ensures var before := CentralCandidates(entries, key);
      before != [] &&
      if Key(y.name) != key then x in before
      else
        (x in before && (y.conditional || TrimSpace(y.version) == "")) ||
        (TrimSpace(y.version) != "" && x.version == TrimSpace(y.version))
  {
    hide Key, AppendAll, TrimSpace;
  }

  lemma CentralIncludeOnce(entries: CentralModel, y: Item, source: string, key: string, x: Candidate)
    requires !y.update && x in CentralCandidates(ApplyToCentral(entries, y, source), key)
    ensures x in CentralCandidates(entries, key) ||
      (Key(y.name) == key && (x.version == "" || x.version == TrimSpace(y.version)))
  {
    hide Key, AppendUnique, TrimSpace;
  }

  /** Where a central version comes from after some variants of an update. */
  ghost predicate FromCentral(x: Candidate, before: seq<Candidate>, items: seq<Item>, untouched: bool) {
    (untouched && x in before) || (x in before && exists v :: v in items && v.version == "") ||
    exists v :: v in items && v.version != "" && x.version == TrimSpace(v.version)
  }

  lemma {:induction false} CentralUpdatesOrigin(entries: CentralModel, items: seq<Item>, place: Place, source: string,
      k: nat, x: Candidate)
    requires AreVariants(items, place) && IsUpdate(place.tag) && k <= |items| && forall v <- items :: Solid(v)
    requires x in CentralCandidates(AppliedCentral(items[..k], entries, source), Key(PackageIn(place.tag)))
    ensures var before := CentralCandidates(entries, Key(PackageIn(place.tag)));
      before != [] && FromCentral(x, before, items, k == 0 || place.conditional)
  {
    hide Key, ApplyToCentral, Mixes, TrimSpace, Blank;
    var key := Key(PackageIn(place.tag));
    if k > 0 {
      var y := items[k - 1];
      var middle := AppliedCentral(items[..k - 1], entries, source);
      assert items[..k][..k - 1] == items[..k - 1];
      assert y in items;
      Trimmed(y.version);
      CentralUpdateOnce(middle, y, source, key, x);
      var before := CentralCandidates(middle, key);
      assert before[0] in before;
      CentralUpdatesOrigin(entries, items, place, source, k - 1, before[0]);
      if x in before && (y.conditional || TrimSpace(y.version) == "") {
        CentralUpdatesOrigin(entries, items, place, source, k - 1, x);
      }
    }
  }

  lemma {:induction false} CentralIncludesOrigin(entries: CentralModel, items: seq<Item>, place: Place, source: string,
      k: nat, key: string, x: Candidate)
    requires AreVariants(items, place) && !IsUpdate(place.tag) && k <= |items|
    requires x in CentralCandidates(AppliedCentral(items[..k], entries, source), key)
    ensures x in CentralCandidates(entries, key) ||
      (key == Key(PackageIn(place.tag)) && items != [] &&
       (x.version == "" || exists v :: v in items && x.version == TrimSpace(v.version)))
  {
    hide Key, ApplyToCentral, Mixes, TrimSpace;
    if k > 0 {
      var y := items[k - 1];
      var middle := AppliedCentral(items[..k - 1], entries, source);
      assert items[..k][..k - 1] == items[..k - 1];
      assert y in items;
      CentralIncludeOnce(middle, y, source, key, x);
      if x in CentralCandidates(middle, key) {
        CentralIncludesOrigin(entries, items, place, source, k - 1, key, x);
      }
    }
  }

  lemma {:induction false} OtherEntriesStay(entries: CentralModel, items: seq<Item>, place: Place, source: string,
      k: nat,
      key: string, x: Candidate)
    requires AreVariants(items, place) && IsUpdate(place.tag) && k <= |items| && key != Key(PackageIn(place.tag))
    requires x in CentralCandidates(AppliedCentral(items[..k], entries, source), key)
    ensures x in CentralCandidates(entries, key)
  {
    hide Key, ApplyToCentral, Mixes, TrimSpace;
    if k > 0 {
      var y := items[k - 1];
      assert items[..k][..k - 1] == items[..k - 1];
      assert y in items;
      CentralUpdateOnce(AppliedCentral(items[..k - 1], entries, source), y, source, key, x);
      OtherEntriesStay(entries, items, place, source, k - 1, key, x);
    }
  }

  /** An update by a variant without a version keeps the version of an instance. */
  lemma KeepsVersion(c: ProjectVersion, v: Item)
    ensures v.version == "" ==> Updated(c, v).version == c.version
    ensures v.version != "" ==> Updated(c, v).version == v.version
  {
  }

  lemma ItemsSolid(place: Place)
    requires IsPlace(place)
    ensures forall v <- ItemsAt(place) :: Solid(v)
  {
    hide BaseItem, Variants, IsUpdate, StatesValues, Conditioned, FirstItem, PackageIn;
    ItemsKnown(place);
    TagReads(place.tag, _ => true);
    ElementRepresented(place.tag, place.children, place.conditional, _ => true);
  }

  /** Every version of a central entry is what some choice leads to, and where there is an entry some choice leads to
      one; the empty version stands for an entry that may be absent. */
  lemma {:induction false} CentralChosen(places: seq<Place>, source: string, key: string, x: Candidate)
      returns (f: Choice, c: ProjectVersion)
    requires ArePlaces(places) && x in CentralCandidates(AppliedCentral(ItemsOf(places), map[], source), key)
    ensures Leads(places, f, key, c) && (x.version != "" ==> TrimSpace(c.version) == x.version)
    decreases |places|
  {
    hide ArePlaces, IsPlace, Key, PackageIn, IsUpdate, ItemsAt, AreVariants, Updated, Leads, AreNew, TrimSpace, Solid;
    if places == [] {
      f, c := _ => true, ProjectVersion("", "");
      assert false;
    } else {
      PlacesSplit(places);
      var n := |places| - 1;
      var before, place := AppliedCentral(ItemsOf(places[..n]), map[], source), places[n];
      var items, mine := ItemsAt(place), Key(PackageIn(place.tag));
      ItemsKnown(place);
      ItemsSolid(place);
      AppliedCentralConcat(ItemsOf(places[..n]), items, map[], source);
      assert items[..|items|] == items;
      assert items == [] || IsLiteral(PackageIn(place.tag)) by { LiteralIfItems(items, place); }
      NotLiteralWithoutItems(place);
      if IsUpdate(place.tag) && key == mine {
        CentralUpdatesOrigin(before, items, place, source, |items|, x);
        var known := CentralCandidates(before, key);
        if (|items| == 0 || place.conditional) && x in known {
          var g, d := CentralChosen(places[..n], source, key, x);
          f := StillLeads(places[..n], place, g, key, d);
          c := d;
        } else if v :| v in items && v.version != "" && x.version == TrimSpace(v.version) {
          var g, d := CentralChosen(places[..n], source, key, known[0]);
          f := UpdateLeads(places[..n], place, g, d, v);
          c := Updated(d, v);
          KeepsVersion(d, v);
        } else {
          var v :| v in items && v.version == "";
          var g, d := CentralChosen(places[..n], source, key, x);
          f := UpdateLeads(places[..n], place, g, d, v);
          c := Updated(d, v);
          KeepsVersion(d, v);
        }
      } else {
        if IsUpdate(place.tag) {
          OtherEntriesStay(before, items, place, source, |items|, key, x);
        } else {
          CentralIncludesOrigin(before, items, place, source, |items|, key, x);
        }
        if x in CentralCandidates(before, key) {
          var g, d := CentralChosen(places[..n], source, key, x);
          f := StillLeads(places[..n], place, g, key, d);
          c := d;
        } else {
          var v :| v in items && (x.version != "" ==> x.version == TrimSpace(v.version));
          f := IncludeLeads(places[..n], place, v);
          c := ProjectVersion(v.version, v.versionOverride);
        }
      }
    }
  }

  /** A central file's versions are all possible in the same way. */
  lemma CentralCandidatesArePossible(nodes: seq<Node>, source: string, key: string, x: Candidate)
      returns (choice: Choice, c: ProjectVersion)
    requires HasPlaces(nodes, "PackageVersion") && x in CentralCandidates(CentralEntries(nodes, source), key)
    ensures c in InstancesOf(ChosenIn(nodes, "PackageVersion", choice), key)
    ensures x.version != "" ==> TrimSpace(c.version) == x.version
  {
    hide CollectAll, ArePlaces, Chosen, AppliedCentral, ItemsOf, Places, TrimSpace;
    var places := Places(nodes, "PackageVersion", false);
    NodesItems(nodes, "PackageVersion", false, EMPTY_DOCUMENT);
    assert [] + ItemsOf(places) == ItemsOf(places);
    AppliedCentralIs(ItemsOf(places), map[], source);
    choice, c := CentralChosen(places, source, key, x);
  }

  // ----- the effective versions -----

  lemma {:induction false} EffectiveFrom(name: string, candidates: seq<ProjectVersion>, central: seq<Candidate>,
      source: string, x: Candidate) returns (c: ProjectVersion)
    requires x in EffectiveOf(name, candidates, central, source)
    ensures c in candidates && x in Contribution(name, c, central, source)
  {
    hide Contribution;
    var n := |candidates| - 1;
    assert candidates == candidates[..n] + [candidates[n]];
    if x in Contribution(name, candidates[n], central, source) {
      c := candidates[n];
    } else {
      c := EffectiveFrom(name, candidates[..n], central, source, x);
    }
  }

  /** The version is that of an entry of the central file under some choice. */
  ghost predicate IsPinned(central: seq<Node>, key: string, version: string) {
    exists choice, d ::
      d in InstancesOf(ChosenIn(central, "PackageVersion", choice), key) && TrimSpace(d.version) == version
  }

  /** Every effective version of a package is the override or else the version of an instance that some choice leads to,
      or, where it has neither, the version of a possible central entry, or not known. */
  lemma DeclaredIsPossible(project: seq<Node>, central: seq<Node>, source: string, centralSource: string, key: string,
      x: Candidate) returns (choice: Choice, c: ProjectVersion)
    requires HasPlaces(project, "PackageReference") && HasPlaces(central, "PackageVersion")
    requires key in ProjectPackages(project) && x in Declared(project, central, source, centralSource, key)
    ensures c in InstancesOf(ChosenIn(project, "PackageReference", choice), key)
    ensures var overridden, own := TrimSpace(c.versionOverride), TrimSpace(c.version);
      if overridden != "" then x.version == overridden
      else if own != "" then x.version == own
      else x.version == "" || (CentralInUse(project, central) && IsPinned(central, key, x.version))
  {
    hide HasPlaces, ProjectPackages, CentralEntries, CentralInUse, ChosenIn, TrimSpace, EffectiveOf;
    var packages, entries := ProjectPackages(project), CentralEntries(central, centralSource);
    var used := InUse(CentralInUse(project, central), entries, key);
    c := EffectiveFrom(packages[key].name, packages[key].candidates, used, source, x);
    choice := ProjectCandidatesArePossible(project, key, c);
    if TrimSpace(c.versionOverride) == "" && TrimSpace(c.version) == "" && x.version != "" {
      var i :| 0 <= i < |used| && x == Renamed(used, packages[key].name)[i];
      var f, d := CentralCandidatesArePossible(central, centralSource, key, used[i]);
      assert d in InstancesOf(ChosenIn(central, "PackageVersion", f), key) && TrimSpace(d.version) == x.version;
    }
  }

  // ----- the versions of a central file, item by item -----

  predicate IsIncludeOf(x: Item, key: string) {
    !x.update && Key(x.name) == key
  }

  /** An update that states a version. */
  predicate IsUpdateOf(x: Item, key: string) {
    x.update && Key(x.name) == key && TrimSpace(x.version) != ""
  }

  predicate Includes(items: seq<Item>, key: string) {
    exists x <- items :: IsIncludeOf(x, key)
  }

  /** An include gives its version, and an unknown one when it is conditional; an update gives its version once there is
      something to update. */
  predicate Gives(items: seq<Item>, i: nat, key: string, version: string) {
    i < |items| &&
    if items[i].update then
      IsUpdateOf(items[i], key) && version == TrimSpace(items[i].version) && Includes(items[..i], key)
    else
      IsIncludeOf(items[i], key) && (version == TrimSpace(items[i].version) || (version == "" && items[i].conditional))
  }

  /** A later unconditional update takes the versions before it away. */
  predicate Replaced(items: seq<Item>, i: nat, key: string) {
    exists j :: i < j < |items| && IsUpdateOf(items[j], key) && !items[j].conditional
  }

  ghost predicate GivenBy(items: seq<Item>, key: string, version: string) {
    exists i: nat :: Gives(items, i, key, version) && !Replaced(items, i, key)
  }

  predicate HasVersion(candidates: seq<Candidate>, version: string) {
    exists x <- candidates :: x.version == version
  }

  lemma GivesEarlier(items: seq<Item>, i: nat, key: string, version: string)
    requires i < |items| - 1
    ensures Gives(items, i, key, version) <==> Gives(items[..|items| - 1], i, key, version)
    ensures Replaced(items, i, key) <==>
      (Replaced(items[..|items| - 1], i, key) ||
        (IsUpdateOf(items[|items| - 1], key) && !items[|items| - 1].conditional))
  {
    hide IsUpdateOf, IsIncludeOf, TrimSpace, Includes;
    var earlier := items[..|items| - 1];
    assert earlier[..i] == items[..i];
    if j :| i < j < |items| && IsUpdateOf(items[j], key) && !items[j].conditional {
      if j < |earlier| { assert earlier[j] == items[j]; }
    }
  }

  lemma NoneLater(items: seq<Item>, key: string, version: string)
    ensures forall i: nat :: Gives(items, i, key, version) ==> i < |items|
    ensures items != [] ==> !Replaced(items, |items| - 1, key)
  {
    hide IsUpdateOf, IsIncludeOf;
  }

  /** What the last item does to the versions that are given. */
  lemma GivenStep(items: seq<Item>, key: string, version: string)
    requires items != []
    ensures var n := |items| - 1;
      GivenBy(items, key, version) <==>
        Gives(items, n, key, version) ||
        (GivenBy(items[..n], key, version) && !(IsUpdateOf(items[n], key) && !items[n].conditional))
  {
    hide Gives, Replaced, IsUpdateOf;
    var n := |items| - 1;
    forall i: nat | i < n
      ensures Gives(items, i, key, version) <==> Gives(items[..n], i, key, version)
      ensures Replaced(items, i, key) <==>
        (Replaced(items[..n], i, key) || (IsUpdateOf(items[n], key) && !items[n].conditional))
    {
      GivesEarlier(items, i, key, version);
    }
    NoneLater(items, key, version);
    if i: nat :| Gives(items, i, key, version) && !Replaced(items, i, key) {
      if i < n { assert Gives(items[..n], i, key, version) && !Replaced(items[..n], i, key); }
    }
    if GivenBy(items[..n], key, version) && !(IsUpdateOf(items[n], key) && !items[n].conditional) {
      var i: nat :| Gives(items[..n], i, key, version) && !Replaced(items[..n], i, key);
      assert i < n by { NoneLater(items[..n], key, version); }
      assert Gives(items, i, key, version) && !Replaced(items, i, key);
    }
  }

  /** What one item does to the candidates. */
  lemma CentralStep(entries: CentralModel, x: Item, source: string, key: string, version: string)
    requires key != ""
    ensures var before, after :=
      CentralCandidates(entries, key), CentralCandidates(ApplyToCentral(entries, x, source), key);
      (after != [] <==> before != [] || IsIncludeOf(x, key)) &&
      (HasVersion(after, version) <==>
        (IsIncludeOf(x, key) && (version == TrimSpace(x.version) || (version == "" && x.conditional))) ||
        (IsUpdateOf(x, key) && before != [] && version == TrimSpace(x.version)) ||
        (HasVersion(before, version) && !(IsUpdateOf(x, key) && !x.conditional)))
  {
    hide TrimSpace, Key;
    var before, after := CentralCandidates(entries, key), CentralCandidates(ApplyToCentral(entries, x, source), key);
    var candidate := Candidate(TrimSpace(x.name), TrimSpace(x.version), source);
    if IsIncludeOf(x, key) {
      assert candidate in after;
      assert x.conditional ==> candidate.(version := "") in after;
    } else if IsUpdateOf(x, key) && before != [] {
      assert candidate in after;
    } else {
      assert after == before;
    }
  }

  lemma NothingGiven(source: string, key: string, version: string)
    ensures CentralCandidates(AppliedCentral([], map[], source), key) == [] && !GivenBy([], key, version)
    ensures !HasVersion([], version)
  {
  }

  lemma LastGives(items: seq<Item>, key: string, version: string)
    requires items != []
    ensures var n := |items| - 1;
      var x := items[n];
      Gives(items, n, key, version) <==>
        (IsIncludeOf(x, key) && (version == TrimSpace(x.version) || (version == "" && x.conditional))) ||
        (IsUpdateOf(x, key) && Includes(items[..n], key) && version == TrimSpace(x.version))
  {
    hide TrimSpace, Key, Includes;
  }

  /** A central file gives a package a version, or an unknown one, exactly when an item gives it and no later
      unconditional update takes it away. */
  lemma {:induction false} CentralVersionsExactlyWhen(items: seq<Item>, source: string, key: string, version: string)
    requires key != ""
    ensures var candidates := CentralCandidates(AppliedCentral(items, map[], source), key);
      (candidates != [] <==> Includes(items, key)) &&
        (HasVersion(candidates, version) <==> GivenBy(items, key, version))
  {
    hide ApplyToCentral, CentralCandidates, GivenBy, IsIncludeOf, IsUpdateOf, HasVersion;
    if items == [] {
      NothingGiven(source, key, version);
    } else {
      var n := |items| - 1;
      CentralVersionsExactlyWhen(items[..n], source, key, version);
      CentralStep(AppliedCentral(items[..n], map[], source), items[n], source, key, version);
      GivenStep(items, key, version);
      LastGives(items, key, version);
      assert items == items[..n] + [items[n]];
    }
  }

  // ----- when central versions are in use -----

  /** An element that switches central versions, and whether it is conditional. */
  datatype Switch = Switch(value: string, conditional: bool)

  predicate SwitchesOn(x: Switch) {
    Lower(TrimSpace(TrimSpace(x.value))) == "true"
  }

  function SwitchesIn(node: Node, element: string, under: bool): seq<Switch>
    decreases node
  {
    match node
    case Chars(_) => []
    case Element(tag, children) =>
      if Lower(tag.name) == Lower(element) then []
      else if IsSwitch(tag) then [Switch(Inside(children), under || Conditioned(tag))]
      else Switches(children, element, under || Conditioned(tag) || IsChoice(tag))
  }

  /** The switches in document order. */
  function Switches(nodes: seq<Node>, element: string, under: bool): seq<Switch>
    decreases nodes
  {
    if nodes == [] then [] else SwitchesIn(nodes[0], element, under) + Switches(nodes[1..], element, under)
  }

  /** What the unconditional switches come to. */
  function LastOn(switches: seq<Switch>, before: bool): bool {
    if switches == [] then before
    else LastOn(switches[1..], if switches[0].conditional then before else SwitchesOn(switches[0]))
  }

  lemma {:induction false} LastOnConcat(a: seq<Switch>, b: seq<Switch>, before: bool)
    ensures LastOn(a + b, before) == LastOn(b, LastOn(a, before))
  {
    hide SwitchesOn;
    if a == [] {
      assert a + b == b;
    } else {
      assert (a + b)[1..] == a[1..] + b;
      LastOnConcat(a[1..], b, if a[0].conditional then before else SwitchesOn(a[0]));
    }
  }

  lemma {:induction false} LastOnIsLast(switches: seq<Switch>, before: bool)
    requires forall x <- switches :: !x.conditional
    ensures LastOn(switches, before) == if switches == [] then before else SwitchesOn(switches[|switches| - 1])
  {
    hide SwitchesOn;
    if switches != [] { LastOnIsLast(switches[1..], SwitchesOn(switches[0])); }
  }

  /** What the document records of these switches. */
  predicate Recorded(before: Document, switches: seq<Switch>, after: Document) {
    after.centralSeen == (before.centralSeen || switches != []) &&
    after.centralAmbiguous == (before.centralAmbiguous || exists x <- switches :: x.conditional) &&
    after.centralEnabled == LastOn(switches, before.centralEnabled)
  }

  lemma RecordedConcat(before: Document, a: seq<Switch>, between: Document, b: seq<Switch>, after: Document)
    requires Recorded(before, a, between) && Recorded(between, b, after)
    ensures Recorded(before, a + b, after)
  {
    hide LastOn;
    LastOnConcat(a, b, before.centralEnabled);
  }

  lemma TrueIsLow()
    ensures Lower("true") == "true"
  {
  }

  lemma OneRecorded(before: Document, x: Switch)
    ensures Recorded(before, [x], Activate(before, TrimSpace(x.value), x.conditional))
  {
    hide TrimSpace, Lower;
    assert Lower("true") == "true" by { TrueIsLow(); }
    assert x in [x];
    assert LastOn([x], before.centralEnabled) == if x.conditional then before.centralEnabled else SwitchesOn(x);
  }

  lemma NothingSwitched(document: Document)
    ensures Recorded(document, [], document)
  {
  }

  lemma {:induction false} SwitchRecorded(node: Node, element: string, under: bool, before: Document)
    ensures Recorded(before, SwitchesIn(node, element, under), Collect(node, element, under, before))
    decreases node
  {
    hide Variants, Valid, FirstItem, HasCondition, TextOf, Inside, TrimSpace, IsSwitch, IsActivation, Activate,
      IsConditionalScope, Lower, Conditioned, IsChoice, SwitchesOn;
    match node
    case Chars(_) =>
    case Element(tag, children) =>
      SameCondition(tag);
      SameScope(tag);
      SameText(children);
      TagReads(tag, _ => true);
      if Lower(tag.name) != Lower(element) && IsSwitch(tag) {
        OneRecorded(before, Switch(Inside(children), under || Conditioned(tag)));
      } else if Lower(tag.name) != Lower(element) {
        SwitchesRecorded(children, element, under || Conditioned(tag) || IsChoice(tag), before);
      }
  }

  lemma {:induction false} SwitchesRecorded(nodes: seq<Node>, element: string, under: bool, before: Document)
    ensures Recorded(before, Switches(nodes, element, under), CollectAll(nodes, element, under, before))
    decreases nodes
  {
    hide Collect, SwitchesIn, Recorded;
    if nodes == [] {
      NothingSwitched(before);
    } else {
      var next := Collect(nodes[0], element, under, before);
      SwitchRecorded(nodes[0], element, under, before);
      SwitchesRecorded(nodes[1..], element, under, next);
      RecordedConcat(before, SwitchesIn(nodes[0], element, under), next, Switches(nodes[1..], element, under),
        CollectAll(nodes, element, under, before));
    }
  }

  /** No switch depends on a condition, and the last one switches central versions on. */
  predicate SurelyOn(switches: seq<Switch>) {
    switches != [] && (forall x <- switches :: !x.conditional) && SwitchesOn(switches[|switches| - 1])
  }

  lemma AllowedExactlyWhen(nodes: seq<Node>, element: string)
    ensures var document, switches :=
      CollectAll(nodes, element, false, EMPTY_DOCUMENT), Switches(nodes, element, false);
      (document.centralSeen <==> switches != []) &&
      (CentralAllowed(document) <==> switches == [] || SurelyOn(switches))
  {
    hide CollectAll, Switches, LastOn, SwitchesOn;
    SwitchesRecorded(nodes, element, false, EMPTY_DOCUMENT);
    var switches := Switches(nodes, element, false);
    if forall x <- switches :: !x.conditional { LastOnIsLast(switches, false); }
  }

  /** Central versions are taken to be in use exactly when the central file surely switches them on and the project
      does too or says nothing. */
  lemma CentralInUseExactlyWhen(project: seq<Node>, central: seq<Node>)
    ensures var own := Switches(project, "PackageReference", false);
      CentralInUse(project, central) <==>
        (own == [] || SurelyOn(own)) && SurelyOn(Switches(central, "PackageVersion", false))
  {
    hide CollectAll, Switches, LastOn, SwitchesOn;
    AllowedExactlyWhen(project, "PackageReference");
    AllowedExactlyWhen(central, "PackageVersion");
  }
}
