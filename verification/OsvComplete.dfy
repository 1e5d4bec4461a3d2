/** internal/advisory/load.go: what becomes of a document that the streaming checks of internal/advisory/sync.go
    accept. The checks leave most fields alone, and decoding gives each of them a type; a document also loads
    differently when it can be read as a local advisory file. */
module OsvComplete {
  import opened Strings
  import opened Results
  import opened OsvTrees
  import opened OsvLoad
  import Float64

  // ----- spelling and types -----

  /** No field of the object differs from `name` in letter case alone. */
  predicate Spelled(members: seq<Member>, name: string) {
    forall m <- members :: EqualFold(m.name, name) ==> m.name == name
  }

  predicate PlainPackage(v: Json) {
    v.Obj? ==> Spelled(v.members, "name")
  }

  predicate PlainAffected(v: Json) {
    v.Obj? ==> (
      Spelled(v.members, "package") && Spelled(v.members, "versions") && Spelled(v.members, "ranges") &&
      forall x <- Values(v.members, "package") :: PlainPackage(x))
  }

  predicate PlainAffectedList(v: Json) {
    v.Arr? ==> forall x <- v.items :: PlainAffected(x)
  }

  predicate PlainAdvisory(v: Json) {
    v.Obj? ==> (
      Spelled(v.members, "id") && Spelled(v.members, "affected") &&
      forall x <- Values(v.members, "affected") :: PlainAffectedList(x))
  }

  predicate PlainAdvisoryList(v: Json) {
    v.Arr? ==> forall x <- v.items :: PlainAdvisory(x)
  }

  predicate PlainDocument(doc: Json) {
    match doc
    case Arr(_) => PlainAdvisoryList(doc)
    case Obj(members) =>
      PlainAdvisory(doc) && Spelled(members, "vulns") && forall x <- Values(members, "vulns") :: PlainAdvisoryList(x)
    case _ => true
  }

  // ----- what the tree of an accepted document has to report -----

  /** The text of the name in the package of an affected entry. */
  function NameIn(item: Json): string
    requires AffectedOk(item)
  {
    var packages := Values(item.members, "package");
    if packages == [] then ""
    else
      assert packages[0] in packages;
      var names := Values(packages[0].members, "name");
      assert names == [] || names[0] in names;
      if names == [] then "" else names[0].text
  }

  /** The texts of its versions. */
  function TextsIn(item: Json): seq<string>
    requires AffectedOk(item)
  {
    var lists := Values(item.members, "versions");
    if lists == [] then []
    else
      assert lists[0] in lists;
      var items := lists[0].items;
      seq(|items|, i requires 0 <= i < |items| => (assert items[i] in items; items[i].text))
  }

  /** The items of its ranges. */
  function RangesIn(item: Json): seq<Json>
    requires AffectedOk(item)
  {
    var lists := Values(item.members, "ranges");
    assert lists == [] || lists[0] in lists;
    if lists == [] then [] else lists[0].items
  }

  /** One record for each usable item, in order. */
  function RecordsOf(id: string, items: seq<Json>): (r: seq<Reported>)
    requires forall x <- items :: AffectedOk(x)
    ensures r == [] <==> forall x <- items :: !AffectedUsable(x)
  {
    if items == [] then []
    else
      assert forall x :: x in items <==> x == items[0] || x in items[1..] by { SplitItems(items); }
      var first := items[0];
      (if AffectedUsable(first) then [Reported(id, NameIn(first), TextsIn(first), RangesIn(first))] else []) +
      RecordsOf(id, items[1..])
  }

  function IdOf(v: Json): string
    requires AdvisoryOk(v)
  {
    var ids := Values(v.members, "id");
    assert ids[0] in ids;
    ids[0].text
  }

  /** The records of one entry, under its ID. */
  function EntryRecords(v: Json): (r: seq<Reported>)
    requires AdvisoryOk(v)
    ensures r != []
  {
    var lists := Values(v.members, "affected");
    assert lists[0] in lists;
    assert forall x <- lists :: x == lists[0];
    RecordsOf(IdOf(v), lists[0].items)
  }

  /** The records of all entries, in document order. */
  function AllRecords(entries: seq<Json>): (r: seq<Reported>)
    requires forall v <- entries :: AdvisoryOk(v)
    ensures r == [] <==> entries == []
  {
    if entries == [] then [] else EntryRecords(entries[0]) + AllRecords(entries[1..])
  }

  lemma SpelledTail(members: seq<Member>, name: string)
    requires members != [] && Spelled(members, name)
    ensures Spelled(members[1..], name)
    ensures EqualFold(members[0].name, name) <==> members[0].name == name
  {
    assert members[0] in members;
  }

  /** The text of the first value, if it is text. */
  function TextOf(values: seq<Json>, default: string): string {
    if values == [] || !values[0].Str? then default else values[0].text
  }

  /** Every field that decoding gives a type has it; the fields that the checks cover need no mention. */
  predicate PackageTyped(v: Json) {
    v.Obj? ==> forall m <- v.members :: PackageFieldTyped(m)
  }

  predicate RangesTyped(v: Json) {
    v.Arr? ==> forall x <- v.items :: IsRange(x)
  }

  predicate AffectedMemberTyped(m: Member) {
    AffectedFieldTyped(m) && (m.name == "package" ==> PackageTyped(m.value)) &&
      (m.name == "ranges" ==> RangesTyped(m.value))
  }

  predicate AffectedTyped(v: Json) {
    v.Obj? ==> forall m <- v.members :: AffectedMemberTyped(m)
  }

  predicate AffectedListTyped(v: Json) {
    v.Arr? ==> forall x <- v.items :: AffectedTyped(x)
  }

  predicate AdvisoryMemberTyped(m: Member) {
    AdvisoryFieldTyped(m) && (m.name == "affected" ==> AffectedListTyped(m.value))
  }

  predicate AdvisoryTyped(v: Json) {
    v.Obj? ==> forall m <- v.members :: AdvisoryMemberTyped(m)
  }

  predicate AllTyped(entries: seq<Json>) {
    forall v <- entries :: AdvisoryTyped(v)
  }

  lemma SplitMembers(members: seq<Member>)
    requires members != []
    ensures forall x :: x in members <==> x == members[0] || x in members[1..]
  {
    assert members == [members[0]] + members[1..];
  }

  /** Names that fold to different known names. */
  lemma FoldsDiffer(name: string)
    ensures EqualFold(name, "package") ==> !EqualFold(name, "versions") && !EqualFold(name, "ranges")
    ensures EqualFold(name, "versions") ==> !EqualFold(name, "ranges")
    ensures EqualFold(name, "id") ==> !EqualFold(name, "affected")
  {
    assert |Lower("package")| == 7 && |Lower("versions")| == 8 && |Lower("ranges")| == 6;
    assert |Lower("id")| == 2 && |Lower("affected")| == 8;
  }

  lemma NotOtherFields(name: string)
    ensures name == "name" ==> !EqualFold(name, "ecosystem")
    ensures name == "package" || name == "versions" || name == "ranges" ==>
      !EqualFold(name, "ecosystem_specific") && !EqualFold(name, "database_specific")
    ensures name == "id" ==>
      !EqualFold(name, "aliases") && !EqualFold(name, "severity") && !EqualFold(name, "database_specific") &&
      !EqualFold(name, "modified") && !EqualFold(name, "published")
    ensures name == "affected" ==>
      !EqualFold(name, "aliases") && !EqualFold(name, "severity") && !EqualFold(name, "database_specific") &&
      !EqualFold(name, "modified") && !EqualFold(name, "published")
  {
    assert |Lower("name")| == 4 && |Lower("ecosystem")| == 9 && |Lower("ecosystem_specific")| == 18 &&
      |Lower("database_specific")| == 17;
    assert |Lower("package")| == 7 && |Lower("versions")| == 8 && |Lower("ranges")| == 6 && |Lower("id")| == 2;
    assert |Lower("aliases")| == 7 && |Lower("modified")| == 8 && |Lower("published")| == 9;
    assert Lower("affected")[0] == 'a' && Lower("severity")[0] == 's' && Lower("modified")[0] == 'm';
  }

  // ----- an affected entry -----

  lemma {:induction false} PackageLoads(members: seq<Member>, name: string)
    requires Spelled(members, "name") && PackageMembersOk(members, false)
    ensures DecodePackageMembers(members, name) ==
      if PackageTyped(Obj(members)) then Some(TextOf(Values(members, "name"), name)) else None
  {
    if members != [] {
      SpelledTail(members, "name");
      SplitMembers(members);
      var m := members[0];
      NotOtherFields(m.name);
      assert PackageTyped(Obj(members)) <==> PackageFieldTyped(m) && PackageTyped(Obj(members[1..]));
      if m.name == "name" {
        assert Values(members, "name") == [m.value];
        assert m.value in Values(members, "name");
        assert Values(members[1..], "name") == [];
        PackageLoads(members[1..], m.value.text);
      } else {
        PackageLoads(members[1..], name);
      }
    }
  }

  lemma {:induction false} TextsLoad(items: seq<Json>)
    requires forall x <- items :: x.Str?
    ensures DecodeTexts(items).Some? && |DecodeTexts(items).value| == |items|
    ensures forall i :: 0 <= i < |items| ==> DecodeTexts(items).value[i] == items[i].text
  {
    if items != [] {
      assert items[0] in items;
      TextsLoad(items[1..]);
    }
  }

  /** What each field of an affected entry decodes to when it occurs at most once. */
  predicate LoadedAs(members: seq<Member>, current: Affected, next: Affected) {
    var packages, versions, ranges :=
      Values(members, "package"), Values(members, "versions"), Values(members, "ranges");
    Some(next.package) ==
      (if packages == [] then Some(current.package) else DecodePackage(packages[0], current.package)) &&
    Some(next.versions) == (if versions == [] then Some(current.versions) else DecodeVersions(versions[0])) &&
    Some(next.ranges) == (if ranges == [] then Some(current.ranges) else DecodeRanges(ranges[0]))
  }

  /** Checked fields: at most one of each, well formed and spelled exactly. */
  predicate Checked(members: seq<Member>) {
    AffectedOk(Obj(members)) && PlainAffected(Obj(members))
  }

  lemma PackageValue(v: Json, name: string)
    requires PackageOk(v) && PlainPackage(v)
    ensures DecodePackage(v, name).Some? <==> PackageTyped(v)
    ensures DecodePackage(v, "").Some? ==> (!Blank(DecodePackage(v, "").value) <==> IsNamed(v))
    ensures DecodePackage(v, "").Some? ==>
      var names := Values(v.members, "name");
      DecodePackage(v, "").value == if names == [] then "" else (assert names[0] in names; names[0].text)
  {
    PackageLoads(v.members, name);
    PackageLoads(v.members, "");
    var names := Values(v.members, "name");
    assert names == [] || names[0] in names;
    assert Blank("");
  }

  lemma VersionsValue(v: Json)
    requires VersionsOk(v)
    ensures DecodeVersions(v).Some? && |DecodeVersions(v).value| == |v.items|
    ensures forall i :: 0 <= i < |v.items| ==>
      DecodeVersions(v).value[i] == (assert v.items[i] in v.items; v.items[i].text)
    ensures (exists i :: 0 <= i < |DecodeVersions(v).value| && !Blank(DecodeVersions(v).value[i])) <==> NamesVersion(v)
  {
    TextsLoad(v.items);
    var texts := DecodeVersions(v).value;
    if NamesVersion(v) {
      var i :| 0 <= i < |v.items| && IsNonblank(v.items[i]);
      assert !Blank(texts[i]);
    }
    if i :| 0 <= i < |texts| && !Blank(texts[i]) {
      assert IsNonblank(v.items[i]);
    }
  }

  lemma RangesValue(v: Json)
    requires RangesOk(v)
    ensures DecodeRanges(v) == if RangesTyped(v) then Some(v.items) else None
  {
  }

  lemma MemberLoads(m: Member, current: Affected)
    requires Checked([m])
    ensures DecodeAffectedMember(m, current).Some? <==> AffectedMemberTyped(m)
    ensures AffectedMemberTyped(m) ==> LoadedAs([m], current, DecodeAffectedMember(m, current).value)
  {
    hide DecodePackage, DecodeVersions, DecodeRanges, Values, EqualFold, PackageOk, VersionsOk, RangesOk, PlainPackage,
      PackageTyped, RangesTyped, IsMap;
    OneValue(m, "package");
    OneValue(m, "versions");
    OneValue(m, "ranges");
    SpelledTail([m], "package");
    SpelledTail([m], "versions");
    SpelledTail([m], "ranges");
    NotOtherFields(m.name);
    FoldsDiffer(m.name);
    if m.name == "package" {
      assert m.value in Values([m], "package");
      PackageValue(m.value, current.package);
    } else if m.name == "versions" {
      assert m.value in Values([m], "versions");
      VersionsValue(m.value);
    } else if m.name == "ranges" {
      assert m.value in Values([m], "ranges");
      RangesValue(m.value);
    }
  }

  lemma CheckedSplits(members: seq<Member>)
    requires members != [] && Checked(members)
    ensures Checked([members[0]]) && Checked(members[1..])
  {
    hide Values, EqualFold, PackageOk, VersionsOk, RangesOk, PlainPackage;
    SplitMembers(members);
    ValuesConcat(members[0], members, "package");
    ValuesConcat(members[0], members, "versions");
    ValuesConcat(members[0], members, "ranges");
  }

  lemma LoadedChains(members: seq<Member>, current: Affected, middle: Affected, next: Affected)
    requires members != [] && Checked(members)
    requires LoadedAs([members[0]], current, middle) && LoadedAs(members[1..], middle, next)
    ensures LoadedAs(members, current, next)
  {
    hide DecodePackage, DecodeVersions, DecodeRanges, Values, PackageOk, VersionsOk, RangesOk, PlainAffected;
    ValuesConcat(members[0], members, "package");
    ValuesConcat(members[0], members, "versions");
    ValuesConcat(members[0], members, "ranges");
  }

  lemma NothingLoads(current: Affected)
    ensures LoadedAs([], current, current)
  {
  }

  lemma {:induction false} AffectedMembersLoad(members: seq<Member>, current: Affected)
    requires Checked(members)
    ensures DecodeAffectedMembers(members, current).Some? <==> AffectedTyped(Obj(members))
    ensures AffectedTyped(Obj(members)) ==> LoadedAs(members, current, DecodeAffectedMembers(members, current).value)
  {
    hide DecodeAffectedMember, LoadedAs, Checked, AffectedMemberTyped;
    if members == [] {
      assert LoadedAs(members, current, current) by { NothingLoads(current); }
    } else {
      SplitMembers(members);
      assert AffectedTyped(Obj(members)) <==> AffectedMemberTyped(members[0]) && AffectedTyped(Obj(members[1..]));
      CheckedSplits(members);
      MemberLoads(members[0], current);
      if AffectedMemberTyped(members[0]) {
        var middle := DecodeAffectedMember(members[0], current).value;
        AffectedMembersLoad(members[1..], middle);
        if AffectedTyped(Obj(members)) {
          LoadedChains(members, current, middle, DecodeAffectedMembers(members[1..], middle).value);
        }
      }
    }
  }

  lemma OnlyArrays(v: Json)
    requires RangesOk(v)
    ensures v.Arr?
  {
  }

  lemma UsableMeans(v: Json, d: Affected)
    requires v.Obj? && Checked(v.members) && AffectedOk(v) && PlainAffected(v) && LoadedAs(v.members, NO_AFFECTED, d)
    ensures AffectedUsable(v) <==> !Blank(d.package) && HasVersionConstraints(d)
  {
    hide DecodePackage, DecodeVersions, DecodeRanges, Values, PackageOk, VersionsOk, RangesOk, IsNamed, NamesVersion,
      PlainPackage, Spelled, PackageTyped, RangesTyped;
    var packages, versions, ranges :=
      Values(v.members, "package"), Values(v.members, "versions"), Values(v.members, "ranges");
    if packages != [] {
      assert packages[0] in packages;
      PackageValue(packages[0], "");
    }
    if versions != [] {
      assert versions[0] in versions;
      VersionsValue(versions[0]);
    }
    if ranges != [] {
      assert ranges[0] in ranges;
      RangesValue(ranges[0]);
      OnlyArrays(ranges[0]);
    }
    assert Blank("");
    assert (exists x <- packages :: IsNamed(x)) <==> !Blank(d.package) by {
      assert packages == [] || packages == [packages[0]];
    }
    assert (exists x <- versions :: NamesVersion(x)) <==>
      exists i :: 0 <= i < |d.versions| && !Blank(d.versions[i]) by {
      assert versions == [] || versions == [versions[0]];
    }
    assert (exists x <- ranges :: NamesRange(x)) <==> d.ranges != [] by {
      assert ranges == [] || ranges == [ranges[0]];
    }
  }

  /** The decoded item holds what the tree says. */
  lemma TextsMean(v: Json, d: Affected)
    requires v.Obj? && AffectedOk(v) && PlainAffected(v) && LoadedAs(v.members, NO_AFFECTED, d)
    ensures d == Affected(NameIn(v), TextsIn(v), RangesIn(v))
  {
    hide DecodePackage, DecodeVersions, DecodeRanges, Values, PackageOk, VersionsOk, RangesOk, IsNamed, NamesVersion,
      PlainPackage, Spelled, PackageTyped, RangesTyped;
    var packages, versions, ranges :=
      Values(v.members, "package"), Values(v.members, "versions"), Values(v.members, "ranges");
    if packages != [] {
      assert packages[0] in packages;
      PackageValue(packages[0], "");
    }
    if versions != [] {
      assert versions[0] in versions;
      VersionsValue(versions[0]);
      assert d.versions == TextsIn(v);
    }
    if ranges != [] {
      assert ranges[0] in ranges;
      RangesValue(ranges[0]);
    }
  }

  /** A checked entry decodes exactly when its other fields are typed, and is then reported exactly when usable. */
  lemma AffectedLoads(v: Json)
    requires AffectedOk(v) && PlainAffected(v)
    ensures DecodeAffected(v).Some? <==> AffectedTyped(v)
    ensures AffectedTyped(v) ==>
      var d := DecodeAffected(v).value;
      AffectedUsable(v) == (!Blank(d.package) && HasVersionConstraints(d)) &&
      d == Affected(NameIn(v), TextsIn(v), RangesIn(v))
  {
    assert v == Obj(v.members);
    AffectedMembersLoad(v.members, NO_AFFECTED);
    if AffectedTyped(v) {
      UsableMeans(v, DecodeAffected(v).value);
      TextsMean(v, DecodeAffected(v).value);
    }
  }

  // ----- an advisory -----

  lemma {:induction false} ReportConcat(id: string, a: seq<Affected>, b: seq<Affected>)
    ensures Report(id, a + b) == Report(id, a) + Report(id, b)
    decreases |b|
  {
    if b == [] {
      assert a + b == a;
    } else {
      var n := |b| - 1;
      assert (a + b)[..|a + b| - 1] == a + b[..n];
      ReportConcat(id, a, b[..n]);
    }
  }

  lemma {:induction false} ReportAllConcat(a: seq<Advisory>, b: seq<Advisory>)
    ensures ReportAll(a + b) == ReportAll(a) + ReportAll(b)
    decreases |b|
  {
    hide ReportAll, ReportOne;
    if b == [] {
      assert a + b == a;
      assert ReportAll([]) == [] by { NothingReported(); }
    } else {
      var n := |b| - 1;
      ReportAllConcat(a, b[..n]);
      ReportAllSnoc(a + b[..n], b[n]);
      ReportAllSnoc(b[..n], b[n]);
      assert a + b == a + b[..n] + [b[n]] && b == b[..n] + [b[n]];
    }
  }

  lemma {:induction false} AffectedItemsLoad(items: seq<Json>, id: string)
    requires AffectedListOk(Arr(items)) && PlainAffectedList(Arr(items))
    ensures DecodeAffectedItems(items).Some? <==> AffectedListTyped(Arr(items))
    ensures AffectedListTyped(Arr(items)) ==> Report(id, DecodeAffectedItems(items).value) == RecordsOf(id, items)
  {
    hide AffectedOk, PlainAffected, AffectedUsable, DecodeAffected, AffectedTyped, NameIn, TextsIn, RangesIn,
      HasVersionConstraints;
    if items != [] {
      SplitItems(items);
      assert AffectedListTyped(Arr(items)) <==> AffectedTyped(items[0]) && AffectedListTyped(Arr(items[1..]));
      AffectedLoads(items[0]);
      AffectedItemsLoad(items[1..], id);
      if AffectedListTyped(Arr(items)) {
        var d, rest := DecodeAffected(items[0]).value, DecodeAffectedItems(items[1..]).value;
        ReportConcat(id, [d], rest);
        assert [d][..0] == [];
        assert Report(id, []) == [];
      }
    }
  }

  lemma NoValues(name: string)
    ensures Values([], name) == []
  {
  }

  lemma ListIsArray(v: Json)
    ensures AffectedListOk(v) ==> v == Arr(v.items)
  {
  }

  predicate Typed(members: seq<Member>) {
    forall m <- members :: AdvisoryMemberTyped(m)
  }

  /** What the checked fields of an advisory decode to. */
  function Decoded(members: seq<Member>, current: Advisory): Advisory {
    var ids, lists := Values(members, "id"), Values(members, "affected");
    Advisory(TextOf(ids, current.id), if lists == [] then current.affected else DecodeAffectedList(lists[0]).GetOr([]))
  }

  lemma NonblankIsText(v: Json)
    requires IsNonblank(v)
    ensures v.Str?
  {
  }

  lemma ListDecodes(v: Json)
    requires AffectedListOk(v) && PlainAffectedList(v)
    ensures DecodeAffectedList(v).Some? <==> AffectedListTyped(v)
  {
    ListIsArray(v);
    AffectedItemsLoad(v.items, "");
  }

  lemma AdvisoryMemberLoads(m: Member, current: Advisory)
    requires AdvisoryMembersOk([m]) && PlainAdvisory(Obj([m]))
    ensures DecodeAdvisoryMember(m, current) == if AdvisoryMemberTyped(m) then Some(Decoded([m], current)) else None
  {
    hide DecodeAffectedList, EqualFold, Values, AffectedListOk, PlainAffectedList, IsNonblank, IsTextList,
      IsSeverityList, IsMap, IsText, AffectedListTyped;
    OneValue(m, "id");
    OneValue(m, "affected");
    SpelledTail([m], "id");
    SpelledTail([m], "affected");
    NotOtherFields(m.name);
    FoldsDiffer(m.name);
    if m.name == "id" {
      assert m.value in Values([m], "id");
      NonblankIsText(m.value);
    } else if m.name == "affected" {
      assert m.value in Values([m], "affected");
      ListDecodes(m.value);
    }
  }

  lemma AdvisorySplit(members: seq<Member>)
    requires members != [] && AdvisoryMembersOk(members) && PlainAdvisory(Obj(members))
    ensures AdvisoryMembersOk([members[0]]) && PlainAdvisory(Obj([members[0]]))
    ensures AdvisoryMembersOk(members[1..]) && PlainAdvisory(Obj(members[1..]))
  {
    hide EqualFold, Values, AffectedListOk, PlainAffectedList, IsNonblank;
    SplitMembers(members);
    ValuesConcat(members[0], members, "id");
    ValuesConcat(members[0], members, "affected");
  }

  lemma DecodedChains(members: seq<Member>, current: Advisory)
    requires members != [] && AdvisoryMembersOk(members)
    ensures Decoded(members, current) == Decoded(members[1..], Decoded([members[0]], current))
  {
    hide Values, AffectedListOk, IsNonblank, DecodeAffectedList;
    ValuesConcat(members[0], members, "id");
    ValuesConcat(members[0], members, "affected");
    var ids := Values(members, "id");
    assert ids == [] || ids[0] in ids;
    if ids != [] { NonblankIsText(ids[0]); }
  }

  lemma NothingDecoded(current: Advisory)
    ensures Decoded([], current) == current
  {
    NoValues("id");
    NoValues("affected");
  }

  /** The sequential decode of unique, exactly spelled fields is a lookup, if the other fields are typed. */
  lemma {:induction false} AdvisoryMembersLoad(members: seq<Member>, current: Advisory)
    requires AdvisoryMembersOk(members) && PlainAdvisory(Obj(members))
    ensures DecodeAdvisoryMembers(members, current) == if Typed(members) then Some(Decoded(members, current)) else None
  {
    hide DecodeAdvisoryMember, Decoded, AdvisoryMembersOk, PlainAdvisory, AdvisoryMemberTyped;
    if members == [] {
      assert Decoded([], current) == current by { NothingDecoded(current); }
    } else {
      SplitMembers(members);
      AdvisorySplit(members);
      AdvisoryMemberLoads(members[0], current);
      DecodedChains(members, current);
      AdvisoryMembersLoad(members[1..], Decoded([members[0]], current));
    }
  }

  lemma {:induction false} ValueIsMember(members: seq<Member>, name: string, v: Json)
    requires v in Values(members, name)
    ensures Member(name, v) in members
  {
    SplitMembers(members);
    if members[0] != Member(name, v) { ValueIsMember(members[1..], name, v); }
  }

  lemma EntryReports(v: Json)
    requires AdvisoryOk(v) && PlainAdvisory(v) && AdvisoryTyped(v)
    ensures ReportAll([Decoded(v.members, NO_ADVISORY)]) == EntryRecords(v)
  {
    hide AffectedListOk, PlainAffectedList, AffectedListUsable, Values, Spelled, Report, AffectedListTyped,
      AdvisoryFieldTyped;
    var ids, lists := Values(v.members, "id"), Values(v.members, "affected");
    assert lists[0] in lists && ids[0] in ids;
    ListIsArray(lists[0]);
    ValueIsMember(v.members, "affected", lists[0]);
    assert AffectedListTyped(lists[0]);
    AffectedItemsLoad(lists[0].items, IdOf(v));
    var d := Decoded(v.members, NO_ADVISORY);
    assert d.affected == DecodeAffectedItems(lists[0].items).value;
    assert !Blank(d.id);
    assert [d][..0] == [];
    assert ReportAll([]) == [];
    assert ReportAll([d]) == ReportAll([d][..0]) + Report(d.id, d.affected);
  }

  /** An accepted entry without a case variant of a checked field decodes exactly when its other fields are typed, and
      then yields one advisory for each usable affected entry, with the ID, name, versions and ranges of the tree. */
  lemma AcceptedEntryLoads(v: Json)
    requires AdvisoryOk(v) && PlainAdvisory(v)
    ensures DecodeAdvisory(v).Some? <==> AdvisoryTyped(v)
    ensures AdvisoryTyped(v) ==>
      ReportAll([DecodeAdvisory(v).value]) == EntryRecords(v)
  {
    hide AffectedListOk, PlainAffectedList, AffectedListUsable, DecodeAdvisoryMembers, Values, Spelled, Report,
      AdvisoryMemberTyped, AffectedListTyped;
    assert v == Obj(v.members);
    AdvisoryMembersLoad(v.members, NO_ADVISORY);
    if AdvisoryTyped(v) { EntryReports(v); }
  }

  // ----- whole documents -----

  function EntriesOf(doc: Json): seq<Json>
    requires DocumentOk(doc)
  {
    match doc
    case Arr(items) => items
    case Obj(members) =>
      var vulns := Values(members, "vulns");
      assert vulns == [] || vulns[0] in vulns;
      if vulns == [] then [doc] else vulns[0].items
  }

  lemma {:induction false} EntriesLoad(items: seq<Json>)
    requires forall v <- items :: AdvisoryOk(v) && PlainAdvisory(v)
    ensures DecodeAdvisoryItems(items).Some? <==> AllTyped(items)
    ensures AllTyped(items) ==> |DecodeAdvisoryItems(items).value| == |items|
    ensures AllTyped(items) ==> ReportAll(DecodeAdvisoryItems(items).value) == AllRecords(items)
  {
    hide AdvisoryOk, PlainAdvisory, DecodeAdvisory, EntryRecords, AdvisoryTyped, IdOf;
    if items != [] {
      SplitItems(items);
      AcceptedEntryLoads(items[0]);
      EntriesLoad(items[1..]);
      assert AllTyped(items) <==> AdvisoryTyped(items[0]) && AllTyped(items[1..]);
      if AllTyped(items) {
        var d, rest := DecodeAdvisory(items[0]).value, DecodeAdvisoryItems(items[1..]).value;
        ReportAllConcat([d], rest);
      }
    }
  }

  lemma {:induction false} WrappedMembersLoad(members: seq<Member>, current: seq<Advisory>)
    requires Spelled(members, "vulns") && Room(Values(members, "vulns"), false)
    ensures var vulns := Values(members, "vulns");
      DecodeWrappedMembers(members, current) == if vulns == [] then Some(current) else DecodeList(vulns[0])
  {
    hide DecodeList, Spelled, EqualFold;
    if members != [] {
      SpelledTail(members, "vulns");
      if members[0].name == "vulns" {
        assert Values(members, "vulns") == [members[0].value];
        if DecodeList(members[0].value).Some? {
          WrappedMembersLoad(members[1..], DecodeList(members[0].value).value);
        }
      } else {
        WrappedMembersLoad(members[1..], current);
      }
    }
  }

  /** The entries that loading takes from an accepted document when it is not read as a local file. */
  function LoadedEntries(doc: Json): seq<Json>
    requires DocumentOk(doc)
  {
    if TooDeep(doc) then []
    else if doc.Arr? then if AllTyped(doc.items) then doc.items else []
    else if Values(doc.members, "vulns") != [] && EntriesOf(doc) != [] && AllTyped(EntriesOf(doc)) then EntriesOf(doc)
    else if AdvisoryTyped(doc) && AdvisoryMembersComplete(doc.members) then [doc]
    else []
  }

  lemma LoadedEntriesAreOk(doc: Json)
    requires DocumentOk(doc) && PlainDocument(doc)
    ensures forall v <- LoadedEntries(doc) :: AdvisoryOk(v) && PlainAdvisory(v) && AdvisoryTyped(v)
  {
    hide AdvisoryMembersOk, AdvisoryMembersComplete, PlainAdvisory, AdvisoryTyped, TooDeep;
    if doc.Obj? && Values(doc.members, "vulns") != [] {
      var vulns := Values(doc.members, "vulns");
      assert vulns[0] in vulns;
    }
  }

  lemma NoReports(id: string)
    ensures Report(id, []) == []
  {
  }

  lemma NothingUsable(v: Json, id: string)
    requires AffectedListOk(v) && !AffectedListUsable(v)
    ensures RecordsOf(id, v.items) == []
  {
  }

  /** A typed document that is no complete advisory itself reports nothing. */
  lemma IncompleteReportsNothing(doc: Json)
    requires doc.Obj? && AdvisoryMembersOk(doc.members) && PlainAdvisory(doc) && AdvisoryTyped(doc)
    requires !AdvisoryMembersComplete(doc.members)
    ensures ReportAll([Decoded(doc.members, NO_ADVISORY)]) == []
  {
    hide AffectedListOk, PlainAffectedList, Values, Spelled, AffectedListTyped, AdvisoryFieldTyped,
      Report, AffectedUsable;
    var ids, lists := Values(doc.members, "id"), Values(doc.members, "affected");
    var d := Decoded(doc.members, NO_ADVISORY);
    assert [d][..0] == [];
    assert ReportAll([d]) == ReportAll([]) + ReportOne(d);
    assert ReportAll([]) == [] && Blank("");
    if ids != [] {
      assert Report(d.id, []) == [] by { NoReports(d.id); }
      if lists != [] {
        assert lists[0] in lists;
        ListIsArray(lists[0]);
        ValueIsMember(doc.members, "affected", lists[0]);
        assert AffectedListTyped(lists[0]);
        AffectedItemsLoad(lists[0].items, d.id);
        assert !AffectedListUsable(lists[0]);
        NothingUsable(lists[0], d.id);
      }
    }
  }

  /** The single form of an accepted object. */
  lemma SingleFormLoads(doc: Json)
    requires doc.Obj? && DocumentOk(doc) && PlainDocument(doc)
    ensures AdvisoryTyped(doc) && AdvisoryMembersComplete(doc.members) ==>
      AdvisoryOk(doc) && DecodeAdvisory(doc).Some? && ReportAll([DecodeAdvisory(doc).value]) == AllRecords([doc])
    ensures !(AdvisoryTyped(doc) && AdvisoryMembersComplete(doc.members)) ==>
      DecodeAdvisory(doc).None? || ReportAll([DecodeAdvisory(doc).value]) == []
  {
    hide AdvisoryMembersOk, AdvisoryMembersComplete, PlainAdvisory, ReportAll, Decoded, AdvisoryMemberTyped,
      EntryRecords;
    assert doc == Obj(doc.members);
    AdvisoryMembersLoad(doc.members, NO_ADVISORY);
    if AdvisoryTyped(doc) {
      if AdvisoryMembersComplete(doc.members) {
        AcceptedEntryLoads(doc);
        assert [doc][1..] == [];
        assert AllRecords([doc]) == EntryRecords(doc);
      } else {
        IncompleteReportsNothing(doc);
      }
    }
  }

  lemma ListFormOnly(doc: Json)
    requires doc.Arr?
    ensures DecodeWrapped(doc) == None && DecodeAdvisory(doc) == None
  {
  }

  lemma EmptyList()
    ensures DecodeAdvisoryItems([]) == Some([])
  {
  }

  lemma NothingFromTheDeep(doc: Json)
    requires TooDeep(doc)
    ensures ParseDocument(doc) == None
  {
  }

  /** `parseOSVDocument` and `requireAdvisories` on an accepted document. */
  lemma OSVFormsLoad(doc: Json)
    requires DocumentOk(doc) && PlainDocument(doc)
    ensures forall v <- LoadedEntries(doc) :: AdvisoryOk(v)
    ensures LoadedEntries(doc) == [] ==> Required(ParseDocument(doc)).None?
    ensures LoadedEntries(doc) != [] ==>
      Required(ParseDocument(doc)) == Some(AllRecords(LoadedEntries(doc)))
  {
    hide AdvisoryOk, PlainAdvisory, DecodeAdvisoryItems, ReportAll, Spelled, DecodeAdvisory, EntryRecords,
      DecodeWrappedMembers, AdvisoryTyped, AdvisoryMembersComplete, AdvisoryMembersOk, IdOf, TooDeep;
    LoadedEntriesAreOk(doc);
    if TooDeep(doc) {
      NothingFromTheDeep(doc);
    } else if doc.Arr? {
      EntriesLoad(doc.items);
      assert DecodeWrapped(doc) == None && DecodeAdvisory(doc) == None by { ListFormOnly(doc); }
      assert doc.items == [] ==> DecodeList(doc) == Some([]) by { EmptyList(); }
    } else {
      var vulns := Values(doc.members, "vulns");
      WrappedMembersLoad(doc.members, []);
      SingleFormLoads(doc);
      if vulns != [] {
        assert vulns[0] in vulns;
        EntriesLoad(vulns[0].items);
        assert vulns[0].items == [] ==> DecodeList(vulns[0]) == Some([]) by { EmptyList(); }
      }
    }
  }

  /** When a document that the checks accept loads: a document with a local list loads as that list or fails with it;
      any other loads exactly when it has entries to load, and reports each of them. */
  lemma LoadsExactlyWhen(doc: Json)
    requires DocumentOk(doc) && PlainDocument(doc)
    ensures forall v <- LoadedEntries(doc) :: AdvisoryOk(v)
    ensures doc.Obj? && LocalForm(doc) != Some([]) ==>
      Parse(doc) == if LocalForm(doc).Some? then Some(ReportLocal(LocalForm(doc).value)) else None
    ensures doc.Arr? || LocalForm(doc) == Some([]) ==>
      (Parse(doc).Some? <==> LoadedEntries(doc) != []) &&
        (Parse(doc).Some? ==> Parse(doc).value == AllRecords(LoadedEntries(doc)))
  {
    hide DocumentOk, PlainDocument, LoadedEntries, AllRecords, ParseDocument, LocalForm;
    OSVFormsLoad(doc);
  }

  /** All entries of the document load: every decoded field is typed, there is no local list, and there is an entry. */
  predicate Complete(doc: Json)
    requires DocumentOk(doc)
  {
    !TooDeep(doc) && (doc.Arr? || LocalForm(doc) == Some([])) && EntriesOf(doc) != [] && AllTyped(EntriesOf(doc))
  }

  function SizeOfMembers(members: seq<Member>): nat {
    if members == [] then 0 else Size(members[0].value) + 1 + SizeOfMembers(members[1..])
  }

  function Size(v: Json): nat {
    match v
    case Arr(items) => 1 + SizeOfItems(items)
    case Obj(members) => 1 + SizeOfMembers(members)
    case _ => 0
  }

  function SizeOfItems(items: seq<Json>): nat {
    if items == [] then 0 else Size(items[0]) + 1 + SizeOfItems(items[1..])
  }

  lemma SizeOfObject(members: seq<Member>)
    ensures Size(Obj(members)) == 1 + SizeOfMembers(members)
  {
  }

  lemma {:induction false} ValueIsSmaller(members: seq<Member>, v: Json)
    requires exists name :: Member(name, v) in members
    ensures Size(v) < Size(Obj(members))
  {
    hide Size;
    var name :| Member(name, v) in members;
    SplitMembers(members);
    if members[0].value != v { ValueIsSmaller(members[1..], v); }
    assert Size(Obj(members)) == 1 + SizeOfMembers(members) by { SizeOfObject(members); }
    assert Size(Obj(members[1..])) == 1 + SizeOfMembers(members[1..]) by { SizeOfObject(members[1..]); }
  }

  lemma ListOkIsArray(v: Json)
    requires AdvisoryListOk(v)
    ensures v.Arr?
  {
  }

  lemma ItemIsSmaller(v: Json)
    ensures Size(Arr([v])) > Size(v)
  {
    assert [v][1..] == [];
  }

  /** A document is not one of its own wrapped entries. */
  lemma NotItsOwnEntry(doc: Json)
    requires doc.Obj? && DocumentOk(doc) && Values(doc.members, "vulns") != []
    ensures EntriesOf(doc) != [doc]
  {
    hide AdvisoryMembersOk, AdvisoryMembersComplete, AdvisoryListOk, SizeOfItems;
    var vulns := Values(doc.members, "vulns");
    assert vulns[0] in vulns;
    ValueIsMember(doc.members, "vulns", vulns[0]);
    ValueIsSmaller(doc.members, vulns[0]);
    assert vulns[0].Arr? by { ListOkIsArray(vulns[0]); }
    ItemIsSmaller(doc);
    assert vulns[0] == Arr(vulns[0].items);
  }

  /** No entry is lost exactly when the document is complete in this sense. */
  lemma NoEntryIsLostExactlyWhen(doc: Json)
    requires DocumentOk(doc) && PlainDocument(doc)
    ensures forall v <- EntriesOf(doc) :: AdvisoryOk(v)
    ensures Complete(doc) ==> Parse(doc) == Some(AllRecords(EntriesOf(doc)))
    ensures Complete(doc) <==>
      (doc.Arr? || LocalForm(doc) == Some([])) && Parse(doc).Some? && LoadedEntries(doc) == EntriesOf(doc)
  {
    hide PlainAdvisory, Parse, LocalForm, AdvisoryMembersOk, AdvisoryMembersComplete, AllRecords, AdvisoryTyped,
      TooDeep;
    LoadsExactlyWhen(doc);
    if doc.Obj? {
      var vulns := Values(doc.members, "vulns");
      if vulns != [] {
        assert vulns[0] in vulns;
        NotItsOwnEntry(doc);
      }
    }
  }

  // ----- documents that pass the checks and do not load, or not all of them -----

  lemma InFront(m: Member, members: seq<Member>, name: string)
    ensures Values([m] + members, name) ==
      if m.name == name then [m.value] + Values(members, name) else Values(members, name)
  {
    assert ([m] + members)[1..] == members;
  }

  lemma FrontMember(name: string, value: Json, members: seq<Member>)
    requires name != "id" && name != "affected" && name != "vulns" && DocumentOk(Obj(members))
    ensures DocumentOk(Obj([Member(name, value)] + members))
  {
    hide Values, AdvisoryListOk, AffectedListOk, AffectedListUsable, IsNonblank;
    InFront(Member(name, value), members, "id");
    InFront(Member(name, value), members, "affected");
    InFront(Member(name, value), members, "vulns");
  }

  lemma FoldsToItself(name: string)
    ensures EqualFold(name, name)
  {
  }

  lemma OtherNames()
    ensures forall name <- ["id", "affected", "vulns", "advisories"] ::
      !EqualFold("modified", name) && !EqualFold("database_specific", name)
    ensures !EqualFold("database_specific", "modified")
  {
    assert |Lower("advisories")| == 10 && |Lower("modified")| == 8 && |Lower("database_specific")| == 17;
    assert |Lower("id")| == 2 && |Lower("vulns")| == 5;
    assert Lower("modified")[0] == 'm' && Lower("affected")[0] == 'a' && |Lower("affected")| == 8;
  }

  lemma NumberIsNoText(digits: string)
    ensures !IsText(Number(digits))
  {
  }

  lemma {:induction false} NoLocalFields(members: seq<Member>, list: Slice)
    requires forall m <- members :: !EqualFold(m.name, "advisories")
    ensures DecodeLocalFields(members, list) == Some(list)
  {
    hide EqualFold;
    if members != [] { NoLocalFields(members[1..], list); }
  }

  /** Passed by where the document is checked, and given a type where it is decoded. */
  predicate IsUncheckedField(m: Member) {
    !EqualFold(m.name, "id") && !EqualFold(m.name, "affected") && !EqualFold(m.name, "vulns") &&
      !EqualFold(m.name, "advisories")
  }

  lemma UncheckedIsOther(m: Member)
    requires IsUncheckedField(m)
    ensures m.name != "id" && m.name != "affected" && m.name != "vulns"
  {
    FoldsToItself(m.name);
  }

  /** A field that does not have its type fails the advisory whatever else is in it. */
  lemma UntypedFieldFails(m: Member, members: seq<Member>)
    requires DocumentOk(Obj(members)) && Spelled(members, "vulns") && Values(members, "vulns") == []
    requires forall m <- members :: !EqualFold(m.name, "advisories")
    requires IsUncheckedField(m) && !AdvisoryFieldTyped(m)
    ensures var doc := Obj([m] + members); DocumentOk(doc) && Parse(doc) == None
  {
    hide Values, Spelled, AdvisoryMembersOk, AdvisoryMembersComplete, EqualFold, ReportAll, AdvisoryFieldTyped, TooDeep;
    var doc := Obj([m] + members);
    UncheckedIsOther(m);
    FrontMember(m.name, m.value, members);
    assert ([m] + members)[1..] == members;
    WrappedMembersLoad(members, []);
    assert DecodeAdvisoryMember(m, NO_ADVISORY) == None;
    NoLocalFields([m] + members, Slice([], []));
    assert DecodeAdvisory(doc) == None;
    assert DecodeWrappedMembers([m] + members, []) == DecodeWrappedMembers(members, []);
    assert ParseDocument(doc) == None;
  }

  /** A number where `modified` should be a text: the checks pass the field by, and decoding fails the advisory. */
  lemma MistypedFieldFails(members: seq<Member>, digits: string)
    requires DocumentOk(Obj(members)) && Spelled(members, "vulns") && Values(members, "vulns") == []
    requires forall m <- members :: !EqualFold(m.name, "advisories")
    ensures var doc := Obj([Member("modified", Number(digits))] + members); DocumentOk(doc) && Parse(doc) == None
  {
    hide DocumentOk, Spelled, Values, EqualFold, IsText, Parse;
    OtherNames();
    FoldsToItself("modified");
    NumberIsNoText(digits);
    UntypedFieldFails(Member("modified", Number(digits)), members);
  }

  function Holding(name: string, digits: string): Member {
    Member("database_specific", Obj([Member(name, Number(digits))]))
  }

  lemma HoldingIsNoMap(name: string, digits: string)
    requires !Float64.Fits(digits)
    ensures !IsMap(Holding(name, digits).value)
  {
    hide Float64.Fits;
    var inner := Obj([Member(name, Number(digits))]);
    assert inner.members[0] in inner.members;
    assert !NumbersFit(inner.members[0].value);
  }

  /** A number without a float64 anywhere under a field of any type, `1e999` being one: the checks keep its text and
      decoding fails the advisory. */
  lemma HugeNumberFails(members: seq<Member>, name: string, digits: string)
    requires DocumentOk(Obj(members)) && Spelled(members, "vulns") && Values(members, "vulns") == []
    requires forall m <- members :: !EqualFold(m.name, "advisories")
    ensures !Float64.Fits("1e999")
    ensures !Float64.Fits(digits) ==>
      var doc := Obj([Holding(name, digits)] + members); DocumentOk(doc) && Parse(doc) == None && !AdvisoryTyped(doc)
  {
    hide DocumentOk, Spelled, Values, EqualFold, IsMap, Parse, Float64.Fits;
    Float64.HugeIsOut();
    if !Float64.Fits(digits) {
      OtherNames();
      FoldsToItself("database_specific");
      HoldingIsNoMap(name, digits);
      var m := Holding(name, digits);
      assert !AdvisoryFieldTyped(m);
      UntypedFieldFails(m, members);
      assert m in [m] + members;
    }
  }

  function Nested(depth: nat): Json {
    if depth == 0 then Null else Arr([Nested(depth - 1)])
  }

  lemma {:induction false} EveryDepthOccurs(depth: nat)
    ensures Depth(Nested(depth)) == depth
  {
    if depth > 0 {
      EveryDepthOccurs(depth - 1);
      var items := [Nested(depth - 1)];
      assert items[1..] == [] && DepthOfItems([]) == 0;
      assert DepthOfItems(items) == Depth(items[0]);
      assert Depth(Arr(items)) == 1 + DepthOfItems(items);
    }
  }

  lemma DeeperThanItsFront(m: Member, members: seq<Member>)
    ensures Depth(Obj([m] + members)) > Depth(m.value)
  {
    assert ([m] + members)[0] == m;
    assert DepthOfMembers([m] + members) >= Depth(m.value);
  }

  lemma DeepFails(doc: Json)
    requires doc.Obj? && TooDeep(doc)
    ensures Parse(doc) == None
  {
  }

  /** A value nested too deep in an unchecked field: the checks read it token by token to its end, and no form of the
      document can be decoded. */
  lemma DeepValueFails(members: seq<Member>, name: string, value: Json)
    requires DocumentOk(Obj(members)) && name != "id" && name != "affected" && name != "vulns"
    ensures Depth(Nested(MAX_NESTING)) == MAX_NESTING
    ensures Depth(value) >= MAX_NESTING ==>
      var doc := Obj([Member(name, value)] + members); DocumentOk(doc) && Parse(doc) == None
  {
    hide DocumentOk, Parse, Depth, Nested;
    EveryDepthOccurs(MAX_NESTING);
    FrontMember(name, value, members);
    if Depth(value) >= MAX_NESTING {
      DeeperThanItsFront(Member(name, value), members);
      DeepFails(Obj([Member(name, value)] + members));
    }
  }

  function Wrapper(entries: seq<Json>): Json {
    Obj([Member("vulns", Arr(entries))])
  }

  lemma WrapperValues(entries: seq<Json>)
    ensures var members := Wrapper(entries).members;
      Values(members, "id") == [] && Values(members, "affected") == [] && Values(members, "vulns") == [Arr(entries)]
    ensures DecodeLocal(Wrapper(entries)) == Some([])
  {
    var m := Member("vulns", Arr(entries));
    OneValue(m, "id");
    OneValue(m, "affected");
    OneValue(m, "vulns");
    assert [m][1..] == [];
    assert |Lower("vulns")| == 5 && |Lower("advisories")| == 10;
    NoLocalFields([m], Slice([], []));
  }

  lemma WrapperIsPlain(entries: seq<Json>)
    requires forall v <- entries :: AdvisoryOk(v) && PlainAdvisory(v)
    ensures DocumentOk(Wrapper(entries)) && PlainDocument(Wrapper(entries)) && EntriesOf(Wrapper(entries)) == entries
    ensures !AdvisoryMembersComplete(Wrapper(entries).members)
  {
    hide AdvisoryOk;
    WrapperValues(entries);
    assert |Lower("vulns")| == 5 && |Lower("id")| == 2 && |Lower("affected")| == 8;
  }

  /** One mistyped field in one wrapped entry loses every entry of the wrapper. */
  lemma MistypedEntryLosesAll(entries: seq<Json>)
    requires (forall v <- entries :: AdvisoryOk(v) && PlainAdvisory(v)) && !AllTyped(entries)
    ensures DocumentOk(Wrapper(entries)) && EntriesOf(Wrapper(entries)) == entries && Parse(Wrapper(entries)) == None
  {
    hide AdvisoryOk, PlainAdvisory, AllTyped, AdvisoryMembersComplete, Wrapper, Parse, DecodeLocal;
    WrapperIsPlain(entries);
    WrapperValues(entries);
    LoadsExactlyWhen(Wrapper(entries));
  }

  lemma EmptyWrapperFails()
    ensures DocumentOk(Wrapper([])) && Parse(Wrapper([])) == None
  {
    hide Wrapper, DecodeLocal, AdvisoryMembersComplete, Parse, AdvisoryTyped, AdvisoryMembersOk, PlainDocument,
      DocumentOk, AllRecords;
    WrapperIsPlain([]);
    WrapperValues([]);
    LoadsExactlyWhen(Wrapper([]));
  }

  /** The two accepted documents without entries fail to load. */
  lemma EmptyDocumentsFail()
    ensures DocumentOk(Arr([])) && Parse(Arr([])) == None
    ensures DocumentOk(Wrapper([])) && Parse(Wrapper([])) == None
  {
    hide Wrapper, DecodeLocal, AdvisoryOk, Parse, PlainAdvisory, AllRecords, Values;
    EmptyWrapperFails();
    LoadsExactlyWhen(Arr([]));
  }

  lemma OneLocal()
    ensures DecodeLocalList(Arr([Obj([])]), Slice([], [])) == Some(Slice([Local("", "")], []))
  {
    var v := Obj([]);
    var items := [v];
    assert items[1..] == [] && items[0] == v;
    assert DecodeLocalMembers(v.members, Local("", "")) == Some(Local("", ""));
    assert DecodeLocalAdvisory(v, Local("", "")) == Some(Local("", ""));
    assert DecodeLocalItems(items[1..], []) == Some([]);
    assert DecodeLocalItems(items, []) == Some([Local("", "")] + []);
    assert [Local("", "")] + [] == [Local("", "")];
  }

  /** A nonempty "advisories" list in front of an accepted object takes the place of all its entries. */
  lemma LocalListHidesEntries(members: seq<Member>)
    requires DocumentOk(Obj(members)) && forall m <- members :: !EqualFold(m.name, "advisories")
    ensures var doc := Obj([Member("advisories", Arr([Obj([])]))] + members);
      DocumentOk(doc) && Parse(doc) == if TooDeep(doc) then None else Some([Reported("", "", [], [])])
  {
    hide Values, AdvisoryMembersOk, AdvisoryMembersComplete, EqualFold, TooDeep;
    var m := Member("advisories", Arr([Obj([])]));
    FrontMember("advisories", m.value, members);
    assert ([m] + members)[1..] == members;
    assert EqualFold("advisories", "advisories") by { FoldsToItself("advisories"); }
    var list := [Local("", "")];
    assert DecodeLocalList(m.value, Slice([], [])) == Some(Slice(list, [])) by { OneLocal(); }
    NoLocalFields(members, Slice(list, []));
    assert DecodeLocal(Obj([m] + members)) == Some(list);
    assert ReportLocal(list) == [Reported("", "", [], [])];
  }

  // ----- local advisory files -----

  /** The text of the first field of that name, or nothing. */
  function LocalText(v: Json, name: string): string {
    if v.Obj? && Values(v.members, name) != [] && Values(v.members, name)[0].Str? then Values(v.members, name)[0].text
    else ""
  }

  function LocalRecords(items: seq<Json>): (r: seq<Reported>)
    ensures |r| == |items|
    ensures forall i :: 0 <= i < |items| ==>
      r[i] == Reported(LocalText(items[i], "id"), LocalText(items[i], "package"), [], [])
  {
    seq(|items|, i requires 0 <= i < |items| =>
      Reported(LocalText(items[i], "id"), LocalText(items[i], "package"), [], []))
  }

  /** A local advisory whose fields are typed, its ID and package at most once and spelled exactly. */
  predicate PlainLocal(v: Json) {
    v.Obj? && Spelled(v.members, "id") && Spelled(v.members, "package") &&
    |Values(v.members, "id")| <= 1 && |Values(v.members, "package")| <= 1 &&
    (forall x <- Values(v.members, "id") :: x.Str?) && (forall x <- Values(v.members, "package") :: x.Str?) &&
    forall m <- v.members :: m.name != "id" && m.name != "package" ==> LocalFieldTyped(m)
  }

  lemma IdIsNoPackage(name: string)
    ensures EqualFold(name, "id") ==> !EqualFold(name, "package")
  {
    assert |Lower("package")| == 7 && |Lower("id")| == 2;
  }

  lemma LocalValues(members: seq<Member>, name: string)
    requires members != []
    ensures Values(members, name) ==
      (if members[0].name == name then [members[0].value] else []) + Values(members[1..], name)
  {
  }

  lemma LocalTail(members: seq<Member>)
    requires members != [] && PlainLocal(Obj(members))
    ensures PlainLocal(Obj(members[1..]))
    ensures EqualFold(members[0].name, "id") <==> members[0].name == "id"
    ensures EqualFold(members[0].name, "package") <==> members[0].name == "package"
    ensures forall name <- ["id", "package"] ::
      Values(members, name) == (if members[0].name == name then [members[0].value] else []) + Values(members[1..], name)
  {
    hide EqualFold, Values, LocalFieldTyped;
    SpelledTail(members, "id");
    SpelledTail(members, "package");
    SplitMembers(members);
    LocalValues(members, "id");
    LocalValues(members, "package");
  }

  lemma {:induction false} LocalMembersLoad(members: seq<Member>, current: Local)
    requires PlainLocal(Obj(members))
    ensures var ids, packages := Values(members, "id"), Values(members, "package");
      DecodeLocalMembers(members, current) == Some(Local(
        if ids == [] then current.id else LocalText(Obj(members), "id"),
        if packages == [] then current.package else LocalText(Obj(members), "package")))
  {
    hide EqualFold, LocalFieldTyped, Spelled;
    if members != [] {
      var m := members[0];
      LocalTail(members);
      IdIsNoPackage(m.name);
      assert m in members;
      assert m.name == "id" ==> m.value in Values(members, "id");
      assert m.name == "package" ==> m.value in Values(members, "package");
      var next := DecodeLocalMember(m, current).value;
      LocalMembersLoad(members[1..], next);
    }
  }

  lemma LocalIsObject(v: Json)
    requires PlainLocal(v)
    ensures v.Obj?
  {
  }

  lemma LocalItemLoads(v: Json)
    requires PlainLocal(v)
    ensures DecodeLocalAdvisory(v, Local("", "")) == Some(Local(LocalText(v, "id"), LocalText(v, "package")))
  {
    hide Values, Spelled, LocalFieldTyped, DecodeLocalMembers;
    assert v == Obj(v.members);
    LocalMembersLoad(v.members, Local("", ""));
  }

  lemma {:induction false} LocalItemsLoad(items: seq<Json>)
    requires forall x <- items :: PlainLocal(x)
    ensures DecodeLocalItems(items, []).Some? && |DecodeLocalItems(items, []).value| == |items|
    ensures forall i :: 0 <= i < |items| ==>
      DecodeLocalItems(items, []).value[i] == Local(LocalText(items[i], "id"), LocalText(items[i], "package"))
  {
    hide PlainLocal, DecodeLocalMembers, Values;
    if items != [] {
      assert items[0] in items;
      assert items[0] == Obj(items[0].members) by { LocalIsObject(items[0]); }
      LocalItemLoads(items[0]);
      LocalItemsLoad(items[1..]);
    }
  }

  lemma {:induction false} NameHasValue(members: seq<Member>, m: Member)
    requires m in members
    ensures m.value in Values(members, m.name)
  {
    SplitMembers(members);
    if m != members[0] { NameHasValue(members[1..], m); }
  }

  lemma {:induction false} LocalFieldsLoad(members: seq<Member>, items: seq<Json>)
    requires Spelled(members, "advisories") && Values(members, "advisories") == [Arr(items)]
    ensures DecodeLocalFields(members, Slice([], [])) == DecodeLocalList(Arr(items), Slice([], []))
  {
    hide EqualFold, DecodeLocalList;
    SpelledTail(members, "advisories");
    LocalValues(members, "advisories");
    if members[0].name == "advisories" {
      assert Values(members, "advisories")[0] == members[0].value;
      assert Values(members[1..], "advisories") == [];
      FoldsToItself("advisories");
      forall m | m in members[1..] ensures !EqualFold(m.name, "advisories") {
        if EqualFold(m.name, "advisories") { NameHasValue(members[1..], m); }
      }
      var list := DecodeLocalList(Arr(items), Slice([], []));
      if list.Some? { NoLocalFields(members[1..], list.value); }
    } else {
      LocalFieldsLoad(members[1..], items);
    }
  }

  /** A file with one list of such advisories reports the ID and the package of each, in order. */
  lemma LocalListLoads(members: seq<Member>, items: seq<Json>)
    requires Spelled(members, "advisories") && Values(members, "advisories") == [Arr(items)] && items != []
    requires forall x <- items :: PlainLocal(x)
    ensures !TooDeep(Obj(members)) ==> Parse(Obj(members)) == Some(LocalRecords(items))
  {
    hide TooDeep, PlainLocal, DecodeLocalItems, LocalText, DecodeLocalFields;
    LocalFieldsLoad(members, items);
    LocalItemsLoad(items);
    var list := DecodeLocalItems(items, []).value;
    assert DecodeLocalList(Arr(items), Slice([], [])) == Some(Slice(list, [])) by {
      var places: seq<Local> := [];
      assert [] + [] == places;
    }
    assert DecodeLocal(Obj(members)) == Some(list);
    assert ReportLocal(list) == LocalRecords(items);
  }

  lemma {:induction false} Behind(members: seq<Member>, m: Member, name: string)
    requires m.name != name
    ensures Values(members + [m], name) == Values(members, name)
  {
    if members == [] {
      assert [] + [m] == [m];
      OneValue(m, name);
    } else {
      assert (members + [m])[1..] == members[1..] + [m];
      Behind(members[1..], m, name);
    }
  }

  lemma {:induction false} LastIdStays(members: seq<Member>, m: Member, current: Advisory)
    requires EqualFold(m.name, "id") && m.value == Str("")
    ensures var r := DecodeAdvisoryMembers(members + [m], current); r.Some? ==> r.value.id == ""
  {
    hide EqualFold, DecodeAffectedList, AdvisoryFieldTyped;
    if members == [] {
      assert ([] + [m])[1..] == [];
    } else {
      assert (members + [m])[1..] == members[1..] + [m];
      var next := DecodeAdvisoryMember(members[0], current);
      if next.Some? { LastIdStays(members[1..], m, next.value); }
    }
  }

  lemma CapitalID()
    ensures EqualFold("ID", "id") && !EqualFold("ID", "vulns") && !EqualFold("ID", "advisories")
  {
    assert Lower("ID") == "id" && Lower("id") == "id";
    assert |Lower("vulns")| == 5 && |Lower("advisories")| == 10;
  }

  lemma SpelledBehind(members: seq<Member>, m: Member, name: string)
    requires Spelled(members, name) && !EqualFold(m.name, name)
    ensures Spelled(members + [m], name)
  {
    hide EqualFold;
  }

  /** A later field whose name differs from `id` in case alone is passed by and overwrites the decoded ID: whatever the
      accepted advisory, it is lost, and the document fails to load. */
  lemma CaseVariantLosesTheEntry(members: seq<Member>)
    requires DocumentOk(Obj(members)) && Spelled(members, "vulns") && Values(members, "vulns") == []
    requires forall m <- members :: !EqualFold(m.name, "advisories")
    ensures var doc := Obj(members + [Member("ID", Str(""))]); DocumentOk(doc) && Parse(doc) == None
  {
    hide Values, Spelled, EqualFold, AffectedListOk, AffectedListUsable, IsNonblank, DecodeAdvisoryMembers,
      DecodeWrappedMembers, Report;
    var m := Member("ID", Str(""));
    var all := members + [m];
    Behind(members, m, "id");
    Behind(members, m, "affected");
    Behind(members, m, "vulns");
    CapitalID();
    NoLocalFields(all, Slice([], []));
    assert Spelled(all, "vulns") by { SpelledBehind(members, m, "vulns"); }
    WrappedMembersLoad(all, []);
    LastIdStays(members, m, NO_ADVISORY);
    var decoded := DecodeAdvisory(Obj(all));
    if decoded.Some? {
      var d := decoded.value;
      assert Blank("");
      assert [d][..0] == [];
      assert ReportAll([]) == [];
      assert ReportAll([d]) == ReportAll([d][..0]) + [];
    }
  }
}
