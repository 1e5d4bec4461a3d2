/** internal/advisory/load.go: the Go types that documents are decoded into, and which JSON trees fit them. Decoding
    succeeds on exactly these. */
module OsvSchema {
  import opened Strings
  import opened Results
  import opened OsvTrees
  import opened OsvLoad
  import opened OsvComplete
  import Float64

  /** A Go type as `encoding/json` sees it; the names of fields are in lower case. */
  datatype GoType = Text | AnyMap | List(element: GoType) | Struct(fields: map<string, GoType>)

  const SEVERITY := Struct(map["type" := Text, "score" := Text])
  const EVENT := Struct(map["introduced" := Text, "fixed" := Text, "last_affected" := Text, "limit" := Text])
  const RANGE := Struct(map["type" := Text, "events" := List(EVENT)])
  const PACKAGE := Struct(map["ecosystem" := Text, "name" := Text])

  const AFFECTED := Struct(map[
    "package" := PACKAGE, "versions" := List(Text), "ranges" := List(RANGE), "ecosystem_specific" := AnyMap,
    "database_specific" := AnyMap])

  const ADVISORY := Struct(map[
    "id" := Text, "aliases" := List(Text), "affected" := List(AFFECTED), "severity" := List(SEVERITY),
    "database_specific" := AnyMap, "modified" := Text, "published" := Text])
  const WRAPPED := Struct(map["vulns" := List(ADVISORY)])

  const LOCAL := Struct(map[
    "id" := Text, "package" := Text, "ecosystem" := Text, "severity" := Text, "fixedversion" := Text, "source" := Text,
    "aliases" := List(Text)])
  const LOCAL_FILE := Struct(map["advisories" := List(LOCAL)])

  function NumbersInItems(items: seq<Json>): seq<string> {
    if items == [] then [] else NumbersIn(items[0]) + NumbersInItems(items[1..])
  }

  /** Every number in the value. */
  function NumbersIn(v: Json): seq<string> {
    match v
    case Number(digits) => [digits]
    case Arr(items) => NumbersInItems(items)
    case Obj(members) => NumbersInMembers(members)
    case _ => []
  }

  function NumbersInMembers(members: seq<Member>): seq<string> {
    if members == [] then [] else NumbersIn(members[0].value) + NumbersInMembers(members[1..])
  }

  /** The value fits the type: null fits every type, a field may have any letter case, and a field the type does not
      have may hold anything. */
  predicate FitsType(v: Json, t: GoType)
    decreases v
  {
    v.Null? ||
    match t
    case Text => v.Str?
    case AnyMap => v.Obj? && forall digits <- NumbersIn(v) :: Float64.Fits(digits)
    case List(element) => v.Arr? && forall x <- v.items :: FitsType(x, element)
    case Struct(fields) =>
      v.Obj? && forall m <- v.members :: Lower(m.name) in fields ==> FitsType(m.value, fields[Lower(m.name)])
  }

  // ----- numbers -----

  lemma {:induction false} NumbersFoundInItems(items: seq<Json>)
    ensures (forall x <- items :: NumbersFit(x)) <==> forall digits <- NumbersInItems(items) :: Float64.Fits(digits)
    decreases items
  {
    hide NumbersFit, NumbersIn, Float64.Fits;
    if items != [] {
      NumbersFound(items[0]);
      NumbersFoundInItems(items[1..]);
      assert items == [items[0]] + items[1..];
    }
  }

  lemma {:induction false} NumbersFound(v: Json)
    ensures NumbersFit(v) <==> forall digits <- NumbersIn(v) :: Float64.Fits(digits)
    decreases v
  {
    hide Float64.Fits;
    match v
    case Number(digits) => assert digits in NumbersIn(v);
    case Arr(items) => NumbersFoundInItems(items);
    case Obj(members) => NumbersFoundInMembers(members);
    case _ =>
  }

  lemma {:induction false} NumbersFoundInMembers(members: seq<Member>)
    ensures (forall m <- members :: NumbersFit(m.value)) <==>
      forall digits <- NumbersInMembers(members) :: Float64.Fits(digits)
    decreases members
  {
    hide NumbersFit, NumbersIn, Float64.Fits;
    if members != [] {
      NumbersFound(members[0].value);
      NumbersFoundInMembers(members[1..]);
      assert members == [members[0]] + members[1..];
    }
  }

  // ----- the types of fields that are not followed further -----

  lemma SameFold(name: string, known: string)
    requires Lower(known) == known
    ensures EqualFold(name, known) <==> Lower(name) == known
  {
  }

  /** Fields of texts, each known by its name. */
  predicate TextFields(members: seq<Member>, fields: map<string, GoType>) {
    forall name <- fields :: fields[name] == Text && TextField(members, name)
  }

  lemma TextsFit(members: seq<Member>, fields: map<string, GoType>)
    requires forall name <- fields :: fields[name] == Text && Lower(name) == name
    ensures TextFields(members, fields) <==> FitsType(Obj(members), Struct(fields))
  {
    if TextFields(members, fields) {
      forall m | m in members && Lower(m.name) in fields ensures FitsType(m.value, fields[Lower(m.name)]) {
        assert TextField(members, Lower(m.name));
      }
    }
    if FitsType(Obj(members), Struct(fields)) {
      forall name | name in fields ensures TextField(members, name) {
        forall m | m in members && EqualFold(m.name, name) ensures IsText(m.value) {
          assert Lower(m.name) in fields && fields[Lower(m.name)] == Text;
          assert FitsType(m.value, Text);
        }
      }
    }
  }

  lemma KnownNames()
    ensures Lower("type") == "type" && Lower("score") == "score" && Lower("introduced") == "introduced"
    ensures Lower("fixed") == "fixed" && Lower("last_affected") == "last_affected" && Lower("limit") == "limit"
  {
  }

  lemma NoObject(v: Json, fields: map<string, GoType>)
    requires !v.Obj?
    ensures FitsType(v, Struct(fields)) <==> v.Null?
  {
  }

  lemma SeverityFits(v: Json)
    ensures IsSeverity(v) <==> FitsType(v, SEVERITY)
  {
    hide TextField, FitsType, Lower;
    KnownNames();
    if v.Obj? {
      TextsFit(v.members, SEVERITY.fields);
      assert TextFields(v.members, SEVERITY.fields) <==> TextField(v.members, "type") && TextField(v.members, "score");
    } else {
      NoObject(v, SEVERITY.fields);
    }
  }

  lemma EventFits(v: Json)
    ensures IsEvent(v) <==> FitsType(v, EVENT)
  {
    hide TextField, FitsType, Lower;
    KnownNames();
    if v.Obj? {
      TextsFit(v.members, EVENT.fields);
      assert TextFields(v.members, EVENT.fields) <==>
        TextField(v.members, "introduced") && TextField(v.members, "fixed") &&
        TextField(v.members, "last_affected") && TextField(v.members, "limit");
    } else {
      NoObject(v, EVENT.fields);
    }
  }

  lemma EventsFit(v: Json)
    ensures IsEventList(v) <==> FitsType(v, List(EVENT))
  {
    hide IsEvent;
    forall x: Json ensures IsEvent(x) <==> FitsType(x, EVENT) { EventFits(x); }
  }

  lemma SeveritiesFit(v: Json)
    ensures IsSeverityList(v) <==> FitsType(v, List(SEVERITY))
  {
    hide IsSeverity;
    forall x: Json ensures IsSeverity(x) <==> FitsType(x, SEVERITY) { SeverityFits(x); }
  }

  lemma TextListFits(v: Json)
    ensures IsTextList(v) <==> FitsType(v, List(Text))
  {
    forall x: Json ensures IsText(x) <==> FitsType(x, Text) {}
  }

  lemma MapFits(v: Json)
    ensures IsMap(v) <==> FitsType(v, AnyMap)
  {
    hide NumbersFit, Float64.Fits;
    NumbersFound(v);
  }

  lemma RangeFits(v: Json)
    ensures IsRange(v) <==> FitsType(v, RANGE)
  {
    hide IsEventList, Lower;
    if v.Obj? {
      forall m | m in v.members
        ensures (EqualFold(m.name, "type") ==> IsText(m.value)) &&
          (EqualFold(m.name, "events") ==> IsEventList(m.value))
          <==> (Lower(m.name) in RANGE.fields ==> FitsType(m.value, RANGE.fields[Lower(m.name)]))
      {
        SameFold(m.name, "type");
        SameFold(m.name, "events");
        EventsFit(m.value);
      }
    } else {
      NoObject(v, RANGE.fields);
    }
  }

  // ----- what is decoded -----

  predicate MemberFits(m: Member, fields: map<string, GoType>) {
    Lower(m.name) in fields ==> FitsType(m.value, fields[Lower(m.name)])
  }

  lemma StructFits(members: seq<Member>, fields: map<string, GoType>)
    ensures FitsType(Obj(members), Struct(fields)) <==> forall m <- members :: MemberFits(m, fields)
  {
  }

  lemma MembersFit(members: seq<Member>, fields: map<string, GoType>)
    requires members != []
    ensures (forall m <- members :: MemberFits(m, fields)) <==>
      MemberFits(members[0], fields) && forall m <- members[1..] :: MemberFits(m, fields)
  {
    assert members == [members[0]] + members[1..];
  }

  lemma TextDecodes(v: Json, current: string)
    ensures DecodeText(v, current).Some? <==> FitsType(v, Text)
  {
  }

  lemma {:induction false} TextsDecode(items: seq<Json>)
    ensures DecodeTexts(items).Some? <==> forall x <- items :: FitsType(x, Text)
  {
    hide DecodeText, FitsType;
    if items != [] {
      TextDecodes(items[0], "");
      TextsDecode(items[1..]);
      assert items == [items[0]] + items[1..];
    }
  }

  lemma VersionsDecode(v: Json)
    ensures DecodeVersions(v).Some? <==> FitsType(v, List(Text))
  {
    hide DecodeTexts;
    if v.Arr? { TextsDecode(v.items); }
  }

  lemma RangesDecode(v: Json)
    ensures DecodeRanges(v).Some? <==> FitsType(v, List(RANGE))
  {
    hide IsRange;
    forall x: Json ensures IsRange(x) <==> FitsType(x, RANGE) { RangeFits(x); }
  }

  lemma PackageMemberDecodes(m: Member, name: string)
    ensures DecodePackageMember(m, name).Some? <==> MemberFits(m, PACKAGE.fields)
  {
    hide Lower, EqualFold;
    SameFold(m.name, "name");
    SameFold(m.name, "ecosystem");
  }

  lemma {:induction false} PackageMembersDecode(members: seq<Member>, name: string)
    ensures DecodePackageMembers(members, name).Some? <==> forall m <- members :: MemberFits(m, PACKAGE.fields)
  {
    hide DecodePackageMember, MemberFits;
    if members != [] {
      MembersFit(members, PACKAGE.fields);
      PackageMemberDecodes(members[0], name);
      var next := DecodePackageMember(members[0], name);
      if next.Some? { PackageMembersDecode(members[1..], next.value); }
    }
  }

  lemma PackageDecodes(v: Json, name: string)
    ensures DecodePackage(v, name).Some? <==> FitsType(v, PACKAGE)
  {
    hide DecodePackageMembers, MemberFits, FitsType;
    if v.Obj? {
      PackageMembersDecode(v.members, name);
      StructFits(v.members, PACKAGE.fields);
    } else {
      NoObject(v, PACKAGE.fields);
    }
  }

  lemma AffectedMemberDecodes(m: Member, current: Affected)
    ensures DecodeAffectedMember(m, current).Some? <==> MemberFits(m, AFFECTED.fields)
  {
    hide Lower, EqualFold, DecodePackage, DecodeVersions, DecodeRanges, IsMap, FitsType;
    SameFold(m.name, "package");
    SameFold(m.name, "versions");
    SameFold(m.name, "ranges");
    SameFold(m.name, "ecosystem_specific");
    SameFold(m.name, "database_specific");
    PackageDecodes(m.value, current.package);
    VersionsDecode(m.value);
    RangesDecode(m.value);
    MapFits(m.value);
  }

  lemma {:induction false} AffectedMembersDecode(members: seq<Member>, current: Affected)
    ensures DecodeAffectedMembers(members, current).Some? <==> forall m <- members :: MemberFits(m, AFFECTED.fields)
  {
    hide DecodeAffectedMember, MemberFits;
    if members != [] {
      MembersFit(members, AFFECTED.fields);
      AffectedMemberDecodes(members[0], current);
      var next := DecodeAffectedMember(members[0], current);
      if next.Some? { AffectedMembersDecode(members[1..], next.value); }
    }
  }

  lemma AffectedDecodes(v: Json)
    ensures DecodeAffected(v).Some? <==> FitsType(v, AFFECTED)
  {
    hide DecodeAffectedMembers, MemberFits, FitsType;
    if v.Obj? {
      AffectedMembersDecode(v.members, NO_AFFECTED);
      StructFits(v.members, AFFECTED.fields);
    } else {
      NoObject(v, AFFECTED.fields);
    }
  }

  lemma {:induction false} AffectedItemsDecode(items: seq<Json>)
    ensures DecodeAffectedItems(items).Some? <==> forall x <- items :: FitsType(x, AFFECTED)
  {
    hide DecodeAffected, FitsType;
    if items != [] {
      AffectedDecodes(items[0]);
      AffectedItemsDecode(items[1..]);
      assert items == [items[0]] + items[1..];
    }
  }

  lemma AffectedListDecodes(v: Json)
    ensures DecodeAffectedList(v).Some? <==> FitsType(v, List(AFFECTED))
  {
    hide DecodeAffectedItems;
    if v.Arr? { AffectedItemsDecode(v.items); }
  }

  lemma TextFits(v: Json)
    ensures IsText(v) <==> FitsType(v, Text)
  {
  }

  lemma AdvisoryMemberDecodes(m: Member, current: Advisory)
    ensures DecodeAdvisoryMember(m, current).Some? <==> MemberFits(m, ADVISORY.fields)
  {
    hide Lower, EqualFold, DecodeText, DecodeAffectedList, IsMap, IsText, IsTextList, IsSeverityList, FitsType;
    SameFold(m.name, "id");
    SameFold(m.name, "affected");
    SameFold(m.name, "aliases");
    SameFold(m.name, "severity");
    SameFold(m.name, "database_specific");
    SameFold(m.name, "modified");
    SameFold(m.name, "published");
    TextDecodes(m.value, current.id);
    TextFits(m.value);
    AffectedListDecodes(m.value);
    TextListFits(m.value);
    SeveritiesFit(m.value);
    MapFits(m.value);
  }

  lemma {:induction false} AdvisoryMembersDecode(members: seq<Member>, current: Advisory)
    ensures DecodeAdvisoryMembers(members, current).Some? <==> forall m <- members :: MemberFits(m, ADVISORY.fields)
  {
    hide DecodeAdvisoryMember, MemberFits;
    if members != [] {
      MembersFit(members, ADVISORY.fields);
      AdvisoryMemberDecodes(members[0], current);
      var next := DecodeAdvisoryMember(members[0], current);
      if next.Some? { AdvisoryMembersDecode(members[1..], next.value); }
    }
  }

  /** An entry decodes exactly when it fits the type of an advisory, whatever the document. */
  lemma AdvisoryDecodes(v: Json)
    ensures DecodeAdvisory(v).Some? <==> FitsType(v, ADVISORY)
  {
    hide DecodeAdvisoryMembers, MemberFits, FitsType;
    if v.Obj? {
      AdvisoryMembersDecode(v.members, NO_ADVISORY);
      StructFits(v.members, ADVISORY.fields);
    } else {
      NoObject(v, ADVISORY.fields);
    }
  }

  lemma {:induction false} AdvisoryItemsDecode(items: seq<Json>)
    ensures DecodeAdvisoryItems(items).Some? <==> forall x <- items :: FitsType(x, ADVISORY)
  {
    hide DecodeAdvisory, FitsType;
    if items != [] {
      AdvisoryDecodes(items[0]);
      AdvisoryItemsDecode(items[1..]);
      assert items == [items[0]] + items[1..];
    }
  }

  lemma ListDecodes(v: Json)
    ensures DecodeList(v).Some? <==> FitsType(v, List(ADVISORY))
  {
    hide DecodeAdvisoryItems;
    if v.Arr? { AdvisoryItemsDecode(v.items); }
  }

  lemma WrappedMemberFits(m: Member)
    ensures MemberFits(m, WRAPPED.fields) <==> (EqualFold(m.name, "vulns") ==> DecodeList(m.value).Some?)
  {
    hide DecodeList, FitsType, EqualFold, Lower;
    SameFold(m.name, "vulns");
    ListDecodes(m.value);
  }

  lemma {:induction false} WrappedMembersDecode(members: seq<Member>, current: seq<Advisory>)
    ensures DecodeWrappedMembers(members, current).Some? <==> forall m <- members :: MemberFits(m, WRAPPED.fields)
  {
    hide DecodeList, FitsType, EqualFold, Lower;
    if members != [] {
      hide MemberFits;
      MembersFit(members, WRAPPED.fields);
      WrappedMemberFits(members[0]);
      var next := if EqualFold(members[0].name, "vulns") then DecodeList(members[0].value) else Some(current);
      if next.Some? { WrappedMembersDecode(members[1..], next.value); }
    }
  }

  lemma WrappedDecodes(v: Json)
    ensures DecodeWrapped(v).Some? <==> FitsType(v, WRAPPED)
  {
    hide DecodeWrappedMembers, MemberFits, FitsType;
    if v.Obj? {
      WrappedMembersDecode(v.members, []);
      StructFits(v.members, WRAPPED.fields);
    } else {
      NoObject(v, WRAPPED.fields);
    }
  }

  // ----- local advisory files -----

  lemma LocalNames()
    ensures Lower("fixedVersion") == "fixedversion"
  {
  }

  lemma LocalMemberDecodes(m: Member, current: Local)
    ensures DecodeLocalMember(m, current).Some? <==> MemberFits(m, LOCAL.fields)
  {
    hide Lower, DecodeText, IsText, IsTextList, FitsType;
    LocalNames();
    SameFold(m.name, "id");
    SameFold(m.name, "package");
    SameFold(m.name, "ecosystem");
    SameFold(m.name, "severity");
    SameFold(m.name, "source");
    SameFold(m.name, "aliases");
    TextDecodes(m.value, current.id);
    TextDecodes(m.value, current.package);
    TextFits(m.value);
    TextListFits(m.value);
  }

  lemma {:induction false} LocalMembersDecode(members: seq<Member>, current: Local)
    ensures DecodeLocalMembers(members, current).Some? <==> forall m <- members :: MemberFits(m, LOCAL.fields)
  {
    hide DecodeLocalMember, MemberFits;
    if members != [] {
      MembersFit(members, LOCAL.fields);
      LocalMemberDecodes(members[0], current);
      var next := DecodeLocalMember(members[0], current);
      if next.Some? { LocalMembersDecode(members[1..], next.value); }
    }
  }

  lemma LocalDecodes(v: Json, current: Local)
    ensures DecodeLocalAdvisory(v, current).Some? <==> FitsType(v, LOCAL)
  {
    hide DecodeLocalMembers, MemberFits, FitsType;
    if v.Obj? {
      LocalMembersDecode(v.members, current);
      StructFits(v.members, LOCAL.fields);
    } else {
      NoObject(v, LOCAL.fields);
    }
  }

  lemma {:induction false} LocalItemsDecode(items: seq<Json>, places: seq<Local>)
    ensures DecodeLocalItems(items, places).Some? <==> forall x <- items :: FitsType(x, LOCAL)
    ensures DecodeLocalItems(items, places).Some? ==> |DecodeLocalItems(items, places).value| == |items|
  {
    hide DecodeLocalAdvisory, FitsType;
    if items != [] {
      LocalDecodes(items[0], if places == [] then Local("", "") else places[0]);
      LocalItemsDecode(items[1..], if places == [] then [] else places[1..]);
      assert items == [items[0]] + items[1..];
    }
  }

  predicate IsEmptyList(v: Json) {
    v.Null? || v == Arr([])
  }

  lemma LocalListDecodes(v: Json, current: Slice)
    ensures DecodeLocalList(v, current).Some? <==> FitsType(v, List(LOCAL))
    ensures DecodeLocalList(v, current).Some? ==> (DecodeLocalList(v, current).value.elements == [] <==> IsEmptyList(v))
  {
    hide DecodeLocalItems;
    if v.Arr? { LocalItemsDecode(v.items, current.elements + current.behind); }
  }

  /** The value of the last field of this name, in any letter case. */
  function LastField(members: seq<Member>, name: string): Option<Json> {
    if members == [] then None
    else
      var later := LastField(members[1..], name);
      if later.Some? then later else if Lower(members[0].name) == name then Some(members[0].value) else None
  }

  lemma LocalFieldFits(m: Member, current: Slice)
    ensures MemberFits(m, LOCAL_FILE.fields) <==>
      (EqualFold(m.name, "advisories") ==> DecodeLocalList(m.value, current).Some?)
  {
    hide DecodeLocalList, FitsType, EqualFold, Lower;
    SameFold(m.name, "advisories");
    LocalListDecodes(m.value, current);
  }

  lemma {:induction false} LocalFieldsDecode(members: seq<Member>, current: Slice)
    ensures DecodeLocalFields(members, current).Some? <==> forall m <- members :: MemberFits(m, LOCAL_FILE.fields)
    ensures DecodeLocalFields(members, current).Some? ==>
      (DecodeLocalFields(members, current).value.elements == [] <==>
        match LastField(members, "advisories")
        case Some(v) => IsEmptyList(v)
        case None => current.elements == [])
  {
    hide DecodeLocalList, EqualFold, Lower, MemberFits, IsEmptyList;
    if members != [] {
      MembersFit(members, LOCAL_FILE.fields);
      LocalFieldFits(members[0], current);
      SameFold(members[0].name, "advisories");
      LocalListDecodes(members[0].value, current);
      if !EqualFold(members[0].name, "advisories") {
        LocalFieldsDecode(members[1..], current);
      } else if DecodeLocalList(members[0].value, current).Some? {
        LocalFieldsDecode(members[1..], DecodeLocalList(members[0].value, current).value);
      }
    }
  }

  /** A file is read as a local one exactly when its "advisories" fit, and holds none exactly when the last such field
      is empty. */
  lemma LocalFileDecodes(v: Json)
    ensures DecodeLocal(v).Some? <==> FitsType(v, LOCAL_FILE)
    ensures DecodeLocal(v) == Some([]) <==>
      FitsType(v, LOCAL_FILE) &&
      (v.Obj? ==> var last := LastField(v.members, "advisories"); last.Some? ==> IsEmptyList(last.value))
  {
    hide DecodeLocalFields, MemberFits, FitsType, LastField, IsEmptyList;
    if v.Obj? {
      LocalFieldsDecode(v.members, Slice([], []));
      StructFits(v.members, LOCAL_FILE.fields);
    } else {
      NoObject(v, LOCAL_FILE.fields);
    }
  }

  // ----- nesting -----

  /** What stands in an array or an object. */
  function Inner(v: Json): seq<Json> {
    match v
    case Arr(items) => items
    case Obj(members) => seq(|members|, i requires 0 <= i < |members| => members[i].value)
    case _ => []
  }

  /** `n` arrays and objects stand one within the other. */
  predicate Nests(v: Json, n: nat) {
    n == 0 || ((v.Arr? || v.Obj?) && (n == 1 || exists x <- Inner(v) :: Nests(x, n - 1)))
  }

  lemma InnerValues(members: seq<Member>, n: nat)
    ensures (exists x <- Inner(Obj(members)) :: Nests(x, n)) <==> exists m <- members :: Nests(m.value, n)
  {
    hide Nests;
    var inner := Inner(Obj(members));
    forall m | m in members ensures m.value in inner {
      var i :| 0 <= i < |members| && members[i] == m;
      assert inner[i] == m.value;
    }
    forall x | x in inner ensures exists m <- members :: m.value == x {
      var i :| 0 <= i < |inner| && inner[i] == x;
      assert members[i] in members;
    }
  }

  lemma {:induction false} MembersCount(members: seq<Member>, n: nat)
    requires n > 0
    ensures (exists m <- members :: Nests(m.value, n)) <==> n <= DepthOfMembers(members)
    decreases members, 1
  {
    hide Nests, Depth;
    if members != [] {
      DepthCounts(members[0].value, n);
      MembersCount(members[1..], n);
      assert members == [members[0]] + members[1..];
    }
  }

  lemma {:induction false} DepthCounts(v: Json, n: nat)
    ensures Nests(v, n) <==> n <= Depth(v)
    decreases v, 2
  {
    if n > 1 {
      match v
      case Arr(items) =>
        ItemsCount(items, n - 1);
        assert Inner(v) == items;
      case Obj(members) =>
        MembersCount(members, n - 1);
        InnerValues(members, n - 1);
      case _ =>
    }
  }

  lemma {:induction false} ItemsCount(items: seq<Json>, n: nat)
    requires n > 0
    ensures (exists x <- items :: Nests(x, n)) <==> n <= DepthOfItems(items)
    decreases items, 1
  {
    hide Nests, Depth;
    if items != [] {
      DepthCounts(items[0], n);
      ItemsCount(items[1..], n);
      assert items == [items[0]] + items[1..];
    }
  }

  /** A document is refused for its nesting exactly when 10001 arrays and objects stand one within the other. */
  lemma TooDeepExactlyWhen(doc: Json)
    ensures TooDeep(doc) <==> Nests(doc, 10001)
  {
    DepthCounts(doc, 10001);
  }

  // ----- the condition under which accepted entries load -----

  /** What is asked of the fields that the checks leave alone is that the entry fits the type. */
  lemma TypedIsFitting(v: Json)
    requires AdvisoryOk(v) && PlainAdvisory(v)
    ensures AdvisoryTyped(v) <==> FitsType(v, ADVISORY)
  {
    hide AdvisoryOk, PlainAdvisory, AdvisoryTyped, FitsType;
    AcceptedEntryLoads(v);
    AdvisoryDecodes(v);
  }

  lemma EntriesArePlain(doc: Json)
    requires DocumentOk(doc) && PlainDocument(doc)
    ensures forall v <- EntriesOf(doc) :: AdvisoryOk(v) && PlainAdvisory(v)
  {
    hide PlainAdvisory;
    if doc.Obj? && Values(doc.members, "vulns") != [] {
      assert Values(doc.members, "vulns")[0] in Values(doc.members, "vulns");
    }
    NoEntryIsLostExactlyWhen(doc);
  }

  /** No entry is lost exactly when the document is not nested too deep, has entries, each of the type of an advisory,
      and holds no local list. */
  lemma CompleteExactlyWhen(doc: Json)
    requires DocumentOk(doc) && PlainDocument(doc)
    ensures Complete(doc) <==>
      !TooDeep(doc) && EntriesOf(doc) != [] && (forall v <- EntriesOf(doc) :: FitsType(v, ADVISORY)) &&
      (doc.Arr? ||
       (FitsType(doc, LOCAL_FILE) &&
        var last := LastField(doc.members, "advisories"); last.Some? ==> IsEmptyList(last.value)))
  {
    hide TooDeep, FitsType, AdvisoryOk, PlainAdvisory, LastField, DecodeLocal, AdvisoryTyped, IsEmptyList;
    EntriesArePlain(doc);
    forall v | v in EntriesOf(doc) ensures AdvisoryTyped(v) <==> FitsType(v, ADVISORY) { TypedIsFitting(v); }
    if doc.Obj? { LocalFileDecodes(doc); }
  }
}
