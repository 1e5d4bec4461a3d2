/** internal/advisory/sync.go: what the streaming checks mean for the tree of the document they read. `Emit` writes
    the tokens of a tree in front of a continuation, so each check can be followed on one value at a time; the tree
    predicates speak of the values of a field name (at most one, well formed) and never of reading order. For each
    check there is a lemma ending in `Agree` or `Agrees`: on the tokens of a value it stops behind that value, or
    rejects it, as the tree predicate says. */
module OsvTrees {
  import opened Strings
  import opened OsvTokens

  datatype Json =
    | Null
    | Bool(value: bool)
    | Number(digits: string)
    | Str(text: string)
    | Arr(items: seq<Json>)
    | Obj(members: seq<Member>)

  datatype Member = Member(name: string, value: Json)

  function First(v: Json): Token {
    match v
    case Str(text) => Text(text)
    case Arr(_) => BeginArray
    case Obj(_) => BeginObject
    case _ => Scalar
  }

  function EmitMembers(members: seq<Member>, k: seq<Token>): (r: seq<Token>)
    ensures More(r) <==> members != [] || More(k)
    decreases members
  {
    if members == [] then k else [Text(members[0].name)] + Emit(members[0].value, EmitMembers(members[1..], k))
  }

  /** The tokens of a value, followed by `k`. */
  function Emit(v: Json, k: seq<Token>): (r: seq<Token>)
    ensures More(r) && r[0] == First(v)
    decreases v
  {
    match v
    case Str(text) => [Text(text)] + k
    case Arr(items) => [BeginArray] + EmitItems(items, [EndArray] + k)
    case Obj(members) => [BeginObject] + EmitMembers(members, [EndObject] + k)
    case _ => [Scalar] + k
  }

  function EmitItems(items: seq<Json>, k: seq<Token>): (r: seq<Token>)
    ensures More(r) <==> items != [] || More(k)
    decreases items
  {
    if items == [] then k else Emit(items[0], EmitItems(items[1..], k))
  }

  function Tokens(v: Json): seq<Token> {
    Emit(v, [])
  }

  lemma {:induction false} EmitMembersAppends(members: seq<Member>, k: seq<Token>, more: seq<Token>)
    ensures EmitMembers(members, k + more) == EmitMembers(members, k) + more
    decreases members
  {
    if members != [] {
      EmitMembersAppends(members[1..], k, more);
      EmitAppends(members[0].value, EmitMembers(members[1..], k), more);
    }
  }

  lemma {:induction false} EmitAppends(v: Json, k: seq<Token>, more: seq<Token>)
    ensures Emit(v, k + more) == Emit(v, k) + more
    decreases v
  {
    match v
    case Arr(items) =>
      assert [EndArray] + (k + more) == [EndArray] + k + more;
      EmitItemsAppends(items, [EndArray] + k, more);
    case Obj(members) =>
      assert [EndObject] + (k + more) == [EndObject] + k + more;
      EmitMembersAppends(members, [EndObject] + k, more);
    case _ =>
  }

  lemma {:induction false} EmitItemsAppends(items: seq<Json>, k: seq<Token>, more: seq<Token>)
    ensures EmitItems(items, k + more) == EmitItems(items, k) + more
    decreases items
  {
    if items != [] {
      EmitItemsAppends(items[1..], k, more);
      EmitAppends(items[0], EmitItems(items[1..], k), more);
    }
  }

  // ----- the shape an acceptable tree has -----

  /** The values of the members called `name`, in order. */
  function Values(members: seq<Member>, name: string): (r: seq<Json>)
    ensures |r| <= |members|
  {
    if members == [] then []
    else (if members[0].name == name then [members[0].value] else []) + Values(members[1..], name)
  }

  predicate IsNonblank(v: Json) {
    v.Str? && !Blank(v.text)
  }

  predicate PackageOk(v: Json) {
    v.Obj? && var names := Values(v.members, "name"); |names| <= 1 && forall x <- names :: IsNonblank(x)
  }

  predicate IsNamed(v: Json) {
    v.Obj? && Values(v.members, "name") != []
  }

  predicate VersionsOk(v: Json) {
    v.Arr? && forall x <- v.items :: x.Str?
  }

  predicate NamesVersion(v: Json) {
    v.Arr? && exists x <- v.items :: IsNonblank(x)
  }

  predicate RangesOk(v: Json) {
    v.Arr? && forall x <- v.items :: x.Obj?
  }

  predicate NamesRange(v: Json) {
    v.Arr? && v.items != []
  }

  predicate AffectedOk(v: Json) {
    v.Obj? &&
    var packages, versions, ranges :=
      Values(v.members, "package"), Values(v.members, "versions"), Values(v.members, "ranges");
    |packages| <= 1 && |versions| <= 1 && |ranges| <= 1 &&
    (forall x <- packages :: PackageOk(x)) && (forall x <- versions :: VersionsOk(x)) &&
      (forall x <- ranges :: RangesOk(x))
  }

  /** It names a package and constrains its version. */
  predicate AffectedUsable(v: Json) {
    v.Obj? &&
    (exists x <- Values(v.members, "package") :: IsNamed(x)) &&
    ((exists x <- Values(v.members, "versions") :: NamesVersion(x)) ||
      (exists x <- Values(v.members, "ranges") :: NamesRange(x)))
  }

  predicate AffectedListOk(v: Json) {
    v.Arr? && forall x <- v.items :: AffectedOk(x)
  }

  predicate AffectedListUsable(v: Json) {
    v.Arr? && exists x <- v.items :: AffectedUsable(x)
  }

  /** The advisory fields that occur are unique and well formed. */
  predicate AdvisoryMembersOk(members: seq<Member>) {
    var ids, lists := Values(members, "id"), Values(members, "affected");
    |ids| <= 1 && |lists| <= 1 && (forall x <- ids :: IsNonblank(x)) && (forall x <- lists :: AffectedListOk(x))
  }

  /** The mandatory advisory fields occur, and some affected package is usable. */
  predicate AdvisoryMembersComplete(members: seq<Member>) {
    Values(members, "id") != [] && exists x <- Values(members, "affected") :: AffectedListUsable(x)
  }

  predicate AdvisoryOk(v: Json) {
    v.Obj? && AdvisoryMembersOk(v.members) && AdvisoryMembersComplete(v.members)
  }

  predicate AdvisoryListOk(v: Json) {
    v.Arr? && forall x <- v.items :: AdvisoryOk(x)
  }

  predicate DocumentOk(doc: Json) {
    match doc
    case Arr(_) => AdvisoryListOk(doc)
    case Obj(members) =>
      var vulns := Values(members, "vulns");
      AdvisoryMembersOk(members) && |vulns| <= 1 && (forall x <- vulns :: AdvisoryListOk(x)) &&
      (vulns != [] || AdvisoryMembersComplete(members))
    case _ => false
  }

  // ----- discarding takes exactly one value -----

  lemma {:induction false} DiscardOpenedSkipsMembers(members: seq<Member>, k: seq<Token>, depth: nat)
    requires depth > 0
    ensures DiscardOpened(EmitMembers(members, k), depth) == DiscardOpened(k, depth)
    decreases members
  {
    if members != [] {
      var rest := Emit(members[0].value, EmitMembers(members[1..], k));
      assert EmitMembers(members, k)[1..] == rest;
      DiscardOpenedSkips(members[0].value, EmitMembers(members[1..], k), depth);
      DiscardOpenedSkipsMembers(members[1..], k, depth);
    }
  }

  lemma {:induction false} DiscardOpenedSkips(v: Json, k: seq<Token>, depth: nat)
    requires depth > 0
    ensures DiscardOpened(Emit(v, k), depth) == DiscardOpened(k, depth)
    decreases v
  {
    var ts := Emit(v, k);
    match v
    case Arr(items) =>
      assert ts[1..] == EmitItems(items, [EndArray] + k);
      DiscardOpenedSkipsItems(items, [EndArray] + k, depth + 1);
      assert ([EndArray] + k)[1..] == k;
    case Obj(members) =>
      assert ts[1..] == EmitMembers(members, [EndObject] + k);
      DiscardOpenedSkipsMembers(members, [EndObject] + k, depth + 1);
      assert ([EndObject] + k)[1..] == k;
    case _ =>
      assert ts[1..] == k;
  }

  lemma {:induction false} DiscardOpenedSkipsItems(items: seq<Json>, k: seq<Token>, depth: nat)
    requires depth > 0
    ensures DiscardOpened(EmitItems(items, k), depth) == DiscardOpened(k, depth)
    decreases items
  {
    if items != [] {
      DiscardOpenedSkips(items[0], EmitItems(items[1..], k), depth);
      DiscardOpenedSkipsItems(items[1..], k, depth);
    }
  }

  lemma ObjectBodySkips(members: seq<Member>, k: seq<Token>)
    ensures DiscardOpened(EmitMembers(members, [EndObject] + k), 1) == Done((), k)
  {
    DiscardOpenedSkipsMembers(members, [EndObject] + k, 1);
    assert ([EndObject] + k)[1..] == k;
  }

  lemma DiscardSkips(v: Json, k: seq<Token>)
    ensures Discard(Emit(v, k)) == Done((), k)
  {
    var ts := Emit(v, k);
    match v
    case Arr(items) =>
      assert ts[1..] == EmitItems(items, [EndArray] + k);
      DiscardOpenedSkipsItems(items, [EndArray] + k, 1);
      assert ([EndArray] + k)[1..] == k;
    case Obj(members) =>
      assert ts[1..] == EmitMembers(members, [EndObject] + k);
      ObjectBodySkips(members, k);
    case _ =>
      assert ts[1..] == k;
  }

  // ----- each check reads one value and answers by its tree -----

  lemma SplitItems(items: seq<Json>)
    requires items != []
    ensures forall x :: x in items <==> x == items[0] || x in items[1..]
  {
    assert items == [items[0]] + items[1..];
  }

  lemma TextThen(name: string, ts: seq<Token>)
    ensures More([Text(name)] + ts) && ReadText([Text(name)] + ts) == Done(name, ts)
  {
    assert ([Text(name)] + ts)[1..] == ts;
  }

  lemma EndThen(end: Token, k: seq<Token>)
    requires end.EndArray? || end.EndObject?
    ensures !More([end] + k) && Require([end] + k, end) == Done((), k)
  {
    assert ([end] + k)[1..] == k;
  }

  lemma NonblankAgrees(v: Json, k: seq<Token>)
    ensures ReadNonblank(Emit(v, k)) == if IsNonblank(v) then Done((), k) else Rejected
  {
    if v.Str? { TextThen(v.text, k); }
  }

  /** The unread members decide, together with whether a name was found before. */
  predicate PackageMembersOk(members: seq<Member>, found: bool) {
    var names := Values(members, "name");
    |names| <= (if found then 0 else 1) && forall x <- names :: IsNonblank(x)
  }

  lemma {:induction false} PackageFieldsAgree(members: seq<Member>, k: seq<Token>, found: bool)
    requires !More(k)
    ensures PackageFields(EmitMembers(members, k), found)
         == if PackageMembersOk(members, found) then Done(found || Values(members, "name") != [], k) else Rejected
    decreases members
  {
    if members != [] {
      var m := members[0];
      var rest := EmitMembers(members[1..], k);
      var names := Values(members[1..], "name");
      TextThen(m.name, Emit(m.value, rest));
      if m.name != "name" {
        DiscardSkips(m.value, rest);
        PackageFieldsAgree(members[1..], k, found);
      } else {
        assert Values(members, "name") == [m.value] + names;
        SplitItems(Values(members, "name"));
        NonblankAgrees(m.value, rest);
        PackageFieldsAgree(members[1..], k, true);
      }
    }
  }

  lemma PackageAgrees(v: Json, k: seq<Token>)
    ensures Package(Emit(v, k)) == if PackageOk(v) then Done(IsNamed(v), k) else Rejected
  {
    if v.Obj? {
      var body := EmitMembers(v.members, [EndObject] + k);
      assert ([BeginObject] + body)[1..] == body;
      EndThen(EndObject, k);
      PackageFieldsAgree(v.members, [EndObject] + k, false);
    }
  }

  lemma {:induction false} VersionItemsAgree(items: seq<Json>, k: seq<Token>, found: bool)
    requires !More(k)
    ensures VersionItems(EmitItems(items, k), found)
         == if VersionsOk(Arr(items)) then Done(found || NamesVersion(Arr(items)), k) else Rejected
    decreases items
  {
    if items != [] {
      SplitItems(items);
      assert NamesVersion(Arr(items)) <==> IsNonblank(items[0]) || NamesVersion(Arr(items[1..]));
      assert VersionsOk(Arr(items)) <==> items[0].Str? && VersionsOk(Arr(items[1..]));
      if items[0].Str? {
        TextThen(items[0].text, EmitItems(items[1..], k));
        VersionItemsAgree(items[1..], k, found || !Blank(items[0].text));
      }
    }
  }

  lemma VersionsAgree(v: Json, k: seq<Token>)
    ensures Versions(Emit(v, k)) == if VersionsOk(v) then Done(NamesVersion(v), k) else Rejected
  {
    if v.Arr? {
      var body := EmitItems(v.items, [EndArray] + k);
      assert ([BeginArray] + body)[1..] == body;
      EndThen(EndArray, k);
      VersionItemsAgree(v.items, [EndArray] + k, false);
    }
  }

  lemma {:induction false} RangeItemsAgree(items: seq<Json>, k: seq<Token>, found: bool)
    requires !More(k)
    ensures RangeItems(EmitItems(items, k), found)
         == if RangesOk(Arr(items)) then Done(found || items != [], k) else Rejected
    decreases items
  {
    if items != [] {
      SplitItems(items);
      if items[0].Obj? {
        var rest := EmitItems(items[1..], k);
        var body := EmitMembers(items[0].members, [EndObject] + rest);
        assert ([BeginObject] + body)[1..] == body;
        ObjectBodySkips(items[0].members, rest);
        RangeItemsAgree(items[1..], k, true);
      }
    }
  }

  lemma RangesAgree(v: Json, k: seq<Token>)
    ensures Ranges(Emit(v, k)) == if RangesOk(v) then Done(NamesRange(v), k) else Rejected
  {
    if v.Arr? {
      var body := EmitItems(v.items, [EndArray] + k);
      assert ([BeginArray] + body)[1..] == body;
      EndThen(EndArray, k);
      RangeItemsAgree(v.items, [EndArray] + k, false);
    }
  }

  /** At most one value, and none when the field was seen before. */
  predicate Room(values: seq<Json>, seen: bool) {
    |values| <= if seen then 0 else 1
  }

  predicate AffectedMembersOk(members: seq<Member>, shape: AffectedShape) {
    var packages, versions, ranges :=
      Values(members, "package"), Values(members, "versions"), Values(members, "ranges");
    Room(packages, shape.packageSeen) && Room(versions, shape.versionsSeen) && Room(ranges, shape.rangesSeen) &&
    (forall x <- packages :: PackageOk(x)) && (forall x <- versions :: VersionsOk(x)) &&
      (forall x <- ranges :: RangesOk(x))
  }

  function AffectedAfter(members: seq<Member>, shape: AffectedShape): AffectedShape {
    var packages, versions, ranges :=
      Values(members, "package"), Values(members, "versions"), Values(members, "ranges");
    AffectedShape(
      shape.packageSeen || packages != [], if packages == [] then shape.packageNamed else IsNamed(packages[0]),
      shape.versionsSeen || versions != [],
      if versions == [] then shape.versionConstraint else NamesVersion(versions[0]),
      shape.rangesSeen || ranges != [], if ranges == [] then shape.rangeConstraint else NamesRange(ranges[0]))
  }

  lemma OneValue(m: Member, name: string)
    ensures Values([m], name) == if name == m.name then [m.value] else []
  {
    assert [m][1..] == [];
  }

  lemma OneAffected(m: Member, shape: AffectedShape)
    ensures AffectedMembersOk([m], shape) <==>
      (m.name == "package" ==> !shape.packageSeen && PackageOk(m.value)) &&
      (m.name == "versions" ==> !shape.versionsSeen && VersionsOk(m.value)) &&
      (m.name == "ranges" ==> !shape.rangesSeen && RangesOk(m.value))
    ensures AffectedAfter([m], shape) ==
      match m.name
      case "package" => shape.(packageSeen := true, packageNamed := IsNamed(m.value))
      case "versions" => shape.(versionsSeen := true, versionConstraint := NamesVersion(m.value))
      case "ranges" => shape.(rangesSeen := true, rangeConstraint := NamesRange(m.value))
      case _ => shape
  {
    hide Values, PackageOk, VersionsOk, RangesOk, IsNamed, NamesVersion, NamesRange;
    OneValue(m, "package");
    OneValue(m, "versions");
    OneValue(m, "ranges");
  }

  lemma AffectedFieldAgrees(v: Json, name: string, k: seq<Token>, shape: AffectedShape)
    ensures AffectedField(Emit(v, k), name, shape)
         == if AffectedMembersOk([Member(name, v)], shape) then Done(AffectedAfter([Member(name, v)], shape), k)
           else Rejected
  {
    hide Emit, Package, Versions, Ranges, Discard, AffectedMembersOk, AffectedAfter, PackageOk, VersionsOk, RangesOk,
      IsNamed, NamesVersion, NamesRange;
    PackageAgrees(v, k);
    VersionsAgree(v, k);
    RangesAgree(v, k);
    DiscardSkips(v, k);
    OneAffected(Member(name, v), shape);
  }

  lemma ValuesConcat(m: Member, members: seq<Member>, name: string)
    requires members != [] && m == members[0]
    ensures Values(members, name) == Values([m], name) + Values(members[1..], name)
  {
    assert [m][1..] == [];
  }

  lemma AffectedSplits(members: seq<Member>, shape: AffectedShape)
    requires members != []
    ensures AffectedMembersOk(members, shape) <==>
      AffectedMembersOk([members[0]], shape) && AffectedMembersOk(members[1..], AffectedAfter([members[0]], shape))
    ensures AffectedMembersOk(members, shape) ==>
      AffectedAfter(members, shape) == AffectedAfter(members[1..], AffectedAfter([members[0]], shape))
  {
    hide PackageOk, VersionsOk, RangesOk, IsNamed, NamesVersion, NamesRange, Values;
    ValuesConcat(members[0], members, "package");
    ValuesConcat(members[0], members, "versions");
    ValuesConcat(members[0], members, "ranges");
  }

  lemma NothingAffected(shape: AffectedShape)
    ensures AffectedMembersOk([], shape) && AffectedAfter([], shape) == shape
  {
  }

  lemma {:induction false} AffectedFieldsAgree(members: seq<Member>, k: seq<Token>, shape: AffectedShape)
    requires !More(k)
    ensures AffectedFields(EmitMembers(members, k), shape)
         == if AffectedMembersOk(members, shape) then Done(AffectedAfter(members, shape), k) else Rejected
    decreases members
  {
    hide AffectedField, Emit, AffectedMembersOk, AffectedAfter;
    if members != [] {
      var m := members[0];
      var rest := EmitMembers(members[1..], k);
      TextThen(m.name, Emit(m.value, rest));
      AffectedFieldAgrees(m.value, m.name, rest, shape);
      AffectedSplits(members, shape);
      AffectedFieldsAgree(members[1..], k, AffectedAfter([m], shape));
    } else {
      NothingAffected(shape);
    }
  }

  lemma AffectedObjectAgrees(members: seq<Member>, k: seq<Token>)
    ensures AffectedObject(EmitMembers(members, [EndObject] + k))
         == if AffectedOk(Obj(members)) then Done(AffectedUsable(Obj(members)), k) else Rejected
  {
    hide AffectedFields, Values, PackageOk, VersionsOk, RangesOk, IsNamed, NamesVersion, NamesRange;
    EndThen(EndObject, k);
    AffectedFieldsAgree(members, [EndObject] + k, NO_AFFECTED);
  }

  lemma OnlyObjects(v: Json)
    ensures AffectedOk(v) || AdvisoryOk(v) ==> v.Obj?
  {
  }

  lemma {:induction false} AffectedItemsAgree(items: seq<Json>, k: seq<Token>, usable: bool)
    requires !More(k)
    ensures AffectedItems(EmitItems(items, k), usable)
         == if AffectedListOk(Arr(items)) then Done(usable || AffectedListUsable(Arr(items)), k) else Rejected
    decreases items
  {
    hide AffectedObject, AffectedOk, AffectedUsable;
    if items != [] {
      SplitItems(items);
      assert AffectedListOk(Arr(items)) <==> AffectedOk(items[0]) && AffectedListOk(Arr(items[1..]));
      assert AffectedListUsable(Arr(items)) <==> AffectedUsable(items[0]) || AffectedListUsable(Arr(items[1..]));
      OnlyObjects(items[0]);
      if items[0].Obj? {
        var rest := EmitItems(items[1..], k);
        var body := EmitMembers(items[0].members, [EndObject] + rest);
        assert ([BeginObject] + body)[1..] == body;
        AffectedObjectAgrees(items[0].members, rest);
        AffectedItemsAgree(items[1..], k, usable || AffectedUsable(items[0]));
      }
    }
  }

  lemma AffectedEntriesAgree(v: Json, k: seq<Token>)
    ensures AffectedEntries(Emit(v, k)) == if AffectedListOk(v) then Done(AffectedListUsable(v), k) else Rejected
  {
    if v.Arr? {
      var body := EmitItems(v.items, [EndArray] + k);
      assert ([BeginArray] + body)[1..] == body;
      EndThen(EndArray, k);
      AffectedItemsAgree(v.items, [EndArray] + k, false);
    }
  }

  predicate AdvisoryFieldsOk(members: seq<Member>, shape: AdvisoryShape) {
    var ids, lists := Values(members, "id"), Values(members, "affected");
    Room(ids, shape.idSeen) && Room(lists, shape.affectedSeen) &&
    (forall x <- ids :: IsNonblank(x)) && (forall x <- lists :: AffectedListOk(x))
  }

  function AdvisoryAfter(members: seq<Member>, shape: AdvisoryShape): AdvisoryShape {
    var ids, lists := Values(members, "id"), Values(members, "affected");
    AdvisoryShape(
      shape.idSeen || ids != [], shape.affectedSeen || lists != [],
      if lists == [] then shape.usableAffected else AffectedListUsable(lists[0]))
  }

  lemma AdvisoryFieldAgrees(v: Json, name: string, k: seq<Token>, shape: AdvisoryShape)
    ensures AdvisoryField(Emit(v, k), name, shape)
         == if AdvisoryFieldsOk([Member(name, v)], shape) then Done(AdvisoryAfter([Member(name, v)], shape), k)
           else Rejected
  {
    hide AffectedEntries, ReadNonblank, Discard, Emit, AffectedListOk, AffectedListUsable, IsNonblank;
    NonblankAgrees(v, k);
    AffectedEntriesAgree(v, k);
    DiscardSkips(v, k);
    var ms := [Member(name, v)];
    forall n ensures Values(ms, n) == if n == name then [v] else [] {
      assert ms[1..] == [];
    }
  }

  lemma AdvisorySplits(members: seq<Member>, shape: AdvisoryShape)
    requires members != []
    ensures AdvisoryFieldsOk(members, shape)
       <==> AdvisoryFieldsOk([members[0]], shape) && AdvisoryFieldsOk(members[1..], AdvisoryAfter([members[0]], shape))
    ensures AdvisoryFieldsOk(members, shape) ==>
      AdvisoryAfter(members, shape) == AdvisoryAfter(members[1..], AdvisoryAfter([members[0]], shape))
  {
    hide AffectedListOk, AffectedListUsable, IsNonblank, Values;
    ValuesConcat(members[0], members, "id");
    ValuesConcat(members[0], members, "affected");
  }

  lemma NothingAdvisory(shape: AdvisoryShape)
    ensures AdvisoryFieldsOk([], shape) && AdvisoryAfter([], shape) == shape
  {
  }

  lemma {:induction false} AdvisoryFieldsAgree(members: seq<Member>, k: seq<Token>, shape: AdvisoryShape)
    requires !More(k)
    ensures AdvisoryFields(EmitMembers(members, k), shape)
         == if AdvisoryFieldsOk(members, shape) then Done(AdvisoryAfter(members, shape), k) else Rejected
    decreases members
  {
    hide AdvisoryField, Emit, AdvisoryFieldsOk, AdvisoryAfter;
    if members != [] {
      var m := members[0];
      var rest := EmitMembers(members[1..], k);
      TextThen(m.name, Emit(m.value, rest));
      AdvisoryFieldAgrees(m.value, m.name, rest, shape);
      AdvisorySplits(members, shape);
      AdvisoryFieldsAgree(members[1..], k, AdvisoryAfter([m], shape));
    } else {
      NothingAdvisory(shape);
    }
  }

  /** The shape built from scratch says what the tree predicates say. */
  lemma FreshAdvisory(members: seq<Member>)
    ensures AdvisoryFieldsOk(members, NO_ADVISORY) <==> AdvisoryMembersOk(members)
    ensures AdvisoryMembersOk(members) ==>
      IsComplete(AdvisoryAfter(members, NO_ADVISORY)) == AdvisoryMembersComplete(members)
  {
    hide Values, AffectedListOk, AffectedListUsable, IsNonblank;
  }

  lemma AdvisoryObjectAgrees(members: seq<Member>, k: seq<Token>)
    ensures AdvisoryObject(EmitMembers(members, [EndObject] + k)) ==
      if AdvisoryOk(Obj(members)) then Done((), k) else Rejected
  {
    hide AdvisoryFields, AdvisoryFieldsOk, AdvisoryAfter, AdvisoryMembersOk, AdvisoryMembersComplete, IsComplete;
    EndThen(EndObject, k);
    AdvisoryFieldsAgree(members, [EndObject] + k, NO_ADVISORY);
    FreshAdvisory(members);
  }

  lemma {:induction false} EntryItemsAgree(items: seq<Json>, k: seq<Token>)
    requires !More(k)
    ensures EntryItems(EmitItems(items, k)) == if AdvisoryListOk(Arr(items)) then Done((), k) else Rejected
    decreases items
  {
    hide AdvisoryObject, AdvisoryOk;
    if items != [] {
      SplitItems(items);
      assert AdvisoryListOk(Arr(items)) <==> AdvisoryOk(items[0]) && AdvisoryListOk(Arr(items[1..]));
      OnlyObjects(items[0]);
      if items[0].Obj? {
        var rest := EmitItems(items[1..], k);
        var body := EmitMembers(items[0].members, [EndObject] + rest);
        assert ([BeginObject] + body)[1..] == body;
        AdvisoryObjectAgrees(items[0].members, rest);
        EntryItemsAgree(items[1..], k);
      }
    }
  }

  lemma EntriesAgree(items: seq<Json>, k: seq<Token>)
    ensures Entries(EmitItems(items, [EndArray] + k)) == if AdvisoryListOk(Arr(items)) then Done((), k) else Rejected
  {
    EndThen(EndArray, k);
    EntryItemsAgree(items, [EndArray] + k);
  }

  predicate VulnsOk(members: seq<Member>, found: bool) {
    var vulns := Values(members, "vulns");
    Room(vulns, found) && forall x <- vulns :: AdvisoryListOk(x)
  }

  lemma VulnsSplits(members: seq<Member>, found: bool)
    requires members != []
    ensures VulnsOk(members, found)
       <==> VulnsOk([members[0]], found) && VulnsOk(members[1..], found || members[0].name == "vulns")
    ensures VulnsOk([members[0]], found) <==>
      (members[0].name == "vulns" ==> !found && AdvisoryListOk(members[0].value))
    ensures Values(members, "vulns") != [] <==> members[0].name == "vulns" || Values(members[1..], "vulns") != []
  {
    hide AdvisoryListOk;
    ValuesConcat(members[0], members, "vulns");
    assert [members[0]][1..] == [];
    assert Values([members[0]], "vulns") == if members[0].name == "vulns" then [members[0].value] else [];
  }

  lemma NotAdvisoryField(m: Member, shape: AdvisoryShape)
    requires m.name == "vulns"
    ensures AdvisoryFieldsOk([m], shape) && AdvisoryAfter([m], shape) == shape
  {
    assert [m][1..] == [];
    assert Values([m], "id") == [] && Values([m], "affected") == [];
  }

  lemma VulnsValue(v: Json, k: seq<Token>)
    ensures v.Arr? ==> Require(Emit(v, k), BeginArray) == Done((), EmitItems(v.items, [EndArray] + k))
    ensures v.Arr? ==>
      Entries(EmitItems(v.items, [EndArray] + k)) == if AdvisoryListOk(v) then Done((), k) else Rejected
    ensures !v.Arr? ==> !AdvisoryListOk(v) && Require(Emit(v, k), BeginArray) == Rejected
  {
    if v.Arr? {
      EntriesAgree(v.items, k);
      var body := EmitItems(v.items, [EndArray] + k);
      assert ([BeginArray] + body)[1..] == body;
    }
  }

  lemma NoVulns(found: bool)
    ensures Values([], "vulns") == [] && VulnsOk([], found)
  {
  }

  lemma {:induction false} TopLevelFieldsAgree(members: seq<Member>, k: seq<Token>, found: bool, shape: AdvisoryShape)
    requires !More(k)
    ensures TopLevelFields(EmitMembers(members, k), found, shape)
         == if AdvisoryFieldsOk(members, shape) && VulnsOk(members, found)
            then Done((found || Values(members, "vulns") != [], AdvisoryAfter(members, shape)), k)
            else Rejected
    decreases members
  {
    hide AdvisoryField, Emit, AdvisoryFieldsOk, AdvisoryAfter, VulnsOk, Entries, Require, AdvisoryListOk, Values;
    if members != [] {
      var m := members[0];
      var rest := EmitMembers(members[1..], k);
      TextThen(m.name, Emit(m.value, rest));
      AdvisorySplits(members, shape);
      VulnsSplits(members, found);
      if m.name == "vulns" {
        NotAdvisoryField(m, shape);
        VulnsValue(m.value, rest);
        TopLevelFieldsAgree(members[1..], k, true, shape);
      } else {
        AdvisoryFieldAgrees(m.value, m.name, rest, shape);
        TopLevelFieldsAgree(members[1..], k, found, AdvisoryAfter([m], shape));
      }
    } else {
      NothingAdvisory(shape);
      assert Values(members, "vulns") == [] && VulnsOk(members, found) by { NoVulns(found); }
    }
  }

  lemma TopLevelObjectAgrees(members: seq<Member>, k: seq<Token>)
    ensures TopLevelObject(EmitMembers(members, [EndObject] + k)) ==
      if DocumentOk(Obj(members)) then Done((), k) else Rejected
  {
    hide TopLevelFields, AdvisoryFieldsOk, AdvisoryAfter, AdvisoryMembersOk, AdvisoryMembersComplete, IsComplete,
      Values;
    EndThen(EndObject, k);
    TopLevelFieldsAgree(members, [EndObject] + k, false, NO_ADVISORY);
    FreshAdvisory(members);
  }

  /** The streaming validator accepts the tokens of a document exactly when its tree has the advisory shape,
      and it accepts nothing behind the document. */
  lemma ValidatorDecidesTheShape(doc: Json, trailing: seq<Token>)
    ensures Accepts(Tokens(doc) + trailing) <==> DocumentOk(doc) && trailing == []
  {
    EmitAppends(doc, [], trailing);
    assert [] + trailing == trailing;
    var ts := Emit(doc, trailing);
    assert Tokens(doc) + trailing == ts;
    match doc
    case Arr(items) =>
      assert ts[1..] == EmitItems(items, [EndArray] + trailing);
      EntriesAgree(items, trailing);
    case Obj(members) =>
      assert ts[1..] == EmitMembers(members, [EndObject] + trailing);
      TopLevelObjectAgrees(members, trailing);
    case _ =>
  }
}
