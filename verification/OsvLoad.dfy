/** internal/advisory/load.go: decoding an OSV document into structs the way encoding/json does (field names are
    matched without regard to case and every occurrence is stored), and the advisories taken from them. */
module OsvLoad {
  import opened Strings
  import opened Results
  import opened Seqs
  import opened OsvTrees
  import Float64

  datatype Affected = Affected(package: string, versions: seq<string>, ranges: seq<Json>)
  datatype Advisory = Advisory(id: string, affected: seq<Affected>)
  datatype Local = Local(id: string, package: string)

  /** A slice of a document's local advisories, and what its memory still holds behind its length. */
  datatype Slice = Slice(elements: seq<Local>, behind: seq<Local>)

  datatype Reported = Reported(id: string, package: string, versions: seq<string>, ranges: seq<Json>)

  const NO_AFFECTED := Affected("", [], [])
  const NO_ADVISORY := Advisory("", [])

  // ----- the types of fields whose values are not followed further -----

  predicate IsText(v: Json) {
    v.Str? || v.Null?
  }

  predicate IsTextList(v: Json) {
    v.Null? || (v.Arr? && forall x <- v.items :: IsText(x))
  }

  /** Every number in the value has a float64, which is what it becomes where no type is given. */
  predicate NumbersFit(v: Json) {
    match v
    case Number(digits) => Float64.Fits(digits)
    case Arr(items) => forall x <- items :: NumbersFit(x)
    case Obj(members) => forall m <- members :: NumbersFit(m.value)
    case _ => true
  }

  /** `map[string]any`. */
  predicate IsMap(v: Json) {
    v.Null? || (v.Obj? && NumbersFit(v))
  }

  /** Every field called `name`, in any letter case, is a text. */
  predicate TextField(members: seq<Member>, name: string) {
    forall m <- members :: EqualFold(m.name, name) ==> IsText(m.value)
  }

  predicate IsSeverity(v: Json) {
    v.Null? || (v.Obj? && TextField(v.members, "type") && TextField(v.members, "score"))
  }

  predicate IsSeverityList(v: Json) {
    v.Null? || (v.Arr? && forall x <- v.items :: IsSeverity(x))
  }

  predicate IsEvent(v: Json) {
    v.Null? || (v.Obj? && TextField(v.members, "introduced") && TextField(v.members, "fixed") &&
                TextField(v.members, "last_affected") && TextField(v.members, "limit"))
  }

  predicate IsEventList(v: Json) {
    v.Null? || (v.Arr? && forall x <- v.items :: IsEvent(x))
  }

  predicate IsRange(v: Json) {
    v.Null? ||
    (v.Obj? && TextField(v.members, "type") &&
     forall m <- v.members :: EqualFold(m.name, "events") ==> IsEventList(m.value))
  }

  predicate PackageFieldTyped(m: Member) {
    EqualFold(m.name, "ecosystem") ==> IsText(m.value)
  }

  predicate AffectedFieldTyped(m: Member) {
    EqualFold(m.name, "ecosystem_specific") || EqualFold(m.name, "database_specific") ==> IsMap(m.value)
  }

  predicate AdvisoryFieldTyped(m: Member) {
    (EqualFold(m.name, "aliases") ==> IsTextList(m.value)) &&
    (EqualFold(m.name, "severity") ==> IsSeverityList(m.value)) &&
    (EqualFold(m.name, "database_specific") ==> IsMap(m.value)) &&
    (EqualFold(m.name, "modified") || EqualFold(m.name, "published") ==> IsText(m.value))
  }

  predicate LocalFieldTyped(m: Member) {
    (EqualFold(m.name, "ecosystem") || EqualFold(m.name, "severity") ==> IsText(m.value)) &&
    (EqualFold(m.name, "fixedVersion") || EqualFold(m.name, "source") ==> IsText(m.value)) &&
    (EqualFold(m.name, "aliases") ==> IsTextList(m.value))
  }

  // ----- decoding; an error anywhere fails the whole document -----

  function DecodeText(v: Json, current: string): Option<string> {
    match v
    case Str(text) => Some(text)
    case Null => Some(current)
    case _ => None
  }

  function DecodeTexts(items: seq<Json>): Option<seq<string>> {
    if items == [] then Some([])
    else
      match (DecodeText(items[0], ""), DecodeTexts(items[1..]))
      case (Some(text), Some(rest)) => Some([text] + rest)
      case _ => None
  }

  /** Well-typed ranges are kept as they are. */
  function DecodeRanges(v: Json): Option<seq<Json>> {
    match v
    case Arr(items) => if forall x <- items :: IsRange(x) then Some(items) else None
    case Null => Some([])
    case _ => None
  }

  function DecodeVersions(v: Json): Option<seq<string>> {
    match v
    case Arr(items) => DecodeTexts(items)
    case Null => Some([])
    case _ => None
  }

  function DecodePackageMember(m: Member, name: string): Option<string> {
    if EqualFold(m.name, "name") then DecodeText(m.value, name)
    else if PackageFieldTyped(m) then Some(name)
    else None
  }

  function DecodePackageMembers(members: seq<Member>, name: string): Option<string> {
    if members == [] then Some(name)
    else
      match DecodePackageMember(members[0], name)
      case Some(text) => DecodePackageMembers(members[1..], text)
      case None => None
  }

  function DecodePackage(v: Json, name: string): Option<string> {
    match v
    case Obj(members) => DecodePackageMembers(members, name)
    case Null => Some(name)
    case _ => None
  }

  function DecodeAffectedMember(m: Member, current: Affected): Option<Affected> {
    if EqualFold(m.name, "package") then
      match DecodePackage(m.value, current.package)
      case Some(name) => Some(current.(package := name))
      case None => None
    else if EqualFold(m.name, "versions") then
      match DecodeVersions(m.value)
      case Some(versions) => Some(current.(versions := versions))
      case None => None
    else if EqualFold(m.name, "ranges") then
      match DecodeRanges(m.value)
      case Some(ranges) => Some(current.(ranges := ranges))
      case None => None
    else if AffectedFieldTyped(m) then Some(current)
    else None
  }

  function DecodeAffectedMembers(members: seq<Member>, current: Affected): Option<Affected> {
    if members == [] then Some(current)
    else
      match DecodeAffectedMember(members[0], current)
      case Some(next) => DecodeAffectedMembers(members[1..], next)
      case None => None
  }

  function DecodeAffected(v: Json): Option<Affected> {
    match v
    case Obj(members) => DecodeAffectedMembers(members, NO_AFFECTED)
    case Null => Some(NO_AFFECTED)
    case _ => None
  }

  function DecodeAffectedItems(items: seq<Json>): Option<seq<Affected>> {
    if items == [] then Some([])
    else
      match (DecodeAffected(items[0]), DecodeAffectedItems(items[1..]))
      case (Some(affected), Some(rest)) => Some([affected] + rest)
      case _ => None
  }

  function DecodeAffectedList(v: Json): Option<seq<Affected>> {
    match v
    case Arr(items) => DecodeAffectedItems(items)
    case Null => Some([])
    case _ => None
  }

  function DecodeAdvisoryMember(m: Member, current: Advisory): Option<Advisory> {
    if EqualFold(m.name, "id") then
      match DecodeText(m.value, current.id)
      case Some(text) => Some(current.(id := text))
      case None => None
    else if EqualFold(m.name, "affected") then
      match DecodeAffectedList(m.value)
      case Some(list) => Some(current.(affected := list))
      case None => None
    else if AdvisoryFieldTyped(m) then Some(current)
    else None
  }

  function DecodeAdvisoryMembers(members: seq<Member>, current: Advisory): Option<Advisory> {
    if members == [] then Some(current)
    else
      match DecodeAdvisoryMember(members[0], current)
      case Some(next) => DecodeAdvisoryMembers(members[1..], next)
      case None => None
  }

  function DecodeAdvisory(v: Json): Option<Advisory> {
    match v
    case Obj(members) => DecodeAdvisoryMembers(members, NO_ADVISORY)
    case Null => Some(NO_ADVISORY)
    case _ => None
  }

  function DecodeAdvisoryItems(items: seq<Json>): Option<seq<Advisory>> {
    if items == [] then Some([])
    else
      match (DecodeAdvisory(items[0]), DecodeAdvisoryItems(items[1..]))
      case (Some(advisory), Some(rest)) => Some([advisory] + rest)
      case _ => None
  }

  function DecodeList(v: Json): Option<seq<Advisory>> {
    match v
    case Arr(items) => DecodeAdvisoryItems(items)
    case Null => Some([])
    case _ => None
  }

  function DecodeWrappedMembers(members: seq<Member>, current: seq<Advisory>): Option<seq<Advisory>> {
    if members == [] then Some(current)
    else if !EqualFold(members[0].name, "vulns") then DecodeWrappedMembers(members[1..], current)
    else
      match DecodeList(members[0].value)
      case Some(list) => DecodeWrappedMembers(members[1..], list)
      case None => None
  }

  function DecodeWrapped(v: Json): Option<seq<Advisory>> {
    match v
    case Obj(members) => DecodeWrappedMembers(members, [])
    case Null => Some([])
    case _ => None
  }

  function DecodeLocalMember(m: Member, current: Local): Option<Local> {
    if EqualFold(m.name, "id") then
      match DecodeText(m.value, current.id)
      case Some(text) => Some(current.(id := text))
      case None => None
    else if EqualFold(m.name, "package") then
      match DecodeText(m.value, current.package)
      case Some(text) => Some(current.(package := text))
      case None => None
    else if LocalFieldTyped(m) then Some(current)
    else None
  }

  function DecodeLocalMembers(members: seq<Member>, current: Local): Option<Local> {
    if members == [] then Some(current)
    else
      match DecodeLocalMember(members[0], current)
      case Some(next) => DecodeLocalMembers(members[1..], next)
      case None => None
  }

  function DecodeLocalAdvisory(v: Json, current: Local): Option<Local> {
    match v
    case Obj(members) => DecodeLocalMembers(members, current)
    case Null => Some(current)
    case _ => None
  }

  /** Each element is decoded into the place that an earlier list of the field left there. */
  function DecodeLocalItems(items: seq<Json>, places: seq<Local>): Option<seq<Local>> {
    if items == [] then Some([])
    else
      var place, others := if places == [] then Local("", "") else places[0], if places == [] then [] else places[1..];
      match (DecodeLocalAdvisory(items[0], place), DecodeLocalItems(items[1..], others))
      case (Some(advisory), Some(rest)) => Some([advisory] + rest)
      case _ => None
  }

  /** An empty list starts anew; any other leaves what was behind its length for a later, longer one. */
  function DecodeLocalList(v: Json, current: Slice): Option<Slice> {
    match v
    case Arr(items) =>
      if items == [] then Some(Slice([], []))
      else
        var places := current.elements + current.behind;
        (match DecodeLocalItems(items, places)
         case Some(list) => Some(Slice(list, if |list| < |places| then places[|list|..] else []))
         case None => None)
    case Null => Some(Slice([], []))
    case _ => None
  }

  function DecodeLocalFields(members: seq<Member>, current: Slice): Option<Slice> {
    if members == [] then Some(current)
    else if !EqualFold(members[0].name, "advisories") then DecodeLocalFields(members[1..], current)
    else
      match DecodeLocalList(members[0].value, current)
      case Some(list) => DecodeLocalFields(members[1..], list)
      case None => None
  }

  /** A document read as a local advisory file: everything but its "advisories" is ignored. */
  function DecodeLocal(v: Json): Option<seq<Local>> {
    match v
    case Obj(members) =>
      (match DecodeLocalFields(members, Slice([], []))
       case Some(list) => Some(list.elements)
       case None => None)
    case Null => Some([])
    case _ => None
  }

  // ----- the reading of a whole document -----

  /** How deep `encoding/json` follows arrays and objects. */
  const MAX_NESTING := 10000

  function DepthOfMembers(members: seq<Member>): nat {
    if members == [] then 0
    else
      var first, rest := Depth(members[0].value), DepthOfMembers(members[1..]);
      if first > rest then first else rest
  }

  /** The number of arrays and objects around the innermost value, counting that value. */
  function Depth(v: Json): nat {
    match v
    case Arr(items) => 1 + DepthOfItems(items)
    case Obj(members) => 1 + DepthOfMembers(members)
    case _ => 0
  }

  function DepthOfItems(items: seq<Json>): nat {
    if items == [] then 0
    else
      var first, rest := Depth(items[0]), DepthOfItems(items[1..]);
      if first > rest then first else rest
  }

  predicate TooDeep(doc: Json) {
    Depth(doc) > MAX_NESTING
  }

  /** `decodeStructured`: the whole document is read before any of it is decoded. */
  function DecodeStructured<T>(doc: Json, decoded: Option<T>): Option<T> {
    if TooDeep(doc) then None else decoded
  }

  // ----- the advisories of decoded entries -----

  predicate HasVersionConstraints(affected: Affected) {
    affected.ranges != [] || exists i :: 0 <= i < |affected.versions| && !Blank(affected.versions[i])
  }

  function Report(id: string, affected: seq<Affected>): seq<Reported> {
    if affected == [] then []
    else
      var last := affected[|affected| - 1];
      Report(id, affected[..|affected| - 1]) +
      if Blank(last.package) || !HasVersionConstraints(last) then []
      else [Reported(id, last.package, last.versions, last.ranges)]
  }

  /** The advisories of one entry. */
  function ReportOne(item: Advisory): seq<Reported> {
    if Blank(item.id) then [] else Report(item.id, item.affected)
  }

  function ReportAll(items: seq<Advisory>): seq<Reported> {
    if items == [] then []
    else
      var last := items[|items| - 1];
      ReportAll(items[..|items| - 1]) + ReportOne(last)
  }

  lemma ReportAllSnoc(items: seq<Advisory>, item: Advisory)
    ensures ReportAll(items + [item]) == ReportAll(items) + ReportOne(item)
  {
    hide ReportOne;
    SnocTake(items, item);
  }

  lemma NothingReported()
    ensures ReportAll([]) == []
  {
  }

  method ConstrainsVersions(affected: Affected) returns (r: bool)
    ensures r == HasVersionConstraints(affected)
  {
    if |affected.ranges| > 0 { return true; }
    for i := 0 to |affected.versions|
      invariant forall k :: 0 <= k < i ==> Blank(affected.versions[k])
    {
      Trimmed(affected.versions[i]);
      var trimmed := TrimSpace(affected.versions[i]);
      if trimmed != "" { return true; }
    }
    r := false;
  }

  /** The advisories of one entry, appended. */
  method AppendReports(before: seq<Reported>, item: Advisory) returns (advisories: seq<Reported>)
    ensures advisories == before + Report(item.id, item.affected)
  {
    hide TrimSpace, Blank, HasVersionConstraints;
    advisories := before;
    for j := 0 to |item.affected|
      invariant advisories == before + Report(item.id, item.affected[..j])
    {
      TakeLast(item.affected, j);
      var affected := item.affected[j];
      Trimmed(affected.package);
      var package := TrimSpace(affected.package);
      var constrained := ConstrainsVersions(affected);
      if package == "" || !constrained { continue; }
      advisories := advisories + [Reported(item.id, affected.package, affected.versions, affected.ranges)];
    }
    TakeAll(item.affected);
  }

  /** `advisoriesFromOSV`. */
  method AdvisoriesFromOSV(items: seq<Advisory>) returns (advisories: seq<Reported>)
    ensures advisories == ReportAll(items)
  {
    hide TrimSpace, Blank, Report, ReportAll;
    advisories := [];
    NothingReported();
    for i := 0 to |items|
      invariant advisories == ReportAll(items[..i])
    {
      TakeLast(items, i);
      ReportAllSnoc(items[..i], items[i]);
      Trimmed(items[i].id);
      var id := TrimSpace(items[i].id);
      if id == "" { continue; }
      advisories := AppendReports(advisories, items[i]);
    }
    TakeAll(items);
  }

  function ReportLocal(items: seq<Local>): (r: seq<Reported>)
    ensures |r| == |items|
    ensures forall i :: 0 <= i < |items| ==> r[i] == Reported(items[i].id, items[i].package, [], [])
  {
    seq(|items|, i requires 0 <= i < |items| => Reported(items[i].id, items[i].package, [], []))
  }

  // ----- the document forms, in the order in which they are tried -----

  /** The list form, the wrapped form, then a single advisory. */
  function ParseDocument(doc: Json): Option<seq<Reported>> {
    var list, wrapped := DecodeStructured(doc, DecodeList(doc)), DecodeStructured(doc, DecodeWrapped(doc));
    if list.Some? && list.value != [] then Some(ReportAll(list.value))
    else if wrapped.Some? && wrapped.value != [] then Some(ReportAll(wrapped.value))
    else
      match DecodeStructured(doc, DecodeAdvisory(doc))
      case Some(single) => Some(ReportAll([single]))
      case None => None
  }

  /** `parseOSVDocument` on a JSON file. */
  method ParseOSVDocument(doc: Json) returns (r: Option<seq<Reported>>)
    ensures r == ParseDocument(doc)
  {
    hide DecodeAdvisoryItems, DecodeWrappedMembers, DecodeAdvisoryMembers, ReportAll, TooDeep;
    var list := DecodeStructured(doc, DecodeList(doc));
    if list.Some? && |list.value| > 0 {
      var advisories := AdvisoriesFromOSV(list.value);
      return Some(advisories);
    }
    var wrapped := DecodeStructured(doc, DecodeWrapped(doc));
    if wrapped.Some? && |wrapped.value| > 0 {
      var advisories := AdvisoriesFromOSV(wrapped.value);
      return Some(advisories);
    }
    var single := DecodeStructured(doc, DecodeAdvisory(doc));
    if single.None? { return None; }
    var advisories := AdvisoriesFromOSV([single.value]);
    r := Some(advisories);
  }

  /** `requireAdvisories`. */
  function Required(advisories: Option<seq<Reported>>): Option<seq<Reported>> {
    if advisories == Some([]) then None else advisories
  }

  /** `parseLocalDocument`. */
  function LocalForm(doc: Json): Option<seq<Local>> {
    DecodeStructured(doc, DecodeLocal(doc))
  }

  /** `parse` on a JSON file: a sequence is an OSV document, everything else may first be a local one. */
  function Parse(doc: Json): Option<seq<Reported>> {
    if doc.Arr? then Required(ParseDocument(doc))
    else
      match LocalForm(doc)
      case None => None
      case Some(local) => if local != [] then Required(Some(ReportLocal(local))) else Required(ParseDocument(doc))
  }
}
