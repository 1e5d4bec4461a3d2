/** internal/analysis/identity_enrichment_cargo_version.go: reading versions and requirements from text. */
module CargoSyntax {
  import opened Strings
  import opened Results
  import opened Seqs
  import opened Decimal
  import opened SemVer
  import opened CargoRequirement

  /** The largest `int` that `strconv.Atoi` returns. */
  const MAX_INT := 0x7fff_ffff_ffff_ffff

  predicate IsIdentifierChar(c: char) {
    IsDigit(c) || 'A' <= c <= 'Z' || 'a' <= c <= 'z' || c == '-'
  }

  /** `strconv.Atoi` on text without a sign. */
  function ReadNumber(s: string): Option<nat> {
    if s != "" && AllDigits(s) && Value(s) <= MAX_INT then Some(Value(s)) else None
  }

  function ReadNumbers(parts: seq<string>): (r: Option<seq<nat>>)
    ensures r.Some? ==> |r.value| == |parts|
  {
    if parts == [] then Some([])
    else
      match (ReadNumbers(parts[..|parts| - 1]), ReadNumber(parts[|parts| - 1]))
      case (Some(rest), Some(n)) => Some(rest + [n])
      case _ => None
  }

  /** An identifier of section 9 of SemVer 2.0.0; numbers have no leading zero. */
  function ReadIdentifier(s: string): Option<Identifier> {
    if s == "" || exists i :: 0 <= i < |s| && !IsIdentifierChar(s[i]) then None
    else if !AllDigits(s) then Some(Word(s))
    else if |s| > 1 && s[0] == '0' then None
    else Some(Numeric(Value(s)))
  }

  function ReadIdentifiers(parts: seq<string>): Option<seq<Identifier>> {
    if parts == [] then Some([])
    else
      match (ReadIdentifier(parts[0]), ReadIdentifiers(parts[1..]))
      case (Some(id), Some(rest)) => Some([id] + rest)
      case _ => None
  }

  predicate IsBuild(s: string) {
    forall part <- Split(s, '.') :: part != "" && forall i :: 0 <= i < |part| ==> IsIdentifierChar(part[i])
  }

  /** What may follow the core: a pre-release behind `-`, then build metadata behind `+`. */
  function ReadSuffix(s: string): Option<seq<Identifier>> {
    var plus := IndexOf(s, '+');
    var pre, build := s[..plus], s[plus..];
    if build != "" && !IsBuild(build[1..]) then None
    else if pre == "" then Some([])
    else if pre[0] != '-' then None
    else ReadIdentifiers(Split(pre[1..], '.'))
  }

  function CoreEnd(s: string): (r: nat)
    ensures r <= |s|
  {
    var minus, plus := IndexOf(s, '-'), IndexOf(s, '+');
    if minus < plus then minus else plus
  }

  function NumberAt(numbers: seq<nat>, i: nat): nat {
    if i < |numbers| then numbers[i] else 0
  }

  function PartialOf(numbers: seq<nat>, prerelease: seq<Identifier>): Partial {
    Partial(Version(NumberAt(numbers, 0), NumberAt(numbers, 1), NumberAt(numbers, 2), prerelease), |numbers|)
  }

  /** `parseCargoPartialVersion`. */
  function ReadPartial(text: string): (r: Option<Partial>)
    ensures r.Some? ==> 1 <= r.value.components <= 3
    ensures r.Some? ==>
      (r.value.components < 3 ==> r.value.version.patch == 0) && (r.value.components < 2 ==> r.value.version.minor == 0)
  {
    var s := TrimSpace(text);
    var end := CoreEnd(s);
    var parts := Split(s[..end], '.');
    if s == "" || |parts| > 3 then None
    else
      match (ReadNumbers(parts), ReadSuffix(s[end..]))
      case (Some(numbers), Some(prerelease)) => Some(PartialOf(numbers, prerelease))
      case _ => None
  }

  predicate IsStar(part: string) {
    part == "*" || EqualFold(part, "x")
  }

  /** The place of the first wildcard, or the length. */
  function FirstStar(parts: seq<string>): (r: nat)
    ensures r <= |parts|
    ensures forall i :: 0 <= i < r ==> !IsStar(parts[i])
    ensures r < |parts| ==> IsStar(parts[r])
  {
    if parts == [] || IsStar(parts[0]) then 0 else 1 + FirstStar(parts[1..])
  }

  datatype WildcardResult = NotWildcard | Invalid | Found(required: Partial)

  const ANY := Partial(Version(0, 0, 0, []), 0)

  /** `parseCargoWildcardVersion`. */
  function ReadWildcard(text: string): WildcardResult {
    var parts := Split(TrimSpace(text), '.');
    var star := FirstStar(parts);
    if star == |parts| then NotWildcard
    else if |parts| > 3 || exists i :: star <= i < |parts| && !IsStar(parts[i]) then Invalid
    else if star == 0 then if |parts| == 1 then Found(ANY) else Invalid
    else
      match ReadPartial(Join(parts[..star], '.'))
      case Some(required) => Found(required)
      case None => Invalid
  }

  /** The operators in the order in which they are tried. */
  const PREFIXES: seq<(string, Operator)> :=
    [(">=", GreaterEqual), ("<=", LessEqual), (">", Greater), ("<", LessThan), ("=", Exact), ("^", Caret), ("~", Tilde)]

  function FindPrefix(s: string, prefixes: seq<(string, Operator)>): (r: Option<(string, Operator)>)
    ensures r.Some? ==> r.value.0 <= s && r.value in prefixes
  {
    if prefixes == [] then None else if prefixes[0].0 <= s then Some(prefixes[0]) else FindPrefix(s, prefixes[1..])
  }

  function ReadOperand(operand: string, operator: Operator, explicit: bool): Option<Clause> {
    match ReadWildcard(operand)
    case Invalid => None
    case Found(required) => if explicit then None else Some(Clause(Wildcard, required))
    case NotWildcard =>
      match ReadPartial(operand)
      case Some(required) =>
        if required.components != 3 && required.version.prerelease != [] then None else Some(Clause(operator, required))
      case None => None
  }

  /** `parseCargoRequirementClause`. */
  function ReadClause(text: string): Option<Clause> {
    var s := TrimSpace(text);
    if s == "" then None
    else
      match FindPrefix(s, PREFIXES)
      case Some(found) => ReadOperand(TrimSpace(s[|found.0|..]), found.1, true)
      case None => ReadOperand(s, Caret, false)
  }

  function ReadClauses(parts: seq<string>): Option<seq<Clause>> {
    if parts == [] then Some([])
    else
      match (ReadClauses(parts[..|parts| - 1]), ReadClause(parts[|parts| - 1]))
      case (Some(rest), Some(clause)) => Some(rest + [clause])
      case _ => None
  }

  /** `cargoVersionSatisfiesRequirement`. */
  predicate Satisfies(version: string, requirement: string) {
    var locked := ReadPartial(version);
    var text := TrimSpace(requirement);
    locked.Some? && locked.value.components == 3 && text != "" &&
    var clauses := ReadClauses(Split(text, ','));
    clauses.Some? && Accepted(clauses.value, locked.value.version)
  }

  // ----- the parsing loops -----

  lemma {:induction false} StopsAt(parts: seq<string>, i: nat)
    requires i <= |parts| && ReadNumbers(parts[..i]).None?
    ensures ReadNumbers(parts).None?
    decreases |parts|
  {
    TakeAll(parts);
    if i < |parts| {
      TakeOfTake(parts, |parts| - 1, i);
      StopsAt(parts[..|parts| - 1], i);
    }
  }

  method ParseCore(parts: seq<string>) returns (r: Option<(nat, nat, nat)>)
    requires |parts| <= 3
    ensures r.Some? == ReadNumbers(parts).Some?
    ensures r.Some? ==> var n := ReadNumbers(parts).value; r.value == (NumberAt(n, 0), NumberAt(n, 1), NumberAt(n, 2))
  {
    hide ReadNumber;
    var major, minor, patch := 0, 0, 0;
    ghost var read: seq<nat> := [];
    for i := 0 to |parts|
      invariant ReadNumbers(parts[..i]) == Some(read) && |read| == i
      invariant major == NumberAt(read, 0) && minor == NumberAt(read, 1) && patch == NumberAt(read, 2)
    {
      TakeLast(parts, i);
      var number := ReadNumber(parts[i]);
      if number.None? {
        StopsAt(parts, i + 1);
        return None;
      }
      match i {
        case 0 => major := number.value;
        case 1 => minor := number.value;
        case _ => patch := number.value;
      }
      read := read + [number.value];
    }
    TakeAll(parts);
    r := Some((major, minor, patch));
  }

  method ParsePartial(text: string) returns (r: Option<Partial>)
    ensures r == ReadPartial(text)
  {
    hide ReadNumbers, ReadSuffix, TrimSpace, Split, CoreEnd;
    var s := TrimSpace(text);
    if s == "" { return None; }
    var end := CoreEnd(s);
    var parts := Split(s[..end], '.');
    if |parts| > 3 { return None; }
    var core := ParseCore(parts);
    if core.None? { return None; }
    var prerelease := ReadSuffix(s[end..]);
    if prerelease.None? { return None; }
    r := Some(Partial(Version(core.value.0, core.value.1, core.value.2, prerelease.value), |parts|));
  }

  lemma {:induction false} FirstStarIs(parts: seq<string>, i: nat)
    requires i <= |parts| && (forall k :: 0 <= k < i ==> !IsStar(parts[k])) && (i < |parts| ==> IsStar(parts[i]))
    ensures FirstStar(parts) == i
  {
    hide IsStar;
    if i > 0 { FirstStarIs(parts[1..], i - 1); }
  }

  method ParseWildcard(text: string) returns (r: WildcardResult)
    ensures r == ReadWildcard(text)
  {
    hide TrimSpace, Split, Join, ReadPartial, IsStar;
    var parts := Split(TrimSpace(text), '.');
    var star: Option<nat> := None;
    for i := 0 to |parts|
      invariant star.None? ==> forall k :: 0 <= k < i ==> !IsStar(parts[k])
      invariant star.Some? ==> star.value < i && FirstStar(parts) == star.value
      invariant star.Some? ==> forall k :: star.value <= k < i ==> IsStar(parts[k])
    {
      if IsStar(parts[i]) {
        if star.None? {
          star := Some(i);
          FirstStarIs(parts, i);
        }
        continue;
      }
      if star.Some? { return Invalid; }
    }
    if star.None? {
      FirstStarIs(parts, |parts|);
      return NotWildcard;
    }
    if |parts| > 3 { return Invalid; }
    if star.value == 0 { return if |parts| == 1 then Found(ANY) else Invalid; }
    var required := ParsePartial(Join(parts[..star.value], '.'));
    r := if required.Some? then Found(required.value) else Invalid;
  }

  method ParseClause(text: string) returns (r: Option<Clause>)
    ensures r == ReadClause(text)
  {
    hide TrimSpace, ReadPartial, ReadWildcard;
    var s := TrimSpace(text);
    if s == "" { return None; }
    var operator, explicit, operand := Caret, false, s;
    for i := 0 to |PREFIXES|
      invariant FindPrefix(s, PREFIXES) == FindPrefix(s, PREFIXES[i..])
      invariant !explicit && operand == s && operator == Caret
    {
      assert PREFIXES[i..][1..] == PREFIXES[i + 1..];
      if PREFIXES[i].0 <= s {
        operator, explicit := PREFIXES[i].1, true;
        operand := TrimSpace(s[|PREFIXES[i].0|..]);
        break;
      }
    }
    assert ReadClause(text) == ReadOperand(operand, operator, explicit);
    var wildcard := ParseWildcard(operand);
    match wildcard {
      case Invalid => return None;
      case Found(required) => return if explicit then None else Some(Clause(Wildcard, required));
      case NotWildcard =>
    }
    var required := ParsePartial(operand);
    if required.None? || (required.value.components != 3 && required.value.version.prerelease != []) { return None; }
    r := Some(Clause(operator, required.value));
  }

  predicate Passes(parts: seq<string>, v: Version) {
    ReadClauses(parts).Some? && AllMatch(ReadClauses(parts).value, v)
  }

  lemma {:induction false} Fails(parts: seq<string>, i: nat, v: Version)
    requires i <= |parts| && !Passes(parts[..i], v)
    ensures !Passes(parts, v)
    decreases |parts|
  {
    hide ClauseMatches, ReadClause;
    TakeAll(parts);
    if i < |parts| {
      TakeOfTake(parts, |parts| - 1, i);
      Fails(parts[..|parts| - 1], i, v);
    }
  }

  method VersionSatisfies(version: string, requirement: string) returns (r: bool)
    ensures r == Satisfies(version, requirement)
  {
    hide TrimSpace, ReadPartial, ReadClause, Split, ClauseMatches, ActivatesPrerelease;
    var locked := ParsePartial(version);
    if locked.None? || locked.value.components != 3 { return false; }
    var text := TrimSpace(requirement);
    if text == "" { return false; }
    var v := locked.value.version;
    var parts := Split(text, ',');
    var clauses: seq<Clause> := [];
    for i := 0 to |parts|
      invariant ReadClauses(parts[..i]) == Some(clauses)
      invariant AllMatch(clauses, v)
    {
      TakeLast(parts, i);
      var clause := ParseClause(parts[i]);
      if clause.None? || !ClauseMatches(clause.value, v) {
        Fails(parts, i + 1, v);
        return false;
      }
      clauses := clauses + [clause.value];
    }
    TakeAll(parts);
    if v.prerelease == [] { return true; }
    for i := 0 to |clauses|
      invariant forall k :: 0 <= k < i ==> !ActivatesPrerelease(clauses[k], v)
    {
      if ActivatesPrerelease(clauses[i], v) { return true; }
    }
    r := false;
  }
}
