/** internal/advisory/sync.go: the streaming checks of a downloaded OSV JSON snapshot, as functions of the
    token stream that a decoder hands out, and the validators that advance one shared decoder. A function yields what
    it found and the tokens it left, or rejects; a validator is proved to succeed exactly when its function does, and
    then to leave the decoder where the function says. What the functions mean for the tree of a document is said in
    `OsvTrees`; here they are what ties the loops over the decoder to that meaning. */
module OsvTokens {
  import opened Strings
  import opened Results

  /** What `json.Decoder.Token` yields; `Scalar` is a number, a boolean or null. */
  datatype Token = BeginArray | EndArray | BeginObject | EndObject | Text(text: string) | Scalar

  /** A check that fails, or succeeds with a value and leaves the rest of the stream. */
  datatype Parsed<+T> = Rejected | Done(value: T, rest: seq<Token>) {
    predicate IsFailure() { Rejected? }

    function PropagateFailure<U>(): Parsed<U>
      requires Rejected?
    {
      Rejected
    }

    function Extract(): (T, seq<Token>)
      requires Done?
    {
      (value, rest)
    }
  }

  /** `More`: another element follows in the current array or object. */
  predicate More(ts: seq<Token>) {
    ts != [] && !ts[0].EndArray? && !ts[0].EndObject?
  }

  function Require(ts: seq<Token>, want: Token): (r: Parsed<()>)
    ensures r.Done? ==> ts != [] && r.rest == ts[1..]
  {
    if ts != [] && ts[0] == want then Done((), ts[1..]) else Rejected
  }

  function ReadText(ts: seq<Token>): (r: Parsed<string>)
    ensures r.Done? ==> ts != [] && r.rest == ts[1..]
  {
    if ts != [] && ts[0].Text? then Done(ts[0].text, ts[1..]) else Rejected
  }

  function ReadNonblank(ts: seq<Token>): (r: Parsed<()>)
    ensures r.Done? ==> |r.rest| < |ts|
  {
    var (text, rest) :- ReadText(ts);
    if Blank(text) then Rejected else Done((), rest)
  }

  function DiscardOpened(ts: seq<Token>, depth: nat): (r: Parsed<()>)
    ensures r.Done? ==> |r.rest| <= |ts|
    decreases |ts|
  {
    if depth == 0 then Done((), ts)
    else if ts == [] then Rejected
    else match ts[0]
      case BeginArray => DiscardOpened(ts[1..], depth + 1)
      case BeginObject => DiscardOpened(ts[1..], depth + 1)
      case EndArray => DiscardOpened(ts[1..], depth - 1)
      case EndObject => DiscardOpened(ts[1..], depth - 1)
      case _ => DiscardOpened(ts[1..], depth)
  }

  function Discard(ts: seq<Token>): (r: Parsed<()>)
    ensures r.Done? ==> |r.rest| < |ts|
  {
    if ts == [] || ts[0].EndArray? || ts[0].EndObject? then Rejected
    else if ts[0].BeginArray? || ts[0].BeginObject? then DiscardOpened(ts[1..], 1)
    else Done((), ts[1..])
  }

  function PackageFields(ts: seq<Token>, foundName: bool): (r: Parsed<bool>)
    ensures r.Done? ==> |r.rest| <= |ts|
    decreases |ts|
  {
    if !More(ts) then Done(foundName, ts)
    else
      var (name, ts1) :- ReadText(ts);
      if name != "name" then
        var (_, ts2) :- Discard(ts1);
        PackageFields(ts2, foundName)
      else if foundName then Rejected
      else
        var (_, ts2) :- ReadNonblank(ts1);
        PackageFields(ts2, true)
  }

  function Package(ts: seq<Token>): (r: Parsed<bool>)
    ensures r.Done? ==> |r.rest| < |ts|
  {
    var (_, ts1) :- Require(ts, BeginObject);
    var (found, ts2) :- PackageFields(ts1, false);
    var (_, ts3) :- Require(ts2, EndObject);
    Done(found, ts3)
  }

  function VersionItems(ts: seq<Token>, found: bool): (r: Parsed<bool>)
    ensures r.Done? ==> |r.rest| <= |ts|
    decreases |ts|
  {
    if !More(ts) then Done(found, ts)
    else
      var (version, ts1) :- ReadText(ts);
      VersionItems(ts1, found || !Blank(version))
  }

  function Versions(ts: seq<Token>): (r: Parsed<bool>)
    ensures r.Done? ==> |r.rest| < |ts|
  {
    var (_, ts1) :- Require(ts, BeginArray);
    var (found, ts2) :- VersionItems(ts1, false);
    var (_, ts3) :- Require(ts2, EndArray);
    Done(found, ts3)
  }

  function RangeItems(ts: seq<Token>, found: bool): (r: Parsed<bool>)
    ensures r.Done? ==> |r.rest| <= |ts|
    decreases |ts|
  {
    if !More(ts) then Done(found, ts)
    else
      var (_, ts1) :- Require(ts, BeginObject);
      var (_, ts2) :- DiscardOpened(ts1, 1);
      RangeItems(ts2, true)
  }

  function Ranges(ts: seq<Token>): (r: Parsed<bool>)
    ensures r.Done? ==> |r.rest| < |ts|
  {
    var (_, ts1) :- Require(ts, BeginArray);
    var (found, ts2) :- RangeItems(ts1, false);
    var (_, ts3) :- Require(ts2, EndArray);
    Done(found, ts3)
  }

  datatype AffectedShape = AffectedShape(
    packageSeen: bool, packageNamed: bool, versionsSeen: bool, versionConstraint: bool,
    rangesSeen: bool, rangeConstraint: bool)

  const NO_AFFECTED := AffectedShape(false, false, false, false, false, false)

  function AffectedField(ts: seq<Token>, name: string, shape: AffectedShape): (r: Parsed<AffectedShape>)
    ensures r.Done? ==> |r.rest| < |ts|
  {
    if name == "package" then
      if shape.packageSeen then Rejected
      else
        var (named, rest) :- Package(ts);
        Done(shape.(packageSeen := true, packageNamed := named), rest)
    else if name == "versions" then
      if shape.versionsSeen then Rejected
      else
        var (versioned, rest) :- Versions(ts);
        Done(shape.(versionsSeen := true, versionConstraint := versioned), rest)
    else if name == "ranges" then
      if shape.rangesSeen then Rejected
      else
        var (ranged, rest) :- Ranges(ts);
        Done(shape.(rangesSeen := true, rangeConstraint := ranged), rest)
    else
      var (_, rest) :- Discard(ts);
      Done(shape, rest)
  }

  function AffectedFields(ts: seq<Token>, shape: AffectedShape): (r: Parsed<AffectedShape>)
    ensures r.Done? ==> |r.rest| <= |ts|
    decreases |ts|
  {
    if !More(ts) then Done(shape, ts)
    else
      var (name, ts1) :- ReadText(ts);
      var (next, ts2) :- AffectedField(ts1, name, shape);
      AffectedFields(ts2, next)
  }

  function IsUsable(shape: AffectedShape): bool {
    shape.packageNamed && (shape.versionConstraint || shape.rangeConstraint)
  }

  function AffectedObject(ts: seq<Token>): (r: Parsed<bool>)
    ensures r.Done? ==> |r.rest| < |ts|
  {
    var (shape, ts1) :- AffectedFields(ts, NO_AFFECTED);
    var (_, ts2) :- Require(ts1, EndObject);
    Done(IsUsable(shape), ts2)
  }

  function AffectedItems(ts: seq<Token>, usable: bool): (r: Parsed<bool>)
    ensures r.Done? ==> |r.rest| <= |ts|
    decreases |ts|
  {
    if !More(ts) then Done(usable, ts)
    else
      var (_, ts1) :- Require(ts, BeginObject);
      var (entryUsable, ts2) :- AffectedObject(ts1);
      AffectedItems(ts2, usable || entryUsable)
  }

  function AffectedEntries(ts: seq<Token>): (r: Parsed<bool>)
    ensures r.Done? ==> |r.rest| < |ts|
  {
    var (_, ts1) :- Require(ts, BeginArray);
    var (usable, ts2) :- AffectedItems(ts1, false);
    var (_, ts3) :- Require(ts2, EndArray);
    Done(usable, ts3)
  }

  datatype AdvisoryShape = AdvisoryShape(idSeen: bool, affectedSeen: bool, usableAffected: bool)

  const NO_ADVISORY := AdvisoryShape(false, false, false)

  function AdvisoryField(ts: seq<Token>, name: string, shape: AdvisoryShape): (r: Parsed<AdvisoryShape>)
    ensures r.Done? ==> |r.rest| < |ts|
  {
    if name == "id" then
      if shape.idSeen then Rejected
      else
        var (_, rest) :- ReadNonblank(ts);
        Done(shape.(idSeen := true), rest)
    else if name == "affected" then
      if shape.affectedSeen then Rejected
      else
        var (usable, rest) :- AffectedEntries(ts);
        Done(shape.(affectedSeen := true, usableAffected := usable), rest)
    else
      var (_, rest) :- Discard(ts);
      Done(shape, rest)
  }

  predicate IsComplete(shape: AdvisoryShape) {
    shape.idSeen && shape.affectedSeen && shape.usableAffected
  }

  function AdvisoryFields(ts: seq<Token>, shape: AdvisoryShape): (r: Parsed<AdvisoryShape>)
    ensures r.Done? ==> |r.rest| <= |ts|
    decreases |ts|
  {
    if !More(ts) then Done(shape, ts)
    else
      var (name, ts1) :- ReadText(ts);
      var (next, ts2) :- AdvisoryField(ts1, name, shape);
      AdvisoryFields(ts2, next)
  }

  function AdvisoryObject(ts: seq<Token>): (r: Parsed<()>)
    ensures r.Done? ==> |r.rest| < |ts|
  {
    var (shape, ts1) :- AdvisoryFields(ts, NO_ADVISORY);
    var (_, ts2) :- Require(ts1, EndObject);
    if IsComplete(shape) then Done((), ts2) else Rejected
  }

  function EntryItems(ts: seq<Token>): (r: Parsed<()>)
    ensures r.Done? ==> |r.rest| <= |ts|
    decreases |ts|
  {
    if !More(ts) then Done((), ts)
    else
      var (_, ts1) :- Require(ts, BeginObject);
      var (_, ts2) :- AdvisoryObject(ts1);
      EntryItems(ts2)
  }

  function Entries(ts: seq<Token>): (r: Parsed<()>)
    ensures r.Done? ==> |r.rest| < |ts|
  {
    var (_, ts1) :- EntryItems(ts);
    Require(ts1, EndArray)
  }

  function TopLevelFields(ts: seq<Token>, foundVulns: bool, shape: AdvisoryShape): (r: Parsed<(bool, AdvisoryShape)>)
    ensures r.Done? ==> |r.rest| <= |ts|
    decreases |ts|
  {
    if !More(ts) then Done((foundVulns, shape), ts)
    else
      var (name, ts1) :- ReadText(ts);
      if name == "vulns" then
        if foundVulns then Rejected
        else
          var (_, ts2) :- Require(ts1, BeginArray);
          var (_, ts3) :- Entries(ts2);
          TopLevelFields(ts3, true, shape)
      else
        var (next, ts2) :- AdvisoryField(ts1, name, shape);
        TopLevelFields(ts2, foundVulns, next)
  }

  function TopLevelObject(ts: seq<Token>): Parsed<()> {
    var (found, ts1) :- TopLevelFields(ts, false, NO_ADVISORY);
    var (_, ts2) :- Require(ts1, EndObject);
    if found.0 || IsComplete(found.1) then Done((), ts2) else Rejected
  }

  /** The whole stream is one acceptable document and nothing follows it. */
  predicate Accepts(ts: seq<Token>) {
    ts != [] &&
    match ts[0]
    case BeginArray => Entries(ts[1..]) == Done((), [])
    case BeginObject => TopLevelObject(ts[1..]) == Done((), [])
    case _ => false
  }

  // ----- the validators, advancing a shared decoder -----

  class Decoder {
    var rest: seq<Token>

    constructor (tokens: seq<Token>)
      ensures rest == tokens
    {
      rest := tokens;
    }

    method Token() returns (token: Option<Token>)
      modifies this
      ensures old(rest) == [] ==> token.None? && rest == []
      ensures old(rest) != [] ==> token == Some(old(rest)[0]) && rest == old(rest)[1..]
    {
      if rest == [] { return None; }
      token, rest := Some(rest[0]), rest[1..];
    }

    method HasMore() returns (more: bool)
      ensures more == More(rest)
    {
      more := rest != [] && !rest[0].EndArray? && !rest[0].EndObject?;
    }

    method RequireDelimiter(want: Token) returns (ok: bool)
      modifies this
      ensures ok == Require(old(rest), want).Done?
      ensures ok ==> rest == Require(old(rest), want).rest
    {
      var token := Token();
      ok := token == Some(want);
    }

    method ReadName() returns (name: Option<string>)
      modifies this
      ensures name.Some? == ReadText(old(rest)).Done?
      ensures name.Some? ==> name.value == ReadText(old(rest)).value && rest == ReadText(old(rest)).rest
    {
      var token := Token();
      if token.None? || !token.value.Text? { return None; }
      name := Some(token.value.text);
    }

    method ReadNonblankText() returns (ok: bool)
      modifies this
      ensures ok == ReadNonblank(old(rest)).Done?
      ensures ok ==> rest == ReadNonblank(old(rest)).rest
    {
      var text := ReadName();
      ok := text.Some? && !Blank(text.value);
    }

    /** `discardOpenedJSONValue`: the loop ends because every round takes a token. */
    method DiscardOpenedValue() returns (ok: bool)
      modifies this
      ensures ok == DiscardOpened(old(rest), 1).Done?
      ensures ok ==> rest == DiscardOpened(old(rest), 1).rest
    {
      var depth: nat := 1;
      while depth > 0
        invariant DiscardOpened(old(rest), 1) == DiscardOpened(rest, depth)
        decreases |rest|
      {
        var token := Token();
        if token.None? { return false; }
        match token.value {
          case BeginArray => depth := depth + 1;
          case BeginObject => depth := depth + 1;
          case EndArray => depth := depth - 1;
          case EndObject => depth := depth - 1;
          case _ =>
        }
      }
      ok := true;
    }

    method DiscardValue() returns (ok: bool)
      modifies this
      ensures ok == Discard(old(rest)).Done?
      ensures ok ==> rest == Discard(old(rest)).rest
    {
      var token := Token();
      if token.None? || token.value.EndArray? || token.value.EndObject? { return false; }
      if !token.value.BeginArray? && !token.value.BeginObject? { return true; }
      ok := DiscardOpenedValue();
    }

    method ValidatePackage() returns (ok: bool, named: bool)
      modifies this
      ensures ok == Package(old(rest)).Done?
      ensures ok ==> named == Package(old(rest)).value && rest == Package(old(rest)).rest
    {
      named := false;
      ok := RequireDelimiter(BeginObject);
      if !ok { return; }
      ghost var start := rest;
      var more := HasMore();
      while more
        invariant more == More(rest)
        invariant PackageFields(start, false) == PackageFields(rest, named)
        decreases |rest|
      {
        var name := ReadName();
        if name.None? { return false, named; }
        if name.value != "name" {
          ok := DiscardValue();
        } else if named {
          return false, named;
        } else {
          ok := ReadNonblankText();
          named := true;
        }
        if !ok { return; }
        more := HasMore();
      }
      ok := RequireDelimiter(EndObject);
    }

    method ValidateVersions() returns (ok: bool, found: bool)
      modifies this
      ensures ok == Versions(old(rest)).Done?
      ensures ok ==> found == Versions(old(rest)).value && rest == Versions(old(rest)).rest
    {
      found := false;
      ok := RequireDelimiter(BeginArray);
      if !ok { return; }
      ghost var start := rest;
      var more := HasMore();
      while more
        invariant more == More(rest)
        invariant VersionItems(start, false) == VersionItems(rest, found)
        decreases |rest|
      {
        var version := ReadName();
        if version.None? { return false, found; }
        found := found || !Blank(version.value);
        more := HasMore();
      }
      ok := RequireDelimiter(EndArray);
    }

    method ValidateRanges() returns (ok: bool, found: bool)
      modifies this
      ensures ok == Ranges(old(rest)).Done?
      ensures ok ==> found == Ranges(old(rest)).value && rest == Ranges(old(rest)).rest
    {
      found := false;
      ok := RequireDelimiter(BeginArray);
      if !ok { return; }
      ghost var start := rest;
      var more := HasMore();
      while more
        invariant more == More(rest)
        invariant RangeItems(start, false) == RangeItems(rest, found)
        decreases |rest|
      {
        ok := RequireDelimiter(BeginObject);
        if !ok { return; }
        ok := DiscardOpenedValue();
        if !ok { return; }
        found := true;
        more := HasMore();
      }
      ok := RequireDelimiter(EndArray);
    }

    method ReadAffectedField(name: string, shape: AffectedShape) returns (ok: bool, next: AffectedShape)
      modifies this
      ensures ok == AffectedField(old(rest), name, shape).Done?
      ensures ok ==>
        next == AffectedField(old(rest), name, shape).value && rest == AffectedField(old(rest), name, shape).rest
    {
      next := shape;
      var flag: bool;
      if name == "package" {
        if shape.packageSeen { return false, next; }
        ok, flag := ValidatePackage();
        next := next.(packageSeen := true, packageNamed := flag);
      } else if name == "versions" {
        if shape.versionsSeen { return false, next; }
        ok, flag := ValidateVersions();
        next := next.(versionsSeen := true, versionConstraint := flag);
      } else if name == "ranges" {
        if shape.rangesSeen { return false, next; }
        ok, flag := ValidateRanges();
        next := next.(rangesSeen := true, rangeConstraint := flag);
      } else {
        ok := DiscardValue();
      }
    }

    method ValidateAffectedObject() returns (ok: bool, usable: bool)
      modifies this
      ensures ok == AffectedObject(old(rest)).Done?
      ensures ok ==> usable == AffectedObject(old(rest)).value && rest == AffectedObject(old(rest)).rest
    {
      var shape := NO_AFFECTED;
      usable := false;
      var more := HasMore();
      while more
        invariant more == More(rest)
        invariant AffectedFields(old(rest), NO_AFFECTED) == AffectedFields(rest, shape)
        decreases |rest|
      {
        var name := ReadName();
        if name.None? { return false, usable; }
        ok, shape := ReadAffectedField(name.value, shape);
        if !ok { return; }
        more := HasMore();
      }
      ok := RequireDelimiter(EndObject);
      usable := IsUsable(shape);
    }

    method ValidateAffectedEntries() returns (ok: bool, usable: bool)
      modifies this
      ensures ok == AffectedEntries(old(rest)).Done?
      ensures ok ==> usable == AffectedEntries(old(rest)).value && rest == AffectedEntries(old(rest)).rest
    {
      usable := false;
      ok := RequireDelimiter(BeginArray);
      if !ok { return; }
      ghost var start := rest;
      var more := HasMore();
      while more
        invariant more == More(rest)
        invariant AffectedItems(start, false) == AffectedItems(rest, usable)
        decreases |rest|
      {
        ok := RequireDelimiter(BeginObject);
        if !ok { return; }
        var entryUsable;
        ok, entryUsable := ValidateAffectedObject();
        if !ok { return; }
        usable := usable || entryUsable;
        more := HasMore();
      }
      ok := RequireDelimiter(EndArray);
    }

    method ReadAdvisoryField(name: string, shape: AdvisoryShape) returns (ok: bool, next: AdvisoryShape)
      modifies this
      ensures ok == AdvisoryField(old(rest), name, shape).Done?
      ensures ok ==>
        next == AdvisoryField(old(rest), name, shape).value && rest == AdvisoryField(old(rest), name, shape).rest
    {
      next := shape;
      if name == "id" {
        if shape.idSeen { return false, next; }
        ok := ReadNonblankText();
        next := next.(idSeen := true);
      } else if name == "affected" {
        if shape.affectedSeen { return false, next; }
        var usable;
        ok, usable := ValidateAffectedEntries();
        next := next.(affectedSeen := true, usableAffected := usable);
      } else {
        ok := DiscardValue();
      }
    }

    method ValidateAdvisoryObject() returns (ok: bool)
      modifies this
      ensures ok == AdvisoryObject(old(rest)).Done?
      ensures ok ==> rest == AdvisoryObject(old(rest)).rest
    {
      var shape := NO_ADVISORY;
      var more := HasMore();
      while more
        invariant more == More(rest)
        invariant AdvisoryFields(old(rest), NO_ADVISORY) == AdvisoryFields(rest, shape)
        decreases |rest|
      {
        var name := ReadName();
        if name.None? { return false; }
        ok, shape := ReadAdvisoryField(name.value, shape);
        if !ok { return; }
        more := HasMore();
      }
      ok := RequireDelimiter(EndObject);
      ok := ok && IsComplete(shape);
    }

    method ValidateEntries() returns (ok: bool)
      modifies this
      ensures ok == Entries(old(rest)).Done?
      ensures ok ==> rest == Entries(old(rest)).rest
    {
      var more := HasMore();
      while more
        invariant more == More(rest)
        invariant EntryItems(old(rest)) == EntryItems(rest)
        decreases |rest|
      {
        ok := RequireDelimiter(BeginObject);
        if !ok { return; }
        ok := ValidateAdvisoryObject();
        if !ok { return; }
        more := HasMore();
      }
      ok := RequireDelimiter(EndArray);
    }

    method ValidateTopLevelObject() returns (ok: bool)
      modifies this
      ensures ok == TopLevelObject(old(rest)).Done?
      ensures ok ==> rest == TopLevelObject(old(rest)).rest
    {
      var foundVulns, shape := false, NO_ADVISORY;
      var more := HasMore();
      while more
        invariant more == More(rest)
        invariant TopLevelFields(old(rest), false, NO_ADVISORY) == TopLevelFields(rest, foundVulns, shape)
        decreases |rest|
      {
        var name := ReadName();
        if name.None? { return false; }
        if name.value == "vulns" {
          if foundVulns { return false; }
          ok := RequireDelimiter(BeginArray);
          if !ok { return; }
          ok := ValidateEntries();
          if !ok { return; }
          foundVulns := true;
        } else {
          ok, shape := ReadAdvisoryField(name.value, shape);
          if !ok { return; }
        }
        more := HasMore();
      }
      ok := RequireDelimiter(EndObject);
      ok := ok && (foundVulns || IsComplete(shape));
    }
  }

  /** `validateOSVJSONSnapshot`. */
  method Validate(tokens: seq<Token>) returns (ok: bool)
    ensures ok == Accepts(tokens)
  {
    var decoder := new Decoder(tokens);
    var token := decoder.Token();
    if token.None? { return false; }
    if token.value.BeginArray? {
      ok := decoder.ValidateEntries();
    } else if token.value.BeginObject? {
      ok := decoder.ValidateTopLevelObject();
    } else {
      return false;
    }
    if !ok { return; }
    var trailing := decoder.Token();
    ok := trailing.None?;
  }
}
