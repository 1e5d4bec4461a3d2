/** internal/baseline/snapshot.go: the byte scanner that looks at the top-level fields of a baseline snapshot. Each
    method advances an index; the function it is proved against says what is left of the text. */
module BaselineEnvelope {
  import opened Strings
  import opened Results
  import opened Seqs

  predicate IsJsonSpace(c: char) {
    c == ' ' || c == '\n' || c == '\r' || c == '\t'
  }

  function SkipSpace(s: string): (r: string)
    ensures |r| <= |s|
  {
    if s != "" && IsJsonSpace(s[0]) then SkipSpace(s[1..]) else s
  }

  /** Behind the quote that closes the string. */
  function AfterQuote(s: string): (r: Option<string>)
    ensures r.Some? ==> |r.value| < |s|
    decreases |s|
  {
    if s == "" then None
    else match s[0]
      case '"' => Some(s[1..])
      case '\\' => if |s| < 2 then None else AfterQuote(s[2..])
      case '\n' => None
      case '\r' => None
      case _ => AfterQuote(s[1..])
  }

  function AfterString(s: string): (r: Option<string>)
    ensures r.Some? ==> |r.value| < |s|
  {
    if s == "" || s[0] != '"' then None else AfterQuote(s[1..])
  }

  /** Behind the value, `depth` brackets being open. */
  function AfterValue(s: string, depth: nat): (r: Option<string>)
    ensures r.Some? ==> |r.value| <= |s|
    decreases |s|
  {
    if s == "" then if depth == 0 then Some("") else None
    else match s[0]
      case '"' =>
        (match AfterQuote(s[1..])
         case Some(rest) => AfterValue(rest, depth)
         case None => None)
      case '{' => AfterValue(s[1..], depth + 1)
      case '[' => AfterValue(s[1..], depth + 1)
      case '}' => if depth == 0 then Some(s) else if depth == 1 then Some(s[1..]) else AfterValue(s[1..], depth - 1)
      case ']' => if depth == 0 then Some(s) else if depth == 1 then Some(s[1..]) else AfterValue(s[1..], depth - 1)
      case c => if depth == 0 && (c == ',' || IsJsonSpace(c)) then Some(s) else AfterValue(s[1..], depth)
  }

  function SkipValue(s: string): (r: Option<string>)
    ensures r.Some? ==> |r.value| <= |s|
  {
    var t := SkipSpace(s);
    if t == "" then None else AfterValue(t, 0)
  }

  /** `json.Unmarshal` of a quoted string. */
  type Decode = string -> Option<string>

  /** The decoded string and what follows it. */
  function ReadString(s: string, decode: Decode): (r: Option<(string, string)>)
    ensures r.Some? ==> |r.value.1| < |s|
  {
    match AfterString(s)
    case None => None
    case Some(rest) =>
      match decode(s[..|s| - |rest|])
      case Some(value) => Some((value, rest))
      case None => None
  }

  datatype State = State(version: string, hasVersion: bool, hasTypedFields: bool)

  datatype Outcome = Legacy | Typed(version: string) | Failed

  /** `Fatal` is an invalid version discriminator, `Broken` any other error. */
  datatype Step = Fatal | Broken(state: State) | Next(rest: string, done: bool, state: State)

  predicate IsTypedField(name: string) {
    EqualFold(name, "key") || EqualFold(name, "savedAt") || EqualFold(name, "report")
  }

  predicate IsVersionField(name: string) {
    EqualFold(name, "baselineSchemaVersion")
  }

  /** A version is a string that decodes; `null`, numbers and everything else are not. */
  function ReadVersion(s: string, decode: Decode): (r: Option<(string, string)>)
    ensures r.Some? ==> |r.value.1| <= |s|
  {
    var t := SkipSpace(s);
    if t == "" || t[0] != '"' then None else ReadString(t, decode)
  }

  function FinishField(s: string, state: State): (r: Step)
    ensures r.Next? ==> |r.rest| < |s|
  {
    var t := SkipSpace(s);
    if t == "" then Broken(state)
    else if t[0] == ',' then Next(t[1..], false, state)
    else if t[0] == '}' then Next(t[1..], true, state)
    else Broken(state)
  }

  /** `inspectSnapshotEnvelopeField`: a step that succeeds is shorter than what it started from. */
  function InspectField(s: string, state: State, decode: Decode): (r: Step)
    ensures r.Next? ==> |r.rest| < |s|
  {
    var t := SkipSpace(s);
    if t == "" then Broken(state)
    else if t[0] == '}' then Next(t[1..], true, state)
    else
      match ReadString(t, decode)
      case None => Broken(state)
      case Some(field) =>
        var u := SkipSpace(field.1);
        if u == "" || u[0] != ':' then Broken(state)
        else if IsVersionField(field.0) then
          if state.hasVersion then Fatal
          else
            match ReadVersion(u[1..], decode)
            case None => Fatal
            case Some(read) => FinishField(read.1, state.(version := read.0, hasVersion := true))
        else
          var next := state.(hasTypedFields := state.hasTypedFields || IsTypedField(field.0));
          match SkipValue(u[1..])
          case None => Broken(next)
          case Some(rest) => FinishField(rest, next)
  }

  /** An error in a text that showed a typed field is an error of a typed snapshot. */
  function InspectionError(state: State): Outcome {
    if state.hasVersion || state.hasTypedFields then Failed else Legacy
  }

  function EnvelopeResult(state: State): Outcome {
    if !state.hasVersion || Blank(state.version) then if state.hasTypedFields then Failed else Legacy
    else Typed(state.version)
  }

  function InspectFields(s: string, state: State, decode: Decode): Outcome
    decreases |s|
  {
    match InspectField(s, state, decode)
    case Fatal => Failed
    case Broken(next) => InspectionError(next)
    case Next(rest, done, next) =>
      if !done then InspectFields(rest, next, decode)
      else if SkipSpace(rest) != "" then InspectionError(next)
      else EnvelopeResult(next)
  }

  const EMPTY := State("", false, false)

  /** `inspectSnapshotEnvelope`. */
  function Inspect(data: string, decode: Decode): Outcome {
    var t := SkipSpace(data);
    if t == "" || t[0] != '{' then Legacy else InspectFields(t[1..], EMPTY, decode)
  }

  // ----- the scanner -----

  method SkipWhitespace(data: string, start: nat) returns (index: nat)
    requires start <= |data|
    ensures start <= index <= |data| && data[index..] == SkipSpace(data[start..])
  {
    index := start;
    while index < |data| && IsJsonSpace(data[index])
      invariant start <= index <= |data|
      invariant SkipSpace(data[start..]) == SkipSpace(data[index..])
    {
      DropDrop(data, index, 1);
      index := index + 1;
    }
  }

  /** `skipSnapshotJSONString`, the opening quote being at `start`. */
  method SkipString(data: string, start: nat) returns (next: Option<nat>)
    requires start <= |data|
    ensures next.Some? == AfterString(data[start..]).Some?
    ensures next.Some? ==> start < next.value <= |data| && data[next.value..] == AfterString(data[start..]).value
  {
    if start >= |data| || data[start] != '"' { return None; }
    var index := start + 1;
    DropDrop(data, start, 1);
    while index < |data|
      invariant start < index <= |data|
      invariant AfterString(data[start..]) == AfterQuote(data[index..])
    {
      DropDrop(data, index, 1);
      match data[index] {
        case '"' => return Some(index + 1);
        case '\\' =>
          if index + 1 >= |data| { return None; }
          DropDrop(data, index, 2);
          index := index + 1;
        case '\n' => return None;
        case '\r' => return None;
        case _ =>
      }
      index := index + 1;
    }
    next := None;
  }

  /** `skipSnapshotJSONValueDelimiter`. */
  method SkipDelimiter(value: char, index: nat, depth: nat) returns (next: nat, done: bool, newDepth: nat)
    ensures done ==> newDepth == if value == '}' || value == ']' then (if depth == 0 then 0 else depth - 1) else depth
    ensures value == '{' || value == '[' ==> !done && newDepth == depth + 1
    ensures value == '}' || value == ']' ==>
      done == (depth <= 1) && (depth == 0 ==> next == index) && (depth == 1 ==> next == index + 1)
    ensures (value == '}' || value == ']') && depth > 1 ==> newDepth == depth - 1
    ensures value !in ['{', '[', '}', ']'] ==>
      newDepth == depth && done == (depth == 0 && (value == ',' || IsJsonSpace(value))) && (done ==> next == index)
  {
    newDepth := depth;
    match value {
      case '{' => newDepth := depth + 1;
      case '[' => newDepth := depth + 1;
      case '}' =>
        if depth == 0 { return index, true, depth; }
        newDepth := depth - 1;
        if newDepth == 0 { return index + 1, true, newDepth; }
      case ']' =>
        if depth == 0 { return index, true, depth; }
        newDepth := depth - 1;
        if newDepth == 0 { return index + 1, true, newDepth; }
      case _ =>
        if depth == 0 && (value == ',' || IsJsonSpace(value)) { return index, true, depth; }
    }
    next, done := 0, false;
  }

  method SkipJsonValue(data: string, start: nat) returns (next: Option<nat>)
    requires start <= |data|
    ensures next.Some? == SkipValue(data[start..]).Some?
    ensures next.Some? ==> start <= next.value <= |data| && data[next.value..] == SkipValue(data[start..]).value
  {
    hide SkipSpace;
    var index := SkipWhitespace(data, start);
    if index >= |data| { return None; }
    var depth: nat := 0;
    var current := index;
    while current < |data|
      invariant index <= current <= |data|
      invariant AfterValue(data[index..], 0) == AfterValue(data[current..], depth)
    {
      DropDrop(data, current, 1);
      if data[current] == '"' {
        var end := SkipString(data, current);
        if end.None? { return None; }
        current := end.value;
        continue;
      }
      var end, done, newDepth := SkipDelimiter(data[current], current, depth);
      if done { return Some(end); }
      depth := newDepth;
      current := current + 1;
    }
    if depth != 0 { return None; }
    next := Some(|data|);
  }

  method DecodeString(data: string, start: nat, decode: Decode) returns (r: Option<(string, nat)>)
    requires start <= |data|
    ensures r.Some? == ReadString(data[start..], decode).Some?
    ensures r.Some? ==>
      start < r.value.1 <= |data| && (r.value.0, data[r.value.1..]) == ReadString(data[start..], decode).value
  {
    hide AfterString;
    var next := SkipString(data, start);
    if next.None? { return None; }
    assert data[start..][..next.value - start] == data[start..next.value];
    match decode(data[start..next.value])
    case None => return None;
    case Some(value) => return Some((value, next.value));
  }

  method DecodeVersion(data: string, start: nat, decode: Decode) returns (r: Option<(string, nat)>)
    requires start <= |data|
    ensures r.Some? == ReadVersion(data[start..], decode).Some?
    ensures r.Some? ==>
      start < r.value.1 <= |data| && (r.value.0, data[r.value.1..]) == ReadVersion(data[start..], decode).value
  {
    hide SkipSpace, ReadString;
    var index := SkipWhitespace(data, start);
    if index >= |data| { return None; }
    if data[index] != '"' { return None; }
    r := DecodeString(data, index, decode);
  }

  class Envelope {
    const data: string
    var version: string
    var hasVersion: bool
    var hasTypedFields: bool

    constructor (data: string)
      ensures this.data == data && Abstract() == EMPTY
    {
      this.data := data;
      version, hasVersion, hasTypedFields := "", false, false;
    }

    function Abstract(): State
      reads this
    {
      State(version, hasVersion, hasTypedFields)
    }

    method Finish(start: nat) returns (ok: bool, index: nat, done: bool)
      requires start <= |data|
      ensures ok ==>
        start < index <= |data| && FinishField(data[start..], Abstract()) == Next(data[index..], done, Abstract())
      ensures !ok ==> FinishField(data[start..], Abstract()) == Broken(Abstract())
    {
      hide SkipSpace;
      index := SkipWhitespace(data, start);
      done := false;
      if index >= |data| { return false, index, done; }
      DropDrop(data, index, 1);
      if data[index] == ',' { return true, index + 1, false; }
      if data[index] == '}' { return true, index + 1, true; }
      ok := false;
    }

    /** One field: the index moves forward unless there is an error. */
    method Field(start: nat, decode: Decode) returns (ok: bool, fatal: bool, index: nat, done: bool)
      requires start <= |data|
      modifies this`version, this`hasVersion, this`hasTypedFields
      ensures ok ==> start < index <= |data|
      ensures InspectField(data[start..], old(Abstract()), decode)
           == if ok then Next(data[index..], done, Abstract()) else if fatal then Fatal else Broken(Abstract())
    {
      hide SkipSpace, ReadString, ReadVersion, FinishField, SkipValue, EqualFold, IsTypedField;
      fatal, done := false, false;
      index := SkipWhitespace(data, start);
      if index >= |data| { return false, false, index, done; }
      DropDrop(data, index, 1);
      if data[index] == '}' { return true, false, index + 1, true; }
      var field := DecodeString(data, index, decode);
      if field.None? { return false, false, index, done; }
      index := SkipWhitespace(data, field.value.1);
      if index >= |data| || data[index] != ':' { return false, false, index, done; }
      DropDrop(data, index, 1);
      index := index + 1;
      if EqualFold(field.value.0, "baselineSchemaVersion") {
        if hasVersion { return false, true, index, done; }
        hasVersion := true;
        var read := DecodeVersion(data, index, decode);
        if read.None? { return false, true, index, done; }
        version, index := read.value.0, read.value.1;
      } else {
        hasTypedFields := hasTypedFields || IsTypedField(field.value.0);
        var next := SkipJsonValue(data, index);
        if next.None? { return false, false, index, done; }
        index := next.value;
      }
      ok, index, done := Finish(index);
    }
  }

  /** Behind the closing brace. */
  function AfterLast(s: string, state: State): Outcome {
    if SkipSpace(s) != "" then InspectionError(state) else EnvelopeResult(state)
  }

  /** `inspectSnapshotEnvelope`: ends on every text. */
  method InspectSnapshot(data: string, decode: Decode) returns (outcome: Outcome)
    ensures outcome == Inspect(data, decode)
  {
    hide SkipSpace, InspectField, Blank;
    var index := SkipWhitespace(data, 0);
    assert data[0..] == data;
    if index == |data| || data[index] != '{' { return Legacy; }
    DropDrop(data, index, 1);
    index := index + 1;
    var envelope := new Envelope(data);
    var done := false;
    ghost var start := index;
    while !done
      invariant start <= index <= |data| && envelope.data == data && fresh(envelope)
      invariant !done ==> Inspect(data, decode) == InspectFields(data[index..], envelope.Abstract(), decode)
      invariant done ==> Inspect(data, decode) == AfterLast(data[index..], envelope.Abstract())
      decreases |data| - index, !done
    {
      var ok, fatal, next;
      ok, fatal, next, done := envelope.Field(index, decode);
      if !ok {
        if fatal { return Failed; }
        return InspectionError(envelope.Abstract());
      }
      index := next;
    }
    index := SkipWhitespace(data, index);
    if index != |data| { return InspectionError(envelope.Abstract()); }
    outcome := EnvelopeResult(envelope.Abstract());
  }
}
