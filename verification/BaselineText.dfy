/** internal/baseline/snapshot.go: on every well-formed JSON object text (section 4 of RFC 8259, with white space
    wherever it may stand) the scanner classifies by the top-level members alone. The syntax is concrete: numbers,
    names and texts are kept as written, so that the lemmas speak of the very characters the scanner sees. Lemmas
    ending in `Passed` say that a piece of text inside brackets leaves the scanner's depth as it was. */
module BaselineText {
  import opened Strings
  import opened Results
  import opened BaselineEnvelope

  /** Concrete syntax. `Plain` is a number, `true`, `false` or `null`; texts and names are what stands between the
      quotes; `blank` is the white space of an empty array or object. */
  datatype Value =
    | Plain(text: string)
    | Text(body: string)
    | Array(blank: string, items: seq<Item>)
    | Object(blank: string, members: seq<Member>)

  datatype Item = Item(before: string, value: Value, after: string)

  datatype Member = Member(before: string, name: string, afterName: string, beforeValue: string, value: Value,
    after: string)

  predicate IsSpaces(s: string) {
    forall i :: 0 <= i < |s| ==> IsJsonSpace(s[i])
  }

  /** Every number of section 6 of RFC 8259 consists of these characters. */
  predicate IsNumberChar(c: char) {
    '0' <= c <= '9' || c == '-' || c == '+' || c == '.' || c == 'e' || c == 'E'
  }

  predicate IsPlain(s: string) {
    s == "true" || s == "false" || s == "null" || (s != "" && forall i :: 0 <= i < |s| ==> IsNumberChar(s[i]))
  }

  /** Between the quotes: no quote, no control character, and every backslash takes a character with it. */
  predicate IsBody(s: string) {
    s == "" ||
    if s[0] == '\\' then |s| >= 2 && s[1] >= ' ' && IsBody(s[2..])
    else s[0] != '"' && s[0] >= ' ' && IsBody(s[1..])
  }

  predicate IsMember(m: Member)
    decreases m
  {
    IsSpaces(m.before) && IsBody(m.name) && IsSpaces(m.afterName) && IsSpaces(m.beforeValue) && IsValue(m.value) &&
      IsSpaces(m.after)
  }

  predicate IsValue(v: Value)
    decreases v
  {
    match v
    case Plain(text) => IsPlain(text)
    case Text(body) => IsBody(body)
    case Array(blank, items) => IsSpaces(blank) && forall i :: 0 <= i < |items| ==> IsItem(items[i])
    case Object(blank, members) => IsSpaces(blank) && forall i :: 0 <= i < |members| ==> IsMember(members[i])
  }

  predicate IsItem(item: Item)
    decreases item
  {
    IsSpaces(item.before) && IsSpaces(item.after) && IsValue(item.value)
  }

  function WriteItem(item: Item, k: string): string
    decreases item
  {
    item.before + Write(item.value, item.after + k)
  }

  function WriteItems(items: seq<Item>, k: string): string
    decreases items
  {
    if items == [] then k
    else WriteItem(items[0], if |items| == 1 then k else "," + WriteItems(items[1..], k))
  }

  function WriteMembers(members: seq<Member>, k: string): string
    decreases members
  {
    if members == [] then k
    else WriteMember(members[0], if |members| == 1 then k else "," + WriteMembers(members[1..], k))
  }

  /** The text of a value, followed by `k`. */
  function Write(v: Value, k: string): (r: string)
    decreases v
  {
    match v
    case Plain(text) => text + k
    case Text(body) => "\"" + body + "\"" + k
    case Array(blank, items) => "[" + if items == [] then blank + "]" + k else WriteItems(items, "]" + k)
    case Object(blank, members) => "{" + if members == [] then blank + "}" + k else WriteMembers(members, "}" + k)
  }

  function WriteMember(m: Member, k: string): string
    decreases m
  {
    m.before + "\"" + m.name + "\"" + m.afterName + ":" + m.beforeValue + Write(m.value, m.after + k)
  }

  // ----- the classification -----

  function NameOf(m: Member, decode: Decode): string {
    decode("\"" + m.name + "\"").GetOr("")
  }

  /** The names that count, without regard to case. */
  predicate IsDiscriminator(name: string) {
    Lower(name) == "baselineschemaversion"
  }

  predicate IsEnvelopeName(name: string) {
    Lower(name) in ["key", "savedat", "report"]
  }

  function VersionValues(members: seq<Member>, decode: Decode): seq<Value> {
    if members == [] then []
    else
      (if IsDiscriminator(NameOf(members[0], decode)) then [members[0].value] else []) +
      VersionValues(members[1..], decode)
  }

  predicate HasTypedField(members: seq<Member>, decode: Decode) {
    exists m <- members :: IsEnvelopeName(NameOf(m, decode))
  }

  function VersionOf(v: Value, decode: Decode): string {
    if v.Text? then decode("\"" + v.body + "\"").GetOr("") else ""
  }

  /** One nonblank string version makes a typed snapshot; none or a blank one makes a legacy snapshot unless a typed
      field occurs; everything else is an error. */
  function Classify(members: seq<Member>, decode: Decode): Outcome {
    var versions := VersionValues(members, decode);
    if |versions| > 1 || (exists v <- versions :: !v.Text?) then Failed
    else if versions == [] || Blank(VersionOf(versions[0], decode)) then
      if HasTypedField(members, decode) then Failed else Legacy
    else Typed(VersionOf(versions[0], decode))
  }

  /** The strings the scanner has to decode do decode. */
  predicate Decodes(members: seq<Member>, decode: Decode) {
    forall m <- members ::
      decode("\"" + m.name + "\"").Some? && (m.value.Text? ==> decode("\"" + m.value.body + "\"").Some?)
  }

  // ----- passing over text -----

  lemma {:induction false} SpaceSkipped(blank: string, k: string)
    requires IsSpaces(blank) && (k != "" ==> !IsJsonSpace(k[0]))
    ensures SkipSpace(blank + k) == k
  {
    if blank == "" {
      assert blank + k == k;
    } else {
      assert (blank + k)[1..] == blank[1..] + k;
      SpaceSkipped(blank[1..], k);
    }
  }

  lemma {:induction false} BodyPassed(body: string, k: string)
    requires IsBody(body)
    ensures AfterQuote(body + "\"" + k) == Some(k)
    decreases |body|
  {
    var s := body + "\"" + k;
    if body == "" {
      assert s == "\"" + k && s[1..] == k;
    } else if body[0] == '\\' {
      assert s[2..] == body[2..] + "\"" + k;
      BodyPassed(body[2..], k);
    } else {
      assert s[1..] == body[1..] + "\"" + k;
      BodyPassed(body[1..], k);
    }
  }

  lemma {:induction false} SpacePassed(blank: string, k: string, depth: nat)
    requires IsSpaces(blank) && depth > 0
    ensures AfterValue(blank + k, depth) == AfterValue(k, depth)
  {
    if blank == "" {
      assert blank + k == k;
    } else {
      assert (blank + k)[1..] == blank[1..] + k;
      SpacePassed(blank[1..], k, depth);
    }
  }

  predicate IsQuiet(c: char) {
    c != '"' && c != '{' && c != '}' && c != '[' && c != ']' && c != ',' && !IsJsonSpace(c)
  }

  lemma PlainIsQuiet(text: string)
    requires IsPlain(text)
    ensures text != "" && forall i :: 0 <= i < |text| ==> IsQuiet(text[i])
  {
  }

  lemma {:induction false} QuietPassed(text: string, k: string, depth: nat)
    requires forall i :: 0 <= i < |text| ==> IsQuiet(text[i])
    ensures AfterValue(text + k, depth) == AfterValue(k, depth)
  {
    if text == "" {
      assert text + k == k;
    } else {
      assert (text + k)[1..] == text[1..] + k;
      QuietPassed(text[1..], k, depth);
    }
  }

  lemma QuotedPassed(body: string, k: string, depth: nat)
    requires IsBody(body)
    ensures AfterValue("\"" + body + "\"" + k, depth) == AfterValue(k, depth)
  {
    var s := "\"" + body + "\"" + k;
    assert s[1..] == body + "\"" + k;
    BodyPassed(body, k);
  }

  lemma CharPassed(c: char, k: string, depth: nat)
    ensures depth > 0 && c == ',' ==> AfterValue([c] + k, depth) == AfterValue(k, depth)
    ensures c == ':' ==> AfterValue([c] + k, depth) == AfterValue(k, depth)
    ensures c == '[' || c == '{' ==> AfterValue([c] + k, depth) == AfterValue(k, depth + 1)
    ensures (c == ']' || c == '}') && depth > 1 ==> AfterValue([c] + k, depth) == AfterValue(k, depth - 1)
    ensures (c == ']' || c == '}') && depth == 1 ==> AfterValue([c] + k, depth) == Some(k)
  {
    assert ([c] + k)[1..] == k;
  }

  /** A member, regrouped from the left. */
  lemma MemberText(m: Member, k: string)
    ensures WriteMember(m, k)
      == m.before + ("\"" + m.name + "\"" + (m.afterName + (":" + (m.beforeValue + Write(m.value, m.after + k)))))
  {
    hide Write;
  }

  lemma {:induction false} ItemPassed(item: Item, k: string, depth: nat)
    requires IsItem(item) && depth > 0
    ensures AfterValue(WriteItem(item, k), depth) == AfterValue(k, depth)
    decreases item
  {
    hide AfterValue, Write;
    SpacePassed(item.before, Write(item.value, item.after + k), depth);
    ValuePassed(item.value, item.after + k, depth);
    SpacePassed(item.after, k, depth);
  }

  lemma {:induction false} ItemsPassed(items: seq<Item>, k: string, depth: nat)
    requires (forall i :: 0 <= i < |items| ==> IsItem(items[i])) && depth > 0
    ensures AfterValue(WriteItems(items, k), depth) == AfterValue(k, depth)
    decreases items
  {
    hide AfterValue, IsItem, WriteItem;
    if items != [] {
      ItemsPassed(items[1..], k, depth);
      CharPassed(',', WriteItems(items[1..], k), depth);
      ItemPassed(items[0], if |items| == 1 then k else "," + WriteItems(items[1..], k), depth);
    }
  }

  lemma {:induction false} MembersPassed(members: seq<Member>, k: string, depth: nat)
    requires (forall i :: 0 <= i < |members| ==> IsMember(members[i])) && depth > 0
    ensures AfterValue(WriteMembers(members, k), depth) == AfterValue(k, depth)
    decreases members
  {
    hide AfterValue, IsMember, WriteMember;
    if members != [] {
      MembersPassed(members[1..], k, depth);
      CharPassed(',', WriteMembers(members[1..], k), depth);
      MemberPassed(members[0], if |members| == 1 then k else "," + WriteMembers(members[1..], k), depth);
    }
  }

  /** Inside brackets, passing over a value changes nothing, whatever the value contains. */
  lemma {:induction false} ValuePassed(v: Value, k: string, depth: nat)
    requires IsValue(v) && depth > 0
    ensures AfterValue(Write(v, k), depth) == AfterValue(k, depth)
    decreases v
  {
    hide AfterValue, IsPlain, IsBody, IsSpaces;
    match v
    case Plain(text) =>
      PlainIsQuiet(text);
      QuietPassed(text, k, depth);
    case Text(body) => QuotedPassed(body, k, depth);
    case Array(blank, items) =>
      var rest := if items == [] then blank + "]" + k else WriteItems(items, "]" + k);
      CharPassed('[', rest, depth);
      CharPassed(']', k, depth + 1);
      if items == [] {
        assert rest == blank + ("]" + k);
        SpacePassed(blank, "]" + k, depth + 1);
      } else {
        ItemsPassed(items, "]" + k, depth + 1);
      }
    case Object(blank, members) =>
      var rest := if members == [] then blank + "}" + k else WriteMembers(members, "}" + k);
      CharPassed('{', rest, depth);
      CharPassed('}', k, depth + 1);
      if members == [] {
        assert rest == blank + ("}" + k);
        SpacePassed(blank, "}" + k, depth + 1);
      } else {
        MembersPassed(members, "}" + k, depth + 1);
      }
  }

  lemma {:induction false} MemberPassed(m: Member, k: string, depth: nat)
    requires IsMember(m) && depth > 0
    ensures AfterValue(WriteMember(m, k), depth) == AfterValue(k, depth)
    decreases m
  {
    hide AfterValue, Write, WriteMember;
    MemberText(m, k);
    var value := Write(m.value, m.after + k);
    var colon := ":" + (m.beforeValue + value);
    SpacePassed(m.before, "\"" + m.name + "\"" + (m.afterName + colon), depth);
    QuotedPassed(m.name, m.afterName + colon, depth);
    SpacePassed(m.afterName, colon, depth);
    CharPassed(':', m.beforeValue + value, depth);
    SpacePassed(m.beforeValue, value, depth);
    ValuePassed(m.value, m.after + k, depth);
    SpacePassed(m.after, k, depth);
  }

  // ----- a value at the top level -----

  /** What follows a top-level value: a comma, a closing brace, or white space. */
  predicate Ends(k: string) {
    k != "" && (k[0] == ',' || k[0] == '}' || IsJsonSpace(k[0]))
  }

  lemma EndsStop(k: string)
    requires Ends(k)
    ensures AfterValue(k, 0) == Some(k)
  {
  }

  lemma ValueStart(v: Value, k: string)
    requires IsValue(v)
    ensures Write(v, k) != "" && !IsJsonSpace(Write(v, k)[0])
    ensures Write(v, k)[0] == '"' <==> v.Text?
  {
    if v.Plain? { PlainIsQuiet(v.text); }
  }

  /** Skipping a value at the top level takes exactly that value. */
  lemma ValueSkipped(v: Value, k: string)
    requires IsValue(v) && Ends(k)
    ensures AfterValue(Write(v, k), 0) == Some(k)
  {
    hide AfterValue, IsPlain, IsBody, IsSpaces;
    EndsStop(k);
    match v
    case Plain(text) =>
      PlainIsQuiet(text);
      QuietPassed(text, k, 0);
    case Text(body) => QuotedPassed(body, k, 0);
    case Array(blank, items) =>
      var rest := if items == [] then blank + "]" + k else WriteItems(items, "]" + k);
      CharPassed('[', rest, 0);
      CharPassed(']', k, 1);
      if items == [] {
        assert rest == blank + ("]" + k);
        SpacePassed(blank, "]" + k, 1);
      } else {
        ItemsPassed(items, "]" + k, 1);
      }
    case Object(blank, members) =>
      var rest := if members == [] then blank + "}" + k else WriteMembers(members, "}" + k);
      CharPassed('{', rest, 0);
      CharPassed('}', k, 1);
      if members == [] {
        assert rest == blank + ("}" + k);
        SpacePassed(blank, "}" + k, 1);
      } else {
        MembersPassed(members, "}" + k, 1);
      }
  }

  // ----- fields -----

  /** The effect of one member, or none when it is an invalid version discriminator. */
  function Effect(m: Member, state: State, decode: Decode): Option<State> {
    var name := NameOf(m, decode);
    if IsVersionField(name) then
      if state.hasVersion || !m.value.Text? then None
      else Some(state.(version := VersionOf(m.value, decode), hasVersion := true))
    else Some(state.(hasTypedFields := state.hasTypedFields || IsTypedField(name)))
  }

  lemma QuotedRead(body: string, k: string, decode: Decode)
    requires IsBody(body) && decode("\"" + body + "\"").Some?
    ensures ReadString("\"" + body + "\"" + k, decode) == Some((decode("\"" + body + "\"").GetOr(""), k))
  {
    var s := "\"" + body + "\"" + k;
    assert s[1..] == body + "\"" + k;
    BodyPassed(body, k);
    assert s[..|s| - |k|] == "\"" + body + "\"";
  }

  lemma FinishRead(after: string, c: char, rest: string, state: State)
    requires IsSpaces(after) && (c == ',' || c == '}')
    ensures FinishField(after + ([c] + rest), state) == Next(rest, c == '}', state)
    ensures Ends(after + ([c] + rest))
  {
    SpaceSkipped(after, [c] + rest);
    assert ([c] + rest)[1..] == rest;
    if after == "" { assert after + ([c] + rest) == [c] + rest; }
  }

  lemma TextWritten(v: Value, k: string)
    requires v.Text?
    ensures Write(v, k) == "\"" + v.body + "\"" + k
  {
  }

  lemma FieldRead(m: Member, c: char, rest: string, state: State, decode: Decode)
    requires IsMember(m) && (c == ',' || c == '}')
    requires decode("\"" + m.name + "\"").Some? && (m.value.Text? ==> decode("\"" + m.value.body + "\"").Some?)
    ensures var next := Effect(m, state, decode);
      InspectField(WriteMember(m, [c] + rest), state, decode) ==
        if next.None? then Fatal else Next(rest, c == '}', next.value)
  {
    hide SkipSpace, AfterValue, ReadString, FinishField, IsBody, IsSpaces, Write, WriteMember, EqualFold;
    var k := m.after + ([c] + rest);
    var value := Write(m.value, k);
    var colon := ":" + (m.beforeValue + value);
    var name := "\"" + m.name + "\"" + (m.afterName + colon);
    MemberText(m, [c] + rest);
    SpaceSkipped(m.before, name);
    QuotedRead(m.name, m.afterName + colon, decode);
    SpaceSkipped(m.afterName, colon);
    assert colon[1..] == m.beforeValue + value;
    ValueStart(m.value, k);
    SpaceSkipped(m.beforeValue, value);
    FinishRead(m.after, c, rest, state);
    if IsVersionField(NameOf(m, decode)) {
      if m.value.Text? {
        assert value == "\"" + m.value.body + "\"" + k by { TextWritten(m.value, k); }
        QuotedRead(m.value.body, k, decode);
        FinishRead(m.after, c, rest, state.(version := VersionOf(m.value, decode), hasVersion := true));
      }
    } else {
      ValueSkipped(m.value, k);
      FinishRead(m.after, c, rest, state.(hasTypedFields := state.hasTypedFields || IsTypedField(NameOf(m, decode))));
    }
  }

  function Effects(members: seq<Member>, state: State, decode: Decode): Option<State> {
    if members == [] then Some(state)
    else
      match Effect(members[0], state, decode)
      case None => None
      case Some(next) => Effects(members[1..], next, decode)
  }

  /** The outcome of the fields, `k` standing behind the closing brace. */
  function Concluded(last: Option<State>, k: string): Outcome {
    if last.None? then Failed else AfterLast(k, last.value)
  }

  lemma {:induction false} FieldsRead(members: seq<Member>, k: string, state: State, decode: Decode)
    requires members != [] && (forall i :: 0 <= i < |members| ==> IsMember(members[i])) && Decodes(members, decode)
    ensures InspectFields(WriteMembers(members, "}" + k), state, decode)
         == Concluded(Effects(members, state, decode), k)
    decreases members
  {
    hide InspectField, Effect, IsMember, WriteMember, SkipSpace;
    assert members[0] in members;
    var next := Effect(members[0], state, decode);
    if |members| == 1 {
      assert members[1..] == [];
      FieldRead(members[0], '}', k, state, decode);
    } else {
      FieldRead(members[0], ',', WriteMembers(members[1..], "}" + k), state, decode);
      if next.Some? { FieldsRead(members[1..], k, next.value, decode); }
    }
  }

  // ----- the fold of the fields is the classification -----

  predicate Discriminates(members: seq<Member>, state: State, decode: Decode) {
    var versions := VersionValues(members, decode);
    |versions| <= (if state.hasVersion then 0 else 1) && forall v <- versions :: v.Text?
  }

  function Final(members: seq<Member>, state: State, decode: Decode): State {
    var versions := VersionValues(members, decode);
    State(if versions == [] then state.version else VersionOf(versions[0], decode),
      state.hasVersion || versions != [],
      state.hasTypedFields || HasTypedField(members, decode))
  }

  lemma TypedSplits(members: seq<Member>, decode: Decode)
    requires members != []
    ensures HasTypedField(members, decode) <==>
      IsEnvelopeName(NameOf(members[0], decode)) || HasTypedField(members[1..], decode)
  {
    hide NameOf, IsEnvelopeName;
    assert members == [members[0]] + members[1..];
  }

  lemma NoTypedField(decode: Decode)
    ensures !HasTypedField([], decode)
  {
  }

  /** The code's names are these, and the version's is none of the others. */
  lemma SameNames(name: string)
    ensures IsVersionField(name) == IsDiscriminator(name) && IsTypedField(name) == IsEnvelopeName(name)
    ensures IsDiscriminator(name) ==> !IsEnvelopeName(name)
  {
    assert Lower("baselineSchemaVersion") == "baselineschemaversion";
    assert Lower("key") == "key" && Lower("savedAt") == "savedat" && Lower("report") == "report";
  }

  lemma {:induction false} EffectsFold(members: seq<Member>, state: State, decode: Decode)
    ensures Effects(members, state, decode) ==
      if Discriminates(members, state, decode) then Some(Final(members, state, decode)) else None
  {
    hide NameOf, IsTypedField, IsVersionField, IsDiscriminator, IsEnvelopeName, HasTypedField, VersionOf;
    if members == [] {
      assert !HasTypedField([], decode) by { NoTypedField(decode); }
    } else {
      TypedSplits(members, decode);
      SameNames(NameOf(members[0], decode));
      var next := Effect(members[0], state, decode);
      if IsVersionField(NameOf(members[0], decode)) {
        assert VersionValues(members, decode) == [members[0].value] + VersionValues(members[1..], decode);
        assert members[0].value in VersionValues(members, decode);
        assert VersionValues(members, decode)[1..] == VersionValues(members[1..], decode);
      } else {
        assert VersionValues(members, decode) == VersionValues(members[1..], decode);
      }
      if next.Some? { EffectsFold(members[1..], next.value, decode); }
    }
  }

  lemma ResultClassifies(members: seq<Member>, decode: Decode)
    ensures Concluded(Effects(members, EMPTY, decode), "") == Classify(members, decode)
  {
    hide VersionValues, HasTypedField, VersionOf, Effects;
    EffectsFold(members, EMPTY, decode);
  }

  lemma EmptyObject(blank: string, after: string, decode: Decode)
    requires IsSpaces(blank) && SkipSpace(after) == ""
    ensures InspectFields(blank + "}" + after, EMPTY, decode) == Legacy == Classify([], decode)
  {
    hide SkipSpace;
    assert blank + "}" + after == blank + ("}" + after);
    SpaceSkipped(blank, "}" + after);
    assert ("}" + after)[1..] == after;
  }

  /** A well-formed object text is classified by its top-level members: neither layout, nor anything nested, nor
      brackets and quotes inside strings have an influence. */
  lemma ClassifiedByMembers(before: string, blank: string, members: seq<Member>, after: string, decode: Decode)
    requires IsSpaces(before) && IsSpaces(after) && IsValue(Object(blank, members)) && Decodes(members, decode)
    ensures Inspect(before + Write(Object(blank, members), after), decode) == Classify(members, decode)
  {
    hide SkipSpace, IsSpaces, InspectFields, IsMember, Effects, Classify;
    var inner := if members == [] then blank + "}" + after else WriteMembers(members, "}" + after);
    var text := Write(Object(blank, members), after);
    assert text == "{" + inner && text[1..] == inner;
    SpaceSkipped(before, text);
    assert after + "" == after;
    SpaceSkipped(after, "");
    ResultClassifies(members, decode);
    if members == [] {
      EmptyObject(blank, after, decode);
    } else {
      FieldsRead(members, after, EMPTY, decode);
    }
  }

  // ----- texts that are no object -----

  /** Nothing, or something that starts no field and closes no object. */
  predicate StartsNoField(s: string) {
    s == "" || (!IsJsonSpace(s[0]) && s[0] != '"' && s[0] != '}')
  }

  /** An object that breaks off behind the comma of its last well-formed member. */
  function WriteOpen(members: seq<Member>, k: string): string {
    if members == [] then k else WriteMember(members[0], "," + WriteOpen(members[1..], k))
  }

  lemma NoField(blank: string, junk: string, state: State, decode: Decode)
    requires IsSpaces(blank) && StartsNoField(junk)
    ensures InspectFields(blank + junk, state, decode) == InspectionError(state)
  {
    hide SkipSpace;
    SpaceSkipped(blank, junk);
  }

  lemma {:induction false} OpenFieldsRead(members: seq<Member>, blank: string, junk: string, state: State,
      decode: Decode)
    requires (forall m <- members :: IsMember(m)) && Decodes(members, decode) && IsSpaces(blank) && StartsNoField(junk)
    ensures var last := Effects(members, state, decode);
      InspectFields(WriteOpen(members, blank + junk), state, decode) ==
        if last.None? then Failed else InspectionError(last.value)
    decreases members
  {
    hide InspectField, Effect, IsMember, WriteMember, SkipSpace, StartsNoField;
    if members == [] {
      NoField(blank, junk, state, decode);
    } else {
      assert members[0] in members;
      var next := Effect(members[0], state, decode);
      FieldRead(members[0], ',', WriteOpen(members[1..], blank + junk), state, decode);
      if next.Some? { OpenFieldsRead(members[1..], blank, junk, next.value, decode); }
    }
  }

  /** What a broken text is taken for by the members read before it breaks: a failure as soon as one of them is a field
      of a typed snapshot, and otherwise a legacy snapshot. */
  function ClassifyBroken(members: seq<Member>, decode: Decode): Outcome {
    if VersionValues(members, decode) != [] || HasTypedField(members, decode) then Failed else Legacy
  }

  lemma BrokenFold(members: seq<Member>, decode: Decode)
    ensures var last := Effects(members, EMPTY, decode);
      (if last.None? then Failed else InspectionError(last.value)) == ClassifyBroken(members, decode)
  {
    hide VersionValues, HasTypedField, VersionOf, Effects;
    EffectsFold(members, EMPTY, decode);
  }

  /** A text that breaks off, or goes on as no object does, behind some members. */
  lemma BrokenTextIsClassified(before: string, members: seq<Member>, blank: string, junk: string, decode: Decode)
    requires IsSpaces(before) && (forall m <- members :: IsMember(m)) && Decodes(members, decode)
    requires IsSpaces(blank) && StartsNoField(junk)
    ensures Inspect(before + ("{" + WriteOpen(members, blank + junk)), decode) == ClassifyBroken(members, decode)
  {
    hide SkipSpace, IsSpaces, InspectFields, IsMember, Effects, StartsNoField, WriteOpen;
    var inner := WriteOpen(members, blank + junk);
    assert ("{" + inner)[1..] == inner;
    SpaceSkipped(before, "{" + inner);
    OpenFieldsRead(members, blank, junk, EMPTY, decode);
    BrokenFold(members, decode);
  }

  lemma EmptyThenJunk(blank: string, k: string, decode: Decode)
    requires IsSpaces(blank) && SkipSpace(k) != ""
    ensures InspectFields(blank + "}" + k, EMPTY, decode) == Legacy == ClassifyBroken([], decode)
  {
    hide SkipSpace;
    assert blank + "}" + k == blank + ("}" + k);
    SpaceSkipped(blank, "}" + k);
    assert ("}" + k)[1..] == k;
    NoTypedField(decode);
  }

  /** An object with something behind it. */
  lemma TrailingTextIsClassified(before: string, blank: string, members: seq<Member>, after: string, junk: string,
      decode: Decode)
    requires IsSpaces(before) && IsSpaces(after) && IsValue(Object(blank, members)) && Decodes(members, decode)
    requires junk != "" && !IsJsonSpace(junk[0])
    ensures Inspect(before + Write(Object(blank, members), after + junk), decode) == ClassifyBroken(members, decode)
  {
    hide SkipSpace, IsSpaces, InspectFields, IsMember, Effects, ClassifyBroken;
    var k := after + junk;
    var inner := if members == [] then blank + "}" + k else WriteMembers(members, "}" + k);
    var text := Write(Object(blank, members), k);
    assert text == "{" + inner && text[1..] == inner;
    SpaceSkipped(before, text);
    SpaceSkipped(after, junk);
    BrokenFold(members, decode);
    if members == [] {
      EmptyThenJunk(blank, k, decode);
    } else {
      FieldsRead(members, k, EMPTY, decode);
    }
  }

  /** A text that does not start an object is a legacy snapshot. */
  lemma NoObjectIsLegacy(before: string, text: string, decode: Decode)
    requires IsSpaces(before) && (text == "" || (!IsJsonSpace(text[0]) && text[0] != '{'))
    ensures Inspect(before + text, decode) == Legacy
  {
    hide SkipSpace;
    SpaceSkipped(before, text);
  }
}
