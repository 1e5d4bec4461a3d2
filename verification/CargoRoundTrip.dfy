/** internal/analysis/identity_enrichment_cargo_version.go: writing a version or a clause and reading it back gives the
    same version or clause, with one exception that is stated exactly. The wildcard test cuts the whole text at its
    dots, so an `x` that stands alone between dots, in the pre-release or in the build metadata, is taken for a
    wildcard. The lemmas before that say which characters written numbers, identifiers and versions consist of, and
    where a written text splits. */
module CargoRoundTrip {
  import opened Strings
  import opened Results
  import opened Decimal
  import opened SemVer
  import opened CargoRequirement
  import opened CargoSyntax
  import opened CargoText

  // ----- writing -----

  function WriteIdentifier(id: Identifier): string {
    match id
    case Numeric(n) => WriteNumber(n)
    case Word(text) => text
  }

  function WriteIdentifiers(ids: seq<Identifier>): (r: seq<string>)
    ensures |r| == |ids|
    ensures forall i :: 0 <= i < |ids| ==> r[i] == WriteIdentifier(ids[i])
  {
    if ids == [] then [] else [WriteIdentifier(ids[0])] + WriteIdentifiers(ids[1..])
  }

  predicate IsIdentifier(id: Identifier) {
    id.Word? ==> id.text != "" && !AllDigits(id.text) && forall i :: 0 <= i < |id.text| ==> IsIdentifierChar(id.text[i])
  }

  function WriteCore(p: Partial): seq<string> {
    [WriteNumber(p.version.major)] +
    (if p.components >= 2 then [WriteNumber(p.version.minor)] else []) +
    (if p.components >= 3 then [WriteNumber(p.version.patch)] else [])
  }

  /** `glue` and the texts `b` behind the last of the texts `a`, if there are any. */
  function Glue(a: seq<string>, glue: string, b: seq<string>): seq<string>
    requires a != []
  {
    if b == [] then a else a[..|a| - 1] + [a[|a| - 1] + glue + b[0]] + b[1..]
  }

  /** What stands between the dots of a written version. */
  function Parts(p: Partial, build: seq<string>): seq<string> {
    Glue(Glue(WriteCore(p), "-", WriteIdentifiers(p.version.prerelease)), "+", build)
  }

  function Tail(mark: string, texts: seq<string>): string {
    if texts == [] then "" else mark + Join(texts, '.')
  }

  /** The numbers, the pre-release behind `-`, the build metadata behind `+`. */
  function WritePartial(p: Partial, build: seq<string>): string {
    Join(WriteCore(p), '.') + Tail("-", WriteIdentifiers(p.version.prerelease)) + Tail("+", build)
  }

  predicate Writable(p: Partial) {
    1 <= p.components <= 3 && (p.components < 3 ==> p.version.patch == 0) &&
      (p.components < 2 ==> p.version.minor == 0) &&
    p.version.major <= MAX_INT && p.version.minor <= MAX_INT && p.version.patch <= MAX_INT &&
    forall id <- p.version.prerelease :: IsIdentifier(id)
  }

  predicate AllIdentifierChars(s: string) {
    s != "" && forall i :: 0 <= i < |s| ==> IsIdentifierChar(s[i])
  }

  predicate IsBuildList(build: seq<string>) {
    forall text <- build :: AllIdentifierChars(text)
  }

  // ----- the characters of what is written -----

  lemma IdentifierText(id: Identifier)
    requires IsIdentifier(id)
    ensures var s := WriteIdentifier(id);
      s != "" && (forall i :: 0 <= i < |s| ==> IsIdentifierChar(s[i])) && ReadIdentifier(s) == Some(id)
  {
  }

  lemma {:induction false} IdentifiersText(ids: seq<Identifier>)
    requires forall id <- ids :: IsIdentifier(id)
    ensures ReadIdentifiers(WriteIdentifiers(ids)) == Some(ids)
    ensures forall i :: 0 <= i < |ids| ==> AllIdentifierChars(WriteIdentifiers(ids)[i])
  {
    hide ReadIdentifier, WriteIdentifier, IsIdentifier;
    if ids != [] {
      assert ids == [ids[0]] + ids[1..];
      IdentifierText(ids[0]);
      IdentifiersText(ids[1..]);
      var texts := WriteIdentifiers(ids);
      assert texts[1..] == WriteIdentifiers(ids[1..]);
      forall i | 0 <= i < |ids| ensures AllIdentifierChars(texts[i]) {
        if i > 0 { assert texts[i] == texts[1..][i - 1]; }
      }
    }
  }

  /** Every character of a joined text is a separator or comes from a part. */
  lemma {:induction false} JoinChars(parts: seq<string>, sep: char, i: nat)
    requires i < |Join(parts, sep)|
    ensures Join(parts, sep)[i] == sep || exists p <- parts :: Join(parts, sep)[i] in p
  {
    if |parts| == 1 {
      assert parts[0] in parts;
    } else {
      assert parts[0] in parts;
      if i > |parts[0]| {
        JoinChars(parts[1..], sep, i - |parts[0]| - 1);
      }
    }
  }

  lemma {:induction false} IndexOfSkips(a: string, s: string, c: char)
    requires c !in a
    ensures IndexOf(a + s, c) == |a| + IndexOf(s, c)
  {
    if a == "" {
      assert a + s == s;
    } else {
      assert (a + s)[1..] == a[1..] + s;
      IndexOfSkips(a[1..], s, c);
    }
  }

  lemma {:induction false} IndexOfNone(a: string, c: char)
    requires c !in a
    ensures IndexOf(a, c) == |a|
  {
    if a != "" { IndexOfNone(a[1..], c); }
  }

  lemma TrimSame(s: string)
    requires s == "" || (!IsSpace(s[0]) && !IsSpace(s[|s| - 1]))
    ensures TrimSpace(s) == s
  {
  }

  /** The characters of a written version. */
  predicate PlainChar(c: char) {
    IsIdentifierChar(c) || c == '.' || c == '+'
  }

  lemma CoreText(p: Partial)
    requires Writable(p)
    ensures var s := Join(WriteCore(p), '.');
      s != "" && IsDigit(s[0]) && (forall i :: 0 <= i < |s| ==> IsDigit(s[i]) || s[i] == '.')
    ensures Split(Join(WriteCore(p), '.'), '.') == WriteCore(p)
    ensures |WriteCore(p)| == p.components && forall part <- WriteCore(p) :: part != "" && AllDigits(part)
  {
    hide WriteNumber;
    var parts := WriteCore(p);
    var s := Join(parts, '.');
    assert s[0] == parts[0][0];
    SplitJoin(parts, '.');
    forall i | 0 <= i < |s| ensures IsDigit(s[i]) || s[i] == '.' {
      JoinChars(parts, '.', i);
    }
  }

  lemma {:induction false} NumbersRead(parts: seq<string>, numbers: seq<nat>)
    requires |parts| == |numbers|
    requires forall i :: 0 <= i < |parts| ==> parts[i] == WriteNumber(numbers[i]) && numbers[i] <= MAX_INT
    ensures ReadNumbers(parts) == Some(numbers)
  {
    hide Value, WriteNumber;
    if parts != [] {
      var n := |parts| - 1;
      NumbersRead(parts[..n], numbers[..n]);
      assert numbers == numbers[..n] + [numbers[n]];
    }
  }

  lemma CoreNumbers(p: Partial)
    requires Writable(p)
    ensures ReadNumbers(WriteCore(p)).Some?
    ensures PartialOf(ReadNumbers(WriteCore(p)).value, p.version.prerelease) == p
  {
    hide Value, WriteNumber;
    var parts := WriteCore(p);
    var v := p.version;
    var all := [v.major, v.minor, v.patch];
    NumbersRead(parts, all[..p.components]);
    assert ReadNumbers(parts) == Some(all[..p.components]);
  }

  /** A joined list of identifier texts: its characters, and that splitting undoes the join. */
  lemma TextsJoined(texts: seq<string>)
    requires texts != [] && forall i :: 0 <= i < |texts| ==> AllIdentifierChars(texts[i])
    ensures forall i :: 0 <= i < |Join(texts, '.')| ==>
      IsIdentifierChar(Join(texts, '.')[i]) || Join(texts, '.')[i] == '.'
    ensures Split(Join(texts, '.'), '.') == texts
  {
    hide Split;
    forall i | 0 <= i < |Join(texts, '.')| ensures IsIdentifierChar(Join(texts, '.')[i]) || Join(texts, '.')[i] == '.' {
      JoinChars(texts, '.', i);
    }
    forall text | text in texts ensures '.' !in text {
      var i :| 0 <= i < |texts| && texts[i] == text;
      assert AllIdentifierChars(texts[i]);
    }
    SplitJoin(texts, '.');
  }

  lemma TailText(mark: string, texts: seq<string>)
    requires |mark| == 1 && forall i :: 0 <= i < |texts| ==> AllIdentifierChars(texts[i])
    ensures var s := Tail(mark, texts);
      (s == "" <==> texts == []) && (s != "" ==> s[0] == mark[0] && Split(s[1..], '.') == texts) &&
      forall i :: 1 <= i < |s| ==> IsIdentifierChar(s[i]) || s[i] == '.'
  {
    hide Split, Join;
    if texts != [] {
      TextsJoined(texts);
      var body := Join(texts, '.');
      assert (mark + body)[1..] == body;
    }
  }

  lemma IndexOfHead(s: string)
    requires s != ""
    ensures IndexOf(s, s[0]) == 0
  {
  }

  lemma SuffixText(ids: seq<Identifier>, build: seq<string>)
    requires (forall id <- ids :: IsIdentifier(id)) && IsBuildList(build)
    ensures var s := Tail("-", WriteIdentifiers(ids)) + Tail("+", build);
      ReadSuffix(s) == Some(ids) && (s == "" || s[0] == '-' || s[0] == '+') &&
      forall i :: 0 <= i < |s| ==> PlainChar(s[i])
  {
    hide WriteIdentifiers, IsIdentifier, ReadIdentifiers, Split, Join, Tail, IndexOf;
    var texts := WriteIdentifiers(ids);
    IdentifiersText(ids);
    TailText("-", texts);
    assert forall i :: 0 <= i < |build| ==> build[i] in build;
    TailText("+", build);
    var pre, tail := Tail("-", texts), Tail("+", build);
    var s := pre + tail;
    assert '+' !in pre;
    IndexOfSkips(pre, tail, '+');
    if tail == "" { IndexOfNone("", '+'); } else { IndexOfHead(tail); }
    assert IndexOf(s, '+') == |pre|;
    assert s[..|pre|] == pre && s[|pre|..] == tail;
    if tail != "" { assert IsBuild(tail[1..]) by { assert Split(tail[1..], '.') == build; } }
  }

  lemma PartialChars(p: Partial, build: seq<string>)
    requires Writable(p) && IsBuildList(build)
    ensures var s := WritePartial(p, build); s != "" && IsDigit(s[0]) && forall i :: 0 <= i < |s| ==> PlainChar(s[i])
  {
    hide WriteCore, IsIdentifier, WriteIdentifiers, Join, Tail;
    CoreText(p);
    SuffixText(p.version.prerelease, build);
    var core := Join(WriteCore(p), '.');
    var suffix := Tail("-", WriteIdentifiers(p.version.prerelease)) + Tail("+", build);
    assert WritePartial(p, build) == core + suffix;
  }

  lemma PlainText(s: string)
    requires s != "" && forall i :: 0 <= i < |s| ==> PlainChar(s[i])
    ensures TrimSpace(s) == s && ',' !in s
  {
    TrimSame(s);
  }

  lemma CoreEndText(core: string, suffix: string)
    requires forall i :: 0 <= i < |core| ==> IsDigit(core[i]) || core[i] == '.'
    requires suffix == "" || suffix[0] == '-' || suffix[0] == '+'
    ensures CoreEnd(core + suffix) == |core|
  {
    IndexOfSkips(core, suffix, '+');
    IndexOfSkips(core, suffix, '-');
  }

  /** Reading a written version gives it back; build metadata is read over. */
  lemma PartialRoundTrip(p: Partial, build: seq<string>)
    requires Writable(p) && IsBuildList(build)
    ensures ReadPartial(WritePartial(p, build)) == Some(p)
  {
    hide WriteCore, IsIdentifier, WriteIdentifiers, Join, Split, ReadNumbers, ReadSuffix, TrimSpace, CoreEnd, Tail;
    var core := Join(WriteCore(p), '.');
    var suffix := Tail("-", WriteIdentifiers(p.version.prerelease)) + Tail("+", build);
    var s := WritePartial(p, build);
    assert s == core + suffix;
    PartialChars(p, build);
    PlainText(s);
    CoreText(p);
    SuffixText(p.version.prerelease, build);
    CoreEndText(core, suffix);
    assert s[..|core|] == core && s[|core|..] == suffix;
    CoreNumbers(p);
  }

  // ----- clauses -----

  function Prefix(operator: Operator): string {
    match operator
    case GreaterEqual => ">="
    case LessEqual => "<="
    case Greater => ">"
    case LessThan => "<"
    case Exact => "="
    case Caret => "^"
    case Tilde => "~"
    case Wildcard => ""
  }

  /** A clause as it is written; a caret may be left out. */
  datatype Written = Written(clause: Clause, build: seq<string>, bare: bool)

  function WriteClause(w: Written): string {
    var c := w.clause;
    if c.operator.Wildcard? then Join((if c.required.components == 0 then [] else WriteCore(c.required)) + ["*"], '.')
    else if w.bare then WritePartial(c.required, w.build)
    else Prefix(c.operator) + WritePartial(c.required, w.build)
  }

  predicate WritableClause(w: Written) {
    var c := w.clause;
    WellFormed(c) && (c.required.components > 0 ==> Writable(c.required)) && IsBuildList(w.build) &&
    (c.operator.Wildcard? ==> c.required.version.prerelease == [] && w.build == []) && (w.bare ==> c.operator.Caret?)
  }

  predicate IsX(text: string) {
    text == "x" || text == "X"
  }

  predicate HasX(texts: seq<string>) {
    exists i :: 1 <= i < |texts| && IsX(texts[i])
  }

  /** An `x` stands alone between dots: behind the first pre-release identifier, unless build metadata is glued to it,
      or behind the first build identifier. */
  predicate LooksWild(ids: seq<Identifier>, build: seq<string>) {
    HasX(if build == [] || ids == [] then WriteIdentifiers(ids) else WriteIdentifiers(ids)[..|ids| - 1]) || HasX(build)
  }

  lemma {:induction false} JoinGlue(a: seq<string>, b: seq<string>, glue: string)
    requires a != [] && b != []
    ensures Join(a, '.') + glue + Join(b, '.') == Join(Glue(a, glue, b), '.')
  {
    var all := Glue(a, glue, b);
    if |a| == 1 {
      assert all == [a[0] + glue + b[0]] + b[1..];
      assert all[1..] == b[1..];
    } else {
      JoinGlue(a[1..], b, glue);
      var rest := a[1..];
      assert rest[..|rest| - 1] == a[..|a| - 1][1..];
      assert all[1..] == rest[..|rest| - 1] + [rest[|rest| - 1] + glue + b[0]] + b[1..];
    }
  }

  lemma StarText(s: string)
    requires s != ""
    ensures IsStar(s) ==> |s| == 1
    ensures IsStar(s) <==> s == "*" || s == "x" || s == "X"
  {
    assert Lower("x") == "x";
    if EqualFold(s, "x") {
      assert |Lower(s)| == 1 && Lower(s)[0] == 'x';
      assert s == [s[0]];
    }
    if s == "X" {
      assert Lower(s) == "x";
    }
  }

  lemma NumberIsNoStar(s: string)
    requires s != "" && AllDigits(s)
    ensures !IsStar(s)
  {
    StarText(s);
    assert IsDigit(s[0]);
  }

  lemma IdentifierStar(s: string)
    requires AllIdentifierChars(s)
    ensures IsStar(s) <==> IsX(s)
  {
    StarText(s);
    assert IsIdentifierChar(s[0]);
  }

  lemma FirstStarOf(parts: seq<string>, k: nat)
    requires k <= |parts| && forall i :: 0 <= i < k ==> !IsStar(parts[i])
    ensures FirstStar(parts) >= k && (k == |parts| ==> FirstStar(parts) == k)
    ensures k < |parts| && IsStar(parts[k]) ==> FirstStar(parts) == k
  {
  }

  predicate HasStar(parts: seq<string>) {
    exists i :: 0 <= i < |parts| && IsStar(parts[i])
  }

  /** Texts without dots, none of them empty. */
  predicate AreParts(parts: seq<string>) {
    forall i :: 0 <= i < |parts| ==> parts[i] != "" && '.' !in parts[i]
  }

  lemma GluedStar(all: seq<string>, n: nat, a: seq<string>, b: seq<string>)
    requires |all| == n + 1 + |b| && |a| == n && !IsStar(all[n])
    requires (forall i :: 0 <= i < n ==> all[i] == a[i]) && forall i :: 0 <= i < |b| ==> all[n + 1 + i] == b[i]
    ensures HasStar(all) <==> HasStar(a) || HasStar(b)
  {
    hide IsStar;
    if HasStar(all) {
      var i :| 0 <= i < |all| && IsStar(all[i]);
      assert i < n ==> IsStar(a[i]);
      assert i > n ==> IsStar(b[i - n - 1]);
    }
    if i :| 0 <= i < |b| && IsStar(b[i]) { assert IsStar(all[n + 1 + i]); }
    if i :| 0 <= i < |a| && IsStar(a[i]) { assert IsStar(all[i]); }
  }

  lemma GlueNothing(a: seq<string>, glue: string)
    requires a != []
    ensures Glue(a, glue, []) == a
  {
  }

  lemma GlueAreParts(a: seq<string>, glue: string, b: seq<string>)
    requires a != [] && AreParts(a) && AreParts(b) && |glue| == 1 && glue != "."
    ensures AreParts(Glue(a, glue, b))
  {
    var n, all := |a| - 1, Glue(a, glue, b);
    forall i | 0 <= i < |all| ensures all[i] != "" && '.' !in all[i] {
      if i > n { assert all[i] == b[i - n]; }
    }
  }

  lemma NothingStars()
    ensures !HasStar([]) && !HasX([])
  {
  }

  lemma GlueStars(a: seq<string>, glue: string, b: seq<string>)
    requires a != [] && b != [] && AreParts(a) && AreParts(b) && |glue| == 1
    ensures HasStar(Glue(a, glue, b)) <==> HasStar(a[..|a| - 1]) || HasStar(b[1..])
    ensures HasStar(Glue(a, glue, b)[..|Glue(a, glue, b)| - 1]) <==>
      HasStar(a[..|a| - 1]) || HasStar(b[1..][..if |b| > 1 then |b| - 2 else 0])
  {
    hide IsStar, HasStar;
    var n, all := |a| - 1, Glue(a, glue, b);
    var joint, tail := a[n] + glue + b[0], b[1..];
    assert |joint| > 1;
    StarText(joint);
    GluedStar(all, n, a[..n], tail);
    if |b| > 1 {
      GluedStar(all[..|all| - 1], n, a[..n], tail[..|b| - 2]);
    } else {
      assert all[..n] == a[..n] && tail[..0] == [];
      assert !HasStar([]) by { NothingStars(); }
    }
  }

  lemma ShiftedStar(texts: seq<string>)
    requires texts != [] && forall i :: 0 <= i < |texts| ==> (IsStar(texts[i]) <==> IsX(texts[i]))
    ensures HasStar(texts[1..]) <==> HasX(texts)
  {
    hide IsStar, IsX;
    if HasStar(texts[1..]) {
      var i :| 0 <= i < |texts[1..]| && IsStar(texts[1..][i]);
      assert IsX(texts[i + 1]);
    }
    if HasX(texts) {
      var i :| 1 <= i < |texts| && IsX(texts[i]);
      assert IsStar(texts[1..][i - 1]);
    }
  }

  lemma ShiftedX(texts: seq<string>)
    requires forall i :: 0 <= i < |texts| ==> AllIdentifierChars(texts[i])
    ensures texts != [] ==> (HasStar(texts[1..]) <==> HasX(texts))
    ensures |texts| > 1 ==> (HasStar(texts[1..][..|texts| - 2]) <==> HasX(texts[..|texts| - 1]))
    ensures HasX(texts) ==> |texts| > 1
  {
    hide IsStar, AllIdentifierChars, IsX;
    forall i | 0 <= i < |texts| ensures IsStar(texts[i]) <==> IsX(texts[i]) { IdentifierStar(texts[i]); }
    if texts != [] { ShiftedStar(texts); }
    if |texts| > 1 {
      ShiftedStar(texts[..|texts| - 1]);
      assert texts[1..][..|texts| - 2] == texts[..|texts| - 1][1..];
    }
  }

  lemma CoreParts(p: Partial)
    requires Writable(p)
    ensures WriteCore(p) != [] && AreParts(WriteCore(p)) && !HasStar(WriteCore(p)) &&
      !HasStar(WriteCore(p)[..|WriteCore(p)| - 1])
  {
    hide IsStar, WriteCore, IsIdentifier;
    CoreText(p);
    var a := WriteCore(p);
    forall i | 0 <= i < |a| ensures a[i] != "" && '.' !in a[i] && !IsStar(a[i]) {
      assert a[i] in a;
      NumberIsNoStar(a[i]);
    }
  }

  lemma TextsAreParts(texts: seq<string>)
    requires forall i :: 0 <= i < |texts| ==> AllIdentifierChars(texts[i])
    ensures AreParts(texts)
  {
  }

  lemma GlueNotEmpty(a: seq<string>, glue: string, b: seq<string>)
    requires a != []
    ensures Glue(a, glue, b) != []
  {
  }

  lemma JoinedParts(core: seq<string>, pre: seq<string>, build: seq<string>)
    requires core != []
    ensures Glue(core, "-", pre) != []
    ensures Join(core, '.') + Tail("-", pre) + Tail("+", build) == Join(Glue(Glue(core, "-", pre), "+", build), '.')
  {
    hide Join;
    var all := Glue(core, "-", pre);
    assert Join(core, '.') + Tail("-", pre) == Join(all, '.') by {
      if pre != [] { JoinGlue(core, pre, "-"); }
    }
    if build != [] { JoinGlue(all, build, "+"); }
  }

  lemma PartsSplit(parts: seq<string>)
    requires parts != [] && AreParts(parts)
    ensures Split(Join(parts, '.'), '.') == parts
  {
    SplitJoin(parts, '.');
  }

  /** The texts between the dots, and when one of them is taken for a wildcard. */
  lemma WrittenParts(p: Partial, build: seq<string>)
    requires Writable(p) && IsBuildList(build)
    ensures Split(WritePartial(p, build), '.') == Parts(p, build)
    ensures HasStar(Parts(p, build)) <==> LooksWild(p.version.prerelease, build)
  {
    hide WriteCore, IsIdentifier, IsStar, Split, IsX, WriteIdentifier, Join, AllIdentifierChars, Glue, HasStar, HasX,
      AreParts, WriteIdentifiers;
    var core, ids := WriteCore(p), p.version.prerelease;
    var pre := WriteIdentifiers(ids);
    IdentifiersText(ids);
    assert forall i :: 0 <= i < |build| ==> build[i] in build;
    CoreParts(p);
    TextsAreParts(pre);
    TextsAreParts(build);
    GlueAreParts(core, "-", pre);
    if pre != [] { GlueStars(core, "-", pre); } else { GlueNothing(core, "-"); }
    var all := Glue(core, "-", pre);
    assert all != [] by { GlueNotEmpty(core, "-", pre); }
    if build != [] { GlueStars(all, "+", build); } else { GlueNothing(all, "+"); }
    GlueAreParts(all, "+", build);
    ShiftedX(pre);
    ShiftedX(build);
    NothingStars();
    assert |pre| == 1 ==> pre[1..][..0] == [] && pre[..0] == [];
    JoinedParts(core, pre, build);
    assert Glue(all, "+", build) == Parts(p, build);
    GlueNotEmpty(all, "+", build);
    PartsSplit(Parts(p, build));
  }

  lemma PrefixStep(s: string, i: nat)
    requires i < 7
    ensures FindPrefix(s, PREFIXES[i..]) ==
      if PREFIXES[i].0 <= s then Some(PREFIXES[i]) else FindPrefix(s, PREFIXES[i + 1..])
  {
    assert PREFIXES[i..][1..] == PREFIXES[i + 1..];
  }

  /** The seven tries, unrolled. */
  lemma PrefixSearch(s: string)
    ensures FindPrefix(s, PREFIXES) ==
      if ">=" <= s then Some((">=", GreaterEqual))
      else if "<=" <= s then Some(("<=", LessEqual))
      else if ">" <= s then Some((">", Greater))
      else if "<" <= s then Some(("<", LessThan))
      else if "=" <= s then Some(("=", Exact))
      else if "^" <= s then Some(("^", Caret))
      else if "~" <= s then Some(("~", Tilde))
      else None
  {
    assert PREFIXES == PREFIXES[0..] && PREFIXES[7..] == [];
    PrefixStep(s, 0);
    PrefixStep(s, 1);
    PrefixStep(s, 2);
    PrefixStep(s, 3);
    PrefixStep(s, 4);
    PrefixStep(s, 5);
    PrefixStep(s, 6);
  }

  lemma PrefixFound(operator: Operator, rest: string)
    requires !operator.Wildcard? && rest != "" && IsDigit(rest[0])
    ensures FindPrefix(Prefix(operator) + rest, PREFIXES) == Some((Prefix(operator), operator))
  {
    var s := Prefix(operator) + rest;
    assert forall k :: 0 <= k < |Prefix(operator)| ==> s[k] == Prefix(operator)[k];
    assert s[|Prefix(operator)|] == rest[0];
    PrefixSearch(s);
  }

  lemma NoDot(a: seq<string>, part: string)
    requires forall x <- a :: AllDigits(x)
    requires part in a + ["*"]
    ensures '.' !in part
  {
  }

  lemma {:induction false} StarChars(parts: seq<string>, s: string)
    requires parts != [] && s == Join(parts, '.')
    requires forall p <- parts :: p == "*" || (p != "" && AllDigits(p))
    ensures s != "" && (s[0] == '*' || IsDigit(s[0])) && TrimSpace(s) == s
  {
    var last := |s| - 1;
    assert parts[0] in parts;
    assert s[0] == parts[0][0];
    forall i | 0 <= i < |s| ensures !IsSpace(s[i]) { JoinChars(parts, '.', i); }
    TrimSame(s);
  }

  lemma NothingBehind(p: Partial)
    requires p.version.prerelease == []
    ensures WritePartial(p, []) == Join(WriteCore(p), '.')
  {
    assert WriteIdentifiers([]) == [];
    assert Join(WriteCore(p), '.') + "" + "" == Join(WriteCore(p), '.');
  }

  lemma NoPrefix(s: string)
    requires s != "" && (s[0] == '*' || IsDigit(s[0]))
    ensures FindPrefix(s, PREFIXES) == None
  {
    PrefixSearch(s);
  }

  lemma StarClause(c: Clause)
    requires WritableClause(Written(c, [], false)) && c.operator.Wildcard?
    ensures ReadClause(WriteClause(Written(c, [], false))) == Some(c)
  {
    hide WriteCore, IsStar, Split, AllDigits, FirstStar, ReadPartial, TrimSpace, Writable, WriteNumber;
    var p := c.required;
    var a := if p.components == 0 then [] else WriteCore(p);
    if p.components > 0 { CoreText(p); }
    var parts := a + ["*"];
    var s := WriteClause(Written(c, [], false));
    assert s == Join(parts, '.');
    forall part | part in parts ensures '.' !in part { NoDot(a, part); }
    SplitJoin(parts, '.');
    StarText("*");
    forall i | 0 <= i < |a| ensures !IsStar(parts[i]) {
      assert parts[i] == a[i] && a[i] in a;
      NumberIsNoStar(a[i]);
    }
    FirstStarOf(parts, |a|);
    StarChars(parts, s);
    assert parts[..|a|] == a;
    if p.components == 0 {
      assert p == ANY;
    } else {
      NothingBehind(p);
      PartialRoundTrip(p, []);
    }
    assert ReadWildcard(s) == Found(p);
    NoPrefix(s);
  }

  lemma OperatorChars(operator: Operator, rest: string)
    requires !operator.Wildcard? && rest != "" && forall i :: 0 <= i < |rest| ==> PlainChar(rest[i])
    ensures var s := Prefix(operator) + rest; s != "" && TrimSpace(s) == s
  {
    var s := Prefix(operator) + rest;
    assert s[0] == Prefix(operator)[0];
    assert s[|s| - 1] == rest[|rest| - 1];
    TrimSame(s);
  }

  lemma OperandRead(p: Partial, build: seq<string>, operator: Operator, explicit: bool)
    requires p.components < 3 ==> p.version.prerelease == []
    requires ReadPartial(WritePartial(p, build)) == Some(p) &&
      TrimSpace(WritePartial(p, build)) == WritePartial(p, build)
    requires HasStar(Split(WritePartial(p, build), '.')) <==> LooksWild(p.version.prerelease, build)
    ensures var r := ReadOperand(WritePartial(p, build), operator, explicit);
      if !LooksWild(p.version.prerelease, build) then r == Some(Clause(operator, p))
      else r.None? || (!explicit && r.value.operator.Wildcard?)
  {
    hide WritePartial, Split, ReadPartial, TrimSpace, LooksWild, IsStar;
    var parts := Split(WritePartial(p, build), '.');
    var star := FirstStar(parts);
    if HasStar(parts) {
      var i :| 0 <= i < |parts| && IsStar(parts[i]);
      assert star < |parts|;
    } else {
      assert star == |parts|;
    }
  }

  lemma NothingWild()
    ensures !LooksWild([], [])
  {
  }

  /** Reading a written clause gives it back exactly when no `x` stands alone between its dots; behind an operator it is
      then refused. */
  lemma ClauseRoundTrip(w: Written)
    requires WritableClause(w)
    ensures ReadClause(WriteClause(w)) == Some(w.clause) <==> !LooksWild(w.clause.required.version.prerelease, w.build)
    ensures LooksWild(w.clause.required.version.prerelease, w.build) && !w.bare ==> ReadClause(WriteClause(w)) == None
  {
    hide WritePartial, WriteCore, Split, ReadPartial, TrimSpace, Writable, LooksWild, Prefix, PlainChar, ReadOperand,
      FindPrefix, IsBuildList;
    var c := w.clause;
    if c.operator.Wildcard? {
      assert w == Written(c, [], false);
      StarClause(c);
      assert !LooksWild([], []) by { NothingWild(); }
    } else {
      var p := c.required;
      var rest := WritePartial(p, w.build);
      var s := WriteClause(w);
      PartialChars(p, w.build);
      PlainText(rest);
      WrittenParts(p, w.build);
      PartialRoundTrip(p, w.build);
      OperandRead(p, w.build, c.operator, !w.bare);
      if w.bare {
        NoPrefix(rest);
      } else {
        OperatorChars(c.operator, rest);
        PrefixFound(c.operator, rest);
        assert s[|Prefix(c.operator)|..] == rest;
      }
    }
  }

  /** A release whose build metadata has an `x` between dots, as in `=1.2.3+b.x`, names a version that reads well and
      makes a clause that is refused. */
  lemma BuildLooksWild(major: nat, minor: nat, patch: nat)
    requires major <= MAX_INT && minor <= MAX_INT && patch <= MAX_INT
    ensures var p, build := Partial(Version(major, minor, patch, []), 3), ["b", "x"];
      ReadPartial(WritePartial(p, build)) == Some(p) &&
        ReadClause(WriteClause(Written(Clause(Exact, p), build, false))) == None
  {
    hide WritePartial, ReadPartial, ReadClause, WriteClause;
    var p, build := Partial(Version(major, minor, patch, []), 3), ["b", "x"];
    assert AllIdentifierChars("b") && AllIdentifierChars("x");
    assert IsX(build[1]);
    PartialRoundTrip(p, build);
    ClauseRoundTrip(Written(Clause(Exact, p), build, false));
  }
}
