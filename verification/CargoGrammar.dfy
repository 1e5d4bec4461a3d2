/** internal/analysis/identity_enrichment_cargo_version.go: exactly which texts are read as versions. A text is one to
    three numbers between dots, leading zeros allowed, then a pre-release behind `-` and build metadata behind `+`. */
module CargoGrammar {
  import opened Strings
  import opened Results
  import opened Decimal
  import opened SemVer
  import opened CargoRequirement
  import opened CargoSyntax
  import opened CargoText
  import opened CargoRoundTrip

  /** The characters of identifiers (section 9 of SemVer 2.0.0): letters of either case, digits and hyphens. */
  lemma IdentifierCharacters(c: char)
    ensures IsIdentifierChar(c) <==> 'a' <= LowerChar(c) <= 'z' || '0' <= c <= '9' || c == '-'
  {
  }

  predicate IsCoreNumber(part: string) {
    part != "" && AllDigits(part) && Value(part) <= MAX_INT
  }

  /** The number that stands at place `i`, or zero. */
  function CoreNumber(core: seq<string>, i: nat): nat
    requires forall part <- core :: IsCoreNumber(part)
  {
    if i < |core| then assert IsCoreNumber(core[i]); Value(core[i]) else 0
  }

  /** The text spells the version. */
  predicate Spells(text: string, p: Partial, core: seq<string>, build: seq<string>) {
    1 <= |core| <= 3 && |core| == p.components && (forall part <- core :: IsCoreNumber(part)) &&
    p.version.major == CoreNumber(core, 0) && p.version.minor == CoreNumber(core, 1) &&
    p.version.patch == CoreNumber(core, 2) && (forall id <- p.version.prerelease :: IsIdentifier(id)) &&
    IsBuildList(build) &&
    text == Join(core, '.') + (Tail("-", WriteIdentifiers(p.version.prerelease)) + Tail("+", build))
  }

  // ----- splitting -----

  lemma {:induction false} JoinSplit(s: string, sep: char)
    ensures Split(s, sep) != [] && Join(Split(s, sep), sep) == s
  {
    if s != "" {
      JoinSplit(s[1..], sep);
      var rest := Split(s[1..], sep);
      assert s == [s[0]] + s[1..];
      if s[0] == sep {
        SplitSeparator(s[1..], sep);
        assert ([""] + rest)[1..] == rest;
      } else {
        SplitHead(s[0], s[1..], sep);
        var all := [[s[0]] + rest[0]] + rest[1..];
        assert all[1..] == rest[1..];
      }
    }
  }

  // ----- from the text -----

  lemma NumberReads(part: string)
    ensures ReadNumber(part).Some? <==> IsCoreNumber(part)
    ensures IsCoreNumber(part) ==> ReadNumber(part) == Some(Value(part))
  {
  }

  lemma {:induction false} CoreReads(parts: seq<string>)
    ensures ReadNumbers(parts).Some? <==> forall k :: 0 <= k < |parts| ==> IsCoreNumber(parts[k])
    ensures ReadNumbers(parts).Some? ==>
      forall k :: 0 <= k < |parts| ==> ReadNumber(parts[k]) == Some(ReadNumbers(parts).value[k])
  {
    hide ReadNumber, IsCoreNumber;
    if parts != [] {
      var n := |parts| - 1;
      CoreReads(parts[..n]);
      NumberReads(parts[n]);
      assert forall k :: 0 <= k < n ==> parts[..n][k] == parts[k];
    }
  }

  lemma PartsAreNumbers(parts: seq<string>)
    ensures ReadNumbers(parts).Some? <==> forall part <- parts :: IsCoreNumber(part)
    ensures ReadNumbers(parts).Some? ==>
      forall i: nat :: NumberAt(ReadNumbers(parts).value, i) == CoreNumber(parts, i)
  {
    hide ReadNumber, IsCoreNumber, ReadNumbers, Value;
    CoreReads(parts);
    if ReadNumbers(parts).Some? {
      forall i: nat ensures NumberAt(ReadNumbers(parts).value, i) == CoreNumber(parts, i) {
        if i < |parts| { NumberReads(parts[i]); }
      }
    }
  }

  lemma {:induction false} PositiveValue(s: string)
    requires s != "" && AllDigits(s) && s[0] != '0'
    ensures Value(s) > 0
  {
    if |s| > 1 { PositiveValue(s[..|s| - 1]); }
  }

  /** A row of digits without a leading zero is how its value is written. */
  lemma {:induction false} Canonical(s: string)
    requires s != "" && AllDigits(s) && (|s| > 1 ==> s[0] != '0')
    ensures WriteNumber(Value(s)) == s
  {
    var n := |s| - 1;
    if n > 0 {
      Canonical(s[..n]);
      PositiveValue(s[..n]);
      assert s == s[..n] + [s[n]];
    }
  }

  lemma IdentifierReads(s: string)
    requires ReadIdentifier(s).Some?
    ensures IsIdentifier(ReadIdentifier(s).value) && WriteIdentifier(ReadIdentifier(s).value) == s
  {
    hide Value;
    if AllDigits(s) { Canonical(s); }
  }

  lemma {:induction false} IdentifiersRead(parts: seq<string>)
    requires ReadIdentifiers(parts).Some?
    ensures WriteIdentifiers(ReadIdentifiers(parts).value) == parts
    ensures forall id <- ReadIdentifiers(parts).value :: IsIdentifier(id)
  {
    hide ReadIdentifier, WriteIdentifier, IsIdentifier;
    if parts != [] {
      IdentifierReads(parts[0]);
      IdentifiersRead(parts[1..]);
    }
  }

  /** Build metadata is a list of identifier texts. */
  lemma BuildReads(s: string)
    ensures IsBuild(s) <==> IsBuildList(Split(s, '.'))
  {
    hide Split;
  }

  lemma NoIdentifiers()
    ensures WriteIdentifiers([]) == [] && IsBuildList([])
  {
  }

  /** What is read as a suffix: identifiers behind `-`, then build metadata behind `+`. */
  lemma SuffixReads(s: string) returns (build: seq<string>)
    requires ReadSuffix(s).Some?
    ensures IsBuildList(build) && forall id <- ReadSuffix(s).value :: IsIdentifier(id)
    ensures s == Tail("-", WriteIdentifiers(ReadSuffix(s).value)) + Tail("+", build)
  {
    hide Split, Join, ReadIdentifiers, WriteIdentifiers, IsIdentifier, IndexOf, IsBuild, IsBuildList;
    var plus := IndexOf(s, '+');
    var pre, tail := s[..plus], s[plus..];
    assert s == pre + tail;
    NoIdentifiers();
    if tail == "" {
      build := [];
    } else {
      build := Split(tail[1..], '.');
      BuildReads(tail[1..]);
      JoinSplit(tail[1..], '.');
      assert tail == ['+'] + tail[1..];
    }
    if pre != "" {
      var parts := Split(pre[1..], '.');
      JoinSplit(pre[1..], '.');
      IdentifiersRead(parts);
      assert pre == ['-'] + pre[1..];
    }
  }

  /** Whatever is read as a version is spelled as one. */
  lemma ReadIsSpelled(text: string) returns (core: seq<string>, build: seq<string>)
    requires ReadPartial(text).Some?
    ensures Spells(TrimSpace(text), ReadPartial(text).value, core, build)
  {
    hide TrimSpace, Split, Join, ReadNumbers, ReadSuffix, CoreEnd, IsBuildList, IsIdentifier, IsCoreNumber, Tail,
      WriteIdentifiers, NumberAt, CoreNumber;
    var s := TrimSpace(text);
    var end := CoreEnd(s);
    core := Split(s[..end], '.');
    JoinSplit(s[..end], '.');
    PartsAreNumbers(core);
    build := SuffixReads(s[end..]);
    assert s == s[..end] + s[end..];
  }

  // ----- to the text -----

  lemma SpelledCore(core: seq<string>)
    requires core != [] && forall part <- core :: IsCoreNumber(part)
    ensures Split(Join(core, '.'), '.') == core
    ensures forall i :: 0 <= i < |Join(core, '.')| ==> IsDigit(Join(core, '.')[i]) || Join(core, '.')[i] == '.'
    ensures Join(core, '.') != "" && IsDigit(Join(core, '.')[0])
  {
    hide Value;
    var s := Join(core, '.');
    assert IsCoreNumber(core[0]);
    assert s[0] == core[0][0];
    forall part | part in core ensures '.' !in part { assert IsCoreNumber(part); }
    SplitJoin(core, '.');
    forall i | 0 <= i < |s| ensures IsDigit(s[i]) || s[i] == '.' {
      JoinChars(core, '.', i);
    }
  }

  /** Whatever spells a version, with white space around it, is read as that version. */
  lemma SpelledIsRead(text: string, p: Partial, core: seq<string>, build: seq<string>)
    requires Spells(TrimSpace(text), p, core, build)
    ensures ReadPartial(text) == Some(p)
  {
    hide TrimSpace, Split, Join, ReadNumbers, ReadSuffix, CoreEnd, IsBuildList, IsIdentifier, IsCoreNumber, Tail,
      WriteIdentifiers, NumberAt, CoreNumber;
    var s := TrimSpace(text);
    var head, suffix := Join(core, '.'), Tail("-", WriteIdentifiers(p.version.prerelease)) + Tail("+", build);
    SpelledCore(core);
    SuffixText(p.version.prerelease, build);
    CoreEndText(head, suffix);
    assert s[..|head|] == head && s[|head|..] == suffix;
    PartsAreNumbers(core);
    assert PartialOf(ReadNumbers(core).value, p.version.prerelease) == p;
  }

  /** A text is read as a version exactly when it spells that version. */
  lemma ReadsExactlyTheSpelled(text: string, p: Partial)
    ensures ReadPartial(text) == Some(p) <==> exists core, build :: Spells(TrimSpace(text), p, core, build)
  {
    hide Spells, TrimSpace, ReadPartial;
    if ReadPartial(text) == Some(p) {
      var core, build := ReadIsSpelled(text);
    }
    forall core, build | Spells(TrimSpace(text), p, core, build) ensures ReadPartial(text) == Some(p) {
      SpelledIsRead(text, p, core, build);
    }
  }

  // ----- clauses -----

  predicate NoStars(s: string) {
    forall part <- Split(s, '.') :: !IsStar(part)
  }

  /** A version with all three numbers, or with fewer and no pre-release; no part of it looks like a wildcard. */
  predicate SpellsOperand(s: string, p: Partial) {
    NoStars(s) && ReadPartial(s) == Some(p) && (p.components == 3 || p.version.prerelease == [])
  }

  predicate IsFirstStar(parts: seq<string>, k: nat) {
    k < |parts| && IsStar(parts[k]) && forall i :: 0 <= i < k ==> !IsStar(parts[i])
  }

  /** At most three parts, stars or x from some place on and none before: alone, or behind numbers. */
  ghost predicate SpellsWildcard(s: string, p: Partial) {
    var parts := Split(s, '.');
    exists k :: 0 <= k < |parts| && IsFirstStar(parts, k) && (forall i :: k <= i < |parts| ==> IsStar(parts[i])) &&
      if k == 0 then |parts| == 1 && p == ANY else |parts| <= 3 && ReadPartial(Join(parts[..k], '.')) == Some(p)
  }

  predicate StartsOperator(s: string) {
    s != "" && s[0] in "><=^~"
  }

  /** An operator and what it compares with; `>` and `<` take a `=` behind them along. */
  ghost predicate SpellsComparison(s: string, c: Clause) {
    exists rest :: s == Prefix(c.operator) + rest && SpellsOperand(TrimSpace(rest), c.required) &&
      (c.operator.Greater? || c.operator.LessThan? ==> rest == "" || rest[0] != '=')
  }

  ghost predicate SpellsClause(s: string, c: Clause) {
    if StartsOperator(s) then !c.operator.Wildcard? && SpellsComparison(s, c)
    else s != "" && ((c.operator.Caret? && SpellsOperand(s, c.required)) ||
                     (c.operator.Wildcard? && SpellsWildcard(s, c.required)))
  }

  lemma FirstStarIs(parts: seq<string>, k: nat)
    requires IsFirstStar(parts, k)
    ensures FirstStar(parts) == k
  {
  }

  lemma WildcardReads(s: string)
    requires TrimSpace(s) == s
    ensures ReadWildcard(s).NotWildcard? <==> NoStars(s)
    ensures forall p :: ReadWildcard(s) == Found(p) <==> SpellsWildcard(s, p)
  {
    hide TrimSpace, Split, ReadPartial, Join, IsStar;
    var parts := Split(s, '.');
    var star := FirstStar(parts);
    if star == |parts| {
      assert NoStars(s);
    } else {
      assert parts[star] in parts;
      assert IsFirstStar(parts, star);
    }
    forall k | IsFirstStar(parts, k) ensures k == star { FirstStarIs(parts, k); }
  }

  lemma OperandReads(s: string, operator: Operator, explicit: bool, c: Clause)
    requires TrimSpace(s) == s
    ensures ReadOperand(s, operator, explicit) == Some(c) <==>
      (c.operator == operator && SpellsOperand(s, c.required)) ||
      (!explicit && c.operator.Wildcard? && SpellsWildcard(s, c.required))
  {
    hide TrimSpace, SpellsWildcard, ReadWildcard, NoStars, ReadPartial;
    WildcardReads(s);
    assert SpellsWildcard(s, c.required) <==> ReadWildcard(s) == Found(c.required);
  }

  /** The first of the prefixes that fits is taken. */
  lemma {:induction false} FirstPrefix(s: string, prefixes: seq<(string, Operator)>, k: nat)
    requires k <= |prefixes| && forall i :: 0 <= i < k ==> !(prefixes[i].0 <= s)
    requires k < |prefixes| ==> prefixes[k].0 <= s
    ensures FindPrefix(s, prefixes) == if k < |prefixes| then Some(prefixes[k]) else None
  {
    if k > 0 { FirstPrefix(s, prefixes[1..], k - 1); }
  }

  lemma PrefixFound(s: string)
    ensures FindPrefix(s, PREFIXES).Some? <==> StartsOperator(s)
    ensures FindPrefix(s, PREFIXES).Some? ==>
      (var (prefix, operator) := FindPrefix(s, PREFIXES).value;
       var rest := s[|prefix|..];
       !operator.Wildcard? && prefix == Prefix(operator) && s == prefix + rest &&
       (operator.Greater? || operator.LessThan? ==> rest == "" || rest[0] != '='))
  {
    hide FindPrefix;
    var equals := |s| >= 2 && s[1] == '=';
    if !StartsOperator(s) {
      FirstPrefix(s, PREFIXES, 7);
    } else {
      FirstPrefix(s, PREFIXES,
        if s[0] == '>' then if equals then 0 else 2 else if s[0] == '<' then if equals then 1 else 3
        else if s[0] == '=' then 4 else if s[0] == '^' then 5 else 6);
    }
  }

  lemma PrefixUnique(s: string, a: Operator, b: Operator, restA: string, restB: string)
    requires !a.Wildcard? && !b.Wildcard? && s == Prefix(a) + restA == Prefix(b) + restB
    requires a.Greater? || a.LessThan? ==> restA == "" || restA[0] != '='
    requires b.Greater? || b.LessThan? ==> restB == "" || restB[0] != '='
    ensures a == b && restA == restB
  {
    assert s[0] == Prefix(a)[0] == Prefix(b)[0];
    assert restA == s[|Prefix(a)|..] && restB == s[|Prefix(b)|..];
  }

  lemma TrimTwice(s: string)
    ensures TrimSpace(TrimSpace(s)) == TrimSpace(s)
  {
    hide TrimLeft, TrimRight, IsSpace;
    var left := TrimLeft(s);
    TrimLeftCuts(s);
    TrimRightCuts(left);
    assert TrimSpace(s) != "" ==> TrimSpace(s)[0] == left[0];
    TrimSame(TrimSpace(s));
  }

  /** A text is read as a clause exactly when it spells that clause. */
  lemma ReadsExactlyTheClauses(text: string, c: Clause)
    ensures ReadClause(text) == Some(c) <==> SpellsClause(TrimSpace(text), c)
  {
    hide TrimSpace, FindPrefix, ReadOperand, SpellsOperand, SpellsWildcard, StartsOperator, Prefix;
    var s := TrimSpace(text);
    TrimTwice(text);
    PrefixFound(s);
    var found := FindPrefix(s, PREFIXES);
    if found.Some? {
      var operator, rest := found.value.1, s[|found.value.0|..];
      TrimTwice(rest);
      OperandReads(TrimSpace(rest), operator, true, c);
      forall other: string | !c.operator.Wildcard? && s == Prefix(c.operator) + other &&
          (c.operator.Greater? || c.operator.LessThan? ==> other == "" || other[0] != '=')
        ensures c.operator == operator && other == rest
      {
        PrefixUnique(s, c.operator, operator, other, rest);
      }
    } else {
      OperandReads(s, Caret, false, c);
    }
  }
}
