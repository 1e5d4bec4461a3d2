/** internal/analysis/identity_enrichment_cargo_version.go: what reading requirements from text amounts to. Parsed
    clauses are well formed, so a requirement text stands for one half-open interval of releases. */
module CargoText {
  import opened Strings
  import opened CargoRequirement
  import opened CargoSyntax

  // ----- splitting -----

  lemma SplitHead(c: char, rest: string, sep: char)
    requires c != sep
    ensures Split([c] + rest, sep) == [[c] + Split(rest, sep)[0]] + Split(rest, sep)[1..]
  {
    assert ([c] + rest)[1..] == rest;
  }

  lemma SplitSeparator(rest: string, sep: char)
    ensures Split([sep] + rest, sep) == [""] + Split(rest, sep)
    ensures Split("", sep) == [""]
  {
    assert ([sep] + rest)[1..] == rest;
  }

  lemma {:induction false} SplitPlain(a: string, sep: char)
    requires sep !in a
    ensures Split(a, sep) == [a]
  {
    hide Split;
    SplitSeparator("", sep);
    if a != "" {
      SplitPlain(a[1..], sep);
      SplitHead(a[0], a[1..], sep);
      assert a == [a[0]] + a[1..];
    }
  }

  lemma {:induction false} SplitAt(a: string, t: string, sep: char)
    requires sep !in a
    ensures Split(a + [sep] + t, sep) == [a] + Split(t, sep)
  {
    hide Split;
    if a == "" {
      SplitSeparator(t, sep);
      assert a + [sep] + t == [sep] + t;
    } else {
      var rest := a[1..] + [sep] + t;
      SplitAt(a[1..], t, sep);
      SplitHead(a[0], rest, sep);
      assert a + [sep] + t == [a[0]] + rest;
      assert a == [a[0]] + a[1..];
    }
  }

  lemma {:induction false} SplitJoin(parts: seq<string>, sep: char)
    requires parts != [] && forall p <- parts :: sep !in p
    ensures Split(Join(parts, sep), sep) == parts
  {
    if |parts| == 1 {
      SplitPlain(parts[0], sep);
    } else {
      SplitAt(parts[0], Join(parts[1..], sep), sep);
      SplitJoin(parts[1..], sep);
    }
  }

  lemma SliceOfTail(s: string, from: nat, to: nat)
    requires 0 < from <= to <= |s|
    ensures s[from..to] == s[1..][from - 1..to - 1]
  {
    forall k | 0 <= k < to - from ensures s[from..to][k] == s[1..][from - 1..to - 1][k] {
    }
  }

  /** Text cut out of `s` has no more parts than `s`. */
  lemma {:induction false} SplitShorter(s: string, from: nat, to: nat, sep: char)
    requires from <= to <= |s|
    ensures |Split(s[from..to], sep)| <= |Split(s, sep)|
    decreases |s|
  {
    if s != "" {
      if from > 0 {
        SliceOfTail(s, from, to);
        SplitShorter(s[1..], from - 1, to - 1, sep);
      } else if to > 0 {
        assert s[0..to][1..] == s[1..][0..to - 1];
        SplitShorter(s[1..], 0, to - 1, sep);
      }
    }
  }

  lemma ComponentsCounted(text: string)
    requires ReadPartial(text).Some?
    ensures var s := TrimSpace(text); ReadPartial(text).value.components == |Split(s[..CoreEnd(s)], '.')|
  {
    hide TrimSpace, Split, ReadSuffix, ReadNumbers, CoreEnd;
  }

  lemma TakeOfSlice(s: string, from: nat, to: nat, n: nat)
    requires from <= to <= |s| && from + n <= to
    ensures s[from..to][..n] == s[from..from + n]
  {
  }

  lemma PartialHasNoMoreComponents(text: string)
    requires ReadPartial(text).Some?
    ensures ReadPartial(text).value.components <= |Split(text, '.')|
  {
    hide TrimSpace, Split, ReadPartial, CoreEnd;
    Trimmed(text);
    ComponentsCounted(text);
    var s := TrimSpace(text);
    var from, to :| 0 <= from <= to <= |text| && s == text[from..to];
    TakeOfSlice(text, from, to, CoreEnd(s));
    SplitShorter(text, from, from + CoreEnd(s), '.');
  }

  lemma {:induction false} JoinParts(parts: seq<string>, sep: char)
    requires parts != [] && forall p <- parts :: sep !in p
    ensures |Split(Join(parts, sep), sep)| == |parts|
  {
    SplitJoin(parts, sep);
  }

  lemma ReadWildcardIsShort(text: string)
    requires ReadWildcard(text).Found?
    ensures var required := ReadWildcard(text).required;
      required.components < 3 && (required.components < 1 ==> required == ANY) &&
      required.version.patch == 0 && (required.components < 2 ==> required.version.minor == 0)
  {
    hide TrimSpace, ReadPartial, Split, IsStar;
    var parts := Split(TrimSpace(text), '.');
    var star := FirstStar(parts);
    if star > 0 {
      var init := parts[..star];
      assert forall p <- init :: '.' !in p;
      JoinParts(init, '.');
      PartialHasNoMoreComponents(Join(init, '.'));
    }
  }

  lemma FoundOperator(s: string)
    ensures var found := FindPrefix(s, PREFIXES); found.Some? ==> !found.value.1.Wildcard?
  {
  }

  lemma ReadClauseIsWellFormed(text: string)
    ensures ReadClause(text).Some? ==> WellFormed(ReadClause(text).value)
  {
    hide TrimSpace, ReadPartial, ReadWildcard, FindPrefix;
    var s := TrimSpace(text);
    if s != "" {
      FoundOperator(s);
      var found := FindPrefix(s, PREFIXES);
      var operand := if found.Some? then TrimSpace(s[|found.value.0|..]) else s;
      if ReadWildcard(operand).Found? { ReadWildcardIsShort(operand); }
    }
  }

  lemma {:induction false} ReadClausesAreWellFormed(parts: seq<string>)
    requires ReadClauses(parts).Some?
    ensures forall c <- ReadClauses(parts).value :: WellFormed(c)
  {
    hide ReadClause, WellFormed;
    if parts != [] {
      ReadClausesAreWellFormed(parts[..|parts| - 1]);
      ReadClauseIsWellFormed(parts[|parts| - 1]);
    }
  }

  /** For every requirement that parses, a release satisfies it exactly when its core lies in the meet of the
      half-open intervals of the clauses. */
  lemma ReleaseSatisfiesInterval(version: string, requirement: string)
    requires ReadPartial(version).Some? && ReadPartial(version).value.components == 3
    requires ReadPartial(version).value.version.prerelease == []
    requires TrimSpace(requirement) != "" && ReadClauses(Split(TrimSpace(requirement), ',')).Some?
    ensures var clauses := ReadClauses(Split(TrimSpace(requirement), ',')).value;
      (forall c <- clauses :: WellFormed(c)) &&
      (Satisfies(version, requirement) <==> Inside(CoreOf(ReadPartial(version).value.version), MeetAll(clauses)))
  {
    hide TrimSpace, ReadPartial, ReadClauses, Split, Accepted, MeetAll, Inside, WellFormed;
    ReadClausesAreWellFormed(Split(TrimSpace(requirement), ','));
    ReleaseAcceptedInterval(ReadClauses(Split(TrimSpace(requirement), ',')).value, ReadPartial(version).value.version);
  }
}
