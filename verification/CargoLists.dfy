/** internal/analysis/identity_enrichment_cargo_version.go: requirements of several clauses. Clauses written one behind
    the other, with commas between and white space around them, are read back one by one, and a release satisfies the
    text exactly when it is in the interval of every clause that was written. */
module CargoLists {
  import opened Strings
  import opened Results
  import opened Seqs
  import opened Decimal
  import opened SemVer
  import opened CargoRequirement
  import opened CargoSyntax
  import opened CargoText
  import opened CargoRoundTrip

  /** Every part is read, on its own, or the reading fails. */
  lemma {:induction false} ClausesReadEach(parts: seq<string>)
    ensures ReadClauses(parts).Some? <==> forall i :: 0 <= i < |parts| ==> ReadClause(parts[i]).Some?
    ensures ReadClauses(parts).Some? ==> |ReadClauses(parts).value| == |parts|
    ensures ReadClauses(parts).Some? ==>
      forall i :: 0 <= i < |parts| ==> ReadClause(parts[i]) == Some(ReadClauses(parts).value[i])
  {
    hide ReadClause;
    if parts != [] {
      var n := |parts| - 1;
      ClausesReadEach(parts[..n]);
      assert forall i :: 0 <= i < n ==> parts[..n][i] == parts[i];
    }
  }

  // ----- padded text -----

  /** Text between white space, itself neither empty nor with white space at its ends. */
  predicate IsTight(s: string) {
    s != "" && !IsSpace(s[0]) && !IsSpace(s[|s| - 1])
  }

  lemma {:induction false} TrimLeftPadded(a: string, s: string)
    requires Blank(a) && s != "" && !IsSpace(s[0])
    ensures TrimLeft(a + s) == s
  {
    if a == "" {
      assert a + s == s;
    } else {
      assert (a + s)[1..] == a[1..] + s;
      TrimLeftPadded(a[1..], s);
    }
  }

  lemma {:induction false} TrimRightPadded(s: string, b: string)
    requires Blank(b) && s != "" && !IsSpace(s[|s| - 1])
    ensures TrimRight(s + b) == s
  {
    if b == "" {
      assert s + b == s;
    } else {
      var n := |b| - 1;
      assert (s + b)[..|s + b| - 1] == s + b[..n];
      TrimRightPadded(s, b[..n]);
    }
  }

  lemma TrimPadded(a: string, s: string, b: string)
    requires Blank(a) && Blank(b) && IsTight(s)
    ensures TrimSpace(a + s + b) == s
  {
    hide TrimLeft, TrimRight, Blank;
    assert a + s + b == a + (s + b);
    TrimLeftPadded(a, s + b);
    TrimRightPadded(s, b);
  }

  // ----- one clause with white space -----

  /** A clause between white space; `gap` stands behind its operator, if one is written. */
  datatype Line = Line(before: string, written: Written, gap: string, after: string)

  predicate IsBare(w: Written) {
    w.bare || w.clause.operator.Wildcard?
  }

  function Spaced(w: Written, gap: string): string {
    if IsBare(w) then WriteClause(w) else Prefix(w.clause.operator) + gap + WritePartial(w.clause.required, w.build)
  }

  function WriteLine(line: Line): string {
    line.before + Spaced(line.written, line.gap) + line.after
  }

  /** A line that is read back; what looks wild is not, by `ClauseRoundTrip`. */
  predicate IsLine(line: Line) {
    Blank(line.before) && Blank(line.gap) && Blank(line.after) && WritableClause(line.written) &&
    !LooksWild(line.written.clause.required.version.prerelease, line.written.build)
  }

  lemma ClausePadded(a: string, s: string, b: string)
    requires Blank(a) && Blank(b) && IsTight(s)
    ensures ReadClause(a + s + b) == ReadClause(s)
  {
    hide TrimSpace, FindPrefix, ReadOperand;
    TrimPadded(a, s, b);
    TrimPadded("", s, "");
    assert "" + s + "" == s;
  }

  lemma PrefixBeforeGap(operator: Operator, rest: string)
    requires !operator.Wildcard? && rest != "" && rest[0] != '='
    ensures FindPrefix(Prefix(operator) + rest, PREFIXES) == Some((Prefix(operator), operator))
  {
    var s := Prefix(operator) + rest;
    assert forall k :: 0 <= k < |Prefix(operator)| ==> s[k] == Prefix(operator)[k];
    assert s[|Prefix(operator)|] == rest[0];
    PrefixSearch(s);
  }

  lemma PlainIsTight(s: string)
    requires s != "" && forall i :: 0 <= i < |s| ==> PlainChar(s[i])
    ensures IsTight(s) && ',' !in s
  {
  }

  lemma NoSpaceInPrefix(operator: Operator)
    ensures forall i :: 0 <= i < |Prefix(operator)| ==> !IsSpace(Prefix(operator)[i]) && Prefix(operator)[i] != ','
    ensures !operator.Wildcard? ==> Prefix(operator) != ""
  {
  }

  lemma BlankHasNoComma(s: string)
    requires Blank(s)
    ensures ',' !in s
  {
  }

  lemma StarText(parts: seq<string>)
    requires parts != [] && forall part <- parts :: part == "*" || (part != "" && AllDigits(part))
    ensures IsTight(Join(parts, '.')) && ',' !in Join(parts, '.')
  {
    var s := Join(parts, '.');
    forall i | 0 <= i < |s| ensures !IsSpace(s[i]) && s[i] != ',' { JoinChars(parts, '.', i); }
    StarChars(parts, s);
  }

  lemma BareIsTight(w: Written)
    requires WritableClause(w) && IsBare(w)
    ensures IsTight(WriteClause(w)) && ',' !in WriteClause(w)
  {
    hide WriteCore, WritePartial, Join, IsIdentifier, IsSpace, PlainChar, AllDigits;
    var p := w.clause.required;
    if w.clause.operator.Wildcard? {
      var a := if p.components == 0 then [] else WriteCore(p);
      if p.components > 0 { CoreText(p); }
      var parts := a + ["*"];
      assert forall part <- parts :: part == "*" || (part != "" && AllDigits(part));
      StarText(parts);
    } else {
      PartialChars(p, w.build);
      PlainIsTight(WritePartial(p, w.build));
    }
  }

  lemma OperandIsTight(w: Written)
    requires WritableClause(w) && !w.clause.operator.Wildcard?
    ensures var operand := WritePartial(w.clause.required, w.build);
      IsTight(operand) && ',' !in operand && operand[0] != '=' && IsDigit(operand[0])
  {
    hide WritePartial, IsSpace, PlainChar;
    PartialChars(w.clause.required, w.build);
    PlainIsTight(WritePartial(w.clause.required, w.build));
  }

  lemma SpacedIsTight(w: Written, gap: string)
    requires WritableClause(w) && Blank(gap)
    ensures IsTight(Spaced(w, gap)) && ',' !in Spaced(w, gap)
  {
    hide WritePartial, WriteClause, WritableClause, Prefix, IsSpace, PlainChar, Blank;
    if IsBare(w) {
      BareIsTight(w);
    } else {
      OperandIsTight(w);
      NoSpaceInPrefix(w.clause.operator);
      BlankHasNoComma(gap);
      var s, operand := Spaced(w, gap), WritePartial(w.clause.required, w.build);
      assert s[0] == Prefix(w.clause.operator)[0];
      assert s[|s| - 1] == operand[|operand| - 1];
    }
  }

  lemma NothingIsBlank()
    ensures Blank("")
  {
  }

  lemma GapStart(gap: string, operand: string)
    requires Blank(gap) && operand != "" && operand[0] != '='
    ensures (gap + operand)[0] != '='
  {
    if gap != "" { assert IsSpace(gap[0]); }
  }

  lemma GapIsReadOver(w: Written, gap: string)
    requires WritableClause(w) && Blank(gap) && !IsBare(w)
    ensures ReadClause(Spaced(w, gap)) ==
      ReadOperand(WritePartial(w.clause.required, w.build), w.clause.operator, true)
  {
    hide WritePartial, WritableClause, FindPrefix, ReadOperand, TrimSpace, Prefix, IsSpace, Blank;
    var operator, operand := w.clause.operator, WritePartial(w.clause.required, w.build);
    var s := Spaced(w, gap);
    SpacedIsTight(w, gap);
    OperandIsTight(w);
    TrimPadded("", s, "") by { assert Blank("") by { NothingIsBlank(); } }
    assert "" + s + "" == s;
    assert s == Prefix(operator) + (gap + operand);
    assert (gap + operand)[0] != '=' by { GapStart(gap, operand); }
    PrefixBeforeGap(operator, gap + operand);
    assert s[|Prefix(operator)|..] == gap + operand;
    TrimPadded(gap, operand, "") by { assert Blank("") by { NothingIsBlank(); } }
    assert gap + operand + "" == gap + operand;
  }

  lemma BareSpaced(w: Written, gap: string)
    requires IsBare(w)
    ensures Spaced(w, gap) == WriteClause(w)
  {
  }

  lemma NoGap(w: Written)
    requires !IsBare(w)
    ensures Spaced(w, "") == WriteClause(w)
  {
    var operator := Prefix(w.clause.operator);
    assert operator + "" == operator;
  }

  /** White space around a clause and behind its operator is read over. */
  lemma LineRead(line: Line)
    requires IsLine(line)
    ensures ReadClause(WriteLine(line)) == Some(line.written.clause)
    ensures IsTight(Spaced(line.written, line.gap)) && ',' !in WriteLine(line)
  {
    hide WriteClause, WritableClause, ReadClause, Spaced, LooksWild, IsSpace, Blank;
    var w := line.written;
    SpacedIsTight(w, line.gap);
    BlankHasNoComma(line.before);
    BlankHasNoComma(line.after);
    ClausePadded(line.before, Spaced(w, line.gap), line.after);
    ClauseRoundTrip(w);
    if IsBare(w) {
      assert Spaced(w, line.gap) == WriteClause(w) by { BareSpaced(w, line.gap); }
    } else {
      GapIsReadOver(w, line.gap);
      GapIsReadOver(w, "") by { NothingIsBlank(); }
      assert Spaced(w, "") == WriteClause(w) by { NoGap(w); }
    }
  }

  // ----- all clauses -----

  function WriteLines(lines: seq<Line>): (r: seq<string>)
    ensures |r| == |lines| && forall i :: 0 <= i < |r| ==> r[i] == WriteLine(lines[i])
  {
    seq(|lines|, i requires 0 <= i < |lines| => WriteLine(lines[i]))
  }

  function WriteRequirement(lines: seq<Line>): string {
    Join(WriteLines(lines), ',')
  }

  function ClausesOf(lines: seq<Line>): (r: seq<Clause>)
    ensures |r| == |lines| && forall i :: 0 <= i < |r| ==> r[i] == lines[i].written.clause
  {
    seq(|lines|, i requires 0 <= i < |lines| => lines[i].written.clause)
  }

  /** The lines without the white space at the two ends of the requirement. */
  function Stripped(lines: seq<Line>): seq<Line>
    requires lines != []
  {
    var first := [lines[0].(before := "")] + lines[1..];
    first[..|lines| - 1] + [first[|lines| - 1].(after := "")]
  }

  lemma {:induction false} JoinFront(parts: seq<string>, a: string, sep: char)
    requires parts != []
    ensures Join([a + parts[0]] + parts[1..], sep) == a + Join(parts, sep)
  {
    var all := [a + parts[0]] + parts[1..];
    assert all[1..] == parts[1..];
  }

  lemma {:induction false} JoinBack(parts: seq<string>, b: string, sep: char)
    requires parts != []
    ensures var n := |parts| - 1; Join(parts[..n] + [parts[n] + b], sep) == Join(parts, sep) + b
  {
    var n := |parts| - 1;
    var all := parts[..n] + [parts[n] + b];
    if n > 0 {
      assert all[1..] == parts[1..][..n - 1] + [parts[1..][n - 1] + b];
      JoinBack(parts[1..], b, sep);
    }
  }

  lemma {:induction false} TailEnds(parts: seq<string>, sep: char)
    requires parts != [] && parts[|parts| - 1] != ""
    ensures var s, last := Join(parts, sep), parts[|parts| - 1]; s != "" && s[|s| - 1] == last[|last| - 1]
  {
    if |parts| > 1 { TailEnds(parts[1..], sep); }
  }

  lemma {:induction false} JoinEnds(parts: seq<string>, sep: char)
    requires parts != [] && parts[0] != "" && parts[|parts| - 1] != ""
    ensures var s, last := Join(parts, sep), parts[|parts| - 1];
      s != "" && s[0] == parts[0][0] && s[|s| - 1] == last[|last| - 1]
  {
    if |parts| > 1 {
      TailEnds(parts[1..], sep);
    }
  }

  /** The blanks in front of a requirement are those in front of its first clause. */
  lemma FrontStripped(lines: seq<Line>)
    requires lines != []
    ensures WriteRequirement(lines) ==
      lines[0].before + WriteRequirement([lines[0].(before := "")] + lines[1..])
  {
    hide Spaced, Join;
    var first := [lines[0].(before := "")] + lines[1..];
    var texts, firsts := WriteLines(lines), WriteLines(first);
    var spaced := Spaced(lines[0].written, lines[0].gap);
    assert "" + spaced == spaced;
    assert lines[0].before + (spaced + lines[0].after) == texts[0];
    assert texts == [lines[0].before + firsts[0]] + firsts[1..];
    JoinFront(firsts, lines[0].before, ',');
  }

  /** The blanks at the end of a requirement are those behind its last clause. */
  lemma BackStripped(lines: seq<Line>)
    requires lines != []
    ensures WriteRequirement(lines) ==
      WriteRequirement(lines[..|lines| - 1] + [lines[|lines| - 1].(after := "")]) + lines[|lines| - 1].after
  {
    hide Spaced, Join;
    var n := |lines| - 1;
    var all := lines[..n] + [lines[n].(after := "")];
    var texts, alls := WriteLines(lines), WriteLines(all);
    var body := lines[n].before + Spaced(lines[n].written, lines[n].gap);
    assert body + "" == body;
    assert texts == alls[..n] + [alls[n] + lines[n].after];
    JoinBack(alls, lines[n].after, ',');
  }

  lemma StrippedLines(lines: seq<Line>)
    requires lines != [] && forall line <- lines :: IsLine(line)
    ensures var all := Stripped(lines);
      |all| == |lines| && ClausesOf(all) == ClausesOf(lines) && (forall line <- all :: IsLine(line)) &&
      all[0].before == "" && all[|all| - 1].after == "" &&
      WriteRequirement(lines) == lines[0].before + WriteRequirement(all) + lines[|lines| - 1].after
  {
    hide WritableClause, LooksWild, WriteRequirement, Blank;
    NothingIsBlank();
    var n, all := |lines| - 1, Stripped(lines);
    var first := [lines[0].(before := "")] + lines[1..];
    forall i | 0 <= i < |all| ensures IsLine(all[i]) && all[i].written == lines[i].written {
      assert lines[i] in lines && lines[0] in lines && lines[n] in lines;
    }
    assert ClausesOf(all) == ClausesOf(lines);
    FrontStripped(lines);
    BackStripped(first);
    assert first[n].after == lines[n].after;
    var a, b, c := lines[0].before, WriteRequirement(all), lines[n].after;
    assert a + (b + c) == a + b + c;
  }

  lemma LineEnds(line: Line)
    requires IsLine(line)
    ensures var text := WriteLine(line);
      text != "" && (line.before == "" ==> !IsSpace(text[0])) && (line.after == "" ==> !IsSpace(text[|text| - 1]))
  {
    hide IsLine, IsSpace, Spaced, ReadClause, Blank;
    LineRead(line);
    var spaced, text := Spaced(line.written, line.gap), WriteLine(line);
    assert line.before == "" ==> text[0] == spaced[0];
    assert line.after == "" ==> text[|text| - 1] == spaced[|spaced| - 1];
  }

  lemma RequirementIsTight(lines: seq<Line>)
    requires lines != [] && (forall line <- lines :: IsLine(line)) && lines[0].before == "" &&
      lines[|lines| - 1].after == ""
    ensures IsTight(WriteRequirement(lines))
  {
    hide IsLine, IsSpace, Join, Spaced, WriteLine;
    var n := |lines| - 1;
    LineEnds(lines[0]);
    LineEnds(lines[n]);
    JoinEnds(WriteLines(lines), ',');
  }

  lemma EndsBlank(lines: seq<Line>)
    requires lines != [] && forall line <- lines :: IsLine(line)
    ensures Blank(lines[0].before) && Blank(lines[|lines| - 1].after)
  {
    hide Blank, WritableClause, LooksWild;
    assert lines[0] in lines && lines[|lines| - 1] in lines;
  }

  /** The written clauses are read back in their order. */
  lemma RequirementRead(lines: seq<Line>)
    requires lines != [] && forall line <- lines :: IsLine(line)
    ensures var text := TrimSpace(WriteRequirement(lines));
      text != "" && ReadClauses(Split(text, ',')) == Some(ClausesOf(lines))
  {
    hide WriteLine, IsLine, TrimSpace, Split, ReadClause, ReadClauses, IsSpace, Join;
    StrippedLines(lines);
    var all := Stripped(lines);
    var parts := WriteLines(all);
    forall i | 0 <= i < |all| ensures ReadClause(parts[i]) == Some(all[i].written.clause) && ',' !in parts[i] {
      LineRead(all[i]);
    }
    var mid := Join(parts, ',');
    assert IsTight(mid) by { RequirementIsTight(all); }
    assert Blank(lines[0].before) && Blank(lines[|lines| - 1].after) by { EndsBlank(lines); }
    TrimPadded(lines[0].before, mid, lines[|lines| - 1].after);
    SplitJoin(parts, ',');
    ClausesReadEach(parts);
    assert ReadClauses(parts).value == ClausesOf(lines) by {
      assert forall i :: 0 <= i < |all| ==> ReadClauses(parts).value[i] == ClausesOf(all)[i];
    }
  }

  /** A release, written with any build metadata, satisfies a written requirement exactly when it is in the interval of
      every clause; any version does exactly when the clauses accept it. */
  lemma SatisfiesEveryClause(v: Version, build: seq<string>, lines: seq<Line>)
    requires Writable(Partial(v, 3)) && IsBuildList(build) && lines != [] && forall line <- lines :: IsLine(line)
    ensures forall i :: 0 <= i < |lines| ==> WellFormed(lines[i].written.clause)
    ensures Satisfies(WritePartial(Partial(v, 3), build), WriteRequirement(lines)) <==> Accepted(ClausesOf(lines), v)
    ensures v.prerelease == [] ==>
      (Satisfies(WritePartial(Partial(v, 3), build), WriteRequirement(lines)) <==>
        forall i :: 0 <= i < |lines| ==> Inside(CoreOf(v), ClauseInterval(lines[i].written.clause)))
  {
    hide WritePartial, Writable, ReadPartial, IsBuildList, WriteRequirement, TrimSpace, Split, ReadClauses, LooksWild,
      ClauseMatches, ClauseInterval, Inside, WellFormed;
    PartialRoundTrip(Partial(v, 3), build);
    RequirementRead(lines);
    var clauses := ClausesOf(lines);
    forall i | 0 <= i < |lines|
      ensures WellFormed(lines[i].written.clause)
      ensures v.prerelease == [] ==>
        (ClauseMatches(clauses[i], v) <==> Inside(CoreOf(v), ClauseInterval(lines[i].written.clause)))
    {
      assert lines[i] in lines;
      if v.prerelease == [] { ReleaseMatchesInterval(clauses[i], v); }
    }
  }
}
