/** internal/app/codemod_apply.go: applying line edits to a file's content. */
module Codemod {
  import opened Results
  import opened Seqs

  datatype Line = Line(text: string, separator: string)

  datatype Suggestion = Suggestion(line: int, original: string, replacement: string, deleteLine: bool)

  datatype EditError = OutOfRange(line: int) | Targeted(line: int) | Mismatch(line: int)

  // ----- lines -----

  /** `joinCodemodContentLines`. */
  function JoinLines(lines: seq<Line>): string {
    if lines == [] then ""
    else
      var last := lines[|lines| - 1];
      JoinLines(lines[..|lines| - 1]) + last.text + last.separator
  }

  /** A line that a line feed ends, alone or behind a carriage return. */
  predicate IsEnded(line: Line) {
    '\n' !in line.text &&
    (line.separator == "\r\n" || (line.separator == "\n" && (line.text == "" || line.text[|line.text| - 1] != '\r')))
  }

  predicate AllEnded(lines: seq<Line>) {
    forall i :: 0 <= i < |lines| ==> IsEnded(lines[i])
  }

  /** Ended lines and one that is not: the lines of some content. */
  predicate Canonical(lines: seq<Line>) {
    lines != [] && AllEnded(lines[..|lines| - 1]) && lines[|lines| - 1].separator == "" &&
      '\n' !in lines[|lines| - 1].text
  }

  lemma JoinSnoc(lines: seq<Line>, line: Line)
    ensures JoinLines(lines + [line]) == JoinLines(lines) + line.text + line.separator
  {
    SnocTake(lines, line);
  }

  /** Cutting out the line that the line feed at `i` ends. */
  lemma LineCut(content: string, start: nat, textEnd: nat, i: nat, separator: string)
    requires start <= textEnd <= i < |content| && content[i] == '\n' && '\n' !in content[start..i]
    requires
      if i > start && content[i - 1] == '\r' then textEnd == i - 1 && separator == "\r\n"
      else textEnd == i && separator == "\n"
    ensures IsEnded(Line(content[start..textEnd], separator))
    ensures content[..i + 1] == content[..start] + content[start..textEnd] + separator
  {
    forall k | start <= k < i ensures content[k] != '\n' {
      assert content[start..i][k - start] == content[k];
    }
  }

  lemma NoFeedYet(content: string, start: nat, i: nat)
    requires start <= i < |content| && '\n' !in content[start..i] && content[i] != '\n'
    ensures '\n' !in content[start..i + 1]
  {
    var line := content[start..i + 1];
    forall k | 0 <= k < |line| ensures line[k] != '\n' {
      if k < i - start { assert line[k] == content[start..i][k]; }
    }
  }

  /** `splitCodemodContentLines`. */
  method SplitLines(content: string) returns (lines: seq<Line>)
    ensures Canonical(lines) && JoinLines(lines) == content
  {
    lines := [];
    var start := 0;
    for i := 0 to |content|
      invariant start <= i && '\n' !in content[start..i]
      invariant AllEnded(lines) && JoinLines(lines) == content[..start]
    {
      if content[i] != '\n' {
        NoFeedYet(content, start, i);
        continue;
      }
      var textEnd, separator := i, "\n";
      if i > start && content[i - 1] == '\r' { textEnd, separator := i - 1, "\r\n"; }
      var line := Line(content[start..textEnd], separator);
      LineCut(content, start, textEnd, i, separator);
      JoinSnoc(lines, line);
      lines := lines + [line];
      start := i + 1;
      assert content[start..i + 1] == "";
    }
    var tail := Line(content[start..], "");
    assert content[start..|content|] == content[start..];
    JoinSnoc(lines, tail);
    assert content == content[..start] + content[start..];
    SnocTake(lines, tail);
    lines := lines + [tail];
  }

  lemma JoinNothing()
    ensures JoinLines([]) == ""
  {
  }

  lemma {:induction false} JoinHead(line: Line, lines: seq<Line>)
    ensures JoinLines([line] + lines) == line.text + line.separator + JoinLines(lines)
  {
    hide JoinLines;
    assert JoinLines([]) == "" by { JoinNothing(); }
    if lines == [] {
      JoinSnoc([], line);
      assert [line] + lines == [] + [line];
    } else {
      var n := |lines| - 1;
      JoinHead(line, lines[..n]);
      JoinSnoc([line] + lines[..n], lines[n]);
      JoinSnoc(lines[..n], lines[n]);
      assert [line] + lines == [line] + lines[..n] + [lines[n]];
      assert lines == lines[..n] + [lines[n]];
    }
  }

  lemma NoFeed(text: string)
    requires '\n' !in text
    ensures forall i :: 0 <= i < |text| ==> text[i] != '\n'
  {
  }

  lemma SameLine(a: Line, b: Line)
    requires IsEnded(a) && IsEnded(b) && a.text + a.separator == b.text + b.separator
    ensures a == b
  {
    var whole := a.text + a.separator;
    var n := |whole|;
    assert a.separator == "\n" && a.text != "" ==> whole[n - 2] == a.text[|a.text| - 1];
    assert b.separator == "\n" && b.text != "" ==> whole[n - 2] == b.text[|b.text| - 1];
    assert a.separator == "\r\n" ==> whole[n - 2] == '\r';
    assert b.separator == "\r\n" ==> (b.text + b.separator)[n - 2] == '\r';
    assert a.text == whole[..n - |a.separator|] && b.text == whole[..n - |b.separator|];
  }

  /** The first line feed shows where the first line ends. */
  lemma FirstLineUnique(a: Line, restA: string, b: Line, restB: string)
    requires IsEnded(a) && IsEnded(b)
    requires a.text + a.separator + restA == b.text + b.separator + restB
    ensures a == b && restA == restB
  {
    var whole := a.text + a.separator + restA;
    var lenA, lenB := |a.text + a.separator|, |b.text + b.separator|;
    NoFeed(a.text);
    NoFeed(b.text);
    assert whole[lenA - 1] == '\n' && whole[lenB - 1] == '\n';
    assert forall i :: 0 <= i < lenA - 1 ==> whole[i] != '\n';
    assert forall i :: 0 <= i < lenB - 1 ==> whole[i] == (b.text + b.separator)[i];
    assert forall i :: 0 <= i < lenB - 1 ==> whole[i] != '\n';
    assert lenA == lenB;
    assert whole[..lenA] == a.text + a.separator && whole[..lenB] == b.text + b.separator;
    assert whole[lenA..] == restA && whole[lenB..] == restB;
    SameLine(a, b);
  }

  lemma {:induction false} HasFeed(line: Line, rest: string)
    requires IsEnded(line)
    ensures '\n' in line.text + line.separator + rest
  {
    var s := line.text + line.separator + rest;
    assert s[|line.text| + |line.separator| - 1] == '\n';
  }

  lemma Unfolded(lines: seq<Line>)
    requires Canonical(lines)
    ensures |lines| == 1 ==>
      JoinLines(lines) == lines[0].text && '\n' !in JoinLines(lines) && lines == [Line(JoinLines(lines), "")]
    ensures |lines| > 1 ==> IsEnded(lines[0]) && '\n' in JoinLines(lines)
    ensures |lines| > 1 ==> JoinLines(lines) == lines[0].text + lines[0].separator + JoinLines(lines[1..])
  {
    assert lines == [lines[0]] + lines[1..];
    JoinHead(lines[0], lines[1..]);
    if |lines| > 1 {
      assert lines[..|lines| - 1][0] == lines[0];
      HasFeed(lines[0], JoinLines(lines[1..]));
    } else {
      assert lines[1..] == [];
      assert JoinLines([]) == "";
    }
  }

  /** A content has one list of lines, so splitting undoes joining as joining undoes splitting. */
  lemma {:induction false} LinesUnique(a: seq<Line>, b: seq<Line>)
    requires Canonical(a) && Canonical(b) && JoinLines(a) == JoinLines(b)
    ensures a == b
  {
    Unfolded(a);
    Unfolded(b);
    if |a| > 1 && |b| > 1 {
      FirstLineUnique(a[0], JoinLines(a[1..]), b[0], JoinLines(b[1..]));
      assert a[1..][..|a| - 2] == a[..|a| - 1][1..] && b[1..][..|b| - 2] == b[..|b| - 1][1..];
      LinesUnique(a[1..], b[1..]);
      assert a == [a[0]] + a[1..] && b == [b[0]] + b[1..];
    }
  }

  // ----- suggestions -----

  predicate Targets(suggestions: seq<Suggestion>, line: int) {
    exists i :: 0 <= i < |suggestions| && suggestions[i].line == line
  }

  /** What is wrong with one suggestion behind the others. */
  function CheckOne(lines: seq<Line>, before: seq<Suggestion>, s: Suggestion): Option<EditError> {
    if s.line <= 0 || s.line > |lines| then Some(OutOfRange(s.line))
    else if Targets(before, s.line) then Some(Targeted(s.line))
    else if lines[s.line - 1].text != s.original then Some(Mismatch(s.line))
    else None
  }

  function FirstError(lines: seq<Line>, suggestions: seq<Suggestion>): Option<EditError> {
    if suggestions == [] then None
    else
      var n := |suggestions| - 1;
      var earlier := FirstError(lines, suggestions[..n]);
      if earlier.Some? then earlier else CheckOne(lines, suggestions[..n], suggestions[n])
  }

  /** Each suggestion names a line of the content by its exact text, and no two the same line. */
  predicate Applicable(lines: seq<Line>, suggestions: seq<Suggestion>) {
    (forall i :: 0 <= i < |suggestions| ==>
      1 <= suggestions[i].line <= |lines| && lines[suggestions[i].line - 1].text == suggestions[i].original) &&
    forall i, j :: 0 <= i < j < |suggestions| ==> suggestions[i].line != suggestions[j].line
  }

  lemma ApplicableSnoc(lines: seq<Line>, before: seq<Suggestion>, s: Suggestion)
    ensures Applicable(lines, before + [s]) <==> Applicable(lines, before) && CheckOne(lines, before, s).None?
  {
    var all := before + [s];
    assert forall i :: 0 <= i < |before| ==> all[i] == before[i];
    assert all[|before|] == s;
    if Applicable(lines, all) {
      assert forall i :: 0 <= i < |before| ==> all[i].line != s.line;
    }
  }

  lemma {:induction false} NoErrorMeansApplicable(lines: seq<Line>, suggestions: seq<Suggestion>)
    ensures FirstError(lines, suggestions).None? <==> Applicable(lines, suggestions)
  {
    if suggestions != [] {
      var n := |suggestions| - 1;
      NoErrorMeansApplicable(lines, suggestions[..n]);
      ApplicableSnoc(lines, suggestions[..n], suggestions[n]);
      assert suggestions == suggestions[..n] + [suggestions[n]];
    }
  }

  lemma {:induction false} ErrorStays(lines: seq<Line>, suggestions: seq<Suggestion>, i: nat)
    requires i <= |suggestions| && FirstError(lines, suggestions[..i]).Some?
    ensures FirstError(lines, suggestions) == FirstError(lines, suggestions[..i])
    decreases |suggestions|
  {
    TakeAll(suggestions);
    if i < |suggestions| {
      TakeOfTake(suggestions, |suggestions| - 1, i);
      ErrorStays(lines, suggestions[..|suggestions| - 1], i);
    }
  }

  lemma TargetsSnoc(suggestions: seq<Suggestion>, s: Suggestion)
    ensures forall line :: Targets(suggestions + [s], line) <==> Targets(suggestions, line) || line == s.line
  {
    forall line ensures Targets(suggestions + [s], line) <==> Targets(suggestions, line) || line == s.line {
      var all := suggestions + [s];
      if Targets(suggestions, line) {
        var i :| 0 <= i < |suggestions| && suggestions[i].line == line;
        assert all[i].line == line;
      }
      assert all[|suggestions|] == s;
    }
  }

  /** `validateCodemodSuggestions`. */
  method Validate(lines: seq<Line>, suggestions: seq<Suggestion>) returns (error: Option<EditError>)
    ensures error == FirstError(lines, suggestions)
  {
    var targeted: map<int, Suggestion> := map[];
    for i := 0 to |suggestions|
      invariant FirstError(lines, suggestions[..i]).None?
      invariant forall line :: line in targeted <==> Targets(suggestions[..i], line)
    {
      var s := suggestions[i];
      TakeLast(suggestions, i);
      if s.line <= 0 || s.line > |lines| {
        ErrorStays(lines, suggestions, i + 1);
        return Some(OutOfRange(s.line));
      }
      if s.line in targeted {
        ErrorStays(lines, suggestions, i + 1);
        return Some(Targeted(s.line));
      }
      TargetsSnoc(suggestions[..i], s);
      targeted := targeted[s.line := s];
      if lines[s.line - 1].text != s.original {
        ErrorStays(lines, suggestions, i + 1);
        return Some(Mismatch(s.line));
      }
    }
    TakeAll(suggestions);
    error := None;
  }

  // ----- all edits at once -----

  /** The suggestion for a line. */
  function EditOf(suggestions: seq<Suggestion>, line: int): Option<Suggestion> {
    if suggestions == [] then None
    else if suggestions[0].line == line then Some(suggestions[0])
    else EditOf(suggestions[1..], line)
  }

  /** A line without a suggestion stays, a deleted one goes with its separator, a replaced one keeps its separator. */
  function EditLine(line: Line, edit: Option<Suggestion>): seq<Line> {
    match edit
    case None => [line]
    case Some(s) => if s.deleteLine then [] else [line.(text := s.replacement)]
  }

  /** Lines `from` up to `to`, each edited on its own. */
  function Edited(lines: seq<Line>, suggestions: seq<Suggestion>, from: nat, to: nat): seq<Line>
    requires from <= to <= |lines|
    decreases |lines| - from
  {
    if from == to then []
    else EditLine(lines[from], EditOf(suggestions, from + 1)) + Edited(lines, suggestions, from + 1, to)
  }

  lemma {:induction false} EditOfIs(suggestions: seq<Suggestion>, line: int)
    ensures EditOf(suggestions, line).None? <==> !Targets(suggestions, line)
    ensures EditOf(suggestions, line).Some? ==>
      EditOf(suggestions, line).value in suggestions && EditOf(suggestions, line).value.line == line
  {
    if suggestions != [] {
      EditOfIs(suggestions[1..], line);
      assert suggestions == [suggestions[0]] + suggestions[1..];
      if Targets(suggestions[1..], line) {
        var i :| 0 <= i < |suggestions[1..]| && suggestions[1..][i].line == line;
        assert suggestions[i + 1].line == line;
      }
      if Targets(suggestions, line) && suggestions[0].line != line {
        var i :| 0 <= i < |suggestions| && suggestions[i].line == line;
        assert suggestions[1..][i - 1].line == line;
      }
    }
  }

  lemma {:induction false} EditedSplits(lines: seq<Line>, suggestions: seq<Suggestion>, from: nat, middle: nat, to: nat)
    requires from <= middle <= to <= |lines|
    ensures Edited(lines, suggestions, from, to) ==
      Edited(lines, suggestions, from, middle) + Edited(lines, suggestions, middle, to)
    decreases middle - from
  {
    hide EditLine;
    if from < middle {
      EditedSplits(lines, suggestions, from + 1, middle, to);
    }
  }

  lemma {:induction false} Untouched(lines: seq<Line>, suggestions: seq<Suggestion>, from: nat, to: nat)
    requires from <= to <= |lines|
    requires forall line :: from < line <= to ==> !Targets(suggestions, line)
    ensures Edited(lines, suggestions, from, to) == lines[from..to]
    decreases |lines| - from
  {
    if from < to {
      EditOfIs(suggestions, from + 1);
      Untouched(lines, suggestions, from + 1, to);
    }
  }

  lemma EditFound(lines: seq<Line>, a: seq<Suggestion>, b: seq<Suggestion>, line: int)
    requires Applicable(lines, b) && multiset(a) == multiset(b)
    ensures EditOf(a, line).Some? ==> EditOf(b, line) == EditOf(a, line)
  {
    EditOfIs(a, line);
    EditOfIs(b, line);
    if EditOf(a, line).Some? {
      var x := EditOf(a, line).value;
      assert x in multiset(b);
      var i :| 0 <= i < |b| && b[i] == x;
      assert Targets(b, line);
    }
  }

  lemma SameEdit(lines: seq<Line>, a: seq<Suggestion>, b: seq<Suggestion>, line: int)
    requires Applicable(lines, a) && Applicable(lines, b) && multiset(a) == multiset(b)
    ensures EditOf(a, line) == EditOf(b, line)
  {
    EditFound(lines, a, b, line);
    EditFound(lines, b, a, line);
  }

  /** The edit does not depend on the order of the suggestions. */
  lemma {:induction false} OrderDoesNotMatter(lines: seq<Line>, a: seq<Suggestion>, b: seq<Suggestion>, from: nat,
      to: nat)
    requires from <= to <= |lines|
    requires Applicable(lines, a) && Applicable(lines, b) && multiset(a) == multiset(b)
    ensures Edited(lines, a, from, to) == Edited(lines, b, from, to)
    decreases |lines| - from
  {
    hide EditLine, EditOf, Applicable;
    if from < to {
      OrderDoesNotMatter(lines, a, b, from + 1, to);
      SameEdit(lines, a, b, from + 1);
    }
  }

  // ----- bottom up, in place -----

  predicate Descending(s: seq<Suggestion>) {
    forall i, j :: 0 <= i < j < |s| ==> s[i].line >= s[j].line
  }

  lemma StillDescending(x: Suggestion, s: seq<Suggestion>, t: seq<Suggestion>)
    requires s != [] && Descending(s) && s[0].line > x.line && Descending(t) &&
      multiset(t) == multiset(s[1..]) + multiset{x}
    ensures Descending([s[0]] + t)
  {
    forall j | 0 <= j < |t| ensures s[0].line >= t[j].line {
      assert t[j] in multiset(t);
      assert t[j] == x || t[j] in s[1..];
    }
  }

  /** `sort.SliceStable` by falling line. */
  function InsertByLine(x: Suggestion, s: seq<Suggestion>): (r: seq<Suggestion>)
    requires Descending(s)
    ensures Descending(r) && multiset(r) == multiset(s) + multiset{x}
  {
    if s == [] then [x]
    else
      assert s == [s[0]] + s[1..];
      if s[0].line > x.line then
        var t := InsertByLine(x, s[1..]);
        StillDescending(x, s, t);
        [s[0]] + t
      else [x] + s
  }

  function SortByLine(s: seq<Suggestion>): (r: seq<Suggestion>)
    ensures Descending(r) && multiset(r) == multiset(s)
  {
    if s == [] then []
    else
      assert s == [s[0]] + s[1..];
      InsertByLine(s[0], SortByLine(s[1..]))
  }

  lemma TwiceInMultiset(s: seq<Suggestion>, i: nat, j: nat)
    requires i < j < |s| && s[i] == s[j]
    ensures multiset(s)[s[i]] >= 2
  {
    assert s == s[..i] + [s[i]] + s[i + 1..j] + [s[j]] + s[j + 1..];
  }

  lemma OnceInMultiset(s: seq<Suggestion>, i: nat)
    requires i < |s| && forall j :: 0 <= j < |s| && j != i ==> s[j] != s[i]
    ensures multiset(s)[s[i]] == 1
  {
    assert s == s[..i] + [s[i]] + s[i + 1..];
    assert s[i] !in s[..i] && s[i] !in s[i + 1..];
  }

  lemma PermutedApplicable(lines: seq<Line>, a: seq<Suggestion>, b: seq<Suggestion>)
    requires Applicable(lines, a) && multiset(a) == multiset(b)
    ensures Applicable(lines, b)
  {
    forall i | 0 <= i < |b|
      ensures 1 <= b[i].line <= |lines| && lines[b[i].line - 1].text == b[i].original
    {
      assert b[i] in multiset(a);
      assert b[i] in a;
    }
    forall i, j | 0 <= i < j < |b| ensures b[i].line != b[j].line {
      if b[i].line == b[j].line {
        assert b[i] in multiset(a) && b[j] in multiset(a);
        var p :| 0 <= p < |a| && a[p] == b[i];
        var q :| 0 <= q < |a| && a[q] == b[j];
        assert p == q;
        TwiceInMultiset(b, i, j);
        OnceInMultiset(a, p);
      }
    }
  }

  /** One step of the loop, seen from the lines below the suggestion. */
  lemma EditAt(lines: seq<Line>, suggestions: seq<Suggestion>, s: Suggestion, below: nat)
    requires below <= |lines| && 1 <= s.line <= below && EditOf(suggestions, s.line) == Some(s)
    requires forall line :: s.line < line <= below ==> !Targets(suggestions, line)
    ensures Edited(lines, suggestions, s.line - 1, |lines|)
         == EditLine(lines[s.line - 1], Some(s)) + lines[s.line..below] + Edited(lines, suggestions, below, |lines|)
  {
    EditedSplits(lines, suggestions, s.line, below, |lines|);
    Untouched(lines, suggestions, s.line, below);
  }

  /** One edit of the shared slice. */
  method EditOne(lines: seq<Line>, ghost above: seq<Line>, ghost line: Line, ghost tail: seq<Line>, s: Suggestion)
      returns (r: seq<Line>)
    requires s.line >= 1 && |above| == s.line - 1 && lines == above + [line] + tail
    ensures r == above + EditLine(line, Some(s)) + tail
  {
    var index := s.line - 1;
    if s.deleteLine {
      r := lines[..index] + lines[index + 1..];
    } else {
      r := lines[index := lines[index].(text := s.replacement)];
    }
  }

  lemma NothingEdited(lines: seq<Line>, suggestions: seq<Suggestion>)
    ensures Edited(lines, suggestions, |lines|, |lines|) == []
  {
  }

  /** The lines above which the first `i` suggestions have been applied. */
  function Below(lines: seq<Line>, applied: seq<Suggestion>, i: nat): int
    requires i <= |applied|
  {
    if i == 0 then |lines| else applied[i - 1].line - 1
  }

  lemma InReach(lines: seq<Line>, applied: seq<Suggestion>, i: nat)
    requires Applicable(lines, applied) && Descending(applied) && i < |applied|
    ensures 1 <= applied[i].line <= Below(lines, applied, i) <= |lines|
  {
  }

  lemma OwnEdit(lines: seq<Line>, applied: seq<Suggestion>, s: Suggestion)
    requires Applicable(lines, applied) && s in applied
    ensures EditOf(applied, s.line) == Some(s)
  {
    EditOfIs(applied, s.line);
  }

  lemma NoneBetween(lines: seq<Line>, applied: seq<Suggestion>, i: nat, line: int)
    requires Applicable(lines, applied) && Descending(applied) && i < |applied| && Targets(applied, line)
    ensures line <= applied[i].line || line > Below(lines, applied, i)
  {
    var k :| 0 <= k < |applied| && applied[k].line == line;
    assert k < i ==> applied[k].line >= applied[i - 1].line;
  }

  method EditBottomUp(original: seq<Line>, applied: seq<Suggestion>) returns (lines: seq<Line>)
    requires Applicable(original, applied) && Descending(applied)
    ensures lines == Edited(original, applied, 0, |original|)
  {
    hide Edited, EditOf;
    lines := original;
    ghost var below: nat := |original|;
    assert Edited(original, applied, below, |original|) == [] by { NothingEdited(original, applied); }
    for i := 0 to |applied|
      invariant below <= |original|
      invariant lines == original[..below] + Edited(original, applied, below, |original|)
      invariant below == Below(original, applied, i)
    {
      var s := applied[i];
      InReach(original, applied, i);
      OwnEdit(original, applied, s);
      forall line | Targets(applied, line) ensures line <= s.line || line > below {
        NoneBetween(original, applied, i, line);
      }
      EditAt(original, applied, s, below);
      ghost var tail := original[s.line..below] + Edited(original, applied, below, |original|);
      assert original[..below] == original[..s.line - 1] + [original[s.line - 1]] + original[s.line..below];
      lines := EditOne(lines, original[..s.line - 1], original[s.line - 1], tail, s);
      below := s.line - 1;
    }
    assert forall line :: 0 < line <= below ==> !Targets(applied, line);
    Untouched(original, applied, 0, below);
    EditedSplits(original, applied, 0, below, |original|);
    assert original[0..below] == original[..below];
  }

  /** The lines of a content: by `SplitLines` there are such lines, by `LinesUnique` only one list of them. */
  predicate LinesOf(lines: seq<Line>, content: string) {
    Canonical(lines) && JoinLines(lines) == content
  }

  /** The first error, or every line of the original content edited on its own. */
  function Outcome(lines: seq<Line>, suggestions: seq<Suggestion>): Result<string, EditError> {
    match FirstError(lines, suggestions)
    case Some(error) => Err(error)
    case None => Ok(JoinLines(Edited(lines, suggestions, 0, |lines|)))
  }

  method Joined(lines: seq<Line>) returns (text: string)
    ensures text == JoinLines(lines)
  {
    text := "";
    for i := 0 to |lines|
      invariant text == JoinLines(lines[..i])
    {
      TakeLast(lines, i);
      text := text + lines[i].text;
      text := text + lines[i].separator;
    }
    TakeAll(lines);
  }

  /** `applySuggestionsToContent`. */
  method ApplySuggestions(content: string, suggestions: seq<Suggestion>) returns (r: Result<string, EditError>)
    ensures forall lines :: LinesOf(lines, content) ==> r == Outcome(lines, suggestions)
    ensures forall lines :: LinesOf(lines, content) ==> (r.Ok? <==> Applicable(lines, suggestions))
  {
    hide Canonical, Applicable, Edited;
    var lines := SplitLines(content);
    var error := Validate(lines, suggestions);
    NoErrorMeansApplicable(lines, suggestions);
    forall other | LinesOf(other, content) ensures other == lines {
      LinesUnique(other, lines);
    }
    if error.Some? { return Err(error.value); }
    var applied := SortByLine(suggestions);
    PermutedApplicable(lines, suggestions, applied);
    OrderDoesNotMatter(lines, suggestions, applied, 0, |lines|);
    var edited := EditBottomUp(lines, applied);
    var joined := Joined(edited);
    r := Ok(joined);
  }

  /** Without suggestions the content comes back unchanged, mixed line endings included. */
  lemma NoSuggestionsNoChange(lines: seq<Line>)
    ensures Edited(lines, [], 0, |lines|) == lines
  {
    Untouched(lines, [], 0, |lines|);
    assert lines[0..|lines|] == lines;
  }

  // ----- line by line -----

  predicate IsDeleted(suggestions: seq<Suggestion>, line: int) {
    exists s <- suggestions :: s.line == line && s.deleteLine
  }

  /** An edited line: what its line was, with the text a suggestion gives it and the separator it had. */
  predicate IsEditOf(edited: Line, line: Line, number: int, suggestions: seq<Suggestion>) {
    edited.separator == line.separator &&
    (forall s <- suggestions :: s.line == number ==> edited.text == s.replacement) &&
    ((forall s <- suggestions :: s.line != number) ==> edited.text == line.text)
  }

  lemma OneLineLeft(lines: seq<Line>, suggestions: seq<Suggestion>, k: nat)
    requires k < |lines| && Applicable(lines, suggestions)
    ensures var left := EditLine(lines[k], EditOf(suggestions, k + 1));
      if IsDeleted(suggestions, k + 1) then left == []
      else |left| == 1 && IsEditOf(left[0], lines[k], k + 1, suggestions)
  {
    EditOfIs(suggestions, k + 1);
    var edit := EditOf(suggestions, k + 1);
    if edit.Some? {
      forall s | s in suggestions && s.line == k + 1 ensures s == edit.value {
        var i :| 0 <= i < |suggestions| && suggestions[i] == s;
        var j :| 0 <= j < |suggestions| && suggestions[j] == edit.value;
        assert i == j;
      }
    }
  }

  lemma FrontSource(from: nat, rest: seq<nat>)
    requires (forall i, j :: 0 <= i < j < |rest| ==> rest[i] < rest[j]) && forall k :: k in rest ==> from < k
    ensures var source := [from] + rest;
      (forall i, j :: 0 <= i < j < |source| ==> source[i] < source[j]) &&
      forall k :: k in source <==> k == from || k in rest
  {
    var source := [from] + rest;
    forall i, j | 0 <= i < j < |source| ensures source[i] < source[j] {
      assert rest[j - 1] in rest;
    }
  }

  /** The lines that no suggestion deletes are left, in their order, and each is edited on its own. */
  lemma {:induction false} LinesLeft(lines: seq<Line>, suggestions: seq<Suggestion>, from: nat, to: nat)
      returns (source: seq<nat>)
    requires from <= to <= |lines| && Applicable(lines, suggestions)
    ensures |source| == |Edited(lines, suggestions, from, to)|
    ensures forall i, j :: 0 <= i < j < |source| ==> source[i] < source[j]
    ensures forall k :: k in source <==> from <= k < to && !IsDeleted(suggestions, k + 1)
    ensures forall i :: 0 <= i < |source| ==>
      source[i] < |lines| && IsEditOf(Edited(lines, suggestions, from, to)[i], lines[source[i]], source[i] + 1,
        suggestions)
    decreases |lines| - from
  {
    hide Applicable, IsEditOf, IsDeleted, EditLine;
    if from == to {
      source := [];
    } else {
      var rest := LinesLeft(lines, suggestions, from + 1, to);
      OneLineLeft(lines, suggestions, from);
      var first, others := EditLine(lines[from], EditOf(suggestions, from + 1)),
        Edited(lines, suggestions, from + 1, to);
      assert Edited(lines, suggestions, from, to) == first + others;
      if IsDeleted(suggestions, from + 1) {
        source := rest;
        assert first + others == others;
      } else {
        source := [from] + rest;
        FrontSource(from, rest);
        assert first + others == [first[0]] + others;
      }
      hide Edited;
    }
  }
}
