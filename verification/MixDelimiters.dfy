/** internal/analysis/identity_enrichment_ruby_elixir.go: finding the end of a bracketed group in a Mix file and
    splitting its content at the top-level commas, against a grammar of well-nested text. */
module MixDelimiters {
  import opened Strings
  import opened Results
  import opened Seqs

  predicate IsOpening(c: char) {
    c == '(' || c == '[' || c == '{'
  }

  predicate IsClosing(c: char) {
    c == ')' || c == ']' || c == '}'
  }

  function ClosingOf(c: char): (r: char)
    requires IsOpening(c)
    ensures IsClosing(r)
  {
    match c
    case '(' => ')'
    case '[' => ']'
    case _ => '}'
  }

  /** Well-nested text: other characters, and groups of well-nested text in matching delimiters. */
  ghost predicate Balanced(s: string)
    decreases |s|
  {
    s == "" ||
    (!IsOpening(s[0]) && !IsClosing(s[0]) && Balanced(s[1..])) ||
    (IsOpening(s[0]) && exists k :: EndsGroup(s, k))
  }

  /** The group that starts `s` ends at `k`, and well-nested text follows. */
  ghost predicate EndsGroup(s: string, k: int)
    requires s != "" && IsOpening(s[0])
    decreases |s|, 0
  {
    1 <= k < |s| && s[k] == ClosingOf(s[0]) && Balanced(s[1..k]) && Balanced(s[k + 1..])
  }

  // ----- the stack machine -----

  function Push(stack: Option<seq<char>>, c: char): Option<seq<char>> {
    if stack.None? then None
    else if IsOpening(c) then Some(stack.value + [ClosingOf(c)])
    else if !IsClosing(c) then stack
    else if stack.value == [] || stack.value[|stack.value| - 1] != c then None
    else Some(stack.value[..|stack.value| - 1])
  }

  /** The stack of expected closing delimiters after reading `s`. */
  function Run(stack: Option<seq<char>>, s: string): Option<seq<char>>
    decreases |s|
  {
    if s == "" then stack else Run(Push(stack, s[0]), s[1..])
  }

  lemma {:induction false} RunConcat(stack: Option<seq<char>>, a: string, b: string)
    ensures Run(stack, a + b) == Run(Run(stack, a), b)
    decreases |a|
  {
    if a == "" {
      assert a + b == b;
    } else {
      assert (a + b)[1..] == a[1..] + b;
      RunConcat(Push(stack, a[0]), a[1..], b);
    }
  }

  lemma {:induction false} NoneStays(s: string)
    ensures Run(None, s) == None
  {
    if s != "" { NoneStays(s[1..]); }
  }

  lemma RunOne(stack: Option<seq<char>>, c: char)
    ensures Run(stack, [c]) == Push(stack, c)
  {
    assert [c][1..] == "";
  }

  /** Well-nested text leaves the stack alone. */
  lemma {:induction false} BalancedRuns(s: string, stack: seq<char>)
    requires Balanced(s)
    ensures Run(Some(stack), s) == Some(stack)
    decreases |s|
  {
    if s != "" && IsOpening(s[0]) {
      var k :| EndsGroup(s, k);
      var inside := stack + [ClosingOf(s[0])];
      assert s[1..] == s[1..k] + ([s[k]] + s[k + 1..]);
      RunConcat(Some(inside), s[1..k], [s[k]] + s[k + 1..]);
      BalancedRuns(s[1..k], inside);
      assert ([s[k]] + s[k + 1..])[1..] == s[k + 1..];
      assert inside[..|inside| - 1] == stack;
      BalancedRuns(s[k + 1..], stack);
    } else if s != "" {
      BalancedRuns(s[1..], stack);
    }
  }

  /** Building well-nested text from the left. */
  lemma GroupThenBalanced(s: string, k: nat)
    requires k < |s| && IsOpening(s[0]) && 1 <= k && s[k] == ClosingOf(s[0]) && Balanced(s[1..k]) &&
      Balanced(s[k + 1..])
    ensures Balanced(s)
  {
    assert EndsGroup(s, k);
  }

  lemma PlainThenBalanced(s: string)
    requires s != "" && !IsOpening(s[0]) && !IsClosing(s[0]) && Balanced(s[1..])
    ensures Balanced(s)
  {
  }

  lemma EmptyIsBalanced()
    ensures Balanced("")
  {
  }

  /** When the machine gets below `stack + [c]`, well-nested text stands before the `c` it popped. */
  lemma {:induction false} PopPoint(s: string, stack: seq<char>, c: char, last: seq<char>) returns (k: nat)
    requires IsClosing(c) && Run(Some(stack + [c]), s) == Some(last) && |last| <= |stack|
    ensures k < |s| && s[k] == c && Balanced(s[..k]) && Run(Some(stack), s[k + 1..]) == Some(last)
    decreases |s|
  {
    hide Balanced, ClosingOf, IsOpening, IsClosing;
    var full := stack + [c];
    assert full[..|full| - 1] == stack;
    assert s != "";
    var rest := s[1..];
    if IsOpening(s[0]) {
      var inner := PopPoint(rest, full, ClosingOf(s[0]), last);
      var outer := PopPoint(rest[inner + 1..], stack, c, last);
      k := inner + outer + 2;
      DropDrop(s, 1, inner + 1);
      assert s[..k][1..inner + 1] == rest[..inner];
      assert s[..k][inner + 2..] == rest[inner + 1..][..outer];
      GroupThenBalanced(s[..k], inner + 1);
      DropDrop(s, inner + 2, outer + 1);
    } else if IsClosing(s[0]) {
      if s[0] != c { NoneStays(rest); }
      k := 0;
      EmptyIsBalanced();
    } else {
      var later := PopPoint(rest, stack, c, last);
      k := later + 1;
      assert s[..k][1..] == rest[..later];
      PlainThenBalanced(s[..k]);
      DropDrop(s, 1, later + 1);
    }
  }

  /** The machine accepts exactly the well-nested texts. */
  lemma {:induction false} MachineDecidesBalance(s: string)
    ensures Run(Some([]), s) == Some([]) <==> Balanced(s)
    decreases |s|
  {
    if Balanced(s) { BalancedRuns(s, []); }
    if s != "" && Run(Some([]), s) == Some([]) {
      if IsOpening(s[0]) {
        assert [] + [ClosingOf(s[0])] == [ClosingOf(s[0])];
        var k := PopPoint(s[1..], [], ClosingOf(s[0]), []);
        assert s[1..][..k] == s[1..k + 1] && s[1..][k + 1..] == s[k + 2..];
        MachineDecidesBalance(s[k + 2..]);
        assert EndsGroup(s, k + 1);
      } else if IsClosing(s[0]) {
        NoneStays(s[1..]);
      } else {
        MachineDecidesBalance(s[1..]);
      }
    }
  }

  // ----- the end of a group -----

  /** The text from `opening` to `end` is one group: well-nested text between matching delimiters. */
  ghost predicate IsGroup(value: string, opening: int, end: int) {
    0 <= opening < end < |value| && IsOpening(value[opening]) && value[end] == ClosingOf(value[opening]) &&
    Balanced(value[opening + 1..end])
  }

  lemma RunNext(stack: seq<char>, value: string, from: nat, index: nat)
    requires from <= index < |value|
    ensures Run(Some(stack), value[from..index + 1]) == Push(Run(Some(stack), value[from..index]), value[index])
  {
    assert value[from..index + 1] == value[from..index] + [value[index]];
    RunConcat(Some(stack), value[from..index], [value[index]]);
    RunOne(Run(Some(stack), value[from..index]), value[index]);
  }

  /** What the machine says at a place where the group could end. */
  lemma GroupAt(value: string, opening: nat, end: nat)
    requires IsGroup(value, opening, end)
    ensures Run(Some([ClosingOf(value[opening])]), value[opening + 1..end]) == Some([ClosingOf(value[opening])])
    ensures Run(Some([ClosingOf(value[opening])]), value[opening + 1..end + 1]) == Some([])
  {
    var stack := [ClosingOf(value[opening])];
    BalancedRuns(value[opening + 1..end], stack);
    RunNext(stack, value, opening + 1, end);
  }

  /** Text that goes on behind the end of the group is not well nested. */
  lemma EndedIsNotInside(value: string, opening: nat, a: nat, b: nat)
    requires IsGroup(value, opening, a) && a < b < |value|
    ensures !Balanced(value[opening + 1..b])
  {
    var c := ClosingOf(value[opening]);
    var first, second, between := value[opening + 1..a], value[opening + 1..b], value[a + 1..b];
    assert second == first + ([c] + between);
    MachineDecidesBalance(second);
    RunConcat(Some([]), first, [c] + between);
    BalancedRuns(first, []);
    assert ([c] + between)[1..] == between;
    NoneStays(between);
  }

  /** A group has one end: behind it the machine has nothing left to pop. */
  lemma GroupEndsOnce(value: string, opening: nat, a: nat, b: nat)
    requires IsGroup(value, opening, a) && IsGroup(value, opening, b)
    ensures a == b
  {
    if a < b { EndedIsNotInside(value, opening, a, b); }
    if b < a { EndedIsNotInside(value, opening, b, a); }
  }

  lemma NoLaterGroup(value: string, opening: nat, index: nat)
    requires opening < index < |value| && IsOpening(value[opening])
    requires Run(Some([ClosingOf(value[opening])]), value[opening + 1..index + 1]) == None
    requires forall i :: i < index ==> !IsGroup(value, opening, i)
    ensures forall i :: !IsGroup(value, opening, i)
  {
    hide Balanced;
    forall i ensures !IsGroup(value, opening, i) {
      if IsGroup(value, opening, i) {
        GroupAt(value, opening, i);
        if i > index {
          assert value[opening + 1..i] == value[opening + 1..index + 1] + value[index + 1..i];
          RunConcat(Some([ClosingOf(value[opening])]), value[opening + 1..index + 1], value[index + 1..i]);
          NoneStays(value[index + 1..i]);
        }
      }
    }
  }

  lemma GroupFound(value: string, opening: nat, index: nat)
    requires opening < index < |value| && IsOpening(value[opening])
    requires Run(Some([ClosingOf(value[opening])]), value[opening + 1..index + 1]) == Some([])
    requires forall i :: i < index ==> !IsGroup(value, opening, i)
    ensures IsGroup(value, opening, index)
  {
    var c := ClosingOf(value[opening]);
    var s := value[opening + 1..index + 1];
    assert [] + [c] == [c];
    var k := PopPoint(s, [], c, []);
    assert s[..k] == value[opening + 1..opening + 1 + k];
    assert IsGroup(value, opening, opening + 1 + k);
  }

  /** `matchingIdentityDelimiterEnd`. */
  method MatchingDelimiterEnd(value: string, opening: int) returns (end: nat, found: bool)
    ensures found ==> IsGroup(value, opening, end)
    ensures !found ==> end == 0 && forall i :: !IsGroup(value, opening, i)
  {
    hide Balanced;
    if opening < 0 || opening >= |value| { return 0, false; }
    if !IsOpening(value[opening]) { return 0, false; }
    var closing := ClosingOf(value[opening]);
    var stack := [closing];
    var index := opening + 1;
    assert value[opening + 1..index] == "";
    while index < |value|
      invariant opening < index <= |value|
      invariant stack != [] && Run(Some([closing]), value[opening + 1..index]) == Some(stack)
      invariant forall i :: i < index ==> !IsGroup(value, opening, i)
    {
      RunNext([closing], value, opening + 1, index);
      if IsGroup(value, opening, index) { GroupAt(value, opening, index); }
      if IsOpening(value[index]) {
        stack := stack + [ClosingOf(value[index])];
      } else if IsClosing(value[index]) {
        if |stack| == 0 || value[index] != stack[|stack| - 1] {
          NoLaterGroup(value, opening, index);
          return 0, false;
        }
        stack := stack[..|stack| - 1];
        if |stack| == 0 {
          GroupFound(value, opening, index);
          return index, true;
        }
      }
      index := index + 1;
    }
    end, found := 0, false;
  }

  // ----- top-level terms -----

  /** A comma outside all brackets. */
  ghost predicate IsCut(masked: string, j: int) {
    0 <= j < |masked| && masked[j] == ',' && Balanced(masked[..j])
  }

  predicate Rising(cuts: seq<nat>, n: nat) {
    (forall i :: 0 <= i < |cuts| ==> cuts[i] < n) && forall i, j :: 0 <= i < j < |cuts| ==> cuts[i] < cuts[j]
  }

  /** The cuts before `n`. */
  ghost function Cuts(masked: string, n: nat): (r: seq<nat>)
    requires n <= |masked|
    ensures forall j :: j in r <==> j < n && IsCut(masked, j)
    ensures Rising(r, n)
  {
    if n == 0 then []
    else
      var r := Cuts(masked, n - 1);
      if IsCut(masked, n - 1) then r + [n - 1] else r
  }

  function StartOf(cuts: seq<nat>): nat {
    if cuts == [] then 0 else cuts[|cuts| - 1] + 1
  }

  /** The texts that the cuts end. */
  function Pieces(s: string, cuts: seq<nat>): (r: seq<string>)
    requires Rising(cuts, |s|)
    ensures |r| == |cuts|
  {
    if cuts == [] then []
    else
      var init := cuts[..|cuts| - 1];
      Pieces(s, init) + [s[StartOf(init)..cuts[|cuts| - 1]]]
  }

  predicate NoneBlank(pieces: seq<string>) {
    forall i :: 0 <= i < |pieces| ==> !Blank(pieces[i])
  }

  ghost predicate Splittable(raw: string, masked: string)
    requires |raw| == |masked|
  {
    Balanced(masked) && NoneBlank(Pieces(raw, Cuts(masked, |masked|)))
  }

  /** The pieces, and what follows the last cut unless it is blank. */
  ghost function Terms(raw: string, masked: string): seq<string>
    requires |raw| == |masked|
  {
    var cuts := Cuts(masked, |masked|);
    var tail := raw[StartOf(cuts)..];
    Pieces(raw, cuts) + if Blank(tail) then [] else [tail]
  }

  /** How one character extends the cuts and the pieces. */
  lemma PiecesStep(s: string, masked: string, i: nat)
    requires |s| == |masked| && i < |masked|
    ensures var cuts := Cuts(masked, i);
      if IsCut(masked, i) then
        Cuts(masked, i + 1) == cuts + [i] && Pieces(s, Cuts(masked, i + 1)) == Pieces(s, cuts) + [s[StartOf(cuts)..i]]
      else Cuts(masked, i + 1) == cuts
  {
    hide Balanced;
    SnocTake(Cuts(masked, i), i);
  }

  lemma {:induction false} BlankPieceStays(raw: string, masked: string, i: nat)
    requires |raw| == |masked| && i <= |masked| && !NoneBlank(Pieces(raw, Cuts(masked, i)))
    ensures !NoneBlank(Pieces(raw, Cuts(masked, |masked|)))
    decreases |masked| - i
  {
    hide Balanced, Blank, Cuts, Pieces, IsCut, StartOf;
    if i < |masked| {
      PiecesStep(raw, masked, i);
      var before, after := Pieces(raw, Cuts(masked, i)), Pieces(raw, Cuts(masked, i + 1));
      var k :| 0 <= k < |before| && Blank(before[k]);
      assert after[k] == before[k];
      BlankPieceStays(raw, masked, i + 1);
    }
  }

  lemma MismatchStays(masked: string, i: nat)
    requires i <= |masked| && Run(Some([]), masked[..i]) == None
    ensures !Balanced(masked)
  {
    hide Balanced;
    assert masked == masked[..i] + masked[i..];
    RunConcat(Some([]), masked[..i], masked[i..]);
    NoneStays(masked[i..]);
    MachineDecidesBalance(masked);
  }

  lemma PrefixStep(s: string, i: nat, stack: seq<char>)
    requires i < |s| && Run(Some([]), s[..i]) == Some(stack)
    ensures Run(Some([]), s[..i + 1]) == Push(Some(stack), s[i])
  {
    TakeLast(s, i);
    RunConcat(Some([]), s[..i], [s[i]]);
    RunOne(Some(stack), s[i]);
  }

  lemma NotSplittable(raw: string, masked: string)
    requires |raw| == |masked|
    requires !Balanced(masked) || !NoneBlank(Pieces(raw, Cuts(masked, |masked|)))
    ensures !Splittable(raw, masked)
  {
  }

  class Splitter {
    const raw: string
    const masked: string
    var terms: seq<string>
    var start: nat
    var stack: seq<char>

    constructor (raw: string, masked: string)
      requires |raw| == |masked|
      ensures this.raw == raw && this.masked == masked && terms == [] && start == 0 && stack == []
    {
      this.raw, this.masked := raw, masked;
      terms, start, stack := [], 0, [];
    }

    /** The terms and the stack after the first `i` characters. */
    ghost predicate At(i: nat)
      reads this
    {
      |raw| == |masked| && i <= |masked| && Run(Some([]), masked[..i]) == Some(stack) &&
      terms == Pieces(raw, Cuts(masked, i)) && NoneBlank(terms) && start == StartOf(Cuts(masked, i))
    }

    method Close(value: char) returns (ok: bool)
      requires IsClosing(value)
      modifies this`stack
      ensures ok == Push(Some(old(stack)), value).Some?
      ensures ok ==> stack == Push(Some(old(stack)), value).value
    {
      if |stack| == 0 || value != stack[|stack| - 1] { return false; }
      stack := stack[..|stack| - 1];
      ok := true;
    }

    method Apply(index: nat) returns (ok: bool)
      requires At(index) && index < |masked|
      modifies this`terms, this`start, this`stack
      ensures ok ==> At(index + 1)
      ensures !ok ==> !Splittable(raw, masked)
    {
      hide Balanced, Blank, Splittable, Cuts, Pieces, Run;
      var value := masked[index];
      PrefixStep(masked, index, stack);
      MachineDecidesBalance(masked[..index]);
      PiecesStep(raw, masked, index);
      if IsOpening(value) {
        stack := stack + [ClosingOf(value)];
        return true;
      }
      if IsClosing(value) {
        ok := Close(value);
        if !ok {
          MismatchStays(masked, index + 1);
          NotSplittable(raw, masked);
        }
        return;
      }
      if value != ',' || |stack| != 0 { return true; }
      if Blank(raw[start..index]) {
        assert Pieces(raw, Cuts(masked, index + 1))[|terms|] == raw[start..index];
        BlankPieceStays(raw, masked, index + 1);
        NotSplittable(raw, masked);
        return false;
      }
      terms := terms + [raw[start..index]];
      start := index + 1;
      ok := true;
    }

    method Scan() returns (ok: bool)
      requires At(0)
      modifies this`terms, this`start, this`stack
      ensures ok == Splittable(raw, masked)
      ensures ok ==> terms == Terms(raw, masked)
    {
      hide Balanced, Blank, Cuts, Pieces;
      var index := 0;
      while index < |masked|
        invariant At(index)
      {
        ok := Apply(index);
        if !ok { return; }
        index := index + 1;
      }
      TakeAll(masked);
      MachineDecidesBalance(masked);
      if |stack| != 0 { return false; }
      if !Blank(raw[start..]) { terms := terms + [raw[start..]]; }
      ok := true;
    }
  }

  lemma StartsEmpty(raw: string, masked: string)
    requires |raw| == |masked|
    ensures Run(Some([]), masked[..0]) == Some([])
    ensures Pieces(raw, Cuts(masked, 0)) == [] && StartOf(Cuts(masked, 0)) == 0
  {
  }

  /** `splitIdentityTopLevelTerms`: `masked` is `raw` with strings and comments blanked out. */
  method SplitTopLevelTerms(raw: string, masked: string) returns (terms: seq<string>, ok: bool)
    ensures ok <==> |raw| == |masked| && (Blank(raw) || Splittable(raw, masked))
    ensures ok ==> terms == if Blank(raw) then [] else Terms(raw, masked)
  {
    hide Blank, Splittable, Terms;
    if |raw| != |masked| { return [], false; }
    if Blank(raw) { return [], true; }
    var splitter := new Splitter(raw, masked);
    assert splitter.At(0) by { StartsEmpty(raw, masked); }
    ok := splitter.Scan();
    terms := splitter.terms;
  }

  // ----- what the terms are -----

  lemma {:induction false} JoinSnoc(parts: seq<string>, part: string, sep: char)
    requires parts != []
    ensures Join(parts + [part], sep) == Join(parts, sep) + [sep] + part
  {
    if |parts| > 1 {
      assert (parts + [part])[1..] == parts[1..] + [part];
      JoinSnoc(parts[1..], part, sep);
    } else {
      assert (parts + [part])[1..] == [part];
    }
  }

  lemma {:induction false} PiecesRejoin(s: string, cuts: seq<nat>)
    requires Rising(cuts, |s|) && cuts != [] && forall j <- cuts :: s[j] == ','
    ensures Join(Pieces(s, cuts), ',') == s[..cuts[|cuts| - 1]]
  {
    var n := |cuts| - 1;
    var init := cuts[..n];
    if init != [] {
      PiecesRejoin(s, init);
      JoinSnoc(Pieces(s, init), s[StartOf(init)..cuts[n]], ',');
      var c := init[n - 1];
      assert c in cuts;
      assert s[..cuts[n]] == s[..c] + [s[c]] + s[c + 1..cuts[n]];
    } else {
      assert Pieces(s, cuts) == [s[0..cuts[n]]];
    }
  }

  lemma CommaAtCuts(raw: string, masked: string)
    requires |raw| == |masked| && forall j :: 0 <= j < |masked| && masked[j] == ',' ==> raw[j] == ','
    ensures forall j <- Cuts(masked, |masked|) :: raw[j] == ','
  {
  }

  /** Rejoined with commas, the terms give the text back, up to one comma with a blank term behind it. */
  lemma TermsRejoin(raw: string, masked: string)
    requires |raw| == |masked| && !Blank(raw) && Splittable(raw, masked)
    requires forall j :: 0 <= j < |masked| && masked[j] == ',' ==> raw[j] == ','
    ensures var joined := Join(Terms(raw, masked), ',');
      raw == joined || exists blank :: Blank(blank) && raw == joined + "," + blank
  {
    hide Blank, Cuts, Pieces, Balanced;
    var cuts := Cuts(masked, |masked|);
    var tail := raw[StartOf(cuts)..];
    CommaAtCuts(raw, masked);
    if cuts == [] {
      assert tail == raw;
      assert Terms(raw, masked) == [raw];
    } else {
      var c := cuts[|cuts| - 1];
      PiecesRejoin(raw, cuts);
      assert c in cuts;
      assert raw == raw[..c] + "," + tail;
      if Blank(tail) {
        assert Terms(raw, masked) == Pieces(raw, cuts);
      } else {
        JoinSnoc(Pieces(raw, cuts), tail, ',');
      }
    }
  }

  /** Between two top-level places of well-nested text stands well-nested text. */
  lemma BetweenIsBalanced(s: string, a: nat, b: nat)
    requires a <= b <= |s| && Balanced(s[..a]) && Balanced(s[..b])
    ensures Balanced(s[a..b])
  {
    hide Balanced;
    MachineDecidesBalance(s[..a]);
    MachineDecidesBalance(s[..b]);
    MachineDecidesBalance(s[a..b]);
    assert s[..b] == s[..a] + s[a..b];
    RunConcat(Some([]), s[..a], s[a..b]);
  }

  lemma BehindCommaIsBalanced(s: string, j: nat)
    requires IsCut(s, j)
    ensures Balanced(s[..j + 1])
  {
    hide Balanced;
    MachineDecidesBalance(s[..j]);
    MachineDecidesBalance(s[..j + 1]);
    PrefixStep(s, j, []);
  }

  lemma StartIsBalanced(masked: string, cuts: seq<nat>)
    requires forall j <- cuts :: IsCut(masked, j)
    ensures StartOf(cuts) <= |masked| && Balanced(masked[..StartOf(cuts)])
  {
    hide Balanced;
    if cuts == [] {
      assert masked[..0] == "";
      MachineDecidesBalance("");
    } else {
      BehindCommaIsBalanced(masked, cuts[|cuts| - 1]);
    }
  }

  /** Every term, read in the masked text, is well nested. */
  lemma {:induction false} PiecesAreBalanced(masked: string, cuts: seq<nat>)
    requires Rising(cuts, |masked|) && forall j <- cuts :: IsCut(masked, j)
    ensures forall i :: 0 <= i < |cuts| ==> Balanced(Pieces(masked, cuts)[i])
  {
    hide Balanced;
    if cuts != [] {
      var n := |cuts| - 1;
      var init := cuts[..n];
      assert forall j <- init :: j in cuts;
      PiecesAreBalanced(masked, init);
      StartIsBalanced(masked, init);
      assert cuts[n] in cuts;
      BetweenIsBalanced(masked, StartOf(init), cuts[n]);
    }
  }

  lemma TermsAreBalanced(masked: string)
    requires Balanced(masked)
    ensures var cuts := Cuts(masked, |masked|);
      (forall i :: 0 <= i < |cuts| ==> Balanced(Pieces(masked, cuts)[i])) && Balanced(masked[StartOf(cuts)..])
  {
    hide Balanced, Cuts, Pieces;
    var cuts := Cuts(masked, |masked|);
    PiecesAreBalanced(masked, cuts);
    StartIsBalanced(masked, cuts);
    TakeAll(masked);
    BetweenIsBalanced(masked, StartOf(cuts), |masked|);
    assert masked[StartOf(cuts)..|masked|] == masked[StartOf(cuts)..];
  }
}
