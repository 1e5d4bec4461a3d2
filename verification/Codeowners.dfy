/** internal/dashboard/routing.go: CODEOWNERS patterns are translated into regular expressions. On clean
    relative paths the expression matches exactly when a segment-by-segment matcher does. First comes the semantics
    of the expressions that are used and their rendering as text; then the translation, as a function and as the loop
    that writes the text; then the matcher, which knows about whole segments and not about characters between them;
    and last the proof, which walks through pattern and path from one segment start to the next. */
module Codeowners {
  import opened Strings
  import opened Results
  import opened Seqs

  // ----- regular expressions and what they match -----

  /** The forms the translation uses. `NotNewline` is the dot; a negated class also matches a newline. */
  datatype Regex =
    | Start
    | End
    | Ch(c: char)
    | NotSlash
    | NotNewline
    | Seq(first: Regex, second: Regex)
    | Alt(left: Regex, right: Regex)
    | Star(body: Regex)
    | Plus(body: Regex)
    | Opt(body: Regex)

  /** `re` matches the part of s from i to j. */
  ghost predicate Matches(re: Regex, s: string, i: nat, j: nat)
    requires i <= j <= |s|
    decreases re, j - i
  {
    match re
    case Start => i == j == 0
    case End => i == j == |s|
    case Ch(c) => j == i + 1 && s[i] == c
    case NotSlash => j == i + 1 && s[i] != '/'
    case NotNewline => j == i + 1 && s[i] != '\n'
    case Seq(a, b) => exists k | i <= k <= j :: Matches(a, s, i, k) && Matches(b, s, k, j)
    case Alt(a, b) => Matches(a, s, i, j) || Matches(b, s, i, j)
    case Star(r) => i == j || exists k | i < k <= j :: Matches(r, s, i, k) && Matches(re, s, k, j)
    case Plus(r) => Matches(r, s, i, j) || exists k | i < k < j :: Matches(r, s, i, k) && Matches(re, s, k, j)
    case Opt(r) => i == j || Matches(r, s, i, j)
  }

  /** A sequence of expressions matches from i to j. */
  ghost predicate MatchAll(items: seq<Regex>, s: string, i: nat, j: nat)
    requires i <= j <= |s|
    decreases |items|
  {
    if items == [] then i == j
    else exists k | i <= k <= j :: Matches(items[0], s, i, k) && MatchAll(items[1..], s, k, j)
  }

  /** `MatchString`: some part of the text matches. */
  ghost predicate MatchString(items: seq<Regex>, s: string) {
    exists i, j | 0 <= i <= j <= |s| :: MatchAll(items, s, i, j)
  }

  // ----- the text of an expression -----

  function QuoteMeta(c: char): string {
    if c in "\\.+*?()|[]{}^$" then "\\" + [c] else [c]
  }

  function Render(re: Regex): string {
    match re
    case Start => "^"
    case End => "$"
    case Ch(c) => QuoteMeta(c)
    case NotSlash => "[^/]"
    case NotNewline => "."
    case Seq(a, b) => Render(a) + Render(b)
    case Alt(a, b) => "(?:" + Render(a) + "|" + Render(b) + ")"
    case Star(r) => (if r.Seq? then "(?:" + Render(r) + ")" else Render(r)) + "*"
    case Plus(r) => (if r.Seq? then "(?:" + Render(r) + ")" else Render(r)) + "+"
    case Opt(r) => (if r.Seq? then "(?:" + Render(r) + ")" else Render(r)) + "?"
  }

  function RenderAll(items: seq<Regex>): string {
    if items == [] then "" else Render(items[0]) + RenderAll(items[1..])
  }

  // ----- the translation -----

  const DIR_STAR := Star(Seq(Plus(NotSlash), Ch('/')))
  const ANYTHING := Star(NotNewline)
  const TAIL := Opt(Seq(Ch('/'), ANYTHING))
  const ANYWHERE := Alt(Start, Seq(ANYTHING, Ch('/')))

  /** The token a pattern begins with, and how many characters it takes. */
  function Token(p: string): (r: (Regex, nat))
    requires p != ""
    ensures 1 <= r.1 <= |p|
  {
    if p[0] == '*' then
      if |p| > 1 && p[1] == '*' then
        if |p| > 2 && p[2] == '/' then (DIR_STAR, 3) else (ANYTHING, 2)
      else (Star(NotSlash), 1)
    else if p[0] == '?' then (NotSlash, 1)
    else (Ch(p[0]), 1)
  }

  function Tokens(p: string): seq<Regex> {
    if p == "" then [] else [Token(p).0] + Tokens(p[Token(p).1..])
  }

  /** No run of three stars, and a pair of stars only as a whole segment. */
  ghost predicate StarsValid(p: string) {
    forall i :: 0 <= i < |p| - 1 && p[i] == '*' && p[i + 1] == '*' ==>
      (i == 0 || p[i - 1] == '/') && (i + 2 == |p| || p[i + 2] == '/')
  }

  /** `codeownerPatternHasInvalidStars`. */
  method HasInvalidStars(p: string) returns (invalid: bool)
    ensures invalid <==> !StarsValid(p)
  {
    var index := 0;
    while index < |p|
      invariant 0 <= index <= |p|
      invariant 0 < index < |p| && p[index] == '*' ==> p[index - 1] != '*'
      invariant forall i :: 0 <= i < index && i < |p| - 1 && p[i] == '*' && p[i + 1] == '*' ==>
        (i == 0 || p[i - 1] == '/') && (i + 2 == |p| || p[i + 2] == '/')
    {
      if p[index] != '*' {
        index := index + 1;
        continue;
      }
      var next := index;
      while next < |p| && p[next] == '*'
        invariant index <= next <= |p|
        invariant forall i :: index <= i < next ==> p[i] == '*'
      {
        next := next + 1;
      }
      if next - index > 2 {
        assert p[index] == '*' && p[index + 1] == '*' && p[index + 2] == '*';
        return true;
      }
      if next - index == 2 && ((index > 0 && p[index - 1] != '/') || (next < |p| && p[next] != '/')) {
        assert p[index] == '*' && p[index + 1] == '*';
        return true;
      }
      index := next;
    }
    invalid := false;
  }

  ghost predicate Supported(pattern: string) {
    var p := TrimSpace(pattern);
    && p != ""
    && !("!" <= p)
    && !("\\#" <= p)
    && '[' !in p && ']' !in p
    && StarsValid(p)
  }

  /** `isUnsupportedCodeownerPattern`. */
  method IsUnsupported(pattern: string) returns (unsupported: bool)
    ensures unsupported <==> !Supported(pattern)
  {
    var p := TrimSpace(pattern);
    var stars := HasInvalidStars(p);
    unsupported := p == "" || "!" <= p || "\\#" <= p || '[' in p || ']' in p || stars;
  }

  /** What the translation reads off a pattern: where it may start, its core, and whether it covers below. */
  datatype Shape = Shape(anchored: bool, core: string, covers: bool)

  function TrimSlashes(p: string): string {
    if p != "" && p[0] == '/' then TrimSlashes(p[1..])
    else if p != "" && p[|p| - 1] == '/' then TrimSlashes(p[..|p| - 1])
    else p
  }

  /** `codeownerTerminalLiteralSegment`. */
  predicate TerminalLiteral(p: string) {
    var segments := Split(p, '/');
    var last := segments[|segments| - 1];
    last != "" && '*' !in last && '?' !in last
  }

  /** The pattern without one leading slash if that anchored it, and without one trailing slash. */
  function Rootless(p: string, anchored: bool): string {
    if anchored && p != "" && p[0] == '/' then p[1..] else p
  }

  function WithoutTrailingSlash(p: string): string {
    if p != "" && p[|p| - 1] == '/' then p[..|p| - 1] else p
  }

  predicate IsAnchored(p: string) {
    (p != "" && p[0] == '/') || '/' in TrimSlashes(p)
  }

  function ShapeOf(pattern: string): Shape {
    var p := TrimSpace(pattern);
    var rootless := Rootless(p, IsAnchored(p));
    var core := WithoutTrailingSlash(rootless);
    Shape(IsAnchored(p), core, core != rootless || TerminalLiteral(core))
  }

  function HeadItem(anchored: bool): Regex {
    if anchored then Start else ANYWHERE
  }

  function TailItems(covers: bool): seq<Regex> {
    if covers then [TAIL, End] else [End]
  }

  function Rest(core: string, covers: bool): seq<Regex> {
    Tokens(core) + TailItems(covers)
  }

  function Translate(shape: Shape): seq<Regex> {
    [HeadItem(shape.anchored)] + Rest(shape.core, shape.covers)
  }

  lemma RenderToken(core: string, i: nat)
    requires i < |core|
    ensures var token := Token(core[i..]);
      RenderAll(Tokens(core[i..])) == Render(token.0) + RenderAll(Tokens(core[i + token.1..]))
  {
    var token := Token(core[i..]);
    assert core[i..][token.1..] == core[i + token.1..];
    assert Tokens(core[i..]) == [token.0] + Tokens(core[i + token.1..]);
    assert Tokens(core[i..])[1..] == Tokens(core[i + token.1..]);
  }

  lemma RenderNothing(p: string)
    requires p == ""
    ensures RenderAll(Tokens(p)) == ""
  {
  }

  /** The loop over `appendCodeownerGlobToken`. */
  method RenderTokens(core: string) returns (builder: string)
    ensures builder == RenderAll(Tokens(core))
  {
    hide Tokens, Token, Render, RenderAll;
    builder := "";
    var i := 0;
    assert core[0..] == core;
    while i < |core|
      invariant 0 <= i <= |core|
      invariant builder + RenderAll(Tokens(core[i..])) == RenderAll(Tokens(core))
    {
      var token := Token(core[i..]);
      RenderToken(core, i);
      builder := builder + Render(token.0);
      i := i + token.1;
    }
    RenderNothing(core[i..]);
  }

  lemma RenderHead(anchored: bool)
    ensures Render(HeadItem(anchored)) == if anchored then "^" else "(?:^|.*/)"
  {
    assert Render(ANYTHING) == ".*";
    assert Render(Seq(ANYTHING, Ch('/'))) == ".*/";
  }

  lemma RenderTail(covers: bool)
    ensures RenderAll(TailItems(covers)) == if covers then "(?:/.*)?$" else "$"
  {
    assert Render(ANYTHING) == ".*";
    assert Render(Seq(Ch('/'), ANYTHING)) == "/.*";
    assert Render(TAIL) == "(?:/.*)?";
    assert [End][1..] == [];
    assert RenderAll([End]) == "$";
    assert [TAIL, End][1..] == [End];
  }

  lemma {:induction false} RenderConcat(a: seq<Regex>, b: seq<Regex>)
    ensures RenderAll(a + b) == RenderAll(a) + RenderAll(b)
  {
    if a == [] {
      assert a + b == b;
    } else {
      assert (a + b)[1..] == a[1..] + b;
      RenderConcat(a[1..], b);
    }
  }

  lemma RenderParts(shape: Shape)
    ensures RenderAll(Translate(shape)) ==
      Render(HeadItem(shape.anchored)) + RenderAll(Tokens(shape.core)) + RenderAll(TailItems(shape.covers))
  {
    hide Render, Tokens, HeadItem, TailItems;
    var head := [HeadItem(shape.anchored)];
    RenderConcat(head, Rest(shape.core, shape.covers));
    RenderConcat(Tokens(shape.core), TailItems(shape.covers));
    assert head[1..] == [];
    assert RenderAll(head) == Render(head[0]);
  }

  /** `codeownerGlobRegexp`: the text handed to the regular-expression compiler. */
  method GlobRegexp(pattern: string) returns (r: Result<string, ()>)
    ensures r.Ok? <==> Supported(pattern)
    ensures r.Ok? ==> r.value == RenderAll(Translate(ShapeOf(pattern)))
  {
    var unsupported := IsUnsupported(pattern);
    if unsupported { return Err(()); }
    var shape := ShapeOf(pattern);
    var head := if shape.anchored then "^" else "(?:^|.*/)";
    var body := RenderTokens(shape.core);
    var tail := if shape.covers then "(?:/.*)?$" else "$";
    RenderHead(shape.anchored);
    RenderTail(shape.covers);
    RenderParts(shape);
    r := Ok(head + body + tail);
  }

  // ----- the reference: matching segment by segment -----

  /** One pattern segment against one path segment: `*` any run of characters, `?` any single one. */
  predicate SegmentMatch(p: string, t: string)
    decreases |p| + |t|
  {
    if p == "" then t == ""
    else if p[0] == '*' then SegmentMatch(p[1..], t) || (t != "" && SegmentMatch(p, t[1..]))
    else t != "" && (p[0] == '?' || p[0] == t[0]) && SegmentMatch(p[1..], t[1..])
  }

  /** Pattern segments against path segments: `**` in front of more stands for zero or more whole segments,
      a last `**` for one or more; with `covers`, the pattern also owns everything below what it names. */
  predicate PathMatch(pattern: seq<string>, covers: bool, path: seq<string>)
    decreases |pattern| + |path|
  {
    if pattern == [] then covers || path == []
    else if pattern[0] == "**" && |pattern| == 1 then path != []
    else if pattern[0] == "**" then
      PathMatch(pattern[1..], covers, path) || (path != [] && PathMatch(pattern, covers, path[1..]))
    else path != [] && SegmentMatch(pattern[0], path[0]) && PathMatch(pattern[1..], covers, path[1..])
  }

  /** A pattern without an inner slash may start at any segment. */
  predicate AnySuffix(pattern: seq<string>, covers: bool, path: seq<string>) {
    path != [] && (PathMatch(pattern, covers, path) || AnySuffix(pattern, covers, path[1..]))
  }

  predicate ShapeOwns(shape: Shape, path: string) {
    var segments, parts := Split(shape.core, '/'), Split(path, '/');
    if shape.anchored then PathMatch(segments, shape.covers, parts) else AnySuffix(segments, shape.covers, parts)
  }

  ghost predicate TwoNames(segments: seq<string>) {
    exists i, j :: 0 <= i < j < |segments| && segments[i] != "" && segments[j] != ""
  }

  /** A segment that names one thing. */
  predicate IsName(segment: string) {
    segment != "" && forall c <- segment :: c != '*' && c != '?'
  }

  /** The segments of a pattern: an empty first one roots it, and so does a second name; an empty last one, or a plain
      name there, covers everything below. */
  ghost predicate Owns(pattern: string, path: string) {
    var segments, parts := Split(TrimSpace(pattern), '/'), Split(path, '/');
    var rooted := |segments| > 1 && segments[0] == "";
    var body := if rooted then segments[1..] else segments;
    var below := |body| > 1 && body[|body| - 1] == "";
    var names := if below then body[..|body| - 1] else body;
    var covers := below || IsName(names[|names| - 1]);
    if rooted || TwoNames(segments) then PathMatch(names, covers, parts)
    else exists k | 0 <= k < |parts| :: PathMatch(names, covers, parts[k..])
  }

  /** Nonempty segments and no newline: what evidence targets look like once cleaned. */
  ghost predicate CleanPath(path: string) {
    '\n' !in path && forall i :: 0 <= i < |Split(path, '/')| ==> Split(path, '/')[i] != ""
  }

  // ----- unfolding one item -----

  /** The remaining items match from i up to the end of the text. */
  ghost predicate M(items: seq<Regex>, s: string, i: nat)
    requires i <= |s|
  {
    MatchAll(items, s, i, |s|)
  }

  /** An item that takes exactly one character satisfying some test. */
  lemma OneChar(re: Regex, rest: seq<Regex>, s: string, i: nat)
    requires i <= |s| && (re.Ch? || re.NotSlash? || re.NotNewline?)
    ensures M([re] + rest, s, i) <==> i < |s| && Matches(re, s, i, i + 1) && M(rest, s, i + 1)
  {
    var items := [re] + rest;
    assert items[1..] == rest;
    if M(items, s, i) {
      var k :| i <= k <= |s| && Matches(items[0], s, i, k) && MatchAll(items[1..], s, k, |s|);
      assert k == i + 1;
    }
  }

  /** A starred item takes nothing, or one more of its body. */
  lemma StarUnfold(body: Regex, rest: seq<Regex>, s: string, i: nat)
    requires i <= |s|
    ensures M([Star(body)] + rest, s, i) <==>
      M(rest, s, i) || exists k | i < k <= |s| :: Matches(body, s, i, k) && M([Star(body)] + rest, s, k)
  {
    var items := [Star(body)] + rest;
    assert items[1..] == rest;
    if M(items, s, i) {
      var e :| i <= e <= |s| && Matches(items[0], s, i, e) && MatchAll(items[1..], s, e, |s|);
      if e != i {
        assert items[0] == Star(body);
        assert Matches(Star(body), s, i, e);
        assert exists k | i < k <= e :: Matches(body, s, i, k) && Matches(Star(body), s, k, e);
        var k :| i < k <= e && Matches(body, s, i, k) && Matches(Star(body), s, k, e);
        assert M(items, s, k);
      }
    }
    if M(rest, s, i) {
      assert Matches(Star(body), s, i, i);
    }
    if k :| i < k <= |s| && Matches(body, s, i, k) && M(items, s, k) {
      var e :| k <= e <= |s| && Matches(items[0], s, k, e) && MatchAll(items[1..], s, e, |s|);
      assert Matches(Star(body), s, i, e);
    }
  }

  lemma SeqParts(a: Regex, b: Regex, s: string, i: nat, j: nat) returns (k: nat)
    requires i <= j <= |s| && Matches(Seq(a, b), s, i, j)
    ensures i <= k <= j && Matches(a, s, i, k) && Matches(b, s, k, j)
  {
    k :| i <= k <= j && Matches(a, s, i, k) && Matches(b, s, k, j);
  }

  // ----- segments by position -----

  /** The end of the segment that i lies in. */
  function SegmentEnd(s: string, i: nat): (e: nat)
    requires i <= |s|
    ensures i <= e <= |s| && (e == |s| || s[e] == '/')
    ensures forall k :: i <= k < e ==> s[k] != '/'
    decreases |s| - i
  {
    if i == |s| || s[i] == '/' then i else SegmentEnd(s, i + 1)
  }

  lemma SplitStep(s: string, i: nat)
    requires i < |s|
    ensures var t := Split(s[i + 1..], '/');
      Split(s[i..], '/') == if s[i] == '/' then [""] + t else [[s[i]] + t[0]] + t[1..]
  {
    DropDrop(s, i, 1);
  }

  lemma {:induction false} SplitAt(s: string, i: nat)
    requires i <= |s|
    ensures var e := SegmentEnd(s, i);
      Split(s[i..], '/') == [s[i..e]] + (if e == |s| then [] else Split(s[e + 1..], '/'))
    decreases |s| - i
  {
    var e := SegmentEnd(s, i);
    if i == |s| {
      assert s[i..] == "" && s[i..i] == "";
    } else {
      hide Split;
      SplitStep(s, i);
      if s[i] == '/' {
        assert s[i..i] == "";
      } else {
        SplitAt(s, i + 1);
        var t := Split(s[i + 1..], '/');
        assert t[0] == s[i + 1..e];
        assert t[1..] == if e == |s| then [] else Split(s[e + 1..], '/');
        assert [s[i]] + s[i + 1..e] == s[i..e];
      }
    }
  }

  // ----- the end of an expression -----

  lemma {:induction false} AnythingMatches(s: string, i: nat, j: nat)
    requires i <= j <= |s| && '\n' !in s
    ensures Matches(ANYTHING, s, i, j)
    decreases j - i
  {
    if i < j {
      AnythingMatches(s, i + 1, j);
      assert s[i] in s;
      assert Matches(NotNewline, s, i, i + 1);
    }
  }

  lemma EndMatches(s: string, k: nat)
    requires k <= |s|
    ensures M([End], s, k) <==> k == |s|
  {
    assert [End][1..] == [];
    if k == |s| { assert Matches([End][0], s, k, |s|) && MatchAll([], s, |s|, |s|); }
  }

  /** After the core, the text must be over or, where the pattern covers what lies below, go on with a slash. */
  lemma TailAt(covers: bool, s: string, k: nat)
    requires k <= |s| && '\n' !in s
    ensures M(TailItems(covers), s, k) <==> k == |s| || (covers && s[k] == '/')
  {
    EndMatches(s, k);
    if covers {
      var items := [TAIL, End];
      assert items[1..] == [End];
      if k < |s| && s[k] == '/' {
        AnythingMatches(s, k + 1, |s|);
        assert Matches(Ch('/'), s, k, k + 1);
        assert Matches(Seq(Ch('/'), ANYTHING), s, k, |s|);
        EndMatches(s, |s|);
        assert Matches(items[0], s, k, |s|) && MatchAll(items[1..], s, |s|, |s|);
      }
      if k == |s| {
        EndMatches(s, k);
        assert Matches(items[0], s, k, k) && MatchAll(items[1..], s, k, |s|);
      }
      if M(items, s, k) {
        var e :| k <= e <= |s| && Matches(items[0], s, k, e) && MatchAll(items[1..], s, e, |s|);
        EndMatches(s, e);
        if k < e {
          assert Matches(TAIL, s, k, e);
          var m := SeqParts(Ch('/'), ANYTHING, s, k, e);
        }
      }
    }
  }

  lemma {:induction false} EndsAtEnd(items: seq<Regex>, s: string, i: nat, j: nat)
    requires i <= j <= |s| && items != [] && items[|items| - 1] == End && MatchAll(items, s, i, j)
    ensures j == |s|
    decreases |items|
  {
    var k :| i <= k <= j && Matches(items[0], s, i, k) && MatchAll(items[1..], s, k, j);
    if |items| > 1 { EndsAtEnd(items[1..], s, k, j); }
  }

  // ----- inside one segment -----

  ghost predicate NoPair(p: string) {
    forall i :: 0 <= i < |p| - 1 ==> !(p[i] == '*' && p[i + 1] == '*')
  }

  lemma RestStep(p: string, covers: bool)
    requires p != ""
    ensures Rest(p, covers) == [Token(p).0] + Rest(p[Token(p).1..], covers)
  {
  }

  lemma RestOfNothing(q: string, covers: bool)
    requires q == ""
    ensures Rest(q, covers) == TailItems(covers)
  {
  }

  /** Where a pattern segment is used up, the rest can only go on at a slash or at the end. */
  lemma RestNeedsBoundary(q: string, covers: bool, s: string, i: nat)
    requires i < |s| && s[i] != '/' && '\n' !in s && (q == "" || q[0] == '/')
    ensures !M(Rest(q, covers), s, i)
  {
    if q == "" {
      assert Rest(q, covers) == TailItems(covers);
      TailAt(covers, s, i);
    } else {
      RestStep(q, covers);
      OneChar(Ch('/'), Rest(q[1..], covers), s, i);
    }
  }

  lemma NoPairTail(p: string)
    requires NoPair(p) && p != ""
    ensures NoPair(p[1..])
  {
    forall i | 0 <= i < |p[1..]| - 1 ensures !(p[1..][i] == '*' && p[1..][i + 1] == '*') {
      assert p[1..][i] == p[i + 1] && p[1..][i + 1] == p[i + 2];
    }
  }

  lemma OneStar(p: string, covers: bool, s: string, i: nat)
    requires i <= |s| && p != "" && p[0] == '*' && (|p| > 1 ==> p[1] != '*')
    ensures M(Rest(p, covers), s, i) <==>
      M(Rest(p[1..], covers), s, i) || (i < |s| && s[i] != '/' && M(Rest(p, covers), s, i + 1))
  {
    hide M, Tokens, TailItems;
    RestStep(p, covers);
    StarUnfold(NotSlash, Rest(p[1..], covers), s, i);
    if i < |s| && s[i] != '/' { assert Matches(NotSlash, s, i, i + 1); }
  }

  lemma OnePlain(p: string, covers: bool, s: string, i: nat)
    requires i <= |s| && p != "" && p[0] != '*'
    ensures M(Rest(p, covers), s, i) <==>
      i < |s| && (if p[0] == '?' then s[i] != '/' else s[i] == p[0]) && M(Rest(p[1..], covers), s, i + 1)
  {
    hide M, Tokens, TailItems;
    RestStep(p, covers);
    OneChar(Token(p).0, Rest(p[1..], covers), s, i);
  }

  /** An ordinary pattern segment consumes its path segment exactly: the expression for the segment and what
      follows matches from i when the segment matches up to the next slash and the rest matches from there. */
  lemma {:induction false} InSegment(seg: string, q: string, covers: bool, s: string, i: nat)
    requires i <= |s| && '\n' !in s
    requires '/' !in seg && NoPair(seg) && (q == "" || q[0] == '/')
    ensures M(Rest(seg + q, covers), s, i) <==>
      SegmentMatch(seg, s[i..SegmentEnd(s, i)]) && M(Rest(q, covers), s, SegmentEnd(s, i))
    decreases |seg|, |s| - i
  {
    hide M, Rest;
    var e, p := SegmentEnd(s, i), seg + q;
    if seg == "" {
      assert p == q;
      if i < e { RestNeedsBoundary(q, covers, s, i); }
    } else {
      assert p[0] == seg[0] && seg[0] in seg && p[1..] == seg[1..] + q;
      NoPairTail(seg);
      if seg[0] == '*' {
        if |seg| > 1 { assert p[1] == seg[1]; }
        OneStar(p, covers, s, i);
        InSegment(seg[1..], q, covers, s, i);
        if i < e {
          InSegment(seg, q, covers, s, i + 1);
          assert s[i..e][1..] == s[i + 1..e];
        }
      } else {
        OnePlain(p, covers, s, i);
        if i < |s| {
          InSegment(seg[1..], q, covers, s, i + 1);
          if i < e { assert s[i..e][1..] == s[i + 1..e]; }
        }
      }
    }
  }

  // ----- from segment to segment -----

  /** From i on, the path consists of nonempty segments. */
  ghost predicate CleanFrom(s: string, i: nat)
    requires i <= |s|
    decreases |s| - i
  {
    var e := SegmentEnd(s, i);
    i < e && (e == |s| || CleanFrom(s, e + 1))
  }

  lemma {:induction false} CleanParts(s: string, i: nat)
    requires i <= |s| && forall k :: 0 <= k < |Split(s[i..], '/')| ==> Split(s[i..], '/')[k] != ""
    ensures CleanFrom(s, i)
    decreases |s| - i
  {
    hide Split;
    var e, parts := SegmentEnd(s, i), Split(s[i..], '/');
    SplitAt(s, i);
    assert parts[0] != "";
    if e < |s| {
      var below := Split(s[e + 1..], '/');
      assert parts[1..] == below;
      forall k | 0 <= k < |below| ensures below[k] != "" { assert below[k] == parts[k + 1]; }
      CleanParts(s, e + 1);
    }
  }

  lemma {:induction false} NothingLeft(pattern: seq<string>, covers: bool)
    requires pattern != []
    ensures !PathMatch(pattern, covers, [])
  {
    if pattern[0] == "**" && |pattern| > 1 { NothingLeft(pattern[1..], covers); }
  }

  lemma {:induction false} PlusStaysInside(s: string, i: nat, m: nat)
    requires i <= m <= |s| && Matches(Plus(NotSlash), s, i, m)
    ensures m <= SegmentEnd(s, i)
    decreases m - i
  {
    if !Matches(NotSlash, s, i, m) {
      var k :| i < k < m && Matches(NotSlash, s, i, k) && Matches(Plus(NotSlash), s, k, m);
      PlusStaysInside(s, k, m);
    }
  }

  lemma {:induction false} PlusTakesAll(s: string, i: nat, e: nat)
    requires i <= |s| && i < e <= SegmentEnd(s, i)
    ensures Matches(Plus(NotSlash), s, i, e)
    decreases e - i
  {
    assert Matches(NotSlash, s, i, i + 1);
    if i + 1 < e { PlusTakesAll(s, i + 1, e); }
  }

  /** The starred directory takes exactly one whole segment and its slash at a time. */
  lemma WholeSegment(s: string, i: nat, k: nat)
    requires i < k <= |s| && s[i] != '/'
    ensures Matches(Seq(Plus(NotSlash), Ch('/')), s, i, k) <==> SegmentEnd(s, i) < |s| && k == SegmentEnd(s, i) + 1
  {
    var e := SegmentEnd(s, i);
    if Matches(Seq(Plus(NotSlash), Ch('/')), s, i, k) {
      var m := SeqParts(Plus(NotSlash), Ch('/'), s, i, k);
      PlusStaysInside(s, i, m);
    }
    if e < |s| && k == e + 1 {
      PlusTakesAll(s, i, e);
      assert Matches(Ch('/'), s, e, k);
    }
  }

  lemma StarsValidTail(p: string, n: nat)
    requires StarsValid(p) && 0 < n <= |p| && p[n - 1] == '/'
    ensures StarsValid(p[n..])
  {
    var t := p[n..];
    forall i | 0 <= i < |t| - 1 && t[i] == '*' && t[i + 1] == '*'
      ensures (i == 0 || t[i - 1] == '/') && (i + 2 == |t| || t[i + 2] == '/')
    {
      assert p[n + i] == '*' && p[n + i + 1] == '*';
    }
  }

  lemma SegmentHasNoSlash(p: string, k: nat)
    requires k < SegmentEnd(p, 0)
    ensures p[k] != '/'
  {
  }

  lemma PairIsWholeSegment(p: string, i: nat)
    requires StarsValid(p) && i + 1 < SegmentEnd(p, 0) && p[i] == '*' && p[i + 1] == '*'
    ensures p[..SegmentEnd(p, 0)] == "**"
  {
    var pe := SegmentEnd(p, 0);
    if i > 0 { SegmentHasNoSlash(p, i - 1); }
    if pe > 2 { SegmentHasNoSlash(p, 2); }
  }

  lemma OrdinarySegment(p: string)
    requires StarsValid(p) && p[..SegmentEnd(p, 0)] != "**"
    ensures NoPair(p[..SegmentEnd(p, 0)]) && '/' !in p[..SegmentEnd(p, 0)]
  {
    var seg := p[..SegmentEnd(p, 0)];
    forall i | 0 <= i < |seg| - 1 ensures !(seg[i] == '*' && seg[i + 1] == '*') {
      if p[i] == '*' && p[i + 1] == '*' { PairIsWholeSegment(p, i); }
    }
  }

  lemma CleanNext(s: string, i: nat)
    requires i <= |s| && CleanFrom(s, i)
    ensures i < SegmentEnd(s, i) && s[i] != '/'
    ensures SegmentEnd(s, i) < |s| ==> CleanFrom(s, SegmentEnd(s, i) + 1)
  {
  }

  lemma PathMatchStep(ps: seq<string>, covers: bool, ts: seq<string>)
    requires ps != [] && ts != []
    ensures PathMatch(ps, covers, ts) <==>
      if ps[0] == "**" then |ps| == 1 || PathMatch(ps[1..], covers, ts) || PathMatch(ps, covers, ts[1..])
      else SegmentMatch(ps[0], ts[0]) && PathMatch(ps[1..], covers, ts[1..])
  {
  }

  /** The expression for p and the pattern segments of p say the same about the path from i. */
  ghost predicate Agrees(p: string, covers: bool, s: string, i: nat)
    requires i <= |s|
  {
    M(Rest(p, covers), s, i) <==> PathMatch(Split(p, '/'), covers, Split(s[i..], '/'))
  }

  lemma LastDoubleStar(p: string, covers: bool, s: string, i: nat)
    requires p == "**" && '\n' !in s && i <= |s|
    ensures M(Rest(p, covers), s, i)
  {
    RestStep(p, covers);
    assert Rest(p, covers) == [ANYTHING] + TailItems(covers);
    AnythingMatches(s, i, |s|);
    TailAt(covers, s, |s|);
    var items := [ANYTHING] + TailItems(covers);
    assert items[1..] == TailItems(covers);
    assert Matches(items[0], s, i, |s|) && MatchAll(items[1..], s, |s|, |s|);
  }

  /** First segments and what is left, of the path from i and of the pattern. */
  lemma Heads(s: string, i: nat, p: string)
    requires i <= |s|
    ensures var e, ts := SegmentEnd(s, i), Split(s[i..], '/');
      ts[0] == s[i..e] && ts[1..] == if e == |s| then [] else Split(s[e + 1..], '/')
    ensures var pe, ps := SegmentEnd(p, 0), Split(p, '/');
      ps[0] == p[..pe] && ps[1..] == if pe == |p| then [] else Split(p[pe + 1..], '/')
  {
    SplitAt(s, i);
    SplitAt(p, 0);
    assert p[0..] == p && p[0..SegmentEnd(p, 0)] == p[..SegmentEnd(p, 0)];
  }

  lemma LastStart(p: string, covers: bool, s: string, i: nat)
    requires p == "**" && '\n' !in s && i <= |s|
    ensures Agrees(p, covers, s, i)
  {
    LastDoubleStar(p, covers, s, i);
    Heads(s, i, p);
    hide M;
    assert SegmentEnd(p, 0) == 2;
    PathMatchStep(Split(p, '/'), covers, Split(s[i..], '/'));
  }

  lemma DoubleStar(p: string, covers: bool, s: string, i: nat)
    requires |p| >= 3 && p[..3] == "**/" && i < |s| && s[i] != '/'
    ensures M(Rest(p, covers), s, i) <==>
      M(Rest(p[3..], covers), s, i) || (SegmentEnd(s, i) < |s| && M(Rest(p, covers), s, SegmentEnd(s, i) + 1))
  {
    assert p[0] == '*' && p[1] == '*' && p[2] == '/' by {
      assert p[0] == p[..3][0] && p[1] == p[..3][1] && p[2] == p[..3][2];
    }
    RestStep(p, covers);
    var body := Seq(Plus(NotSlash), Ch('/'));
    hide M, Matches, Tokens, TailItems;
    StarUnfold(body, Rest(p[3..], covers), s, i);
    forall k | i < k <= |s| ensures Matches(body, s, i, k) <==> SegmentEnd(s, i) < |s| && k == SegmentEnd(s, i) + 1 {
      WholeSegment(s, i, k);
    }
  }

  lemma DoubleStarStart(p: string, covers: bool, s: string, i: nat)
    requires i < |s| && s[i] != '/' && SegmentEnd(p, 0) == 2 < |p| && p[..2] == "**"
    requires Agrees(p[3..], covers, s, i)
    requires SegmentEnd(s, i) < |s| ==> Agrees(p, covers, s, SegmentEnd(s, i) + 1)
    ensures Agrees(p, covers, s, i)
  {
    hide M;
    var ps, ts := Split(p, '/'), Split(s[i..], '/');
    Heads(s, i, p);
    assert p[..3] == p[..2] + [p[2]];
    DoubleStar(p, covers, s, i);
    PathMatchStep(ps, covers, ts);
    NothingLeft(ps, covers);
  }

  lemma Ordinary(p: string, covers: bool, s: string, i: nat)
    requires '\n' !in s && i <= |s|
    requires NoPair(p[..SegmentEnd(p, 0)]) && '/' !in p[..SegmentEnd(p, 0)]
    ensures var e, pe := SegmentEnd(s, i), SegmentEnd(p, 0);
      M(Rest(p, covers), s, i) <==>
        SegmentMatch(p[..pe], s[i..e]) &&
        if pe == |p| then covers || e == |s| else e < |s| && M(Rest(p[pe + 1..], covers), s, e + 1)
  {
    hide M, SegmentMatch, Tokens, TailItems, NoPair;
    var e, pe := SegmentEnd(s, i), SegmentEnd(p, 0);
    var q := p[pe..];
    assert p == p[..pe] + q;
    InSegment(p[..pe], q, covers, s, i);
    if pe == |p| {
      RestOfNothing(q, covers);
      TailAt(covers, s, e);
    } else {
      RestStep(q, covers);
      assert q[1..] == p[pe + 1..];
      OneChar(Ch('/'), Rest(q[1..], covers), s, e);
    }
  }

  lemma OrdinaryStart(p: string, covers: bool, s: string, i: nat)
    requires '\n' !in s && i <= |s| && p[..SegmentEnd(p, 0)] != "**"
    requires NoPair(p[..SegmentEnd(p, 0)]) && '/' !in p[..SegmentEnd(p, 0)]
    requires SegmentEnd(s, i) < |s| && SegmentEnd(p, 0) < |p| ==>
      Agrees(p[SegmentEnd(p, 0) + 1..], covers, s, SegmentEnd(s, i) + 1)
    ensures Agrees(p, covers, s, i)
  {
    hide M, Split, SegmentMatch, Rest;
    var ps, ts := Split(p, '/'), Split(s[i..], '/');
    Heads(s, i, p);
    Ordinary(p, covers, s, i);
    PathMatchStep(ps, covers, ts);
    if ps[1..] != [] { NothingLeft(ps[1..], covers); }
  }

  /** From any segment start of a clean path, the generated expression matches the rest exactly when the
      remaining pattern segments match the remaining path segments. */
  lemma {:induction false} FromSegmentStart(p: string, covers: bool, s: string, i: nat)
    requires StarsValid(p) && '\n' !in s && i <= |s| && CleanFrom(s, i)
    ensures Agrees(p, covers, s, i)
    decreases |p| + |s| - i
  {
    hide Agrees;
    var e, pe := SegmentEnd(s, i), SegmentEnd(p, 0);
    CleanNext(s, i);
    if p[..pe] == "**" {
      if pe == |p| {
        LastStart(p, covers, s, i);
      } else {
        StarsValidTail(p, 3);
        FromSegmentStart(p[3..], covers, s, i);
        if e < |s| { FromSegmentStart(p, covers, s, e + 1); }
        DoubleStarStart(p, covers, s, i);
      }
    } else {
      if pe < |p| {
        StarsValidTail(p, pe + 1);
        if e < |s| { FromSegmentStart(p[pe + 1..], covers, s, e + 1); }
      }
      OrdinarySegment(p);
      OrdinaryStart(p, covers, s, i);
    }
  }

  // ----- the whole expression -----

  lemma AnchoredMatch(core: string, covers: bool, s: string)
    ensures MatchString([Start] + Rest(core, covers), s) <==> M(Rest(core, covers), s, 0)
  {
    var rest := Rest(core, covers);
    var items := [Start] + rest;
    assert items[1..] == rest;
    assert items[|items| - 1] == End;
    if MatchString(items, s) {
      var i, j :| 0 <= i <= j <= |s| && MatchAll(items, s, i, j);
      EndsAtEnd(items, s, i, j);
    }
    if M(rest, s, 0) {
      assert Matches(items[0], s, 0, 0) && MatchAll(items[1..], s, 0, |s|);
      assert MatchAll(items, s, 0, |s|);
    }
  }

  ghost predicate MatchesFromSegment(core: string, covers: bool, s: string, from: nat) {
    exists k | from <= k <= |s| :: (k == from || s[k - 1] == '/') && M(Rest(core, covers), s, k)
  }

  lemma AnywhereEnds(s: string, i: nat, k: nat)
    requires i <= k <= |s| && Matches(ANYWHERE, s, i, k)
    ensures k == 0 || s[k - 1] == '/'
  {
    if !Matches(Start, s, i, k) {
      var m := SeqParts(ANYTHING, Ch('/'), s, i, k);
    }
  }

  lemma AnywhereReaches(s: string, k: nat)
    requires k <= |s| && '\n' !in s && (k == 0 || s[k - 1] == '/')
    ensures Matches(ANYWHERE, s, 0, k)
  {
    if k > 0 {
      AnythingMatches(s, 0, k - 1);
      assert Matches(Ch('/'), s, k - 1, k);
      assert Matches(Seq(ANYTHING, Ch('/')), s, 0, k);
    }
  }

  lemma UnanchoredMatch(core: string, covers: bool, s: string)
    requires '\n' !in s
    ensures MatchString([ANYWHERE] + Rest(core, covers), s) <==> MatchesFromSegment(core, covers, s, 0)
  {
    var rest := Rest(core, covers);
    var items := [ANYWHERE] + rest;
    assert items[1..] == rest && items[0] == ANYWHERE && items[|items| - 1] == End;
    hide Rest;
    if MatchString(items, s) {
      var i, j :| 0 <= i <= j <= |s| && MatchAll(items, s, i, j);
      EndsAtEnd(items, s, i, j);
      var k :| i <= k <= j && Matches(items[0], s, i, k) && MatchAll(items[1..], s, k, j);
      AnywhereEnds(s, i, k);
      assert (k == 0 || s[k - 1] == '/') && M(rest, s, k);
    }
    if MatchesFromSegment(core, covers, s, 0) {
      var k :| 0 <= k <= |s| && (k == 0 || s[k - 1] == '/') && M(rest, s, k);
      AnywhereReaches(s, k);
      assert Matches(items[0], s, 0, k) && MatchAll(items[1..], s, k, |s|);
      assert MatchAll(items, s, 0, |s|);
    }
  }

  lemma NextSegment(core: string, covers: bool, s: string, i: nat)
    requires i <= |s|
    ensures var e := SegmentEnd(s, i);
      MatchesFromSegment(core, covers, s, i) <==>
      M(Rest(core, covers), s, i) || (e < |s| && MatchesFromSegment(core, covers, s, e + 1))
  {
    var e := SegmentEnd(s, i);
    if MatchesFromSegment(core, covers, s, i) {
      var k :| i <= k <= |s| && (k == i || s[k - 1] == '/') && M(Rest(core, covers), s, k);
      if k > i {
        assert e <= k - 1;
        assert MatchesFromSegment(core, covers, s, e + 1);
      }
    }
    if e < |s| && MatchesFromSegment(core, covers, s, e + 1) {
      var k :| e + 1 <= k <= |s| && (k == e + 1 || s[k - 1] == '/') && M(Rest(core, covers), s, k);
      assert k >= i && s[k - 1] == '/';
    }
  }

  lemma {:induction false} AnySegmentStart(core: string, covers: bool, s: string, i: nat)
    requires StarsValid(core) && '\n' !in s && i <= |s| && CleanFrom(s, i)
    ensures MatchesFromSegment(core, covers, s, i) <==> AnySuffix(Split(core, '/'), covers, Split(s[i..], '/'))
    decreases |s| - i
  {
    hide M, Split, PathMatch, MatchesFromSegment;
    var e := SegmentEnd(s, i);
    CleanNext(s, i);
    FromSegmentStart(core, covers, s, i);
    Heads(s, i, core);
    NextSegment(core, covers, s, i);
    if e < |s| { AnySegmentStart(core, covers, s, e + 1); }
  }

  lemma StarsValidPrefix(p: string, n: nat)
    requires StarsValid(p) && n <= |p|
    ensures StarsValid(p[..n])
  {
    var t := p[..n];
    forall i | 0 <= i < |t| - 1 && t[i] == '*' && t[i + 1] == '*'
      ensures (i == 0 || t[i - 1] == '/') && (i + 2 == |t| || t[i + 2] == '/')
    {
      assert p[i] == '*' && p[i + 1] == '*';
    }
  }

  lemma RootlessStarsValid(p: string, anchored: bool)
    requires StarsValid(p)
    ensures StarsValid(Rootless(p, anchored)) && StarsValid(WithoutTrailingSlash(p))
  {
    hide StarsValid;
    if p != "" {
      if p[0] == '/' { StarsValidTail(p, 1); }
      StarsValidPrefix(p, |p| - 1);
    }
  }

  lemma CoreStarsValid(pattern: string)
    requires Supported(pattern)
    ensures StarsValid(ShapeOf(pattern).core)
  {
    var p := TrimSpace(pattern);
    assert StarsValid(p);
    hide StarsValid, TerminalLiteral, IsAnchored, Rootless, WithoutTrailingSlash, TrimSpace;
    RootlessStarsValid(p, IsAnchored(p));
    RootlessStarsValid(Rootless(p, IsAnchored(p)), true);
  }

  // ----- what the translation reads off a pattern, and its segments -----

  lemma SplitFront(p: string)
    requires p != ""
    ensures p[0] == '/' ==> Split(p, '/') == [""] + Split(p[1..], '/')
    ensures p[0] != '/' ==> Split(p, '/')[0] != "" && |Split(p, '/')| == |Split(p[1..], '/')|
    ensures p[0] != '/' ==> Split(p, '/')[1..] == Split(p[1..], '/')[1..]
    ensures p[0] != '/' ==> Split(p, '/')[0] == [p[0]] + Split(p[1..], '/')[0]
  {
  }

  lemma SplitNothing()
    ensures Split("", '/') == [""]
  {
  }

  lemma {:induction false} SplitBack(p: string)
    requires p != ""
    ensures var n, parts := |p| - 1, Split(p, '/');
      if p[n] == '/' then parts == Split(p[..n], '/') + [""] else parts[|parts| - 1] != ""
  {
    hide Split;
    var n := |p| - 1;
    SplitFront(p);
    SplitNothing();
    if n == 0 {
      assert p[1..] == "" && p[..0] == "";
    } else {
      SplitBack(p[1..]);
      SplitFront(p[..n]);
      assert p[1..][..n - 1] == p[..n][1..] && p[1..][n - 1] == p[n];
      if p[n] == '/' {
        assert Split(p[1..], '/') == Split(p[..n][1..], '/') + [""];
        if p[0] != '/' {
          assert Split(p, '/') == [Split(p, '/')[0]] + Split(p, '/')[1..];
          assert Split(p[..n], '/') == [Split(p[..n], '/')[0]] + Split(p[..n], '/')[1..];
        }
      }
    }
  }

  lemma {:induction false} SlashSplits(p: string)
    ensures '/' in p <==> |Split(p, '/')| > 1
  {
    hide Split;
    SplitNothing();
    if p != "" {
      SplitFront(p);
      SlashSplits(p[1..]);
      assert p == [p[0]] + p[1..];
    }
  }

  lemma EmptyInFront(segments: seq<string>)
    ensures TwoNames([""] + segments) <==> TwoNames(segments)
  {
    var all := [""] + segments;
    if i, j :| 0 <= i < j < |all| && all[i] != "" && all[j] != "" {
      assert segments[i - 1] == all[i] && segments[j - 1] == all[j];
    }
    if i, j :| 0 <= i < j < |segments| && segments[i] != "" && segments[j] != "" {
      assert all[i + 1] == segments[i] && all[j + 1] == segments[j];
    }
  }

  lemma EmptyBehind(segments: seq<string>)
    ensures TwoNames(segments + [""]) <==> TwoNames(segments)
  {
    var all := segments + [""];
    if i, j :| 0 <= i < j < |all| && all[i] != "" && all[j] != "" {
      assert segments[i] == all[i] && segments[j] == all[j];
    }
    if i, j :| 0 <= i < j < |segments| && segments[i] != "" && segments[j] != "" {
      assert all[i] == segments[i] && all[j] == segments[j];
    }
  }

  lemma NoTwoNames(segments: seq<string>)
    requires |segments| <= 1
    ensures !TwoNames(segments)
  {
  }

  lemma FirstAndLast(segments: seq<string>)
    requires |segments| > 1 && segments[0] != "" && segments[|segments| - 1] != ""
    ensures TwoNames(segments)
  {
  }

  /** A slash is left inside exactly when there are two names. */
  lemma {:induction false} InnerSlash(p: string)
    ensures '/' in TrimSlashes(p) <==> TwoNames(Split(p, '/'))
    decreases |p|
  {
    hide Split, TwoNames;
    if p == "" {
      SplitNothing();
      NoTwoNames([""]);
    } else {
      var n, parts := |p| - 1, Split(p, '/');
      SplitFront(p);
      SplitBack(p);
      if p[0] == '/' {
        InnerSlash(p[1..]);
        EmptyInFront(Split(p[1..], '/'));
      } else if p[n] == '/' {
        InnerSlash(p[..n]);
        EmptyBehind(Split(p[..n], '/'));
      } else {
        SlashSplits(p);
        if |parts| > 1 { FirstAndLast(parts); } else { NoTwoNames(parts); }
      }
    }
  }

  lemma RootSegments(p: string)
    requires p != ""
    ensures var segments := Split(p, '/');
      var rooted := |segments| > 1 && segments[0] == "";
      (rooted <==> p[0] == '/') && (IsAnchored(p) <==> rooted || TwoNames(segments)) &&
      Split(Rootless(p, IsAnchored(p)), '/') == if rooted then segments[1..] else segments
  {
    hide Split, TwoNames, TrimSlashes;
    InnerSlash(p);
    SplitFront(p);
  }

  lemma EndSegments(rootless: string)
    ensures var body, core := Split(rootless, '/'), WithoutTrailingSlash(rootless);
      var below := |body| > 1 && body[|body| - 1] == "";
      (below <==> core != rootless) && Split(core, '/') == if below then body[..|body| - 1] else body
  {
    var core, n := WithoutTrailingSlash(rootless), |rootless| - 1;
    hide Split;
    SplitNothing();
    if rootless != "" {
      SplitBack(rootless);
      if rootless[n] == '/' {
        assert core == rootless[..n];
        assert (Split(core, '/') + [""])[..|Split(core, '/')|] == Split(core, '/');
      } else {
        assert core == rootless;
      }
    }
  }

  lemma {:induction false} Suffixes(pattern: seq<string>, covers: bool, path: seq<string>)
    ensures AnySuffix(pattern, covers, path) <==> exists k | 0 <= k < |path| :: PathMatch(pattern, covers, path[k..])
  {
    hide PathMatch;
    if path != [] {
      Suffixes(pattern, covers, path[1..]);
      assert path[0..] == path;
      if k :| 0 <= k < |path| && PathMatch(pattern, covers, path[k..]) {
        if k > 0 { assert path[1..][k - 1..] == path[k..]; }
      }
      if k :| 0 <= k < |path[1..]| && PathMatch(pattern, covers, path[1..][k..]) {
        assert path[1..][k..] == path[k + 1..];
      }
    }
  }

  lemma SegmentsOwn(pattern: string, path: string)
    requires TrimSpace(pattern) != ""
    ensures Owns(pattern, path) <==> ShapeOwns(ShapeOf(pattern), path)
  {
    hide Split, TwoNames, TrimSlashes, TrimSpace, PathMatch, AnySuffix, IsAnchored, Rootless, WithoutTrailingSlash;
    var p, shape := TrimSpace(pattern), ShapeOf(pattern);
    RootSegments(p);
    EndSegments(Rootless(p, IsAnchored(p)));
    var segments := Split(p, '/');
    var rooted := |segments| > 1 && segments[0] == "";
    var names := Split(shape.core, '/');
    Suffixes(names, shape.covers, Split(path, '/'));
    assert TerminalLiteral(shape.core) <==> IsName(names[|names| - 1]);
  }

  /** For every supported pattern and every clean relative path, the regular expression matches exactly when
      the pattern owns the path segment by segment. */
  lemma TranslationIsFaithful(pattern: string, path: string)
    requires Supported(pattern) && CleanPath(path)
    ensures MatchString(Translate(ShapeOf(pattern)), path) <==> Owns(pattern, path)
  {
    hide Owns, ShapeOf, TrimSpace;
    var shape := ShapeOf(pattern);
    SegmentsOwn(pattern, path);
    CoreStarsValid(pattern);
    assert path[0..] == path;
    CleanParts(path, 0);
    if shape.anchored {
      AnchoredMatch(shape.core, shape.covers, path);
      FromSegmentStart(shape.core, shape.covers, path, 0);
    } else {
      UnanchoredMatch(shape.core, shape.covers, path);
      AnySegmentStart(shape.core, shape.covers, path, 0);
    }
  }
}
