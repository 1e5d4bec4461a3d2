/** internal/dashboard/routing.go: the text of a translated pattern, read by the grammar of regular expressions, is the
    expression it was written for. */
module CodeownersText {
  import opened Strings
  import opened Results
  import opened Codeowners

  // ----- the grammar, as far as translations use it -----

  predicate IsQuantifier(c: char) {
    c == '*' || c == '+' || c == '?'
  }

  predicate IsWordChar(c: char) {
    '0' <= c <= '9' || 'a' <= c <= 'z' || 'A' <= c <= 'Z'
  }

  function Sequence(items: seq<Regex>): Regex
    requires items != []
  {
    if |items| == 1 then items[0] else Seq(items[0], Sequence(items[1..]))
  }

  function ReadUnion(s: string): (r: Option<(Regex, string)>)
    ensures r.Some? ==> |r.value.1| <= |s|
    decreases |s|, 3
  {
    match ReadItems(s)
    case None => None
    case Some((items, rest)) =>
      if items == [] then None
      else if rest != "" && rest[0] == '|' then
        match ReadUnion(rest[1..])
        case Some((right, behind)) => Some((Alt(Sequence(items), right), behind))
        case None => None
      else Some((Sequence(items), rest))
  }

  /** One character, class or group, and what follows it. */
  function ReadAtom(s: string): (r: Option<(Regex, string)>)
    ensures r.Some? ==> |r.value.1| < |s|
    decreases |s|, 0
  {
    if s == "" then None
    else if s[0] == '^' then Some((Start, s[1..]))
    else if s[0] == '$' then Some((End, s[1..]))
    else if s[0] == '.' then Some((NotNewline, s[1..]))
    else if s[0] == '[' then if |s| >= 4 && s[..4] == "[^/]" then Some((NotSlash, s[4..])) else None
    else if s[0] == '\\' then if |s| >= 2 && !IsWordChar(s[1]) then Some((Ch(s[1]), s[2..])) else None
    else if s[0] == '(' then
      if |s| < 3 || s[..3] != "(?:" then None
      else
        match ReadUnion(s[3..])
        case Some((inner, rest)) => if rest != "" && rest[0] == ')' then Some((inner, rest[1..])) else None
        case None => None
    else if IsQuantifier(s[0]) || s[0] in ")|]{}" then None
    else Some((Ch(s[0]), s[1..]))
  }

  /** An atom and its quantifier, if it has one. */
  function ReadItem(s: string): (r: Option<(Regex, string)>)
    ensures r.Some? ==> |r.value.1| < |s|
    decreases |s|, 1
  {
    match ReadAtom(s)
    case None => None
    case Some((atom, rest)) =>
      if rest == "" then Some((atom, rest))
      else if rest[0] == '*' then Some((Star(atom), rest[1..]))
      else if rest[0] == '+' then Some((Plus(atom), rest[1..]))
      else if rest[0] == '?' then Some((Opt(atom), rest[1..]))
      else Some((atom, rest))
  }

  /** Items up to the end of a group or of an alternative. */
  function ReadItems(s: string): (r: Option<(seq<Regex>, string)>)
    ensures r.Some? ==> |r.value.1| <= |s|
    decreases |s|, 2
  {
    if s == "" || s[0] == ')' || s[0] == '|' then Some(([], s))
    else
      match ReadItem(s)
      case None => None
      case Some((item, rest)) =>
        match ReadItems(rest)
        case Some((items, behind)) => Some(([item] + items, behind))
        case None => None
  }

  // ----- reading what is written -----

  /** What may stand behind a written item. */
  predicate NoQuantifier(k: string) {
    k == "" || !IsQuantifier(k[0])
  }

  lemma Quantified(atom: string, re: Regex, mark: string, k: string)
    requires |mark| <= 1 && (mark == "" ==> NoQuantifier(k)) && (mark != "" ==> IsQuantifier(mark[0]))
    requires ReadAtom(atom + (mark + k)) == Some((re, mark + k))
    ensures ReadItem(atom + (mark + k)) == Some((
      if mark == "" then re else if mark == "*" then Star(re) else if mark == "+" then Plus(re) else Opt(re), k))
  {
    if mark == "" {
      assert mark + k == k;
    } else {
      assert (mark + k)[0] == mark[0] && (mark + k)[1..] == k;
      assert mark == [mark[0]];
    }
  }

  lemma Unquantified(atom: string, re: Regex, k: string)
    requires NoQuantifier(k) && ReadAtom(atom + k) == Some((re, k))
    ensures ReadItem(atom + k) == Some((re, k))
  {
  }

  lemma CharRead(c: char, k: string)
    ensures ReadAtom(QuoteMeta(c) + k) == Some((Ch(c), k))
  {
    var s := QuoteMeta(c) + k;
    if c in "\\.+*?()|[]{}^$" {
      assert s[0] == '\\' && s[1] == c && s[2..] == k;
    } else {
      assert s[0] == c && s[1..] == k;
    }
  }

  lemma ClassRead(k: string)
    ensures ReadAtom("[^/]" + k) == Some((NotSlash, k))
    ensures ReadAtom("." + k) == Some((NotNewline, k))
    ensures ReadAtom("^" + k) == Some((Start, k)) && ReadAtom("$" + k) == Some((End, k))
    ensures ReadAtom("/" + k) == Some((Ch('/'), k))
  {
    assert ("[^/]" + k)[..4] == "[^/]" && ("[^/]" + k)[4..] == k;
    assert ("." + k)[1..] == k && ("^" + k)[1..] == k && ("$" + k)[1..] == k && ("/" + k)[1..] == k;
  }

  lemma GroupRead(inner: string, re: Regex, k: string)
    requires ReadUnion(inner + (")" + k)) == Some((re, ")" + k))
    ensures ReadAtom("(?:" + (inner + (")" + k))) == Some((re, k))
  {
    var s := "(?:" + (inner + (")" + k));
    assert s[..3] == "(?:" && s[3..] == inner + (")" + k);
    assert (")" + k)[1..] == k;
  }

  /** Items written one behind the other. */
  lemma ItemsRead(s: string, item: Regex, rest: string, items: seq<Regex>, behind: string)
    requires s != "" && s[0] != ')' && s[0] != '|'
    requires ReadItem(s) == Some((item, rest)) && ReadItems(rest) == Some((items, behind))
    ensures ReadItems(s) == Some(([item] + items, behind))
  {
  }

  lemma GroupEnds(k: string)
    ensures ReadItems(")" + k) == Some(([], ")" + k)) && ReadItems("|" + k) == Some(([], "|" + k))
    ensures ReadItems("") == Some(([], ""))
  {
  }

  lemma PairRead(s: string, a: Regex, b: Regex, k: string)
    requires ReadItems(s) == Some(([a] + ([b] + []), ")" + k))
    ensures ReadUnion(s) == Some((Seq(a, b), ")" + k))
  {
    hide ReadItems;
    var items := [a] + ([b] + []);
    assert items == [a, b] && items[1..] == [b];
    assert Sequence(items) == Seq(a, Sequence([b]));
    assert (")" + k)[0] == ')';
  }

  /** `[^/]+/` and the end of its group. */
  lemma DirectoryInner(k: string)
    ensures ReadUnion("[^/]+/" + (")" + k)) == Some((Seq(Plus(NotSlash), Ch('/')), ")" + k))
  {
    hide ReadItems, ReadItem, ReadAtom, ReadUnion;
    var end := ")" + k;
    ClassRead("+" + ("/" + end));
    Quantified("[^/]", NotSlash, "+", "/" + end);
    ClassRead(end);
    Unquantified("/", Ch('/'), end);
    GroupEnds(k);
    ItemsRead("/" + end, Ch('/'), end, [], end);
    var s := "[^/]" + ("+" + ("/" + end));
    ItemsRead(s, Plus(NotSlash), "/" + end, [Ch('/')] + [], end);
    assert s == "[^/]+/" + end;
    PairRead(s, Plus(NotSlash), Ch('/'), k);
  }

  lemma AnythingRead(k: string)
    ensures ReadItem(".*" + k) == Some((ANYTHING, k))
  {
    hide ReadItem, ReadAtom;
    ClassRead("*" + k);
    Quantified(".", NotNewline, "*", k);
    assert "." + ("*" + k) == ".*" + k;
  }

  /** `/.*` and the end of its group. */
  lemma BelowInner(k: string)
    ensures ReadUnion("/.*" + (")" + k)) == Some((Seq(Ch('/'), ANYTHING), ")" + k))
  {
    hide ReadItems, ReadItem, ReadAtom, ReadUnion;
    var end := ")" + k;
    AnythingRead(end);
    GroupEnds(k);
    ItemsRead(".*" + end, ANYTHING, end, [], end);
    ClassRead(".*" + end);
    Unquantified("/", Ch('/'), ".*" + end);
    var s := "/" + (".*" + end);
    ItemsRead(s, Ch('/'), ".*" + end, [ANYTHING] + [], end);
    assert s == "/.*" + end;
    PairRead(s, Ch('/'), ANYTHING, k);
  }

  /** `^|.*` with its slash, and the end of its group. */
  lemma AnywhereInner(k: string)
    ensures ReadUnion("^|.*/" + (")" + k)) == Some((ANYWHERE, ")" + k))
  {
    hide ReadItems, ReadItem, ReadAtom;
    var end := ")" + k;
    ClassRead(end);
    Unquantified("/", Ch('/'), end);
    GroupEnds(k);
    ItemsRead("/" + end, Ch('/'), end, [], end);
    AnythingRead("/" + end);
    ItemsRead(".*" + ("/" + end), ANYTHING, "/" + end, [Ch('/')] + [], end);
    var right := ".*" + ("/" + end);
    PairRead(right, ANYTHING, Ch('/'), k);
    var bar := "|" + right;
    ClassRead(bar);
    Unquantified("^", Start, bar);
    GroupEnds(right);
    ItemsRead("^" + bar, Start, bar, [], bar);
    assert [Start] + [] == [Start];
    assert bar[0] == '|' && bar[1..] == right;
    assert Sequence([Start]) == Start;
    assert "^" + bar == "^|.*/" + end;
  }

  /** The items of a translation. */
  predicate IsWritten(re: Regex) {
    re in [Start, End, NotSlash, ANYTHING, DIR_STAR, TAIL, ANYWHERE, Star(NotSlash)] || re.Ch?
  }

  lemma GroupItem(inner: string, re: Regex, mark: string, k: string)
    requires |mark| <= 1 && (mark == "" ==> NoQuantifier(k)) && (mark != "" ==> IsQuantifier(mark[0]))
    requires ReadUnion(inner + (")" + (mark + k))) == Some((re, ")" + (mark + k)))
    ensures ReadItem("(?:" + inner + ")" + mark + k) == Some((
      if mark == "" then re else if mark == "*" then Star(re) else if mark == "+" then Plus(re) else Opt(re), k))
  {
    hide ReadItem, ReadAtom, ReadUnion;
    GroupRead(inner, re, mark + k);
    var atom := "(?:" + inner + ")";
    assert "(?:" + (inner + (")" + (mark + k))) == atom + (mark + k);
    Quantified(atom, re, mark, k);
    assert atom + (mark + k) == "(?:" + inner + ")" + mark + k;
  }

  lemma DirectoryRead(k: string)
    ensures ReadItem("(?:[^/]+/)*" + k) == Some((DIR_STAR, k))
  {
    hide ReadItem, ReadUnion;
    DirectoryInner("*" + k);
    GroupItem("[^/]+/", Seq(Plus(NotSlash), Ch('/')), "*", k);
    assert "(?:" + "[^/]+/" + ")" + "*" + k == "(?:[^/]+/)*" + k;
  }

  lemma BelowRead(k: string)
    ensures ReadItem("(?:/.*)?" + k) == Some((TAIL, k))
  {
    hide ReadItem, ReadUnion;
    BelowInner("?" + k);
    GroupItem("/.*", Seq(Ch('/'), ANYTHING), "?", k);
    assert "(?:" + "/.*" + ")" + "?" + k == "(?:/.*)?" + k;
  }

  lemma AnywhereRead(k: string)
    requires NoQuantifier(k)
    ensures ReadItem("(?:^|.*/)" + k) == Some((ANYWHERE, k))
  {
    hide ReadItem, ReadUnion;
    assert "" + k == k;
    AnywhereInner("" + k);
    GroupItem("^|.*/", ANYWHERE, "", k);
    assert "(?:" + "^|.*/" + ")" + "" + k == "(?:^|.*/)" + k;
  }

  /** The three groups a translation uses. */
  lemma GroupsRead(k: string)
    requires NoQuantifier(k)
    ensures ReadItem("(?:[^/]+/)*" + k) == Some((DIR_STAR, k)) && ReadItem("(?:/.*)?" + k) == Some((TAIL, k))
    ensures ReadItem("(?:^|.*/)" + k) == Some((ANYWHERE, k))
  {
    DirectoryRead(k);
    BelowRead(k);
    AnywhereRead(k);
  }

  /** The classes and anchors a translation uses. */
  lemma MarksRead(k: string)
    requires NoQuantifier(k)
    ensures ReadItem("^" + k) == Some((Start, k)) && ReadItem("$" + k) == Some((End, k))
    ensures ReadItem("[^/]" + k) == Some((NotSlash, k)) && ReadItem("[^/]*" + k) == Some((Star(NotSlash), k))
  {
    hide ReadItem, ReadAtom;
    ClassRead(k);
    Unquantified("^", Start, k);
    Unquantified("$", End, k);
    Unquantified("[^/]", NotSlash, k);
    ClassRead("*" + k);
    Quantified("[^/]", NotSlash, "*", k);
    assert "[^/]" + ("*" + k) == "[^/]*" + k;
  }

  lemma LiteralRead(c: char, k: string)
    requires NoQuantifier(k)
    ensures ReadItem(QuoteMeta(c) + k) == Some((Ch(c), k))
  {
    hide ReadItem, ReadAtom, QuoteMeta;
    CharRead(c, k);
    Unquantified(QuoteMeta(c), Ch(c), k);
  }

  lemma LiteralRendered(c: char)
    ensures Render(Ch(c)) == QuoteMeta(c)
  {
  }

  lemma RenderFixed()
    ensures Render(Start) == "^" && Render(End) == "$" && Render(NotSlash) == "[^/]" && Render(ANYTHING) == ".*"
    ensures Render(DIR_STAR) == "(?:[^/]+/)*" && Render(TAIL) == "(?:/.*)?" && Render(ANYWHERE) == "(?:^|.*/)"
    ensures Render(Star(NotSlash)) == "[^/]*"
  {
    assert Render(ANYTHING) == ".*";
    assert Render(Seq(Plus(NotSlash), Ch('/'))) == "[^/]+/";
    assert Render(Seq(Ch('/'), ANYTHING)) == "/.*";
    assert Render(Seq(ANYTHING, Ch('/'))) == ".*/";
  }

  lemma ItemRead(re: Regex, k: string)
    requires IsWritten(re) && NoQuantifier(k)
    ensures ReadItem(Render(re) + k) == Some((re, k))
  {
    hide ReadItem, Render;
    if re.Ch? {
      LiteralRead(re.c, k);
      LiteralRendered(re.c);
    } else {
      RenderFixed();
      GroupsRead(k);
      MarksRead(k);
      AnythingRead(k);
    }
  }

  lemma QuotedStart(c: char)
    ensures QuoteMeta(c) != "" && !IsQuantifier(QuoteMeta(c)[0]) && QuoteMeta(c)[0] != ')' && QuoteMeta(c)[0] != '|'
  {
  }

  lemma ItemStarts(re: Regex, k: string)
    requires IsWritten(re)
    ensures Render(re) != "" && NoQuantifier(Render(re) + k) && Render(re)[0] != ')' && Render(re)[0] != '|'
  {
    if re.Ch? {
      QuotedStart(re.c);
    } else {
      hide Render;
      RenderFixed();
    }
  }

  lemma {:induction false} AllRead(items: seq<Regex>)
    requires forall re <- items :: IsWritten(re)
    ensures ReadItems(RenderAll(items)) == Some((items, "")) && NoQuantifier(RenderAll(items))
  {
    hide ReadItem, Render, IsWritten;
    if items != [] {
      assert items[0] in items;
      AllRead(items[1..]);
      var k := RenderAll(items[1..]);
      ItemRead(items[0], k);
      ItemStarts(items[0], k);
      ItemsRead(Render(items[0]) + k, items[0], k, items[1..], "");
      assert items == [items[0]] + items[1..];
    }
  }

  lemma {:induction false} TokensWritten(p: string)
    ensures forall re <- Tokens(p) :: IsWritten(re)
    decreases |p|
  {
    if p != "" { TokensWritten(p[Token(p).1..]); }
  }

  /** The text handed to the compiler is read as the translation. */
  lemma TextReadsBack(shape: Shape)
    ensures ReadItems(RenderAll(Translate(shape))) == Some((Translate(shape), ""))
  {
    hide ReadItems, RenderAll, Tokens;
    TokensWritten(shape.core);
    AllRead(Translate(shape));
  }

  /** The text `GlobRegexp` hands out, read by that grammar, matches exactly the paths that the pattern owns. */
  lemma TextMatchesOwnedPaths(pattern: string, path: string)
    requires Supported(pattern) && CleanPath(path)
    ensures var read := ReadItems(RenderAll(Translate(ShapeOf(pattern))));
      read.Some? && read.value.1 == "" && (MatchString(read.value.0, path) <==> Owns(pattern, path))
  {
    hide ReadItems, RenderAll, Translate, ShapeOf, Owns, Supported, CleanPath;
    TextReadsBack(ShapeOf(pattern));
    TranslationIsFaithful(pattern, path);
  }
}
