/** The reading of MSBuild documents by MSBuild itself, from the raw tags: which attribute counts, which conditions an
    element has, what is a literal package name. `MsBuild` holds the code's reading; here both are shown to agree. */
module MsBuildMeaning {
  import opened Strings
  import opened Results
  import opened MsBuild

  /** The trimmed value of an attribute, under its name in lower case; a later attribute of the name counts. */
  function Given(attributes: seq<Attribute>, name: string): Option<string> {
    if attributes == [] then None
    else
      var later := Given(attributes[1..], name);
      if later.Some? || Lower(attributes[0].name) != name then later else Some(TrimSpace(attributes[0].value))
  }

  /** An attribute `Condition`, in any letter case, with more than white space in it. */
  predicate Conditioned(tag: Tag) {
    exists a <- tag.attributes :: Lower(a.name) == "condition" && exists c <- a.value :: !IsSpace(c)
  }

  predicate IsChoice(tag: Tag) {
    Lower(tag.name) in ["choose", "when", "otherwise"]
  }

  predicate IsSwitch(tag: Tag) {
    Lower(tag.name) == "managepackageversionscentrally"
  }

  predicate IsField(tag: Tag) {
    Lower(tag.name) in ["version", "versionoverride"]
  }

  /** The package an element speaks of: the one it includes, or else the one it updates. */
  function PackageIn(tag: Tag): string {
    var included := Given(tag.attributes, "include").GetOr("");
    if included == "" then Given(tag.attributes, "update").GetOr("") else included
  }

  predicate IsUpdate(tag: Tag) {
    Given(tag.attributes, "include").GetOr("") == "" && Given(tag.attributes, "update").GetOr("") != ""
  }

  /** No reference to a property, an item list or metadata. */
  predicate IsLiteral(name: string) {
    (exists c <- name :: !IsSpace(c)) &&
    forall i :: 0 <= i < |name| - 1 && name[i + 1] == '(' ==> name[i] !in "$@%"
  }

  /** The character data directly inside an element. */
  function Inside(children: seq<Node>): string {
    if children == [] then ""
    else
      var last := children[|children| - 1];
      Inside(children[..|children| - 1]) + if last.Chars? then last.text else ""
  }

  // ----- the code reads the same -----

  lemma {:induction false} SameValue(attributes: seq<Attribute>, name: string)
    ensures AttributeValue(attributes, name) == Given(attributes, name)
  {
    hide Lower, TrimSpace;
    if |attributes| == 1 {
      assert attributes[..0] == [] && attributes[1..] == [];
    } else if |attributes| > 1 {
      var n := |attributes| - 1;
      SameValue(attributes[..n], name);
      SameValue(attributes[1..], name);
      SameValue(attributes[1..][..n - 1], name);
      assert attributes[..n][1..] == attributes[1..][..n - 1];
      assert attributes[1..][n - 1] == attributes[n] && attributes[..n][0] == attributes[0];
    }
  }

  lemma SameCondition(tag: Tag)
    ensures HasCondition(tag) == Conditioned(tag)
  {
    assert Lower("Condition") == "condition";
    forall a | a in tag.attributes
      ensures IsCondition(a) <==> Lower(a.name) == "condition" && exists c <- a.value :: !IsSpace(c)
    {
      assert Blank(a.value) <==> forall c <- a.value :: IsSpace(c);
    }
  }

  lemma SameScope(tag: Tag)
    ensures IsConditionalScope(tag) == (Conditioned(tag) || IsChoice(tag))
    ensures IsActivation(tag) == IsSwitch(tag) && IsMetadata(tag) == IsField(tag)
  {
    hide HasCondition, Conditioned;
    SameCondition(tag);
    assert Lower("ManagePackageVersionsCentrally") == "managepackageversionscentrally";
  }

  lemma SamePackage(tag: Tag)
    ensures BaseItem(tag).name == PackageIn(tag) && BaseItem(tag).update == IsUpdate(tag)
    ensures BaseItem(tag).version == Given(tag.attributes, "version").GetOr("")
    ensures BaseItem(tag).versionOverride == Given(tag.attributes, "versionoverride").GetOr("")
    ensures AttributeValue(tag.attributes, "remove") == Given(tag.attributes, "remove")
  {
    hide AttributeValue, Given, HasCondition;
    SameValue(tag.attributes, "include");
    SameValue(tag.attributes, "update");
    SameValue(tag.attributes, "version");
    SameValue(tag.attributes, "versionoverride");
    SameValue(tag.attributes, "remove");
  }

  lemma {:induction false} ContainsPair(s: string, a: char)
    ensures Contains(s, [a, '(']) <==> exists i :: 0 <= i < |s| - 1 && s[i] == a && s[i + 1] == '('
  {
    if s != "" {
      ContainsPair(s[1..], a);
      if [a, '('] <= s { assert s[0] == a && s[1] == '('; }
      if i :| 0 <= i < |s| - 1 && s[i] == a && s[i + 1] == '(' {
        if i > 0 { assert s[1..][i - 1] == a && s[1..][i] == '('; }
      }
      if i :| 0 <= i < |s[1..]| - 1 && s[1..][i] == a && s[1..][i + 1] == '(' {
        assert s[i + 1] == a && s[i + 2] == '(';
      }
    }
  }

  lemma SameName(name: string)
    ensures IsPackageName(name) == IsLiteral(name)
  {
    hide Contains;
    ContainsPair(name, '$');
    ContainsPair(name, '@');
    ContainsPair(name, '%');
    assert Blank(name) <==> forall c <- name :: IsSpace(c);
  }

  lemma {:induction false} SameText(children: seq<Node>)
    ensures TextOf(children) == Inside(children)
  {
    if |children| == 1 {
      assert children[..0] == [] && children[1..] == [];
    } else if |children| > 1 {
      var n := |children| - 1;
      SameText(children[..n]);
      SameText(children[1..]);
      SameText(children[1..][..n - 1]);
      assert children[..n][1..] == children[1..][..n - 1];
      assert children[1..][n - 1] == children[n];
    }
  }
}
