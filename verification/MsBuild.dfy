/** internal/analysis/identity_enrichment_dotnet.go: reading package items from an MSBuild document. The parser walks
    the XML token stream with a stack of conditional flags; `Collect` is the same reading of the element tree. */
module MsBuild {
  import opened Strings
  import opened Results

  datatype Attribute = Attribute(name: string, value: string)

  /** An opening tag; `offset` is its place in the file. */
  datatype Tag = Tag(name: string, attributes: seq<Attribute>, offset: nat)

  datatype Node = Element(tag: Tag, children: seq<Node>) | Chars(text: string)

  datatype Token = Start(tag: Tag) | End | Data(text: string)

  function Flatten(node: Node, k: seq<Token>): (r: seq<Token>)
    decreases node
  {
    match node
    case Chars(text) => [Data(text)] + k
    case Element(tag, children) => [Start(tag)] + FlattenAll(children, [End] + k)
  }

  function FlattenAll(nodes: seq<Node>, k: seq<Token>): (r: seq<Token>)
    decreases nodes
  {
    if nodes == [] then k else Flatten(nodes[0], FlattenAll(nodes[1..], k))
  }

  // ----- items and their metadata -----

  /** `conditional` is the marker in the `condition` field. */
  datatype Item = Item(name: string, version: string, versionOverride: string, conditional: bool, update: bool)

  datatype Document = Document(items: seq<Item>, centralSeen: bool, centralEnabled: bool, centralAmbiguous: bool)

  const EMPTY_DOCUMENT := Document([], false, false, false)

  /** The trimmed value of the last attribute called `name` in any letter case. */
  function AttributeValue(attributes: seq<Attribute>, name: string): Option<string> {
    if attributes == [] then None
    else
      var last := attributes[|attributes| - 1];
      if Lower(last.name) == name then Some(TrimSpace(last.value))
      else AttributeValue(attributes[..|attributes| - 1], name)
  }

  function OrEmpty(value: Option<string>): string {
    if value.Some? then value.value else ""
  }

  predicate IsCondition(attribute: Attribute) {
    EqualFold(attribute.name, "Condition") && !Blank(attribute.value)
  }

  predicate HasCondition(tag: Tag) {
    exists a <- tag.attributes :: IsCondition(a)
  }

  predicate IsConditionalScope(tag: Tag) {
    HasCondition(tag) || Lower(tag.name) == "choose" || Lower(tag.name) == "when" || Lower(tag.name) == "otherwise"
  }

  function BaseItem(tag: Tag): Item {
    var included, updated := OrEmpty(AttributeValue(tag.attributes, "include")),
      OrEmpty(AttributeValue(tag.attributes, "update"));
    Item(if included != "" then included else updated,
      OrEmpty(AttributeValue(tag.attributes, "version")),
      OrEmpty(AttributeValue(tag.attributes, "versionoverride")),
      HasCondition(tag),
      included == "" && updated != "")
  }

  predicate IsMetadata(tag: Tag) {
    Lower(tag.name) == "version" || Lower(tag.name) == "versionoverride"
  }

  function SetField(item: Item, field: string, value: string): Item {
    if field == "versionoverride" then item.(versionOverride := value) else item.(version := value)
  }

  function SetAll(items: seq<Item>, field: string, value: string): (r: seq<Item>)
    ensures |r| == |items|
    ensures forall i :: 0 <= i < |items| ==> r[i] == SetField(items[i], field, value)
  {
    seq(|items|, i requires 0 <= i < |items| => SetField(items[i], field, value))
  }

  function MarkAll(items: seq<Item>): (r: seq<Item>)
    ensures |r| == |items|
    ensures forall i :: 0 <= i < |items| ==> r[i] == items[i].(conditional := true)
  {
    seq(|items|, i requires 0 <= i < |items| => items[i].(conditional := true))
  }

  function WithMetadata(items: seq<Item>, field: string, value: string, conditional: bool): seq<Item> {
    var changed := SetAll(items, field, value);
    Unique((if conditional then items else []) + (if conditional then MarkAll(changed) else changed))
  }

  /** The character data directly inside an element. */
  function TextOf(children: seq<Node>): string {
    if children == [] then ""
    else (if children[0].Chars? then children[0].text else "") + TextOf(children[1..])
  }

  function Variants(children: seq<Node>, items: seq<Item>): seq<Item> {
    if children == [] then items
    else if children[0].Element? && IsMetadata(children[0].tag) then
      Variants(children[1..], WithMetadata(items, Lower(children[0].tag.name),
        TrimSpace(TextOf(children[0].children)), HasCondition(children[0].tag)))
    else Variants(children[1..], items)
  }

  function FirstItem(tag: Tag, conditional: bool): Item {
    var base := BaseItem(tag);
    base.(conditional := conditional || base.conditional)
  }

  predicate IsPackageName(name: string) {
    !Blank(name) && !Contains(name, "$(") && !Contains(name, "@(") && !Contains(name, "%(")
  }

  function Valid(items: seq<Item>): seq<Item> {
    if items == [] then []
    else
      var last := items[|items| - 1];
      Valid(items[..|items| - 1]) + if IsPackageName(last.name) then [last] else []
  }

  function Activate(document: Document, value: string, conditional: bool): Document {
    if conditional then document.(centralSeen := true, centralAmbiguous := true)
    else document.(centralSeen := true, centralEnabled := EqualFold(TrimSpace(value), "true"))
  }

  predicate IsActivation(tag: Tag) {
    EqualFold(tag.name, "ManagePackageVersionsCentrally")
  }

  /** What reading `node` adds to the document. */
  function Collect(node: Node, element: string, conditional: bool, document: Document): Document
    decreases node
  {
    match node
    case Chars(_) => document
    case Element(tag, children) =>
      if EqualFold(tag.name, element) then
        document.(items := document.items + Valid(Variants(children, [FirstItem(tag, conditional)])))
      else if IsActivation(tag) then Activate(document, TrimSpace(TextOf(children)), conditional || HasCondition(tag))
      else CollectAll(children, element, conditional || IsConditionalScope(tag), document)
  }

  function CollectAll(nodes: seq<Node>, element: string, conditional: bool, document: Document): Document
    decreases nodes
  {
    if nodes == [] then document
    else CollectAll(nodes[1..], element, conditional, Collect(nodes[0], element, conditional, document))
  }

  // ----- the same reading, token by token -----

  /** `Decoder.Skip` behind `depth` open tags. */
  function Skip(ts: seq<Token>, depth: nat): (r: Option<seq<Token>>)
    ensures r.Some? ==> |r.value| <= |ts|
    decreases |ts|
  {
    if depth == 0 then Some(ts)
    else if ts == [] then None
    else match ts[0]
      case Start(_) => Skip(ts[1..], depth + 1)
      case End => Skip(ts[1..], depth - 1)
      case Data(_) => Skip(ts[1..], depth)
  }

  /** The text of the open element and the tokens behind its end; nested elements are skipped. */
  function ReadText(ts: seq<Token>, text: string): (r: Option<(string, seq<Token>)>)
    ensures r.Some? ==> |r.value.1| < |ts|
    decreases |ts|
  {
    if ts == [] then None
    else match ts[0]
      case End => Some((text, ts[1..]))
      case Data(more) => ReadText(ts[1..], text + more)
      case Start(_) =>
        match Skip(ts[1..], 1)
        case Some(rest) => ReadText(rest, text)
        case None => None
  }

  function ReadItems(ts: seq<Token>, items: seq<Item>): (r: Option<(seq<Item>, seq<Token>)>)
    ensures r.Some? ==> |r.value.1| < |ts|
    decreases |ts|
  {
    if ts == [] then None
    else match ts[0]
      case End => Some((items, ts[1..]))
      case Data(_) => ReadItems(ts[1..], items)
      case Start(tag) =>
        if IsMetadata(tag) then
          match ReadText(ts[1..], "")
          case Some(r) => ReadItems(r.1, WithMetadata(items, Lower(tag.name), TrimSpace(r.0), HasCondition(tag)))
          case None => None
        else
          match Skip(ts[1..], 1)
          case Some(rest) => ReadItems(rest, items)
          case None => None
  }

  function Read(ts: seq<Token>, element: string, conditional: bool, parents: seq<bool>,
      document: Document): Option<Document>
    decreases |ts|
  {
    if ts == [] then Some(document)
    else match ts[0]
      case Data(_) => Read(ts[1..], element, conditional, parents, document)
      case End =>
        if parents == [] then Read(ts[1..], element, conditional, parents, document)
        else Read(ts[1..], element, parents[|parents| - 1], parents[..|parents| - 1], document)
      case Start(tag) =>
        if EqualFold(tag.name, element) then
          match ReadItems(ts[1..], [FirstItem(tag, conditional)])
          case Some(r) => Read(r.1, element, conditional, parents, document.(items := document.items + Valid(r.0)))
          case None => None
        else if IsActivation(tag) then
          match ReadText(ts[1..], "")
          case Some(r) =>
            Read(r.1, element, conditional, parents,
              Activate(document, TrimSpace(r.0), conditional || HasCondition(tag)))
          case None => None
        else Read(ts[1..], element, conditional || IsConditionalScope(tag), parents + [conditional], document)
  }

  method UniqueItems(items: seq<Item>) returns (result: seq<Item>)
    ensures result == Unique(items)
  {
    result := [];
    var seen: set<Item> := {};
    for i := 0 to |items|
      invariant result == Unique(items[..i])
      invariant forall x :: x in seen <==> x in result
    {
      assert items[..i + 1][..i] == items[..i];
      if items[i] in seen { continue; }
      seen := seen + {items[i]};
      result := result + [items[i]];
    }
    assert items[..|items|] == items;
  }

  /** `applyNuGetMetadata`. */
  method ApplyMetadata(items: seq<Item>, field: string, value: string, conditional: bool) returns (r: seq<Item>)
    ensures r == WithMetadata(items, field, value, conditional)
  {
    if !conditional {
      assert [] + SetAll(items, field, value) == SetAll(items, field, value);
      r := UniqueItems(SetAll(items, field, value));
      return;
    }
    var result := items;
    for i := 0 to |items|
      invariant result == items + MarkAll(SetAll(items, field, value))[..i]
    {
      var item := SetField(items[i], field, value);
      result := result + [item.(conditional := true)];
    }
    var marked := MarkAll(SetAll(items, field, value));
    assert marked[..|items|] == marked;
    r := UniqueItems(result);
  }

  class Parser {
    var tokens: seq<Token>
    const element: string
    var document: Document
    var conditional: bool
    var parents: seq<bool>

    constructor (tokens: seq<Token>, element: string)
      ensures this.tokens == tokens && this.element == element
      ensures document == EMPTY_DOCUMENT && !conditional && parents == []
    {
      this.tokens := tokens;
      this.element := element;
      document := EMPTY_DOCUMENT;
      conditional := false;
      parents := [];
    }

    method SkipElement() returns (ok: bool)
      modifies this`tokens
      ensures ok == Skip(old(tokens), 1).Some?
      ensures ok ==> tokens == Skip(old(tokens), 1).value
    {
      var depth: nat := 1;
      while depth > 0
        invariant Skip(old(tokens), 1) == Skip(tokens, depth)
        decreases |tokens|
      {
        if tokens == [] { return false; }
        var token := tokens[0];
        tokens := tokens[1..];
        match token {
          case Start(_) => depth := depth + 1;
          case End => depth := depth - 1;
          case Data(_) =>
        }
      }
      ok := true;
    }

    method DecodeText() returns (text: Option<string>)
      modifies this`tokens
      ensures text.Some? == ReadText(old(tokens), "").Some?
      ensures text.Some? ==>
        (TrimSpace(ReadText(old(tokens), "").value.0), tokens) == (text.value, ReadText(old(tokens), "").value.1)
    {
      var read := "";
      while true
        invariant ReadText(old(tokens), "") == ReadText(tokens, read)
        decreases |tokens|
      {
        if tokens == [] { return None; }
        var token := tokens[0];
        tokens := tokens[1..];
        match token {
          case End => return Some(TrimSpace(read));
          case Data(more) => read := read + more;
          case Start(_) =>
            var ok := SkipElement();
            if !ok { return None; }
        }
      }
    }

    /** `decodeNuGetMSBuildItems`. */
    method DecodeItems(tag: Tag) returns (items: Option<seq<Item>>)
      modifies this`tokens
      ensures var r := ReadItems(old(tokens), [FirstItem(tag, conditional)]);
        items.Some? == r.Some? && (r.Some? ==> (items.value, tokens) == r.value)
    {
      var item := BaseItem(tag);
      if conditional { item := item.(conditional := true); }
      var current := [item];
      while true
        invariant ReadItems(old(tokens), [FirstItem(tag, conditional)]) == ReadItems(tokens, current)
        decreases |tokens|
      {
        if tokens == [] { return None; }
        var token := tokens[0];
        tokens := tokens[1..];
        match token {
          case End => return Some(current);
          case Data(_) =>
          case Start(inner) =>
            if IsMetadata(inner) {
              var value := DecodeText();
              if value.None? { return None; }
              current := ApplyMetadata(current, Lower(inner.name), value.value, HasCondition(inner));
            } else {
              var ok := SkipElement();
              if !ok { return None; }
            }
        }
      }
    }

    method ConsumeStart(tag: Tag) returns (ok: bool)
      modifies this`tokens, this`document, this`conditional, this`parents
      ensures ok ==> |tokens| <= |old(tokens)|
      ensures Read([Start(tag)] + old(tokens), element, old(conditional), old(parents), old(document))
           == if ok then Read(tokens, element, conditional, parents, document) else None
    {
      hide ReadItems, ReadText, Activate, FirstItem, Valid, TrimSpace, HasCondition, IsConditionalScope;
      assert ([Start(tag)] + tokens)[1..] == tokens;
      if EqualFold(tag.name, element) {
        var items := DecodeItems(tag);
        if items.None? { return false; }
        AppendValidItems(items.value);
        return true;
      }
      if EqualFold(tag.name, "ManagePackageVersionsCentrally") {
        var value := DecodeText();
        if value.None? { return false; }
        document := Activate(document, value.value, conditional || HasCondition(tag));
        return true;
      }
      parents := parents + [conditional];
      conditional := conditional || IsConditionalScope(tag);
      ok := true;
    }

    method AppendValidItems(items: seq<Item>)
      modifies this`document
      ensures document == old(document).(items := old(document).items + Valid(items))
    {
      for i := 0 to |items|
        invariant document == old(document).(items := old(document).items + Valid(items[..i]))
      {
        assert items[..i + 1][..i] == items[..i];
        if IsPackageName(items[i].name) {
          document := document.(items := document.items + [items[i]]);
        }
      }
      assert items[..|items|] == items;
    }

    method ConsumeEnd()
      modifies this`conditional, this`parents
      ensures old(parents) == [] ==> conditional == old(conditional) && parents == []
      ensures old(parents) != [] ==> parents + [conditional] == old(parents)
    {
      if parents == [] { return; }
      conditional := parents[|parents| - 1];
      parents := parents[..|parents| - 1];
    }

    method Parse() returns (ok: bool)
      modifies this
      ensures var r := Read(old(tokens), element, old(conditional), old(parents), old(document));
        ok == r.Some? && (ok ==> document == r.value)
    {
      hide ReadItems, ReadText, Activate, FirstItem, Valid, TrimSpace, HasCondition, IsConditionalScope, EqualFold,
        IsActivation;
      while tokens != []
        invariant Read(tokens, element, conditional, parents, document)
               == Read(old(tokens), element, old(conditional), old(parents), old(document))
        decreases |tokens|
      {
        var token := tokens[0];
        assert tokens == [token] + tokens[1..];
        tokens := tokens[1..];
        match token {
          case Data(_) =>
          case End => ConsumeEnd();
          case Start(tag) =>
            ok := ConsumeStart(tag);
            if !ok { return; }
        }
      }
      ok := true;
    }
  }

  // ----- the token reading is the tree reading -----

  lemma {:induction false} SkipPasses(node: Node, k: seq<Token>, depth: nat)
    requires depth > 0
    ensures Skip(Flatten(node, k), depth) == Skip(k, depth)
    decreases node
  {
    match node
    case Chars(text) => assert ([Data(text)] + k)[1..] == k;
    case Element(tag, children) =>
      assert Flatten(node, k)[1..] == FlattenAll(children, [End] + k);
      SkipPassesAll(children, [End] + k, depth + 1);
      assert ([End] + k)[1..] == k;
  }

  lemma {:induction false} SkipPassesAll(nodes: seq<Node>, k: seq<Token>, depth: nat)
    requires depth > 0
    ensures Skip(FlattenAll(nodes, k), depth) == Skip(k, depth)
    decreases nodes
  {
    if nodes != [] {
      SkipPasses(nodes[0], FlattenAll(nodes[1..], k), depth);
      SkipPassesAll(nodes[1..], k, depth);
    }
  }

  lemma ElementSkipped(children: seq<Node>, k: seq<Token>)
    ensures Skip(FlattenAll(children, [End] + k), 1) == Some(k)
  {
    SkipPassesAll(children, [End] + k, 1);
    assert ([End] + k)[1..] == k;
  }

  lemma {:induction false} TextRead(children: seq<Node>, k: seq<Token>, text: string)
    ensures ReadText(FlattenAll(children, [End] + k), text) == Some((text + TextOf(children), k))
    decreases children
  {
    if children == [] {
      assert ([End] + k)[1..] == k && text + "" == text;
    } else {
      var rest := FlattenAll(children[1..], [End] + k);
      match children[0]
      case Chars(more) =>
        assert ([Data(more)] + rest)[1..] == rest;
        TextRead(children[1..], k, text + more);
        assert text + more + TextOf(children[1..]) == text + TextOf(children);
      case Element(tag, inner) =>
        assert Flatten(children[0], rest)[1..] == FlattenAll(inner, [End] + rest);
        ElementSkipped(inner, rest);
        TextRead(children[1..], k, text);
        assert "" + TextOf(children[1..]) == TextOf(children[1..]);
    }
  }

  lemma {:induction false} ItemsRead(children: seq<Node>, k: seq<Token>, items: seq<Item>)
    ensures ReadItems(FlattenAll(children, [End] + k), items) == Some((Variants(children, items), k))
    decreases children
  {
    if children == [] {
      assert ([End] + k)[1..] == k;
    } else {
      var rest := FlattenAll(children[1..], [End] + k);
      match children[0]
      case Chars(more) =>
        assert ([Data(more)] + rest)[1..] == rest;
        ItemsRead(children[1..], k, items);
      case Element(tag, inner) =>
        assert Flatten(children[0], rest)[1..] == FlattenAll(inner, [End] + rest);
        if IsMetadata(tag) {
          TextRead(inner, rest, "");
          assert "" + TextOf(inner) == TextOf(inner);
          ItemsRead(children[1..], k,
            WithMetadata(items, Lower(tag.name), TrimSpace(TextOf(inner)), HasCondition(tag)));
        } else {
          ElementSkipped(inner, rest);
          ItemsRead(children[1..], k, items);
        }
    }
  }

  /** Reading the tokens of a node leaves the flag and the stack as they were. */
  lemma {:induction false} NodeRead(node: Node, k: seq<Token>, element: string, conditional: bool, parents: seq<bool>,
      document: Document)
    ensures Read(Flatten(node, k), element, conditional, parents, document)
         == Read(k, element, conditional, parents, Collect(node, element, conditional, document))
    decreases node
  {
    hide Activate, Variants, Valid, FirstItem, IsConditionalScope, HasCondition, EqualFold, IsActivation, TextOf;
    match node
    case Chars(text) => assert ([Data(text)] + k)[1..] == k;
    case Element(tag, children) =>
      assert Flatten(node, k)[1..] == FlattenAll(children, [End] + k);
      if EqualFold(tag.name, element) {
        ItemsRead(children, k, [FirstItem(tag, conditional)]);
      } else if IsActivation(tag) {
        TextRead(children, k, "");
        assert "" + TextOf(children) == TextOf(children);
      } else {
        var inner, stack := conditional || IsConditionalScope(tag), parents + [conditional];
        NodesRead(children, [End] + k, element, inner, stack, document);
        assert ([End] + k)[1..] == k && stack[|stack| - 1] == conditional && stack[..|stack| - 1] == parents;
      }
  }

  lemma {:induction false} NodesRead(nodes: seq<Node>, k: seq<Token>, element: string, conditional: bool,
      parents: seq<bool>, document: Document)
    ensures Read(FlattenAll(nodes, k), element, conditional, parents, document)
         == Read(k, element, conditional, parents, CollectAll(nodes, element, conditional, document))
    decreases nodes
  {
    hide Read, Collect;
    if nodes != [] {
      NodeRead(nodes[0], FlattenAll(nodes[1..], k), element, conditional, parents, document);
      NodesRead(nodes[1..], k, element, conditional, parents, Collect(nodes[0], element, conditional, document));
    }
  }

  /** The flag stack does what recursion over the document does. */
  lemma FlagStackFollowsTheTree(nodes: seq<Node>, element: string)
    ensures Read(FlattenAll(nodes, []), element, false, [], EMPTY_DOCUMENT) ==
      Some(CollectAll(nodes, element, false, EMPTY_DOCUMENT))
  {
    NodesRead(nodes, [], element, false, [], EMPTY_DOCUMENT);
  }
}
