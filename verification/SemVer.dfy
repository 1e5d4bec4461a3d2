/** Versions and the precedence order of section 11 of SemVer 2.0.0. Build metadata is not part of a version's
    identity here: it takes no part in precedence. */
module SemVer {
  import opened Strings

  datatype Identifier = Numeric(value: nat) | Word(text: string)

  /** A release has no pre-release identifiers. */
  datatype Version = Version(major: nat, minor: nat, patch: nat, prerelease: seq<Identifier>)

  datatype Order = Before | Same | After

  function Flip(o: Order): Order {
    match o
    case Before => After
    case Same => Same
    case After => Before
  }

  function Then(first: Order, second: Order): Order {
    if first.Same? then second else first
  }

  function CompareNat(a: nat, b: nat): Order {
    if a < b then Before else if a == b then Same else After
  }

  function CompareText(a: string, b: string): Order {
    if a == b then Same else if Less(a, b) then Before else After
  }

  /** Numeric identifiers come before words. */
  function CompareIdentifier(a: Identifier, b: Identifier): Order {
    match (a, b)
    case (Numeric(x), Numeric(y)) => CompareNat(x, y)
    case (Numeric(_), Word(_)) => Before
    case (Word(_), Numeric(_)) => After
    case (Word(x), Word(y)) => CompareText(x, y)
  }

  /** Identifier by identifier; a proper prefix comes first. */
  function CompareIdentifiers(a: seq<Identifier>, b: seq<Identifier>): Order {
    if a == [] && b == [] then Same
    else if a == [] then Before
    else if b == [] then After
    else Then(CompareIdentifier(a[0], b[0]), CompareIdentifiers(a[1..], b[1..]))
  }

  /** A release comes after its pre-releases. */
  function ComparePrerelease(a: seq<Identifier>, b: seq<Identifier>): Order {
    if a == b then Same
    else if a == [] then After
    else if b == [] then Before
    else CompareIdentifiers(a, b)
  }

  function CompareCore(a: Version, b: Version): Order {
    Then(CompareNat(a.major, b.major), Then(CompareNat(a.minor, b.minor), CompareNat(a.patch, b.patch)))
  }

  function Compare(a: Version, b: Version): Order {
    Then(CompareCore(a, b), ComparePrerelease(a.prerelease, b.prerelease))
  }

  lemma TextOrder(a: string, b: string, c: string)
    ensures CompareText(b, a) == Flip(CompareText(a, b))
    ensures CompareText(a, b).Same? <==> a == b
    ensures CompareText(a, b).Before? && CompareText(b, c).Before? ==> CompareText(a, c).Before?
  {
    LessTotal(a, b);
    LessIrreflexive(a);
    if Less(a, b) && Less(b, a) { LessTransitive(a, b, a); }
    if Less(a, b) && Less(b, c) { LessTransitive(a, b, c); }
  }

  lemma IdentifierOrder(a: Identifier, b: Identifier, c: Identifier)
    ensures CompareIdentifier(b, a) == Flip(CompareIdentifier(a, b))
    ensures CompareIdentifier(a, b).Same? <==> a == b
    ensures CompareIdentifier(a, b).Before? && CompareIdentifier(b, c).Before? ==> CompareIdentifier(a, c).Before?
  {
    hide CompareText;
    if a.Word? && b.Word? {
      TextOrder(a.text, b.text, if c.Word? then c.text else "");
    }
  }

  lemma {:induction false} IdentifiersOrder(a: seq<Identifier>, b: seq<Identifier>, c: seq<Identifier>)
    ensures CompareIdentifiers(b, a) == Flip(CompareIdentifiers(a, b))
    ensures CompareIdentifiers(a, b).Same? <==> a == b
    ensures CompareIdentifiers(a, b).Before? && CompareIdentifiers(b, c).Before? ==> CompareIdentifiers(a, c).Before?
  {
    hide CompareIdentifier;
    if a != [] && b != [] {
      IdentifiersOrder(a[1..], b[1..], if c == [] then [] else c[1..]);
      assert a == [a[0]] + a[1..] && b == [b[0]] + b[1..];
      IdentifierOrder(a[0], b[0], if c == [] then b[0] else c[0]);
      if c != [] { IdentifierOrder(b[0], c[0], a[0]); }
    }
  }

  /** Precedence is a strict total order on versions. */
  lemma PrecedenceIsTotal(a: Version, b: Version, c: Version)
    ensures Compare(b, a) == Flip(Compare(a, b))
    ensures Compare(a, b).Same? <==> a == b
    ensures Compare(a, b).Before? && Compare(b, c).Before? ==> Compare(a, c).Before?
  {
    IdentifiersOrder(a.prerelease, b.prerelease, c.prerelease);
  }

  // ----- precedence in the words of section 11 -----

  /** Numbers by value, words in the order of their characters, numbers before words. */
  ghost predicate IdentifierPrecedes(a: Identifier, b: Identifier) {
    (a.Numeric? && b.Numeric? && a.value < b.value) || (a.Numeric? && b.Word?) ||
    (a.Word? && b.Word? && exists k: nat :: Precedes(a.text, b.text, k))
  }

  /** The first different identifier decides; a list that ends there comes first. */
  ghost predicate ListPrecedes(a: seq<Identifier>, b: seq<Identifier>, k: nat) {
    k <= |a| && k < |b| && a[..k] == b[..k] && (k == |a| || IdentifierPrecedes(a[k], b[k]))
  }

  /** Major, minor and patch in this order; then a pre-release before its release, and pre-releases by their lists. */
  ghost predicate VersionPrecedes(a: Version, b: Version) {
    if a.major != b.major then a.major < b.major
    else if a.minor != b.minor then a.minor < b.minor
    else if a.patch != b.patch then a.patch < b.patch
    else a.prerelease != [] && (b.prerelease == [] || exists k: nat :: ListPrecedes(a.prerelease, b.prerelease, k))
  }

  lemma IdentifierExactlyWhen(a: Identifier, b: Identifier)
    ensures CompareIdentifier(a, b).Before? <==> IdentifierPrecedes(a, b)
  {
    hide Less;
    if a.Word? && b.Word? {
      LessExactlyWhen(a.text, b.text);
      LessIrreflexive(a.text);
    }
  }

  lemma {:induction false} ListExactlyWhen(a: seq<Identifier>, b: seq<Identifier>)
    ensures CompareIdentifiers(a, b).Before? <==> exists k: nat :: ListPrecedes(a, b, k)
  {
    hide CompareIdentifier, IdentifierPrecedes;
    if a == [] || b == [] {
      if a == [] && b != [] { assert ListPrecedes(a, b, 0); }
    } else {
      IdentifierExactlyWhen(a[0], b[0]);
      IdentifierOrder(a[0], b[0], b[0]);
      ListExactlyWhen(a[1..], b[1..]);
      if CompareIdentifiers(a, b).Before? {
        if a[0] != b[0] {
          assert ListPrecedes(a, b, 0);
        } else {
          var k: nat :| ListPrecedes(a[1..], b[1..], k);
          assert a[..k + 1] == [a[0]] + a[1..][..k] && b[..k + 1] == [b[0]] + b[1..][..k];
          assert ListPrecedes(a, b, k + 1);
        }
      }
      if k: nat :| ListPrecedes(a, b, k) {
        if k > 0 {
          assert a[..k][0] == b[..k][0];
          assert a[1..][..k - 1] == a[..k][1..] && b[1..][..k - 1] == b[..k][1..];
          assert ListPrecedes(a[1..], b[1..], k - 1);
        }
      }
    }
  }

  /** The comparison is the precedence of versions. */
  lemma PrecedenceExactlyWhen(a: Version, b: Version)
    ensures Compare(a, b).Before? <==> VersionPrecedes(a, b)
    ensures Compare(a, b).After? <==> VersionPrecedes(b, a)
    ensures Compare(a, b).Same? <==> a == b
  {
    hide CompareIdentifiers, ListPrecedes;
    ListExactlyWhen(a.prerelease, b.prerelease);
    ListExactlyWhen(b.prerelease, a.prerelease);
    IdentifiersOrder(a.prerelease, b.prerelease, a.prerelease);
    PrecedenceIsTotal(a, b, a);
  }
}
