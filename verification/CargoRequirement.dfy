/** internal/analysis/identity_enrichment_cargo_version.go: the clauses of a Cargo requirement and the versions that
    satisfy it. */
module CargoRequirement {
  import opened SemVer

  datatype Operator = Caret | Exact | Greater | GreaterEqual | LessThan | LessEqual | Tilde | Wildcard

  /** A version of which `components` numbers were written; the others are zero. */
  datatype Partial = Partial(version: Version, components: nat)

  datatype Clause = Clause(operator: Operator, required: Partial)

  /** What the parser produces; `1-a.*` is a wildcard clause with a pre-release. */
  predicate WellFormed(clause: Clause) {
    var v, n := clause.required.version, clause.required.components;
    n <= 3 && (n < 3 ==> v.patch == 0) && (n < 2 ==> v.minor == 0) && (n < 1 ==> v.major == 0 && v.prerelease == []) &&
    if clause.operator.Wildcard? then n < 3 else n > 0 && (n < 3 ==> v.prerelease == [])
  }

  predicate MatchesExact(required: Partial, locked: Version) {
    (required.components >= 1 ==> locked.major == required.version.major) &&
    (required.components >= 2 ==> locked.minor == required.version.minor) &&
    (required.components >= 3 ==> locked.patch == required.version.patch) &&
    locked.prerelease == required.version.prerelease
  }

  predicate GreaterThanPartial(required: Partial, locked: Version) {
    var r := required.version;
    if locked.major != r.major then locked.major > r.major
    else if required.components < 2 then false
    else if locked.minor != r.minor then locked.minor > r.minor
    else if required.components < 3 then false
    else Compare(locked, r).After?
  }

  predicate LessThanPartial(required: Partial, locked: Version) {
    var r := required.version;
    if locked.major != r.major then locked.major < r.major
    else if required.components < 2 then false
    else if locked.minor != r.minor then locked.minor < r.minor
    else if required.components < 3 then false
    else Compare(locked, r).Before?
  }

  predicate MatchesTilde(required: Partial, locked: Version) {
    var r := required.version;
    if locked.major != r.major then false
    else if required.components == 1 then true
    else if locked.minor != r.minor then false
    else required.components == 2 || !Compare(locked, r).Before?
  }

  predicate MatchesCaret(required: Partial, locked: Version) {
    var r := required.version;
    if locked.major != r.major then false
    else if required.components == 1 then true
    else if r.major > 0 then
      if locked.minor != r.minor then locked.minor > r.minor
      else required.components == 2 || !Compare(locked, r).Before?
    else if locked.minor != r.minor then false
    else if required.components == 2 then true
    else if r.minor > 0 then !Compare(locked, r).Before?
    else locked.patch == r.patch && !Compare(locked, r).Before?
  }

  predicate ClauseMatches(clause: Clause, locked: Version) {
    match clause.operator
    case Exact => MatchesExact(clause.required, locked)
    case Wildcard => MatchesExact(clause.required, locked)
    case Greater => GreaterThanPartial(clause.required, locked)
    case GreaterEqual => MatchesExact(clause.required, locked) || GreaterThanPartial(clause.required, locked)
    case LessThan => LessThanPartial(clause.required, locked)
    case LessEqual => MatchesExact(clause.required, locked) || LessThanPartial(clause.required, locked)
    case Tilde => MatchesTilde(clause.required, locked)
    case Caret => MatchesCaret(clause.required, locked)
  }

  predicate ActivatesPrerelease(clause: Clause, locked: Version) {
    clause.required.components == 3 && CompareCore(clause.required.version, locked).Same? &&
    clause.required.version.prerelease != []
  }

  // ----- releases: one half-open interval per clause -----

  datatype Core = Core(major: nat, minor: nat, patch: nat)

  predicate AtMost(a: Core, b: Core) {
    a.major < b.major || (a.major == b.major && (a.minor < b.minor || (a.minor == b.minor && a.patch <= b.patch)))
  }

  datatype Bound = Finite(core: Core) | Unbounded

  /** The cores from `low` up to, and without, `high`. */
  datatype Interval = Interval(low: Core, high: Bound)

  predicate Inside(v: Core, range: Interval) {
    AtMost(range.low, v) && (range.high.Finite? ==> !AtMost(range.high.core, v))
  }

  const ZERO := Core(0, 0, 0)

  function CoreOf(v: Version): Core {
    Core(v.major, v.minor, v.patch)
  }

  /** The first core whose written components are all behind those of the requirement. */
  function Next(required: Partial): Bound {
    var v := required.version;
    match required.components
    case 0 => Unbounded
    case 1 => Finite(Core(v.major + 1, 0, 0))
    case 2 => Finite(Core(v.major, v.minor + 1, 0))
    case _ => Finite(Core(v.major, v.minor, v.patch + 1))
  }

  /** The first core that Cargo counts as incompatible: the leftmost nonzero component goes up by one. */
  function Breaking(required: Partial): Bound {
    var v := required.version;
    if v.major > 0 || required.components == 1 then Finite(Core(v.major + 1, 0, 0))
    else if v.minor > 0 || required.components == 2 then Finite(Core(0, v.minor + 1, 0))
    else Finite(Core(0, 0, v.patch + 1))
  }

  function ClauseInterval(clause: Clause): Interval
    requires WellFormed(clause)
  {
    var required := clause.required;
    var low, pre := CoreOf(required.version), required.version.prerelease != [];
    match clause.operator
    case Exact => Interval(low, if pre then Finite(low) else Next(required))
    case Wildcard => Interval(low, if pre then Finite(low) else Next(required))
    case Greater => if pre then Interval(low, Unbounded) else Interval(Next(required).core, Unbounded)
    case GreaterEqual => Interval(low, Unbounded)
    case LessThan => Interval(ZERO, Finite(low))
    case LessEqual => Interval(ZERO, if pre then Finite(low) else Next(required))
    case Tilde => Interval(low, Next(required.(components := if required.components < 2 then 1 else 2)))
    case Caret => Interval(low, Breaking(required))
  }

  lemma ReleaseOrder(a: Version, b: Version)
    requires a.prerelease == []
    ensures Compare(a, b).Before? <==> !AtMost(CoreOf(b), CoreOf(a))
    ensures Compare(a, b).After? <==> AtMost(CoreOf(b), CoreOf(a)) && (CoreOf(a) == CoreOf(b) ==> b.prerelease != [])
  {
  }

  /** A release matches a clause exactly when its core lies in the clause's interval. */
  lemma ReleaseMatchesInterval(clause: Clause, locked: Version)
    requires WellFormed(clause) && locked.prerelease == []
    ensures ClauseMatches(clause, locked) <==> Inside(CoreOf(locked), ClauseInterval(clause))
  {
    hide Compare;
    ReleaseOrder(locked, clause.required.version);
  }

  function Meet(a: Interval, b: Interval): Interval {
    Interval(if AtMost(a.low, b.low) then b.low else a.low,
      match (a.high, b.high)
      case (Unbounded, high) => high
      case (high, Unbounded) => high
      case (Finite(x), Finite(y)) => Finite(if AtMost(x, y) then x else y))
  }

  function MeetAll(clauses: seq<Clause>): Interval
    requires forall c <- clauses :: WellFormed(c)
  {
    if clauses == [] then Interval(ZERO, Unbounded) else Meet(ClauseInterval(clauses[0]), MeetAll(clauses[1..]))
  }

  lemma MeetIsIntersection(v: Core, a: Interval, b: Interval)
    ensures Inside(v, Meet(a, b)) <==> Inside(v, a) && Inside(v, b)
  {
  }

  // ----- all versions: clauses that write out the whole version -----

  /** The documented meaning in precedence order; upper limits of tilde and caret are on cores. */
  predicate Meaning(clause: Clause, locked: Version)
    requires WellFormed(clause) && clause.required.components == 3
  {
    var order := Compare(locked, clause.required.version);
    match clause.operator
    case Exact => order.Same?
    case Greater => order.After?
    case GreaterEqual => !order.Before?
    case LessThan => order.Before?
    case LessEqual => !order.After?
    case Tilde => !order.Before? && !AtMost(Next(clause.required.(components := 2)).core, CoreOf(locked))
    case Caret => !order.Before? && !AtMost(Breaking(clause.required).core, CoreOf(locked))
  }

  lemma CompareByCore(a: Version, b: Version)
    ensures Compare(a, b).Same? <==> a == b
    ensures var pre := ComparePrerelease(a.prerelease, b.prerelease);
      Compare(a, b).Before? == (!AtMost(CoreOf(b), CoreOf(a)) || (CoreOf(a) == CoreOf(b) && pre.Before?)) &&
      Compare(a, b).After? == (!AtMost(CoreOf(a), CoreOf(b)) || (CoreOf(a) == CoreOf(b) && pre.After?))
  {
    hide ComparePrerelease;
    PrecedenceIsTotal(a, b, b);
    assert ComparePrerelease(a.prerelease, b.prerelease).Same? <==> a.prerelease == b.prerelease by {
      PrecedenceIsTotal(b.(prerelease := a.prerelease), b, b);
    }
  }

  /** Pre-releases included, a clause with a complete version means what precedence says. */
  lemma CompleteClauseMeaning(clause: Clause, locked: Version)
    requires WellFormed(clause) && clause.required.components == 3
    ensures ClauseMatches(clause, locked) <==> Meaning(clause, locked)
  {
    hide Compare, ComparePrerelease;
    CompareByCore(locked, clause.required.version);
  }

  /** Pre-releases under a clause that leaves components open: the interval of cores is that of the releases but for
      the ends of the comparisons, which a pre-release cannot equal, and `=` and wildcards demand the written
      pre-release. */
  predicate AdmitsPrerelease(clause: Clause, locked: Version)
    requires WellFormed(clause) && clause.required.components < 3
  {
    var required, v := clause.required, CoreOf(locked);
    var low := CoreOf(required.version);
    match clause.operator
    case Exact => false
    case Wildcard => locked.prerelease == required.version.prerelease && Inside(v, Interval(low, Next(required)))
    case Greater => Inside(v, Interval(Next(required).core, Unbounded))
    case GreaterEqual => Inside(v, Interval(Next(required).core, Unbounded))
    case LessThan => Inside(v, Interval(ZERO, Finite(low)))
    case LessEqual => Inside(v, Interval(ZERO, Finite(low)))
    case Tilde => Inside(v, Interval(low, Next(required)))
    case Caret => Inside(v, Interval(low, Breaking(required)))
  }

  lemma PartialClauseMeaning(clause: Clause, locked: Version)
    requires WellFormed(clause) && clause.required.components < 3 && locked.prerelease != []
    ensures ClauseMatches(clause, locked) <==> AdmitsPrerelease(clause, locked)
  {
    hide Compare;
  }

  // ----- requirements -----

  predicate AllMatch(clauses: seq<Clause>, locked: Version) {
    forall c <- clauses :: ClauseMatches(c, locked)
  }

  predicate SomeActivates(clauses: seq<Clause>, locked: Version) {
    exists c <- clauses :: ActivatesPrerelease(c, locked)
  }

  predicate Accepted(clauses: seq<Clause>, locked: Version) {
    AllMatch(clauses, locked) && (locked.prerelease == [] || SomeActivates(clauses, locked))
  }

  lemma Everything(v: Core)
    ensures Inside(v, Interval(ZERO, Unbounded))
  {
  }

  /** A release satisfies the requirement exactly when its core lies in one interval, the meet of the clauses'. */
  lemma {:induction false} ReleaseAcceptedInterval(clauses: seq<Clause>, locked: Version)
    requires locked.prerelease == [] && forall c <- clauses :: WellFormed(c)
    ensures Accepted(clauses, locked) <==> Inside(CoreOf(locked), MeetAll(clauses))
  {
    hide ClauseMatches, ClauseInterval, Inside, Meet, WellFormed;
    if clauses == [] {
      assert Inside(CoreOf(locked), Interval(ZERO, Unbounded)) by { Everything(CoreOf(locked)); }
    } else {
      assert clauses == [clauses[0]] + clauses[1..];
      ReleaseMatchesInterval(clauses[0], locked);
      MeetIsIntersection(CoreOf(locked), ClauseInterval(clauses[0]), MeetAll(clauses[1..]));
      ReleaseAcceptedInterval(clauses[1..], locked);
    }
  }

  /** A pre-release is accepted exactly when it shares its core with a clause that names a pre-release, is in the range
      of every complete clause, and is admitted by every clause that leaves components open. */
  lemma AcceptedPrerelease(clauses: seq<Clause>, locked: Version)
    requires forall c <- clauses :: WellFormed(c)
    requires locked.prerelease != []
    ensures Accepted(clauses, locked) <==>
      (exists c <- clauses :: c.required.components == 3 && c.required.version.prerelease != [] &&
        CoreOf(c.required.version) == CoreOf(locked)) &&
      forall c <- clauses :: if c.required.components == 3 then Meaning(c, locked) else AdmitsPrerelease(c, locked)
  {
    hide ClauseMatches, Meaning, AdmitsPrerelease;
    forall c | c in clauses
      ensures ClauseMatches(c, locked) <==>
        if c.required.components == 3 then Meaning(c, locked) else AdmitsPrerelease(c, locked)
    {
      if c.required.components == 3 { CompleteClauseMeaning(c, locked); } else { PartialClauseMeaning(c, locked); }
    }
    forall c | c in clauses
      ensures ActivatesPrerelease(c, locked) <==>
        c.required.components == 3 && c.required.version.prerelease != [] &&
          CoreOf(c.required.version) == CoreOf(locked)
    {
    }
  }
}
