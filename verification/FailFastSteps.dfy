/** internal/app/lockfile_drift_scanner.go, fail mode: what the batched scan comes to, as steps over the snapshots that
    wait for one shared question to git, and how far that is what the rule-by-rule replay of every snapshot in walk
    order reports. */
module FailFastSteps {
  import opened Strings
  import opened Results
  import opened GitPathspec
  import opened GitContext
  import opened DriftRules

  const BATCH_SNAPSHOTS := 128

  /** One call of the walk function: a directory to inspect, an entry to pass over, or a failure. */
  datatype WalkEvent = Visit(snapshot: Snapshot) | PassOver | WalkError(error: DriftError)

  datatype Outcome = Quiet | Found(warning: Warning) | Failed(error: DriftError)

  // ----- the reference: one rule at a time, in walk order -----

  function RuleByRule(s: Snapshot, rules: seq<Rule>, repo: Repository): Outcome {
    if rules == [] then Quiet
    else match Candidates(s, rules[0])
      case Err(e) => Failed(e)
      case Ok(paths) =>
        match (if paths == [] then Ok({}) else Query(repo, paths))
        case Err(e) => Failed(e)
        case Ok(changed) =>
          match Evaluate(s, rules[0], GitView(paths != [], changed))
          case Err(e) => Failed(e)
          case Ok(Some(finding)) => Found(BuildWarning(finding))
          case Ok(None) => RuleByRule(s, rules[1..], repo)
  }

  function FirstOf(snapshots: seq<Snapshot>, rules: seq<Rule>, repo: Repository): Outcome {
    if snapshots == [] then Quiet
    else
      var first := RuleByRule(snapshots[0], rules, repo);
      if first != Quiet then first else FirstOf(snapshots[1..], rules, repo)
  }

  function InOrder(events: seq<WalkEvent>, rules: seq<Rule>, repo: Repository): Outcome {
    if events == [] then Quiet
    else match events[0]
      case WalkError(e) => Failed(e)
      case PassOver => InOrder(events[1..], rules, repo)
      case Visit(s) =>
        var first := RuleByRule(s, rules, repo);
        if first != Quiet then first else InOrder(events[1..], rules, repo)
  }

  // ----- evaluating a snapshot in one given git context -----

  function FirstFinding(s: Snapshot, rules: seq<Rule>, git: GitView): Outcome {
    if rules == [] then Quiet
    else match Evaluate(s, rules[0], git)
      case Err(e) => Failed(e)
      case Ok(Some(finding)) => Found(BuildWarning(finding))
      case Ok(None) => FirstFinding(s, rules[1..], git)
  }

  /** The rules in front of the first git-free finding: those whose candidates must be asked about. */
  function BeforeFinding(s: Snapshot, rules: seq<Rule>): (k: nat)
    ensures k <= |rules|
  {
    if rules == [] then 0
    else match Evaluate(s, rules[0], NO_GIT)
      case Ok(None) => 1 + BeforeFinding(s, rules[1..])
      case _ => 0
  }

  function CandidatesOf(s: Snapshot, rule: Rule): seq<string> {
    var paths := Candidates(s, rule);
    if paths.Ok? then paths.value else []
  }

  /** Evaluates without error before git is asked, with every path that matters in `asked`. */
  ghost predicate Covered(s: Snapshot, rules: seq<Rule>, asked: set<string>) {
    && !FirstFinding(s, rules, NO_GIT).Failed?
    && forall i :: 0 <= i < BeforeFinding(s, rules) ==>
         Candidates(s, rules[i]).Ok? && Elements(Candidates(s, rules[i]).value) <= asked
  }

  ghost predicate Asks(s: Snapshot, rules: seq<Rule>) {
    exists i :: 0 <= i < BeforeFinding(s, rules) && Candidates(s, rules[i]).Ok? && Candidates(s, rules[i]).value != []
  }

  lemma CoveredTail(s: Snapshot, rules: seq<Rule>, asked: set<string>)
    requires Covered(s, rules, asked) && rules != [] && Evaluate(s, rules[0], NO_GIT) == Ok(None)
    ensures Covered(s, rules[1..], asked)
    ensures Candidates(s, rules[0]).Ok? && Elements(Candidates(s, rules[0]).value) <= asked
    ensures Candidates(s, rules[0]).value == [] && Asks(s, rules) ==> Asks(s, rules[1..])
  {
    hide Evaluate, Candidates;
    var tail := rules[1..];
    forall i | 0 <= i < BeforeFinding(s, tail)
      ensures Candidates(s, tail[i]).Ok? && Elements(Candidates(s, tail[i]).value) <= asked
    {
      assert tail[i] == rules[i + 1];
    }
    if Candidates(s, rules[0]).value == [] && Asks(s, rules) {
      var i :| 0 <= i < BeforeFinding(s, rules) && Candidates(s, rules[i]).Ok? && Candidates(s, rules[i]).value != [];
      assert rules[i] == tail[i - 1];
    }
  }

  /** Drift that shows before git is asked comes from a rule that has nothing to ask git about. */
  lemma EarlyFindingAsksNothing(s: Snapshot, rule: Rule)
    requires Evaluate(s, rule, NO_GIT).Ok? && Evaluate(s, rule, NO_GIT).value.Some?
    ensures Candidates(s, rule) == Ok([])
  {
    GitFreeAnswerStands(s, rule, NO_GIT);
  }

  lemma PartOfAnswer(repo: Repository, asked: seq<string>, paths: seq<string>)
    requires asked != [] && Query(repo, asked).Ok? && Elements(paths) <= Elements(asked)
    ensures Query(repo, paths) == Ok(set p | p in paths && IsChanged(repo, p))
  {
    forall p | p in paths ensures p in asked {
      assert p in Elements(paths);
    }
    assert Filters(repo, paths) == [] && ProbeFailure(repo, paths) == None;
    if paths == [] {
      assert (set p | p in paths && IsChanged(repo, p)) == {};
    }
  }

  /** Without an active filter on the asked paths, one shared answer serves every rule. */
  lemma {:induction false} SharedAnswerServes(s: Snapshot, rules: seq<Rule>, repo: Repository, asked: seq<string>)
    requires Covered(s, rules, Elements(asked)) && asked != [] && Query(repo, asked).Ok?
    ensures FirstFinding(s, rules, GitView(true, Query(repo, asked).value)) == RuleByRule(s, rules, repo)
  {
    hide Select;
    if rules != [] {
      var rule := rules[0];
      var shared := GitView(true, Query(repo, asked).value);
      GitFreeAnswerStands(s, rule, shared);
      if Evaluate(s, rule, NO_GIT).value.Some? {
        EarlyFindingAsksNothing(s, rule);
        GitFreeAnswerStands(s, rule, GitView(false, {}));
      } else {
        CoveredTail(s, rules, Elements(asked));
        var paths := Candidates(s, rule).value;
        PartOfAnswer(repo, asked, paths);
        var own := GitView(paths != [], Query(repo, paths).value);
        forall p | p in paths ensures p in shared.changed <==> p in own.changed {
          assert p in Elements(paths);
        }
        OnlyCandidatesMatter(s, rule, shared, own);
        SharedAnswerServes(s, rules[1..], repo, asked);
      }
    }
  }

  predicate IsGitFailure(o: Outcome) {
    o.Failed? && o.error.GitFailed?
  }

  /** Git's failure on the candidates of one rule alone. */
  ghost predicate IsDownFor(o: Outcome, s: Snapshot, rule: Rule, repo: Repository)
    requires repo.down.Some?
  {
    var paths := Candidates(s, rule);
    paths.Ok? && paths.value != [] && o == Failed(GitFailed(repo.down.value(paths.value)))
  }

  /** While git is down, a snapshot with something to ask fails with git's error and nothing else. */
  lemma {:induction false} DownFailsFirst(s: Snapshot, rules: seq<Rule>, repo: Repository, asked: set<string>)
    requires Covered(s, rules, asked) && Asks(s, rules) && repo.down.Some?
    ensures exists rule <- rules :: IsDownFor(RuleByRule(s, rules, repo), s, rule, repo)
  {
    var rule := rules[0];
    GitFreeAnswerStands(s, rule, NO_GIT);
    CoveredTail(s, rules, asked);
    if Candidates(s, rule).value == [] {
      DownFailsFirst(s, rules[1..], repo, asked);
    } else {
      assert IsDownFor(RuleByRule(s, rules, repo), s, rule, repo);
    }
  }

  function Then(first: Outcome, second: Outcome): Outcome {
    if first != Quiet then first else second
  }

  lemma {:induction false} FirstOfConcat(a: seq<Snapshot>, b: seq<Snapshot>, rules: seq<Rule>, repo: Repository)
    ensures FirstOf(a + b, rules, repo) == Then(FirstOf(a, rules, repo), FirstOf(b, rules, repo))
  {
    if a == [] {
      assert a + b == b;
    } else {
      assert (a + b)[1..] == a[1..] + b;
      FirstOfConcat(a[1..], b, rules, repo);
    }
  }

  lemma {:induction false} BeforeFindingBounds(s: Snapshot, rules: seq<Rule>)
    ensures FirstFinding(s, rules, NO_GIT) == Quiet ==> BeforeFinding(s, rules) == |rules|
    ensures FirstFinding(s, rules, NO_GIT).Found? ==> BeforeFinding(s, rules) < |rules|
    ensures forall i :: 0 <= i < BeforeFinding(s, rules) ==> Candidates(s, rules[i]).Ok?
  {
    hide Evaluate, Candidates;
    if rules != [] {
      BeforeFindingBounds(s, rules[1..]);
      GitFreeAnswerStands(s, rules[0], NO_GIT);
      forall i | 0 <= i < BeforeFinding(s, rules) ensures Candidates(s, rules[i]).Ok? {
        if i > 0 { assert rules[i] == rules[1..][i - 1]; }
      }
    }
  }

  /** A git-free finding whose earlier rules have nothing to ask is already the snapshot's outcome. */
  lemma {:induction false} NothingAsked(s: Snapshot, rules: seq<Rule>, repo: Repository)
    requires !FirstFinding(s, rules, NO_GIT).Failed?
    requires forall i :: 0 <= i < BeforeFinding(s, rules) ==> Candidates(s, rules[i]) == Ok([])
    ensures RuleByRule(s, rules, repo) == FirstFinding(s, rules, NO_GIT)
  {
    if rules != [] {
      var rule := rules[0];
      if Evaluate(s, rule, NO_GIT).value.Some? {
        EarlyFindingAsksNothing(s, rule);
      } else {
        assert Candidates(s, rules[0]) == Ok([]);
        forall i | 0 <= i < BeforeFinding(s, rules[1..]) ensures Candidates(s, rules[1..][i]) == Ok([]) {
          assert rules[1..][i] == rules[i + 1];
        }
        NothingAsked(s, rules[1..], repo);
      }
      assert GitView(false, {}) == NO_GIT;
    }
  }

  lemma CoveredMore(s: Snapshot, rules: seq<Rule>, asked: set<string>, more: set<string>)
    requires Covered(s, rules, asked) && asked <= more
    ensures Covered(s, rules, more)
  {
  }

  /** The candidate paths collected from the rules before the first git-free finding cover the snapshot. */
  lemma CandidatesCover(s: Snapshot, rules: seq<Rule>, paths: seq<string>)
    requires !FirstFinding(s, rules, NO_GIT).Failed?
    requires forall p :: p in paths <==>
      exists i :: 0 <= i < BeforeFinding(s, rules) && p in CandidatesOf(s, rules[i])
    ensures Covered(s, rules, Elements(paths))
    ensures paths != [] ==> Asks(s, rules)
    ensures paths == [] ==> forall i :: 0 <= i < BeforeFinding(s, rules) ==> Candidates(s, rules[i]) == Ok([])
  {
    BeforeFindingBounds(s, rules);
    forall i | 0 <= i < BeforeFinding(s, rules)
      ensures Elements(Candidates(s, rules[i]).value) <= Elements(paths)
      ensures paths == [] ==> Candidates(s, rules[i]).value == []
    {
      var own := Candidates(s, rules[i]).value;
      forall p | p in own ensures p in paths { }
      if own != [] { assert own[0] in paths; }
    }
    if paths != [] { assert paths[0] in paths; }
  }

  // ----- the batch -----

  /** The paths not yet known, in order. */
  function Fresh(paths: seq<string>, known: set<string>): seq<string> {
    if paths == [] then []
    else Fresh(paths[..|paths| - 1], known) +
         (if paths[|paths| - 1] in known then [] else [paths[|paths| - 1]])
  }

  lemma AppendPath(paths: seq<string>, p: string)
    ensures Bytes(paths + [p]) == Bytes(paths) + ArgBytes(p)
    ensures Elements(paths + [p]) == Elements(paths) + {p}
    ensures Distinct(paths) && p !in paths ==> Distinct(paths + [p])
  {
    assert (paths + [p])[..|paths|] == paths;
  }

  lemma FreshStep(paths: seq<string>, i: nat, known: set<string>)
    requires i < |paths|
    ensures Fresh(paths[..i + 1], known) ==
      Fresh(paths[..i], known) + (if paths[i] in known then [] else [paths[i]])
    ensures |Fresh(paths[..i + 1], known)| == |Fresh(paths[..i], known)| + (if paths[i] in known then 0 else 1)
    ensures Bytes(Fresh(paths[..i + 1], known)) ==
      Bytes(Fresh(paths[..i], known)) + (if paths[i] in known then 0 else ArgBytes(paths[i]))
  {
    assert paths[..i + 1][..i] == paths[..i];
    var added := Fresh(paths[..i], known);
    AppendPath(added, paths[i]);
    assert added + [] == added;
  }

  lemma SeenStep(paths: seq<string>, i: nat, known: set<string>)
    requires i < |paths| && Distinct(paths)
    ensures Elements(paths[..i + 1]) == Elements(paths[..i]) + {paths[i]}
    ensures paths[i] in known + Elements(paths[..i]) <==> paths[i] in known
  {
    assert paths[..i + 1] == paths[..i] + [paths[i]];
    assert paths[i] !in paths[..i];
  }

  lemma AddStep(before: seq<string>, paths: seq<string>, i: nat, known: set<string>)
    requires i < |paths| && Distinct(paths)
    ensures paths[i] in known + Elements(paths[..i]) <==> paths[i] in known
    ensures known + Elements(paths[..i + 1]) == known + Elements(paths[..i]) + {paths[i]}
    ensures before + Fresh(paths[..i + 1], known) ==
      if paths[i] in known then before + Fresh(paths[..i], known) else before + Fresh(paths[..i], known) + [paths[i]]
    ensures Bytes(before + Fresh(paths[..i + 1], known)) ==
      Bytes(before + Fresh(paths[..i], known)) + (if paths[i] in known then 0 else ArgBytes(paths[i]))
  {
    hide Fresh, Bytes, Elements, ArgBytes, Distinct;
    SeenStep(paths, i, known);
    FreshStep(paths, i, known);
    var soFar := before + Fresh(paths[..i], known);
    AppendPath(soFar, paths[i]);
    assert before + (Fresh(paths[..i], known) + [paths[i]]) == soFar + [paths[i]];
    assert before + (Fresh(paths[..i], known) + []) == soFar;
  }

  lemma {:induction false} FreshMember(paths: seq<string>, known: set<string>, p: string)
    ensures p in Fresh(paths, known) <==> p in paths && p !in known
    decreases |paths|
  {
    if paths != [] {
      var n := |paths| - 1;
      FreshMember(paths[..n], known, p);
      assert paths == paths[..n] + [paths[n]];
    }
  }

  lemma {:induction false} FreshDistinct(before: seq<string>, paths: seq<string>, known: set<string>)
    requires Distinct(before) && Distinct(paths) && known == Elements(before)
    ensures Distinct(before + Fresh(paths, known))
    decreases |paths|
  {
    if paths == [] {
      assert before + Fresh(paths, known) == before;
    } else {
      var n := |paths| - 1;
      assert paths[..n + 1] == paths;
      FreshDistinct(before, paths[..n], known);
      AddStep(before, paths, n, known);
      FreshMember(paths[..n], known, paths[n]);
      AppendPath(before + Fresh(paths[..n], known), paths[n]);
    }
  }

  lemma AddedPaths(before: seq<string>, paths: seq<string>, known: set<string>)
    requires Distinct(before) && Distinct(paths) && known == Elements(before)
    ensures Distinct(before + Fresh(paths, known))
    ensures Elements(before + Fresh(paths, known)) == known + Elements(paths)
  {
    FreshDistinct(before, paths, known);
    forall p ensures p in before + Fresh(paths, known) <==> p in known || p in paths {
      FreshMember(paths, known, p);
      assert p in known <==> p in before;
    }
  }

  lemma NoneAdded(before: seq<string>, known: set<string>, none: seq<string>)
    requires none == []
    ensures before + Fresh(none, known) == before && known + Elements(none) == known
  {
  }

  // ----- what the batched scan comes to -----

  function Gathered(s: Snapshot, rules: seq<Rule>, k: nat): seq<string>
    requires k <= |rules|
  {
    if k == 0 then [] else Gathered(s, rules, k - 1) + CandidatesOf(s, rules[k - 1])
  }

  lemma {:induction false} GatheredMembers(s: Snapshot, rules: seq<Rule>, k: nat, p: string)
    requires k <= |rules|
    ensures p in Gathered(s, rules, k) <==> exists i :: 0 <= i < k && p in CandidatesOf(s, rules[i])
  {
    hide CandidatesOf;
    if k > 0 { GatheredMembers(s, rules, k - 1, p); }
  }

  /** What a snapshot must ask git about: the candidates of the rules before its git-free finding, sorted. */
  function AskedPaths(s: Snapshot, rules: seq<Rule>): (r: seq<string>)
    ensures Ascending(r) && Distinct(r)
    ensures forall p :: p in r <==>
      exists i :: 0 <= i < BeforeFinding(s, rules) && p in CandidatesOf(s, rules[i])
  {
    var k := BeforeFinding(s, rules);
    assert forall p :: p in Gathered(s, rules, k) <==> exists i :: 0 <= i < k && p in CandidatesOf(s, rules[i]) by {
      forall p ensures p in Gathered(s, rules, k) <==> exists i :: 0 <= i < k && p in CandidatesOf(s, rules[i]) {
        GatheredMembers(s, rules, k, p);
      }
    }
    SortedOnce(Gathered(s, rules, k))
  }

  /** Buffered snapshots, and the paths to ask git about for them. */
  datatype Pending = Pending(snapshots: seq<Snapshot>, paths: seq<string>)

  const NOTHING := Pending([], [])

  /** The outcome of a batch: git's failure on the one question about it, or else that of the replay. */
  function Settle(p: Pending, rules: seq<Rule>, repo: Repository): Outcome {
    if p.snapshots == [] then Quiet
    else
      match Query(repo, p.paths)
      case Err(GitFailed(detail)) => Failed(GitFailed(detail))
      case _ => FirstOf(p.snapshots, rules, repo)
  }

  function With(p: Pending, s: Snapshot, paths: seq<string>): Pending {
    Pending(p.snapshots + [s], p.paths + Fresh(paths, Elements(p.paths)))
  }

  predicate Overflows(p: Pending, paths: seq<string>) {
    var all := p.paths + Fresh(paths, Elements(p.paths));
    p.snapshots != [] && (|p.snapshots| >= BATCH_SNAPSHOTS || |all| > BATCH_PATHS || Bytes(all) > BATCH_BYTES)
  }

  lemma NothingFits(paths: seq<string>)
    ensures !Overflows(NOTHING, paths)
  {
  }

  /** One step of the walk: it goes on with these snapshots waiting, or is over. */
  datatype Step = Going(pending: Pending) | Over(outcome: Outcome)

  function AsStep(outcome: Outcome, next: Pending): Step {
    if outcome == Quiet then Going(next) else Over(outcome)
  }

  /** A snapshot with something to ask waits; a batch is settled to make room, and at once when drift is known. */
  function BufferStep(p: Pending, s: Snapshot, paths: seq<string>, found: bool, rules: seq<Rule>,
      repo: Repository): Step {
    var room := if Overflows(p, paths) then Settle(p, rules, repo) else Quiet;
    var next := With(if Overflows(p, paths) then NOTHING else p, s, paths);
    AsStep(Then(room, if found then Settle(next, rules, repo) else Quiet), if found then NOTHING else next)
  }

  function VisitStep(p: Pending, s: Snapshot, rules: seq<Rule>, repo: Repository): Step {
    var early, paths := FirstFinding(s, rules, NO_GIT), AskedPaths(s, rules);
    if early.Failed? then AsStep(Then(Settle(p, rules, repo), RuleByRule(s, rules, repo)), NOTHING)
    else if paths != [] then BufferStep(p, s, paths, early.Found?, rules, repo)
    else if early == Quiet then Going(p)
    else Over(Then(Settle(p, rules, repo), early))
  }

  function EntryStep(p: Pending, event: WalkEvent, rules: seq<Rule>, repo: Repository): Step {
    match event
    case PassOver => Going(p)
    case WalkError(e) => Over(Then(Settle(p, rules, repo), Failed(e)))
    case Visit(s) => VisitStep(p, s, rules, repo)
  }

  function Batched(events: seq<WalkEvent>, p: Pending, rules: seq<Rule>, repo: Repository): Outcome {
    if events == [] then Settle(p, rules, repo)
    else
      match EntryStep(p, events[0], rules, repo)
      case Going(next) => Batched(events[1..], next, rules, repo)
      case Over(outcome) => outcome
  }

  // ----- how far that is the outcome of the replay -----

  /** Git fails on the one question about the batch. */
  predicate Fails(p: Pending, repo: Repository) {
    p.snapshots != [] && Query(repo, p.paths).Err? && Query(repo, p.paths).error.GitFailed?
  }

  function IfFails(p: Pending, repo: Repository): Option<Pending> {
    if Fails(p, repo) then Some(p) else None
  }

  function FailingBuffer(p: Pending, s: Snapshot, paths: seq<string>, found: bool, rules: seq<Rule>,
      repo: Repository): Option<Pending> {
    if Overflows(p, paths) && Settle(p, rules, repo) != Quiet then IfFails(p, repo)
    else if found then IfFails(With(if Overflows(p, paths) then NOTHING else p, s, paths), repo)
    else None
  }

  /** The batch on which git fails in this step, if there is one. */
  function FailingIn(p: Pending, event: WalkEvent, rules: seq<Rule>, repo: Repository): Option<Pending> {
    match event
    case PassOver => None
    case WalkError(_) => IfFails(p, repo)
    case Visit(s) =>
      var early, paths := FirstFinding(s, rules, NO_GIT), AskedPaths(s, rules);
      if early.Failed? then IfFails(p, repo)
      else if paths != [] then FailingBuffer(p, s, paths, early.Found?, rules, repo)
      else if early == Quiet then None
      else IfFails(p, repo)
  }

  /** The first batch of the walk on which git fails: there is none behind it, as the walk is over with it. */
  function FirstFailing(events: seq<WalkEvent>, p: Pending, rules: seq<Rule>, repo: Repository): Option<Pending> {
    if events == [] then IfFails(p, repo)
    else
      var failing := FailingIn(p, events[0], rules, repo);
      if failing.Some? then failing
      else
        match EntryStep(p, events[0], rules, repo)
        case Going(next) => FirstFailing(events[1..], next, rules, repo)
        case Over(_) => None
  }

  /** The paths of a batch are those its snapshots ask about. */
  ghost predicate Sourced(p: Pending, rules: seq<Rule>) {
    forall q <- p.paths :: exists s <- p.snapshots :: q in AskedPaths(s, rules)
  }

  /** One shared answer settles every waiting snapshot, and each of them has something to ask. */
  ghost predicate Settled(p: Pending, rules: seq<Rule>) {
    && (p.snapshots == [] <==> p.paths == [])
    && forall s <- p.snapshots :: Covered(s, rules, Elements(p.paths)) && Asks(s, rules)
  }

  /** All that the waiting snapshots and those of the walk ask git about together. */
  function AskedBy(events: seq<WalkEvent>, rules: seq<Rule>): set<string> {
    if events == [] then {}
    else
      (match events[0]
       case Visit(s) => if FirstFinding(s, rules, NO_GIT).Failed? then {} else Elements(AskedPaths(s, rules))
       case _ => {}) + AskedBy(events[1..], rules)
  }

  /** The message of a tracked path, one of those asked about, that cannot be probed for its filter. */
  ghost predicate IsProbeFailure(o: Outcome, asked: set<string>, repo: Repository) {
    repo.down.None? && IsGitFailure(o) && exists p :: p in asked && FailsProbe(repo, p, o.error.detail)
  }

  /** The replay's outcome, up to the text while git is down, or a probe failure met before its turn. */
  ghost predicate Agrees(o: Outcome, replay: Outcome, asked: set<string>, repo: Repository) {
    o == replay || (repo.down.Some? && IsGitFailure(o) && IsGitFailure(replay)) || IsProbeFailure(o, asked, repo)
  }

  lemma SettleAgrees(p: Pending, rules: seq<Rule>, repo: Repository)
    requires Settled(p, rules)
    ensures Agrees(Settle(p, rules, repo), FirstOf(p.snapshots, rules, repo), Elements(p.paths), repo)
  {
    hide RuleByRule, Asks, Covered;
    if p.snapshots != [] && repo.down.Some? {
      assert p.snapshots[0] in p.snapshots;
      DownFailsFirst(p.snapshots[0], rules, repo, Elements(p.paths));
    }
  }

  lemma {:induction false} FailingRuleEnds(s: Snapshot, rules: seq<Rule>, repo: Repository, i: nat, path: string)
    requires i < BeforeFinding(s, rules) && path in CandidatesOf(s, rules[i])
    requires IsTracked(repo, path) && path in repo.probeFailures
    ensures RuleByRule(s, rules, repo) != Quiet
  {
    hide Evaluate, Candidates;
    GitFreeAnswerStands(s, rules[0], NO_GIT);
    if i > 0 {
      assert rules[1..][i - 1] == rules[i];
      FailingRuleEnds(s, rules[1..], repo, i - 1, path);
    }
  }

  lemma {:induction false} QuietThroughout(snapshots: seq<Snapshot>, rules: seq<Rule>, repo: Repository)
    ensures FirstOf(snapshots, rules, repo) == Quiet ==> forall s <- snapshots :: RuleByRule(s, rules, repo) == Quiet
  {
    hide RuleByRule;
    if snapshots != [] {
      QuietThroughout(snapshots[1..], rules, repo);
      assert snapshots == [snapshots[0]] + snapshots[1..];
    }
  }

  /** Where git fails on a batch, the replay of its snapshots does not pass them by either. */
  lemma FailingReplayEnds(p: Pending, rules: seq<Rule>, repo: Repository)
    requires Settled(p, rules) && Sourced(p, rules) && Fails(p, repo)
    ensures FirstOf(p.snapshots, rules, repo) != Quiet
  {
    hide RuleByRule, Asks, Covered, AskedPaths;
    QuietThroughout(p.snapshots, rules, repo);
    if repo.down.Some? {
      assert p.snapshots[0] in p.snapshots;
      DownFailsFirst(p.snapshots[0], rules, repo, Elements(p.paths));
    } else {
      var detail := ProbeFailure(repo, p.paths).value;
      var path :| path in p.paths && FailsProbe(repo, path, detail);
      var s :| s in p.snapshots && path in AskedPaths(s, rules);
      var i :| 0 <= i < BeforeFinding(s, rules) && path in CandidatesOf(s, rules[i]);
      FailingRuleEnds(s, rules, repo, i, path);
    }
  }

  lemma AddedCovers(p: Pending, s: Snapshot, paths: seq<string>, rules: seq<Rule>)
    requires Settled(p, rules) && Covered(s, rules, Elements(paths)) && Asks(s, rules) && paths != []
    ensures Settled(With(p, s, paths), rules)
    ensures Elements(With(p, s, paths).paths) == Elements(p.paths) + Elements(paths)
  {
    hide Covered, Asks, Fresh;
    var known, next := Elements(p.paths), With(p, s, paths);
    forall x ensures x in next.paths <==> x in p.paths || x in paths {
      FreshMember(paths, known, x);
    }
    var more := Elements(next.paths);
    assert paths[0] in next.paths;
    CoveredMore(s, rules, Elements(paths), more);
    forall x | x in p.snapshots ensures Covered(x, rules, more) && Asks(x, rules) {
      CoveredMore(x, rules, known, more);
    }
  }

  /** What is known of a snapshot whose git-free evaluation meets no error. */
  lemma AskedCovers(s: Snapshot, rules: seq<Rule>, repo: Repository)
    requires !FirstFinding(s, rules, NO_GIT).Failed?
    ensures var paths := AskedPaths(s, rules);
      Covered(s, rules, Elements(paths)) && (paths != [] ==> Asks(s, rules)) &&
      (paths == [] ==> FirstFinding(s, rules, NO_GIT) == RuleByRule(s, rules, repo))
  {
    hide Covered, Asks, RuleByRule, FirstFinding, Candidates;
    CandidatesCover(s, rules, AskedPaths(s, rules));
    if AskedPaths(s, rules) == [] { NothingAsked(s, rules, repo); }
  }

  ghost predicate IsFailing(batch: Pending, replay: Outcome, p: Pending, asked: set<string>, rules: seq<Rule>,
      repo: Repository) {
    Fails(batch, repo) && Settled(batch, rules) && FirstOf(batch.snapshots, rules, repo) == replay && replay != Quiet &&
    Elements(batch.paths) <= Elements(p.paths) + asked
  }

  ghost predicate IsNext(next: Pending, replay: Outcome, p: Pending, asked: set<string>, rules: seq<Rule>,
      repo: Repository) {
    Settled(next, rules) && Sourced(next, rules) && FirstOf(next.snapshots, rules, repo) == replay &&
    Elements(next.paths) <= Elements(p.paths) + asked
  }

  /** A step goes on with the replay's outcome still to come, or is over with it, unless git fails on a batch: then it
      is over with that failure, and the replay with the outcome of the snapshots in that batch. */
  ghost predicate StepAgrees(step: Step, failing: Option<Pending>, p: Pending, own: Outcome, asked: set<string>,
      rules: seq<Rule>, repo: Repository) {
    var replay := Then(FirstOf(p.snapshots, rules, repo), own);
    match failing
    case Some(batch) => step == Over(Settle(batch, rules, repo)) && IsFailing(batch, replay, p, asked, rules, repo)
    case None =>
      match step
      case Going(next) => IsNext(next, replay, p, asked, rules, repo)
      case Over(o) => o != Quiet && o == replay
  }

  /** A batch on which git does not fail has the outcome of the replay. */
  lemma SettleExactly(p: Pending, rules: seq<Rule>, repo: Repository)
    requires Settled(p, rules) && Sourced(p, rules)
    ensures !Fails(p, repo) ==> Settle(p, rules, repo) == FirstOf(p.snapshots, rules, repo)
    ensures Fails(p, repo) ==> IsGitFailure(Settle(p, rules, repo)) && FirstOf(p.snapshots, rules, repo) != Quiet
  {
    hide RuleByRule, Settled, Sourced;
    if Fails(p, repo) { FailingReplayEnds(p, rules, repo); }
  }

  lemma AddedSourced(p: Pending, s: Snapshot, rules: seq<Rule>)
    requires Sourced(p, rules)
    ensures Sourced(With(p, s, AskedPaths(s, rules)), rules)
  {
    hide AskedPaths, Fresh;
    var next := With(p, s, AskedPaths(s, rules));
    assert s in next.snapshots;
    forall q | q in next.paths ensures exists x <- next.snapshots :: q in AskedPaths(x, rules) {
      FreshMember(AskedPaths(s, rules), Elements(p.paths), q);
      if q in p.paths {
        var x :| x in p.snapshots && q in AskedPaths(x, rules);
        assert x in next.snapshots;
      }
    }
  }

  lemma NothingSettled(rules: seq<Rule>)
    ensures Settled(NOTHING, rules) && Sourced(NOTHING, rules) && forall repo :: Settle(NOTHING, rules, repo) == Quiet
  {
  }

  lemma OneSnapshot(s: Snapshot, rules: seq<Rule>, repo: Repository)
    ensures FirstOf([s], rules, repo) == RuleByRule(s, rules, repo) && FirstOf([], rules, repo) == Quiet
  {
    assert [s][1..] == [];
  }

  lemma BufferAgrees(p: Pending, s: Snapshot, found: bool, rules: seq<Rule>, repo: Repository)
    requires Settled(p, rules) && Sourced(p, rules)
    requires var paths := AskedPaths(s, rules); Covered(s, rules, Elements(paths)) && Asks(s, rules) && paths != []
    ensures var paths := AskedPaths(s, rules);
      StepAgrees(BufferStep(p, s, paths, found, rules, repo), FailingBuffer(p, s, paths, found, rules, repo), p,
        RuleByRule(s, rules, repo), Elements(paths), rules, repo)
  {
    hide Covered, Asks, RuleByRule, Fresh, Query, Overflows, Settle, Settled, Sourced, Fails, AskedPaths;
    var paths := AskedPaths(s, rules);
    SettleExactly(p, rules, repo);
    NothingSettled(rules);
    var base := if Overflows(p, paths) then NOTHING else p;
    AddedCovers(base, s, paths, rules);
    AddedSourced(base, s, rules);
    SettleExactly(With(base, s, paths), rules, repo);
    FirstOfConcat(base.snapshots, [s], rules, repo);
    OneSnapshot(s, rules, repo);
  }

  lemma VisitAgrees(p: Pending, s: Snapshot, rules: seq<Rule>, repo: Repository)
    requires Settled(p, rules) && Sourced(p, rules)
    ensures StepAgrees(VisitStep(p, s, rules, repo), FailingIn(p, Visit(s), rules, repo), p, RuleByRule(s, rules, repo),
      AskedBy([Visit(s)], rules), rules, repo)
  {
    hide Covered, Asks, RuleByRule, Settle, Settled, Sourced, Fails, FirstFinding, AskedPaths, BufferStep,
      FailingBuffer;
    SettleExactly(p, rules, repo);
    NothingSettled(rules);
    OneSnapshot(s, rules, repo);
    var paths := AskedPaths(s, rules);
    if !FirstFinding(s, rules, NO_GIT).Failed? {
      AskedCovers(s, rules, repo);
      assert [Visit(s)][1..] == [] && AskedBy([], rules) == {};
      assert AskedBy([Visit(s)], rules) == Elements(paths);
      if paths != [] { BufferAgrees(p, s, FirstFinding(s, rules, NO_GIT).Found?, rules, repo); }
    }
  }

  lemma EntryAgrees(p: Pending, event: WalkEvent, rules: seq<Rule>, repo: Repository)
    requires Settled(p, rules) && Sourced(p, rules)
    ensures StepAgrees(EntryStep(p, event, rules, repo), FailingIn(p, event, rules, repo), p,
      InOrder([event], rules, repo), AskedBy([event], rules), rules, repo)
  {
    hide RuleByRule, Settle, Settled, Sourced, Fails, VisitStep;
    assert [event][1..] == [];
    if event.Visit? {
      VisitAgrees(p, event.snapshot, rules, repo);
    } else {
      SettleExactly(p, rules, repo);
    }
  }

  lemma InOrderStep(events: seq<WalkEvent>, rules: seq<Rule>, repo: Repository)
    requires events != []
    ensures InOrder(events, rules, repo) == Then(InOrder([events[0]], rules, repo), InOrder(events[1..], rules, repo))
    ensures AskedBy(events, rules) == AskedBy([events[0]], rules) + AskedBy(events[1..], rules)
  {
    assert [events[0]][1..] == [];
  }

  lemma {:induction false} BatchedAgrees(events: seq<WalkEvent>, p: Pending, rules: seq<Rule>, repo: Repository)
    requires Settled(p, rules) && Sourced(p, rules)
    ensures var failing := FirstFailing(events, p, rules, repo);
      var outcome := Batched(events, p, rules, repo);
      var replay := Then(FirstOf(p.snapshots, rules, repo), InOrder(events, rules, repo));
      if failing.None? then outcome == replay
      else
        outcome == Settle(failing.value, rules, repo) &&
        IsFailing(failing.value, replay, p, AskedBy(events, rules), rules, repo)
  {
    hide EntryStep, FailingIn, Settle, Settled, Sourced, Fails, FirstOf, AskedBy;
    if events == [] {
      SettleExactly(p, rules, repo);
    } else {
      InOrderStep(events, rules, repo);
      EntryAgrees(p, events[0], rules, repo);
      var step := EntryStep(p, events[0], rules, repo);
      if step.Going? { BatchedAgrees(events[1..], step.pending, rules, repo); }
    }
  }

  /** The fail-fast scan reports the first warning or error of the rule-by-rule replay in walk order, and nothing
      exactly when the replay does, unless git fails on a batch and the replay of that batch ends otherwise. */
  lemma ScanDiffersExactlyWhen(events: seq<WalkEvent>, rules: seq<Rule>, repo: Repository)
    ensures var failing := FirstFailing(events, NOTHING, rules, repo);
      var outcome, replay := Batched(events, NOTHING, rules, repo), InOrder(events, rules, repo);
      (failing.Some? ==>
        Fails(failing.value, repo) && outcome == Settle(failing.value, rules, repo) &&
        replay == FirstOf(failing.value.snapshots, rules, repo)) &&
      (outcome != replay <==>
        failing.Some? && FirstOf(failing.value.snapshots, rules, repo) != Settle(failing.value, rules, repo))
  {
    hide Batched, InOrder, FirstFailing, Settle, Settled, Sourced, Fails;
    NothingSettled(rules);
    BatchedAgrees(events, NOTHING, rules, repo);
    assert FirstOf([], rules, repo) == Quiet;
  }

  /** In terms of the walk alone: such a failure is the failing filter probe of a tracked path that some buffered
      snapshot asks about. While git is down both fail, with texts that may name different paths. */
  lemma ScanAgrees(events: seq<WalkEvent>, rules: seq<Rule>, repo: Repository)
    ensures Agrees(Batched(events, NOTHING, rules, repo), InOrder(events, rules, repo), AskedBy(events, rules), repo)
    ensures (repo.down.None? &&
             forall p <- AskedBy(events, rules) :: IsTracked(repo, p) ==> p !in repo.probeFailures) ==>
      Batched(events, NOTHING, rules, repo) == InOrder(events, rules, repo)
  {
    hide Batched, InOrder, AskedBy, FirstFailing, Settle, Settled, Sourced, Fails;
    NothingSettled(rules);
    BatchedAgrees(events, NOTHING, rules, repo);
    var failing := FirstFailing(events, NOTHING, rules, repo);
    assert FirstOf([], rules, repo) == Quiet;
    if failing.Some? { SettleAgrees(failing.value, rules, repo); }
  }

  /** How the two come apart: the replay ends with the warning of the first snapshot, but the one question about both
      fails on a path of the second, and such a failure is reported without falling back. */
  lemma ProbeFailureComesFirst(a: Snapshot, b: Snapshot, rules: seq<Rule>, repo: Repository, warning: Warning,
      path: string)
    requires repo.down.None? && RuleByRule(a, rules, repo) == Found(warning)
    requires FirstFinding(a, rules, NO_GIT) == Quiet && FirstFinding(b, rules, NO_GIT) == Quiet
    requires path in AskedPaths(b, rules) && IsTracked(repo, path) && path in repo.probeFailures
    requires !Overflows(With(NOTHING, a, AskedPaths(a, rules)), AskedPaths(b, rules))
    ensures var events := [Visit(a), Visit(b)];
      InOrder(events, rules, repo) == Found(warning) &&
      IsProbeFailure(Batched(events, NOTHING, rules, repo), AskedBy(events, rules), repo)
  {
    hide RuleByRule, FirstFinding, AskedPaths, Overflows, Fresh, AskedBy;
    AskedCovers(a, rules, repo);
    var events, pa, pb := [Visit(a), Visit(b)], AskedPaths(a, rules), AskedPaths(b, rules);
    assert events[1..] == [Visit(b)] && [Visit(b)][1..] == [];
    NothingFits(pa);
    var waiting := With(NOTHING, a, pa);
    var both := With(waiting, b, pb);
    assert EntryStep(NOTHING, events[0], rules, repo) == Going(waiting);
    assert EntryStep(waiting, [Visit(b)][0], rules, repo) == Going(both);
    assert Batched([], both, rules, repo) == Settle(both, rules, repo);
    assert Batched([Visit(b)], waiting, rules, repo) == Settle(both, rules, repo);
    FreshMember(pb, Elements(waiting.paths), path);
    assert path in both.paths;
    assert Query(repo, both.paths) == Err(GitFailed(ProbeFailure(repo, both.paths).value));
    ScanAgrees(events, rules, repo);
  }

  const EXAMPLE_RULE := Rule("m", "a", [], [], "", ["b"], "", "", "")

  function ExampleSnapshot(dir: string): Snapshot {
    Snapshot(dir, dir, ["a", "b"], map[], Ok([]))
  }

  const EXAMPLE_REPO :=
    Repository(None, {"x/a", "x/b", "y/a", "y/b"}, {}, map[], map["y/a" := "probe"], true, {"x/a"}, {}, {})

  lemma ExampleSelects()
    ensures Select(["a", "b"], EXAMPLE_RULE) == ["a"] && Present(["b"], ["a", "b"]) == ["b"]
  {
    assert ["a", "b"][1..] == ["b"] && ["b"][1..] == [];
    assert IsManifest(EXAMPLE_RULE, "a");
    assert "a" != "b";
    assert !IsManifest(EXAMPLE_RULE, "b");
    assert ManifestsAmong(["b"], EXAMPLE_RULE) == [];
    assert ManifestsAmong(["a", "b"], EXAMPLE_RULE) == ["a"] + [];
    AscendingIsUnique(SortedOnce(["a"]), ["a"]);
    assert Present(["b"], ["a", "b"]) == ["b"] + [];
  }

  lemma ExampleRule(dir: string)
    requires dir != "."
    ensures Candidates(ExampleSnapshot(dir), EXAMPLE_RULE) == Ok([dir + "/a", dir + "/b"])
    ensures FirstFinding(ExampleSnapshot(dir), [EXAMPLE_RULE], NO_GIT) == Quiet
    ensures forall p :: p in AskedPaths(ExampleSnapshot(dir), [EXAMPLE_RULE]) <==> p == dir + "/a" || p == dir + "/b"
    ensures Evaluate(ExampleSnapshot(dir), EXAMPLE_RULE, NO_GIT) == Ok(None)
  {
    hide Select, Present;
    ExampleSelects();
    var s := ExampleSnapshot(dir);
    assert Blank("");
    assert Look(s, EXAMPLE_RULE) == Ok(View(["a"], ["b"]));
    assert ["a"][1..] == [] && ["b"][1..] == [];
    assert dir + "/" + "a" == dir + "/a" && dir + "/" + "b" == dir + "/b";
    assert RelPaths(dir, []) == [];
    assert RelPaths(dir, ["a"]) == [dir + "/a"] && RelPaths(dir, ["b"]) == [dir + "/b"];
    assert [dir + "/a"] + [dir + "/b"] == [dir + "/a", dir + "/b"];
    assert Candidates(s, EXAMPLE_RULE) == Ok([dir + "/a", dir + "/b"]);
    assert Evaluate(s, EXAMPLE_RULE, NO_GIT) == Ok(None);
    assert [EXAMPLE_RULE][1..] == [];
    assert BeforeFinding(s, [EXAMPLE_RULE]) == 1 + BeforeFinding(s, []);
  }

  lemma ExampleAnswer()
    ensures var answer := Query(EXAMPLE_REPO, ["x/a", "x/b"]);
      answer.Ok? && "x/a" in answer.value && "x/b" !in answer.value
  {
    var paths := ["x/a", "x/b"];
    assert Filters(EXAMPLE_REPO, paths) == [] && ProbeFailure(EXAMPLE_REPO, paths) == None;
    assert paths[0] in paths;
  }

  lemma ExampleChange(changed: set<string>)
    requires "x/a" in changed && "x/b" !in changed
    ensures Evaluate(ExampleSnapshot("x"), EXAMPLE_RULE, GitView(true, changed)) ==
      Ok(Some(Finding(ManifestChange, EXAMPLE_RULE, "a", "x", [])))
  {
    hide Select, Present;
    ExampleSelects();
    assert Look(ExampleSnapshot("x"), EXAMPLE_RULE) == Ok(View(["a"], ["b"]));
    assert ["a"][1..] == [] && ["b"][1..] == [];
    assert "x" + "/" + "a" == "x/a" && "x" + "/" + "b" == "x/b";
    assert FirstChanged("x", ["a"], changed) == Some("a");
    assert FirstChanged("x", ["b"], changed) == FirstChanged("x", [], changed) == None;
    assert Blank("");
  }

  lemma ExampleWarns()
    ensures RuleByRule(ExampleSnapshot("x"), [EXAMPLE_RULE], EXAMPLE_REPO) == Found(Changed("m", "x", "a", ""))
  {
    hide Evaluate, Candidates, Query;
    ExampleRule("x");
    ExampleAnswer();
    assert "x" + "/a" == "x/a" && "x" + "/b" == "x/b";
    ExampleChange(Query(EXAMPLE_REPO, ["x/a", "x/b"]).value);
    assert !IsSpace("a"[0]);
  }

  lemma FreshPair(a: string, b: string, known: set<string>)
    requires a !in known && b !in known
    ensures Fresh([a, b], known) == [a, b] && Bytes([a, b]) == ArgBytes(a) + ArgBytes(b)
  {
    assert [a, b][..1] == [a] && [a][..0] == [];
    assert Fresh([a], known) == [a];
    assert Bytes([a]) == ArgBytes(a);
  }

  lemma ExamplePaths(dir: string)
    requires dir != "."
    ensures AskedPaths(ExampleSnapshot(dir), [EXAMPLE_RULE]) == [dir + "/a", dir + "/b"]
  {
    hide AskedPaths, Select, Present;
    ExampleRule(dir);
    var paths := [dir + "/a", dir + "/b"];
    LessBehind(dir, "/a", "/b");
    AscendingIsUnique(AskedPaths(ExampleSnapshot(dir), [EXAMPLE_RULE]), paths);
  }

  lemma ExampleFits(a: Snapshot)
    ensures !Overflows(With(NOTHING, a, ["x/a", "x/b"]), ["y/a", "y/b"])
  {
    hide Fresh, Bytes;
    FreshPair("x/a", "x/b", {});
    assert Elements(NOTHING.paths) == {};
    var known := With(NOTHING, a, ["x/a", "x/b"]);
    assert known.paths == [] + ["x/a", "x/b"] == ["x/a", "x/b"];
    FreshPair("y/a", "y/b", Elements(known.paths));
    BytesConcat(["x/a", "x/b"], ["y/a", "y/b"]);
  }

  /** So it does for two directories with a manifest and a lockfile each, the first with a changed manifest and the
      second with a manifest that cannot be probed. */
  lemma ProbeFailureExample()
    ensures var events := [Visit(ExampleSnapshot("x")), Visit(ExampleSnapshot("y"))];
      InOrder(events, [EXAMPLE_RULE], EXAMPLE_REPO) == Found(Changed("m", "x", "a", "")) &&
      Batched(events, NOTHING, [EXAMPLE_RULE], EXAMPLE_REPO) == Failed(GitFailed("probe"))
  {
    hide AskedPaths, RuleByRule, FirstFinding, InOrder, Batched, Overflows, With, Candidates, Evaluate, AskedBy,
      ExampleSnapshot;
    var a, b, rules := ExampleSnapshot("x"), ExampleSnapshot("y"), [EXAMPLE_RULE];
    ExampleWarns();
    ExampleRule("x");
    ExampleRule("y");
    ExamplePaths("x");
    ExamplePaths("y");
    assert "x" + "/a" == "x/a" && "x" + "/b" == "x/b" && "y" + "/a" == "y/a" && "y" + "/b" == "y/b";
    ExampleFits(a);
    assert "y/a" in AskedPaths(b, rules);
    ProbeFailureComesFirst(a, b, rules, EXAMPLE_REPO, Changed("m", "x", "a", ""), "y/a");
  }
}
