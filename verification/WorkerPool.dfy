/** internal/app/dashboard_execution.go: analysing repositories on a pool of workers. A dispatcher hands jobs over an
    unbuffered channel, closes it, and waits; every worker writes the slot of the job it has run. */
module WorkerPool {

  /** A job and the slot of its result; `input` stands for the repository and its analysis request. */
  datatype Job = Job(slot: nat, input: string)

  /** One slot: the repository it shows and the outcome of its analysis, empty before the job has run. */
  datatype Analysis = Analysis(input: string, outcome: string)

  /** The analyzer on one request. */
  type Analyzer = string -> string

  function ResultOf(job: Job, analyse: Analyzer): Analysis {
    Analysis(job.input, analyse(job.input))
  }

  datatype Plan = Plan(jobs: seq<Job>, workers: nat, initial: seq<Analysis>)

  /** The results before any job has run. */
  function Start(plan: Plan): seq<Analysis> {
    if plan.initial == [] then seq(|plan.jobs|, _ => BLANK) else plan.initial
  }

  /** Distinct slots inside the results, and a worker when there is work. */
  ghost predicate Proper(plan: Plan) {
    (forall i :: 0 <= i < |plan.jobs| ==> plan.jobs[i].slot < |Start(plan)|) &&
    (forall i, j :: 0 <= i < j < |plan.jobs| ==> plan.jobs[i].slot != plan.jobs[j].slot) &&
    (plan.jobs != [] ==> plan.workers > 0)
  }

  const BLANK := Analysis("", "")

  /** `planDashboardExecution`: one job per repository, and no more workers than jobs or processors. */
  method PlanExecution(repos: seq<string>, processors: int) returns (plan: Plan)
    ensures Proper(plan) && |plan.jobs| == |plan.initial| == |repos| && plan.workers <= |repos|
    ensures forall i :: 0 <= i < |repos| ==>
      plan.jobs[i] == Job(i, repos[i]) && plan.initial[i] == Analysis(repos[i], "")
  {
    var jobs: seq<Job>, initial: seq<Analysis> := [], [];
    for i := 0 to |repos|
      invariant |jobs| == i && |initial| == i
      invariant forall k :: 0 <= k < i ==> jobs[k] == Job(k, repos[k]) && initial[k] == Analysis(repos[k], "")
    {
      jobs := jobs + [Job(i, repos[i])];
      initial := initial + [Analysis(repos[i], "")];
    }
    var workers: nat := if processors < 1 then 1 else processors;
    if |jobs| < workers { workers := |jobs|; }
    plan := Plan(jobs, workers, initial);
  }

  // ----- one job after the other -----

  function Sequential(plan: Plan, n: nat, analyse: Analyzer): (r: seq<Analysis>)
    requires Proper(plan) && n <= |plan.jobs|
    ensures |r| == |Start(plan)|
  {
    if n == 0 then Start(plan)
    else Sequential(plan, n - 1, analyse)[plan.jobs[n - 1].slot := ResultOf(plan.jobs[n - 1], analyse)]
  }

  lemma {:induction false} SequentialSlots(plan: Plan, n: nat, analyse: Analyzer)
    requires Proper(plan) && n <= |plan.jobs|
    ensures var r := Sequential(plan, n, analyse);
      (forall k :: 0 <= k < n ==> r[plan.jobs[k].slot] == ResultOf(plan.jobs[k], analyse)) &&
      forall s :: 0 <= s < |r| && (forall k :: 0 <= k < n ==> plan.jobs[k].slot != s) ==> r[s] == Start(plan)[s]
  {
    if n > 0 { SequentialSlots(plan, n - 1, analyse); }
  }

  // ----- the pool -----

  datatype Worker = Waiting | Busy(job: nat) | Finished

  /** `ran` lists the jobs in the order in which they were completed. */
  datatype State = State(sent: nat, closed: bool, returned: bool, workers: seq<Worker>, results: seq<Analysis>,
    ran: seq<nat>)

  datatype Event = HandOver(worker: nat) | Complete(worker: nat) | CloseChannel | Exit(worker: nat) | Return

  function Launch(plan: Plan): State {
    State(0, false, false, seq(plan.workers, _ => Waiting), Start(plan), [])
  }

  predicate AllFinished(workers: seq<Worker>) {
    forall w :: 0 <= w < |workers| ==> workers[w].Finished?
  }

  /** A send meets a receive; a receive from the closed channel ends the worker; the wait ends with the last worker. */
  predicate Enabled(plan: Plan, s: State, e: Event) {
    !s.returned &&
    match e
    case HandOver(w) => s.sent < |plan.jobs| && w < |s.workers| && s.workers[w].Waiting?
    case Complete(w) => w < |s.workers| && s.workers[w].Busy? && s.workers[w].job < |plan.jobs| &&
      plan.jobs[s.workers[w].job].slot < |s.results|
    case CloseChannel => s.sent == |plan.jobs| && !s.closed
    case Exit(w) => s.closed && w < |s.workers| && s.workers[w].Waiting?
    case Return => s.closed && AllFinished(s.workers)
  }

  function Next(plan: Plan, s: State, e: Event, analyse: Analyzer): State
    requires Enabled(plan, s, e)
  {
    match e
    case HandOver(w) => s.(sent := s.sent + 1, workers := s.workers[w := Busy(s.sent)])
    case Complete(w) =>
      var k := s.workers[w].job;
      s.(workers := s.workers[w := Waiting],
         results := s.results[plan.jobs[k].slot := ResultOf(plan.jobs[k], analyse)], ran := s.ran + [k])
    case CloseChannel => s.(closed := true)
    case Exit(w) => s.(workers := s.workers[w := Finished])
    case Return => s.(returned := true)
  }

  predicate Held(workers: seq<Worker>, k: int) {
    exists w :: 0 <= w < |workers| && workers[w].Busy? && workers[w].job == k
  }

  /** A job that was sent is held by one worker or has been run, not both, and nothing was run twice. */
  predicate JobsAccounted(s: State) {
    (forall w :: 0 <= w < |s.workers| && s.workers[w].Busy? ==>
      s.workers[w].job < s.sent && s.workers[w].job !in s.ran) &&
    (forall v, w :: 0 <= v < w < |s.workers| && s.workers[v].Busy? && s.workers[w].Busy? ==>
      s.workers[v].job != s.workers[w].job) &&
    (forall k <- s.ran :: k < s.sent) &&
    (forall i, j :: 0 <= i < j < |s.ran| ==> s.ran[i] != s.ran[j]) &&
    forall k :: 0 <= k < s.sent && k !in s.ran ==> Held(s.workers, k)
  }

  /** The slots of the jobs that ran hold their results, all others are as they were. */
  ghost predicate SlotsRight(plan: Plan, s: State, analyse: Analyzer)
    requires Proper(plan)
  {
    |s.results| == |Start(plan)| &&
    (forall k <- s.ran :: k < |plan.jobs| ==> s.results[plan.jobs[k].slot] == ResultOf(plan.jobs[k], analyse)) &&
    forall i :: 0 <= i < |s.results| && (forall k <- s.ran :: k < |plan.jobs| ==> plan.jobs[k].slot != i) ==>
      s.results[i] == Start(plan)[i]
  }

  ghost predicate Inv(plan: Plan, s: State, analyse: Analyzer)
    requires Proper(plan)
  {
    |s.workers| == plan.workers && s.sent <= |plan.jobs| && JobsAccounted(s) && SlotsRight(plan, s, analyse) &&
    (s.closed ==> s.sent == |plan.jobs|) &&
      (!s.closed ==> forall w :: 0 <= w < |s.workers| ==> !s.workers[w].Finished?) &&
    (s.returned ==> s.closed && AllFinished(s.workers))
  }

  lemma LaunchInv(plan: Plan, analyse: Analyzer)
    requires Proper(plan)
    ensures Inv(plan, Launch(plan), analyse)
  {
  }

  lemma HandOverKeeps(plan: Plan, s: State, w: nat, analyse: Analyzer)
    requires Proper(plan) && Inv(plan, s, analyse) && Enabled(plan, s, HandOver(w))
    ensures Inv(plan, Next(plan, s, HandOver(w), analyse), analyse)
  {
    hide Start, Proper;
    var t := Next(plan, s, HandOver(w), analyse);
    assert t.workers[w] == Busy(s.sent);
    forall k | 0 <= k < t.sent && k !in t.ran ensures Held(t.workers, k) {
      if k < s.sent {
        var v :| 0 <= v < |s.workers| && s.workers[v] == Busy(k);
        assert t.workers[v] == Busy(k);
      }
    }
  }

  lemma CompleteAccounts(s: State, t: State, w: nat, job: nat)
    requires JobsAccounted(s) && w < |s.workers| && s.workers[w] == Busy(job)
    requires t.sent == s.sent && t.workers == s.workers[w := Waiting] && t.ran == s.ran + [job]
    ensures JobsAccounted(t)
  {
    forall k | 0 <= k < t.sent && k !in t.ran ensures Held(t.workers, k) {
      var v :| 0 <= v < |s.workers| && s.workers[v] == Busy(k);
      assert t.workers[v] == Busy(k);
    }
  }

  lemma CompleteFills(plan: Plan, s: State, t: State, job: nat, analyse: Analyzer)
    requires Proper(plan) && SlotsRight(plan, s, analyse) && job < |plan.jobs| && job !in s.ran
    requires t.ran == s.ran + [job] && t.results == s.results[plan.jobs[job].slot := ResultOf(plan.jobs[job], analyse)]
    ensures SlotsRight(plan, t, analyse)
  {
    hide Start, ResultOf;
    forall i | 0 <= i < |t.results| && (forall k <- t.ran :: k < |plan.jobs| ==> plan.jobs[k].slot != i)
      ensures t.results[i] == Start(plan)[i]
    {
      assert job in t.ran;
      assert forall k <- s.ran :: k in t.ran;
    }
  }

  lemma CompleteKeeps(plan: Plan, s: State, w: nat, analyse: Analyzer)
    requires Proper(plan) && Inv(plan, s, analyse) && Enabled(plan, s, Complete(w))
    ensures Inv(plan, Next(plan, s, Complete(w), analyse), analyse)
  {
    hide Start;
    var t := Next(plan, s, Complete(w), analyse);
    var job := s.workers[w].job;
    CompleteAccounts(s, t, w, job);
    CompleteFills(plan, s, t, job, analyse);
  }

  lemma ExitKeeps(plan: Plan, s: State, w: nat, analyse: Analyzer)
    requires Proper(plan) && Inv(plan, s, analyse) && Enabled(plan, s, Exit(w))
    ensures Inv(plan, Next(plan, s, Exit(w), analyse), analyse)
  {
    hide Start, Proper;
    var t := Next(plan, s, Exit(w), analyse);
    forall k | 0 <= k < t.sent && k !in t.ran ensures Held(t.workers, k) {
      var v :| 0 <= v < |s.workers| && s.workers[v] == Busy(k);
      assert t.workers[v] == Busy(k);
    }
  }

  lemma StepKeepsInv(plan: Plan, s: State, e: Event, analyse: Analyzer)
    requires Proper(plan) && Inv(plan, s, analyse) && Enabled(plan, s, e)
    ensures Inv(plan, Next(plan, s, e, analyse), analyse)
  {
    match e
    case HandOver(w) => HandOverKeeps(plan, s, w, analyse);
    case Complete(w) => CompleteKeeps(plan, s, w, analyse);
    case CloseChannel =>
    case Exit(w) => ExitKeeps(plan, s, w, analyse);
    case Return =>
  }

  // ----- progress -----

  /** Before the pool has returned, some step is possible: it cannot deadlock. */
  lemma NeverStuck(plan: Plan, s: State, analyse: Analyzer) returns (e: Event)
    requires Proper(plan) && Inv(plan, s, analyse) && !s.returned
    ensures Enabled(plan, s, e)
  {
    if w :| 0 <= w < |s.workers| && s.workers[w].Busy? {
      e := Complete(w);
    } else if s.sent < |plan.jobs| {
      assert s.workers[0].Waiting?;
      e := HandOver(0);
    } else if !s.closed {
      e := CloseChannel;
    } else if w :| 0 <= w < |s.workers| && s.workers[w].Waiting? {
      e := Exit(w);
    } else {
      e := Return;
    }
  }

  function Load(w: Worker): nat {
    match w case Busy(_) => 2 case Waiting => 1 case Finished => 0
  }

  function Weight(workers: seq<Worker>): nat {
    if workers == [] then 0 else Load(workers[0]) + Weight(workers[1..])
  }

  /** The steps still to come: every event lowers it by one. */
  function StepsLeft(plan: Plan, s: State): int {
    2 * (|plan.jobs| - s.sent) + Weight(s.workers) + (if s.closed then 0 else 1) + if s.returned then 0 else 1
  }

  lemma {:induction false} WeightUpdate(workers: seq<Worker>, i: nat, w: Worker)
    requires i < |workers|
    ensures Weight(workers[i := w]) == Weight(workers) - Load(workers[i]) + Load(w)
  {
    if i > 0 {
      assert workers[i := w][1..] == workers[1..][i - 1 := w];
      WeightUpdate(workers[1..], i - 1, w);
    } else {
      assert workers[i := w][1..] == workers[1..];
    }
  }

  lemma EveryStepCounts(plan: Plan, s: State, e: Event, analyse: Analyzer)
    requires Enabled(plan, s, e)
    ensures StepsLeft(plan, Next(plan, s, e, analyse)) == StepsLeft(plan, s) - 1
  {
    match e
    case HandOver(w) => WeightUpdate(s.workers, w, Busy(s.sent));
    case Complete(w) => WeightUpdate(s.workers, w, Waiting);
    case CloseChannel =>
    case Exit(w) => WeightUpdate(s.workers, w, Finished);
    case Return =>
  }

  // ----- whole schedules -----

  predicate IsSchedule(plan: Plan, s: State, events: seq<Event>, analyse: Analyzer)
    decreases |events|
  {
    events == [] || (Enabled(plan, s, events[0]) &&
      IsSchedule(plan, Next(plan, s, events[0], analyse), events[1..], analyse))
  }

  function After(plan: Plan, s: State, events: seq<Event>, analyse: Analyzer): State
    requires IsSchedule(plan, s, events, analyse)
    decreases |events|
  {
    if events == [] then s else After(plan, Next(plan, s, events[0], analyse), events[1..], analyse)
  }

  lemma {:induction false} ScheduleKeepsInv(plan: Plan, s: State, events: seq<Event>, analyse: Analyzer)
    requires Proper(plan) && Inv(plan, s, analyse) && IsSchedule(plan, s, events, analyse)
    ensures Inv(plan, After(plan, s, events, analyse), analyse)
    ensures StepsLeft(plan, After(plan, s, events, analyse)) == StepsLeft(plan, s) - |events|
    decreases |events|
  {
    hide Inv, Enabled, Next, StepsLeft, Proper;
    if events != [] {
      StepKeepsInv(plan, s, events[0], analyse);
      EveryStepCounts(plan, s, events[0], analyse);
      ScheduleKeepsInv(plan, Next(plan, s, events[0], analyse), events[1..], analyse);
    }
  }

  lemma {:induction false} WeightOfWaiting(n: nat)
    ensures Weight(seq(n, _ => Waiting)) == n
  {
    if n > 0 {
      assert seq<Worker>(n, _ => Waiting)[1..] == seq<Worker>(n - 1, _ => Waiting);
      WeightOfWaiting(n - 1);
    }
  }

  lemma {:induction false} FinishedWeighNothing(workers: seq<Worker>)
    requires AllFinished(workers)
    ensures Weight(workers) == 0
  {
    if workers != [] { FinishedWeighNothing(workers[1..]); }
  }

  /** A schedule that cannot go on has returned, after the same number of steps every time. */
  lemma EveryScheduleEnds(plan: Plan, events: seq<Event>, analyse: Analyzer)
    requires Proper(plan) && IsSchedule(plan, Launch(plan), events, analyse)
    ensures |events| <= 2 * |plan.jobs| + plan.workers + 2
    ensures var s := After(plan, Launch(plan), events, analyse);
      s.returned <==> forall e :: !Enabled(plan, s, e)
    ensures After(plan, Launch(plan), events, analyse).returned <==> |events| == 2 * |plan.jobs| + plan.workers + 2
  {
    hide Proper, Next, IsSchedule, After;
    LaunchInv(plan, analyse);
    ScheduleKeepsInv(plan, Launch(plan), events, analyse);
    WeightOfWaiting(plan.workers);
    var s := After(plan, Launch(plan), events, analyse);
    if !s.returned {
      var e := NeverStuck(plan, s, analyse);
    } else {
      FinishedWeighNothing(s.workers);
    }
  }

  lemma AllRan(s: State, n: nat)
    requires JobsAccounted(s) && s.sent == n && AllFinished(s.workers)
    ensures forall k: int :: k in s.ran <==> 0 <= k < n
  {
    forall k: int | 0 <= k < n ensures k in s.ran {
      assert k in s.ran || Held(s.workers, k);
    }
  }

  /** What is in a slot before its job has run. */
  lemma StartSlots(plan: Plan)
    ensures plan.initial != [] ==> Start(plan) == plan.initial
    ensures plan.initial == [] ==>
      |Start(plan)| == |plan.jobs| && forall s :: 0 <= s < |plan.jobs| ==> Start(plan)[s] == BLANK
  {
  }

  /** Slot by slot: a job's slot holds the result of that job, any other what the plan put there, or nothing when the
      plan put nothing anywhere. */
  lemma SlotsOfTheJobs(plan: Plan, analyse: Analyzer)
    requires Proper(plan)
    ensures var r := Sequential(plan, |plan.jobs|, analyse);
      |r| == (if plan.initial == [] then |plan.jobs| else |plan.initial|) &&
      (forall k :: 0 <= k < |plan.jobs| ==>
        r[plan.jobs[k].slot] == Analysis(plan.jobs[k].input, analyse(plan.jobs[k].input))) &&
      forall s :: 0 <= s < |r| && (forall k :: 0 <= k < |plan.jobs| ==> plan.jobs[k].slot != s) ==>
        r[s] == if plan.initial == [] then Analysis("", "") else plan.initial[s]
  {
    hide Start, Sequential;
    StartSlots(plan);
    SequentialSlots(plan, |plan.jobs|, analyse);
  }

  /** Whatever the schedule: when the pool returns, every job has run exactly once and the results are those of
      running the jobs one after the other, with all other slots untouched. */
  lemma PoolEqualsSequential(plan: Plan, events: seq<Event>, analyse: Analyzer)
    requires Proper(plan) && IsSchedule(plan, Launch(plan), events, analyse)
    requires After(plan, Launch(plan), events, analyse).returned
    ensures var s := After(plan, Launch(plan), events, analyse);
      s.results == Sequential(plan, |plan.jobs|, analyse) &&
      (forall k :: k in s.ran <==> 0 <= k < |plan.jobs|) && forall i, j :: 0 <= i < j < |s.ran| ==> s.ran[i] != s.ran[j]
  {
    hide Next, IsSchedule, After, Start, ResultOf;
    LaunchInv(plan, analyse);
    ScheduleKeepsInv(plan, Launch(plan), events, analyse);
    var s := After(plan, Launch(plan), events, analyse);
    AllRan(s, |plan.jobs|);
    SequentialSlots(plan, |plan.jobs|, analyse);
    var r := Sequential(plan, |plan.jobs|, analyse);
    forall i | 0 <= i < |r| ensures s.results[i] == r[i] {
      if k :| 0 <= k < |plan.jobs| && plan.jobs[k].slot == i {
        assert k in s.ran;
      }
    }
  }
}
