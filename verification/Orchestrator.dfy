/**
 The task loop of an investigation (src/acip/core/orchestration/orchestrator.py): plan truncation,
 follow-up tasks from triage, the time budget, and the status derived from the outcomes.
 */
module Orchestrator {
  import opened Prelude
  import opened Sorting
  import opened Planners

  datatype Status = Completed | Partial | Failed | Halted

  datatype RunStatus = Pending | Running | Succeeded | RunFailed | Skipped

  /** One proposed follow-up of the triage analysis. */
  datatype Proposal = Proposal(taskType: string, priority: int)

  /** What an agent run gives back; an agent that raises or times out gives nothing. */
  datatype AgentResult = AgentResult(status: RunStatus, analysis: Option<seq<Proposal>>)

  /** `given` is the time a run was given; a task skipped because the budget was used up has none. */
  datatype Outcome = Outcome(task: Task, status: RunStatus, given: Option<int>)

  const REPORT_GRACE_SECONDS := 30

  // ---------------------------------------------------------------------------------------------
  // The derived status
  // ---------------------------------------------------------------------------------------------

  predicate Any(outcomes: seq<Outcome>, status: RunStatus) {
    exists o | o in outcomes :: o.status == status
  }

  function DeriveStatus(outcomes: seq<Outcome>, halted: bool): Status {
    if outcomes == [] then Failed
    else
      var failed, succeeded := Any(outcomes, RunFailed), Any(outcomes, Succeeded);
      if halted then Halted
      else if failed && succeeded then Partial
      else if failed then Failed
      else Completed
  }

  // ---------------------------------------------------------------------------------------------
  // Follow-up tasks
  // ---------------------------------------------------------------------------------------------

  /** The registered proposals in priority order, numbered from `step`; a second triage is never scheduled. */
  function ProposedTasks(plan: seq<Proposal>, registered: set<string>, step: nat): seq<Task> {
    if plan == [] then []
    else
      var kind := plan[0].taskType;
      if kind == TRIAGE || kind !in registered then ProposedTasks(plan[1..], registered, step)
      else [Task("t" + Digits(step) + "-" + kind, kind)] + ProposedTasks(plan[1..], registered, step + 1)
  }

  function IfRegistered(registered: set<string>, id: string, agent: string): seq<Task> {
    if agent in registered then [Task(id, agent)] else []
  }

  function FallbackTasks(hasLogs: bool, registered: set<string>): seq<Task> {
    (if hasLogs && "log_analysis" in registered
     then [Task("t2-log-analysis", "log_analysis")] + IfRegistered(registered, "t3-mitre", "mitre") else [])
    + IfRegistered(registered, "t4-correlation", "correlation")
    + IfRegistered(registered, "t9-report", REPORTING)
  }

  /** The proposals of an analysis in priority order; equal priorities keep their order. */
  function Prioritized(proposals: seq<Proposal>): seq<Proposal> {
    SortBy(proposals, (p: Proposal) => p.priority)
  }

  function InterpretTriage(result: AgentResult, hasLogs: bool, registered: set<string>): seq<Task> {
    if result.status != Succeeded || result.analysis.None? then FallbackTasks(hasLogs, registered)
    else
      var tasks := ProposedTasks(Prioritized(result.analysis.value), registered, 2);
      if Schedules(tasks, REPORTING) then tasks else tasks + IfRegistered(registered, "t9-report", REPORTING)
  }

  /** `interpret_triage_result`, whose loop numbers the tasks it creates. */
  method InterpretTriageResult(result: AgentResult, hasLogs: bool, registered: set<string>) returns (tasks: seq<Task>)
    ensures tasks == InterpretTriage(result, hasLogs, registered)
  {
    if result.status != Succeeded || result.analysis.None? {
      return FallbackTasks(hasLogs, registered);
    }
    var plan := Prioritized(result.analysis.value);
    var step := 2;
    tasks := [];
    for i := 0 to |plan|
      invariant tasks + ProposedTasks(plan[i..], registered, step) == ProposedTasks(plan, registered, 2)
    {
      var kind := plan[i].taskType;
      assert plan[i..][0] == plan[i] && plan[i..][1..] == plan[i + 1..];
      if kind == TRIAGE || kind !in registered {
        continue;
      }
      tasks := tasks + [Task("t" + Digits(step) + "-" + kind, kind)];
      step := step + 1;
    }
    if !Schedules(tasks, REPORTING) && REPORTING in registered {
      tasks := tasks + [Task("t9-report", REPORTING)];
    }
  }

  /** The created tasks whose agent is not scheduled yet. */
  function NotScheduled(created: seq<Task>, scheduled: seq<Task>): seq<Task> {
    if created == [] then []
    else (if Schedules(scheduled, created[0].agent) then [] else [created[0]]) + NotScheduled(created[1..], scheduled)
  }

  lemma {:induction false} ProposedTasksMean(plan: seq<Proposal>, registered: set<string>, step: nat)
    ensures forall t :: t in ProposedTasks(plan, registered, step) ==>
                          && t.agent in registered && t.agent != TRIAGE
                          && exists p :: p in plan && p.taskType == t.agent
    ensures forall p :: p in plan && p.taskType in registered && p.taskType != TRIAGE ==>
                          Schedules(ProposedTasks(plan, registered, step), p.taskType)
  {
    if plan != [] {
      var kind := plan[0].taskType;
      var tasks := ProposedTasks(plan, registered, step);
      assert plan == [plan[0]] + plan[1..];
      if kind == TRIAGE || kind !in registered {
        ProposedTasksMean(plan[1..], registered, step);
      } else {
        var rest := ProposedTasks(plan[1..], registered, step + 1);
        ProposedTasksMean(plan[1..], registered, step + 1);
        assert tasks[0].agent == kind && tasks[0] in tasks;
        assert forall t :: t in rest ==> t in tasks;
      }
    }
  }

  lemma {:induction false} NotScheduledMeans(created: seq<Task>, scheduled: seq<Task>)
    ensures forall t :: t in NotScheduled(created, scheduled) <==> t in created && !Schedules(scheduled, t.agent)
  {
    if created != [] {
      NotScheduledMeans(created[1..], scheduled);
      assert created == [created[0]] + created[1..];
    }
  }

  /** Everything triage schedules can be run, and a report is always among it if it can be. */
  lemma {:induction false} TriageSchedulesReport(result: AgentResult, hasLogs: bool, registered: set<string>)
    ensures var tasks := InterpretTriage(result, hasLogs, registered);
            && (forall t :: t in tasks ==> t.agent in registered && t.agent != TRIAGE)
            && (REPORTING in registered ==> Schedules(tasks, REPORTING))
  {
    var tasks := InterpretTriage(result, hasLogs, registered);
    if result.status == Succeeded && result.analysis.Some? {
      ProposedTasksMean(Prioritized(result.analysis.value), registered, 2);
    }
    if REPORTING in registered {
      assert Task("t9-report", REPORTING) in tasks || Schedules(tasks, REPORTING);
    }
  }

  // ---------------------------------------------------------------------------------------------
  // The loop
  // ---------------------------------------------------------------------------------------------

  /** A planner's plan is cut to the limit; without a planner the plan is the triage task alone. */
  function InitialPlan(planner: Option<seq<Task>>, limit: nat): seq<Task> {
    if planner.None? then [Task("t1-triage", TRIAGE)]
    else if |planner.value| > limit then planner.value[..limit]
    else planner.value
  }

  /** The tasks triage adds behind those already planned, within the limit. */
  function Added(plan: seq<Task>, created: seq<Task>, limit: nat): seq<Task> {
    var additions := NotScheduled(created, plan);
    var slots := limit - |plan|;
    if slots < |additions| then additions[..Max(0, slots)] else additions
  }

  /** The environment of one execution: the clock at each iteration, and what each agent run gives back. */
  datatype World = World(clock: int -> int, result: int -> Option<AgentResult>)

  /** The clock never runs backwards. */
  ghost predicate Monotone(world: World) {
    forall i, j :: 0 <= i <= j ==> world.clock(i) <= world.clock(j)
  }

  function StatusOf(result: Option<AgentResult>): RunStatus {
    if result.Some? then result.value.status else RunFailed
  }

  /** What becomes of a task: past the deadline only the report is run, with its grace. */
  function OutcomeOf(task: Task, now: int, deadline: int, result: Option<AgentResult>): Outcome {
    var remaining, isReport := deadline - now, task.agent == REPORTING;
    if remaining <= 0 && !isReport then Outcome(task, Skipped, None)
    else Outcome(task, StatusOf(result), Some(if isReport then Max(remaining, REPORT_GRACE_SECONDS) else remaining))
  }

  function OutcomeAt(tasks: seq<Task>, world: World, deadline: int, i: nat): Outcome
    requires i < |tasks|
  {
    OutcomeOf(tasks[i], world.clock(i), deadline, world.result(i))
  }

  /** The outcomes of the first `n` tasks. */
  ghost function Outcomes(tasks: seq<Task>, world: World, deadline: int, n: nat): (outcomes: seq<Outcome>)
    requires n <= |tasks|
    ensures |outcomes| == n
  {
    if n == 0 then [] else Outcomes(tasks, world, deadline, n - 1) + [OutcomeAt(tasks, world, deadline, n - 1)]
  }

  lemma {:induction false} OutcomesAre(tasks: seq<Task>, world: World, deadline: int, n: nat)
    requires n <= |tasks|
    ensures forall i :: 0 <= i < n ==> Outcomes(tasks, world, deadline, n)[i] == OutcomeAt(tasks, world, deadline, i)
  {
    if n > 0 {
      OutcomesAre(tasks, world, deadline, n - 1);
    }
  }

  /** Whether the first task is a triage that ran and succeeded. */
  predicate TriageSucceeded(plan: seq<Task>, world: World, deadline: int) {
    && plan != [] && plan[0].agent == TRIAGE
    && OutcomeAt(plan, world, deadline, 0).status == Succeeded && world.result(0).Some?
  }

  /** The tasks of an execution: the plan, then whatever its triage adds. */
  function TasksOf(plan: seq<Task>, world: World, deadline: int, adaptive: bool, hasLogs: bool,
                   registered: set<string>, limit: nat): seq<Task>
  {
    plan + if adaptive && TriageSucceeded(plan, world, deadline)
           then Added(plan, InterpretTriage(world.result(0).value, hasLogs, registered), limit) else []
  }

  /**
   The list grows by one block of registered agents that were not on the plan, and never past the limit. A planner's
   plan is within the limit; the plan of one triage task fits every limit the settings allow.
   */
  lemma {:induction false} AdditionsAreNew(plan: seq<Task>, world: World, deadline: int, adaptive: bool,
                                           hasLogs: bool, registered: set<string>, limit: nat)
    ensures var all := TasksOf(plan, world, deadline, adaptive, hasLogs, registered, limit);
            && plan <= all && |all| <= Max(|plan|, limit) && (plan == [] ==> all == [])
            && forall t :: t in all[|plan|..] ==>
                             t.agent in registered && t.agent != TRIAGE && !Schedules(plan, t.agent)
  {
    var all := TasksOf(plan, world, deadline, adaptive, hasLogs, registered, limit);
    if adaptive && TriageSucceeded(plan, world, deadline) {
      var created := InterpretTriage(world.result(0).value, hasLogs, registered);
      TriageSchedulesReport(world.result(0).value, hasLogs, registered);
      NotScheduledMeans(created, plan);
      assert all[|plan|..] == Added(plan, created, limit);
      assert Added(plan, created, limit) <= NotScheduled(created, plan);
    }
  }

  predicate Registered(tasks: seq<Task>, registered: set<string>) {
    forall i :: 0 <= i < |tasks| ==> tasks[i].agent in registered
  }

  lemma {:induction false} EveryTaskIsRegistered(plan: seq<Task>, world: World, deadline: int, adaptive: bool,
                                                 hasLogs: bool, registered: set<string>, limit: nat)
    requires Registered(plan, registered)
    ensures var all := TasksOf(plan, world, deadline, adaptive, hasLogs, registered, limit);
            plan <= all && (plan == [] ==> all == []) && Registered(all, registered)
  {
    AdditionsAreNew(plan, world, deadline, adaptive, hasLogs, registered, limit);
    var all := TasksOf(plan, world, deadline, adaptive, hasLogs, registered, limit);
    forall i | |plan| <= i < |all|
      ensures all[i].agent in registered
    {
      assert all[i] == all[|plan|..][i - |plan|];
    }
  }

  lemma {:induction false} InitialPlanFits(planner: Option<seq<Task>>, limit: nat)
    requires limit >= 1
    ensures |InitialPlan(planner, limit)| <= limit
  {
  }

  predicate AnySkipped(outcomes: seq<Outcome>) {
    exists o | o in outcomes :: o.given.None?
  }

  /** The outcomes of the first `n` tasks are on record. */
  ghost predicate Executed(tasks: seq<Task>, world: World, deadline: int, n: nat, outcomes: seq<Outcome>, halted: bool)
  {
    n <= |tasks| && outcomes == Outcomes(tasks, world, deadline, n) && halted == AnySkipped(outcomes)
  }

  lemma {:induction false} ExecutedNext(tasks: seq<Task>, world: World, deadline: int, n: nat, outcomes: seq<Outcome>,
                                        halted: bool)
    requires n < |tasks| && Executed(tasks, world, deadline, n, outcomes, halted)
    ensures var o := OutcomeAt(tasks, world, deadline, n);
            Executed(tasks, world, deadline, n + 1, outcomes + [o], halted || o.given.None?)
  {
    SkippedAfter(outcomes, OutcomeAt(tasks, world, deadline, n));
  }

  /** What the outcome of the first task says about all tasks. */
  lemma {:induction false} FollowUpsOf(plan: seq<Task>, world: World, deadline: int, adaptive: bool, hasLogs: bool,
                                       registered: set<string>, limit: nat)
    requires plan != []
    ensures var o, result := OutcomeAt(plan, world, deadline, 0), world.result(0);
            && (o.status == Succeeded ==> result.Some?)
            && TasksOf(plan, world, deadline, adaptive, hasLogs, registered, limit)
               == plan + if adaptive && o.task.agent == TRIAGE && o.status == Succeeded
                         then Added(plan, InterpretTriage(result.value, hasLogs, registered), limit) else []
  {
  }

  // ---------------------------------------------------------------------------------------------
  // What is scheduled and what is run, told by the proposals and the clock
  // ---------------------------------------------------------------------------------------------

  /** The proposal is for a registered agent other than triage. */
  ghost predicate IsTaken(proposals: seq<Proposal>, registered: set<string>, i: int) {
    0 <= i < |proposals| && proposals[i].taskType != "triage" && proposals[i].taskType in registered
  }

  /** A lower priority number goes first, and among equal ones what was proposed first. */
  ghost predicate GoesFirst(proposals: seq<Proposal>, i: int, j: int) {
    && 0 <= i < |proposals| && 0 <= j < |proposals|
    && (proposals[i].priority < proposals[j].priority || (proposals[i].priority == proposals[j].priority && i < j))
  }

  ghost predicate InPriorityOrder(proposals: seq<Proposal>, places: seq<int>) {
    forall k, l :: 0 <= k < l < |places| ==> GoesFirst(proposals, places[k], places[l])
  }

  ghost predicate AreTaken(proposals: seq<Proposal>, registered: set<string>, places: seq<int>) {
    forall i :: i in places <==> IsTaken(proposals, registered, i)
  }

  /** The tasks are those of the proposals at these places, numbered from `step`. */
  ghost predicate AreTasksOf(proposals: seq<Proposal>, tasks: seq<Task>, places: seq<int>, step: nat) {
    && |tasks| == |places|
    && forall k :: 0 <= k < |tasks| ==>
         && 0 <= places[k] < |proposals|
         && tasks[k].agent == proposals[places[k]].taskType
         && tasks[k].id == "t" + Digits(step + k) + "-" + tasks[k].agent
  }

  /** Every proposal taken becomes one task, in priority order; a report is put behind them if none was proposed. */
  ghost predicate AreProposed(proposals: seq<Proposal>, registered: set<string>, created: seq<Task>, places: seq<int>) {
    && InPriorityOrder(proposals, places) && AreTaken(proposals, registered, places)
    && |places| <= |created| && AreTasksOf(proposals, created[..|places|], places, 2)
    && created[|places|..] == (if "reporting" in registered && !ProposesReport(proposals)
                               then [Task("t9-report", "reporting")] else [])
  }

  ghost predicate ProposesReport(proposals: seq<Proposal>) {
    exists i :: 0 <= i < |proposals| && proposals[i].taskType == "reporting"
  }

  /** Without an analysis: what can be run of these four, in the order of their numbers. */
  ghost predicate AreFallback(hasLogs: bool, registered: set<string>, created: seq<Task>) {
    (forall t :: t in created <==> IsFallback(hasLogs, registered, t)) && InIdOrder(created)
  }

  ghost predicate IsFallback(hasLogs: bool, registered: set<string>, t: Task) {
    var useLogs := hasLogs && "log_analysis" in registered;
    || (t == Task("t2-log-analysis", "log_analysis") && useLogs)
    || (t == Task("t3-mitre", "mitre") && useLogs && "mitre" in registered)
    || (t == Task("t4-correlation", "correlation") && "correlation" in registered)
    || (t == Task("t9-report", "reporting") && "reporting" in registered)
  }

  ghost predicate InIdOrder(tasks: seq<Task>) {
    && (forall i :: 0 <= i < |tasks| ==> |tasks[i].id| > 1)
    && forall i, j :: 0 <= i < j < |tasks| ==> tasks[i].id[1] < tasks[j].id[1]
  }

  ghost predicate AreFollowUps(analysis: Option<seq<Proposal>>, hasLogs: bool, registered: set<string>,
                               created: seq<Task>)
  {
    match analysis
    case None => AreFallback(hasLogs, registered, created)
    case Some(proposals) => exists places :: AreProposed(proposals, registered, created, places)
  }

  ghost predicate AreUnplanned(plan: seq<Task>, created: seq<Task>, places: seq<int>) {
    && (forall k, l :: 0 <= k < l < |places| ==> places[k] < places[l])
    && forall i :: i in places <==> 0 <= i < |created| && IsUnplanned(plan, created[i])
  }

  ghost predicate IsUnplanned(plan: seq<Task>, task: Task) {
    forall i :: 0 <= i < |plan| ==> plan[i].agent != task.agent
  }

  /** Of the tasks created, those for agents that are not on the plan are added in order as far as there is room. */
  ghost predicate AreAdded(plan: seq<Task>, created: seq<Task>, limit: nat, added: seq<Task>) {
    exists places :: AreUnplanned(plan, created, places) && AreFirstOf(plan, created, limit, added, places)
  }

  ghost predicate AreFirstOf(plan: seq<Task>, created: seq<Task>, limit: nat, added: seq<Task>, places: seq<int>) {
    && |added| <= |places|
    && |added| == (if |plan| + |places| <= limit then |places| else if |plan| < limit then limit - |plan| else 0)
    && forall k :: 0 <= k < |added| ==> 0 <= places[k] < |created| && added[k] == created[places[k]]
  }

  /** As much of the planner's plan as the limit allows, or the triage alone. */
  ghost predicate IsPlan(planner: Option<seq<Task>>, limit: nat, plan: seq<Task>) {
    match planner
    case None => plan == [Task("t1-triage", "triage")]
    case Some(full) => plan <= full && (plan == full || |plan| == limit) && |plan| <= limit
  }

  /** What a triage that comes first, is in time and succeeds adds if tasks may be added. */
  ghost predicate IsSchedule(planner: Option<seq<Task>>, remaining: int, result: Option<AgentResult>, adaptive: bool,
                             hasLogs: bool, registered: set<string>, limit: nat, plan: seq<Task>, tasks: seq<Task>)
  {
    && IsPlan(planner, limit, plan) && plan <= tasks
    && if adaptive && plan != [] && plan[0].agent == "triage" && remaining > 0
          && result.Some? && result.value.status == Succeeded
       then exists created :: AreFollowUps(result.value.analysis, hasLogs, registered, created)
                              && AreAdded(plan, created, limit, tasks[|plan|..])
       else tasks == plan
  }

  /**
   A task is skipped exactly if no time remains and it is not the report.  A run is given the whole remaining time, a
   report no less than 30 seconds; what does not end in a result has failed.
   */
  ghost predicate IsRun(task: Task, remaining: int, result: Option<AgentResult>, o: Outcome) {
    && o.task == task
    && (o.given.None? <==> remaining <= 0 && task.agent != "reporting")
    && match o.given
       case None => o.status == Skipped
       case Some(given) =>
         && given == (if task.agent == "reporting" && remaining < 30 then 30 else remaining)
         && o.status == (match result case None => RunFailed case Some(r) => r.status)
  }

  ghost predicate AreRuns(tasks: seq<Task>, world: World, deadline: int, outcomes: seq<Outcome>) {
    && |outcomes| == |tasks|
    && forall i :: 0 <= i < |tasks| ==> IsRun(tasks[i], deadline - world.clock(i), world.result(i), outcomes[i])
  }

  lemma {:induction false} OutcomesAreRuns(tasks: seq<Task>, world: World, deadline: int)
    ensures AreRuns(tasks, world, deadline, Outcomes(tasks, world, deadline, |tasks|))
  {
    OutcomesAre(tasks, world, deadline, |tasks|);
  }

  lemma {:induction false} PlacesTaken(plan: seq<Proposal>, registered: set<string>, step: nat,
                                       proposals: seq<Proposal>, places: seq<int>)
    returns (taken: seq<int>)
    requires Lists(plan, proposals, places) && InPriorityOrder(proposals, places)
    ensures AreTasksOf(proposals, ProposedTasks(plan, registered, step), taken, step)
    ensures InPriorityOrder(proposals, taken)
    ensures forall i :: i in taken <==> i in places && IsTaken(proposals, registered, i)
  {
    if plan == [] {
      taken := [];
    } else {
      assert places == [places[0]] + places[1..] && plan[0] == proposals[places[0]];
      if IsTaken(proposals, registered, places[0]) {
        var rest := PlacesTaken(plan[1..], registered, step + 1, proposals, places[1..]);
        assert forall i :: i in rest ==> i in places[1..];
        TakenNext(proposals, places[0], places[1..], ProposedTasks(plan[1..], registered, step + 1), rest, step);
        taken := [places[0]] + rest;
      } else {
        taken := PlacesTaken(plan[1..], registered, step, proposals, places[1..]);
      }
    }
  }

  lemma {:induction false} TakenNext(proposals: seq<Proposal>, place: int, places: seq<int>, tasks: seq<Task>,
                                     taken: seq<int>, step: nat)
    requires InPriorityOrder(proposals, [place] + places) && 0 <= place < |proposals|
    requires InPriorityOrder(proposals, taken) && forall i :: i in taken ==> i in places
    requires AreTasksOf(proposals, tasks, taken, step + 1)
    ensures InPriorityOrder(proposals, [place] + taken)
    ensures var kind := proposals[place].taskType;
            AreTasksOf(proposals, [Task("t" + Digits(step) + "-" + kind, kind)] + tasks, [place] + taken, step)
  {
    var all, longer := [place] + places, [place] + taken;
    forall k, l | 0 <= k < l < |longer|
      ensures GoesFirst(proposals, longer[k], longer[l])
    {
      if k == 0 {
        assert longer[l] == taken[l - 1] && taken[l - 1] in places;
        var m :| 0 <= m < |places| && places[m] == taken[l - 1];
        assert all[0] == place && all[m + 1] == places[m] && GoesFirst(proposals, all[0], all[m + 1]);
      } else {
        assert longer[k] == taken[k - 1] && longer[l] == taken[l - 1];
      }
    }
    TaskNext(proposals, place, tasks, taken, step);
  }

  lemma {:induction false} TaskNext(proposals: seq<Proposal>, place: int, tasks: seq<Task>, taken: seq<int>, step: nat)
    requires 0 <= place < |proposals| && AreTasksOf(proposals, tasks, taken, step + 1)
    ensures var kind := proposals[place].taskType;
            AreTasksOf(proposals, [Task("t" + Digits(step) + "-" + kind, kind)] + tasks, [place] + taken, step)
  {
    var kind := proposals[place].taskType;
    var longer, places := [Task("t" + Digits(step) + "-" + kind, kind)] + tasks, [place] + taken;
    forall k | 0 < k < |longer|
      ensures && longer[k].agent == proposals[places[k]].taskType
              && longer[k].id == "t" + Digits(step + k) + "-" + longer[k].agent
    {
      assert longer[k] == tasks[k - 1] && places[k] == taken[k - 1];
    }
  }

  lemma {:induction false} PriorityPlaces(proposals: seq<Proposal>) returns (places: seq<int>)
    ensures Lists(Prioritized(proposals), proposals, places)
    ensures InPriorityOrder(proposals, places) && AllPlaces(|proposals|, places)
  {
    var key := (p: Proposal) => p.priority;
    places := SortByPlaces(proposals, key);
    forall k, l | 0 <= k < l < |places|
      ensures GoesFirst(proposals, places[k], places[l])
    {
      assert GoesBefore(proposals, key, places[k], places[l]);
    }
  }

  lemma {:induction false} ReportIsProposed(proposals: seq<Proposal>, registered: set<string>, tasks: seq<Task>,
                                            places: seq<int>)
    requires AreTasksOf(proposals, tasks, places, 2) && AreTaken(proposals, registered, places)
    requires REPORTING in registered
    ensures Schedules(tasks, REPORTING) <==> ProposesReport(proposals)
  {
    assert |REPORTING| == 9 && |"triage"| == 6;
    if ProposesReport(proposals) {
      var i :| 0 <= i < |proposals| && proposals[i].taskType == "reporting";
      assert IsTaken(proposals, registered, i) && i in places;
      var k :| 0 <= k < |places| && places[k] == i;
      assert tasks[k] in tasks;
    }
  }

  lemma {:induction false} FourInIdOrder(a: Task, b: Task, c: Task, d: Task, wa: bool, wb: bool, wc: bool, wd: bool)
    requires |a.id| > 1 && |b.id| > 1 && |c.id| > 1 && |d.id| > 1
    requires a.id[1] < b.id[1] < c.id[1] < d.id[1]
    ensures var all := If(wa, a) + If(wb, b) + If(wc, c) + If(wd, d);
            && InIdOrder(all)
            && forall t :: t in all <==> (t == a && wa) || (t == b && wb) || (t == c && wc) || (t == d && wd)
  {
    var ab := NextInIdOrder(If(wa, a), b, wb);
    var abc := NextInIdOrder(ab, c, wc);
    var abcd := NextInIdOrder(abc, d, wd);
  }

  lemma {:induction false} NextInIdOrder(tasks: seq<Task>, task: Task, wanted: bool) returns (longer: seq<Task>)
    requires InIdOrder(tasks) && |task.id| > 1
    requires tasks == [] || tasks[|tasks| - 1].id[1] < task.id[1]
    ensures longer == tasks + If(wanted, task)
    ensures InIdOrder(longer) && (longer == [] || longer[|longer| - 1].id[1] <= task.id[1])
    ensures forall t :: t in longer <==> t in tasks || (t == task && wanted)
  {
    longer := if wanted then tasks + [task] else tasks;
  }

  lemma {:induction false} FallbackMeans(hasLogs: bool, registered: set<string>)
    ensures AreFallback(hasLogs, registered, FallbackTasks(hasLogs, registered))
  {
    var useLogs := hasLogs && "log_analysis" in registered;
    var t2, t3 := Task("t2-log-analysis", "log_analysis"), Task("t3-mitre", "mitre");
    var t4, t9 := Task("t4-correlation", "correlation"), Task("t9-report", "reporting");
    FourInIdOrder(t2, t3, t4, t9, useLogs, useLogs && "mitre" in registered, "correlation" in registered,
                  "reporting" in registered);
    FallbackIs(hasLogs, registered, t2, t3, t4, t9);
  }

  lemma {:induction false} FallbackIs(hasLogs: bool, registered: set<string>, t2: Task, t3: Task, t4: Task, t9: Task)
    requires t2 == Task("t2-log-analysis", "log_analysis") && t3 == Task("t3-mitre", "mitre")
    requires t4 == Task("t4-correlation", "correlation") && t9 == Task("t9-report", "reporting")
    ensures var useLogs := hasLogs && "log_analysis" in registered;
            FallbackTasks(hasLogs, registered)
            == If(useLogs, t2) + If(useLogs && "mitre" in registered, t3)
               + If("correlation" in registered, t4) + If("reporting" in registered, t9)
  {
  }

  lemma {:induction false} ProposalsMean(proposals: seq<Proposal>, registered: set<string>, created: seq<Task>)
    returns (taken: seq<int>)
    requires var tasks := ProposedTasks(Prioritized(proposals), registered, 2);
             created == if Schedules(tasks, REPORTING) then tasks
                        else tasks + IfRegistered(registered, "t9-report", REPORTING)
    ensures AreProposed(proposals, registered, created, taken)
  {
    var places := PriorityPlaces(proposals);
    var tasks := ProposedTasks(Prioritized(proposals), registered, 2);
    taken := PlacesTaken(Prioritized(proposals), registered, 2, proposals, places);
    if REPORTING in registered {
      ReportIsProposed(proposals, registered, tasks, taken);
    }
    assert created[..|taken|] == tasks;
  }

  /** What triage creates, told by its proposals, or by what is registered when it has no analysis. */
  lemma {:induction false} TriageMeans(result: AgentResult, hasLogs: bool, registered: set<string>)
    ensures AreFollowUps(if result.status == Succeeded then result.analysis else None, hasLogs, registered,
                         InterpretTriage(result, hasLogs, registered))
  {
    var created := InterpretTriage(result, hasLogs, registered);
    match if result.status == Succeeded then result.analysis else None
    case None =>
      FallbackMeans(hasLogs, registered);
    case Some(proposals) =>
      var taken := ProposalsMean(proposals, registered, created);
      assert AreProposed(proposals, registered, created, taken);
  }

  /** The places of the created tasks that are kept because their agents are not on the plan. */
  ghost predicate ArePlacesKept(plan: seq<Task>, created: seq<Task>, kept: seq<Task>, places: seq<int>) {
    AreUnplanned(plan, created, places) && Lists(kept, created, places)
  }

  lemma {:induction false} UnplannedPlaces(created: seq<Task>, plan: seq<Task>) returns (places: seq<int>)
    ensures ArePlacesKept(plan, created, NotScheduled(created, plan), places)
  {
    if created == [] {
      places := [];
    } else {
      places := UnplannedPlaces(created[1..], plan);
      places := KeptNext(plan, created[0], created[1..], NotScheduled(created[1..], plan), places,
                         !Schedules(plan, created[0].agent));
      assert created == [created[0]] + created[1..];
    }
  }

  lemma {:induction false} KeptNext(plan: seq<Task>, task: Task, created: seq<Task>, kept: seq<Task>, rest: seq<int>,
                                    isNew: bool)
    returns (places: seq<int>)
    requires ArePlacesKept(plan, created, kept, rest) && isNew == !Schedules(plan, task.agent)
    ensures ArePlacesKept(plan, [task] + created, (if isNew then [task] else []) + kept, places)
  {
    UnplannedExactly(plan, task);
    UnplannedShifted(plan, task, created, rest, isNew);
    ListsShifted(kept, task, created, rest, isNew);
    places := if isNew then [0] + Shifted(rest) else Shifted(rest);
  }

  lemma {:induction false} UnplannedExactly(plan: seq<Task>, task: Task)
    ensures !Schedules(plan, task.agent) <==> IsUnplanned(plan, task)
  {
  }

  lemma {:induction false} UnplannedShifted(plan: seq<Task>, task: Task, created: seq<Task>, places: seq<int>,
                                            isNew: bool)
    requires AreUnplanned(plan, created, places) && (isNew <==> IsUnplanned(plan, task))
    ensures AreUnplanned(plan, [task] + created, if isNew then [0] + Shifted(places) else Shifted(places))
  {
    var shifted := Shifted(places);
    var all := if isNew then [0] + shifted else shifted;
    forall i
      ensures i in all <==> 0 <= i < |created| + 1 && IsUnplanned(plan, ([task] + created)[i])
    {
      assert i in all <==> (i == 0 && isNew) || i in shifted;
      InShifted(places, i);
      if i > 0 {
        assert i - 1 in places <==> i - 1 < |created| && IsUnplanned(plan, created[i - 1]);
      }
    }
    forall k, l | 0 <= k < l < |all|
      ensures all[k] < all[l]
    {
      if isNew {
        assert 0 < l && places[l - 1] in places;
      }
    }
  }

  lemma {:induction false} InShifted(places: seq<int>, i: int)
    ensures i in Shifted(places) <==> i - 1 in places
  {
    if i - 1 in places {
      var k :| 0 <= k < |places| && places[k] == i - 1;
      assert Shifted(places)[k] == i;
    }
  }

  lemma {:induction false} ListsShifted(r: seq<Task>, task: Task, created: seq<Task>, places: seq<int>, isNew: bool)
    requires Lists(r, created, places)
    ensures Lists((if isNew then [task] else []) + r, [task] + created,
                  if isNew then [0] + Shifted(places) else Shifted(places))
  {
    var longer, all := [task] + created, if isNew then [0] + Shifted(places) else Shifted(places);
    var kept := (if isNew then [task] else []) + r;
    forall k | 0 <= k < |kept|
      ensures 0 <= all[k] < |longer| && kept[k] == longer[all[k]]
    {
      var k' := if isNew then k - 1 else k;
      if k' >= 0 {
        assert kept[k] == r[k'] == created[places[k']] && all[k] == places[k'] + 1;
      }
    }
  }

  lemma {:induction false} AddedMeans(plan: seq<Task>, created: seq<Task>, limit: nat)
    ensures AreAdded(plan, created, limit, Added(plan, created, limit))
  {
    var places := UnplannedPlaces(created, plan);
    assert AreFirstOf(plan, created, limit, Added(plan, created, limit), places);
  }

  /** The list of an execution, told by the plan, the clock and what triage proposes. */
  lemma {:induction false} TasksAreSchedule(planner: Option<seq<Task>>, world: World, deadline: int, adaptive: bool,
                                            hasLogs: bool, registered: set<string>, limit: nat)
    ensures var plan := InitialPlan(planner, limit);
            IsSchedule(planner, deadline - world.clock(0), world.result(0), adaptive, hasLogs, registered, limit, plan,
                       TasksOf(plan, world, deadline, adaptive, hasLogs, registered, limit))
  {
    var plan := InitialPlan(planner, limit);
    var tasks := TasksOf(plan, world, deadline, adaptive, hasLogs, registered, limit);
    assert |TRIAGE| == 6 && |REPORTING| == 9;
    if adaptive && TriageSucceeded(plan, world, deadline) {
      var result := world.result(0).value;
      TriageMeans(result, hasLogs, registered);
      AddedMeans(plan, InterpretTriage(result, hasLogs, registered), limit);
      assert tasks[|plan|..] == Added(plan, InterpretTriage(result, hasLogs, registered), limit);
    }
  }

  /** The tasks are those that had to be scheduled, and each was run or skipped as its time allowed. */
  ghost predicate IsExecution(planner: Option<seq<Task>>, deadline: int, world: World, adaptive: bool, hasLogs: bool,
                              registered: set<string>, limit: nat, tasks: seq<Task>, outcomes: seq<Outcome>)
  {
    && AreRuns(tasks, world, deadline, outcomes)
    && IsSchedule(planner, deadline - world.clock(0), world.result(0), adaptive, hasLogs, registered, limit,
                  InitialPlan(planner, limit), tasks)
  }

  lemma {:induction false} ExecutionMeans(planner: Option<seq<Task>>, deadline: int, world: World, adaptive: bool,
                                          hasLogs: bool, registered: set<string>, limit: nat)
    ensures var tasks := TasksOf(InitialPlan(planner, limit), world, deadline, adaptive, hasLogs, registered, limit);
            IsExecution(planner, deadline, world, adaptive, hasLogs, registered, limit, tasks,
                        Outcomes(tasks, world, deadline, |tasks|))
  {
    var tasks := TasksOf(InitialPlan(planner, limit), world, deadline, adaptive, hasLogs, registered, limit);
    TasksAreSchedule(planner, world, deadline, adaptive, hasLogs, registered, limit);
    OutcomesAreRuns(tasks, world, deadline);
  }

  class OrchestratorAgent {
    const registered: set<string>
    const maxSeconds: nat
    const maxTasks: nat
    const adaptive: bool
    var outcomes: seq<Outcome>
    var halted: bool

    constructor (registered: set<string>, maxSeconds: nat, maxTasks: nat, adaptive: bool)
      ensures this.registered == registered && this.maxSeconds == maxSeconds
      ensures this.maxTasks == maxTasks && this.adaptive == adaptive
      ensures outcomes == [] && !halted
    {
      this.registered, this.maxSeconds, this.maxTasks, this.adaptive := registered, maxSeconds, maxTasks, adaptive;
      outcomes, halted := [], false;
    }

    method Begin(planner: Option<seq<Task>>) returns (plan: seq<Task>)
      ensures plan == InitialPlan(planner, maxTasks)
    {
      if planner.Some? {
        plan := planner.value;
        if |plan| > maxTasks {
          plan := plan[..maxTasks];
        }
      } else {
        plan := [Task("t1-triage", TRIAGE)];
      }
    }

    /** Runs a task, or skips it when the budget is used up; the report gets its grace past the deadline. */
    method RunOrSkip(task: Task, now: int, deadline: int, result: Option<AgentResult>) returns (outcome: Outcome)
      requires task.agent in registered
      modifies this
      ensures outcome == OutcomeOf(task, now, deadline, result)
      ensures outcomes == old(outcomes) + [outcome] && halted == (old(halted) || outcome.given.None?)
    {
      var remaining := deadline - now;
      var isReport := task.agent == REPORTING;
      if remaining <= 0 && !isReport {
        halted := true;
        outcome := Outcome(task, Skipped, None);
      } else {
        var budget := if isReport then Max(remaining, REPORT_GRACE_SECONDS) else remaining;
        outcome := Outcome(task, StatusOf(result), Some(budget));
      }
      outcomes := outcomes + [outcome];
    }

    /** What a finished first task adds to the list. */
    method FollowUps(scheduled: seq<Task>, outcome: Outcome, result: Option<AgentResult>, isAdaptive: bool,
                     hasLogs: bool)
      returns (tasks: seq<Task>)
      requires outcome.status == Succeeded ==> result.Some?
      ensures tasks == scheduled + if isAdaptive && outcome.task.agent == TRIAGE && outcome.status == Succeeded
                                   then Added(scheduled, InterpretTriage(result.value, hasLogs, registered), maxTasks)
                                       else []
    {
      tasks := scheduled;
      if outcome.task.agent == TRIAGE && outcome.status == Succeeded {
        var created := InterpretTriageResult(result.value, hasLogs, registered);
        if isAdaptive {
          tasks := tasks + Added(tasks, created, maxTasks);
        }
      }
    }

    method Execute(planner: Option<seq<Task>>, hasLogs: bool, started: int, world: World)
      returns (status: Status, tasks: seq<Task>)
      requires Registered(InitialPlan(planner, maxTasks), registered)
      modifies this
      ensures tasks == TasksOf(InitialPlan(planner, maxTasks), world, started + maxSeconds, adaptive || planner.None?,
                               hasLogs, registered, maxTasks)
      ensures outcomes == Outcomes(tasks, world, started + maxSeconds, |tasks|)
      ensures halted == AnySkipped(outcomes)
      ensures status == DeriveStatus(outcomes, halted)
    {
      outcomes, halted := [], false;
      var plan := Begin(planner);
      tasks := RunTasks(plan, adaptive || planner.None?, hasLogs, started + maxSeconds, world);
      status := DeriveStatus(outcomes, halted);
    }

    /** The loop of an execution; the first task can make the list longer. */
    method RunTasks(plan: seq<Task>, isAdaptive: bool, hasLogs: bool, deadline: int, world: World)
      returns (tasks: seq<Task>)
      requires Registered(plan, registered) && outcomes == [] && !halted
      modifies this
      ensures tasks == TasksOf(plan, world, deadline, isAdaptive, hasLogs, registered, maxTasks)
      ensures outcomes == Outcomes(tasks, world, deadline, |tasks|) && halted == AnySkipped(outcomes)
    {
      tasks := plan;
      var index := 0;
      ghost var all := TasksOf(plan, world, deadline, isAdaptive, hasLogs, registered, maxTasks);
      EveryTaskIsRegistered(plan, world, deadline, isAdaptive, hasLogs, registered, maxTasks);
      while index < |tasks|
        invariant index <= |tasks| && plan <= all && tasks == if index == 0 then plan else all
        invariant Executed(all, world, deadline, index, outcomes, halted)
        decreases |all| - index
      {
        assert tasks[index] == all[index];
        ExecutedNext(all, world, deadline, index, outcomes, halted);
        var outcome := RunOrSkip(tasks[index], world.clock(index), deadline, world.result(index));
        assert Executed(all, world, deadline, index + 1, outcomes, halted);
        if index == 0 {
          FollowUpsOf(plan, world, deadline, isAdaptive, hasLogs, registered, maxTasks);
          tasks := FollowUps(tasks, outcome, world.result(0), isAdaptive, hasLogs);
        }
        index := index + 1;
      }
      assert tasks == all;
    }
  }

  lemma {:induction false} SkippedAfter(outcomes: seq<Outcome>, outcome: Outcome)
    ensures AnySkipped(outcomes + [outcome]) == (AnySkipped(outcomes) || outcome.given.None?)
  {
    assert outcome in outcomes + [outcome];
    if AnySkipped(outcomes) {
      var o :| o in outcomes && o.given.None?;
      assert o in outcomes + [outcome];
    }
  }

  // ---------------------------------------------------------------------------------------------
  // Whole executions
  // ---------------------------------------------------------------------------------------------

  /** With a clock that never runs backwards, once a task was skipped exactly the reports are still run. */
  lemma {:induction false} OnlyReportsRunLate(tasks: seq<Task>, world: World, deadline: int, i: nat, j: nat)
    requires Monotone(world) && i <= j < |tasks|
    requires Outcomes(tasks, world, deadline, |tasks|)[i].given.None?
    ensures Outcomes(tasks, world, deadline, |tasks|)[j].given.Some? <==> tasks[j].agent == REPORTING
  {
    OutcomesAre(tasks, world, deadline, |tasks|);
    assert world.clock(i) <= world.clock(j);
  }

  /** The report is never skipped, and every run is given some time. */
  lemma {:induction false} ReportsAreNeverSkipped(tasks: seq<Task>, world: World, deadline: int, i: nat)
    requires i < |tasks|
    ensures var o := Outcomes(tasks, world, deadline, |tasks|)[i];
            && (tasks[i].agent == REPORTING ==> o.given.Some? && o.given.value >= REPORT_GRACE_SECONDS)
            && (o.given.Some? ==> o.given.value > 0)
  {
    OutcomesAre(tasks, world, deadline, |tasks|);
  }

  /** What every status of an execution says about its tasks. */
  lemma {:induction false} StatusIsExact(tasks: seq<Task>, world: World, deadline: int)
    ensures var outcomes := Outcomes(tasks, world, deadline, |tasks|);
            var status := DeriveStatus(outcomes, AnySkipped(outcomes));
            var late := exists i :: 0 <= i < |tasks| && OutcomeAt(tasks, world, deadline, i).given.None?;
            var failed := exists i :: 0 <= i < |tasks| && OutcomeAt(tasks, world, deadline, i).status == RunFailed;
            var succeeded := exists i :: 0 <= i < |tasks| && OutcomeAt(tasks, world, deadline, i).status == Succeeded;
            && (status == Halted <==> late)
            && (status == Completed <==> tasks != [] && !late && !failed)
            && (status == Partial <==> !late && failed && succeeded)
            && (status == Failed <==> tasks == [] || (!late && failed && !succeeded))
  {
    OutcomesAre(tasks, world, deadline, |tasks|);
    var outcomes := Outcomes(tasks, world, deadline, |tasks|);
    forall i | 0 <= i < |tasks|
      ensures OutcomeAt(tasks, world, deadline, i) in outcomes
    {
      assert outcomes[i] == OutcomeAt(tasks, world, deadline, i);
    }
  }

  /** No run outlasts the time it was given, and skipping takes none. */
  ghost predicate Timely(tasks: seq<Task>, world: World, deadline: int) {
    forall i, j :: 0 <= i < |tasks| && j == i + 1 ==>
      var given := OutcomeAt(tasks, world, deadline, i).given;
      world.clock(j) <= world.clock(i) + if given.Some? then given.value else 0
  }

  function Reports(tasks: seq<Task>, n: nat): nat
    requires n <= |tasks|
  {
    if n == 0 then 0 else Reports(tasks, n - 1) + if tasks[n - 1].agent == REPORTING then 1 else 0
  }

  /** An execution overruns its deadline by no more than one grace for each report. */
  lemma {:induction false} OverrunIsBounded(tasks: seq<Task>, world: World, deadline: int, n: nat)
    requires n <= |tasks| && Timely(tasks, world, deadline)
    ensures world.clock(n) <= Max(world.clock(0), deadline) + REPORT_GRACE_SECONDS * Reports(tasks, n)
  {
    if n > 0 {
      OverrunIsBounded(tasks, world, deadline, n - 1);
      var given := OutcomeAt(tasks, world, deadline, n - 1).given;
      assert world.clock(n) <= world.clock(n - 1) + if given.Some? then given.value else 0;
    }
  }

  // ---------------------------------------------------------------------------------------------
  // When the report is cut off
  // ---------------------------------------------------------------------------------------------

  /** How many proposals become tasks ahead of the first report. */
  function AheadOfReport(plan: seq<Proposal>, registered: set<string>): nat {
    if plan == [] || plan[0].taskType == REPORTING then 0
    else AheadOfReport(plan[1..], registered)
         + if plan[0].taskType in registered && plan[0].taskType != TRIAGE then 1 else 0
  }

  lemma {:induction false} FirstReportAt(plan: seq<Proposal>, registered: set<string>, step: nat)
    requires REPORTING in registered
    ensures var tasks, n := ProposedTasks(plan, registered, step), AheadOfReport(plan, registered);
            && n <= |tasks| && (n < |tasks| ==> tasks[n].agent == REPORTING)
            && forall i :: 0 <= i < n ==> tasks[i].agent != REPORTING
  {
    if plan != [] {
      FirstReportAt(plan[1..], registered, step);
      FirstReportAt(plan[1..], registered, step + 1);
    }
  }

  /** How many fallback tasks are ahead of the report. */
  function AheadInFallback(hasLogs: bool, registered: set<string>): nat {
    (if !(hasLogs && "log_analysis" in registered) then 0 else if "mitre" in registered then 2 else 1)
    + if "correlation" in registered then 1 else 0
  }

  /** How many tasks a successful triage puts ahead of the report. */
  function Ahead(result: AgentResult, hasLogs: bool, registered: set<string>): nat {
    if result.analysis.Some? then AheadOfReport(Prioritized(result.analysis.value), registered)
    else AheadInFallback(hasLogs, registered)
  }

  /** `n` is where the first report stands. */
  ghost predicate FirstReport(tasks: seq<Task>, n: nat) {
    n < |tasks| && tasks[n].agent == REPORTING && forall i :: 0 <= i < n ==> tasks[i].agent != REPORTING
  }

  lemma {:induction false} FallbackReportAt(hasLogs: bool, registered: set<string>)
    requires REPORTING in registered
    ensures FirstReport(FallbackTasks(hasLogs, registered), AheadInFallback(hasLogs, registered))
  {
    assert |"log_analysis"| == 12 && |"mitre"| == 5 && |"correlation"| == 11 && |REPORTING| == 9;
  }

  /** What a successful triage schedules has its first report behind the tasks ahead of it. */
  lemma {:induction false} TriageReportAt(result: AgentResult, hasLogs: bool, registered: set<string>)
    requires REPORTING in registered && result.status == Succeeded
    ensures FirstReport(InterpretTriage(result, hasLogs, registered), Ahead(result, hasLogs, registered))
  {
    if result.analysis.None? {
      FallbackReportAt(hasLogs, registered);
    } else {
      var proposals := Prioritized(result.analysis.value);
      FirstReportAt(proposals, registered, 2);
      var tasks, n := ProposedTasks(proposals, registered, 2), AheadOfReport(proposals, registered);
      if n < |tasks| {
        assert tasks[n] in tasks;
      }
    }
  }

  /** How many created tasks that are not on the plan are ahead of the first report. */
  function NewAhead(created: seq<Task>, plan: seq<Task>): nat {
    if created == [] || created[0].agent == REPORTING then 0
    else NewAhead(created[1..], plan) + if Schedules(plan, created[0].agent) then 0 else 1
  }

  lemma {:induction false} NewAheadIsFirst(created: seq<Task>, plan: seq<Task>)
    requires Schedules(created, REPORTING) && !Schedules(plan, REPORTING)
    ensures FirstReport(NotScheduled(created, plan), NewAhead(created, plan))
  {
    if created[0].agent != REPORTING {
      assert created == [created[0]] + created[1..];
      NewAheadIsFirst(created[1..], plan);
    }
  }

  lemma {:induction false} CutHasReport(additions: seq<Task>, n: nat, slots: nat)
    requires FirstReport(additions, n)
    ensures Schedules(additions[..Min(|additions|, slots)], REPORTING) <==> n < slots
  {
    if n < slots {
      assert additions[..Min(|additions|, slots)][n] == additions[n];
    }
  }

  lemma {:induction false} SchedulesBoth(a: seq<Task>, b: seq<Task>, agent: string)
    ensures Schedules(a + b, agent) <==> Schedules(a, agent) || Schedules(b, agent)
  {
  }

  lemma {:induction false} ReportIsAddedExactly(plan: seq<Task>, created: seq<Task>, limit: nat)
    requires !Schedules(plan, REPORTING)
    ensures Schedules(Added(plan, created, limit), REPORTING)
            <==> Schedules(created, REPORTING) && |plan| + NewAhead(created, plan) < limit
  {
    var additions, slots := NotScheduled(created, plan), Max(0, limit - |plan|);
    assert Added(plan, created, limit) == additions[..Min(|additions|, slots)];
    NotScheduledMeans(created, plan);
    if Schedules(created, REPORTING) {
      NewAheadIsFirst(created, plan);
      CutHasReport(additions, NewAhead(created, plan), slots);
    }
  }

  /**
   A report is promised to every investigation.  Whatever the plan, one is scheduled exactly if it is on the plan, or if
   new tasks are allowed, an agent for it is registered, the triage succeeds in time, and the limit leaves room for the
   plan, the new tasks ahead of the report, and the report.
   */
  lemma {:induction false} ReportIsScheduledExactly(plan: seq<Task>, world: World, deadline: int, adaptive: bool,
                                                    hasLogs: bool, registered: set<string>, limit: nat)
    ensures Schedules(TasksOf(plan, world, deadline, adaptive, hasLogs, registered, limit), REPORTING)
            <==> || Schedules(plan, REPORTING)
                 || (&& adaptive && REPORTING in registered && TriageSucceeded(plan, world, deadline)
                     && |plan| + NewAhead(InterpretTriage(world.result(0).value, hasLogs, registered), plan) < limit)
  {
    var all := TasksOf(plan, world, deadline, adaptive, hasLogs, registered, limit);
    if adaptive && TriageSucceeded(plan, world, deadline) {
      var created := InterpretTriage(world.result(0).value, hasLogs, registered);
      TriageSchedulesReport(world.result(0).value, hasLogs, registered);
      SchedulesBoth(plan, Added(plan, created, limit), REPORTING);
      if !Schedules(plan, REPORTING) {
        ReportIsAddedExactly(plan, created, limit);
      }
    }
  }

  lemma {:induction false} NewAheadIsPosition(created: seq<Task>, plan: seq<Task>, n: nat)
    requires FirstReport(created, n) && forall t :: t in created ==> !Schedules(plan, t.agent)
    ensures NewAhead(created, plan) == n
  {
    if n > 0 {
      assert created[0] in created && created == [created[0]] + created[1..];
      NewAheadIsPosition(created[1..], plan, n - 1);
    }
  }

  /**
   Without a planner the plan is the triage alone: the triage has to succeed in time, and the limit leaves room for it,
   the tasks ahead of the report, and the report.
   */
  lemma {:induction false} UnplannedReportExactly(world: World, deadline: int, hasLogs: bool, registered: set<string>,
                                                  limit: nat)
    ensures var plan := InitialPlan(None, limit);
            Schedules(TasksOf(plan, world, deadline, true, hasLogs, registered, limit), REPORTING)
            <==> && REPORTING in registered && TriageSucceeded(plan, world, deadline)
                 && Ahead(world.result(0).value, hasLogs, registered) + 2 <= limit
  {
    var plan := InitialPlan(None, limit);
    ReportIsScheduledExactly(plan, world, deadline, true, hasLogs, registered, limit);
    if TriageSucceeded(plan, world, deadline) && REPORTING in registered {
      var result := world.result(0).value;
      TriageSchedulesReport(result, hasLogs, registered);
      TriageReportAt(result, hasLogs, registered);
      NewAheadIsPosition(InterpretTriage(result, hasLogs, registered), plan, Ahead(result, hasLogs, registered));
    }
  }

  /** With room for two tasks, one registered proposal is enough to lose the report. */
  lemma {:induction false} ReportCanBeCut(world: World, hasLogs: bool)
    requires world.clock(0) == 0
    requires world.result(0) == Some(AgentResult(Succeeded, Some([Proposal("mitre", 1)])))
    ensures !Schedules(TasksOf(InitialPlan(None, 2), world, 300, true, hasLogs, {TRIAGE, "mitre", REPORTING}, 2),
                       REPORTING)
  {
    var proposals := [Proposal("mitre", 1)];
    assert Prioritized(proposals) == proposals;
    assert AheadOfReport(proposals[1..], {TRIAGE, "mitre", REPORTING}) == 0;
    assert |"mitre"| != |REPORTING| && |"mitre"| != |TRIAGE|;
    UnplannedReportExactly(world, 300, hasLogs, {TRIAGE, "mitre", REPORTING}, 2);
  }

  /** Without a planner, a triage that times out leaves an investigation without a report, whatever the limit. */
  lemma {:induction false} FailedTriageLosesReport(world: World, hasLogs: bool, registered: set<string>, limit: nat)
    requires world.clock(0) == 0 && world.result(0) == None
    ensures !Schedules(TasksOf(InitialPlan(None, limit), world, 300, true, hasLogs, registered, limit), REPORTING)
    ensures TasksOf(InitialPlan(None, limit), world, 300, true, hasLogs, registered, limit)
         == [Task("t1-triage", TRIAGE)]
  {
    UnplannedReportExactly(world, 300, hasLogs, registered, limit);
  }

  /** A triage without a usable analysis falls back on four tasks, and a limit of four cuts the last, the report. */
  lemma {:induction false} FallbackCanBeCut(world: World)
    requires world.clock(0) == 0 && world.result(0) == Some(AgentResult(Succeeded, None))
    ensures var registered := {TRIAGE, "log_analysis", "mitre", "correlation", REPORTING};
            !Schedules(TasksOf(InitialPlan(None, 4), world, 300, true, true, registered, 4), REPORTING)
  {
    UnplannedReportExactly(world, 300, true, {TRIAGE, "log_analysis", "mitre", "correlation", REPORTING}, 4);
  }

  // ---------------------------------------------------------------------------------------------
  // The report under the planners of the application
  // ---------------------------------------------------------------------------------------------

  /** The tasks under the planner the application builds; triage adds tasks to those of the adaptive one only. */
  function DeployedTasks(enabled: bool, s: Submission, world: World, deadline: int, registered: set<string>, limit: nat)
    : seq<Task>
  {
    TasksOf(InitialPlan(Some(DeployedPlan(enabled, s, registered)), limit), world, deadline, enabled, s.logLike,
            registered, limit)
  }

  lemma {:induction false} CutLosesReport(plan: seq<Task>, limit: nat)
    requires EndsWithReport(plan)
    ensures Schedules(InitialPlan(Some(plan), limit), REPORTING) <==> |plan| <= limit
  {
    var front, cut := plan[..|plan| - 1], InitialPlan(Some(plan), limit);
    if |plan| > limit {
      assert forall t :: t in cut ==> t in front;
    } else {
      assert plan[|plan| - 1] in plan;
    }
  }

  /**
   In the application the report depends on neither the triage nor the clock: it is scheduled exactly if its agent is
   registered and the limit does not cut the planner's plan.
   */
  lemma {:induction false} DeployedReportExactly(enabled: bool, s: Submission, world: World, deadline: int,
                                                 registered: set<string>, limit: nat)
    ensures Schedules(DeployedTasks(enabled, s, world, deadline, registered, limit), REPORTING)
            <==> REPORTING in registered && |DeployedPlan(enabled, s, registered)| <= limit
  {
    var full := DeployedPlan(enabled, s, registered);
    var plan := InitialPlan(Some(full), limit);
    DeployedPlanMeans(enabled, s, registered);
    ReportIsScheduledExactly(plan, world, deadline, enabled, s.logLike, registered, limit);
    if REPORTING in registered {
      CutLosesReport(full, limit);
    } else {
      assert forall t :: t in plan ==> t in full;
    }
  }

  /** Some proposal of the analysis is for a registered agent that is not on the plan. */
  predicate ProposesMore(result: AgentResult, plan: seq<Task>, registered: set<string>) {
    result.analysis.Some?
    && exists p | p in result.analysis.value :: p.taskType in registered && !Schedules(plan, p.taskType)
  }

  lemma {:induction false} AddedExactly(plan: seq<Task>, created: seq<Task>, limit: nat)
    ensures Added(plan, created, limit) != []
            <==> |plan| < limit && exists t :: t in created && !Schedules(plan, t.agent)
  {
    NotScheduledMeans(created, plan);
    var additions := NotScheduled(created, plan);
    if additions != [] {
      assert additions[0] in additions;
    }
  }

  /** A triage with an analysis creates something new exactly if it proposes something that is not planned. */
  lemma {:induction false} CreatesMoreExactly(result: AgentResult, hasLogs: bool, registered: set<string>,
                                              plan: seq<Task>)
    requires result.status == Succeeded && result.analysis.Some?
    requires Schedules(plan, TRIAGE) && Schedules(plan, REPORTING)
    ensures (exists t :: t in InterpretTriage(result, hasLogs, registered) && !Schedules(plan, t.agent))
            <==> ProposesMore(result, plan, registered)
  {
    var proposals, created := Prioritized(result.analysis.value), InterpretTriage(result, hasLogs, registered);
    var tasks := ProposedTasks(proposals, registered, 2);
    SameProposals(result.analysis.value);
    ProposedTasksMean(proposals, registered, 2);
    if ProposesMore(result, plan, registered) {
      var p :| p in result.analysis.value && p.taskType in registered && !Schedules(plan, p.taskType);
      assert p in proposals && Schedules(tasks, p.taskType);
      var t :| t in tasks && t.agent == p.taskType;
      assert t in created;
    }
    if t :| t in created && !Schedules(plan, t.agent) {
      assert t in tasks;
    }
  }

  lemma {:induction false} SameProposals(proposals: seq<Proposal>)
    ensures forall p :: p in Prioritized(proposals) <==> p in proposals
  {
    SortBySorts(proposals, (p: Proposal) => p.priority);
    assert forall p :: p in Prioritized(proposals) <==> p in multiset(Prioritized(proposals));
    assert forall p :: p in proposals <==> p in multiset(proposals);
  }

  lemma {:induction false} FallbackHasReasons(s: Submission, registered: set<string>, t: Task)
    requires t in FallbackTasks(s.logLike, registered)
    ensures t.agent in registered && (t.agent == REPORTING || Stages(Reasons(s), t.agent))
  {
    var reasons := Reasons(s);
    assert Stage("mitre", "mitre") in reasons && Stage("correlation", "correlation") in reasons;
    assert s.logLike ==> Stage("log-analysis", "log_analysis") in reasons;
  }

  /** The adaptive plan holds all the fallback has to offer. */
  lemma {:induction false} FallbackIsPlanned(s: Submission, registered: set<string>, t: Task)
    requires t in FallbackTasks(s.logLike, registered)
    ensures Schedules(AdaptivePlan(s, registered, DEFAULT_MAX_TASKS), t.agent)
  {
    AdaptivePlanMeans(s, registered);
    FallbackHasReasons(s, registered, t);
  }

  /**
   A report is meant to run last, over the findings of all other tasks.  In the application it does so exactly if it is
   scheduled and no triage that succeeded in time proposes a registered agent that is not planned, with room left under
   the limit: what triage adds comes behind the report.
   */
  lemma {:induction false} DeployedReportIsLastExactly(enabled: bool, s: Submission, world: World, deadline: int,
                                                       registered: set<string>, limit: nat)
    ensures var plan := DeployedPlan(enabled, s, registered);
            EndsWithReport(DeployedTasks(enabled, s, world, deadline, registered, limit))
            <==> && REPORTING in registered && |plan| <= limit
                 && !(&& enabled && TriageSucceeded(plan, world, deadline) && |plan| < limit
                      && ProposesMore(world.result(0).value, plan, registered))
  {
    var plan := DeployedPlan(enabled, s, registered);
    DeployedPlanMeans(enabled, s, registered);
    DeployedReportExactly(enabled, s, world, deadline, registered, limit);
    if REPORTING !in registered || |plan| > limit {
      LastIsScheduled(DeployedTasks(enabled, s, world, deadline, registered, limit));
    } else if enabled && TriageSucceeded(plan, world, deadline) {
      AdaptiveReportIsLastExactly(s, world.result(0).value, registered, limit);
    }
  }

  lemma {:induction false} LastIsScheduled(tasks: seq<Task>)
    ensures EndsWithReport(tasks) ==> Schedules(tasks, REPORTING)
  {
    if EndsWithReport(tasks) {
      assert tasks[|tasks| - 1] in tasks;
    }
  }

  lemma {:induction false} AdaptiveReportIsLastExactly(s: Submission, result: AgentResult, registered: set<string>,
                                                       limit: nat)
    requires REPORTING in registered && result.status == Succeeded
    requires Schedules(AdaptivePlan(s, registered, DEFAULT_MAX_TASKS), TRIAGE)
    ensures var plan := AdaptivePlan(s, registered, DEFAULT_MAX_TASKS);
            EndsWithReport(plan + Added(plan, InterpretTriage(result, s.logLike, registered), limit))
            <==> !(|plan| < limit && ProposesMore(result, plan, registered))
  {
    var plan, created := AdaptivePlan(s, registered, DEFAULT_MAX_TASKS), InterpretTriage(result, s.logLike, registered);
    AdaptivePlanMeans(s, registered);
    AddedExactly(plan, created, limit);
    if result.analysis.Some? {
      CreatesMoreExactly(result, s.logLike, registered, plan);
    } else {
      forall t | t in created
        ensures Schedules(plan, t.agent)
      {
        FallbackIsPlanned(s, registered, t);
      }
    }
    AdditionsEndTheList(plan, created, limit);
  }

  lemma {:induction false} AdditionsEndTheList(plan: seq<Task>, created: seq<Task>, limit: nat)
    requires EndsWithReport(plan)
    ensures EndsWithReport(plan + Added(plan, created, limit)) <==> Added(plan, created, limit) == []
  {
    var added := Added(plan, created, limit);
    if added == [] {
      assert plan + added == plan;
    } else {
      NotScheduledMeans(created, plan);
      assert plan[|plan| - 1] in plan && added[|added| - 1] in NotScheduled(created, plan);
      assert (plan + added)[|plan + added| - 1] == added[|added| - 1];
    }
  }

  const DEFAULT_AGENTS := {TRIAGE, "log_analysis", "mitre", "correlation", "reasoning", "hypothesis", "validation",
                           REPORTING}

  lemma {:induction false} DefaultPlanSize(s: Submission)
    requires s.logLike && !s.pcap
    ensures |AdaptivePlan(s, DEFAULT_AGENTS, DEFAULT_MAX_TASKS)| == 8
  {
    AdaptivePlanIsUncut(s, DEFAULT_AGENTS);
    StagedSize(Reasons(s) + [Stage("report", REPORTING)], DEFAULT_AGENTS);
  }

  /** With the default agents and seven tasks allowed, a log is investigated without a report. */
  lemma {:induction false} PlannedReportCanBeCut(world: World, s: Submission, deadline: int)
    requires s.logLike && !s.pcap
    ensures !Schedules(DeployedTasks(true, s, world, deadline, DEFAULT_AGENTS, 7), REPORTING)
  {
    DefaultPlanSize(s);
    DeployedReportExactly(true, s, world, deadline, DEFAULT_AGENTS, 7);
  }

  /** With the default limit and no logs, a triage that proposes log analysis has it run behind the report. */
  lemma {:induction false} ReportCanRunEarly(world: World, s: Submission)
    requires !s.logLike && !s.logTarget && world.clock(0) == 0
    requires world.result(0) == Some(AgentResult(Succeeded, Some([Proposal("log_analysis", 1)])))
    ensures var tasks := DeployedTasks(true, s, world, 300, DEFAULT_AGENTS, 25);
            Schedules(tasks, REPORTING) && !EndsWithReport(tasks)
  {
    var plan := AdaptivePlan(s, DEFAULT_AGENTS, DEFAULT_MAX_TASKS);
    AdaptivePlanMeans(s, DEFAULT_AGENTS);
    LogsAreNotPlanned(s);
    DeployedReportExactly(true, s, world, 300, DEFAULT_AGENTS, 25);
    DeployedReportIsLastExactly(true, s, world, 300, DEFAULT_AGENTS, 25);
    assert Proposal("log_analysis", 1) in world.result(0).value.analysis.value;
  }

  lemma {:induction false} LogsAreNotPlanned(s: Submission)
    requires !s.logLike && !s.logTarget
    ensures "log_analysis" != REPORTING && !Stages(Reasons(s), "log_analysis")
  {
    assert |REPORTING| == |"reasoning"| == 9 && |TRIAGE| == 6 && |"log_analysis"| == 12 && |"network_analysis"| == 16;
    assert |"mitre"| == 5 && |"correlation"| == 11 && |"hypothesis"| == |"validation"| == 10;
  }
}
