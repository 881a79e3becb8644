/**
 The two planners (src/acip/core/orchestration/planner.py and adaptive_planner.py): which agents a submission is
 planned for, and in which order.
 */
module Planners {
  import opened Prelude

  datatype Task = Task(id: string, agent: string)

  /** What the planners look at: artifacts that may hold log records, a log as the target, a packet capture. */
  datatype Submission = Submission(logLike: bool, logTarget: bool, pcap: bool)

  /** A task the adaptive planner has a reason for; the name becomes part of its id. */
  datatype Stage = Stage(name: string, agent: string)

  const REPORTING := "reporting"

  const TRIAGE := "triage"

  const DEFAULT_MAX_TASKS := 10

  function Digits(n: nat): string {
    if n < 10 then [('0' as int + n) as char] else Digits(n / 10) + [('0' as int + n % 10) as char]
  }

  predicate Schedules(tasks: seq<Task>, agent: string) {
    exists t | t in tasks :: t.agent == agent
  }

  function Numbered(tasks: seq<Task>, stage: Stage): Task {
    Task("t" + Digits(|tasks| + 1) + "-" + stage.name, stage.agent)
  }

  /** The stages whose agent is registered, numbered by their places. */
  function Staged(stages: seq<Stage>, registered: set<string>): seq<Task> {
    if stages == [] then []
    else
      var before, last := Staged(stages[..|stages| - 1], registered), stages[|stages| - 1];
      before + if last.agent in registered then [Numbered(before, last)] else []
  }

  /** The tasks whose agent is registered. */
  function Runnable(tasks: seq<Task>, registered: set<string>): seq<Task> {
    if tasks == [] then []
    else
      var last := tasks[|tasks| - 1];
      Runnable(tasks[..|tasks| - 1], registered) + if last.agent in registered then [last] else []
  }

  function If<T>(wanted: bool, x: T): seq<T> {
    if wanted then [x] else []
  }

  function BeforeStaticReport(s: Submission, registered: set<string>): seq<Task> {
    var logs := [Task("t1-triage", TRIAGE)] + If(s.logLike, Task("t2-log-analysis", "log_analysis"));
    var mapped := logs + If("mitre" in registered, Numbered(logs, Stage("mitre", "mitre")));
    mapped + If("correlation" in registered, Numbered(mapped, Stage("correlation", "correlation")))
  }

  /** The plan of the rule-based planner, which drops unregistered agents at the end. */
  function StaticPlan(s: Submission, registered: set<string>): seq<Task> {
    Runnable(BeforeStaticReport(s, registered) + [Task("t9-report", REPORTING)], registered)
  }

  /** What the adaptive planner has a reason for, but for the report. */
  function Reasons(s: Submission): seq<Stage> {
    [Stage("triage", TRIAGE)]
    + If(s.logLike || s.logTarget, Stage("log-analysis", "log_analysis"))
    + If(s.pcap, Stage("network-analysis", "network_analysis"))
    + [Stage("mitre", "mitre"), Stage("correlation", "correlation"), Stage("reasoning", "reasoning"),
       Stage("hypothesis", "hypothesis"), Stage("validation", "validation")]
  }

  function AdaptiveTasks(s: Submission, registered: set<string>): seq<Task> {
    Staged(Reasons(s) + [Stage("report", REPORTING)], registered)
  }

  /** The plan of the adaptive planner, cut at its own cap. */
  function AdaptivePlan(s: Submission, registered: set<string>, maxTasks: nat): seq<Task> {
    Cut(Runnable(AdaptiveTasks(s, registered), registered), Some(maxTasks))
  }

  /** The last loop of the adaptive planner. */
  method EnforceCap(tasks: seq<Task>, registered: set<string>, maxTasks: nat) returns (valid: seq<Task>)
    ensures valid == Cut(Runnable(tasks, registered), Some(maxTasks))
  {
    valid := [];
    for i := 0 to |tasks|
      invariant valid == Runnable(tasks[..i], registered) && |valid| <= maxTasks
    {
      assert tasks[..i + 1][..i] == tasks[..i];
      if tasks[i].agent !in registered {
        continue;
      }
      if |valid| >= maxTasks {
        RunnableGrows(tasks, registered, i + 1);
        return;
      }
      valid := valid + [tasks[i]];
    }
    assert tasks[..|tasks|] == tasks;
  }

  lemma {:induction false} RunnableGrows(tasks: seq<Task>, registered: set<string>, n: nat)
    requires n <= |tasks|
    ensures Runnable(tasks[..n], registered) <= Runnable(tasks, registered)
    decreases |tasks|
  {
    if n < |tasks| {
      var front := tasks[..|tasks| - 1];
      assert front[..n] == tasks[..n];
      RunnableGrows(front, registered, n);
    } else {
      assert tasks[..n] == tasks;
    }
  }

  // ---------------------------------------------------------------------------------------------
  // What the plans hold
  // ---------------------------------------------------------------------------------------------

  lemma {:induction false} RunnableMeans(tasks: seq<Task>, registered: set<string>)
    ensures forall t :: t in Runnable(tasks, registered) <==> t in tasks && t.agent in registered
    ensures |Runnable(tasks, registered)| <= |tasks|
    ensures (forall t :: t in tasks ==> t.agent in registered) ==> Runnable(tasks, registered) == tasks
  {
    if tasks != [] {
      var front := tasks[..|tasks| - 1];
      RunnableMeans(front, registered);
      assert tasks == front + [tasks[|tasks| - 1]];
    }
  }

  /** Some stage is for the agent. */
  predicate Stages(stages: seq<Stage>, agent: string) {
    exists stage | stage in stages :: stage.agent == agent
  }

  lemma {:induction false} StagedMeans(stages: seq<Stage>, registered: set<string>, agent: string)
    ensures Schedules(Staged(stages, registered), agent) <==> Stages(stages, agent) && agent in registered
  {
    if stages != [] {
      var front, last := stages[..|stages| - 1], stages[|stages| - 1];
      var before := Staged(front, registered);
      StagedMeans(front, registered, agent);
      assert stages == front + [last];
      assert Numbered(before, last) in before + [Numbered(before, last)];
    }
  }

  lemma {:induction false} StagedSize(stages: seq<Stage>, registered: set<string>)
    ensures |Staged(stages, registered)| <= |stages|
    ensures (forall stage :: stage in stages ==> stage.agent in registered) ==> |Staged(stages, registered)| == |stages|
    ensures forall t :: t in Staged(stages, registered) ==> t.agent in registered
    ensures stages != [] && stages[0].agent in registered ==>
              Staged(stages, registered) != [] && Staged(stages, registered)[0].agent == stages[0].agent
  {
    if stages != [] {
      StagedSize(stages[..|stages| - 1], registered);
    }
  }

  /** A plan that ends with its only report. */
  ghost predicate EndsWithReport(plan: seq<Task>) {
    plan != [] && plan[|plan| - 1].agent == REPORTING && !Schedules(plan[..|plan| - 1], REPORTING)
  }

  lemma {:induction false} ReportIsNoReason(s: Submission)
    ensures !Stages(Reasons(s), REPORTING)
  {
    assert |REPORTING| == |"reasoning"| == 9 && |TRIAGE| == 6 && |"log_analysis"| == 12 && |"network_analysis"| == 16;
    assert |"mitre"| == 5 && |"correlation"| == 11 && |"hypothesis"| == |"validation"| == 10;
    assert REPORTING[2] == 'p' && "reasoning"[2] == 'a';
  }

  lemma {:induction false} AdaptivePlanIsUncut(s: Submission, registered: set<string>)
    ensures AdaptivePlan(s, registered, DEFAULT_MAX_TASKS) == AdaptiveTasks(s, registered)
    ensures |AdaptiveTasks(s, registered)| <= 9
  {
    StagedSize(Reasons(s) + [Stage("report", REPORTING)], registered);
    RunnableMeans(AdaptiveTasks(s, registered), registered);
  }

  /**
   The adaptive planner plans for exactly the registered agents it has a reason for, triage first and the report last;
   its default cap never cuts.
   */
  lemma {:induction false} AdaptivePlanMeans(s: Submission, registered: set<string>)
    ensures var plan := AdaptivePlan(s, registered, DEFAULT_MAX_TASKS);
            && |plan| <= 9 && (forall t :: t in plan ==> t.agent in registered)
            && (TRIAGE in registered ==> plan != [] && plan[0].agent == TRIAGE)
            && (REPORTING in registered ==> EndsWithReport(plan))
    ensures forall agent :: Schedules(AdaptivePlan(s, registered, DEFAULT_MAX_TASKS), agent)
                            <==> agent in registered && (agent == REPORTING || Stages(Reasons(s), agent))
  {
    var reasons, report := Reasons(s), Stage("report", REPORTING);
    AdaptivePlanIsUncut(s, registered);
    StagedSize(reasons + [report], registered);
    assert (reasons + [report])[..|reasons|] == reasons;
    forall agent
      ensures Schedules(AdaptiveTasks(s, registered), agent)
              <==> agent in registered && (agent == REPORTING || Stages(reasons, agent))
    {
      StagedMeans(reasons, registered, agent);
      StagedMeans(reasons + [report], registered, agent);
      StagesNext(reasons, report, agent);
    }
    ReportIsNoReason(s);
    StagedMeans(reasons, registered, REPORTING);
    if REPORTING in registered {
      assert AdaptiveTasks(s, registered)[..|Staged(reasons, registered)|] == Staged(reasons, registered);
    }
  }

  lemma {:induction false} StagesNext(stages: seq<Stage>, stage: Stage, agent: string)
    ensures Stages(stages + [stage], agent) <==> Stages(stages, agent) || stage.agent == agent
  {
    assert stage in stages + [stage];
  }

  lemma {:induction false} BeforeStaticReportMeans(s: Submission, registered: set<string>)
    ensures !Schedules(BeforeStaticReport(s, registered), REPORTING) && |BeforeStaticReport(s, registered)| <= 4
  {
    assert |REPORTING| == 9 && |TRIAGE| == 6 && |"log_analysis"| == 12 && |"mitre"| == 5 && |"correlation"| == 11;
  }

  lemma {:induction false} RunnableEndsWithReport(before: seq<Task>, report: Task, registered: set<string>)
    requires !Schedules(before, REPORTING) && report.agent == REPORTING
    ensures var plan := Runnable(before + [report], registered);
            && (Schedules(plan, REPORTING) <==> REPORTING in registered)
            && (REPORTING in registered ==> EndsWithReport(plan))
  {
    RunnableMeans(before, registered);
    assert (before + [report])[..|before|] == before;
    var runnable := Runnable(before, registered);
    assert !Schedules(runnable, REPORTING);
    assert report in runnable + [report] && (runnable + [report])[..|runnable|] == runnable;
  }

  /** The rule-based planner's plan ends with the report too, and is for registered agents only. */
  lemma {:induction false} StaticPlanMeans(s: Submission, registered: set<string>)
    ensures var plan := StaticPlan(s, registered);
            && |plan| <= 5 && (forall t :: t in plan ==> t.agent in registered)
            && (Schedules(plan, REPORTING) <==> REPORTING in registered)
            && (REPORTING in registered ==> EndsWithReport(plan))
  {
    var before, report := BeforeStaticReport(s, registered), Task("t9-report", REPORTING);
    BeforeStaticReportMeans(s, registered);
    RunnableMeans(before + [report], registered);
    RunnableEndsWithReport(before, report, registered);
  }

  /** The plan of the planner the application builds: the adaptive one if it is enabled. */
  function DeployedPlan(enabled: bool, s: Submission, registered: set<string>): seq<Task> {
    if enabled then AdaptivePlan(s, registered, DEFAULT_MAX_TASKS) else StaticPlan(s, registered)
  }

  lemma {:induction false} DeployedPlanMeans(enabled: bool, s: Submission, registered: set<string>)
    ensures var plan := DeployedPlan(enabled, s, registered);
            && |plan| <= (if enabled then 9 else 5) && (forall t :: t in plan ==> t.agent in registered)
            && (Schedules(plan, REPORTING) <==> REPORTING in registered)
            && (REPORTING in registered ==> EndsWithReport(plan))
  {
    if enabled {
      AdaptivePlanMeans(s, registered);
    } else {
      StaticPlanMeans(s, registered);
    }
  }

  // ---------------------------------------------------------------------------------------------
  // The plans, task by task
  // ---------------------------------------------------------------------------------------------

  const ADAPTIVE_AGENTS := ["triage", "log_analysis", "network_analysis", "mitre", "correlation", "reasoning",
                            "hypothesis", "validation", "reporting"]

  const ADAPTIVE_NAMES := ["triage", "log-analysis", "network-analysis", "mitre", "correlation", "reasoning",
                           "hypothesis", "validation", "report"]

  ghost predicate Increasing(places: seq<int>) {
    forall k, l :: 0 <= k < l < |places| ==> places[k] < places[l]
  }

  /** The second agent is planned for logs only, the third for captures only. */
  ghost predicate IsWantedAt(s: Submission, registered: set<string>, k: int) {
    && 0 <= k < 9 && ADAPTIVE_AGENTS[k] in registered
    && (k == 1 ==> s.logLike || s.logTarget) && (k == 2 ==> s.pcap)
  }

  /** Each agent wanted is planned once, in the order of the list, and the tasks are numbered through. */
  ghost predicate IsAdaptivePlan(s: Submission, registered: set<string>, plan: seq<Task>, places: seq<int>) {
    && Increasing(places) && (forall k :: k in places <==> IsWantedAt(s, registered, k))
    && |plan| == |places|
    && forall i :: 0 <= i < |plan| ==>
         && 0 <= places[i] < 9
         && plan[i] == Task("t" + Digits(i + 1) + "-" + ADAPTIVE_NAMES[places[i]], ADAPTIVE_AGENTS[places[i]])
  }

  ghost predicate AreStagedAt(stages: seq<Stage>, registered: set<string>, tasks: seq<Task>, places: seq<int>) {
    && Increasing(places) && (forall k :: k in places <==> 0 <= k < |stages| && stages[k].agent in registered)
    && |tasks| == |places|
    && forall i :: 0 <= i < |tasks| ==>
         && 0 <= places[i] < |stages|
         && tasks[i] == Task("t" + Digits(i + 1) + "-" + stages[places[i]].name, stages[places[i]].agent)
  }

  lemma {:induction false} StagedPlaces(stages: seq<Stage>, registered: set<string>) returns (places: seq<int>)
    ensures AreStagedAt(stages, registered, Staged(stages, registered), places)
  {
    if stages == [] {
      places := [];
    } else {
      var front, last := stages[..|stages| - 1], stages[|stages| - 1];
      places := StagedPlaces(front, registered);
      StagedNext(front, last, registered, Staged(front, registered), places);
      places := places + if last.agent in registered then [|front|] else [];
      assert stages == front + [last];
    }
  }

  lemma {:induction false} StagedNext(stages: seq<Stage>, last: Stage, registered: set<string>, tasks: seq<Task>,
                                      places: seq<int>)
    requires AreStagedAt(stages, registered, tasks, places)
    ensures AreStagedAt(stages + [last], registered,
                        tasks + (if last.agent in registered then [Numbered(tasks, last)] else []),
                        places + if last.agent in registered then [|stages|] else [])
  {
    var all := stages + [last];
    if last.agent in registered {
      assert forall k :: k in places + [|stages|] <==> k in places || k == |stages|;
      forall k, l | 0 <= k < l < |places| + 1
        ensures (places + [|stages|])[k] < (places + [|stages|])[l]
      {
        assert places[k] in places;
      }
    } else {
      assert tasks + [] == tasks && places + [] == places;
    }
    forall i | 0 <= i < |places|
      ensures all[places[i]] == stages[places[i]]
    {
    }
  }

  /** Where the agent of a stage stands in the list. */
  function PlaceOf(s: Submission, k: nat): nat {
    var logs := s.logLike || s.logTarget;
    if k == 0 || (k == 1 && logs) then k
    else k + (if logs then 0 else 1) + if s.pcap then 0 else 1
  }

  lemma {:induction false} StagesAreListed(s: Submission)
    ensures var stages := Reasons(s) + [Stage("report", REPORTING)];
            && |stages| == 7 + (if s.logLike || s.logTarget then 1 else 0) + (if s.pcap then 1 else 0)
            && forall k :: 0 <= k < |stages| ==>
                 && 0 <= PlaceOf(s, k) < 9
                 && stages[k] == Stage(ADAPTIVE_NAMES[PlaceOf(s, k)], ADAPTIVE_AGENTS[PlaceOf(s, k)])
  {
  }

  lemma {:induction false} PlaceOfGrows(s: Submission, k: nat, l: nat)
    ensures k < l ==> PlaceOf(s, k) < PlaceOf(s, l)
  {
  }

  /** The stages stand at the places of the agents wanted. */
  lemma {:induction false} WantedAreStaged(s: Submission, registered: set<string>, place: nat) returns (k: nat)
    requires IsWantedAt(s, registered, place)
    ensures k < |Reasons(s)| + 1 && PlaceOf(s, k) == place
  {
    var logs := s.logLike || s.logTarget;
    StagesAreListed(s);
    k := if place < 2 then place
         else if place == 2 then (if logs then 2 else 1)
         else place - (if logs then 0 else 1) - if s.pcap then 0 else 1;
  }

  function PlacesOf(s: Submission, at: seq<int>): (r: seq<int>)
    ensures |r| == |at| && forall i :: 0 <= i < |r| ==> r[i] == PlaceOf(s, Max(0, at[i]))
  {
    seq(|at|, i requires 0 <= i < |at| => PlaceOf(s, Max(0, at[i])))
  }

  ghost predicate AreStagesOf(s: Submission, registered: set<string>, at: seq<int>) {
    forall k :: k in at <==>
                  0 <= k < |Reasons(s)| + 1 && (Reasons(s) + [Stage("report", REPORTING)])[k].agent in registered
  }

  lemma {:induction false} PlacesAreIncreasing(s: Submission, registered: set<string>, at: seq<int>)
    requires Increasing(at) && AreStagesOf(s, registered, at)
    ensures Increasing(PlacesOf(s, at))
  {
    var places := PlacesOf(s, at);
    forall i, j | 0 <= i < j < |places|
      ensures places[i] < places[j]
    {
      assert at[i] in at && at[j] in at;
      PlaceOfGrows(s, at[i], at[j]);
    }
  }

  lemma {:induction false} PlacesAreWanted(s: Submission, registered: set<string>, at: seq<int>, place: int)
    requires AreStagesOf(s, registered, at)
    ensures place in PlacesOf(s, at) <==> IsWantedAt(s, registered, place)
  {
    var places := PlacesOf(s, at);
    if place in places {
      var i :| 0 <= i < |places| && places[i] == place;
      assert at[i] in at;
      WantedStage(s, registered, at[i]);
    }
    if IsWantedAt(s, registered, place) {
      var k := WantedAreStaged(s, registered, place);
      StagesAreListed(s);
      assert k in at;
      var i :| 0 <= i < |at| && at[i] == k;
      assert places[i] == place;
    }
  }

  /** The adaptive plan, task by task. */
  lemma {:induction false} AdaptivePlanExactly(s: Submission, registered: set<string>) returns (places: seq<int>)
    ensures IsAdaptivePlan(s, registered, AdaptivePlan(s, registered, DEFAULT_MAX_TASKS), places)
  {
    var at := StagedPlaces(Reasons(s) + [Stage("report", REPORTING)], registered);
    places := PlacesOf(s, at);
    PlacesAreIncreasing(s, registered, at);
    forall place
      ensures place in places <==> IsWantedAt(s, registered, place)
    {
      PlacesAreWanted(s, registered, at, place);
    }
    AdaptivePlanIsUncut(s, registered);
    TasksStandAtPlaces(s, registered, AdaptiveTasks(s, registered), at);
  }

  lemma {:induction false} TasksStandAtPlaces(s: Submission, registered: set<string>, tasks: seq<Task>, at: seq<int>)
    requires AreStagedAt(Reasons(s) + [Stage("report", REPORTING)], registered, tasks, at)
    ensures var places := PlacesOf(s, at);
            && |places| == |tasks|
            && forall i :: 0 <= i < |tasks| ==>
                 && 0 <= places[i] < 9
                 && tasks[i] == Task("t" + Digits(i + 1) + "-" + ADAPTIVE_NAMES[places[i]], ADAPTIVE_AGENTS[places[i]])
  {
    StagesAreListed(s);
  }

  lemma {:induction false} WantedStage(s: Submission, registered: set<string>, k: nat)
    requires k < |Reasons(s)| + 1 && (Reasons(s) + [Stage("report", REPORTING)])[k].agent in registered
    ensures IsWantedAt(s, registered, PlaceOf(s, k))
  {
    StagesAreListed(s);
  }

  lemma {:induction false} RunnableOfBoth(a: seq<Task>, b: seq<Task>, registered: set<string>)
    ensures Runnable(a + b, registered) == Runnable(a, registered) + Runnable(b, registered)
  {
    if b == [] {
      assert a + b == a;
    } else {
      var front, last := b[..|b| - 1], b[|b| - 1];
      RunnableOfBoth(a, front, registered);
      assert (a + b)[..|a + b| - 1] == a + front && (a + b)[|a + b| - 1] == last;
    }
  }

  lemma {:induction false} RunnableOfOne(wanted: bool, task: Task, registered: set<string>)
    ensures Runnable(If(wanted, task), registered) == If(wanted && task.agent in registered, task)
  {
  }

  lemma {:induction false} RunnableOfFive(a: Task, b: Task, c: Task, d: Task, e: Task, wb: bool, wc: bool, wd: bool,
                                          registered: set<string>)
    ensures Runnable(If(true, a) + If(wb, b) + If(wc, c) + If(wd, d) + If(true, e), registered)
         == If(a.agent in registered, a) + If(wb && b.agent in registered, b) + If(wc && c.agent in registered, c)
            + If(wd && d.agent in registered, d) + If(e.agent in registered, e)
  {
    var ab := If(true, a) + If(wb, b);
    RunnableOfBoth(If(true, a), If(wb, b), registered);
    RunnableOfBoth(ab, If(wc, c), registered);
    RunnableOfBoth(ab + If(wc, c), If(wd, d), registered);
    RunnableOfBoth(ab + If(wc, c) + If(wd, d), If(true, e), registered);
    RunnableOfOne(true, a, registered);
    RunnableOfOne(wb, b, registered);
    RunnableOfOne(wc, c, registered);
    RunnableOfOne(wd, d, registered);
    RunnableOfOne(true, e, registered);
  }

  function MitreId(s: Submission): string {
    if s.logLike then "t3-mitre" else "t2-mitre"
  }

  function CorrelationId(s: Submission, registered: set<string>): string {
    if s.logLike && "mitre" in registered then "t4-correlation"
    else if s.logLike || "mitre" in registered then "t3-correlation"
    else "t2-correlation"
  }

  lemma {:induction false} MitreNumber(tasks: seq<Task>)
    requires 1 <= |tasks| <= 2
    ensures Numbered(tasks, Stage("mitre", "mitre")) == Task(if |tasks| == 2 then "t3-mitre" else "t2-mitre", "mitre")
  {
    OneDigit();
    assert |tasks| == 1 || |tasks| == 2;
  }

  lemma {:induction false} CorrelationNumber(tasks: seq<Task>)
    requires 1 <= |tasks| <= 3
    ensures var id := if |tasks| == 3 then "t4-correlation" else if |tasks| == 2 then "t3-correlation"
                      else "t2-correlation";
            Numbered(tasks, Stage("correlation", "correlation")) == Task(id, "correlation")
  {
    OneDigit();
    assert |tasks| == 1 || |tasks| == 2 || |tasks| == 3;
  }

  lemma {:induction false} StaticIds(s: Submission, registered: set<string>)
    ensures BeforeStaticReport(s, registered)
         == If(true, Task("t1-triage", TRIAGE)) + If(s.logLike, Task("t2-log-analysis", "log_analysis"))
            + If("mitre" in registered, Task(MitreId(s), "mitre"))
            + If("correlation" in registered, Task(CorrelationId(s, registered), "correlation"))
  {
    var t1 := Task("t1-triage", TRIAGE);
    assert If(true, t1) == [t1];
    var logs := [t1] + If(s.logLike, Task("t2-log-analysis", "log_analysis"));
    MitreNumber(logs);
    CorrelationNumber(logs + If("mitre" in registered, Numbered(logs, Stage("mitre", "mitre"))));
  }

  /** The plan of the rule-based planner, task by task; the numbers in the middle count the tasks listed so far. */
  lemma {:induction false} StaticPlanExactly(s: Submission, registered: set<string>)
    ensures StaticPlan(s, registered)
         == If("triage" in registered, Task("t1-triage", "triage"))
            + If(s.logLike && "log_analysis" in registered, Task("t2-log-analysis", "log_analysis"))
            + If("mitre" in registered, Task(MitreId(s), "mitre"))
            + If("correlation" in registered, Task(CorrelationId(s, registered), "correlation"))
            + If("reporting" in registered, Task("t9-report", "reporting"))
  {
    StaticIds(s, registered);
    RunnableOfFive(Task("t1-triage", TRIAGE), Task("t2-log-analysis", "log_analysis"), Task(MitreId(s), "mitre"),
                   Task(CorrelationId(s, registered), "correlation"), Task("t9-report", REPORTING), s.logLike,
                   "mitre" in registered, "correlation" in registered, registered);
    assert If(true, Task("t9-report", REPORTING)) == [Task("t9-report", REPORTING)];
  }

  lemma {:induction false} OneDigit()
    ensures Digits(2) == "2" && Digits(3) == "3" && Digits(4) == "4"
  {
  }

  /** The number a text of digits stands for. */
  ghost function ValueOf(s: string): int {
    if s == "" then 0 else ValueOf(s[..|s| - 1]) * 10 + (s[|s| - 1] as int - '0' as int)
  }

  /** The number in a task's id is written in decimal, without leading zeros. */
  lemma {:induction false} DigitsMean(n: nat)
    ensures ValueOf(Digits(n)) == n && Digits(n) != "" && (n > 0 ==> Digits(n)[0] != '0')
    ensures forall i :: 0 <= i < |Digits(n)| ==> '0' <= Digits(n)[i] <= '9'
  {
    var s := Digits(n);
    if n >= 10 {
      DigitsMean(n / 10);
      assert s[..|s| - 1] == Digits(n / 10);
    } else {
      assert s[..|s| - 1] == "";
    }
  }
}
