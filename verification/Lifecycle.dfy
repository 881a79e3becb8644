/**
 The status of one investigation under concurrent requests (src/acip/api/routers/investigations.py
 and src/acip/core/orchestration/runner.py).  Each step is one database statement or one stretch of
 code without an await; any interleaving of steps is a run.
 */
module Lifecycle {

  datatype Status = Created | Running | Completed | Partial | Failed | Halted

  predicate IsTerminal(s: Status) {
    s.Completed? || s.Partial? || s.Failed? || s.Halted?
  }

  predicate IsRetryable(s: Status) {
    s.Failed? || s.Halted? || s.Partial?
  }

  /** What is worth remembering about a run: claims that won, and unconditional status writes. */
  datatype Event = Claimed(start: bool) | Wrote(status: Status)

  /**
   `claimed` requests have won a claim and not yet submitted the work.  Of the listed tasks, `executing` have not
   written their result, `finished` have written it but not left the block whose handlers may write once more, and
   `ended` are past all their writes.  Of the cancel requests, `cancelling` have seen a status that is not terminal,
   `waiting` have cancelled a listed task and await it, `marking` have awaited it, and `missed` have found no task; the
   last two kinds will still mark the row.
   */
  datatype State = State(
    status: Status, claimed: nat, executing: nat, finished: nat, ended: nat,
    cancelling: nat, waiting: nat, missed: nat, marking: nat, log: seq<Event>)

  datatype Step =
    | StartClaim               // the conditional update of start_investigation
    | RetryClaim               // the conditional update of retry_investigation
    | Submit                   // runner.submit, once the claim is committed
    | Begin                    // the orchestrator marks the row running
    | Finish(result: Status)   // the orchestrator writes the derived status
    | Crash(recorded: bool)    // the orchestrator crashed; writing that back may fail
    | CancelCheck              // cancel_investigation reads a status that is not terminal
    | CancelFind               // runner.cancel finds a listed task and cancels it
    | CancelMiss               // runner.cancel finds none
    | Stop(marked: bool)       // a task cancelled by a request or a shutdown ends; its handler may mark the row
    | LateStop(marked: bool)   // the same when its result is committed already and `_finish` is still awaited
    | LateCrash(recorded: bool) // `_finish` raises after its commit; writing that back may fail
    | Return                   // the orchestrator returns, and no handler is left to write
    | Done(released: nat)      // an ended task leaves the list, and those who await it go on
    | GiveUp                   // a cancel is itself cancelled while it awaits its task, and goes on at once
    | CancelMark(recorded: bool) // runner.cancel marks the row halted; writing that may fail
    | CancelDirect             // the endpoint writes halted itself
    | Restart                  // the process restarts and recover_interrupted runs

  /** How many tasks of the investigation the runner lists. */
  function Listed(s: State): nat {
    s.executing + s.finished + s.ended
  }

  predicate Enabled(s: State, step: Step) {
    match step
    case StartClaim => s.status == Created
    case RetryClaim => IsRetryable(s.status)
    case Submit => s.claimed > 0
    case Begin => s.executing > 0
    case Finish(result) => s.executing > 0 && IsTerminal(result)
    case Crash(_) => s.executing > 0
    case CancelCheck => !IsTerminal(s.status)
    case CancelFind => s.cancelling > 0 && Listed(s) > 0
    case CancelMiss => s.cancelling > 0 && Listed(s) == 0
    case Stop(_) => s.executing > 0
    case LateStop(_) => s.finished > 0
    case LateCrash(_) => s.finished > 0
    case Return => s.finished > 0
    case Done(released) => s.ended > 0 && released <= s.waiting && (Listed(s) == 1 ==> released == s.waiting)
    case GiveUp => s.waiting > 0
    case CancelMark(_) => s.marking > 0
    case CancelDirect => s.missed > 0
    case Restart => true
  }

  function Claim(s: State, start: bool): State {
    s.(status := Running, claimed := s.claimed + 1, log := s.log + [Claimed(start)])
  }

  function Write(s: State, status: Status): State {
    s.(status := status, log := s.log + [Wrote(status)])
  }

  function WriteIf(s: State, written: bool, status: Status): State {
    if written then Write(s, status) else s
  }

  /** A task is past all its writes, and is listed a little longer. */
  function End(s: State): State
    requires s.executing > 0
  {
    s.(executing := s.executing - 1, ended := s.ended + 1)
  }

  /** The same for a task that had written its result. */
  function EndLate(s: State): State
    requires s.finished > 0
  {
    s.(finished := s.finished - 1, ended := s.ended + 1)
  }

  function Apply(s: State, step: Step): State
    requires Enabled(s, step)
  {
    match step
    case StartClaim => Claim(s, true)
    case RetryClaim => Claim(s, false)
    case Submit => s.(claimed := s.claimed - 1, executing := s.executing + 1)
    case Begin => Write(s, Running)
    case Finish(result) => Write(s, result).(executing := s.executing - 1, finished := s.finished + 1)
    case Crash(recorded) => End(WriteIf(s, recorded, Failed))
    case CancelCheck => s.(cancelling := s.cancelling + 1)
    case CancelFind => s.(cancelling := s.cancelling - 1, waiting := s.waiting + 1)
    case CancelMiss => s.(cancelling := s.cancelling - 1, missed := s.missed + 1)
    case Stop(marked) => End(WriteIf(s, marked, Halted))
    case LateStop(marked) => EndLate(WriteIf(s, marked, Halted))
    case LateCrash(recorded) => EndLate(WriteIf(s, recorded, Failed))
    case Return => EndLate(s)
    case Done(released) => s.(ended := s.ended - 1, waiting := s.waiting - released, marking := s.marking + released)
    case GiveUp => s.(waiting := s.waiting - 1, marking := s.marking + 1)
    case CancelMark(recorded) => WriteIf(s, recorded, Halted).(marking := s.marking - 1)
    case CancelDirect => Write(s, Halted).(missed := s.missed - 1)
    case Restart =>
      WriteIf(s, s.status == Running, Failed).(
        claimed := 0, executing := 0, finished := 0, ended := 0,
        cancelling := 0, waiting := 0, missed := 0, marking := 0)
  }

  /** The status a step leaves, by the statuses themselves. */
  lemma {:induction false} StatusAfterStep(s: State, step: Step)
    requires Enabled(s, step)
    ensures var after := Apply(s, step).status;
            var fails := step == Crash(true) || step == LateCrash(true) || (step == Restart && s.status == Running);
            var halts := step == Stop(true) || step == LateStop(true) || step == CancelMark(true) || step.CancelDirect?;
            if step.StartClaim? || step.RetryClaim? || step.Begin? then after == Running
            else if step.Finish? then after == step.result && after in {Completed, Partial, Failed, Halted}
            else if fails then after == Failed
            else if halts then after == Halted
            else after == s.status
    ensures Enabled(s, StartClaim) <==> s.status == Created
    ensures Enabled(s, RetryClaim) <==> s.status in {Partial, Failed, Halted}
    ensures Enabled(s, CancelCheck) <==> s.status in {Created, Running}
  {
  }

  /** Every claim becomes one task and every cancel writes once at most: none is lost short of a restart. */
  lemma {:induction false} NothingIsLost(s: State, step: Step)
    requires Enabled(s, step)
    ensures var s' := Apply(s, step);
            var work, work' := s.claimed + Listed(s), s'.claimed + Listed(s');
            var cancels := s.cancelling + s.waiting + s.missed + s.marking;
            var cancels' := s'.cancelling + s'.waiting + s'.missed + s'.marking;
            if step.Restart? then work' == cancels' == 0
            else
              && work' == work + (if step.StartClaim? || step.RetryClaim? then 1 else if step.Done? then -1 else 0)
              && cancels' == cancels + (if step.CancelCheck? then 1
                                        else if step.CancelMark? || step.CancelDirect? then -1 else 0)
    ensures |Apply(s, step).log| >= |s.log| && (Apply(s, step).status != s.status ==> Apply(s, step).log != s.log)
  {
  }

  const INITIAL := State(Created, 0, 0, 0, 0, 0, 0, 0, 0, [])

  /** The run can happen: each step is enabled in the state the earlier ones lead to. */
  predicate IsRun(s: State, steps: seq<Step>)
    decreases |steps|
  {
    steps == [] || (Enabled(s, steps[0]) && IsRun(Apply(s, steps[0]), steps[1..]))
  }

  function RunFrom(s: State, steps: seq<Step>): State
    requires IsRun(s, steps)
    decreases |steps|
  {
    if steps == [] then s else RunFrom(Apply(s, steps[0]), steps[1..])
  }

  // ---------------------------------------------------------------------------------------------
  // Claims
  // ---------------------------------------------------------------------------------------------

  predicate IsTerminalWrite(e: Event) {
    e.Wrote? && IsTerminal(e.status)
  }

  /** A terminal status is written strictly between the two events. */
  ghost predicate TerminalBetween(log: seq<Event>, i: int, j: int) {
    exists k :: 0 <= i < k < j <= |log| && IsTerminalWrite(log[k])
  }

  /** What the log says about claims, and how the status follows from it. */
  ghost predicate ClaimsOk(s: State) {
    // CREATED is the initial status and never comes back.
    && (s.status == Created <==> s.log == [])
    && (forall k :: 0 <= k < |s.log| ==> s.log[k] != Wrote(Created))
    // Only one start claim ever wins.
    && (forall k :: 0 <= k < |s.log| && s.log[k] == Claimed(true) ==> k == 0)
    // Between two winning claims a terminal status is written.
    && (forall i, j :: 0 <= i < j < |s.log| && s.log[i].Claimed? && s.log[j].Claimed? ==> TerminalBetween(s.log, i, j))
    // After a claim the status is running until a terminal status is written.
    && (forall i :: 0 <= i < |s.log| && s.log[i].Claimed? ==> TerminalBetween(s.log, i, |s.log|) || s.status == Running)
  }

  lemma {:induction false} TerminalBetweenGrows(log: seq<Event>, e: Event)
    ensures forall i, j :: 0 <= i < j <= |log| ==> (TerminalBetween(log + [e], i, j) <==> TerminalBetween(log, i, j))
    ensures forall i :: 0 <= i < |log| && (TerminalBetween(log, i, |log|) || IsTerminalWrite(e)) ==>
                          TerminalBetween(log + [e], i, |log + [e]|)
  {
    var longer := log + [e];
    assert longer[|log|] == e;
    forall i, j | 0 <= i < j <= |log|
      ensures TerminalBetween(longer, i, j) <==> TerminalBetween(log, i, j)
    {
      if TerminalBetween(log, i, j) {
        var k :| 0 <= i < k < j <= |log| && IsTerminalWrite(log[k]);
        assert IsTerminalWrite(longer[k]);
      }
    }
    forall i | 0 <= i < |log| && (TerminalBetween(log, i, |log|) || IsTerminalWrite(e))
      ensures TerminalBetween(longer, i, |longer|)
    {
      if IsTerminalWrite(e) {
        assert IsTerminalWrite(longer[|log|]);
      } else {
        var k :| 0 <= i < k < |log| && IsTerminalWrite(log[k]);
        assert IsTerminalWrite(longer[k]);
      }
    }
  }

  lemma {:induction false} StepKeepsClaims(s: State, step: Step)
    requires ClaimsOk(s) && Enabled(s, step)
    ensures ClaimsOk(Apply(s, step))
  {
    var s' := Apply(s, step);
    if |s'.log| > |s.log| {
      var e := s'.log[|s.log|];
      assert s'.log == s.log + [e];
      TerminalBetweenGrows(s.log, e);
    } else {
      assert s'.log == s.log && s'.status == s.status;
    }
  }

  /** In every interleaving, start is won at most once and a retry only after a terminal status. */
  lemma {:induction false} EveryRunKeepsClaims(s: State, steps: seq<Step>)
    requires ClaimsOk(s) && IsRun(s, steps)
    ensures ClaimsOk(RunFrom(s, steps))
    decreases |steps|
  {
    if steps != [] {
      StepKeepsClaims(s, steps[0]);
      EveryRunKeepsClaims(Apply(s, steps[0]), steps[1..]);
    }
  }

  /** The same, from the row's creation. */
  lemma {:induction false} ClaimsFromCreation(steps: seq<Step>)
    requires IsRun(INITIAL, steps)
    ensures ClaimsOk(RunFrom(INITIAL, steps))
  {
    EveryRunKeepsClaims(INITIAL, steps);
  }

  // ---------------------------------------------------------------------------------------------
  // Overlapping executions
  // ---------------------------------------------------------------------------------------------

  function InFlight(s: State): nat {
    s.claimed + s.executing
  }

  /** At most one execution is claimed or executing, and then the status shows it. */
  predicate Exclusive(s: State) {
    InFlight(s) <= 1 && (s.status != Running ==> InFlight(s) == 0)
  }

  /** A terminal write that comes neither from an execution without a result yet nor from a restart. */
  predicate IsStrayWrite(step: Step) {
    step == CancelMark(true) || step.CancelDirect? || step == LateStop(true) || step == LateCrash(true)
  }

  /** A stray write hits the row although some execution is claimed or executing. */
  predicate StrayUnderWork(s: State, step: Step) {
    IsStrayWrite(step) && InFlight(s) > 0
  }

  /** Exclusion is lost at exactly the stray writes under work; a retry can then win at once. */
  lemma {:induction false} ExclusionLostExactly(s: State, step: Step)
    requires Exclusive(s) && Enabled(s, step)
    ensures Exclusive(Apply(s, step)) <==> !StrayUnderWork(s, step)
    ensures StrayUnderWork(s, step) ==>
              var s' := Apply(s, step);
              Enabled(s', RetryClaim) && InFlight(Apply(s', RetryClaim)) == 2
  {
  }

  /** No stray write of the run comes under work. */
  predicate NeverStrayUnderWork(s: State, steps: seq<Step>)
    requires IsRun(s, steps)
    decreases |steps|
  {
    steps == [] || (!StrayUnderWork(s, steps[0]) && NeverStrayUnderWork(Apply(s, steps[0]), steps[1..]))
  }

  /** Without such a write, no two executions ever overlap. */
  lemma {:induction false} QuietRunsAreExclusive(s: State, steps: seq<Step>)
    requires Exclusive(s) && IsRun(s, steps) && NeverStrayUnderWork(s, steps)
    ensures Exclusive(RunFrom(s, steps))
    decreases |steps|
  {
    if steps != [] {
      ExclusionLostExactly(s, steps[0]);
      QuietRunsAreExclusive(Apply(s, steps[0]), steps[1..]);
    }
  }

  /** A run in which a cancel comes between a claim and its submission. */
  function Overlapping(): seq<Step> {
    [StartClaim, CancelCheck, CancelMiss, CancelDirect, RetryClaim, Submit, Submit]
  }

  /** A cancel between the claim's commit and the submission leads to two executions at once. */
  lemma {:induction false} CancelBeforeSubmitOverlaps()
    ensures IsRun(INITIAL, Overlapping())
    ensures var s := RunFrom(INITIAL, Overlapping());
            s.executing == 2 && !CancelPending(s) && s.finished == 0
  {
    var s1 := Apply(INITIAL, StartClaim);
    var s2 := Apply(s1, CancelCheck);
    var s3 := Apply(s2, CancelMiss);
    var s4 := Apply(s3, CancelDirect);
    var s5 := Apply(s4, RetryClaim);
    var s6 := Apply(s5, Submit);
    var s7 := Apply(s6, Submit);
    assert IsRun(s7, []) && IsRun(s6, [Submit]);
    assert IsRun(s5, [Submit, Submit]);
    assert IsRun(s4, [RetryClaim, Submit, Submit]);
    assert IsRun(s3, [CancelDirect, RetryClaim, Submit, Submit]);
  }

  lemma {:induction false} TwoSteps(s: State, a: Step, b: Step, rest: seq<Step>)
    requires Enabled(s, a) && Enabled(Apply(s, a), b) && IsRun(Apply(Apply(s, a), b), rest)
    ensures IsRun(s, [a, b] + rest) && RunFrom(s, [a, b] + rest) == RunFrom(Apply(Apply(s, a), b), rest)
  {
    assert ([a, b] + rest)[1..] == [b] + rest && ([b] + rest)[1..] == rest;
    assert IsRun(Apply(s, a), [b] + rest);
  }

  lemma {:induction false} RunsJoin(s: State, a: seq<Step>, b: seq<Step>)
    requires IsRun(s, a) && IsRun(RunFrom(s, a), b)
    ensures IsRun(s, a + b) && RunFrom(s, a + b) == RunFrom(RunFrom(s, a), b)
    decreases |a|
  {
    if a == [] {
      assert a + b == b;
    } else {
      RunsJoin(Apply(s, a[0]), a[1..], b);
      assert (a + b)[1..] == a[1..] + b;
    }
  }

  /** A run in which two cancels find the same task. */
  function TwoCancels(): seq<Step> {
    [StartClaim, Submit] + ([CancelCheck, CancelCheck] + ([CancelFind, CancelFind] + ([Stop(true), Done(2)] + [])))
  }

  /** The first of the two marks the row, a retry is submitted, and the second marks the row again. */
  function RetriesBetween(): seq<Step> {
    [CancelMark(true), RetryClaim] + ([Submit, CancelMark(true)] + ([RetryClaim, Submit] + []))
  }

  lemma {:induction false} TwoCancelsRun()
    ensures IsRun(INITIAL, TwoCancels())
    ensures var s := RunFrom(INITIAL, TwoCancels()); s.status == Halted && s.marking == 2 && InFlight(s) == 0
  {
    var s1 := Apply(Apply(INITIAL, StartClaim), Step.Submit);
    var s2 := Apply(Apply(s1, CancelCheck), CancelCheck);
    var s3 := Apply(Apply(s2, CancelFind), CancelFind);
    TwoSteps(s3, Stop(true), Done(2), []);
    TwoSteps(s2, CancelFind, CancelFind, [Stop(true), Done(2)] + []);
    TwoSteps(s1, CancelCheck, CancelCheck, [CancelFind, CancelFind] + ([Stop(true), Done(2)] + []));
    TwoSteps(INITIAL, StartClaim, Step.Submit,
             [CancelCheck, CancelCheck] + ([CancelFind, CancelFind] + ([Stop(true), Done(2)] + [])));
  }

  lemma {:induction false} RetriesBetweenRun(s: State)
    requires s.status == Halted && s.marking == 2 && InFlight(s) == 0
    ensures IsRun(s, RetriesBetween()) && RunFrom(s, RetriesBetween()).executing == 2
  {
    var s1 := Apply(Apply(s, CancelMark(true)), RetryClaim);
    var s2 := Apply(Apply(s1, Step.Submit), CancelMark(true));
    TwoSteps(s2, RetryClaim, Step.Submit, []);
    TwoSteps(s1, Step.Submit, CancelMark(true), [RetryClaim, Submit] + []);
    TwoSteps(s, CancelMark(true), RetryClaim, [Submit, CancelMark(true)] + ([RetryClaim, Submit] + []));
  }

  /**
   Two cancels of one task lead to two executions too, when the slower one marks the row after a retry was submitted.
   */
  lemma {:induction false} SecondCancelOverlaps()
    ensures IsRun(INITIAL, TwoCancels() + RetriesBetween())
    ensures RunFrom(INITIAL, TwoCancels() + RetriesBetween()).executing == 2
  {
    TwoCancelsRun();
    RetriesBetweenRun(RunFrom(INITIAL, TwoCancels()));
    RunsJoin(INITIAL, TwoCancels(), RetriesBetween());
  }

  // ---------------------------------------------------------------------------------------------
  // How long a completed investigation stays completed
  // ---------------------------------------------------------------------------------------------

  /** Whoever awaits a task, some task is still listed. */
  predicate WaitsOk(s: State) {
    s.waiting > 0 ==> Listed(s) > 0
  }

  lemma {:induction false} EveryRunKeepsWaits(s: State, steps: seq<Step>)
    requires WaitsOk(s) && IsRun(s, steps)
    ensures WaitsOk(RunFrom(s, steps))
    decreases |steps|
  {
    if steps != [] {
      EveryRunKeepsWaits(Apply(s, steps[0]), steps[1..]);
    }
  }

  /** A write by which an execution replaces the status COMPLETED, before it has written its result or as its result. */
  predicate IsOtherWrite(step: Step) {
    step.Begin? || (step.Finish? && step.result != Completed) || step == Crash(true) || step == Stop(true)
  }

  /** The steps at which a completed investigation leaves that status; the first kind needs an overlapping execution. */
  lemma {:induction false} CompletedIsLeftExactly(s: State, step: Step)
    requires Enabled(s, step) && s.status == Completed
    ensures Apply(s, step).status != Completed <==> IsOtherWrite(step) || IsStrayWrite(step)
    ensures IsOtherWrite(step) ==> !Exclusive(s)
  {
  }

  /** Some cancel request has seen a status that was not terminal, and has not written yet. */
  predicate CancelPending(s: State) {
    s.cancelling > 0 || s.waiting > 0 || s.missed > 0 || s.marking > 0
  }

  lemma {:induction false} CompletedIsKept(s: State, steps: seq<Step>)
    requires s.status == Completed && InFlight(s) == 0 && !CancelPending(s) && s.finished == 0 && IsRun(s, steps)
    ensures RunFrom(s, steps).status == Completed
    decreases |steps|
  {
    if steps != [] {
      CompletedIsKept(Apply(s, steps[0]), steps[1..]);
    }
  }

  /** A pending cancel, or a task that a handler still guards, has a run of its own that ends with the row halted. */
  lemma {:induction false} StrayWriteAhead(s: State) returns (steps: seq<Step>)
    requires WaitsOk(s) && (CancelPending(s) || s.finished > 0) && InFlight(s) == 0
    ensures IsRun(s, steps) && RunFrom(s, steps).status == Halted
    decreases s.cancelling
  {
    if s.finished > 0 {
      steps := [LateStop(true)];
      assert IsRun(Apply(s, LateStop(true)), []);
    } else if s.marking > 0 {
      steps := [CancelMark(true)];
      assert IsRun(Apply(s, CancelMark(true)), []);
    } else if s.missed > 0 {
      steps := [CancelDirect];
      assert IsRun(Apply(s, CancelDirect), []);
    } else if s.waiting > 0 {
      steps := [Done(s.waiting), CancelMark(true)] + [];
      TwoSteps(s, Done(s.waiting), CancelMark(true), []);
    } else if s.ended > 0 {
      var s' := Apply(s, CancelFind);
      var rest := StrayWriteAhead(s');
      steps := [CancelFind] + rest;
      assert steps[1..] == rest;
    } else {
      steps := [CancelMiss, CancelDirect] + [];
      TwoSteps(s, CancelMiss, CancelDirect, []);
    }
  }

  /** An execution still in flight has a run of its own that ends with the row marked running. */
  lemma {:induction false} RunningAgainAhead(s: State) returns (steps: seq<Step>)
    requires InFlight(s) > 0
    ensures IsRun(s, steps) && RunFrom(s, steps).status == Running
  {
    if s.executing > 0 {
      steps := [Step.Begin];
      assert IsRun(Apply(s, Step.Begin), []);
    } else {
      steps := [Step.Submit, Step.Begin] + [];
      TwoSteps(s, Step.Submit, Step.Begin, []);
    }
  }

  /**
   A completed investigation stays completed in every run exactly if no other execution is claimed or executing, no
   cancel request is pending, and every listed task is past its writes.
   */
  lemma {:induction false} CompletedIsKeptExactly(s: State)
    requires WaitsOk(s) && s.status == Completed
    ensures (forall steps :: IsRun(s, steps) ==> RunFrom(s, steps).status == Completed) <==>
              InFlight(s) == 0 && !CancelPending(s) && s.finished == 0
  {
    if InFlight(s) > 0 {
      var steps := RunningAgainAhead(s);
      assert RunFrom(s, steps).status != Completed;
    } else if CancelPending(s) || s.finished > 0 {
      var steps := StrayWriteAhead(s);
      assert RunFrom(s, steps).status != Completed;
    } else {
      forall steps | IsRun(s, steps)
        ensures RunFrom(s, steps).status == Completed
      {
        CompletedIsKept(s, steps);
      }
    }
  }

  /** A run that completes after a cancel has looked. */
  function CompletedMeanwhile(): seq<Step> {
    [StartClaim, Submit] + ([CancelCheck, Finish(Completed)] + [])
  }

  function LateHalt(): seq<Step> {
    [CancelFind, Return] + ([Done(1), CancelMark(true)] + [])
  }

  /** The cancel turns the completion it did not see into a halt. */
  lemma {:induction false} CompletedCanBeHalted()
    ensures IsRun(INITIAL, CompletedMeanwhile()) && RunFrom(INITIAL, CompletedMeanwhile()).status == Completed
    ensures IsRun(INITIAL, CompletedMeanwhile() + LateHalt())
    ensures RunFrom(INITIAL, CompletedMeanwhile() + LateHalt()).status == Halted
  {
    var s1 := Apply(Apply(INITIAL, StartClaim), Step.Submit);
    TwoSteps(s1, CancelCheck, Step.Finish(Completed), []);
    TwoSteps(INITIAL, StartClaim, Step.Submit, [CancelCheck, Step.Finish(Completed)] + []);
    var s2 := RunFrom(INITIAL, CompletedMeanwhile());
    LateHaltRun(s2);
    RunsJoin(INITIAL, CompletedMeanwhile(), LateHalt());
  }

  lemma {:induction false} LateHaltRun(s: State)
    requires s.status == Completed && s.cancelling > 0 && s.waiting == 0 && Listed(s) == s.finished == 1
    ensures IsRun(s, LateHalt()) && RunFrom(s, LateHalt()).status == Halted
  {
    var s1 := Apply(Apply(s, CancelFind), Return);
    TwoSteps(s1, Done(1), CancelMark(true), []);
    TwoSteps(s, CancelFind, Return, [Done(1), CancelMark(true)] + []);
  }

  /** Runs without any cancel request that complete, and do not stay completed. */
  lemma {:induction false} CompletedCanBeLost()
    ensures var steps := [StartClaim, Submit, Finish(Completed), LateStop(true)];
            IsRun(INITIAL, steps) && RunFrom(INITIAL, steps).status == Halted
    ensures var steps := [StartClaim, Submit, Finish(Completed), LateCrash(true)];
            IsRun(INITIAL, steps) && RunFrom(INITIAL, steps).status == Failed
  {
    var s1 := Apply(INITIAL, StartClaim);
    var s2 := Apply(s1, Step.Submit);
    var s3 := Apply(s2, Step.Finish(Completed));
    assert IsRun(Apply(s3, LateStop(true)), []) && IsRun(Apply(s3, LateCrash(true)), []);
    assert IsRun(s2, [Step.Finish(Completed), LateStop(true)]);
    assert IsRun(s2, [Step.Finish(Completed), LateCrash(true)]);
  }

  /** One of two executions completes with no cancel pending, and the other marks the row running again. */
  lemma {:induction false} OverlapLosesCompletion()
    ensures var completing := [Step.Finish(Completed), Return];
            && IsRun(INITIAL, Overlapping() + completing)
            && var s := RunFrom(INITIAL, Overlapping() + completing);
               && s.status == Completed && !CancelPending(s) && s.finished == 0
               && Enabled(s, Step.Begin) && Apply(s, Step.Begin).status == Running
  {
    CancelBeforeSubmitOverlaps();
    var s := RunFrom(INITIAL, Overlapping());
    TwoSteps(s, Step.Finish(Completed), Return, []);
    assert [Step.Finish(Completed), Return] + [] == [Step.Finish(Completed), Return];
    RunsJoin(INITIAL, Overlapping(), [Step.Finish(Completed), Return]);
  }

  // ---------------------------------------------------------------------------------------------
  // The row and the parties that write it
  // ---------------------------------------------------------------------------------------------

  /** The stored status, with what the claims speak about; each method is one step of one party. */
  class Investigation {
    var status: Status
    ghost var claimed: nat
    ghost var executing: nat
    ghost var finished: nat
    ghost var ended: nat
    ghost var cancelling: nat
    ghost var waiting: nat
    ghost var missed: nat
    ghost var marking: nat
    ghost var log: seq<Event>

    ghost function Snapshot(): State
      reads this
    {
      State(status, claimed, executing, finished, ended, cancelling, waiting, missed, marking, log)
    }

    ghost predicate Valid()
      reads this
    {
      ClaimsOk(Snapshot()) && WaitsOk(Snapshot())
    }

    constructor ()
      ensures Valid() && Snapshot() == INITIAL
    {
      status, claimed, executing, finished, ended := Created, 0, 0, 0, 0;
      cancelling, waiting, missed, marking, log := 0, 0, 0, 0, [];
    }

    method WriteStatus(written: Status)
      modifies this`status, this`log
      ensures Snapshot() == Write(old(Snapshot()), written)
    {
      status, log := written, log + [Wrote(written)];
    }

    /** The one statement that reads and writes: at most one of two concurrent starters wins. */
    method Start() returns (won: bool)
      requires Valid()
      modifies this
      ensures Valid() && (won <==> old(status) == Created)
      ensures Snapshot() == if won then Apply(old(Snapshot()), StartClaim) else old(Snapshot())
    {
      if status != Created {
        return false;
      }
      StepKeepsClaims(Snapshot(), StartClaim);
      status, claimed, log := Running, claimed + 1, log + [Claimed(true)];
      return true;
    }

    /** `loaded` is the status the request has read before; it may be stale, and then it can only refuse. */
    method Retry(loaded: Status) returns (won: bool)
      requires Valid()
      modifies this
      ensures Valid() && (won <==> IsRetryable(loaded) && IsRetryable(old(status)))
      ensures Snapshot() == if won then Apply(old(Snapshot()), RetryClaim) else old(Snapshot())
    {
      if !(loaded.Failed? || loaded.Halted? || loaded.Partial?) {
        return false;
      }
      if !(status.Failed? || status.Halted? || status.Partial?) {
        return false;
      }
      StepKeepsClaims(Snapshot(), RetryClaim);
      status, claimed, log := Running, claimed + 1, log + [Claimed(false)];
      return true;
    }

    ghost method Submit()
      requires Valid() && claimed > 0
      modifies this
      ensures Valid() && Snapshot() == Apply(old(Snapshot()), Step.Submit)
    {
      claimed, executing := claimed - 1, executing + 1;
    }

    /** The orchestrator marks the row running when it begins, whatever the row says. */
    method Begin()
      requires Valid() && executing > 0
      modifies this
      ensures Valid() && Snapshot() == Apply(old(Snapshot()), Step.Begin)
    {
      StepKeepsClaims(Snapshot(), Step.Begin);
      WriteStatus(Running);
    }

    /** The orchestrator writes the result, whatever the row says. */
    method Finish(result: Status)
      requires Valid() && executing > 0 && IsTerminal(result)
      modifies this
      ensures Valid() && Snapshot() == Apply(old(Snapshot()), Step.Finish(result))
    {
      StepKeepsClaims(Snapshot(), Step.Finish(result));
      WriteStatus(result);
      executing, finished := executing - 1, finished + 1;
    }

    /** The runner writes a crash back; a failure to do so is only logged. */
    method MarkCrashed(recorded: bool)
      requires Valid() && executing > 0
      modifies this
      ensures Valid() && Snapshot() == Apply(old(Snapshot()), Crash(recorded))
    {
      StepKeepsClaims(Snapshot(), Crash(recorded));
      if recorded {
        WriteStatus(Failed);
      }
      executing, ended := executing - 1, ended + 1;
    }

    method CheckCancellable() returns (allowed: bool)
      requires Valid()
      modifies this
      ensures Valid() && (allowed <==> !IsTerminal(old(status)))
      ensures Snapshot() == if allowed then Apply(old(Snapshot()), CancelCheck) else old(Snapshot())
    {
      if status.Completed? || status.Partial? || status.Failed? || status.Halted? {
        return false;
      }
      StepKeepsClaims(Snapshot(), CancelCheck);
      cancelling := cancelling + 1;
      return true;
    }

    /** The search of a cancel for a listed task. */
    ghost method FindTask() returns (found: bool)
      requires Valid() && cancelling > 0
      modifies this
      ensures Valid() && (found <==> old(executing + finished + ended) > 0)
      ensures Snapshot() == Apply(old(Snapshot()), if found then CancelFind else CancelMiss)
    {
      found := executing + finished + ended > 0;
      cancelling := cancelling - 1;
      if found {
        waiting := waiting + 1;
      } else {
        missed := missed + 1;
      }
    }

    /** The handler of a cancelled task; a task that had not begun yet has none. */
    method StopTask(marks: bool)
      requires Valid() && executing > 0
      modifies this
      ensures Valid() && Snapshot() == Apply(old(Snapshot()), Stop(marks))
    {
      StepKeepsClaims(Snapshot(), Stop(marks));
      if marks {
        WriteStatus(Halted);
      }
      executing, ended := executing - 1, ended + 1;
    }

    /** The same handler, reached while the result is committed and `_finish` still awaited. */
    method StopLate(marks: bool)
      requires Valid() && finished > 0
      modifies this
      ensures Valid() && Snapshot() == Apply(old(Snapshot()), LateStop(marks))
    {
      StepKeepsClaims(Snapshot(), LateStop(marks));
      if marks {
        WriteStatus(Halted);
      }
      finished, ended := finished - 1, ended + 1;
    }

    /** The handler of a crash that comes after the result is committed. */
    method CrashLate(recorded: bool)
      requires Valid() && finished > 0
      modifies this
      ensures Valid() && Snapshot() == Apply(old(Snapshot()), LateCrash(recorded))
    {
      StepKeepsClaims(Snapshot(), LateCrash(recorded));
      if recorded {
        WriteStatus(Failed);
      }
      finished, ended := finished - 1, ended + 1;
    }

    /** The write of a cancel that has awaited its task; a failure to write is only logged. */
    method MarkHalted(recorded: bool)
      requires Valid() && marking > 0
      modifies this
      ensures Valid() && Snapshot() == Apply(old(Snapshot()), CancelMark(recorded))
    {
      StepKeepsClaims(Snapshot(), CancelMark(recorded));
      if recorded {
        WriteStatus(Halted);
      }
      marking := marking - 1;
    }

    /** The write of a cancel that found no task to stop. */
    method HaltDirectly()
      requires Valid() && missed > 0
      modifies this
      ensures Valid() && Snapshot() == Apply(old(Snapshot()), CancelDirect)
    {
      StepKeepsClaims(Snapshot(), CancelDirect);
      WriteStatus(Halted);
      missed := missed - 1;
    }

    /** What the process held is gone; a row still running is marked failed. */
    method RecoverInterrupted()
      requires Valid()
      modifies this
      ensures Valid() && Snapshot() == Apply(old(Snapshot()), Restart)
    {
      ghost var after := Apply(Snapshot(), Restart);
      StepKeepsClaims(Snapshot(), Restart);
      if status == Running {
        WriteStatus(Failed);
      }
      claimed, executing, finished, ended := 0, 0, 0, 0;
      cancelling, waiting, missed, marking := 0, 0, 0, 0;
      assert Snapshot() == after;
    }
  }
}
