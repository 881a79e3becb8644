/**
 Model routing (src/acip/core/llm/router.py): the fallback chain over candidates, the repair loop
 of one candidate, the token budget, and the execution traces.  A provider is an arbitrary oracle
 from the candidate and the attempt to a reply.
 */
module Router {
  import opened Prelude

  datatype ErrorKind =
    | QuotaExceeded | RateLimited | Unavailable | Timeout
    | Refused | SchemaFailed | AuthFailed
    | NoAvailableProvider | BudgetExceeded | OtherError

  predicate CanFallback(e: ErrorKind) {
    e.QuotaExceeded? || e.RateLimited? || e.Unavailable? || e.Timeout?
  }

  /** Errors that are traced before they are raised. */
  predicate IsTraced(e: ErrorKind) {
    e.Refused? || e.SchemaFailed? || e.AuthFailed?
  }

  /** What a provider does with one request.  `valid` says whether the schema accepts the content. */
  datatype Reply = Response(tokensIn: nat, tokensOut: nat, valid: bool) | Failure(error: ErrorKind)

  datatype Candidate = Candidate(provider: string, model: string)

  datatype Trace = Trace(candidate: Candidate, tokens: nat, schemaValid: bool, fallbackFrom: Option<Candidate>)

  /** One call of `complete`: its routing rule, whether a schema is wanted, and how providers reply. */
  datatype Call = Call(
    candidates: seq<Candidate>,
    wantsSchema: bool,
    schemaRetries: nat,
    replies: (nat, nat) -> Reply)

  function Tokens(r: Reply): nat {
    if r.Response? then r.tokensIn + r.tokensOut else 0
  }

  // ---------------------------------------------------------------------------------------------
  // One candidate
  // ---------------------------------------------------------------------------------------------

  /** How many attempts one candidate may get. */
  function MaxAttempts(call: Call): nat {
    if call.wantsSchema then call.schemaRetries + 1 else 1
  }

  /** A response is sent back for repair. */
  predicate NeedsRepair(call: Call, r: Reply) {
    r.Response? && call.wantsSchema && !r.valid
  }

  /** The candidate's attempts end with attempt `last`: all before it were repaired. */
  ghost predicate EndsAt(call: Call, i: nat, last: nat) {
    && last < MaxAttempts(call)
    && (forall a :: 0 <= a < last ==> NeedsRepair(call, call.replies(i, a)))
    && (NeedsRepair(call, call.replies(i, last)) ==> last + 1 == MaxAttempts(call))
  }

  function ResultOf(call: Call, r: Reply): Result<Reply, ErrorKind> {
    if r.Failure? then Err(r.error) else if NeedsRepair(call, r) then Err(SchemaFailed) else Ok(r)
  }

  /** The repair loop: the attempt it ends with. */
  function LastAttempt(call: Call, i: nat, a: nat): (last: nat)
    requires a < MaxAttempts(call)
    ensures a <= last < MaxAttempts(call)
    decreases MaxAttempts(call) - a
  {
    if NeedsRepair(call, call.replies(i, a)) && a + 1 < MaxAttempts(call) then LastAttempt(call, i, a + 1) else a
  }

  /** The loop ends at the one attempt at which it can. */
  lemma {:induction false} LastAttemptIsTheEnd(call: Call, i: nat, a: nat, last: nat)
    requires a <= last < MaxAttempts(call) && forall b :: 0 <= b < a ==> NeedsRepair(call, call.replies(i, b))
    ensures EndsAt(call, i, last) <==> last == LastAttempt(call, i, a)
    decreases MaxAttempts(call) - a
  {
    if NeedsRepair(call, call.replies(i, a)) && a + 1 < MaxAttempts(call) {
      if a < last {
        LastAttemptIsTheEnd(call, i, a + 1, last);
      }
    }
  }

  function OutcomeOf(call: Call, i: nat): Result<Reply, ErrorKind> {
    ResultOf(call, call.replies(i, LastAttempt(call, i, 0)))
  }

  /** `_execute_candidate`: ask, and while repairs remain, send invalid output back. */
  method ExecuteCandidate(call: Call, i: nat, ghost calls0: seq<(nat, nat)>)
    returns (r: Result<Reply, ErrorKind>, ghost calls: seq<(nat, nat)>)
    ensures r == OutcomeOf(call, i)
    ensures calls == calls0 + Attempts(i, LastAttempt(call, i, 0) + 1)
  {
    var retriesRemaining := if call.wantsSchema then call.schemaRetries else 0;
    var attempt := 0;
    calls := calls0;
    while true
      invariant 0 <= retriesRemaining && attempt + retriesRemaining + 1 == MaxAttempts(call)
      invariant LastAttempt(call, i, attempt) == LastAttempt(call, i, 0)
      invariant calls == calls0 + Attempts(i, attempt)
      decreases retriesRemaining
    {
      var reply := call.replies(i, attempt);
      calls := calls + [(i, attempt)];
      if reply.Failure? {
        return Err(reply.error), calls;
      }
      if !call.wantsSchema || reply.valid {
        return Ok(reply), calls;
      }
      if retriesRemaining == 0 {
        return Err(SchemaFailed), calls;
      }
      retriesRemaining := retriesRemaining - 1;
      attempt := attempt + 1;
    }
  }

  /** The first `n` requests to candidate `i`. */
  ghost function Attempts(i: nat, n: nat): seq<(nat, nat)> {
    seq(n, a => (i, a))
  }

  // ---------------------------------------------------------------------------------------------
  // The chain
  // ---------------------------------------------------------------------------------------------

  /** The router goes on to the next candidate. */
  predicate Passes(registered: set<string>, call: Call, i: nat)
    requires i < |call.candidates|
  {
    || call.candidates[i].provider !in registered
    || (OutcomeOf(call, i).Err? && CanFallback(OutcomeOf(call, i).error))
  }

  /** Candidate `j` settles the call: every earlier one was passed over, it is not. */
  ghost predicate Settles(registered: set<string>, call: Call, j: nat) {
    && j < |call.candidates| && !Passes(registered, call, j)
    && forall i :: 0 <= i < j ==> Passes(registered, call, i)
  }

  function Settler(registered: set<string>, call: Call, i: nat): (s: Option<nat>)
    requires i <= |call.candidates|
    ensures s.Some? ==> i <= s.value < |call.candidates|
    decreases |call.candidates| - i
  {
    if i == |call.candidates| then None
    else if Passes(registered, call, i) then Settler(registered, call, i + 1)
    else Some(i)
  }

  lemma {:induction false} SettlerSettles(registered: set<string>, call: Call, i: nat)
    requires i <= |call.candidates| && forall k :: 0 <= k < i ==> Passes(registered, call, k)
    ensures var s := Settler(registered, call, i);
            && (s.Some? ==> Settles(registered, call, s.value))
            && (s.None? ==> forall k :: 0 <= k < |call.candidates| ==> Passes(registered, call, k))
    decreases |call.candidates| - i
  {
    if i < |call.candidates| && Passes(registered, call, i) {
      SettlerSettles(registered, call, i + 1);
    }
  }

  /** The last registered candidate before `j`. */
  function FallbackFrom(registered: set<string>, call: Call, j: nat): Option<Candidate>
    requires j <= |call.candidates|
  {
    if j == 0 then None
    else if call.candidates[j - 1].provider in registered then Some(call.candidates[j - 1])
    else FallbackFrom(registered, call, j - 1)
  }

  /** The requests made to the candidates before `j`, in order. */
  ghost function RequestsBefore(registered: set<string>, call: Call, j: nat): seq<(nat, nat)>
    requires j <= |call.candidates|
  {
    if j == 0 then []
    else RequestsBefore(registered, call, j - 1)
         + if call.candidates[j - 1].provider in registered then Attempts(j - 1, LastAttempt(call, j - 1, 0) + 1)
             else []
  }

  function TotalTokens(traces: seq<Trace>): nat {
    if traces == [] then 0 else TotalTokens(traces[..|traces| - 1]) + traces[|traces| - 1].tokens
  }

  /** What a call returns or raises when the budget gate lets it through. */
  function VerdictOf(registered: set<string>, call: Call): Result<Reply, ErrorKind> {
    var s := Settler(registered, call, 0);
    if s.None? then Err(NoAvailableProvider) else OutcomeOf(call, s.value)
  }

  /** The trace a call leaves behind: at most one, only when a candidate settles it. */
  function TraceOf(registered: set<string>, call: Call): Option<Trace> {
    var s := Settler(registered, call, 0);
    if s.None? then None
    else
      var candidate, from := call.candidates[s.value], FallbackFrom(registered, call, s.value);
      match OutcomeOf(call, s.value)
      case Ok(reply) => Some(Trace(candidate, Tokens(reply), true, from))
      case Err(e) => if IsTraced(e) then Some(Trace(candidate, 0, !e.SchemaFailed?, from)) else None
  }

  /** All requests of a call the budget gate lets through: up to the candidate that settles it, or to all. */
  ghost function RequestsOf(registered: set<string>, call: Call): seq<(nat, nat)> {
    var s := Settler(registered, call, 0);
    RequestsBefore(registered, call, if s.None? then |call.candidates| else s.value + 1)
  }

  function Append(traces: seq<Trace>, t: Option<Trace>): seq<Trace> {
    if t.Some? then traces + [t.value] else traces
  }

  class ModelRouter {
    const registered: set<string>
    const maxTokens: int
    /** The execution traces of one investigation. */
    var traces: seq<Trace>

    constructor (registered: set<string>, maxTokens: int)
      ensures this.registered == registered && this.maxTokens == maxTokens && traces == []
    {
      this.registered, this.maxTokens, traces := registered, maxTokens, [];
    }

    method Complete(call: Call, withSession: bool)
      returns (r: Result<Reply, ErrorKind>, ghost calls: seq<(nat, nat)>)
      modifies this
      // Over budget: refused without asking anyone.
      ensures withSession && TotalTokens(old(traces)) >= maxTokens ==>
                r == Err(BudgetExceeded) && calls == [] && traces == old(traces)
      // Otherwise the first candidate that is not passed over decides, and nobody after it is asked.
      ensures !(withSession && TotalTokens(old(traces)) >= maxTokens) ==>
                && r == VerdictOf(registered, call)
                && traces == Append(old(traces), if withSession then TraceOf(registered, call) else None)
                && calls == RequestsOf(registered, call)
      // And this is what the replies alone say about it.
      ensures !(withSession && TotalTokens(old(traces)) >= maxTokens) ==>
                AsReplied(registered, call, r, TraceOf(registered, call), calls)
    {
      CallIsAsReplied(registered, call);
      calls := [];
      if withSession && TotalTokens(traces) >= maxTokens {
        return Err(BudgetExceeded), calls;
      }
      if call.candidates == [] {
        return Err(NoAvailableProvider), calls;
      }
      var fallbackFrom: Option<Candidate> := None;
      for i := 0 to |call.candidates|
        invariant traces == old(traces)
        invariant Settler(registered, call, 0) == Settler(registered, call, i)
        invariant fallbackFrom == FallbackFrom(registered, call, i)
        invariant calls == RequestsBefore(registered, call, i)
      {
        var candidate := call.candidates[i];
        if candidate.provider !in registered {
          assert calls + [] == calls;
          continue;
        }
        r, calls := ExecuteCandidate(call, i, calls);
        match r
        case Ok(reply) =>
          if withSession {
            traces := traces + [Trace(candidate, Tokens(reply), true, fallbackFrom)];
          }
          return r, calls;
        case Err(e) =>
          if IsTraced(e) {
            if withSession {
              traces := traces + [Trace(candidate, 0, !e.SchemaFailed?, fallbackFrom)];
            }
            return r, calls;
          }
          if !CanFallback(e) {
            return r, calls;
          }
          fallbackFrom := Some(candidate);
      }
      return Err(NoAvailableProvider), calls;
    }
  }

  // ---------------------------------------------------------------------------------------------
  // What a call may ask and spend
  // ---------------------------------------------------------------------------------------------

  /**
   A later candidate is asked only after every earlier registered one failed with an error that
   allows falling back, and no candidate is asked more than `schemaRetries + 1` times.
   */
  lemma {:induction false} RequestsAreJustified(registered: set<string>, call: Call, j: nat, k: nat)
    requires j <= |call.candidates| && forall i :: 0 <= i < j - 1 ==> Passes(registered, call, i)
    requires k < |RequestsBefore(registered, call, j)|
    ensures var (i, a) := RequestsBefore(registered, call, j)[k];
            && i < j && call.candidates[i].provider in registered && a < MaxAttempts(call)
            && (forall b :: 0 <= b < a ==> NeedsRepair(call, call.replies(i, b)))
            && forall h :: 0 <= h < i && call.candidates[h].provider in registered ==>
                 OutcomeOf(call, h).Err? && CanFallback(OutcomeOf(call, h).error)
  {
    var before := RequestsBefore(registered, call, j - 1);
    if k < |before| {
      RequestsAreJustified(registered, call, j - 1, k);
    } else {
      var last := LastAttempt(call, j - 1, 0);
      LastAttemptIsTheEnd(call, j - 1, 0, last);
      assert RequestsBefore(registered, call, j)[k] == (j - 1, k - |before|);
      forall h | 0 <= h < j - 1 && call.candidates[h].provider in registered
        ensures OutcomeOf(call, h).Err? && CanFallback(OutcomeOf(call, h).error)
      {
        assert Passes(registered, call, h);
      }
    }
  }

  /** The traces after a sequence of calls in one investigation, each gated on those before it. */
  function TracesAfter(registered: set<string>, maxTokens: int, calls: seq<Call>): seq<Trace> {
    if calls == [] then []
    else
      var before := TracesAfter(registered, maxTokens, calls[..|calls| - 1]);
      if TotalTokens(before) >= maxTokens then before else Append(before, TraceOf(registered, calls[|calls| - 1]))
  }

  /** Over any run, recorded tokens stay below the ceiling plus one response. */
  lemma {:induction false} BudgetHolds(registered: set<string>, maxTokens: int, calls: seq<Call>, largest: nat)
    requires forall n, i, a :: 0 <= n < |calls| ==> Tokens(calls[n].replies(i, a)) <= largest
    ensures TotalTokens(TracesAfter(registered, maxTokens, calls)) < Max(maxTokens, 1) + largest
  {
    if calls != [] {
      var front, call := calls[..|calls| - 1], calls[|calls| - 1];
      BudgetHolds(registered, maxTokens, front, largest);
      var before := TracesAfter(registered, maxTokens, front);
      var t := TraceOf(registered, call);
      if TotalTokens(before) < maxTokens && t.Some? {
        assert (before + [t.value])[..|before|] == before;
        TraceCost(registered, call, largest);
      }
    }
  }

  lemma {:induction false} TraceCost(registered: set<string>, call: Call, largest: nat)
    requires forall i, a :: Tokens(call.replies(i, a)) <= largest
    ensures TraceOf(registered, call).Some? ==> TraceOf(registered, call).value.tokens <= largest
  {
  }

  /** Some candidate's provider is registered. */
  predicate CanAsk(registered: set<string>, call: Call) {
    exists i :: 0 <= i < |call.candidates| && call.candidates[i].provider in registered
  }

  /** Every registered candidate answers every request with output the schema rejects. */
  ghost predicate AlwaysInvalid(registered: set<string>, call: Call) {
    && call.wantsSchema && CanAsk(registered, call)
    && forall i, a :: call.replies(i, a).Response? && !call.replies(i, a).valid
  }

  lemma {:induction false} AlwaysInvalidTrace(registered: set<string>, call: Call)
    requires AlwaysInvalid(registered, call)
    ensures TraceOf(registered, call).Some? && TraceOf(registered, call).value.tokens == 0
  {
    SettlerSettles(registered, call, 0);
    var i :| 0 <= i < |call.candidates| && call.candidates[i].provider in registered;
    forall k: nat
      ensures OutcomeOf(call, k) == Err(SchemaFailed)
    {
      assert NeedsRepair(call, call.replies(k, LastAttempt(call, k, 0)));
    }
    assert !Passes(registered, call, i);
  }

  /**
   The ceiling counts only accepted responses: a run whose output never validates records no tokens
   and is never stopped, whatever its responses cost.
   */
  lemma {:induction false} RejectedOutputIsNotCounted(registered: set<string>, maxTokens: int, calls: seq<Call>)
    requires maxTokens >= 1 && forall n :: 0 <= n < |calls| ==> AlwaysInvalid(registered, calls[n])
    ensures TotalTokens(TracesAfter(registered, maxTokens, calls)) == 0
    ensures |TracesAfter(registered, maxTokens, calls)| == |calls|
  {
    if calls != [] {
      var front, call := calls[..|calls| - 1], calls[|calls| - 1];
      RejectedOutputIsNotCounted(registered, maxTokens, front);
      var before := TracesAfter(registered, maxTokens, front);
      AlwaysInvalidTrace(registered, call);
      assert (before + [TraceOf(registered, call).value])[..|before|] == before;
    }
  }

  /** What the providers charge for some requests of a call. */
  ghost function Usage(call: Call, requests: seq<(nat, nat)>): nat {
    if requests == [] then 0
    else Usage(call, requests[..|requests| - 1])
         + Tokens(call.replies(requests[|requests| - 1].0, requests[|requests| - 1].1))
  }

  lemma {:induction false} UsageAtLeast(call: Call, requests: seq<(nat, nat)>, cost: nat, n: nat)
    requires n <= |requests| && forall i, a :: Tokens(call.replies(i, a)) >= cost
    ensures Usage(call, requests) >= cost * n
  {
    if n > 0 {
      UsageAtLeast(call, requests[..|requests| - 1], cost, n - 1);
      assert cost * n == cost * (n - 1) + cost;
    }
  }

  lemma {:induction false} AllAttemptsUsed(registered: set<string>, call: Call)
    requires AlwaysInvalid(registered, call)
    ensures var s := Settler(registered, call, 0);
            s.Some? && |RequestsOf(registered, call)| > call.schemaRetries
  {
    AlwaysInvalidTrace(registered, call);
    SettlerSettles(registered, call, 0);
    var j := Settler(registered, call, 0).value;
    LastAttemptIsTheEnd(call, j, 0, LastAttempt(call, j, 0));
  }

  /** The call that records nothing has used up every attempt of the candidate that settled it. */
  lemma {:induction false} RejectedOutputCosts(registered: set<string>, call: Call, cost: nat)
    requires AlwaysInvalid(registered, call) && forall i, a :: Tokens(call.replies(i, a)) >= cost
    ensures var s := Settler(registered, call, 0);
            s.Some? && Usage(call, RequestsOf(registered, call)) >= cost * (call.schemaRetries + 1)
  {
    AllAttemptsUsed(registered, call);
    UsageAtLeast(call, RequestsOf(registered, call), cost, call.schemaRetries + 1);
  }

  // ---------------------------------------------------------------------------------------------
  // When everything charged is recorded
  // ---------------------------------------------------------------------------------------------

  /** What a call past the budget gate records: without a session, nothing. */
  function Recorded(registered: set<string>, call: Call, withSession: bool): nat {
    var t := TraceOf(registered, call);
    if withSession && t.Some? then t.value.tokens else 0
  }

  /** With these replies, the call records exactly what its requests are charged for. */
  ghost predicate RecordsAll(registered: set<string>, call: Call, withSession: bool, replies: (nat, nat) -> Reply) {
    var asked := call.(replies := replies);
    Recorded(registered, asked, withSession) == Usage(asked, RequestsOf(registered, asked))
  }

  lemma {:induction false} UsageOfOneMore(call: Call, requests: seq<(nat, nat)>, i: nat, a: nat)
    ensures Usage(call, requests + [(i, a)]) == Usage(call, requests) + Tokens(call.replies(i, a))
  {
    assert (requests + [(i, a)])[..|requests|] == requests;
  }

  /** Without a schema every candidate gets one attempt, and one that is passed over is charged nothing. */
  lemma {:induction false} PassedIsFree(registered: set<string>, call: Call, j: nat)
    requires !call.wantsSchema && j <= |call.candidates| && forall i :: 0 <= i < j ==> Passes(registered, call, i)
    ensures Usage(call, RequestsBefore(registered, call, j)) == 0
  {
    if j > 0 {
      PassedIsFree(registered, call, j - 1);
      assert Passes(registered, call, j - 1);
      if call.candidates[j - 1].provider in registered {
        OneAttempt(registered, call, j - 1);
      } else {
        assert RequestsBefore(registered, call, j) == RequestsBefore(registered, call, j - 1);
      }
    }
  }

  lemma {:induction false} OneAttempt(registered: set<string>, call: Call, j: nat)
    requires !call.wantsSchema && j < |call.candidates| && call.candidates[j].provider in registered
    ensures OutcomeOf(call, j) == ResultOf(call, call.replies(j, 0))
    ensures Usage(call, RequestsBefore(registered, call, j + 1))
         == Usage(call, RequestsBefore(registered, call, j)) + Tokens(call.replies(j, 0))
  {
    assert Attempts(j, 1) == [(j, 0)];
    UsageOfOneMore(call, RequestsBefore(registered, call, j), j, 0);
  }

  lemma {:induction false} PlainCallsRecordAll(registered: set<string>, call: Call)
    requires !call.wantsSchema
    ensures Recorded(registered, call, true) == Usage(call, RequestsOf(registered, call))
  {
    SettlerSettles(registered, call, 0);
    var s := Settler(registered, call, 0);
    if s.None? {
      PassedIsFree(registered, call, |call.candidates|);
    } else {
      PassedIsFree(registered, call, s.value);
      OneAttempt(registered, call, s.value);
    }
  }

  lemma {:induction false} NobodyToAsk(registered: set<string>, call: Call, j: nat)
    requires !CanAsk(registered, call) && j <= |call.candidates|
    ensures RequestsBefore(registered, call, j) == []
  {
    if j > 0 {
      NobodyToAsk(registered, call, j - 1);
    }
  }

  /** A candidate that accepts every reply settles the call with its first one. */
  lemma {:induction false} PlainCallIsCharged(registered: set<string>, call: Call)
    requires !call.wantsSchema && CanAsk(registered, call)
    requires forall i, a :: call.replies(i, a) == Response(1, 0, true)
    ensures Usage(call, RequestsOf(registered, call)) == 1
  {
    SettlerSettles(registered, call, 0);
    var i :| 0 <= i < |call.candidates| && call.candidates[i].provider in registered;
    assert !Passes(registered, call, i);
    PlainCallsRecordAll(registered, call);
  }

  /**
   A call past the budget gate is sure to record what it is charged for, whatever the providers reply, exactly if it has
   a session and wants no schema, or has nobody to ask: without a session nothing is recorded, and replies the schema
   rejects are charged and not recorded.
   */
  lemma {:induction false} RecordedIsChargedExactly(registered: set<string>, call: Call, withSession: bool)
    ensures (forall replies :: RecordsAll(registered, call, withSession, replies))
            <==> (withSession && !call.wantsSchema) || !CanAsk(registered, call)
  {
    if (withSession && !call.wantsSchema) || !CanAsk(registered, call) {
      forall replies
        ensures RecordsAll(registered, call, withSession, replies)
      {
        ChargedIsRecorded(registered, call.(replies := replies), withSession);
      }
    } else if call.wantsSchema {
      var rejected := (i: nat, a: nat) => Response(1, 0, false);
      RejectedOutputCosts(registered, call.(replies := rejected), 1);
      AlwaysInvalidTrace(registered, call.(replies := rejected));
      assert !RecordsAll(registered, call, withSession, rejected);
    } else {
      var plain := (i: nat, a: nat) => Response(1, 0, true);
      PlainCallIsCharged(registered, call.(replies := plain));
      assert !RecordsAll(registered, call, withSession, plain);
    }
  }

  lemma {:induction false} ChargedIsRecorded(registered: set<string>, call: Call, withSession: bool)
    requires (withSession && !call.wantsSchema) || !CanAsk(registered, call)
    ensures Recorded(registered, call, withSession) == Usage(call, RequestsOf(registered, call))
  {
    if withSession && !call.wantsSchema {
      PlainCallsRecordAll(registered, call);
    } else {
      SettlerSettles(registered, call, 0);
      NobodyToAsk(registered, call, |call.candidates|);
    }
  }

  // ---------------------------------------------------------------------------------------------
  // What the replies say about a call
  // ---------------------------------------------------------------------------------------------

  predicate IsRegistered(registered: set<string>, call: Call, i: nat) {
    i < |call.candidates| && call.candidates[i].provider in registered
  }

  /** Content the wanted schema does not accept. */
  predicate IsRejected(call: Call, r: Reply) {
    r.Response? && call.wantsSchema && !r.valid
  }

  /** The candidate is asked until a reply is not rejected, or no retry is left; that is at this attempt. */
  ghost predicate Ends(call: Call, i: nat, a: nat) {
    && (forall b :: 0 <= b < a ==> IsRejected(call, call.replies(i, b)))
    && a <= (if call.wantsSchema then call.schemaRetries else 0)
    && (IsRejected(call, call.replies(i, a)) ==> a == if call.wantsSchema then call.schemaRetries else 0)
  }

  /** The candidate ends with one of the four errors that allow falling back. */
  ghost predicate FallsBack(call: Call, i: nat) {
    exists a: nat :: Ends(call, i, a) && call.replies(i, a).Failure?
                     && call.replies(i, a).error in {QuotaExceeded, RateLimited, Unavailable, Timeout}
  }

  /** The first registered candidate that does not fall back. */
  ghost predicate Decides(registered: set<string>, call: Call, j: nat) {
    && IsRegistered(registered, call, j) && !FallsBack(call, j)
    && forall i :: 0 <= i < j && IsRegistered(registered, call, i) ==> FallsBack(call, i)
  }

  /** The call is answered as the candidate's last reply says: its content, its own error, or the rejection. */
  ghost predicate IsAnswer(call: Call, j: nat, r: Result<Reply, ErrorKind>) {
    exists a: nat :: Ends(call, j, a) && r == AnswerOf(call, call.replies(j, a))
  }

  function AnswerOf(call: Call, reply: Reply): Result<Reply, ErrorKind> {
    match reply
    case Failure(e) => Err(e)
    case Response(_, _, valid) => if call.wantsSchema && !valid then Err(SchemaFailed) else Ok(reply)
  }

  /** The last registered candidate before `j`, if there is one. */
  ghost predicate CameFrom(registered: set<string>, call: Call, j: nat, from: Option<Candidate>) {
    if from.None? then forall i :: 0 <= i < j ==> !IsRegistered(registered, call, i)
    else exists i :: 0 <= i < j && IsRegistered(registered, call, i) && from.value == call.candidates[i]
                     && forall k :: i < k < j ==> !IsRegistered(registered, call, k)
  }

  /** What is recorded: tokens in and out of content that is accepted, and errors that are not passed on silently. */
  ghost predicate IsTraceAt(registered: set<string>, call: Call, j: nat, t: Option<Trace>)
    requires j < |call.candidates|
  {
    exists a: nat, from :: Ends(call, j, a) && CameFrom(registered, call, j, from)
                           && t == TraceFor(call, call.candidates[j], call.replies(j, a), from)
  }

  function TraceFor(call: Call, candidate: Candidate, reply: Reply, from: Option<Candidate>): Option<Trace> {
    match reply
    case Response(tokensIn, tokensOut, valid) =>
      Some(if call.wantsSchema && !valid then Trace(candidate, 0, false, from)
           else Trace(candidate, tokensIn + tokensOut, true, from))
    case Failure(e) =>
      if e.AuthFailed? || e.Refused? then Some(Trace(candidate, 0, true, from))
      else if e.SchemaFailed? then Some(Trace(candidate, 0, false, from))
      else None
  }

  ghost predicate IsRouted(registered: set<string>, call: Call, r: Result<Reply, ErrorKind>, t: Option<Trace>) {
    if exists j: nat :: Decides(registered, call, j) then
      exists j: nat :: Decides(registered, call, j) && IsAnswer(call, j, r) && IsTraceAt(registered, call, j, t)
    else r == Err(NoAvailableProvider) && t == None
  }

  lemma {:induction false} EndsOnce(call: Call, i: nat, a: nat)
    ensures Ends(call, i, a) <==> a == LastAttempt(call, i, 0)
  {
    assert Ends(call, i, a) <==> EndsAt(call, i, a);
    if a < MaxAttempts(call) {
      LastAttemptIsTheEnd(call, i, 0, a);
    }
  }

  lemma {:induction false} FallsBackExactly(call: Call, i: nat)
    ensures FallsBack(call, i) <==> OutcomeOf(call, i).Err? && CanFallback(OutcomeOf(call, i).error)
    ensures IsAnswer(call, i, OutcomeOf(call, i))
  {
    var last := LastAttempt(call, i, 0);
    EndsOnce(call, i, last);
    forall a: nat | Ends(call, i, a)
      ensures a == last
    {
      EndsOnce(call, i, a);
    }
    assert OutcomeOf(call, i) == AnswerOf(call, call.replies(i, last));
  }

  lemma {:induction false} DecidesExactly(registered: set<string>, call: Call, j: nat)
    ensures Decides(registered, call, j) <==> Settler(registered, call, 0) == Some(j)
  {
    SettlerSettles(registered, call, 0);
    forall i: nat | i < |call.candidates|
      ensures Passes(registered, call, i) <==> !IsRegistered(registered, call, i) || FallsBack(call, i)
    {
      FallsBackExactly(call, i);
    }
    if Decides(registered, call, j) {
      assert !Passes(registered, call, j);
    }
  }

  lemma {:induction false} CameFromIs(registered: set<string>, call: Call, j: nat)
    requires j <= |call.candidates|
    ensures CameFrom(registered, call, j, FallbackFrom(registered, call, j))
  {
    if j > 0 && call.candidates[j - 1].provider !in registered {
      CameFromIs(registered, call, j - 1);
    }
  }

  lemma {:induction false} TraceIs(registered: set<string>, call: Call, j: nat)
    requires Settler(registered, call, 0) == Some(j)
    ensures IsTraceAt(registered, call, j, TraceOf(registered, call))
  {
    var last := LastAttempt(call, j, 0);
    EndsOnce(call, j, last);
    CameFromIs(registered, call, j);
    var from := FallbackFrom(registered, call, j);
    assert TraceOf(registered, call) == TraceFor(call, call.candidates[j], call.replies(j, last), from);
  }

  /** The first registered candidate that does not fall back answers the call, with its own content or error. */
  lemma {:induction false} Routed(registered: set<string>, call: Call)
    ensures IsRouted(registered, call, VerdictOf(registered, call), TraceOf(registered, call))
  {
    var s := Settler(registered, call, 0);
    if s.Some? {
      DecidesExactly(registered, call, s.value);
      FallsBackExactly(call, s.value);
      TraceIs(registered, call, s.value);
    } else {
      forall j: nat
        ensures !Decides(registered, call, j)
      {
        DecidesExactly(registered, call, j);
      }
    }
  }

  /** Candidate `i` is asked: it is registered, and all registered ones before it fall back. */
  ghost predicate IsAsked(registered: set<string>, call: Call, i: nat) {
    && IsRegistered(registered, call, i)
    && forall h :: 0 <= h < i && IsRegistered(registered, call, h) ==> FallsBack(call, h)
  }

  predicate Earlier(x: (nat, nat), y: (nat, nat)) {
    x.0 < y.0 || (x.0 == y.0 && x.1 < y.1)
  }

  ghost predicate IsRequested(registered: set<string>, call: Call, i: nat, b: nat) {
    IsAsked(registered, call, i) && exists a: nat :: b <= a && Ends(call, i, a)
  }

  ghost predicate InOrder(calls: seq<(nat, nat)>) {
    forall k, m :: 0 <= k < m < |calls| ==> Earlier(calls[k], calls[m])
  }

  /** The requests are, in order, the attempts of the candidates asked, up to the one each ends with. */
  ghost predicate AreRequests(registered: set<string>, call: Call, calls: seq<(nat, nat)>) {
    InOrder(calls) && forall i: nat, b: nat :: (i, b) in calls <==> IsRequested(registered, call, i, b)
  }

  lemma {:induction false} AttemptsMean(i: nat, n: nat)
    ensures InOrder(Attempts(i, n)) && forall x :: x in Attempts(i, n) <==> x.0 == i && x.1 < n
  {
    forall x: (nat, nat) | x.0 == i && x.1 < n
      ensures x in Attempts(i, n)
    {
      assert Attempts(i, n)[x.1] == x;
    }
  }

  lemma {:induction false} OrderedBefore(before: seq<(nat, nat)>, more: seq<(nat, nat)>, i: nat)
    requires InOrder(before) && InOrder(more)
    requires (forall x :: x in before ==> x.0 < i) && forall x :: x in more ==> x.0 == i
    ensures InOrder(before + more)
  {
    assert forall k :: 0 <= k < |before| ==> before[k] in before;
    assert forall k :: 0 <= k < |more| ==> more[k] in more;
  }

  lemma {:induction false} RequestsBeforeMean(registered: set<string>, call: Call, j: nat)
    requires j <= |call.candidates|
    ensures InOrder(RequestsBefore(registered, call, j))
    ensures forall x :: x in RequestsBefore(registered, call, j) <==>
                          x.0 < j && IsRegistered(registered, call, x.0) && x.1 <= LastAttempt(call, x.0, 0)
  {
    if j > 0 {
      var before, n := RequestsBefore(registered, call, j - 1), LastAttempt(call, j - 1, 0) + 1;
      RequestsBeforeMean(registered, call, j - 1);
      if IsRegistered(registered, call, j - 1) {
        AttemptsMean(j - 1, n);
        OrderedBefore(before, Attempts(j - 1, n), j - 1);
      } else {
        assert before + [] == before;
      }
    }
  }

  lemma {:induction false} RequestedExactly(registered: set<string>, call: Call, j: nat, i: nat, b: nat)
    requires var s := Settler(registered, call, 0); j == if s.None? then |call.candidates| else s.value + 1
    ensures IsRequested(registered, call, i, b)
            <==> i < j && IsRegistered(registered, call, i) && b <= LastAttempt(call, i, 0)
  {
    AskedExactly(registered, call, j, i);
    EndsOnce(call, i, LastAttempt(call, i, 0));
    forall a: nat | Ends(call, i, a)
      ensures a == LastAttempt(call, i, 0)
    {
      EndsOnce(call, i, a);
    }
  }

  lemma {:induction false} AllRequests(registered: set<string>, call: Call)
    ensures AreRequests(registered, call, RequestsOf(registered, call))
  {
    var s := Settler(registered, call, 0);
    var j := if s.None? then |call.candidates| else s.value + 1;
    RequestsBeforeMean(registered, call, j);
    forall i: nat, b: nat
      ensures (i, b) in RequestsBefore(registered, call, j) <==> IsRequested(registered, call, i, b)
    {
      RequestedExactly(registered, call, j, i, b);
    }
  }

  lemma {:induction false} AskedExactly(registered: set<string>, call: Call, j: nat, i: nat)
    requires var s := Settler(registered, call, 0); j == if s.None? then |call.candidates| else s.value + 1
    ensures IsAsked(registered, call, i) <==> i < j && IsRegistered(registered, call, i)
  {
    SettlerSettles(registered, call, 0);
    forall h: nat
      ensures FallsBack(call, h) <==> OutcomeOf(call, h).Err? && CanFallback(OutcomeOf(call, h).error)
    {
      FallsBackExactly(call, h);
    }
    if i < j && IsRegistered(registered, call, i) {
      forall h | 0 <= h < i && IsRegistered(registered, call, h)
        ensures FallsBack(call, h)
      {
        assert Passes(registered, call, h);
      }
    }
    if IsAsked(registered, call, i) && j <= i {
      assert !Passes(registered, call, j - 1);
      assert IsRegistered(registered, call, j - 1);
    }
  }

  ghost predicate AsReplied(registered: set<string>, call: Call, r: Result<Reply, ErrorKind>, t: Option<Trace>,
                            calls: seq<(nat, nat)>) {
    IsRouted(registered, call, r, t) && AreRequests(registered, call, calls)
  }

  lemma {:induction false} CallIsAsReplied(registered: set<string>, call: Call)
    ensures AsReplied(registered, call, VerdictOf(registered, call), TraceOf(registered, call),
                      RequestsOf(registered, call))
  {
    Routed(registered, call);
    AllRequests(registered, call);
  }
}
