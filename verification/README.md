# A verified model of the investigation platform's algorithms

This project models the self-contained algorithms of the investigation platform in Dafny and proves what they
guarantee. One module stands for one part of the system; `Prelude` and `Sorting` hold what several share.

| module | what it models |
|---|---|
| `Matcher` | the maximum bipartite matching behind the evaluation metrics (Kuhn's algorithm) |
| `Traversal` | the bounded neighbourhood and the bounded path enumeration over the evidence graph |
| `EvidencePages` | the order of the evidence timeline and keyset pagination over it |
| `EvidenceStores` | deduplicated writes under a quota, the grounding invariants G0-G4, reads up to a cap, the purge |
| `Detection` | the two burst detectors and the authentication rules chained onto the first |
| `RateLimit` | the sliding-window rate limiter |
| `Router` | the model router: fallback chain, repair loop, token ceiling, execution traces |
| `Planners` | the rule-based and the adaptive plan of an investigation |
| `Orchestrator` | the task loop of an investigation, follow-up tasks, time budget and final status |
| `Lifecycle` | the status of one investigation under concurrent start, retry, cancel, crash and restart |
| `Correlation` | entity resolution and edge construction over evidence rows |
| `Pcap` | DNS names, libpcap records, pcapng blocks, and the demo encoder they must agree with |

How the model is set up:

- Tables are sequences or maps held by a class, in the place of the database session. Timestamps are integers (reals
  in `RateLimit`), identifiers are integers or strings with their order.
- A content hash stands for the hashed content itself, and a page cursor for the values it encodes.
- A provider, an agent run, a clock and a canonical form (such as that of an IP address, also inside a content hash)
  are functions the model is given; every theorem holds for all of them.
- A method that follows a loop of the source is proved against a function or a predicate, and the lemmas beside it say
  what that function means, down to the inputs: the replies of the providers, the bytes of a capture, the fields of a
  row, the events of a log.
- Lemmas carry `{:induction false}`: every proof is the one written down, and none rests on induction the verifier
  would add by itself.

## What the proofs found

Where a plausible promise is false, the code was modelled as it is, and the exact condition was proved:

- Every investigation is promised a report. With the planners the application builds it is scheduled exactly if its
  agent is registered and the task limit does not cut the plan, whatever becomes of the triage
  (`Orchestrator.DeployedReportExactly`, with `Orchestrator.PlannedReportCanBeCut`). Without a planner a triage that
  fails or comes too late loses it, and the limit can cut it off, also behind the fallback tasks
  (`Orchestrator.UnplannedReportExactly`, with `Orchestrator.FailedTriageLosesReport`, `Orchestrator.ReportCanBeCut`
  and `Orchestrator.FallbackCanBeCut`). `Orchestrator.ReportIsScheduledExactly` covers every plan.
- The report is said to run last, over everything found before. What triage adds to a plan comes behind the report, so
  it is last exactly if it is scheduled and triage adds nothing that is not planned
  (`Orchestrator.DeployedReportIsLastExactly`, with `Orchestrator.ReportCanRunEarly`).
- A cancel that misses an execution about to be submitted, a second cancel of one task, or the handler of a task that
  is stopped or crashes after its result was committed can write over the work of another execution, and then two
  executions overlap (`Lifecycle.ExclusionLostExactly`, with `Lifecycle.CancelBeforeSubmitOverlaps` and
  `Lifecycle.SecondCancelOverlaps`).
- A completed investigation stays completed exactly if no other execution is claimed or executing, no cancel is
  pending that saw it run, and every listed task is past its writes: an overlapping execution, or a shutdown or an
  error while `_finish` is still awaited, replaces a committed result (`Lifecycle.CompletedIsKeptExactly`, with
  `Lifecycle.CompletedCanBeHalted`, `Lifecycle.CompletedCanBeLost` and `Lifecycle.OverlapLosesCompletion`).
- The retry hint of the rate limiter is truncated: a caller who waits as told is admitted exactly if the wait is at
  most a second or a whole number of seconds (`RateLimit.WaitingAsToldExactly`, with `RateLimit.HintCanBeTooShort`).
- The token ceiling counts accepted responses only, and a call without a session records nothing. A call is sure to
  record all it is charged for exactly if it has a session and wants no schema, or no provider of its candidates is
  registered (`Router.RecordedIsChargedExactly`).
- A threat-intelligence verdict can lose its edge, because its indicator is looked up under fields the recording does
  not read: another type, or the query in place of a missing indicator. It gets its edge exactly if the indicator, as
  it is looked up, and the source are both named by some row (`Correlation.VerdictIsLinkedExactly`). For a row on its
  own and without references that is so exactly if indicator and source are given and both look-ups agree on the type
  (`Correlation.BareVerdictIsLinkedExactly`, with `Correlation.VerdictCanBeLost` and
  `Correlation.QueryVerdictIsLost`).
- The capture parser records the name of a DNS packet under a field the correlation does not read. Such a row never
  leaves the edge of a query or an answer: name and sender are associated exactly if the sender is the client, and a
  reply leaves nothing (`Correlation.CapturedDnsIsLinkedExactly`).
- An escalation is said to follow a suspicious login, but times play no part in what is reported
  (`Detection.TimesPlayNoPart`, with `Detection.EarlyCommandIsReported`). All reported commands follow the logins they
  are reported for exactly if no root command of such a user is undated or older than the login
  (`Detection.ReportsFollowExactly`).
- The DNS name parser takes labels of 64 to 191 bytes, which section 3.1 of RFC 1035 does not allow
  (`Pcap.NameRoundTrip` states the exact range).
- `neighbours` reports truncation exactly if the cap is no larger than the number of edges, so also when nothing is
  missing; `all_evidence` does so exactly if rows are missing or the cap is below one
  (`Traversal.GraphTraversal.Neighbours`, `EvidenceStores.EvidenceStore.AllEvidence`).
- An empty batch leaves the dropped count of the previous batch in place, every other batch sets it
  (`EvidenceStores.EvidenceStore.AddEvidence`).
- The quadratic scan reports an address exactly if the linear search does or it has too few dated errors but enough in
  all (`Detection.DetectorsAgree`).

## Model

| member | source | states |
|---|---|---|
| `Matcher.Match` | experiments/metrics/matcher.py:29-130 | The pairs are a matching of the graph and no matching is larger, with a vertex cover of the same size as certificate; however many predictions are looked at, the first pairs are for the ground truths of a maximum matching of these; the unmatched lists are exactly the rest in order, matched and unmatched add up for unique ids, and the near misses are the half matches row by row |
| `Matcher.NearMissesMean` | experiments/metrics/matcher.py:91-98 | Exactly the pairs of which either the behaviour or the entities agree, but not both, are near misses, each once, prediction by prediction and ground truth by ground truth |
| `Matcher.WithoutMeans` | experiments/metrics/matcher.py:118-130 | The unmatched lists hold exactly the ids that are not matched, in order and with their repetitions |
| `Matcher.WeakDuality` | experiments/metrics/matcher.py:100-123 | No matching is larger than any vertex cover |
| `Matcher.CoverOfPairing` | experiments/metrics/matcher.py:103-114 | If every unmatched prediction has only dead neighbours, the dead set and the live holders are a vertex cover no larger than the pairing |
| `Matcher.RotateAugments` | experiments/metrics/matcher.py:104-109 | Taking a ground truth over from a holder that found another keeps everybody matched and gains exactly one |
| `Matcher.ProgressFound` | experiments/metrics/matcher.py:112-114 | A later success neither enters a dead set nor matches a prediction whose search failed |
| `Matcher.ProgressFailed` | experiments/metrics/matcher.py:112-114 | What a failed search visited is dead from then on |
| `Matcher.ProgressIsMaximum` | experiments/metrics/matcher.py:112-123 | After one pass over the predictions the pairing is maximum |
| `Matcher.StageLeads` | experiments/metrics/matcher.py:112-117 | The ground truths inserted by the time some predictions have been searched are those of a maximum matching of these predictions |
| `Matcher.MaximumBipartiteMatcher.Dfs` | experiments/metrics/matcher.py:103-110 | The recursive search terminates; on success everybody matched stays matched and `u` gains one ground truth outside what was visited; on failure nothing changes and all it reached is exhausted; a dead set is never changed |
| `Matcher.MaximumBipartiteMatcher.BuildAdjacency` | experiments/metrics/matcher.py:50-98 | The adjacency lists represent exactly the edges, for any relation between predictions and ground truths |
| `Matcher.MaximumBipartiteMatcher.AugmentAll` | experiments/metrics/matcher.py:112-114 | The failed predictions are exactly the unmatched ones and all their neighbours are dead |
| `Traversal.GraphTraversal.Neighbours` | src/acip/core/graph/traversal.py:152-210 | Everything returned lies within the bound, and so do both ends of every edge; as many edges as the cap allows, none twice; at most one entity more than edges, and never more than a cap of at least one; truncated exactly when the cap is no larger than the collectable edges; below the cap exactly the entities within the bound and exactly the edges touching one strictly below it |
| `Traversal.GraphTraversal.ExpandEntity` | src/acip/core/graph/traversal.py:175-196 | The inner loop keeps the search invariant, and stops at the cap |
| `Traversal.WalkVisited` | src/acip/core/graph/traversal.py:170-196 | Once the queue is empty every walk within the bound ends in a visited entity |
| `Traversal.VisitedIffWithin` | src/acip/core/graph/traversal.py:170-203 | After an uncut search an entity is visited exactly if its distance is within the bound |
| `Traversal.CollectedAll` | src/acip/core/graph/traversal.py:185-189 | An uncut search has collected every collectable edge |
| `Traversal.CollectableEnds` | src/acip/core/graph/traversal.py:185-196 | Both ends of a collectable edge are within the bound |
| `Traversal.GraphTraversal.PathsBetween` | src/acip/core/graph/traversal.py:212-253 | Only simple chained paths within the bound, each once, shortest first; a path is omitted only at the cap and is then no shorter than any returned; the enumeration terminates |
| `Traversal.Refine` | src/acip/core/graph/traversal.py:244-251 | Replacing an open path by its one-edge extensions keeps every simple path found or extending an open one, and no two open paths comparable |
| `Traversal.Prune` | src/acip/core/graph/traversal.py:250-251 | A path that returns to one of its own entities leads to no further result |
| `Traversal.OmittedAreLonger` | src/acip/core/graph/traversal.py:233-249 | What a cut enumeration leaves out is no shorter than anything it returns |
| `EvidencePages.PrecedesIsStrictTotalOrder` | src/acip/core/evidence/store.py:451-466 | The four-part sort key with undated rows last is a strict total order on rows with different ids |
| `EvidencePages.AfterIsPrecedes` | src/acip/core/evidence/store.py:73-113 | The predicate of a row's cursor selects exactly the rows that sort after it |
| `EvidencePages.PageIsPrefix` | src/acip/core/evidence/store.py:437-477 | A page is a prefix of what remains, and carries a cursor exactly when something is left |
| `EvidencePages.PageMeans` | src/acip/core/evidence/store.py:437-477 | A page holds the earliest matching rows after the cursor in order, as many as the limit says if it is 1 to 500, and a cursor, that of its last row, exactly if a row is left out; only a dated cursor without a date is refused |
| `EvidencePages.TimelineAfter` | src/acip/core/evidence/store.py:85-113 | Reading on after a row drops exactly the rows up to and including it |
| `EvidencePages.FollowIsComplete` | src/acip/core/evidence/store.py:451-477 | Following cursors while rows are inserted between the pages returns rows in order, none twice, and at the end every row that was there at the start |
| `EvidencePages.FollowFixedTable` | src/acip/core/evidence/store.py:451-477 | Over a fixed table any mix of page sizes returns exactly the sorted timeline, and is done exactly when the pages have room for it; as many fetches as rows are always enough |
| `Prelude.FirstsSelect` | src/acip/core/evidence/store.py:164-178 | The kept entries are exactly the new ones, each once |
| `Prelude.FirstsInOrder` | src/acip/core/evidence/store.py:164-178 | The kept entries stand in the order of their first occurrences |
| `Prelude.FirstPlaces` | src/acip/core/evidence/store.py:164-178 | An entry is kept exactly if it is not known and does not stand further in front |
| `EvidenceStores.EvidenceStore.AddEvidence` | src/acip/core/evidence/store.py:134-223 | Without a quota a draft gets a row exactly if no stored row of the investigation and no earlier draft has its content, with a quota the first of these as far as there is headroom; rows stand in the order of the drafts behind the table, with the content, the time of the call and its tool run; the dropped count is exact, except that an empty batch leaves it as it was |
| `EvidenceStores.SameHashExactly` | src/acip/core/evidence/contracts.py:105-127 | Two drafts have the same content hash exactly if tool, kind, time and data are the same and the normalised entities are, each as often, in any order |
| `EvidenceStores.BatchIsAccounted` | src/acip/core/evidence/store.py:134-202 | What became of a batch, told by the contents of rows and drafts: the rows created, the drafts lost to the quota, and the store with everything else as it was |
| `EvidenceStores.EveryDraftHasOneFate` | src/acip/core/evidence/store.py:164-202 | Every draft is created, a repeat, or dropped, and the three counts add up to the batch |
| `EvidenceStores.QuotaRespected` | src/acip/core/evidence/store.py:151-178 | Adding never takes an investigation past its quota |
| `EvidenceStores.ReplayCreatesNothing` | src/acip/core/evidence/store.py:158-178 | Adding the same batch again creates nothing |
| `EvidenceStores.FindingCheckIsExact` | src/acip/core/evidence/store.py:225-266 | A finding is accepted exactly if it satisfies G0-G4 |
| `EvidenceStores.ViolationIsNamed` | src/acip/core/evidence/store.py:225-266 | The reason given for refusing a finding is what is wrong with it |
| `EvidenceStores.HypothesisCheckIsExact` | src/acip/core/evidence/store.py:268-320 | A hypothesis is accepted exactly if it names a refutation and cites stored evidence of its investigation |
| `EvidenceStores.HypothesisViolationIsNamed` | src/acip/core/evidence/store.py:268-320 | The same for hypotheses |
| `EvidenceStores.LoadCitedMeans` | src/acip/core/evidence/store.py:369-391 | Loading fails exactly if a cited id is missing in the investigation, and names the missing ones |
| `EvidenceStores.EvidenceStore.AddFinding` | src/acip/core/evidence/store.py:225-266 | Stored exactly when grounded, as a row that says what was claimed; refused otherwise with the reason and nothing changed |
| `EvidenceStores.EvidenceStore.AddHypothesis` | src/acip/core/evidence/store.py:268-320 | The same for hypotheses |
| `EvidenceStores.EvidenceStore.AllEvidence` | src/acip/core/evidence/store.py:479-501 | Terminates with the first `cap` rows of the timeline; truncated exactly when there are more, or the cap is below one |
| `EvidenceStores.Database.DeleteInvestigation` | src/acip/api/routers/investigations.py:1026-1077 | Refused without the purge flag exactly while records exist; otherwise removes all of the investigation |
| `EvidenceStores.HoldsRecordsMeans` | src/acip/api/routers/investigations.py:1047-1060 | Records exist exactly if some evidence, finding or other append-only record of the investigation is stored |
| `EvidenceStores.DeleteKeeps` | src/acip/api/routers/investigations.py:1047-1077 | A purge that is not refused leaves no evidence, finding or hypothesis of its investigation, leaves those of every other one as they were, and keeps the store consistent |
| `EvidenceStores.AddEvidenceKeeps` | src/acip/core/evidence/store.py:180-202 | Adding evidence keeps ids and hashes unique and every stored claim grounded |
| `EvidenceStores.EveryRunIsConsistent` | src/acip/core/evidence/store.py:134-433 | In every state reachable by adding evidence, findings and hypotheses and by purging, hashes are unique per investigation and every stored claim is grounded in the evidence stored then |
| `Detection.LongestBurst` | src/acip/core/detection/auth_rules.py:148-164 | The two-pointer search returns the earliest among the longest windows with enough failures, and finds one exactly if some closed interval of the window's length holds that many |
| `Detection.BurstIsWindow` | src/acip/core/detection/auth_rules.py:152-163 | In a sorted sequence a crowded interval exists exactly if a long enough window does |
| `Detection.FindFailureBursts` | src/acip/core/detection/auth_rules.py:136-164 | An address is reported exactly if its dated failures have a burst, with the earliest longest window; addresses come in the order of their first dated failures |
| `Detection.GroupsInOrder` | src/acip/core/detection/auth_rules.py:136-147 | The dated failures of an address, and its attempts at missing names, are grouped in the order of the events, each as often as it stands there |
| `Detection.ForwardWindow` | src/acip/core/detection/web_rules.py:297-303 | Filtering what lies ahead by distance in time gives the forward window |
| `Detection.ScanFindsBurst` | src/acip/core/detection/web_rules.py:292-308 | Some forward window is long enough exactly if some closed interval is crowded enough |
| `Detection.FirstWindow` | src/acip/core/detection/web_rules.py:297-308 | The scan stops at the first start whose forward window is long enough, and finds one exactly if there is one |
| `Detection.FindErrorBursts` | src/acip/core/detection/web_rules.py:277-310 | An address is reported exactly if a forward window is long enough or, with too few dated errors, if there are enough in all; and what is reported for it |
| `Detection.ErrorsMean` | src/acip/core/detection/web_rules.py:284-287 | The errors of an address are its responses with a status of 400 or more, in order |
| `Detection.DatedMeans` | src/acip/core/detection/web_rules.py:293-293 | Those with a time are kept, in order |
| `Detection.DetectorsAgree` | src/acip/core/detection/web_rules.py:277-310 | On the same dated events both detectors report the same addresses, except those with too few dated but enough errors |
| `Detection.BurstsCompared` | src/acip/core/detection/auth_rules.py:152-163 | Where both report, the longest window is at least as long as the first one and starts no earlier |
| `Detection.UniqueEvidenceIds` | src/acip/core/detection/web_rules.py:264-274 | The first occurrences of the ids in order, cut to the citation limit |
| `Detection.FirstSuccessIsEarliest` | src/acip/core/detection/auth_rules.py:167-193 | A success is found exactly if a related one exists, and no related one is earlier |
| `Detection.EvaluateAuthRules` | src/acip/core/detection/auth_rules.py:64-133 | For every address there is one hit for a burst exactly if its dated failures have one, citing the first 25 events of the earliest longest window; one for a login exactly if a related success exists, citing also the earliest; one for enumeration exactly if three missing names were tried, citing the first attempt at each; for every user the root commands reported are exactly those of users with a related login. Hits are sorted by rule; within a rule, addresses come in the order in which the events first name them |
| `Detection.HitsReport` | src/acip/core/detection/auth_rules.py:64-133 | The same about the hits before they are sorted, told by the events alone |
| `Detection.EvaluateUserEnumeration` | src/acip/core/detection/auth_rules.py:196-229 | Computes the enumeration hits, address by address |
| `Detection.EnumerationIsExact` | src/acip/core/detection/auth_rules.py:196-229 | An address is reported exactly if it tried at least three different names that do not exist |
| `Detection.SortedByRule` | src/acip/core/detection/auth_rules.py:133-133 | Sorting by severity and rule puts the rules one behind the other, each in its own order |
| `Detection.CompromisedMeans` | src/acip/core/detection/auth_rules.py:95-133 | A user counts as compromised exactly if some burst's related login is theirs, and the login cited is one of these |
| `Detection.EscalationsAreBacked` | src/acip/core/detection/auth_rules.py:232-266 | Every escalation cites a root command and a suspicious login of the user who ran it |
| `Detection.EscalationsAreComplete` | src/acip/core/detection/auth_rules.py:232-266 | Every root command of a user with a suspicious login is reported |
| `Detection.TimesPlayNoPart` | src/acip/core/detection/auth_rules.py:237-244 | Events that differ in their times only give the same escalations |
| `Detection.ReportsFollowExactly` | src/acip/core/detection/auth_rules.py:232-266 | All reported commands follow the logins cited exactly if no root command of a user with a suspicious login is undated or older than it |
| `Detection.EarlyCommandIsReported` | src/acip/core/detection/auth_rules.py:232-266 | Three events of which a command is reported with a login that came after it |
| `RateLimit.EveryWindowIsBounded` | src/acip/core/security/ratelimit.py:28-47 | In every run no half-open interval of one window holds more than the maximum of admissions per key |
| `RateLimit.KeysAreIndependent` | src/acip/core/security/ratelimit.py:28-47 | Striking out the checks of all other keys leaves the decisions of one key as they were |
| `RateLimit.ReadmittedWhenOldestExpires` | src/acip/core/security/ratelimit.py:38-47 | A refused key is admitted again exactly when the oldest counted admission is a full window old |
| `RateLimit.FaithfulPrune` | src/acip/core/security/ratelimit.py:36-38 | Pruning the stored history gives exactly the admissions that still count |
| `RateLimit.ActiveIsCounted` | src/acip/core/security/ratelimit.py:36-39 | The admissions that still count are those of the key that lie less than a window back, each once |
| `RateLimit.FirstActiveIsEarliest` | src/acip/core/security/ratelimit.py:41-45 | The hint is the whole seconds, and at least one, until the earliest counted admission expires |
| `RateLimit.HintIsExact` | src/acip/core/security/ratelimit.py:41-45 | Waiting as the hint says is enough exactly if the wait is at most a second or a whole number of seconds |
| `RateLimit.WaitingAsToldExactly` | src/acip/core/security/ratelimit.py:38-47 | A refused caller who waits as told, with no admission in between, is admitted in exactly these cases |
| `RateLimit.HintCanBeTooShort` | src/acip/core/security/ratelimit.py:41-45 | A run in which a caller waits as told and would be refused again |
| `RateLimit.SlidingWindowRateLimiter.CheckKey` | src/acip/core/security/ratelimit.py:28-47 | A check admits exactly if fewer than the maximum of earlier admissions of the key lie less than a window back; a refusal changes no admission and hints the whole seconds until the earliest of them expires, and at least one; with a maximum below one and no admission the look-up fails |
| `Router.ModelRouter.Complete` | src/acip/core/llm/router.py:106-231 | Over budget nobody is asked; otherwise the first registered candidate that does not fail with an exhausted quota, a rate limit, an outage or a timeout decides, with its own response or error, and without any the error is that no provider is available; the trace, the last candidate fallen back from and the requests are told by the replies |
| `Router.Routed` | src/acip/core/llm/router.py:144-231 | Result and trace of a call within budget, told by what the providers reply |
| `Router.AllRequests` | src/acip/core/llm/router.py:150-338 | The requests of a call are exactly the attempts up to the end of each candidate up to the deciding one, in order |
| `Router.ExecuteCandidate` | src/acip/core/llm/router.py:233-338 | The repair loop ends with the attempt that is valid, fails, or is the last allowed, and makes exactly the requests up to it |
| `Router.LastAttemptIsTheEnd` | src/acip/core/llm/router.py:279-338 | That attempt is the only one at which the loop can end |
| `Router.SettlerSettles` | src/acip/core/llm/router.py:150-227 | The deciding candidate is registered and not passed over, and all before it are unregistered or failed in a way that allows falling back |
| `Router.RequestsAreJustified` | src/acip/core/llm/router.py:150-227 | Every request goes to a registered candidate, within the attempts allowed, after invalid output only, and after every earlier registered candidate failed with an error that allows falling back |
| `Router.BudgetHolds` | src/acip/core/llm/router.py:123-138 | Over any sequential run the recorded tokens stay below the ceiling plus one response |
| `Router.RejectedOutputIsNotCounted` | src/acip/core/llm/router.py:340-388 | A run whose output never validates records no tokens and is never stopped |
| `Router.RecordedIsChargedExactly` | src/acip/core/llm/router.py:123-231 | Whatever the providers reply, a call records the tokens of all its requests, exactly if it has a session and wants no schema, or no candidate's provider is registered |
| `Router.RejectedOutputCosts` | src/acip/core/llm/router.py:279-338 | Such a call has used every attempt, each at its full cost |
| `Orchestrator.OrchestratorAgent.Execute` | src/acip/core/orchestration/orchestrator.py:161-292 | Terminates with exactly one outcome for each task of the final list, in order; halted exactly if a task was skipped; the status is derived from these |
| `Orchestrator.OrchestratorAgent.RunTasks` | src/acip/core/orchestration/orchestrator.py:172-264 | The loop ends with the plan and what the first task adds to it, and with the outcomes of all of these |
| `Orchestrator.ExecutionMeans` | src/acip/core/orchestration/orchestrator.py:161-264 | A task is skipped exactly if no time remains and it is not the report; a run is given the whole remaining time, a report no less than 30 seconds; a run without a result has failed. The list is the plan as far as the limit allows and, after a successful triage, what it creates for agents that are not planned, in order, as far as there is room |
| `Orchestrator.OrchestratorAgent.FollowUps` | src/acip/core/orchestration/orchestrator.py:196-260 | Only a successful triage adds tasks, and only those not yet scheduled, within the limit |
| `Orchestrator.AdditionsAreNew` | src/acip/core/orchestration/orchestrator.py:212-260 | The list grows by one block, never past the limit, of registered agents that were not on the plan |
| `Orchestrator.InitialPlanFits` | src/acip/core/orchestration/orchestrator.py:542-572 | The initial plan is within the limit |
| `Orchestrator.TriageSchedulesReport` | src/acip/core/orchestration/orchestrator.py:294-431 | Whatever triage creates can be run, never includes a second triage, and includes a report if one is registered |
| `Orchestrator.InterpretTriageResult` | src/acip/core/orchestration/orchestrator.py:294-363 | Computes the tasks triage creates, or the fallback when there is no usable analysis |
| `Orchestrator.TriageMeans` | src/acip/core/orchestration/orchestrator.py:294-431 | Each registered proposal other than triage becomes one task, lower priority numbers first and equal ones as proposed, numbered from two, with a report behind them if none was proposed; without an analysis what is registered of the four fallback tasks, in the order of their numbers |
| `Orchestrator.ProposedTasksMean` | src/acip/core/orchestration/orchestrator.py:323-343 | Every registered proposal other than triage becomes a task, and every task comes from such a proposal |
| `Orchestrator.OnlyReportsRunLate` | src/acip/core/orchestration/orchestrator.py:176-192 | With a clock that does not run backwards, once a task was skipped exactly the reports are still run |
| `Orchestrator.ReportsAreNeverSkipped` | src/acip/core/orchestration/orchestrator.py:178-192 | A report is always run with at least its grace, and every run is given some time |
| `Orchestrator.OverrunIsBounded` | src/acip/core/orchestration/orchestrator.py:190-192 | If no run outlasts what it was given, an execution overruns its deadline by at most one grace for each report |
| `Orchestrator.StatusIsExact` | src/acip/core/orchestration/orchestrator.py:848-863 | Halted exactly if a task was skipped; completed exactly if there were tasks and none was skipped or failed; partial and failed exactly as documented |
| `Orchestrator.ReportIsScheduledExactly` | src/acip/core/orchestration/orchestrator.py:196-261 | Whatever the plan, a report is scheduled exactly if it is on the plan, or new tasks are allowed, its agent is registered, the triage runs in time and succeeds, and the limit leaves room for the plan, the new tasks ahead of the report, and the report |
| `Orchestrator.UnplannedReportExactly` | src/acip/core/orchestration/orchestrator.py:558-572 | Without a planner that is so exactly if the agent is registered, the triage runs in time and succeeds, and the limit leaves room for the triage, the tasks ahead of the report, and the report |
| `Orchestrator.DeployedReportExactly` | src/acip/api/app.py:49-66 | With the planners the application builds a report is scheduled exactly if its agent is registered and the limit does not cut the plan, whatever becomes of the triage |
| `Orchestrator.PlannedReportCanBeCut` | src/acip/core/orchestration/orchestrator.py:542-557 | With the default agents and seven tasks allowed a log is investigated without a report |
| `Orchestrator.DeployedReportIsLastExactly` | src/acip/core/orchestration/orchestrator.py:212-261 | With these planners the report is scheduled and the last task exactly if it is on the uncut plan and no successful triage proposes a registered agent that is not planned, with room left under the limit |
| `Orchestrator.ReportCanRunEarly` | src/acip/core/orchestration/orchestrator.py:212-261 | With the default agents and limit and no logs, a triage that proposes log analysis has it scheduled behind the report |
| `Orchestrator.ReportCanBeCut` | src/acip/core/orchestration/orchestrator.py:216-227 | Without a planner and with a limit of two tasks one proposal is enough to lose the report |
| `Orchestrator.FailedTriageLosesReport` | src/acip/core/orchestration/orchestrator.py:196-204 | Without a planner, when triage times out, nothing but the triage is scheduled, whatever the limit |
| `Orchestrator.FallbackCanBeCut` | src/acip/core/orchestration/orchestrator.py:365-431 | Without a planner a limit of four cuts the report behind the fallback tasks |
| `Orchestrator.TriageReportAt` | src/acip/core/orchestration/orchestrator.py:294-431 | The first report stands behind exactly the tasks counted as ahead of it, with an analysis and without |
| `Planners.AdaptivePlanMeans` | src/acip/core/orchestration/adaptive_planner.py:39-208 | The adaptive plan is for exactly the registered agents there is a reason for, triage first and the report last; the default cap never cuts |
| `Planners.AdaptivePlanExactly` | src/acip/core/orchestration/adaptive_planner.py:39-197 | The nine agents in their order, each planned exactly if it is registered and, for logs and captures, these are there, with the tasks numbered through |
| `Planners.DigitsMean` | src/acip/core/orchestration/adaptive_planner.py:45-60 | The number in a task's id is written in decimal, without leading zeros |
| `Planners.EnforceCap` | src/acip/core/orchestration/adaptive_planner.py:188-197 | The last loop keeps the tasks whose agent is registered, up to the cap |
| `Planners.StaticPlanMeans` | src/acip/core/orchestration/planner.py:71-161 | The rule-based plan is for registered agents only and ends with its only report exactly if that can be run |
| `Planners.StaticPlanExactly` | src/acip/core/orchestration/planner.py:71-161 | The plan task by task, with the numbers of the mapping and correlation tasks, which count unregistered agents too |
| `Sorting.SortBySorts` | src/acip/core/orchestration/orchestrator.py:325-325 | Sorting orders by key and keeps the entries |
| `Sorting.SortByIsStable` | src/acip/core/orchestration/orchestrator.py:325-325 | Entries with equal keys keep their order |
| `Sorting.SortByPlaces` | src/acip/core/orchestration/orchestrator.py:325-325 | The sorted entries are those of all places, each once, by key and, for equal keys, by place |
| `Lifecycle.ClaimsFromCreation` | src/acip/api/routers/investigations.py:612-744 | In every interleaving, with writes after a committed result, the status never returns to created, at most one start claim wins, and between any two winning claims a terminal status is written |
| `Lifecycle.Investigation.Start` | src/acip/api/routers/investigations.py:612-652 | The claim is won exactly if the status is created, and is then the one step of the machine; otherwise nothing changes |
| `Lifecycle.Investigation.Retry` | src/acip/api/routers/investigations.py:686-744 | The claim is won exactly if both the status loaded before and the status stored now are failed, halted or partial; otherwise nothing changes |
| `Lifecycle.Investigation.Begin` | src/acip/core/orchestration/orchestrator.py:589-592 | The row is marked running, whatever it says |
| `Lifecycle.Investigation.Finish` | src/acip/core/orchestration/orchestrator.py:613-630 | The result of an execution is written whatever the row says by then; the task is still within reach of its handlers |
| `Lifecycle.Investigation.MarkCrashed` | src/acip/core/orchestration/runner.py:145-171 | A crash before the result marks the row failed, unless that write fails too |
| `Lifecycle.Investigation.CrashLate` | src/acip/core/orchestration/runner.py:145-171 | A crash after the result was committed marks the row failed over that result, unless the write fails |
| `Lifecycle.Investigation.CheckCancellable` | src/acip/api/routers/investigations.py:655-669 | A cancel goes on exactly if the status it reads is not terminal |
| `Lifecycle.Investigation.StopTask` | src/acip/core/orchestration/runner.py:134-144 | The handler of a task stopped by a cancel or a shutdown before its result may mark the row halted; the task stays listed until it is done |
| `Lifecycle.Investigation.StopLate` | src/acip/core/orchestration/runner.py:134-144 | The same handler may mark the row halted over a committed result while the session of `_finish` is still awaited |
| `Lifecycle.Investigation.MarkHalted` | src/acip/core/orchestration/runner.py:66-76 | A cancel that has awaited its task marks the row, unless that write fails |
| `Lifecycle.Investigation.HaltDirectly` | src/acip/api/routers/investigations.py:669-674 | A cancel that found no task marks the row, whatever has been submitted since |
| `Lifecycle.Investigation.RecoverInterrupted` | src/acip/core/orchestration/runner.py:101-132 | A restart marks a running row failed and drops everything the process held |
| `Lifecycle.StepKeepsClaims` | src/acip/core/orchestration/runner.py:51-171 | Every single step of every party keeps what is claimed about runs |
| `Lifecycle.StatusAfterStep` | src/acip/core/orchestration/runner.py:51-171 | The status each step leaves, and the statuses in which a start, a retry and a cancel are let through |
| `Lifecycle.NothingIsLost` | src/acip/core/orchestration/runner.py:51-171 | Short of a restart every claim stands for one listed or coming task until that is done, and every cancel goes on until it has written |
| `Lifecycle.ExclusionLostExactly` | src/acip/core/orchestration/runner.py:64-171 | While no two executions overlap, that is lost at exactly the writes under work of a cancel or of a handler after a committed result, and a retry can then win a second claim at once |
| `Lifecycle.QuietRunsAreExclusive` | src/acip/api/routers/investigations.py:612-744 | Without such a write no two executions ever overlap |
| `Lifecycle.CancelBeforeSubmitOverlaps` | src/acip/api/routers/investigations.py:655-744 | A run in which a cancel comes between a claim and its submission, and which ends with two executions at once |
| `Lifecycle.SecondCancelOverlaps` | src/acip/core/orchestration/runner.py:64-77 | A run in which two cancels find one task, and which ends with two executions at once |
| `Lifecycle.EveryRunKeepsWaits` | src/acip/core/orchestration/runner.py:51-77 | In every run, whoever awaits a task awaits one that is still listed |
| `Lifecycle.CompletedIsLeftExactly` | src/acip/core/orchestration/runner.py:64-171 | A completed investigation loses that status at exactly the writes of a cancel, of a handler after a committed result, and of an overlapping execution |
| `Lifecycle.CompletedIsKeptExactly` | src/acip/core/orchestration/runner.py:64-150 | A completed investigation stays completed in every run exactly if no other execution is claimed or executing, no cancel is pending, and every listed task is past its writes |
| `Lifecycle.CompletedCanBeHalted` | src/acip/api/routers/investigations.py:655-683 | A run that completes and is halted afterwards |
| `Lifecycle.CompletedCanBeLost` | src/acip/core/orchestration/runner.py:134-150 | Runs without any cancel that complete and end halted or failed |
| `Lifecycle.OverlapLosesCompletion` | src/acip/api/routers/investigations.py:655-744 | A run in which one of two executions completes, no cancel is pending, and the other can mark the row running again |
| `Correlation.ExtractEntityRefs` | src/acip/agents/correlation.py:222-308 | Computes the mentions of a row, each once, at its first occurrence |
| `Correlation.EntityRefsMean` | src/acip/agents/correlation.py:222-308 | Every reference and standard field that is not blank is extracted, stripped, and nothing else is |
| `Correlation.FieldsAreExtracted` | src/acip/agents/correlation.py:222-308 | A row names exactly its references and, kind by kind, the fields listed, stripped, as far as they are not blank |
| `Correlation.ObservedAllMeans` | src/acip/agents/correlation.py:70-98 | One entity for each key; first and last seen are the earliest and the latest of what was known and the dated observations; the count grows by one for each observation |
| `Correlation.CorrelationAgent.Upsert` | src/acip/agents/correlation.py:74-98 | An observation changes the entry of its key and no other |
| `Correlation.CorrelationAgent.Run` | src/acip/agents/correlation.py:51-128 | The new entity table and edge list after all rows, starting from any earlier ones |
| `Correlation.CorrelationAgent.DeriveEdgesForEvidence` | src/acip/agents/correlation.py:310-433 | Computes the edges a row backs among the known entities, which `Correlation.EdgesAreExactly` characterises |
| `Correlation.EdgesAreExactly` | src/acip/agents/correlation.py:310-433 | In any run on any graph a row leaves exactly the edges its kind asks for, login, request, flow, query or verdict, between the fields named and as far as the entities are in the graph; if there is none, exactly the association of the two entities of a row that names two |
| `Correlation.EdgesAfterMeans` | src/acip/agents/correlation.py:107-126 | Stored edges stay, new ones follow, and no edge is stored twice |
| `Correlation.EdgesAreSound` | src/acip/agents/correlation.py:310-433 | Every edge connects known entities of the types its relation names |
| `Correlation.SelfEdgesExactly` | src/acip/agents/correlation.py:310-433 | An entity is connected with itself exactly by a flow between one address and itself |
| `Correlation.EveryGraphIsGrounded` | src/acip/agents/correlation.py:51-128 | After any runs on any rows edges are unique, connect entities of the graph, and are backed by a row that was processed |
| `Correlation.SecondRunAddsNothing` | src/acip/agents/correlation.py:56-128 | Running again over rows already processed adds no entity and no edge and moves no time; the counts grow by the observations repeated |
| `Correlation.OrderDoesNotMatter` | src/acip/agents/correlation.py:74-128 | The order of the evidence changes neither the entity table nor the set of edges |
| `Correlation.MentionsAreKnown` | src/acip/agents/correlation.py:74-98 | Every entity a row names is in the graph afterwards |
| `Correlation.EntityComesFrom` | src/acip/agents/correlation.py:74-98 | Every new entity is named by one of the rows |
| `Correlation.FoundExactly` | src/acip/agents/correlation.py:320-325 | What the edges of a run look up is found exactly if it is in the graph already or some row of the run names it |
| `Correlation.LoginsAreLinked` | src/acip/agents/correlation.py:327-350 | Every login attempt that names its user and host leaves the edge that tells its outcome |
| `Correlation.FlowsAreLinked` | src/acip/agents/correlation.py:368-379 | Every flow that names both ends leaves its edge |
| `Correlation.AnswersAreLinked` | src/acip/agents/correlation.py:381-394 | Every address a name was resolved to is linked with the name, where the row gives both as query and answers |
| `Correlation.UnqueriedIsLinkedExactly` | src/acip/agents/correlation.py:381-433 | A DNS row without a query leaves one edge exactly if it names exactly two entities, which it then associates |
| `Correlation.CapturedDnsIsLinkedExactly` | src/acip/tools/pcap_parser.py:200-226 | The row of a captured DNS packet associates name and sender exactly if the sender is the client, and leaves no other edge |
| `Correlation.VerdictsAreLinked` | src/acip/agents/correlation.py:396-416 | A verdict leaves its edge if the indicator is looked up under the type it is recorded under |
| `Correlation.VerdictIsLinkedExactly` | src/acip/agents/correlation.py:286-416 | In any run on any graph a verdict leaves its edge, and no other verdict edge, exactly if the indicator as it is looked up and the source are in the graph or named by a row |
| `Correlation.LoneVerdictIsLinkedExactly` | src/acip/agents/correlation.py:286-416 | On its own, a verdict leaves an edge exactly if its row names both ends, by a reference or a field |
| `Correlation.BareVerdictIsLinkedExactly` | src/acip/agents/correlation.py:286-416 | A verdict without references leaves its edge exactly if indicator and source are given and the indicator is looked up under the type it is recorded under |
| `Correlation.VerdictCanBeLost` | src/acip/agents/correlation.py:286-416 | A verdict on a domain typed by `entity_type` only leaves no verdict edge |
| `Correlation.QueryVerdictIsLost` | src/acip/agents/correlation.py:396-416 | A verdict that gives its domain as a query leaves no verdict edge, although the types agree |
| `Pcap.ParseDnsQname` | src/acip/tools/pcap_parser.py:43-65 | Computes the labels read and the offset where reading stops; terminates and stays in bounds on any bytes |
| `Pcap.ReadEncoded` | src/acip/tools/pcap_parser.py:43-65 | Encoded labels parse back up to the first that does not fit, wherever they stand; if all fit, up to just past the terminator |
| `Pcap.RawNameIsRead` | src/acip/tools/pcap_parser.py:43-65 | Labels of any bytes are read up to where the name stops: its end, a pointer, a label past the end, the end of the payload |
| `Pcap.TextOfBytes` | src/acip/tools/pcap_parser.py:59-62 | A byte of a label that is no ASCII character is read as the replacement character, every other one as itself |
| `Pcap.NameRoundTrip` | src/acip/demo_data.py:99-108 | Encoding a name and parsing it gives the name back exactly if it is empty or every label has 1 to 191 bytes |
| `Pcap.JoinSplit` | src/acip/demo_data.py:99-101 | Splitting a name at its dots and joining the parts gives the name back |
| `Pcap.ParseRecords` | src/acip/tools/pcap_parser.py:124-150 | Computes the records up to the packet limit, the cut warning and the offset, in bounds on any bytes |
| `Pcap.ReadFramed` | src/acip/tools/pcap_parser.py:124-150 | Framed packets of either byte order read back in order, up to the limit, uncut |
| `Pcap.CutCapture` | src/acip/tools/pcap_parser.py:138-144 | A capture that ends inside a packet gives what is there of it, and notes the cut |
| `Pcap.LeftoverIsUnread` | src/acip/tools/pcap_parser.py:133-136 | Too few bytes for another record are left unread, without a note |
| `Pcap.FramedRead` | src/acip/tools/pcap_parser.py:133-150 | Conversely, packets read without a cut frame back to exactly the bytes they were read from |
| `Pcap.IpPacketDecodes` | src/acip/tools/pcap_parser.py:152-227 | An IPv4 packet with any options decodes to its addresses, ports, protocol and original length, and over UDP to or from the DNS port to the name it asks for, its client and its server |
| `Pcap.OtherPacketDecodes` | src/acip/tools/pcap_parser.py:153-161 | Anything but an IPv4 packet with a full header gives nothing |
| `Pcap.QuestionDecodes` | src/acip/tools/pcap_parser.py:202-208 | A question is reported exactly if there is one and its name has a dot and is not one of a reverse look-up |
| `Pcap.DnsPacketDecodes` | src/acip/demo_data.py:99-118 | The demo's DNS packet is reported with its name, client and server |
| `Pcap.FlowPacketDecodes` | src/acip/demo_data.py:84-97 | The demo's flow packet is reported with its addresses and ports, and names no domain |
| `Pcap.DemoCaptureRoundTrip` | src/acip/demo_data.py:78-122 | The whole demo capture reads back as its two packets, to the end and uncut, and reports the flow and the query |
| `Pcap.ParseBlocks` | src/acip/tools/pcap_parser.py:255-298 | However the capture is made up of blocks, the source, destination and protocol of every IPv4 packet in a packet block are reported as they stand, in order up to the limit, and nothing for any other block; counts the packet blocks passed; terminates and stays in bounds on any bytes |
| `Pcap.TiledCapture` | src/acip/tools/pcap_parser.py:263-298 | A capture that is a row of blocks, and then bytes that are none, is taken apart into exactly these blocks |
| `Pcap.CaptureIsReported` | src/acip/tools/pcap_parser.py:263-298 | A row of blocks built from packets is reported packet by packet |
| `Pcap.EveryBlockIsDescribed` | src/acip/tools/pcap_parser.py:263-298 | Every block can be built in this way, with one thing it is to be reported as |

## Left out

- The web UI, the command line, HTTP wiring, migrations, logging, configuration, reports: plumbing and text formatting.
- HTTP providers, fetching of URLs and the subprocess sandbox: network and operating system calls.
- Log and IOC regular expressions, URL signature rules, the technique table: their content is in the tables; the detectors
  take parsed events.
- Risk scoring, metric averages, keyword tests and role order: they would add easy members only.
- How the matcher decides edges from keywords: the adjacency is an arbitrary relation.
- JSON and base64 inside cursors, SHA-256: library code, taken as injective.
- Matcher.Match: which of several free ground truths a search gains, and so which of them comes first among the pairs, is left open beyond what a maximum matching of the predictions so far says.
- Detection.EvaluateAuthRules: titles, descriptions and confidences are not modelled.
- Traversal.GraphTraversal.Neighbours: does not claim that the ends of a collected edge are visited when the cap is hit, because the source stops before visiting the far end; both ends are within the bound.
- EvidenceStores.EvidenceStore.AddEvidence: the rows that join findings to evidence, and the other columns of a row, are not part of the model.
- RateLimit.SlidingWindowRateLimiter.CheckKey: takes clock readings that do not go back in the order of the lock, because the source reads its clock before it takes the lock; `reset` is not modelled.
- Router.ExecuteCandidate: the messages sent back for repair are not modelled, because a reply is an arbitrary function of the attempt.
- Orchestrator.OrchestratorAgent.Execute: rows and audit records are not modelled, and the commit of a run is taken to succeed; that a planner's agents are registered is required, because the source raises otherwise.
- Orchestrator.ProposedTasksMean: proposals carry their type already stripped, and an agent that is proposed twice is scheduled twice; rationales are not modelled.
- Planners.AdaptivePlanMeans: the rationales and notes of a plan are not modelled.
- Lifecycle.ClaimsFromCreation: deleting the row is not a step, and the writes of completion time and error text are not modelled; where several tasks of one investigation are listed, the model does not say which of them a cancel awaits.
- Correlation.CorrelationAgent.Run: an entity's database id is stood for by its type and normalised value, which the table keeps unique; confidence and observation time of an edge, the citation rows and the summary finding are not modelled.
- Correlation.SecondRunAddsNothing: observation counts do grow on a second run, as the source counts them again.
- Correlation.EntityRefsMean: references whose type is unknown or that are not objects are taken to be dropped before; field values are texts, so other JSON values and their conversion are not modelled.
- Pcap.ParseRecords: the warning texts and the choice of byte order from the file header are not modelled.
- Pcap.IpPacketDecodes: packet times, the id of a DNS packet, the indicators added for the names seen and the two switches of the parser are not modelled.
