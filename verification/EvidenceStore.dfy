/**
 The append-only evidence store (src/acip/core/evidence/store.py): deduplicated, quota-bounded
 writes, the grounding invariants G0-G4, bounded reads, and the purge of a whole investigation.
 */
module EvidenceStores {
  import opened Prelude
  import opened EvidencePages

  datatype AssertionClass = Fact | Inference | Hypothesis | Unknown

  datatype Severity = Info | Low | Medium | High | Critical

  function Rank(s: Severity): nat {
    match s
    case Info => 0
    case Low => 1
    case Medium => 2
    case High => 3
    case Critical => 4
  }

  datatype EntityRef = EntityRef(kind: string, value: string, role: Option<string>)

  datatype EvidenceDraft = EvidenceDraft(
    kind: string, observedAt: Option<int>, data: string, entities: seq<EntityRef>)

  datatype FindingDraft = FindingDraft(
    title: string, assertionClass: AssertionClass, severity: Severity, evidenceIds: seq<int>, reasoning: Option<string>)

  datatype Finding = Finding(id: int, investigation: int, claim: FindingDraft)

  datatype HypothesisDraft = HypothesisDraft(
    statement: string, refutation: string, supporting: seq<int>, contradicting: seq<int>)

  datatype HypothesisRow = HypothesisRow(id: int, investigation: int, claim: HypothesisDraft)

  datatype GroundingError = MissingEvidence(ids: seq<int>) | UngroundedFact | InferenceWithoutEvidence
                          | InferenceWithoutReasoning | HypothesisWithoutTest | UnknownWithSeverity

  /** Everything the store keeps, over all investigations. */
  datatype Store = Store(evidence: Table, findings: seq<Finding>, hypotheses: seq<HypothesisRow>, nextId: int)

  /** The normal form of an entity's value, which depends on the entity's type. */
  type Canon = (string, string) -> string

  function Normalized(canon: Canon, entities: seq<EntityRef>): seq<Mention> {
    seq(|entities|, i requires 0 <= i < |entities| =>
      Mention(entities[i].kind, canon(entities[i].kind, entities[i].value), OrEmpty(entities[i].role)))
  }

  function ContentHash(canon: Canon, draft: EvidenceDraft, sourceTool: string): Digest {
    Digest(draft.kind, sourceTool, draft.observedAt, draft.data, multiset(Normalized(canon, draft.entities)))
  }

  function OrEmpty(text: Option<string>): string {
    if text.Some? then text.value else ""
  }

  // ---------------------------------------------------------------------------------------------
  // Grounding
  // ---------------------------------------------------------------------------------------------

  ghost predicate Holds(evidence: Table, investigation: int, id: int) {
    exists row :: row in evidence && row.id == id && row.investigation == investigation
  }

  /** G0: every cited row exists in the same investigation. */
  ghost predicate CitesExisting(evidence: Table, investigation: int, ids: seq<int>) {
    forall id :: id in ids ==> Holds(evidence, investigation, id)
  }

  ghost predicate CitesToolOutput(evidence: Table, investigation: int, ids: seq<int>) {
    exists row :: row in evidence && row.id in ids && row.investigation == investigation && row.toolRun.Some?
  }

  /** G0-G4 as the design states them. */
  ghost predicate Grounded(evidence: Table, investigation: int, claim: FindingDraft) {
    && CitesExisting(evidence, investigation, claim.evidenceIds)
    && (claim.assertionClass.Fact? ==> CitesToolOutput(evidence, investigation, claim.evidenceIds))
    && (claim.assertionClass.Inference? ==> claim.evidenceIds != [] && !Blank(OrEmpty(claim.reasoning)))
    && (claim.assertionClass.Hypothesis? ==> !Blank(OrEmpty(claim.reasoning)))
    && (claim.assertionClass.Unknown? ==> claim.severity == Info)
  }

  ghost predicate GroundedHypothesis(evidence: Table, investigation: int, claim: HypothesisDraft) {
    && !Blank(claim.refutation)
    && CitesExisting(evidence, investigation, claim.supporting + claim.contradicting)
  }

  // ---------------------------------------------------------------------------------------------
  // Deduplication under a quota
  // ---------------------------------------------------------------------------------------------

  /** How many drafts of a batch are neither stored already nor kept. */
  function Dropped(hashes: seq<Digest>, existing: set<Digest>, kept: seq<Digest>): nat {
    if hashes == [] then 0
    else
      var h := hashes[|hashes| - 1];
      Dropped(hashes[..|hashes| - 1], existing, kept) + if h in existing || h in kept then 0 else 1
  }

  /** How many drafts of a batch repeat a stored row or an earlier draft that is kept. */
  function Repeated(hashes: seq<Digest>, existing: set<Digest>, kept: seq<Digest>): nat {
    if hashes == [] then 0
    else
      var before := hashes[..|hashes| - 1];
      var h := hashes[|hashes| - 1];
      Repeated(before, existing, kept) + if h in existing || (h in kept && h in before) then 1 else 0
  }

  lemma {:induction false} FatesAddUp(hashes: seq<Digest>, existing: set<Digest>, kept: seq<Digest>)
    requires forall h :: h in kept ==> h !in existing
    requires Distinct(kept)
    ensures |hashes| == |KeptIn(hashes, kept)| + Repeated(hashes, existing, kept) + Dropped(hashes, existing, kept)
  {
    if hashes != [] {
      var before, h := hashes[..|hashes| - 1], hashes[|hashes| - 1];
      FatesAddUp(before, existing, kept);
      assert hashes == before + [h];
      if h in kept && h !in before {
        assert KeptIn(hashes, kept) == KeptIn(before, kept) + {h};
      } else {
        assert KeptIn(hashes, kept) == KeptIn(before, kept);
      }
    }
  }

  /** The kept contents that occur in a batch. */
  ghost function KeptIn(hashes: seq<Digest>, kept: seq<Digest>): set<Digest> {
    set h | h in hashes && h in kept
  }

  /** Every draft is exactly one of created, a repeat, and dropped. */
  lemma {:induction false} EveryDraftHasOneFate(t: Table, investigation: int, quota: Option<int>, hashes: seq<Digest>)
    ensures var kept := Kept(t, investigation, quota, hashes);
            var existing := Hashes(t, investigation);
            |hashes| == |kept| + Repeated(hashes, existing, kept) + Dropped(hashes, existing, kept)
  {
    var kept := Kept(t, investigation, quota, hashes);
    KeptIsNew(t, investigation, quota, hashes);
    FatesAddUp(hashes, Hashes(t, investigation), kept);
    assert KeptIn(hashes, kept) == Elements(kept);
    DistinctCount(kept);
  }

  lemma {:induction false} DroppedNone(hashes: seq<Digest>, existing: set<Digest>, kept: seq<Digest>)
    ensures Dropped(hashes, existing, kept) == 0 <==> forall h :: h in hashes ==> h in existing || h in kept
  {
    if hashes != [] {
      DroppedNone(hashes[..|hashes| - 1], existing, kept);
      assert hashes == hashes[..|hashes| - 1] + [hashes[|hashes| - 1]];
    }
  }

  function CountFor(t: Table, investigation: int): nat {
    if t == [] then 0 else CountFor(t[1..], investigation) + if t[0].investigation == investigation then 1 else 0
  }

  function Hashes(t: Table, investigation: int): set<Digest> {
    set row | row in t && row.investigation == investigation :: row.contentHash
  }

  function Headroom(quota: Option<int>, count: nat): Option<nat> {
    if quota.Some? then Some(Max(0, quota.value - count)) else None
  }

  function DraftHashes(canon: Canon, drafts: seq<EvidenceDraft>, sourceTool: string): seq<Digest> {
    seq(|drafts|, i requires 0 <= i < |drafts| => ContentHash(canon, drafts[i], sourceTool))
  }

  /** The contents `add_evidence` keeps. */
  function Kept(t: Table, investigation: int, quota: Option<int>, hashes: seq<Digest>): seq<Digest> {
    Cut(Firsts(hashes, Hashes(t, investigation)), Headroom(quota, CountFor(t, investigation)))
  }

  function RowOf(h: Digest, id: int, investigation: int, now: int, toolRun: Option<int>): Evidence {
    Evidence(id, investigation, h.kind, h.observedAt, now, h, toolRun)
  }

  function RowsOf(kept: seq<Digest>, firstId: int, investigation: int, now: int, toolRun: Option<int>): Table {
    seq(|kept|, i requires 0 <= i < |kept| => RowOf(kept[i], firstId + i, investigation, now, toolRun))
  }

  // ---------------------------------------------------------------------------------------------
  // The operations on the whole store
  // ---------------------------------------------------------------------------------------------

  ghost predicate UniqueHashes(t: Table) {
    forall i, j :: 0 <= i < j < |t| && t[i].investigation == t[j].investigation ==> t[i].contentHash != t[j].contentHash
  }

  /** Keys are unique, and every stored claim is grounded in what is stored now. */
  ghost predicate Consistent(s: Store) {
    && UniqueIds(s.evidence)
    && (forall row :: row in s.evidence ==> row.id < s.nextId)
    && UniqueHashes(s.evidence)
    && (forall f :: f in s.findings ==> Grounded(s.evidence, f.investigation, f.claim))
    && (forall h :: h in s.hypotheses ==> GroundedHypothesis(s.evidence, h.investigation, h.claim))
  }

  function AddEvidenceTo(s: Store, investigation: int, quota: Option<int>, hashes: seq<Digest>, toolRun: Option<int>,
                         now: int)
    : Store
  {
    var kept := Kept(s.evidence, investigation, quota, hashes);
    s.(evidence := s.evidence + RowsOf(kept, s.nextId, investigation, now, toolRun), nextId := s.nextId + |kept|)
  }

  function SelectCited(t: Table, investigation: int, ids: seq<int>): Table {
    if t == [] then []
    else
      var rest := SelectCited(t[1..], investigation, ids);
      if t[0].investigation == investigation && t[0].id in ids then [t[0]] + rest else rest
  }

  function IdsOf(rows: Table): set<int> {
    set row | row in rows :: row.id
  }

  function Missing(ids: seq<int>, found: set<int>): seq<int> {
    if ids == [] then [] else (if ids[0] in found then [] else [ids[0]]) + Missing(ids[1..], found)
  }

  function LoadCitedEvidence(t: Table, investigation: int, ids: seq<int>): Result<Table, GroundingError> {
    var rows := SelectCited(t, investigation, ids);
    var missing := Missing(ids, IdsOf(rows));
    if missing != [] then Err(MissingEvidence(missing)) else Ok(rows)
  }

  function EnforceGrounding(claim: FindingDraft, cited: Table): Option<GroundingError> {
    match claim.assertionClass
    case Fact =>
      if exists row | row in cited :: row.toolRun.Some? then None else Some(UngroundedFact)
    case Inference =>
      if cited == [] then Some(InferenceWithoutEvidence)
      else if Blank(OrEmpty(claim.reasoning)) then Some(InferenceWithoutReasoning)
      else None
    case Hypothesis =>
      if Blank(OrEmpty(claim.reasoning)) then Some(HypothesisWithoutTest) else None
    case Unknown =>
      if Rank(claim.severity) > Rank(Info) then Some(UnknownWithSeverity) else None
  }

  function CheckFinding(t: Table, investigation: int, claim: FindingDraft): Option<GroundingError> {
    match LoadCitedEvidence(t, investigation, claim.evidenceIds)
    case Err(e) => Some(e)
    case Ok(cited) => EnforceGrounding(claim, cited)
  }

  function CheckHypothesis(t: Table, investigation: int, claim: HypothesisDraft): Option<GroundingError> {
    if Blank(claim.refutation) then Some(HypothesisWithoutTest)
    else
      match LoadCitedEvidence(t, investigation, claim.supporting + claim.contradicting)
      case Err(e) => Some(e)
      case Ok(_) => None
  }

  function AddFindingTo(s: Store, investigation: int, claim: FindingDraft): Store {
    if CheckFinding(s.evidence, investigation, claim).Some? then s
    else s.(findings := s.findings + [Finding(s.nextId, investigation, claim)], nextId := s.nextId + 1)
  }

  function AddHypothesisTo(s: Store, investigation: int, claim: HypothesisDraft): Store {
    if CheckHypothesis(s.evidence, investigation, claim).Some? then s
    else s.(hypotheses := s.hypotheses + [HypothesisRow(s.nextId, investigation, claim)], nextId := s.nextId + 1)
  }

  function OtherEvidence(t: Table, investigation: int): Table {
    if t == [] then []
    else (if t[0].investigation == investigation then [] else [t[0]]) + OtherEvidence(t[1..], investigation)
  }

  function OtherFindings(t: seq<Finding>, investigation: int): seq<Finding> {
    if t == [] then []
    else (if t[0].investigation == investigation then [] else [t[0]]) + OtherFindings(t[1..], investigation)
  }

  function OtherHypotheses(t: seq<HypothesisRow>, investigation: int): seq<HypothesisRow> {
    if t == [] then []
    else (if t[0].investigation == investigation then [] else [t[0]]) + OtherHypotheses(t[1..], investigation)
  }

  /** Whether deleting needs the explicit flag: evidence, findings, or other append-only records. */
  predicate HoldsRecords(s: Store, investigation: int, otherRecords: nat) {
    || CountFor(s.evidence, investigation) > 0
    || |OtherFindings(s.findings, investigation)| < |s.findings|
    || otherRecords > 0
  }

  /** Evidence goes first, then the investigation, which takes its findings and hypotheses along. */
  function DeleteFrom(s: Store, investigation: int, otherRecords: nat, purge: bool): Store {
    if HoldsRecords(s, investigation, otherRecords) && !purge then s
    else s.(evidence := OtherEvidence(s.evidence, investigation),
            findings := OtherFindings(s.findings, investigation),
            hypotheses := OtherHypotheses(s.hypotheses, investigation))
  }

  // ---------------------------------------------------------------------------------------------
  // The checks are exactly the invariants
  // ---------------------------------------------------------------------------------------------

  lemma {:induction false} SelectCitedMeans(t: Table, investigation: int, ids: seq<int>)
    ensures forall row :: row in SelectCited(t, investigation, ids) <==>
                            row in t && row.investigation == investigation && row.id in ids
  {
    if t != [] {
      SelectCitedMeans(t[1..], investigation, ids);
      assert t == [t[0]] + t[1..];
    }
  }

  lemma {:induction false} MissingMeans(ids: seq<int>, found: set<int>)
    ensures forall id :: id in Missing(ids, found) <==> id in ids && id !in found
  {
    if ids != [] {
      MissingMeans(ids[1..], found);
      assert ids == [ids[0]] + ids[1..];
    }
  }

  lemma {:induction false} FirstIsMember<T>(s: seq<T>)
    ensures s != [] ==> s[0] in s
  {
  }

  lemma {:induction false} LoadCitedMeans(t: Table, investigation: int, ids: seq<int>)
    ensures var r := LoadCitedEvidence(t, investigation, ids);
            && (r.Ok? <==> CitesExisting(t, investigation, ids))
            && (r.Ok? ==>
                  forall row :: row in r.value <==> row in t && row.investigation == investigation && row.id in ids)
            && (r.Err? ==> r.error.MissingEvidence?
                           && forall id :: id in r.error.ids <==> id in ids && !Holds(t, investigation, id))
  {
    var rows := SelectCited(t, investigation, ids);
    var found := IdsOf(rows);
    SelectCitedMeans(t, investigation, ids);
    MissingMeans(ids, found);
    var missing := Missing(ids, found);
    forall id | id in ids
      ensures id in missing <==> !Holds(t, investigation, id)
    {
      if id in found {
        var row :| row in rows && row.id == id;
        assert row in t;
      }
    }
    if missing == [] {
      assert CitesExisting(t, investigation, ids);
    } else {
      assert missing[0] in missing && !Holds(t, investigation, missing[0]);
    }
  }

  /** A finding is accepted exactly when it satisfies G0-G4. */
  lemma {:induction false} FindingCheckIsExact(t: Table, investigation: int, claim: FindingDraft)
    ensures CheckFinding(t, investigation, claim).None? <==> Grounded(t, investigation, claim)
  {
    LoadCitedMeans(t, investigation, claim.evidenceIds);
    if CitesExisting(t, investigation, claim.evidenceIds) {
      var cited := LoadCitedEvidence(t, investigation, claim.evidenceIds).value;
      if claim.evidenceIds != [] {
        assert Holds(t, investigation, claim.evidenceIds[0]);
        var row :| row in t && row.id == claim.evidenceIds[0] && row.investigation == investigation;
        assert row in cited;
      } else {
        FirstIsMember(cited);
      }
    }
  }

  /** A hypothesis is accepted exactly when it names a refutation and cites stored evidence. */
  lemma {:induction false} HypothesisCheckIsExact(t: Table, investigation: int, claim: HypothesisDraft)
    ensures CheckHypothesis(t, investigation, claim).None? <==> GroundedHypothesis(t, investigation, claim)
  {
    LoadCitedMeans(t, investigation, claim.supporting + claim.contradicting);
  }

  // ---------------------------------------------------------------------------------------------
  // What every operation keeps
  // ---------------------------------------------------------------------------------------------

  lemma {:induction false} CountAppend(t: Table, rows: Table, investigation: int)
    ensures CountFor(t + rows, investigation) == CountFor(t, investigation) + CountFor(rows, investigation)
  {
    if t == [] {
      assert t + rows == rows;
    } else {
      assert (t + rows)[1..] == t[1..] + rows;
      CountAppend(t[1..], rows, investigation);
    }
  }

  lemma {:induction false} CountAll(t: Table, investigation: int)
    requires forall row :: row in t ==> row.investigation == investigation
    ensures CountFor(t, investigation) == |t|
  {
    if t != [] { CountAll(t[1..], investigation); }
  }

  lemma {:induction false} RowsOfCount(kept: seq<Digest>, firstId: int, investigation: int, now: int,
                                       toolRun: Option<int>)
    ensures CountFor(RowsOf(kept, firstId, investigation, now, toolRun), investigation) == |kept|
  {
    CountAll(RowsOf(kept, firstId, investigation, now, toolRun), investigation);
  }

  /** An investigation never outgrows its quota by adding. */
  lemma {:induction false} QuotaRespected(s: Store, investigation: int, quota: Option<int>, hashes: seq<Digest>,
                                          toolRun: Option<int>, now: int)
    ensures var count := CountFor(s.evidence, investigation);
            var count' := CountFor(AddEvidenceTo(s, investigation, quota, hashes, toolRun, now).evidence,
                                   investigation);
            && count' == count + |Kept(s.evidence, investigation, quota, hashes)|
            && (quota.Some? ==> count' <= Max(count, quota.value))
  {
    var kept := Kept(s.evidence, investigation, quota, hashes);
    CountAppend(s.evidence, RowsOf(kept, s.nextId, investigation, now, toolRun), investigation);
    RowsOfCount(kept, s.nextId, investigation, now, toolRun);
  }

  lemma {:induction false} GroundedGrows(t: Table, t': Table, investigation: int, claim: FindingDraft)
    requires Grounded(t, investigation, claim) && t <= t'
    ensures Grounded(t', investigation, claim)
  {
    HoldsGrows(t, t', investigation, claim.evidenceIds);
  }

  lemma {:induction false} HoldsGrows(t: Table, t': Table, investigation: int, ids: seq<int>)
    requires t <= t' && CitesExisting(t, investigation, ids)
    ensures CitesExisting(t', investigation, ids)
  {
    forall id | id in ids
      ensures Holds(t', investigation, id)
    {
      var row :| row in t && row.id == id && row.investigation == investigation;
      assert row in t';
    }
  }

  lemma {:induction false} KeptIsNew(t: Table, investigation: int, quota: Option<int>, hashes: seq<Digest>)
    ensures var kept := Kept(t, investigation, quota, hashes);
            && (forall h :: h in kept ==> h in hashes && h !in Hashes(t, investigation))
            && Distinct(kept)
  {
    FirstsSelect(hashes, Hashes(t, investigation));
  }

  /** Rows with new ids and new contents keep the table's keys unique. */
  lemma {:induction false} KeysStayUnique(t: Table, rows: Table, nextId: int, investigation: int)
    requires UniqueIds(t) && UniqueHashes(t) && UniqueIds(rows) && UniqueHashes(rows)
    requires forall row :: row in t ==> row.id < nextId
    requires forall row :: row in rows ==> row.id >= nextId && row.investigation == investigation
    requires forall row :: row in rows ==> row.contentHash !in Hashes(t, investigation)
    ensures UniqueIds(t + rows) && UniqueHashes(t + rows)
  {
    var both := t + rows;
    forall i, j | 0 <= i < |t| <= j < |both|
      ensures both[i].id != both[j].id
      ensures both[i].investigation == both[j].investigation ==> both[i].contentHash != both[j].contentHash
    {
      assert both[i] in t && both[j] in rows;
    }
  }

  lemma {:induction false} ClaimsStayGrounded(s: Store, t': Table)
    requires Consistent(s) && s.evidence <= t'
    ensures forall f :: f in s.findings ==> Grounded(t', f.investigation, f.claim)
    ensures forall h :: h in s.hypotheses ==> GroundedHypothesis(t', h.investigation, h.claim)
  {
    forall f | f in s.findings
      ensures Grounded(t', f.investigation, f.claim)
    {
      GroundedGrows(s.evidence, t', f.investigation, f.claim);
    }
    forall h | h in s.hypotheses
      ensures GroundedHypothesis(t', h.investigation, h.claim)
    {
      HoldsGrows(s.evidence, t', h.investigation, h.claim.supporting + h.claim.contradicting);
    }
  }

  lemma {:induction false} RowsOfMeans(kept: seq<Digest>, firstId: int, investigation: int, now: int,
                                       toolRun: Option<int>)
    requires Distinct(kept)
    ensures var rows := RowsOf(kept, firstId, investigation, now, toolRun);
            && UniqueIds(rows) && UniqueHashes(rows)
            && forall row :: row in rows ==>
                 row.contentHash in kept && row.investigation == investigation && firstId <= row.id < firstId + |kept|
  {
  }

  lemma {:induction false} AddEvidenceKeeps(s: Store, investigation: int, quota: Option<int>, hashes: seq<Digest>,
                                            toolRun: Option<int>, now: int)
    requires Consistent(s)
    ensures Consistent(AddEvidenceTo(s, investigation, quota, hashes, toolRun, now))
  {
    var kept := Kept(s.evidence, investigation, quota, hashes);
    var rows := RowsOf(kept, s.nextId, investigation, now, toolRun);
    KeptIsNew(s.evidence, investigation, quota, hashes);
    RowsOfMeans(kept, s.nextId, investigation, now, toolRun);
    KeysStayUnique(s.evidence, rows, s.nextId, investigation);
    ClaimsStayGrounded(s, s.evidence + rows);
  }

  lemma {:induction false} OtherEvidenceMeans(t: Table, investigation: int)
    ensures forall row :: row in OtherEvidence(t, investigation) <==> row in t && row.investigation != investigation
  {
    if t != [] {
      OtherEvidenceMeans(t[1..], investigation);
      assert t == [t[0]] + t[1..];
    }
  }

  ghost predicate Clash(a: Evidence, b: Evidence) {
    a.id == b.id || (a.investigation == b.investigation && a.contentHash == b.contentHash)
  }

  lemma {:induction false} UniqueTail(t: Table)
    requires t != [] && UniqueIds(t) && UniqueHashes(t)
    ensures UniqueIds(t[1..]) && UniqueHashes(t[1..]) && forall row :: row in t[1..] ==> !Clash(t[0], row)
  {
  }

  lemma {:induction false} UniqueCons(first: Evidence, rest: Table)
    requires UniqueIds(rest) && UniqueHashes(rest) && forall row :: row in rest ==> !Clash(first, row)
    ensures UniqueIds([first] + rest) && UniqueHashes([first] + rest)
  {
    assert forall j :: 0 <= j < |rest| ==> !Clash(first, rest[j]);
  }

  lemma {:induction false} OtherEvidenceUnique(t: Table, investigation: int)
    requires UniqueIds(t) && UniqueHashes(t)
    ensures UniqueIds(OtherEvidence(t, investigation)) && UniqueHashes(OtherEvidence(t, investigation))
  {
    if t != [] {
      UniqueTail(t);
      OtherEvidenceUnique(t[1..], investigation);
      OtherEvidenceMeans(t[1..], investigation);
      UniqueCons(t[0], OtherEvidence(t[1..], investigation));
    }
  }

  lemma {:induction false} OtherFindingsMeans(t: seq<Finding>, investigation: int)
    ensures forall f :: f in OtherFindings(t, investigation) <==> f in t && f.investigation != investigation
  {
    if t != [] {
      OtherFindingsMeans(t[1..], investigation);
      assert t == [t[0]] + t[1..];
    }
  }

  lemma {:induction false} OtherHypothesesMeans(t: seq<HypothesisRow>, investigation: int)
    ensures forall h :: h in OtherHypotheses(t, investigation) <==> h in t && h.investigation != investigation
  {
    if t != [] {
      OtherHypothesesMeans(t[1..], investigation);
      assert t == [t[0]] + t[1..];
    }
  }

  /** Purging one investigation leaves every other one as it was, and leaves nothing of its own. */
  lemma {:induction false} DeleteKeeps(s: Store, investigation: int, otherRecords: nat, purge: bool)
    requires Consistent(s)
    ensures Consistent(DeleteFrom(s, investigation, otherRecords, purge))
    ensures var s' := DeleteFrom(s, investigation, otherRecords, purge);
            && (forall row: Evidence :: row.investigation != investigation ==>
                (row in s'.evidence <==> row in s.evidence))
            && (forall f: Finding :: f.investigation != investigation ==> (f in s'.findings <==> f in s.findings))
            && (forall h: HypothesisRow :: h.investigation != investigation ==>
                (h in s'.hypotheses <==> h in s.hypotheses))
    ensures var s' := DeleteFrom(s, investigation, otherRecords, purge);
            if HoldsRecords(s, investigation, otherRecords) && !purge then s' == s
            else && (forall row :: row in s'.evidence ==> row.investigation != investigation)
                 && (forall f :: f in s'.findings ==> f.investigation != investigation)
                 && (forall h :: h in s'.hypotheses ==> h.investigation != investigation)
  {
    OtherEvidenceMeans(s.evidence, investigation);
    OtherEvidenceUnique(s.evidence, investigation);
    OtherFindingsMeans(s.findings, investigation);
    OtherHypothesesMeans(s.hypotheses, investigation);
    var t' := OtherEvidence(s.evidence, investigation);
    forall f | f in s.findings && f.investigation != investigation
      ensures Grounded(t', f.investigation, f.claim)
    {
      HoldsElsewhere(s.evidence, t', investigation, f.investigation, f.claim.evidenceIds);
    }
    forall h | h in s.hypotheses && h.investigation != investigation
      ensures GroundedHypothesis(t', h.investigation, h.claim)
    {
      HoldsElsewhere(s.evidence, t', investigation, h.investigation, h.claim.supporting + h.claim.contradicting);
    }
  }

  lemma {:induction false} HoldsElsewhere(t: Table, t': Table, purged: int, investigation: int, ids: seq<int>)
    requires investigation != purged && CitesExisting(t, investigation, ids)
    requires forall row :: row in t && row.investigation != purged ==> row in t'
    ensures CitesExisting(t', investigation, ids)
  {
    forall id | id in ids
      ensures Holds(t', investigation, id)
    {
      var row :| row in t && row.id == id && row.investigation == investigation;
      assert row in t';
    }
  }

  datatype Op =
    | AddEvidenceOp(investigation: int, quota: Option<int>, hashes: seq<Digest>, toolRun: Option<int>, now: int)
    | AddFindingOp(investigation: int, finding: FindingDraft)
    | AddHypothesisOp(investigation: int, hypothesis: HypothesisDraft)
    | DeleteOp(investigation: int, otherRecords: nat, purge: bool)

  function Step(s: Store, op: Op): Store {
    match op
    case AddEvidenceOp(i, quota, hashes, toolRun, now) => AddEvidenceTo(s, i, quota, hashes, toolRun, now)
    case AddFindingOp(i, claim) => AddFindingTo(s, i, claim)
    case AddHypothesisOp(i, claim) => AddHypothesisTo(s, i, claim)
    case DeleteOp(i, otherRecords, purge) => DeleteFrom(s, i, otherRecords, purge)
  }

  function Run(s: Store, ops: seq<Op>): Store {
    if ops == [] then s else Step(Run(s, ops[..|ops| - 1]), ops[|ops| - 1])
  }

  /** In every reachable state each stored claim is grounded in the evidence stored at that moment. */
  lemma {:induction false} EveryRunIsConsistent(ops: seq<Op>)
    ensures Consistent(Run(Store([], [], [], 0), ops))
  {
    if ops != [] {
      var s := Run(Store([], [], [], 0), ops[..|ops| - 1]);
      EveryRunIsConsistent(ops[..|ops| - 1]);
      match ops[|ops| - 1]
      case AddEvidenceOp(i, quota, hashes, toolRun, now) => AddEvidenceKeeps(s, i, quota, hashes, toolRun, now);
      case AddFindingOp(i, claim) => FindingCheckIsExact(s.evidence, i, claim);
      case AddHypothesisOp(i, claim) => HypothesisCheckIsExact(s.evidence, i, claim);
      case DeleteOp(i, otherRecords, purge) => DeleteKeeps(s, i, otherRecords, purge);
    }
  }

  /** Adding the same batch again creates nothing, even when the first time some of it was dropped. */
  lemma {:induction false} ReplayCreatesNothing(s: Store, investigation: int, quota: Option<int>, hashes: seq<Digest>,
                                                toolRun: Option<int>, now: int)
    ensures Kept(AddEvidenceTo(s, investigation, quota, hashes, toolRun, now).evidence, investigation, quota, hashes)
         == []
  {
    var existing := Hashes(s.evidence, investigation);
    var kept := Kept(s.evidence, investigation, quota, hashes);
    var rows := RowsOf(kept, s.nextId, investigation, now, toolRun);
    var t' := s.evidence + rows;
    QuotaRespected(s, investigation, quota, hashes, toolRun, now);
    FirstsSelect(hashes, existing);
    FirstsSelect(hashes, Hashes(t', investigation));
    HashesAppend(s.evidence, kept, s.nextId, investigation, now, toolRun);
    var again := Firsts(hashes, Hashes(t', investigation));
    if |kept| == |Firsts(hashes, existing)| {
      FirstIsMember(again);
    }
  }

  lemma {:induction false} HashesAppend(t: Table, kept: seq<Digest>, firstId: int, investigation: int, now: int,
                                        toolRun: Option<int>)
    ensures Hashes(t + RowsOf(kept, firstId, investigation, now, toolRun), investigation)
         == Hashes(t, investigation) + (set h | h in kept)
  {
    var rows := RowsOf(kept, firstId, investigation, now, toolRun);
    forall h | h in kept
      ensures h in Hashes(t + rows, investigation)
    {
      var i :| 0 <= i < |kept| && kept[i] == h;
      assert rows[i] in t + rows && rows[i].contentHash == h;
    }
    forall h | h in Hashes(t, investigation)
      ensures h in Hashes(t + rows, investigation)
    {
      var row :| row in t && row.investigation == investigation && row.contentHash == h;
      assert row in t + rows;
    }
    forall h | h in Hashes(t + rows, investigation)
      ensures h in Hashes(t, investigation) || h in kept
    {
      var row :| row in t + rows && row.investigation == investigation && row.contentHash == h;
    }
  }

  // ---------------------------------------------------------------------------------------------
  // Why a claim is refused, and when deleting needs the flag
  // ---------------------------------------------------------------------------------------------

  /** The ids are the cited ones that are not stored, each as often as it is cited. */
  ghost predicate AreMissing(t: Table, investigation: int, cited: seq<int>, ids: seq<int>) {
    ids != [] && forall id :: multiset(ids)[id] == if Holds(t, investigation, id) then 0 else multiset(cited)[id]
  }

  /** What is wrong with a finding: missing evidence first, and then what its class asks for. */
  ghost predicate IsViolation(t: Table, investigation: int, claim: FindingDraft, e: GroundingError) {
    if e.MissingEvidence? then AreMissing(t, investigation, claim.evidenceIds, e.ids)
    else
      && CitesExisting(t, investigation, claim.evidenceIds)
      && match claim.assertionClass
         case Fact => e.UngroundedFact? && !CitesToolOutput(t, investigation, claim.evidenceIds)
         case Inference =>
           if claim.evidenceIds == [] then e.InferenceWithoutEvidence?
           else e.InferenceWithoutReasoning? && Blank(OrEmpty(claim.reasoning))
         case Hypothesis => e.HypothesisWithoutTest? && Blank(OrEmpty(claim.reasoning))
         case Unknown => e.UnknownWithSeverity? && claim.severity != Info
  }

  ghost predicate IsHypothesisViolation(t: Table, investigation: int, claim: HypothesisDraft, e: GroundingError) {
    if Blank(claim.refutation) then e.HypothesisWithoutTest?
    else e.MissingEvidence? && AreMissing(t, investigation, claim.supporting + claim.contradicting, e.ids)
  }

  lemma {:induction false} MissingCount(ids: seq<int>, found: set<int>, id: int)
    ensures multiset(Missing(ids, found))[id] == if id in found then 0 else multiset(ids)[id]
  {
    if ids != [] {
      MissingCount(ids[1..], found, id);
      assert ids == [ids[0]] + ids[1..];
    }
  }

  lemma {:induction false} LoadFailsWith(t: Table, investigation: int, ids: seq<int>)
    ensures var r := LoadCitedEvidence(t, investigation, ids);
            r.Err? ==> r.error.MissingEvidence? && AreMissing(t, investigation, ids, r.error.ids)
  {
    var rows := SelectCited(t, investigation, ids);
    SelectCitedMeans(t, investigation, ids);
    forall id
      ensures multiset(Missing(ids, IdsOf(rows)))[id]
           == if Holds(t, investigation, id) then 0 else multiset(ids)[id]
    {
      MissingCount(ids, IdsOf(rows), id);
      if id in ids && Holds(t, investigation, id) {
        var row :| row in t && row.id == id && row.investigation == investigation;
        assert row in rows;
      }
    }
  }

  /** The reason given for refusing a finding is what is wrong with it. */
  lemma {:induction false} ViolationIsNamed(t: Table, investigation: int, claim: FindingDraft)
    ensures var e := CheckFinding(t, investigation, claim);
            e.Some? ==> IsViolation(t, investigation, claim, e.value)
  {
    LoadFailsWith(t, investigation, claim.evidenceIds);
    LoadCitedMeans(t, investigation, claim.evidenceIds);
    var loaded := LoadCitedEvidence(t, investigation, claim.evidenceIds);
    if loaded.Ok? && claim.evidenceIds != [] {
      assert Holds(t, investigation, claim.evidenceIds[0]);
      var row :| row in t && row.id == claim.evidenceIds[0] && row.investigation == investigation;
      assert row in loaded.value;
    } else if loaded.Ok? {
      FirstIsMember(loaded.value);
    }
  }

  lemma {:induction false} HypothesisViolationIsNamed(t: Table, investigation: int, claim: HypothesisDraft)
    ensures var e := CheckHypothesis(t, investigation, claim);
            e.Some? ==> IsHypothesisViolation(t, investigation, claim, e.value)
  {
    LoadFailsWith(t, investigation, claim.supporting + claim.contradicting);
  }

  /** Deleting needs the flag exactly while evidence, findings or other append-only records are there. */
  lemma {:induction false} HoldsRecordsMeans(s: Store, investigation: int, otherRecords: nat)
    ensures HoldsRecords(s, investigation, otherRecords) <==>
            || (exists row :: row in s.evidence && row.investigation == investigation)
            || (exists f :: f in s.findings && f.investigation == investigation)
            || otherRecords > 0
  {
    CountIsPlaces(s.evidence, investigation);
    var places := PlacesOf(s.evidence, investigation);
    if row :| row in s.evidence && row.investigation == investigation {
      var i :| 0 <= i < |s.evidence| && s.evidence[i] == row;
      assert i in places;
    }
    if places != {} {
      var i :| i in places;
      assert s.evidence[i] in s.evidence;
    }
    OtherFindingsCount(s.findings, investigation);
  }

  lemma {:induction false} OtherFindingsCount(t: seq<Finding>, investigation: int)
    ensures |OtherFindings(t, investigation)| <= |t|
    ensures |OtherFindings(t, investigation)| < |t| <==> exists f :: f in t && f.investigation == investigation
  {
    if t != [] {
      OtherFindingsCount(t[1..], investigation);
      assert t == [t[0]] + t[1..];
    }
  }

  // ---------------------------------------------------------------------------------------------
  // What a batch leaves behind, draft by draft
  // ---------------------------------------------------------------------------------------------

  /** How often the draft mentions an entity in this normal form. */
  ghost function TimesMentioned(canon: Canon, entities: seq<EntityRef>, m: Mention): nat {
    if entities == [] then 0
    else
      var e := entities[|entities| - 1];
      TimesMentioned(canon, entities[..|entities| - 1], m)
      + if && e.kind == m.kind && canon(e.kind, e.value) == m.value
           && (e.role == Some(m.role) || (e.role == None && m.role == "")) then 1 else 0
  }

  /** The drafts agree in all that makes up their content; the order of entities plays no part. */
  ghost predicate SameContent(canon: Canon, a: EvidenceDraft, b: EvidenceDraft) {
    && a.kind == b.kind && a.observedAt == b.observedAt && a.data == b.data
    && forall m :: TimesMentioned(canon, a.entities, m) == TimesMentioned(canon, b.entities, m)
  }

  /** The content recorded with a row is that of the draft, as this tool observed it. */
  ghost predicate IsContent(canon: Canon, content: Digest, draft: EvidenceDraft, sourceTool: string) {
    && content.kind == draft.kind && content.sourceTool == sourceTool
    && content.observedAt == draft.observedAt && content.data == draft.data
    && forall m :: content.entities[m] == TimesMentioned(canon, draft.entities, m)
  }

  lemma {:induction false} MentionsCount(canon: Canon, entities: seq<EntityRef>, m: Mention)
    ensures multiset(Normalized(canon, entities))[m] == TimesMentioned(canon, entities, m)
  {
    if entities != [] {
      var front, e := entities[..|entities| - 1], entities[|entities| - 1];
      MentionsCount(canon, front, m);
      var last := Mention(e.kind, canon(e.kind, e.value), OrEmpty(e.role));
      assert Normalized(canon, entities) == Normalized(canon, front) + [last];
    }
  }

  lemma {:induction false} HashIsContent(canon: Canon, h: Digest, draft: EvidenceDraft, sourceTool: string)
    ensures h == ContentHash(canon, draft, sourceTool) <==> IsContent(canon, h, draft, sourceTool)
  {
    var normal := multiset(Normalized(canon, draft.entities));
    forall m
      ensures normal[m] == TimesMentioned(canon, draft.entities, m)
    {
      MentionsCount(canon, draft.entities, m);
    }
    assert h.entities == normal <==> forall m :: h.entities[m] == normal[m];
  }

  /** Two drafts have the same content hash exactly if the tool and all of the content are the same. */
  lemma {:induction false} SameHashExactly(canon: Canon, a: EvidenceDraft, toolA: string, b: EvidenceDraft,
                                           toolB: string)
    ensures ContentHash(canon, a, toolA) == ContentHash(canon, b, toolB) <==> SameContent(canon, a, b) && toolA == toolB
  {
    HashIsContent(canon, ContentHash(canon, a, toolA), a, toolA);
    HashIsContent(canon, ContentHash(canon, a, toolA), b, toolB);
  }

  /** No stored row of the investigation has the draft's content, and no earlier draft of the batch. */
  ghost predicate IsNew(canon: Canon, t: Table, investigation: int, drafts: seq<EvidenceDraft>, sourceTool: string,
                        k: nat) {
    && k < |drafts|
    && (forall row :: row in t && row.investigation == investigation ==>
          !IsContent(canon, row.contentHash, drafts[k], sourceTool))
    && forall j :: 0 <= j < k ==> !SameContent(canon, drafts[j], drafts[k])
  }

  /** The row of one draft. */
  ghost predicate IsRowFor(canon: Canon, row: Evidence, draft: EvidenceDraft, sourceTool: string, id: int,
                           investigation: int, now: int, toolRun: Option<int>) {
    && row == Evidence(id, investigation, draft.kind, draft.observedAt, now, row.contentHash, toolRun)
    && IsContent(canon, row.contentHash, draft, sourceTool)
  }

  ghost function PlacesOf(t: Table, investigation: int): set<nat> {
    set i: nat | i < |t| && t[i].investigation == investigation
  }

  /** The new drafts at these places get the rows; any other new draft comes later, when the quota is used up. */
  ghost predicate AddedAt(canon: Canon, t: Table, investigation: int, quota: Option<int>, drafts: seq<EvidenceDraft>,
                          sourceTool: string, toolRun: Option<int>, now: int, firstId: int, created: Table,
                          ks: seq<nat>) {
    && |ks| == |created| && (forall m, n :: 0 <= m < n < |ks| ==> ks[m] < ks[n])
    && (forall n :: 0 <= n < |ks| ==>
          && IsNew(canon, t, investigation, drafts, sourceTool, ks[n])
          && IsRowFor(canon, created[n], drafts[ks[n]], sourceTool, firstId + n, investigation, now, toolRun))
    && (quota.Some? && ks != [] ==> |PlacesOf(t, investigation)| + |ks| <= quota.value)
    && forall k :: IsNew(canon, t, investigation, drafts, sourceTool, k) && k !in ks ==>
         && quota.Some? && |PlacesOf(t, investigation)| + |ks| >= quota.value
         && forall n :: 0 <= n < |ks| ==> ks[n] < k
  }

  ghost predicate IsAdded(canon: Canon, t: Table, investigation: int, quota: Option<int>, drafts: seq<EvidenceDraft>,
                          sourceTool: string, toolRun: Option<int>, now: int, firstId: int, created: Table) {
    exists ks :: AddedAt(canon, t, investigation, quota, drafts, sourceTool, toolRun, now, firstId, created, ks)
  }

  /** The drafts whose content no row has in the end. */
  ghost function Lost(canon: Canon, t: Table, investigation: int, drafts: seq<EvidenceDraft>, sourceTool: string,
                      created: Table): set<nat> {
    set k: nat | k < |drafts| && IsLost(canon, t, investigation, drafts[k], sourceTool, created)
  }

  ghost predicate IsLost(canon: Canon, t: Table, investigation: int, draft: EvidenceDraft, sourceTool: string,
                         created: Table) {
    forall row :: (row in t && row.investigation == investigation) || row in created ==>
                    !IsContent(canon, row.contentHash, draft, sourceTool)
  }

  lemma {:induction false} NewIsFirst(canon: Canon, t: Table, investigation: int, drafts: seq<EvidenceDraft>,
                                      sourceTool: string, k: nat)
    ensures IsNew(canon, t, investigation, drafts, sourceTool, k)
            <==> IsFirstPlace(DraftHashes(canon, drafts, sourceTool), Hashes(t, investigation), k)
  {
    var hashes, existing := DraftHashes(canon, drafts, sourceTool), Hashes(t, investigation);
    if k < |drafts| {
      HashIsStored(canon, t, investigation, drafts[k], sourceTool);
      forall j | 0 <= j < k
        ensures hashes[j] == hashes[k] <==> SameContent(canon, drafts[j], drafts[k])
      {
        SameHashExactly(canon, drafts[j], sourceTool, drafts[k], sourceTool);
      }
      assert forall j :: 0 <= j < k ==> hashes[..k][j] == hashes[j];
    }
  }

  lemma {:induction false} HashIsStored(canon: Canon, t: Table, investigation: int, draft: EvidenceDraft,
                                        sourceTool: string)
    ensures ContentHash(canon, draft, sourceTool) in Hashes(t, investigation) <==>
            exists row :: row in t && row.investigation == investigation
                          && IsContent(canon, row.contentHash, draft, sourceTool)
  {
    forall row | row in t
      ensures row.contentHash == ContentHash(canon, draft, sourceTool)
              <==> IsContent(canon, row.contentHash, draft, sourceTool)
    {
      HashIsContent(canon, row.contentHash, draft, sourceTool);
    }
  }

  lemma {:induction false} CountSnoc(t: Table, row: Evidence, investigation: int)
    ensures CountFor(t + [row], investigation)
         == CountFor(t, investigation) + if row.investigation == investigation then 1 else 0
  {
    if t == [] {
      assert t + [row] == [row];
    } else {
      assert (t + [row])[1..] == t[1..] + [row];
      CountSnoc(t[1..], row, investigation);
    }
  }

  lemma {:induction false} CountIsPlaces(t: Table, investigation: int)
    ensures CountFor(t, investigation) == |PlacesOf(t, investigation)|
  {
    if t != [] {
      var front, last := t[..|t| - 1], t[|t| - 1];
      CountIsPlaces(front, investigation);
      CountSnoc(front, last, investigation);
      assert t == front + [last];
      PlacesSnoc(front, last, investigation);
    }
  }

  lemma {:induction false} PlacesSnoc(t: Table, row: Evidence, investigation: int)
    ensures |PlacesOf(t + [row], investigation)|
         == |PlacesOf(t, investigation)| + if row.investigation == investigation then 1 else 0
  {
    var places := PlacesOf(t, investigation);
    assert |t| !in places;
    assert PlacesOf(t + [row], investigation)
        == if row.investigation == investigation then places + {|t|} else places;
  }

  lemma {:induction false} NewPlaces(canon: Canon, t: Table, investigation: int, drafts: seq<EvidenceDraft>,
                                     sourceTool: string) returns (ks: seq<nat>)
    ensures AreFirstPlaces(DraftHashes(canon, drafts, sourceTool), Hashes(t, investigation), ks)
    ensures forall k :: IsNew(canon, t, investigation, drafts, sourceTool, k) <==> k in ks
  {
    var hashes, existing := DraftHashes(canon, drafts, sourceTool), Hashes(t, investigation);
    ks := FirstPlaces(hashes, existing);
    forall k: nat
      ensures IsNew(canon, t, investigation, drafts, sourceTool, k) <==> IsFirstPlace(hashes, existing, k)
    {
      NewIsFirst(canon, t, investigation, drafts, sourceTool, k);
    }
  }

  lemma {:induction false} RowsAreFor(canon: Canon, hashes: seq<Digest>, kept: seq<Digest>, drafts: seq<EvidenceDraft>,
                                      sourceTool: string, ks: seq<nat>, firstId: int, investigation: int, now: int,
                                      toolRun: Option<int>)
    requires hashes == DraftHashes(canon, drafts, sourceTool) && |ks| == |kept|
    requires forall n :: 0 <= n < |ks| ==> ks[n] < |hashes| && kept[n] == hashes[ks[n]]
    ensures forall n :: 0 <= n < |ks| ==>
              IsRowFor(canon, RowsOf(kept, firstId, investigation, now, toolRun)[n], drafts[ks[n]], sourceTool,
                       firstId + n, investigation, now, toolRun)
  {
    forall n | 0 <= n < |ks|
      ensures IsRowFor(canon, RowsOf(kept, firstId, investigation, now, toolRun)[n], drafts[ks[n]], sourceTool,
                       firstId + n, investigation, now, toolRun)
    {
      HashIsContent(canon, kept[n], drafts[ks[n]], sourceTool);
    }
  }

  /** The rows kept from a batch are those of the new drafts, in order and as far as the quota goes. */
  lemma {:induction false} BatchIsAdded(canon: Canon, t: Table, investigation: int, quota: Option<int>,
                                        drafts: seq<EvidenceDraft>, sourceTool: string, toolRun: Option<int>, now: int,
                                        firstId: int)
    ensures var kept := Kept(t, investigation, quota, DraftHashes(canon, drafts, sourceTool));
            IsAdded(canon, t, investigation, quota, drafts, sourceTool, toolRun, now, firstId,
                    RowsOf(kept, firstId, investigation, now, toolRun))
  {
    var hashes := DraftHashes(canon, drafts, sourceTool);
    var kept := Kept(t, investigation, quota, hashes);
    var all := NewPlaces(canon, t, investigation, drafts, sourceTool);
    var ks := all[..|kept|];
    CountIsPlaces(t, investigation);
    RowsAreFor(canon, hashes, kept, drafts, sourceTool, ks, firstId, investigation, now, toolRun);
    CutPlaces(all, |kept|);
    assert forall n :: 0 <= n < |ks| ==> ks[n] in all;
    assert AddedAt(canon, t, investigation, quota, drafts, sourceTool, toolRun, now, firstId,
                   RowsOf(kept, firstId, investigation, now, toolRun), ks);
  }

  lemma {:induction false} CutPlaces(all: seq<nat>, n: nat)
    requires n <= |all| && forall i, j :: 0 <= i < j < |all| ==> all[i] < all[j]
    ensures forall k :: k in all && k !in all[..n] ==> n < |all| && forall i :: 0 <= i < n ==> all[i] < k
  {
  }

  lemma {:induction false} DroppedPlaces(hashes: seq<Digest>, existing: set<Digest>, kept: seq<Digest>)
    ensures Dropped(hashes, existing, kept)
         == |set k: nat | k < |hashes| && hashes[k] !in existing && hashes[k] !in kept|
  {
    var places := set k: nat | k < |hashes| && hashes[k] !in existing && hashes[k] !in kept;
    if hashes != [] {
      var front, last := hashes[..|hashes| - 1], hashes[|hashes| - 1];
      DroppedPlaces(front, existing, kept);
      var before := set k: nat | k < |front| && front[k] !in existing && front[k] !in kept;
      assert places == before + (if last in existing || last in kept then {} else {|front|});
    }
  }

  /** The dropped count is that of the drafts whose content no row has in the end. */
  lemma {:induction false} DroppedAreLost(canon: Canon, t: Table, investigation: int, quota: Option<int>,
                                          drafts: seq<EvidenceDraft>, sourceTool: string, toolRun: Option<int>,
                                          now: int, firstId: int)
    ensures var hashes := DraftHashes(canon, drafts, sourceTool);
            var kept := Kept(t, investigation, quota, hashes);
            Dropped(hashes, Hashes(t, investigation), kept)
            == |Lost(canon, t, investigation, drafts, sourceTool, RowsOf(kept, firstId, investigation, now, toolRun))|
  {
    var hashes, existing := DraftHashes(canon, drafts, sourceTool), Hashes(t, investigation);
    var kept := Kept(t, investigation, quota, hashes);
    var created := RowsOf(kept, firstId, investigation, now, toolRun);
    DroppedPlaces(hashes, existing, kept);
    forall k: nat | k < |drafts|
      ensures hashes[k] !in existing && hashes[k] !in kept
              <==> IsLost(canon, t, investigation, drafts[k], sourceTool, created)
    {
      HashIsStored(canon, t, investigation, drafts[k], sourceTool);
      HashIsKept(canon, kept, firstId, investigation, now, toolRun, drafts[k], sourceTool);
    }
    assert Lost(canon, t, investigation, drafts, sourceTool, created)
        == set k: nat | k < |hashes| && hashes[k] !in existing && hashes[k] !in kept;
  }

  lemma {:induction false} HashIsKept(canon: Canon, kept: seq<Digest>, firstId: int, investigation: int, now: int,
                                      toolRun: Option<int>, draft: EvidenceDraft, sourceTool: string)
    ensures ContentHash(canon, draft, sourceTool) in kept <==>
            exists row :: row in RowsOf(kept, firstId, investigation, now, toolRun)
                          && IsContent(canon, row.contentHash, draft, sourceTool)
  {
    var created, h := RowsOf(kept, firstId, investigation, now, toolRun), ContentHash(canon, draft, sourceTool);
    forall n | 0 <= n < |kept|
      ensures kept[n] == h <==> IsContent(canon, created[n].contentHash, draft, sourceTool)
    {
      HashIsContent(canon, kept[n], draft, sourceTool);
    }
    assert forall n :: 0 <= n < |created| ==> created[n] in created;
  }

  /** What became of a batch: the rows it got, which are all that is new, and how many drafts have none. */
  ghost predicate IsAccounted(canon: Canon, s: Store, after: Store, investigation: int, quota: Option<int>,
                              drafts: seq<EvidenceDraft>, sourceTool: string, toolRun: Option<int>, now: int,
                              created: Table, dropped: int) {
    && IsAdded(canon, s.evidence, investigation, quota, drafts, sourceTool, toolRun, now, s.nextId, created)
    && dropped == |Lost(canon, s.evidence, investigation, drafts, sourceTool, created)|
    && after == s.(evidence := s.evidence + created, nextId := s.nextId + |created|)
  }

  lemma {:induction false} BatchIsAccounted(canon: Canon, s: Store, investigation: int, quota: Option<int>,
                                            drafts: seq<EvidenceDraft>, sourceTool: string, toolRun: Option<int>,
                                            now: int)
    ensures var hashes := DraftHashes(canon, drafts, sourceTool);
            var kept := Kept(s.evidence, investigation, quota, hashes);
            IsAccounted(canon, s, AddEvidenceTo(s, investigation, quota, hashes, toolRun, now), investigation, quota,
                        drafts, sourceTool, toolRun, now, RowsOf(kept, s.nextId, investigation, now, toolRun),
                        Dropped(hashes, Hashes(s.evidence, investigation), kept))
  {
    BatchIsAdded(canon, s.evidence, investigation, quota, drafts, sourceTool, toolRun, now, s.nextId);
    DroppedAreLost(canon, s.evidence, investigation, quota, drafts, sourceTool, toolRun, now, s.nextId);
  }

  // ---------------------------------------------------------------------------------------------
  // The tables and the store object
  // ---------------------------------------------------------------------------------------------

  class Database {
    var evidence: Table
    var findings: seq<Finding>
    var hypotheses: seq<HypothesisRow>
    var nextId: int

    constructor ()
      ensures Contents() == Store([], [], [], 0)
    {
      evidence, findings, hypotheses, nextId := [], [], [], 0;
    }

    function Contents(): Store
      reads this
    {
      Store(evidence, findings, hypotheses, nextId)
    }

    /** `delete_investigation`; refusing is the only outcome that changes nothing. */
    method DeleteInvestigation(investigation: int, otherRecords: nat, purge: bool) returns (deleted: bool)
      modifies this
      ensures deleted <==> purge || !HoldsRecords(old(Contents()), investigation, otherRecords)
      ensures deleted <==>
              || purge
              || (&& (forall row :: row in old(evidence) ==> row.investigation != investigation)
                  && (forall f :: f in old(findings) ==> f.investigation != investigation)
                  && otherRecords == 0)
      ensures Contents() == DeleteFrom(old(Contents()), investigation, otherRecords, purge)
    {
      HoldsRecordsMeans(Contents(), investigation, otherRecords);
      if HoldsRecords(Contents(), investigation, otherRecords) && !purge {
        return false;
      }
      evidence := OtherEvidence(evidence, investigation);
      findings := OtherFindings(findings, investigation);
      hypotheses := OtherHypotheses(hypotheses, investigation);
      return true;
    }
  }

  /** The loop over a batch: new contents become rows while there is headroom, and are counted as dropped afterwards. */
  method KeepNew(hashes: seq<Digest>, existing: set<Digest>, headroom: Option<nat>, firstId: int, investigation: int,
                 now: int, toolRun: Option<int>) returns (created: Table, dropped: int)
    ensures var kept := Cut(Firsts(hashes, existing), headroom);
            created == RowsOf(kept, firstId, investigation, now, toolRun) && dropped == Dropped(hashes, existing, kept)
  {
    created, dropped := [], 0;
    var seenInBatch: set<Digest> := {};
    ghost var kept: seq<Digest> := [];
    for i := 0 to |hashes|
      invariant Batch(hashes[..i], existing, headroom, kept, dropped)
      invariant created == RowsOf(kept, firstId, investigation, now, toolRun)
      invariant forall h :: h in seenInBatch <==> h in kept
    {
      var contentHash := hashes[i];
      assert hashes[..i + 1] == hashes[..i] + [contentHash];
      BatchStep(hashes[..i], existing, headroom, kept, dropped, contentHash);
      if contentHash in existing || contentHash in seenInBatch {
        continue;
      }
      if headroom.Some? && |created| >= headroom.value {
        dropped := dropped + 1;
        continue;
      }
      seenInBatch := seenInBatch + {contentHash};
      RowsOfSnoc(kept, contentHash, firstId, investigation, now, toolRun);
      created := created + [RowOf(contentHash, firstId + |created|, investigation, now, toolRun)];
      kept := kept + [contentHash];
    }
    assert hashes[..|hashes|] == hashes;
  }

  /** Writes evidence and claims for one investigation. */
  class EvidenceStore {
    const db: Database
    const investigation: int
    const maxEvidence: Option<int>
    const canon: Canon
    var lastQuotaDropped: int

    constructor (db: Database, investigation: int, maxEvidence: Option<int>, canon: Canon)
      ensures this.db == db && this.investigation == investigation && this.maxEvidence == maxEvidence
      ensures this.canon == canon && lastQuotaDropped == 0
    {
      this.db, this.investigation, this.maxEvidence, this.canon := db, investigation, maxEvidence, canon;
      lastQuotaDropped := 0;
    }

    method AddEvidence(drafts: seq<EvidenceDraft>, sourceTool: string, toolRun: Option<int>, now: int)
      returns (created: Table)
      modifies db, this`lastQuotaDropped
      ensures var hashes := DraftHashes(canon, drafts, sourceTool);
              var kept := Kept(old(db.evidence), investigation, maxEvidence, hashes);
              && db.Contents() == AddEvidenceTo(old(db.Contents()), investigation, maxEvidence, hashes, toolRun, now)
              && created == RowsOf(kept, old(db.nextId), investigation, now, toolRun)
              && (drafts != [] ==> lastQuotaDropped == Dropped(hashes, Hashes(old(db.evidence), investigation), kept))
      // Draft by draft: which get a row, what it says, and how many have none.
      ensures drafts != [] ==>
                IsAccounted(canon, old(db.Contents()), db.Contents(), investigation, maxEvidence, drafts, sourceTool,
                            toolRun, now, created, lastQuotaDropped)
      ensures drafts == [] ==> created == [] && db.Contents() == old(db.Contents())
      // An empty batch returns early and leaves the count of the previous one in place.
      ensures drafts == [] ==> lastQuotaDropped == old(lastQuotaDropped)
    {
      if drafts == [] {
        assert DraftHashes(canon, drafts, sourceTool) == [];
        return [];
      }
      BatchIsAccounted(canon, db.Contents(), investigation, maxEvidence, drafts, sourceTool, toolRun, now);
      var headroom := Headroom(maxEvidence, CountFor(db.evidence, investigation));
      created, lastQuotaDropped := KeepNew(DraftHashes(canon, drafts, sourceTool), Hashes(db.evidence, investigation),
                                           headroom, db.nextId, investigation, now, toolRun);
      // The rows reach the table when the session is flushed.
      db.evidence := db.evidence + created;
      db.nextId := db.nextId + |created|;
    }

    method AddFinding(claim: FindingDraft) returns (r: Result<Finding, GroundingError>)
      modifies db
      ensures r.Ok? <==> Grounded(old(db.evidence), investigation, claim)
      ensures r.Ok? ==>
                && r.value == Finding(old(db.nextId), investigation, claim)
                && db.Contents() == old(db.Contents()).(findings := old(db.findings) + [r.value],
                                                        nextId := old(db.nextId) + 1)
      ensures r.Err? ==>
                IsViolation(old(db.evidence), investigation, claim, r.error) && db.Contents() == old(db.Contents())
      ensures db.Contents() == AddFindingTo(old(db.Contents()), investigation, claim)
    {
      ViolationIsNamed(db.evidence, investigation, claim);
      FindingCheckIsExact(db.evidence, investigation, claim);
      var loaded := LoadCitedEvidence(db.evidence, investigation, claim.evidenceIds);
      if loaded.Err? {
        return Err(loaded.error);
      }
      var violation := EnforceGrounding(claim, loaded.value);
      if violation.Some? {
        return Err(violation.value);
      }
      var row := Finding(db.nextId, investigation, claim);
      db.findings := db.findings + [row];
      db.nextId := db.nextId + 1;
      return Ok(row);
    }

    method AddHypothesis(claim: HypothesisDraft) returns (r: Result<HypothesisRow, GroundingError>)
      modifies db
      ensures r.Ok? <==> GroundedHypothesis(old(db.evidence), investigation, claim)
      ensures r.Ok? ==>
                && r.value == HypothesisRow(old(db.nextId), investigation, claim)
                && db.Contents() == old(db.Contents()).(hypotheses := old(db.hypotheses) + [r.value],
                                                        nextId := old(db.nextId) + 1)
      ensures r.Err? ==>
                && IsHypothesisViolation(old(db.evidence), investigation, claim, r.error)
                && db.Contents() == old(db.Contents())
      ensures db.Contents() == AddHypothesisTo(old(db.Contents()), investigation, claim)
    {
      HypothesisViolationIsNamed(db.evidence, investigation, claim);
      HypothesisCheckIsExact(db.evidence, investigation, claim);
      if Blank(claim.refutation) {
        return Err(HypothesisWithoutTest);
      }
      var cited := claim.supporting + claim.contradicting;
      if cited != [] {
        var loaded := LoadCitedEvidence(db.evidence, investigation, cited);
        if loaded.Err? {
          return Err(loaded.error);
        }
      }
      var row := HypothesisRow(db.nextId, investigation, claim);
      db.hypotheses := db.hypotheses + [row];
      db.nextId := db.nextId + 1;
      return Ok(row);
    }

    /** Every matching row up to `cap`, and whether the cap cut the read short. */
    method AllEvidence(cap: int, kinds: Option<set<string>>) returns (collected: seq<Evidence>, truncated: bool)
      requires UniqueIds(db.evidence)
      ensures var all := Timeline(db.evidence, investigation, kinds, None);
              && collected == all[..Min(Max(cap, 0), |all|)]
              && (truncated <==> |all| > cap || cap <= 0)
    {
      collected := [];
      var cursor: Option<Cursor> := None;
      ghost var table, all := db.evidence, Timeline(db.evidence, investigation, kinds, None);
      while true
        invariant |collected| <= |all| && collected == all[..|collected|]
        invariant |collected| <= Max(cap, 0)
        invariant cursor == CursorAt(all, |collected|)
        invariant cursor.Some? ==> |collected| < |all|
        decreases cap - |collected|
      {
        var remaining := cap - |collected|;
        if remaining <= 0 {
          return collected, true;
        }
        PageAt(table, investigation, Min(MAX_EVIDENCE_PAGE, remaining), kinds, |collected|);
        var page := ListEvidence(db.evidence, investigation, Min(MAX_EVIDENCE_PAGE, remaining), cursor, kinds).value;
        collected := collected + page.rows;
        if page.nextCursor.None? {
          return collected, false;
        }
        cursor := page.nextCursor;
      }
    }
  }

  /** The cursor a read holds after the first `k` rows of a timeline. */
  ghost function CursorAt(all: seq<Evidence>, k: nat): Option<Cursor>
    requires k <= |all|
  {
    if k == 0 then None else Some(CursorOf(all[k - 1]))
  }

  lemma {:induction false} RowsOfSnoc(kept: seq<Digest>, h: Digest, firstId: int, investigation: int, now: int,
                                      toolRun: Option<int>)
    ensures RowsOf(kept + [h], firstId, investigation, now, toolRun)
         == RowsOf(kept, firstId, investigation, now, toolRun)
             + [RowOf(h, firstId + |kept|, investigation, now, toolRun)]
  {
  }

  lemma {:induction false} RestAt(t: Table, investigation: int, kinds: Option<set<string>>, k: nat)
    requires UniqueIds(t) && k <= |Timeline(t, investigation, kinds, None)|
    ensures var all := Timeline(t, investigation, kinds, None);
            WellFormed(CursorAt(all, k)) && Timeline(t, investigation, kinds, CursorAt(all, k)) == all[k..]
  {
    if k > 0 {
      TimelineAfter(t, investigation, kinds, None, k);
    }
  }

  /** The page read after the first `k` rows of a fixed timeline. */
  lemma {:induction false} PageAt(t: Table, investigation: int, limit: int, kinds: Option<set<string>>, k: nat)
    requires UniqueIds(t) && k <= |Timeline(t, investigation, kinds, None)|
    ensures var all := Timeline(t, investigation, kinds, None);
            var end := Min(|all|, k + PageSize(limit));
            && WellFormed(CursorAt(all, k))
            && ListEvidence(t, investigation, limit, CursorAt(all, k), kinds)
               == Ok(Page(all[k..end], if end < |all| then CursorAt(all, end) else None))
            && all[..k] + all[k..end] == all[..end]
  {
    var all := Timeline(t, investigation, kinds, None);
    RestAt(t, investigation, kinds, k);
    PageIsPrefix(t, investigation, limit, CursorAt(all, k), kinds);
    var end := Min(|all|, k + PageSize(limit));
    assert all[k..][..end - k] == all[k..end];
  }

  /** The loop of `add_evidence` after some drafts: what is kept, and how many were dropped. */
  ghost predicate Batch(hashes: seq<Digest>, existing: set<Digest>, headroom: Option<nat>, kept: seq<Digest>,
                        dropped: int) {
    && kept == Cut(Firsts(hashes, existing), headroom)
    && dropped == Dropped(hashes, existing, kept)
  }

  lemma {:induction false} BatchStep(hashes: seq<Digest>, existing: set<Digest>, headroom: Option<nat>,
                                     kept: seq<Digest>, dropped: int, h: Digest)
    requires Batch(hashes, existing, headroom, kept, dropped)
    ensures h in existing || h in kept ==> Batch(hashes + [h], existing, headroom, kept, dropped)
    ensures h !in existing && h !in kept && headroom.Some? && |kept| >= headroom.value ==>
              Batch(hashes + [h], existing, headroom, kept, dropped + 1)
    ensures h !in existing && h !in kept && (headroom.Some? ==> |kept| < headroom.value) ==>
              Batch(hashes + [h], existing, headroom, kept + [h], dropped)
  {
    var firsts := Firsts(hashes, existing);
    assert (hashes + [h])[..|hashes|] == hashes;
    FirstsSelect(hashes, existing);
    if h !in existing && h !in kept && (headroom.Some? ==> |kept| < headroom.value) {
      assert kept == firsts;
      DroppedNone(hashes, existing, kept);
      DroppedNone(hashes, existing, kept + [h]);
      DroppedNone(hashes + [h], existing, kept + [h]);
    }
  }
}
