/**
 Entity resolution and edge construction of the correlation agent (src/acip/agents/correlation.py): which entities an
 evidence row names, how observations are merged into the entity table, and which edges a row backs.
 */
module Correlation {
  import opened Prelude

  datatype EntityType =
    | User | Host | Ip | Domain | Url | File | Hash | Process | Port | Email | Technique | Malware | ThreatActor
    | Alert | RegistryKey

  datatype EvidenceKind =
    | AuthEvent | PrivilegeEvent | SessionEvent | Ioc | WebRequest | WebAttack | NetworkFlow | DnsQuery
    | ThreatIntel | MitreTechnique

  /** A typed mention of an entity, as recorded. */
  datatype Ref = Ref(kind: EntityType, value: string)

  /** An entity: its type and its normalised value. */
  datatype Key = Key(kind: EntityType, value: string)

  /** The fields of an evidence row the agent looks at; an absent field is empty. */
  datatype Data = Data(
    host: string, targetHost: string, user: string, targetUser: string,
    sourceIp: string, clientIp: string, srcIp: string, dstIp: string, sourcePort: string, dstPort: string,
    query: string, answers: seq<string>, path: string, outcome: string,
    indicator: string, indicatorType: Option<string>, entityType: string, source: string, isMalicious: bool,
    tags: seq<string>)

  datatype Row = Row(id: int, kind: EvidenceKind, observedAt: Option<int>, refs: seq<Ref>, data: Data)

  datatype Relation =
    | FailedAuthTo | AuthenticatedTo | ConnectedFrom | AssociatedWith | ConnectedToPort | Contacted | ListensOn
    | ResolvesTo | FlaggedBy | EvaluatedBy

  datatype Link = Link(src: Key, dst: Key, relation: Relation)

  /** A stored edge; its evidence is the row that backs it. */
  datatype Edge = Edge(link: Link, evidence: int)

  /** The canonical form of a stripped value, such as the address an IP text stands for. */
  type Canon = (EntityType, string) -> string

  // ---------------------------------------------------------------------------------------------
  // Text
  // ---------------------------------------------------------------------------------------------

  function StripLeft(s: string): string {
    if s != "" && IsSpace(s[0]) then StripLeft(s[1..]) else s
  }

  function StripRight(s: string): string {
    if s != "" && IsSpace(s[|s| - 1]) then StripRight(s[..|s| - 1]) else s
  }

  function Strip(s: string): string {
    StripRight(StripLeft(s))
  }

  lemma {:induction false} StripRightKeepsStart(s: string)
    requires s != "" && !IsSpace(s[0])
    ensures StripRight(s) != "" && StripRight(s)[0] == s[0]
  {
    if IsSpace(s[|s| - 1]) {
      StripRightKeepsStart(s[..|s| - 1]);
    }
  }

  lemma {:induction false} StripEnds(s: string)
    ensures StripLeft(s) == "" || !IsSpace(StripLeft(s)[0])
    ensures StripRight(s) == "" || !IsSpace(StripRight(s)[|StripRight(s)| - 1])
  {
    if s != "" {
      StripEnds(s[1..]);
      StripEnds(s[..|s| - 1]);
    }
  }

  lemma {:induction false} StripTwice(s: string)
    ensures Strip(Strip(s)) == Strip(s)
  {
    var left := StripLeft(s);
    StripEnds(s);
    StripEnds(left);
    if left != "" {
      StripRightKeepsStart(left);
    }
  }

  lemma {:induction false} StripLeftBlank(s: string)
    ensures StripLeft(s) == "" <==> Blank(s)
  {
    if s != "" {
      StripLeftBlank(s[1..]);
      assert s == [s[0]] + s[1..];
    }
  }

  lemma {:induction false} StripBlank(s: string)
    ensures Strip(s) == "" <==> Blank(s)
  {
    StripLeftBlank(s);
    StripEnds(s);
    if StripLeft(s) != "" {
      StripRightKeepsStart(StripLeft(s));
    }
  }

  function Normalize(canon: Canon, kind: EntityType, value: string): string {
    canon(kind, Strip(value))
  }

  function KeyOf(canon: Canon, ref: Ref): Key {
    Key(ref.kind, Normalize(canon, ref.kind, ref.value))
  }

  // ---------------------------------------------------------------------------------------------
  // The entities an evidence row names
  // ---------------------------------------------------------------------------------------------

  function Given(kind: EntityType, value: string): seq<Ref> {
    if value == "" then [] else [Ref(kind, value)]
  }

  function IpRefs(values: seq<string>): seq<Ref> {
    seq(|values|, i requires 0 <= i < |values| => Ref(Ip, values[i]))
  }

  function IndicatorKind(text: string): (kind: EntityType)
    ensures kind == Ip || kind == Domain || kind == Hash
  {
    var lower := Lower(text);
    if lower == "ip" || lower == "ipv4" || lower == "ipv6" then Ip
    else if lower == "domain" then Domain
    else Hash
  }

  /** The type under which the indicator of a verdict is recorded. */
  function RecordedKind(d: Data): EntityType {
    IndicatorKind(if d.indicatorType.Some? then d.indicatorType.value else "ip")
  }

  /** The mentions in the standard fields of a row's data. */
  function Candidates(row: Row): seq<Ref> {
    var d := row.data;
    Given(Host, d.host) + Given(Host, d.targetHost) + Given(User, d.user) + Given(User, d.targetUser)
    + Given(Ip, d.sourceIp) + Given(Ip, d.clientIp) + Given(Ip, d.srcIp) + Given(Ip, d.dstIp)
    + (if row.kind == DnsQuery then Given(Domain, d.query) + IpRefs(d.answers) else [])
    + (if row.kind == WebRequest || row.kind == WebAttack then Given(Url, d.path) else [])
    + (if row.kind == ThreatIntel
       then Given(RecordedKind(d), d.indicator) + Given(Host, d.source)
       else [])
  }

  /** The mentions that are not blank, stripped. */
  function Cleaned(mentions: seq<Ref>): seq<Ref> {
    if mentions == [] then []
    else
      var last := mentions[|mentions| - 1];
      Cleaned(mentions[..|mentions| - 1]) + Given(last.kind, Strip(last.value))
  }

  /** What a row mentions, each mention once, at its first occurrence. */
  function EntityRefs(row: Row): seq<Ref> {
    Firsts(Cleaned(row.refs + Candidates(row)), {})
  }

  lemma {:induction false} FirstsNext(mentions: seq<Ref>, i: nat)
    requires i < |mentions|
    ensures var ref, before := Ref(mentions[i].kind, Strip(mentions[i].value)), Firsts(Cleaned(mentions[..i]), {});
            Firsts(Cleaned(mentions[..i + 1]), {})
            == if ref.value == "" || ref in before then before else before + [ref]
  {
    var front := Cleaned(mentions[..i]);
    var ref := Ref(mentions[i].kind, Strip(mentions[i].value));
    assert mentions[..i + 1][..i] == mentions[..i];
    assert (front + [ref])[..|front|] == front;
    assert front + [] == front;
  }

  method CollectRefs(mentions: seq<Ref>) returns (refs: seq<Ref>)
    ensures refs == Firsts(Cleaned(mentions), {})
  {
    var seen: set<Ref> := {};
    refs := [];
    for i := 0 to |mentions|
      invariant refs == Firsts(Cleaned(mentions[..i]), {})
      invariant forall r :: r in seen <==> r in refs
    {
      FirstsNext(mentions, i);
      var ref := Ref(mentions[i].kind, Strip(mentions[i].value));
      if ref.value != "" && ref !in seen {
        seen := seen + {ref};
        refs := refs + [ref];
      }
    }
    assert mentions[..|mentions|] == mentions;
  }

  method ExtractEntityRefs(row: Row) returns (refs: seq<Ref>)
    ensures refs == EntityRefs(row)
  {
    var mentions := row.refs + Candidates(row);
    refs := CollectRefs(mentions);
  }

  /** Some mention, stripped, is this one. */
  ghost predicate Mentions(mentions: seq<Ref>, ref: Ref) {
    ref.value != "" && exists m :: m in mentions && m.kind == ref.kind && Strip(m.value) == ref.value
  }

  lemma {:induction false} CleanedMeans(mentions: seq<Ref>, ref: Ref)
    ensures ref in Cleaned(mentions) <==> Mentions(mentions, ref)
  {
    if mentions != [] {
      var front := mentions[..|mentions| - 1];
      CleanedMeans(front, ref);
      assert mentions == front + [mentions[|mentions| - 1]];
    }
  }

  /** Every mention that is not blank is extracted, and nothing else, once each. */
  lemma {:induction false} EntityRefsMean(row: Row)
    ensures Distinct(EntityRefs(row))
    ensures forall ref :: ref in EntityRefs(row) <==> Mentions(row.refs + Candidates(row), ref)
  {
    FirstsSelect(Cleaned(row.refs + Candidates(row)), {});
    forall ref
      ensures ref in EntityRefs(row) <==> Mentions(row.refs + Candidates(row), ref)
    {
      CleanedMeans(row.refs + Candidates(row), ref);
    }
  }

  // ---------------------------------------------------------------------------------------------
  // Observations
  // ---------------------------------------------------------------------------------------------

  /** One sighting of an entity, dated if its evidence is. */
  datatype Observation = Observation(key: Key, at: Option<int>)

  datatype Seen = Seen(first: Option<int>, last: Option<int>, count: nat)

  function Earlier(known: Option<int>, at: Option<int>): Option<int> {
    if at.Some? && (known.None? || at.value < known.value) then at else known
  }

  function Later(known: Option<int>, at: Option<int>): Option<int> {
    if at.Some? && (known.None? || at.value > known.value) then at else known
  }

  ghost function Observed(table: map<Key, Seen>, o: Observation): map<Key, Seen> {
    if o.key in table
    then var s := table[o.key]; table[o.key := Seen(Earlier(s.first, o.at), Later(s.last, o.at), s.count + 1)]
    else table[o.key := Seen(o.at, o.at, 1)]
  }

  /** The table after a list of observations. */
  ghost function ObservedAll(table: map<Key, Seen>, obs: seq<Observation>): map<Key, Seen> {
    if obs == [] then table else Observed(ObservedAll(table, obs[..|obs| - 1]), obs[|obs| - 1])
  }

  function Observations(canon: Canon, row: Row, refs: seq<Ref>): seq<Observation> {
    seq(|refs|, i requires 0 <= i < |refs| => Observation(KeyOf(canon, refs[i]), row.observedAt))
  }

  /** What a row says about the entities it names. */
  function SaidBy(canon: Canon): Row -> seq<Observation> {
    row => Observations(canon, row, EntityRefs(row))
  }

  function CountOf(obs: seq<Observation>, key: Key): nat {
    if obs == [] then 0
    else CountOf(obs[..|obs| - 1], key) + if obs[|obs| - 1].key == key then 1 else 0
  }

  ghost predicate Mentioned(obs: seq<Observation>, key: Key) {
    exists o :: o in obs && o.key == key
  }

  /** `result` is the earliest of `prior` and the dated observations of the entity. */
  ghost predicate IsEarliest(result: Option<int>, prior: Option<int>, obs: seq<Observation>, key: Key) {
    && (result.None? ==> prior.None? && forall o :: o in obs && o.key == key ==> o.at.None?)
    && (result.Some? ==>
          && (prior == result || Observation(key, result) in obs)
          && (prior.Some? ==> result.value <= prior.value)
          && forall o :: o in obs && o.key == key && o.at.Some? ==> result.value <= o.at.value)
  }

  ghost predicate IsLatest(result: Option<int>, prior: Option<int>, obs: seq<Observation>, key: Key) {
    && (result.None? ==> prior.None? && forall o :: o in obs && o.key == key ==> o.at.None?)
    && (result.Some? ==>
          && (prior == result || Observation(key, result) in obs)
          && (prior.Some? ==> prior.value <= result.value)
          && forall o :: o in obs && o.key == key && o.at.Some? ==> o.at.value <= result.value)
  }

  ghost function Prior(table: map<Key, Seen>, key: Key): Seen {
    if key in table then table[key] else Seen(None, None, 0)
  }

  lemma {:induction false} EarliestNext(known: Option<int>, prior: Option<int>, obs: seq<Observation>, o: Observation)
    requires IsEarliest(known, prior, obs, o.key)
    ensures IsEarliest(Earlier(known, o.at), prior, obs + [o], o.key)
  {
    assert o in obs + [o];
  }

  lemma {:induction false} LatestNext(known: Option<int>, prior: Option<int>, obs: seq<Observation>, o: Observation)
    requires IsLatest(known, prior, obs, o.key)
    ensures IsLatest(Later(known, o.at), prior, obs + [o], o.key)
  {
    assert o in obs + [o];
  }

  /** What is known of one entity after some observations. */
  ghost predicate IsSeen(result: map<Key, Seen>, table: map<Key, Seen>, obs: seq<Observation>, key: Key) {
    var prior := Prior(table, key);
    && (key in result <==> key in table || Mentioned(obs, key))
    && (key in result ==>
          && IsEarliest(result[key].first, prior.first, obs, key)
          && IsLatest(result[key].last, prior.last, obs, key)
          && result[key].count == prior.count + CountOf(obs, key))
  }

  lemma {:induction false} UnseenHasNoCount(obs: seq<Observation>, key: Key)
    requires !Mentioned(obs, key)
    ensures CountOf(obs, key) == 0
  {
    if obs != [] {
      var front := obs[..|obs| - 1];
      assert obs == front + [obs[|obs| - 1]];
      UnseenHasNoCount(front, key);
    }
  }

  lemma {:induction false} SeenNext(result: map<Key, Seen>, table: map<Key, Seen>, obs: seq<Observation>,
                                    o: Observation)
    requires IsSeen(result, table, obs, o.key)
    ensures IsSeen(Observed(result, o), table, obs + [o], o.key)
  {
    assert o in obs + [o] && (obs + [o])[..|obs|] == obs;
    if o.key in result {
      EarliestNext(result[o.key].first, Prior(table, o.key).first, obs, o);
      LatestNext(result[o.key].last, Prior(table, o.key).last, obs, o);
    } else {
      UnseenHasNoCount(obs, o.key);
    }
  }

  lemma {:induction false} SeenElsewhere(result: map<Key, Seen>, table: map<Key, Seen>, obs: seq<Observation>,
                                         o: Observation, key: Key)
    requires IsSeen(result, table, obs, key) && key != o.key
    ensures IsSeen(Observed(result, o), table, obs + [o], key)
  {
    assert (obs + [o])[..|obs|] == obs;
    if Mentioned(obs, key) {
      var x :| x in obs && x.key == key;
      assert x in obs + [o];
    }
  }

  /** One entity per key; its times span exactly the dated observations and what was known before. */
  lemma {:induction false} ObservedAllMeans(table: map<Key, Seen>, obs: seq<Observation>, key: Key)
    ensures IsSeen(ObservedAll(table, obs), table, obs, key)
  {
    if obs != [] {
      var front, o := obs[..|obs| - 1], obs[|obs| - 1];
      ObservedAllMeans(table, front, key);
      assert obs == front + [o];
      if key == o.key {
        SeenNext(ObservedAll(table, front), table, front, o);
      } else {
        SeenElsewhere(ObservedAll(table, front), table, front, o, key);
      }
    }
  }

  // ---------------------------------------------------------------------------------------------
  // Neither the order of the evidence nor a second pass over it matters
  // ---------------------------------------------------------------------------------------------

  lemma {:induction false} CountConcat(a: seq<Observation>, b: seq<Observation>, key: Key)
    ensures CountOf(a + b, key) == CountOf(a, key) + CountOf(b, key)
  {
    if b == [] {
      assert a + b == a;
    } else {
      assert (a + b)[..|a + b| - 1] == a + b[..|b| - 1];
      CountConcat(a, b[..|b| - 1], key);
    }
  }

  lemma {:induction false} CountSame(a: seq<Observation>, b: seq<Observation>, key: Key)
    requires multiset(a) == multiset(b)
    ensures CountOf(a, key) == CountOf(b, key)
  {
    if a != [] {
      var front, o := a[..|a| - 1], a[|a| - 1];
      var left, right := TakeOut(a, b);
      assert a == front + [o];
      CountSame(front, left + right, key);
      CountConcat(left + [o], right, key);
      CountConcat(left, [o], key);
      CountConcat(left, right, key);
      CountConcat(front, [o], key);
    } else {
      assert |multiset(b)| == 0;
    }
  }

  lemma {:induction false} EarliestIsUnique(r: Option<int>, q: Option<int>, prior: Option<int>, a: seq<Observation>,
                                            b: seq<Observation>, key: Key)
    requires forall o :: o in a <==> o in b
    requires IsEarliest(r, prior, a, key) && IsEarliest(q, prior, b, key)
    ensures r == q
  {
  }

  lemma {:induction false} LatestIsUnique(r: Option<int>, q: Option<int>, prior: Option<int>, a: seq<Observation>,
                                          b: seq<Observation>, key: Key)
    requires forall o :: o in a <==> o in b
    requires IsLatest(r, prior, a, key) && IsLatest(q, prior, b, key)
    ensures r == q
  {
  }

  /** The order of the observations does not matter. */
  lemma {:induction false} SameTable(table: map<Key, Seen>, a: seq<Observation>, b: seq<Observation>)
    requires multiset(a) == multiset(b)
    ensures ObservedAll(table, a) == ObservedAll(table, b)
  {
    var r, q := ObservedAll(table, a), ObservedAll(table, b);
    assert forall o :: o in a <==> o in multiset(a);
    assert forall o :: o in b <==> o in multiset(b);
    forall key
      ensures key in r <==> key in q
      ensures key in r ==> r[key] == q[key]
    {
      SameEntry(table, a, b, key);
    }
  }

  lemma {:induction false} SameEntry(table: map<Key, Seen>, a: seq<Observation>, b: seq<Observation>, key: Key)
    requires multiset(a) == multiset(b) && forall o :: o in a <==> o in b
    ensures key in ObservedAll(table, a) <==> key in ObservedAll(table, b)
    ensures key in ObservedAll(table, a) ==> ObservedAll(table, a)[key] == ObservedAll(table, b)[key]
  {
    var r, q := ObservedAll(table, a), ObservedAll(table, b);
    ObservedAllMeans(table, a, key);
    ObservedAllMeans(table, b, key);
    CountSame(a, b, key);
    if key in r && key in q {
      EarliestIsUnique(r[key].first, q[key].first, Prior(table, key).first, a, b, key);
      LatestIsUnique(r[key].last, q[key].last, Prior(table, key).last, a, b, key);
    }
  }

  /** Seeing observations again adds no entity and moves no time; only the counts grow. */
  lemma {:induction false} SeenAgain(table: map<Key, Seen>, obs: seq<Observation>, again: seq<Observation>, key: Key)
    requires forall o :: o in again ==> o in obs
    ensures var once := ObservedAll(table, obs);
            var twice := ObservedAll(once, again);
            && (key in twice <==> key in once)
            && (key in once ==> && twice[key].first == once[key].first && twice[key].last == once[key].last
                                && twice[key].count == once[key].count + CountOf(again, key))
  {
    var once := ObservedAll(table, obs);
    var twice := ObservedAll(once, again);
    ObservedAllMeans(table, obs, key);
    ObservedAllMeans(once, again, key);
    if key in once && key in twice {
      NoEarlier(once[key].first, twice[key].first, Prior(table, key).first, obs, again, key);
      NoLater(once[key].last, twice[key].last, Prior(table, key).last, obs, again, key);
    }
  }

  lemma {:induction false} NoEarlier(r: Option<int>, q: Option<int>, prior: Option<int>, obs: seq<Observation>,
                                     again: seq<Observation>, key: Key)
    requires forall o :: o in again ==> o in obs
    requires IsEarliest(r, prior, obs, key) && IsEarliest(q, r, again, key)
    ensures q == r
  {
  }

  lemma {:induction false} NoLater(r: Option<int>, q: Option<int>, prior: Option<int>, obs: seq<Observation>,
                                   again: seq<Observation>, key: Key)
    requires forall o :: o in again ==> o in obs
    requires IsLatest(r, prior, obs, key) && IsLatest(q, r, again, key)
    ensures q == r
  {
  }

  // ---------------------------------------------------------------------------------------------
  // The edges an evidence row backs
  // ---------------------------------------------------------------------------------------------

  /** The known entity a field names, if any. */
  function Find(canon: Canon, known: set<Key>, kind: EntityType, raw: string): Option<Key> {
    var key := KeyOf(canon, Ref(kind, raw));
    if raw != "" && key in known then Some(key) else None
  }

  function Connect(src: Option<Key>, dst: Option<Key>, relation: Relation): seq<Link> {
    if src.Some? && dst.Some? then [Link(src.value, dst.value, relation)] else []
  }

  function ConnectDistinct(src: Option<Key>, dst: Option<Key>, relation: Relation): seq<Link> {
    if src == dst then [] else Connect(src, dst, relation)
  }

  function AuthLinks(canon: Canon, known: set<Key>, d: Data): seq<Link> {
    var user, host := Find(canon, known, User, d.user), Find(canon, known, Host, d.host);
    var src, target := Find(canon, known, Ip, d.sourceIp), Find(canon, known, User, d.targetUser);
    (if d.outcome == "failure" then Connect(user, host, FailedAuthTo)
     else if d.outcome == "success" then Connect(user, host, AuthenticatedTo)
     else [])
    + Connect(src, host, ConnectedFrom)
    + ConnectDistinct(user, target, AssociatedWith)
    + Connect(src, Find(canon, known, Port, d.sourcePort), ConnectedToPort)
  }

  function WebLinks(canon: Canon, known: set<Key>, d: Data): seq<Link> {
    var client := Find(canon, known, Ip, if d.clientIp != "" then d.clientIp else d.sourceIp);
    var host := Find(canon, known, Host, d.host);
    Connect(client, host, ConnectedFrom)
    + Connect(client, Find(canon, known, Url, d.path), Contacted)
    + Connect(Find(canon, known, User, d.user), host, AuthenticatedTo)
  }

  function FlowLinks(canon: Canon, known: set<Key>, d: Data): seq<Link> {
    var dst := Find(canon, known, Ip, d.dstIp);
    Connect(Find(canon, known, Ip, d.srcIp), dst, Contacted)
    + Connect(dst, Find(canon, known, Port, d.dstPort), ListensOn)
  }

  /** Links from one entity to each of the values that names a known entity of a type. */
  function Fan(canon: Canon, known: set<Key>, src: Option<Key>, kind: EntityType, values: seq<string>,
               relation: Relation)
    : seq<Link>
  {
    if values == [] then []
    else
      var front, last := values[..|values| - 1], values[|values| - 1];
      Fan(canon, known, src, kind, front, relation) + Connect(src, Find(canon, known, kind, last), relation)
  }

  lemma {:induction false} FanNext(canon: Canon, known: set<Key>, src: Option<Key>, kind: EntityType,
                                   values: seq<string>,
                                   i: nat, relation: Relation)
    requires i < |values|
    ensures Fan(canon, known, src, kind, values[..i + 1], relation)
         == Fan(canon, known, src, kind, values[..i], relation)
             + Connect(src, Find(canon, known, kind, values[i]), relation)
  {
    assert values[..i + 1][..i] == values[..i];
  }

  function DnsLinks(canon: Canon, known: set<Key>, d: Data): seq<Link> {
    var domain := Find(canon, known, Domain, d.query);
    Connect(Find(canon, known, Ip, d.clientIp), domain, Contacted)
    + Fan(canon, known, domain, Ip, d.answers, ResolvesTo)
  }

  /** The indicator a verdict is about, as the edges look it up. */
  function VerdictRef(d: Data): Ref {
    var text := if d.indicatorType.Some? && d.indicatorType.value != "" then d.indicatorType.value
                else if d.entityType != "" then d.entityType
                else "ip";
    Ref(IndicatorKind(text), if d.indicator != "" then d.indicator else d.query)
  }

  function VerdictRelation(d: Data): Relation {
    if d.isMalicious then FlaggedBy else EvaluatedBy
  }

  function VerdictLink(canon: Canon, known: set<Key>, d: Data): seq<Link> {
    ConnectDistinct(Find(canon, known, VerdictRef(d).kind, VerdictRef(d).value), Find(canon, known, Host, d.source),
                    VerdictRelation(d))
  }

  function IntelLinks(canon: Canon, known: set<Key>, d: Data): seq<Link> {
    VerdictLink(canon, known, d)
    + Fan(canon, known, Find(canon, known, VerdictRef(d).kind, VerdictRef(d).value), Malware, d.tags, AssociatedWith)
  }

  function KindLinks(canon: Canon, row: Row, known: set<Key>): seq<Link> {
    match row.kind
    case AuthEvent => AuthLinks(canon, known, row.data)
    case WebRequest => WebLinks(canon, known, row.data)
    case WebAttack => WebLinks(canon, known, row.data)
    case NetworkFlow => FlowLinks(canon, known, row.data)
    case DnsQuery => DnsLinks(canon, known, row.data)
    case ThreatIntel => IntelLinks(canon, known, row.data)
    case _ => []
  }

  /** The edges of a row; without one, the two entities of a row that names exactly two are associated. */
  function DeriveEdges(canon: Canon, row: Row, known: set<Key>): seq<Link> {
    var links := KindLinks(canon, row, known);
    if links != [] then links else FallbackLinks(canon, known, EntityRefs(row))
  }

  function FallbackLinks(canon: Canon, known: set<Key>, refs: seq<Ref>): seq<Link> {
    if |refs| != 2 then []
    else ConnectDistinct(Find(canon, known, refs[0].kind, refs[0].value),
                         Find(canon, known, refs[1].kind, refs[1].value), AssociatedWith)
  }

  function Backed(links: seq<Link>, evidence: int): seq<Edge> {
    seq(|links|, i requires 0 <= i < |links| => Edge(links[i], evidence))
  }

  /** The edges a row backs, with the row as their evidence. */
  function BackedBy(canon: Canon, known: set<Key>): Row -> seq<Edge> {
    row => Backed(DeriveEdges(canon, row, known), row.id)
  }

  /** What each relation connects. */
  predicate WellTyped(link: Link) {
    var src, dst := link.src.kind, link.dst.kind;
    match link.relation
    case FailedAuthTo => src == User && dst == Host
    case AuthenticatedTo => src == User && dst == Host
    case ConnectedFrom => src == Ip && dst == Host
    case ConnectedToPort => src == Ip && dst == Port
    case ListensOn => src == Ip && dst == Port
    case Contacted => src == Ip && (dst == Ip || dst == Url || dst == Domain)
    case ResolvesTo => src == Domain && dst == Ip
    case FlaggedBy => (src == Ip || src == Domain || src == Hash) && dst == Host
    case EvaluatedBy => (src == Ip || src == Domain || src == Hash) && dst == Host
    case AssociatedWith => link.src != link.dst
  }

  lemma {:induction false} FanMeans(canon: Canon, known: set<Key>, src: Option<Key>, kind: EntityType,
                                    values: seq<string>,
                                    relation: Relation, link: Link)
    ensures link in Fan(canon, known, src, kind, values, relation) <==>
            && src == Some(link.src) && link.relation == relation
            && exists v :: v in values && Find(canon, known, kind, v) == Some(link.dst)
  {
    if values != [] {
      FanMeans(canon, known, src, kind, values[..|values| - 1], relation, link);
      assert values == values[..|values| - 1] + [values[|values| - 1]];
    }
  }

  ghost predicate Sound(link: Link, known: set<Key>) {
    link.src in known && link.dst in known && WellTyped(link)
  }

  lemma {:induction false} AuthLinksAreSound(canon: Canon, known: set<Key>, d: Data)
    ensures forall link :: link in AuthLinks(canon, known, d) ==> Sound(link, known) && link.src != link.dst
  {
    var user, host := Find(canon, known, User, d.user), Find(canon, known, Host, d.host);
    var src, port := Find(canon, known, Ip, d.sourceIp), Find(canon, known, Port, d.sourcePort);
    forall link | link in AuthLinks(canon, known, d)
      ensures Sound(link, known) && link.src != link.dst
    {
      if link in Connect(src, host, ConnectedFrom) {
      } else if link in Connect(src, port, ConnectedToPort) {
      }
    }
  }

  lemma {:induction false} WebLinksAreSound(canon: Canon, known: set<Key>, d: Data)
    ensures forall link :: link in WebLinks(canon, known, d) ==> Sound(link, known) && link.src != link.dst
  {
  }

  lemma {:induction false} DnsLinksAreSound(canon: Canon, known: set<Key>, d: Data)
    ensures forall link :: link in DnsLinks(canon, known, d) ==> Sound(link, known) && link.src != link.dst
  {
    var domain := Find(canon, known, Domain, d.query);
    forall link | link in Fan(canon, known, domain, Ip, d.answers, ResolvesTo)
      ensures Sound(link, known) && link.src != link.dst
    {
      FanMeans(canon, known, domain, Ip, d.answers, ResolvesTo, link);
    }
  }

  lemma {:induction false} IntelLinksAreSound(canon: Canon, known: set<Key>, d: Data)
    ensures forall link :: link in IntelLinks(canon, known, d) ==> Sound(link, known) && link.src != link.dst
  {
    var indicator := Find(canon, known, VerdictRef(d).kind, VerdictRef(d).value);
    forall link | link in Fan(canon, known, indicator, Malware, d.tags, AssociatedWith)
      ensures Sound(link, known) && link.src != link.dst
    {
      FanMeans(canon, known, indicator, Malware, d.tags, AssociatedWith, link);
    }
  }

  /** A flow whose two ends are one known address. */
  predicate LoopsBack(canon: Canon, row: Row, known: set<Key>) {
    && row.kind == NetworkFlow && Find(canon, known, Ip, row.data.srcIp).Some?
    && Find(canon, known, Ip, row.data.srcIp) == Find(canon, known, Ip, row.data.dstIp)
  }

  lemma {:induction false} KindLinksAreSound(canon: Canon, row: Row, known: set<Key>, link: Link)
    requires link in KindLinks(canon, row, known)
    ensures Sound(link, known)
    ensures link.src == link.dst ==> LoopsBack(canon, row, known)
  {
    match row.kind
    case AuthEvent => AuthLinksAreSound(canon, known, row.data);
    case WebRequest => WebLinksAreSound(canon, known, row.data);
    case WebAttack => WebLinksAreSound(canon, known, row.data);
    case DnsQuery => DnsLinksAreSound(canon, known, row.data);
    case ThreatIntel => IntelLinksAreSound(canon, known, row.data);
    case _ =>
  }

  /** Every edge connects known entities of the types its relation names. */
  lemma {:induction false} EdgesAreSound(canon: Canon, row: Row, known: set<Key>, link: Link)
    requires link in DeriveEdges(canon, row, known)
    ensures Sound(link, known)
    ensures link.src == link.dst ==> LoopsBack(canon, row, known)
  {
    if link in KindLinks(canon, row, known) {
      KindLinksAreSound(canon, row, known, link);
    }
  }

  /** An entity is connected with itself exactly by a flow between one address and itself. */
  lemma {:induction false} SelfEdgesExactly(canon: Canon, row: Row, known: set<Key>)
    ensures (exists link :: link in DeriveEdges(canon, row, known) && link.src == link.dst)
            <==> LoopsBack(canon, row, known)
  {
    if LoopsBack(canon, row, known) {
      var key := Find(canon, known, Ip, row.data.srcIp).value;
      assert FlowLinks(canon, known, row.data)[0] == Link(key, key, Contacted);
      assert Link(key, key, Contacted) in DeriveEdges(canon, row, known);
    }
    forall link | link in DeriveEdges(canon, row, known)
      ensures link.src == link.dst ==> LoopsBack(canon, row, known)
    {
      EdgesAreSound(canon, row, known, link);
    }
  }

  lemma {:induction false} ObservedNext(table: map<Key, Seen>, obs: seq<Observation>, i: nat)
    requires i < |obs|
    ensures ObservedAll(table, obs[..i + 1]) == Observed(ObservedAll(table, obs[..i]), obs[i])
  {
    assert obs[..i + 1][..i] == obs[..i];
  }

  lemma {:induction false} ObservedInTwo(table: map<Key, Seen>, a: seq<Observation>, b: seq<Observation>)
    ensures ObservedAll(table, a + b) == ObservedAll(ObservedAll(table, a), b)
  {
    if b == [] {
      assert a + b == a;
    } else {
      assert (a + b)[..|a + b| - 1] == a + b[..|b| - 1];
      ObservedInTwo(table, a, b[..|b| - 1]);
    }
  }

  lemma {:induction false} ResolvedNext(table: map<Key, Seen>, rows: seq<Row>, i: nat, said: Row -> seq<Observation>)
    requires i < |rows|
    ensures ObservedAll(table, Flat(rows[..i + 1], said))
         == ObservedAll(ObservedAll(table, Flat(rows[..i], said)), said(rows[i]))
  {
    assert rows[..i + 1][..i] == rows[..i];
    ObservedInTwo(table, Flat(rows[..i], said), said(rows[i]));
  }

  /** The edges stored once the candidates have been gone through: each that is not stored yet. */
  function EdgesAfter(edges: seq<Edge>, candidates: seq<Edge>): seq<Edge> {
    if candidates == [] then edges
    else
      var before, e := EdgesAfter(edges, candidates[..|candidates| - 1]), candidates[|candidates| - 1];
      if e in before then before else before + [e]
  }

  lemma {:induction false} EdgesInTwo(edges: seq<Edge>, a: seq<Edge>, b: seq<Edge>)
    ensures EdgesAfter(edges, a + b) == EdgesAfter(EdgesAfter(edges, a), b)
  {
    if b == [] {
      assert a + b == a;
    } else {
      assert (a + b)[..|a + b| - 1] == a + b[..|b| - 1];
      EdgesInTwo(edges, a, b[..|b| - 1]);
    }
  }

  lemma {:induction false} LinkedNext(edges: seq<Edge>, rows: seq<Row>, i: nat, backing: Row -> seq<Edge>)
    requires i < |rows|
    ensures EdgesAfter(edges, Flat(rows[..i + 1], backing))
         == EdgesAfter(EdgesAfter(edges, Flat(rows[..i], backing)), backing(rows[i]))
  {
    assert rows[..i + 1][..i] == rows[..i];
    EdgesInTwo(edges, Flat(rows[..i], backing), backing(rows[i]));
  }

  /** The stored edges stay; behind them come the new candidates, each once. */
  lemma {:induction false} EdgesAfterMeans(edges: seq<Edge>, candidates: seq<Edge>)
    ensures var after := EdgesAfter(edges, candidates);
            && edges <= after && (Distinct(edges) ==> Distinct(after))
            && forall e :: e in after <==> e in edges || e in candidates
  {
    if candidates != [] {
      EdgesAfterMeans(edges, candidates[..|candidates| - 1]);
      assert candidates == candidates[..|candidates| - 1] + [candidates[|candidates| - 1]];
    }
  }

  datatype Graph = Graph(table: map<Key, Seen>, edges: seq<Edge>)

  /** The graph after a run over some rows: all entities first, then the edges between them. */
  ghost function After(canon: Canon, g: Graph, rows: seq<Row>): Graph {
    var table := ObservedAll(g.table, Flat(rows, SaidBy(canon)));
    Graph(table, EdgesAfter(g.edges, Flat(rows, BackedBy(canon, table.Keys))))
  }

  lemma {:induction false} AfterIs(canon: Canon, g: Graph, rows: seq<Row>, table: map<Key, Seen>, edges: seq<Edge>)
    requires table == ObservedAll(g.table, Flat(rows, SaidBy(canon)))
    requires edges == EdgesAfter(g.edges, Flat(rows, BackedBy(canon, table.Keys)))
    ensures Graph(table, edges) == After(canon, g, rows)
  {
  }

  // ---------------------------------------------------------------------------------------------
  // The agent
  // ---------------------------------------------------------------------------------------------

  class Entity {
    const key: Key
    const raw: string
    var firstSeen: Option<int>
    var lastSeen: Option<int>
    var count: nat

    constructor (key: Key, raw: string, at: Option<int>)
      ensures this.key == key && this.raw == raw && Value() == Seen(at, at, 1)
    {
      this.key, this.raw, firstSeen, lastSeen, count := key, raw, at, at, 1;
    }

    ghost function Value(): Seen
      reads this
    {
      Seen(firstSeen, lastSeen, count)
    }

    method Observe(at: Option<int>)
      modifies this
      ensures Value() == Seen(Earlier(old(firstSeen), at), Later(old(lastSeen), at), old(count) + 1)
    {
      count := count + 1;
      if at.Some? {
        if firstSeen.None? || at.value < firstSeen.value {
          firstSeen := at;
        }
        if lastSeen.None? || at.value > lastSeen.value {
          lastSeen := at;
        }
      }
    }
  }

  class CorrelationAgent {
    const canon: Canon
    var entities: map<Key, Entity>
    var edges: seq<Edge>

    constructor (canon: Canon)
      ensures Valid() && this.canon == canon && Table() == map[] && edges == []
    {
      this.canon, entities, edges := canon, map[], [];
    }

    /** Every entity is filed under its own key, so no two keys share one. */
    ghost predicate Valid()
      reads this`entities
    {
      forall k :: k in entities ==> entities[k].key == k
    }

    ghost function Table(): map<Key, Seen>
      reads this`entities, entities.Values
    {
      map k | k in entities :: entities[k].Value()
    }

    method Upsert(ref: Ref, at: Option<int>)
      requires Valid()
      modifies this`entities, entities.Values
      ensures Valid() && fresh(entities.Values - old(entities.Values))
      ensures Table() == Observed(old(Table()), Observation(KeyOf(canon, ref), at))
    {
      var key := KeyOf(canon, ref);
      if key in entities {
        assert entities[key] in entities.Values;
        entities[key].Observe(at);
      } else {
        var entity := new Entity(key, ref.value, at);
        entities := entities[key := entity];
      }
    }

    method ObserveRow(row: Row)
      requires Valid()
      modifies this`entities, entities.Values
      ensures Valid() && fresh(entities.Values - old(entities.Values))
      ensures Table() == ObservedAll(old(Table()), SaidBy(canon)(row))
    {
      var refs := ExtractEntityRefs(row);
      ghost var said := SaidBy(canon)(row);
      for i := 0 to |refs|
        invariant Valid() && fresh(entities.Values - old(entities.Values))
        invariant Table() == ObservedAll(old(Table()), said[..i])
      {
        ObservedNext(old(Table()), said, i);
        Upsert(refs[i], row.observedAt);
      }
      assert said[..|said|] == said;
    }

    method ResolveEntities(rows: seq<Row>)
      requires Valid()
      modifies this`entities, entities.Values
      ensures Valid() && fresh(entities.Values - old(entities.Values))
      ensures Table() == ObservedAll(old(Table()), Flat(rows, SaidBy(canon)))
    {
      for i := 0 to |rows|
        invariant Valid() && fresh(entities.Values - old(entities.Values))
        invariant Table() == ObservedAll(old(Table()), Flat(rows[..i], SaidBy(canon)))
      {
        ResolvedNext(old(Table()), rows, i, SaidBy(canon));
        ObserveRow(rows[i]);
      }
      assert rows[..|rows|] == rows;
    }

    method LinkEach(src: Option<Key>, kind: EntityType, values: seq<string>, relation: Relation)
      returns (links: seq<Link>)
      ensures links == Fan(canon, entities.Keys, src, kind, values, relation)
    {
      var known := entities.Keys;
      links := [];
      for i := 0 to |values|
        invariant links == Fan(canon, known, src, kind, values[..i], relation)
      {
        FanNext(canon, known, src, kind, values, i, relation);
        var dst := Find(canon, known, kind, values[i]);
        links := links + Connect(src, dst, relation);
      }
      assert values[..|values|] == values;
    }

    method DeriveByKind(row: Row) returns (derived: seq<Link>)
      ensures derived == KindLinks(canon, row, entities.Keys)
    {
      var known, d := entities.Keys, row.data;
      match row.kind {
        case AuthEvent =>
          derived := AuthLinks(canon, known, d);
        case WebRequest =>
          derived := WebLinks(canon, known, d);
        case WebAttack =>
          derived := WebLinks(canon, known, d);
        case NetworkFlow =>
          derived := FlowLinks(canon, known, d);
        case DnsQuery =>
          var domain := Find(canon, known, Domain, d.query);
          var resolved := LinkEach(domain, Ip, d.answers, ResolvesTo);
          derived := Connect(Find(canon, known, Ip, d.clientIp), domain, Contacted) + resolved;
        case ThreatIntel =>
          var indicator := Find(canon, known, VerdictRef(d).kind, VerdictRef(d).value);
          var tagged := LinkEach(indicator, Malware, d.tags, AssociatedWith);
          derived := VerdictLink(canon, known, d) + tagged;
        case _ =>
          derived := [];
      }
    }

    method DeriveEdgesForEvidence(row: Row) returns (derived: seq<Link>)
      ensures derived == DeriveEdges(canon, row, entities.Keys)
    {
      derived := DeriveByKind(row);
      if derived == [] {
        var refs := ExtractEntityRefs(row);
        derived := FallbackLinks(canon, entities.Keys, refs);
      }
    }

    method LinkRow(row: Row, keys: set<Edge>, ghost backing: Row -> seq<Edge>) returns (keys': set<Edge>)
      requires forall e :: e in keys <==> e in edges
      requires backing == BackedBy(canon, entities.Keys)
      modifies this`edges
      ensures forall e :: e in keys' <==> e in edges
      ensures edges == EdgesAfter(old(edges), backing(row))
    {
      var derived := DeriveEdgesForEvidence(row);
      ghost var backed := backing(row);
      keys' := keys;
      for i := 0 to |derived|
        invariant edges == EdgesAfter(old(edges), backed[..i])
        invariant forall e :: e in keys' <==> e in edges
      {
        var edge := Edge(derived[i], row.id);
        assert backed[..i + 1][..i] == backed[..i];
        if edge in keys' {
          continue;
        }
        edges := edges + [edge];
        keys' := keys' + {edge};
      }
      assert backed[..|backed|] == backed;
    }

    method LinkEntities(rows: seq<Row>)
      modifies this`edges
      ensures edges == EdgesAfter(old(edges), Flat(rows, BackedBy(canon, entities.Keys)))
    {
      var keys := set e | e in edges;
      ghost var backing := BackedBy(canon, entities.Keys);
      for i := 0 to |rows|
        invariant edges == EdgesAfter(old(edges), Flat(rows[..i], backing))
        invariant forall e :: e in keys <==> e in edges
      {
        keys := LinkRow(rows[i], keys, backing);
        LinkedNext(old(edges), rows, i, backing);
      }
      assert rows[..|rows|] == rows;
    }

    /** Resolves the entities of all rows, then links them. */
    method Run(rows: seq<Row>)
      requires Valid()
      modifies this`entities, this`edges, entities.Values
      ensures Valid() && fresh(entities.Values - old(entities.Values))
      ensures Graph(Table(), edges) == After(canon, old(Graph(Table(), edges)), rows)
    {
      ghost var g := Graph(Table(), edges);
      ResolveEntities(rows);
      ghost var table := Table();
      KeysOfTable();
      LinkEntities(rows);
      assert Table() == table;
      AfterIs(canon, g, rows, table, edges);
    }

    lemma {:induction false} KeysOfTable()
      ensures Table().Keys == entities.Keys
    {
    }
  }

  // ---------------------------------------------------------------------------------------------
  // Whole runs
  // ---------------------------------------------------------------------------------------------

  /** Edges are unique, each connects entities of the graph, and each is backed by one of the rows. */
  ghost predicate Grounded(g: Graph, rows: seq<Row>) {
    && Distinct(g.edges)
    && forall e :: e in g.edges ==> Sound(e.link, g.table.Keys) && exists row :: row in rows && row.id == e.evidence
  }

  lemma {:induction false} RunKeepsGrounded(canon: Canon, g: Graph, past: seq<Row>, rows: seq<Row>)
    requires Grounded(g, past)
    ensures Grounded(After(canon, g, rows), past + rows)
  {
    var after := After(canon, g, rows);
    EdgesAfterMeans(g.edges, Flat(rows, BackedBy(canon, after.table.Keys)));
    forall key | key in g.table
      ensures key in after.table
    {
      ObservedAllMeans(g.table, Flat(rows, SaidBy(canon)), key);
    }
    forall e | e in after.edges
      ensures Sound(e.link, after.table.Keys) && exists row :: row in past + rows && row.id == e.evidence
    {
      if e in g.edges {
        var row :| row in past && row.id == e.evidence;
        assert row in past + rows;
      } else {
        var row := EdgeComesFrom(canon, g, rows, e);
        EdgesAreSound(canon, row, after.table.Keys, e.link);
        assert row in past + rows;
      }
    }
  }

  ghost function AfterAll(canon: Canon, runs: seq<seq<Row>>): Graph {
    if runs == [] then Graph(map[], []) else After(canon, AfterAll(canon, runs[..|runs| - 1]), runs[|runs| - 1])
  }

  function AllRows(runs: seq<seq<Row>>): seq<Row> {
    if runs == [] then [] else AllRows(runs[..|runs| - 1]) + runs[|runs| - 1]
  }

  /** However often the agent runs, and on whatever rows. */
  lemma {:induction false} EveryGraphIsGrounded(canon: Canon, runs: seq<seq<Row>>)
    ensures Grounded(AfterAll(canon, runs), AllRows(runs))
  {
    if runs != [] {
      var before, last := runs[..|runs| - 1], runs[|runs| - 1];
      EveryGraphIsGrounded(canon, before);
      RunKeepsGrounded(canon, AfterAll(canon, before), AllRows(before), last);
    }
  }

  lemma {:induction false} NothingNew(edges: seq<Edge>, candidates: seq<Edge>)
    requires forall e :: e in candidates ==> e in edges
    ensures EdgesAfter(edges, candidates) == edges
  {
    if candidates != [] {
      NothingNew(edges, candidates[..|candidates| - 1]);
    }
  }

  lemma {:induction false} SaidAgain(canon: Canon, rows: seq<Row>, again: seq<Row>)
    requires forall row :: row in again ==> row in rows
    ensures forall o :: o in Flat(again, SaidBy(canon)) ==> o in Flat(rows, SaidBy(canon))
  {
    forall o | o in Flat(again, SaidBy(canon))
      ensures o in Flat(rows, SaidBy(canon))
    {
      FlatMeans(again, SaidBy(canon), o);
      FlatMeans(rows, SaidBy(canon), o);
    }
  }

  lemma {:induction false} BackedAgain(canon: Canon, known: set<Key>, rows: seq<Row>, again: seq<Row>)
    requires forall row :: row in again ==> row in rows
    ensures forall e :: e in Flat(again, BackedBy(canon, known)) ==> e in Flat(rows, BackedBy(canon, known))
  {
    forall e | e in Flat(again, BackedBy(canon, known))
      ensures e in Flat(rows, BackedBy(canon, known))
    {
      FlatMeans(again, BackedBy(canon, known), e);
      FlatMeans(rows, BackedBy(canon, known), e);
    }
  }

  /** Running again over rows already processed adds no entity and no edge and moves no time; only counts grow. */
  lemma {:induction false} SecondRunAddsNothing(canon: Canon, g: Graph, rows: seq<Row>, again: seq<Row>)
    requires forall row :: row in again ==> row in rows
    ensures var once := After(canon, g, rows);
            var twice := After(canon, once, again);
            && twice.edges == once.edges && twice.table.Keys == once.table.Keys
            && forall key :: key in once.table ==>
                 && twice.table[key].first == once.table[key].first && twice.table[key].last == once.table[key].last
                 && twice.table[key].count == once.table[key].count + CountOf(Flat(again, SaidBy(canon)), key)
  {
    var once := After(canon, g, rows);
    var twice := After(canon, once, again);
    SaidAgain(canon, rows, again);
    forall key
      ensures key in twice.table <==> key in once.table
      ensures key in once.table ==>
                && twice.table[key].first == once.table[key].first && twice.table[key].last == once.table[key].last
                && twice.table[key].count == once.table[key].count + CountOf(Flat(again, SaidBy(canon)), key)
    {
      SeenAgain(g.table, Flat(rows, SaidBy(canon)), Flat(again, SaidBy(canon)), key);
    }
    assert twice.table.Keys == once.table.Keys;
    BackedAgain(canon, once.table.Keys, rows, again);
    EdgesAfterMeans(g.edges, Flat(rows, BackedBy(canon, once.table.Keys)));
    NothingNew(once.edges, Flat(again, BackedBy(canon, once.table.Keys)));
  }

  /** The order of the evidence changes neither the entities nor the set of edges. */
  lemma {:induction false} OrderDoesNotMatter(canon: Canon, g: Graph, a: seq<Row>, b: seq<Row>)
    requires multiset(a) == multiset(b)
    ensures After(canon, g, a).table == After(canon, g, b).table
    ensures forall e :: e in After(canon, g, a).edges <==> e in After(canon, g, b).edges
  {
    FlatReorders(a, b, SaidBy(canon));
    SameTable(g.table, Flat(a, SaidBy(canon)), Flat(b, SaidBy(canon)));
    var backing := BackedBy(canon, After(canon, g, a).table.Keys);
    EdgesAfterMeans(g.edges, Flat(a, backing));
    EdgesAfterMeans(g.edges, Flat(b, backing));
    assert forall row :: row in a <==> row in multiset(a);
    assert forall row :: row in b <==> row in multiset(b);
    BackedAgain(canon, After(canon, g, a).table.Keys, a, b);
    BackedAgain(canon, After(canon, g, a).table.Keys, b, a);
  }

  // ---------------------------------------------------------------------------------------------
  // What the rows of a run are sure to leave behind
  // ---------------------------------------------------------------------------------------------

  lemma {:induction false} RefIsKnown(canon: Canon, g: Graph, rows: seq<Row>, row: Row, ref: Ref)
    requires row in rows && ref in EntityRefs(row)
    ensures KeyOf(canon, ref) in After(canon, g, rows).table
  {
    var i :| 0 <= i < |EntityRefs(row)| && EntityRefs(row)[i] == ref;
    var o := SaidBy(canon)(row)[i];
    assert o.key == KeyOf(canon, ref);
    FlatMeans(rows, SaidBy(canon), o);
    ObservedAllMeans(g.table, Flat(rows, SaidBy(canon)), o.key);
  }

  /** Every entity a row names, by a reference or a standard field, is in the graph afterwards. */
  lemma {:induction false} MentionsAreKnown(canon: Canon, g: Graph, rows: seq<Row>, row: Row, ref: Ref)
    requires row in rows && ref in row.refs + Candidates(row) && !Blank(ref.value)
    ensures KeyOf(canon, ref) in After(canon, g, rows).table
  {
    var clean := Ref(ref.kind, Strip(ref.value));
    StripBlank(ref.value);
    EntityRefsMean(row);
    StripTwice(ref.value);
    RefIsKnown(canon, g, rows, row, clean);
  }

  lemma {:induction false} ObservedRef(canon: Canon, row: Row, refs: seq<Ref>, o: Observation) returns (ref: Ref)
    requires o in Observations(canon, row, refs)
    ensures ref in refs && o.key == KeyOf(canon, ref)
  {
    var i :| 0 <= i < |refs| && Observations(canon, row, refs)[i] == o;
    ref := refs[i];
  }

  /** Conversely, a new entity is named by some row. */
  lemma {:induction false} EntityComesFrom(canon: Canon, g: Graph, rows: seq<Row>, key: Key)
    returns (row: Row, ref: Ref)
    requires key in After(canon, g, rows).table && key !in g.table
    ensures row in rows && ref in EntityRefs(row) && key == KeyOf(canon, ref)
  {
    var said := Flat(rows, SaidBy(canon));
    ObservedAllMeans(g.table, said, key);
    var o :| o in said && o.key == key;
    FlatMeans(rows, SaidBy(canon), o);
    row :| row in rows && o in SaidBy(canon)(row);
    ref := ObservedRef(canon, row, EntityRefs(row), o);
  }

  /** A new edge is derived from the row that is its evidence. */
  lemma {:induction false} EdgeComesFrom(canon: Canon, g: Graph, rows: seq<Row>, e: Edge) returns (row: Row)
    requires e in After(canon, g, rows).edges && e !in g.edges
    ensures row in rows && e.evidence == row.id && e.link in DeriveEdges(canon, row, After(canon, g, rows).table.Keys)
  {
    var backing := BackedBy(canon, After(canon, g, rows).table.Keys);
    EdgesAfterMeans(g.edges, Flat(rows, backing));
    FlatMeans(rows, backing, e);
    row :| row in rows && e in backing(row);
  }

  /** So a field that is not blank is found when the edges are derived. */
  lemma {:induction false} FieldIsFound(canon: Canon, g: Graph, rows: seq<Row>, row: Row, ref: Ref)
    requires row in rows && ref in row.refs + Candidates(row) && !Blank(ref.value)
    ensures Find(canon, After(canon, g, rows).table.Keys, ref.kind, ref.value) == Some(KeyOf(canon, ref))
  {
    MentionsAreKnown(canon, g, rows, row, ref);
  }

  lemma {:induction false} LinkIsStored(canon: Canon, g: Graph, rows: seq<Row>, row: Row, link: Link)
    requires row in rows && link in DeriveEdges(canon, row, After(canon, g, rows).table.Keys)
    ensures Edge(link, row.id) in After(canon, g, rows).edges
  {
    var known := After(canon, g, rows).table.Keys;
    var links := DeriveEdges(canon, row, known);
    var i :| 0 <= i < |links| && links[i] == link;
    assert BackedBy(canon, known)(row)[i] == Edge(link, row.id);
    FlatMeans(rows, BackedBy(canon, known), Edge(link, row.id));
    EdgesAfterMeans(g.edges, Flat(rows, BackedBy(canon, known)));
  }

  /** No other row of the run has this row's id. */
  predicate HasOwnId(rows: seq<Row>, row: Row) {
    row in rows && forall x :: x in rows && x.id == row.id ==> x == row
  }

  /** The new edges with a row as their evidence are exactly the derived ones. */
  lemma {:induction false} NewEdgesOf(canon: Canon, g: Graph, rows: seq<Row>, row: Row, e: Edge)
    requires HasOwnId(rows, row) && e.evidence == row.id && e !in g.edges
    ensures e in After(canon, g, rows).edges <==> e.link in DeriveEdges(canon, row, After(canon, g, rows).table.Keys)
  {
    if e in After(canon, g, rows).edges {
      var x := EdgeComesFrom(canon, g, rows, e);
    }
    if e.link in DeriveEdges(canon, row, After(canon, g, rows).table.Keys) {
      LinkIsStored(canon, g, rows, row, e.link);
    }
  }

  /** Some mention that is not blank means this entity. */
  ghost predicate Means(canon: Canon, mentions: seq<Ref>, key: Key) {
    exists m :: m in mentions && !Blank(m.value) && KeyOf(canon, m) == key
  }

  ghost predicate Names(canon: Canon, row: Row, key: Key) {
    Means(canon, row.refs + Candidates(row), key)
  }

  /** The field is given, and its entity is in the graph already or named by a row of the run. */
  ghost predicate IsNamed(canon: Canon, g: Graph, rows: seq<Row>, ref: Ref) {
    ref.value != ""
    && (KeyOf(canon, ref) in g.table || exists row :: row in rows && Names(canon, row, KeyOf(canon, ref)))
  }

  /** What the edges of a run look up is found exactly if some row of the run, or an earlier one, names it. */
  lemma {:induction false} FoundExactly(canon: Canon, g: Graph, rows: seq<Row>, ref: Ref)
    ensures Find(canon, After(canon, g, rows).table.Keys, ref.kind, ref.value)
         == if IsNamed(canon, g, rows, ref) then Some(KeyOf(canon, ref)) else None
  {
    var key := KeyOf(canon, ref);
    ObservedAllMeans(g.table, Flat(rows, SaidBy(canon)), key);
    if key in After(canon, g, rows).table && key !in g.table {
      var row, clean := EntityComesFrom(canon, g, rows, key);
      EntityRefsMean(row);
      var m :| m in row.refs + Candidates(row) && m.kind == clean.kind && Strip(m.value) == clean.value;
      StripTwice(m.value);
      StripBlank(m.value);
      assert Names(canon, row, key);
    } else if ref.value != "" && key !in After(canon, g, rows).table {
      forall row | row in rows
        ensures !Names(canon, row, key)
      {
        if Names(canon, row, key) {
          var m :| m in row.refs + Candidates(row) && !Blank(m.value) && KeyOf(canon, m) == key;
          MentionsAreKnown(canon, g, rows, row, m);
        }
      }
    }
  }

  lemma {:induction false} LoginIsDerived(canon: Canon, row: Row, known: set<Key>, user: Key, host: Key)
    requires row.kind == AuthEvent && (row.data.outcome == "success" || row.data.outcome == "failure")
    requires Find(canon, known, User, row.data.user) == Some(user)
    requires Find(canon, known, Host, row.data.host) == Some(host)
    ensures Link(user, host, LoginRelation(row.data)) in DeriveEdges(canon, row, known)
  {
    var links := AuthLinks(canon, known, row.data);
    assert links[0] == Link(user, host, LoginRelation(row.data));
    assert DeriveEdges(canon, row, known) == links;
  }

  function LoginRelation(d: Data): Relation {
    if d.outcome == "success" then AuthenticatedTo else FailedAuthTo
  }

  /** Every login attempt that names its user and host leaves the edge that tells its outcome. */
  lemma {:induction false} LoginsAreLinked(canon: Canon, g: Graph, rows: seq<Row>, row: Row)
    requires row in rows && row.kind == AuthEvent && (row.data.outcome == "success" || row.data.outcome == "failure")
    requires !Blank(row.data.user) && !Blank(row.data.host)
    ensures var user, host := KeyOf(canon, Ref(User, row.data.user)), KeyOf(canon, Ref(Host, row.data.host));
            Edge(Link(user, host, LoginRelation(row.data)), row.id) in After(canon, g, rows).edges
  {
    FieldIsFound(canon, g, rows, row, Ref(User, row.data.user));
    FieldIsFound(canon, g, rows, row, Ref(Host, row.data.host));
    var user, host := KeyOf(canon, Ref(User, row.data.user)), KeyOf(canon, Ref(Host, row.data.host));
    LoginIsDerived(canon, row, After(canon, g, rows).table.Keys, user, host);
    LinkIsStored(canon, g, rows, row, Link(user, host, LoginRelation(row.data)));
  }

  lemma {:induction false} FlowIsDerived(canon: Canon, row: Row, known: set<Key>, src: Key, dst: Key)
    requires row.kind == NetworkFlow
    requires Find(canon, known, Ip, row.data.srcIp) == Some(src) && Find(canon, known, Ip, row.data.dstIp) == Some(dst)
    ensures Link(src, dst, Contacted) in DeriveEdges(canon, row, known)
  {
    var links := FlowLinks(canon, known, row.data);
    assert links[0] == Link(src, dst, Contacted);
    assert DeriveEdges(canon, row, known) == links;
  }

  lemma {:induction false} FlowsAreLinked(canon: Canon, g: Graph, rows: seq<Row>, row: Row)
    requires row in rows && row.kind == NetworkFlow && !Blank(row.data.srcIp) && !Blank(row.data.dstIp)
    ensures var src, dst := KeyOf(canon, Ref(Ip, row.data.srcIp)), KeyOf(canon, Ref(Ip, row.data.dstIp));
            Edge(Link(src, dst, Contacted), row.id) in After(canon, g, rows).edges
  {
    FieldIsFound(canon, g, rows, row, Ref(Ip, row.data.srcIp));
    FieldIsFound(canon, g, rows, row, Ref(Ip, row.data.dstIp));
    var src, dst := KeyOf(canon, Ref(Ip, row.data.srcIp)), KeyOf(canon, Ref(Ip, row.data.dstIp));
    FlowIsDerived(canon, row, After(canon, g, rows).table.Keys, src, dst);
    LinkIsStored(canon, g, rows, row, Link(src, dst, Contacted));
  }

  lemma {:induction false} AnswerIsDerived(canon: Canon, row: Row, known: set<Key>, i: nat, domain: Key, answer: Key)
    requires row.kind == DnsQuery && i < |row.data.answers|
             && Find(canon, known, Domain, row.data.query) == Some(domain)
    requires Find(canon, known, Ip, row.data.answers[i]) == Some(answer)
    ensures Link(domain, answer, ResolvesTo) in DeriveEdges(canon, row, known)
  {
    FanMeans(canon, known, Some(domain), Ip, row.data.answers, ResolvesTo, Link(domain, answer, ResolvesTo));
    var links := DnsLinks(canon, known, row.data);
    assert Link(domain, answer, ResolvesTo) in links;
    assert DeriveEdges(canon, row, known) == links;
  }

  /** Every address a name was resolved to is linked with it. */
  lemma {:induction false} AnswersAreLinked(canon: Canon, g: Graph, rows: seq<Row>, row: Row, i: nat)
    requires row in rows && row.kind == DnsQuery && i < |row.data.answers|
    requires !Blank(row.data.query) && !Blank(row.data.answers[i])
    ensures var domain, answer := KeyOf(canon, Ref(Domain, row.data.query)), KeyOf(canon, Ref(Ip, row.data.answers[i]));
            Edge(Link(domain, answer, ResolvesTo), row.id) in After(canon, g, rows).edges
  {
    assert IpRefs(row.data.answers)[i] == Ref(Ip, row.data.answers[i]);
    FieldIsFound(canon, g, rows, row, Ref(Domain, row.data.query));
    FieldIsFound(canon, g, rows, row, Ref(Ip, row.data.answers[i]));
    var domain, answer := KeyOf(canon, Ref(Domain, row.data.query)), KeyOf(canon, Ref(Ip, row.data.answers[i]));
    AnswerIsDerived(canon, row, After(canon, g, rows).table.Keys, i, domain, answer);
    LinkIsStored(canon, g, rows, row, Link(domain, answer, ResolvesTo));
  }

  lemma {:induction false} FallbackMeans(canon: Canon, known: set<Key>, refs: seq<Ref>, link: Link)
    requires forall ref :: ref in refs ==> ref.value != "" && KeyOf(canon, ref) in known
    ensures link in FallbackLinks(canon, known, refs) <==>
            && |refs| == 2 && KeyOf(canon, refs[0]) != KeyOf(canon, refs[1])
            && link == Link(KeyOf(canon, refs[0]), KeyOf(canon, refs[1]), AssociatedWith)
  {
  }

  lemma {:induction false} FanOfNone(canon: Canon, known: set<Key>, kind: EntityType, values: seq<string>,
                                     relation: Relation)
    ensures Fan(canon, known, None, kind, values, relation) == []
  {
    if values != [] {
      FanOfNone(canon, known, kind, values[..|values| - 1], relation);
    }
  }

  lemma {:induction false} UnqueriedHasNoLinks(canon: Canon, d: Data, known: set<Key>)
    requires d.query == ""
    ensures DnsLinks(canon, known, d) == []
  {
    FanOfNone(canon, known, Ip, d.answers, ResolvesTo);
    assert Find(canon, known, Domain, d.query) == None;
  }

  lemma {:induction false} UnqueriedFallsBack(canon: Canon, row: Row, known: set<Key>)
    requires row.kind == DnsQuery && row.data.query == ""
    ensures DeriveEdges(canon, row, known) == FallbackLinks(canon, known, EntityRefs(row))
  {
    UnqueriedHasNoLinks(canon, row.data, known);
    assert KindLinks(canon, row, known) == [];
  }

  /** A DNS row without a query is left to the fallback: its two entities are associated if it names exactly two. */
  lemma {:induction false} UnqueriedIsLinkedExactly(canon: Canon, g: Graph, rows: seq<Row>, row: Row, e: Edge)
    requires HasOwnId(rows, row) && row.kind == DnsQuery && row.data.query == ""
    requires e.evidence == row.id && e !in g.edges
    ensures var refs := EntityRefs(row);
            e in After(canon, g, rows).edges <==>
            && |refs| == 2 && KeyOf(canon, refs[0]) != KeyOf(canon, refs[1])
            && e.link == Link(KeyOf(canon, refs[0]), KeyOf(canon, refs[1]), AssociatedWith)
  {
    var known := After(canon, g, rows).table.Keys;
    NewEdgesOf(canon, g, rows, row, e);
    EntityRefsMean(row);
    forall ref | ref in EntityRefs(row)
      ensures ref.value != "" && KeyOf(canon, ref) in known
    {
      RefIsKnown(canon, g, rows, row, ref);
    }
    UnqueriedFallsBack(canon, row, known);
    FallbackMeans(canon, known, EntityRefs(row), e.link);
  }

  /**
   The DNS row of a captured packet (src/acip/tools/pcap_parser.py): it references the name and the source address, and
   records the client but no query.
   */
  predicate IsCapturedDns(row: Row, name: string, src: string, client: string) {
    var d := row.data;
    && row.kind == DnsQuery && row.refs == [Ref(Domain, name), Ref(Ip, src)] && d.clientIp == client
    && d.query == "" && d.answers == [] && d.host == "" && d.targetHost == "" && d.user == "" && d.targetUser == ""
    && d.sourceIp == "" && d.srcIp == "" && d.dstIp == ""
  }

  lemma {:induction false} CapturedMentions(row: Row, name: string, src: string, client: string)
    requires IsCapturedDns(row, name, src, client) && client != ""
    ensures row.refs + Candidates(row) == [Ref(Domain, name), Ref(Ip, src), Ref(Ip, client)]
  {
    assert Candidates(row) == [Ref(Ip, client)];
  }

  lemma {:induction false} FirstsAdd(mentions: seq<Ref>, i: nat, next: seq<Ref>, before: seq<Ref>, ref: Ref)
    requires i < |mentions| && next == mentions[..i + 1] && Firsts(Cleaned(mentions[..i]), {}) == before
    requires ref.kind == mentions[i].kind && ref.value == Strip(mentions[i].value) != ""
    ensures Firsts(Cleaned(next), {}) == if ref in before then before else before + [ref]
  {
    FirstsNext(mentions, i);
  }

  lemma {:induction false} FirstsOfTwo(mentions: seq<Ref>, a: Ref, b: Ref)
    requires |mentions| > 1 && a.kind == mentions[0].kind && a.value == Strip(mentions[0].value) != ""
    requires b.kind == mentions[1].kind && b.value == Strip(mentions[1].value) != ""
    requires a != b
    ensures Firsts(Cleaned(mentions[..2]), {}) == [a, b]
  {
    assert mentions[..0] == [];
    FirstsAdd(mentions, 0, mentions[..1], [], a);
    FirstsAdd(mentions, 1, mentions[..2], [a], b);
  }

  lemma {:induction false} FirstsOfThree(mentions: seq<Ref>, a: Ref, b: Ref, c: Ref)
    requires |mentions| == 3 && a != b && a != c && Firsts(Cleaned(mentions[..2]), {}) == [a, b]
    requires c.kind == mentions[2].kind && c.value == Strip(mentions[2].value) != ""
    ensures Firsts(Cleaned(mentions), {}) == [a, b] + if c == b then [] else [c]
  {
    FirstsAdd(mentions, 2, mentions, [a, b], c);
  }

  lemma {:induction false} CapturedRefs(row: Row, name: string, src: string, client: string)
    requires IsCapturedDns(row, name, src, client) && !Blank(name)
    requires Strip(src) == src != "" && Strip(client) == client != ""
    ensures EntityRefs(row) == [Ref(Domain, Strip(name)), Ref(Ip, src)]
                               + if client == src then [] else [Ref(Ip, client)]
  {
    StripBlank(name);
    CapturedMentions(row, name, src, client);
    FirstsOfTwo(row.refs + Candidates(row), Ref(Domain, Strip(name)), Ref(Ip, src));
    FirstsOfThree(row.refs + Candidates(row), Ref(Domain, Strip(name)), Ref(Ip, src), Ref(Ip, client));
  }

  /** A captured packet associates the name with the sender exactly if the sender is the client, as for a request. */
  lemma {:induction false} CapturedDnsIsLinkedExactly(canon: Canon, g: Graph, rows: seq<Row>, row: Row,
                                                      name: string, src: string, client: string, e: Edge)
    requires HasOwnId(rows, row) && IsCapturedDns(row, name, src, client) && !Blank(name)
    requires Strip(src) == src != "" && Strip(client) == client != ""
    requires e.evidence == row.id && e !in g.edges
    ensures e in After(canon, g, rows).edges <==>
            && src == client
            && e.link == Link(KeyOf(canon, Ref(Domain, name)), KeyOf(canon, Ref(Ip, src)), AssociatedWith)
  {
    CapturedRefs(row, name, src, client);
    StripTwice(name);
    UnqueriedIsLinkedExactly(canon, g, rows, row, e);
  }

  predicate IsVerdict(relation: Relation) {
    relation == FlaggedBy || relation == EvaluatedBy
  }

  lemma {:induction false} VerdictIsDerived(canon: Canon, row: Row, known: set<Key>, indicator: Key, source: Key)
    requires row.kind == ThreatIntel && indicator != source
    requires Find(canon, known, VerdictRef(row.data).kind, VerdictRef(row.data).value) == Some(indicator)
    requires Find(canon, known, Host, row.data.source) == Some(source)
    ensures Link(indicator, source, VerdictRelation(row.data)) in DeriveEdges(canon, row, known)
  {
    var links := IntelLinks(canon, known, row.data);
    assert links[0] == Link(indicator, source, VerdictRelation(row.data));
    assert DeriveEdges(canon, row, known) == links;
  }

  /** A verdict is stored if its indicator is looked up under the type it is recorded under. */
  lemma {:induction false} VerdictsAreLinked(canon: Canon, g: Graph, rows: seq<Row>, row: Row)
    requires row in rows && row.kind == ThreatIntel && !Blank(row.data.indicator) && !Blank(row.data.source)
    requires RecordedKind(row.data) == VerdictRef(row.data).kind
    ensures var indicator, source := KeyOf(canon, VerdictRef(row.data)), KeyOf(canon, Ref(Host, row.data.source));
            Edge(Link(indicator, source, VerdictRelation(row.data)), row.id) in After(canon, g, rows).edges
  {
    FieldIsFound(canon, g, rows, row, VerdictRef(row.data));
    FieldIsFound(canon, g, rows, row, Ref(Host, row.data.source));
    var indicator, source := KeyOf(canon, VerdictRef(row.data)), KeyOf(canon, Ref(Host, row.data.source));
    VerdictIsDerived(canon, row, After(canon, g, rows).table.Keys, indicator, source);
    LinkIsStored(canon, g, rows, row, Link(indicator, source, VerdictRelation(row.data)));
  }

  /** The edge a verdict asks for. */
  function VerdictEdge(canon: Canon, row: Row): Edge {
    Edge(Link(KeyOf(canon, VerdictRef(row.data)), KeyOf(canon, Ref(Host, row.data.source)), VerdictRelation(row.data)),
         row.id)
  }

  lemma {:induction false} VerdictMeans(canon: Canon, row: Row, known: set<Key>, link: Link)
    requires row.kind == ThreatIntel && link in DeriveEdges(canon, row, known) && IsVerdict(link.relation)
    ensures Find(canon, known, VerdictRef(row.data).kind, VerdictRef(row.data).value) == Some(link.src)
    ensures Find(canon, known, Host, row.data.source) == Some(link.dst) && link.relation == VerdictRelation(row.data)
  {
    var indicator := Find(canon, known, VerdictRef(row.data).kind, VerdictRef(row.data).value);
    if link in Fan(canon, known, indicator, Malware, row.data.tags, AssociatedWith) {
      FanMeans(canon, known, indicator, Malware, row.data.tags, AssociatedWith, link);
    }
  }

  /**
   A verdict gets its edge exactly if both the indicator, as the edges look it up, and the source are named by a row of
   the run or an earlier one; and it gets no other verdict edge.
   */
  lemma {:induction false} VerdictIsLinkedExactly(canon: Canon, g: Graph, rows: seq<Row>, row: Row, e: Edge)
    requires HasOwnId(rows, row) && row.kind == ThreatIntel
    requires e.evidence == row.id && e !in g.edges && IsVerdict(e.link.relation)
    ensures e in After(canon, g, rows).edges <==>
            && e == VerdictEdge(canon, row)
            && IsNamed(canon, g, rows, VerdictRef(row.data)) && IsNamed(canon, g, rows, Ref(Host, row.data.source))
  {
    var known := After(canon, g, rows).table.Keys;
    NewEdgesOf(canon, g, rows, row, e);
    FoundExactly(canon, g, rows, VerdictRef(row.data));
    FoundExactly(canon, g, rows, Ref(Host, row.data.source));
    if e.link in DeriveEdges(canon, row, known) {
      VerdictMeans(canon, row, known, e.link);
    } else if IsNamed(canon, g, rows, VerdictRef(row.data)) && IsNamed(canon, g, rows, Ref(Host, row.data.source)) {
      VerdictIsDerived(canon, row, known, KeyOf(canon, VerdictRef(row.data)), KeyOf(canon, Ref(Host, row.data.source)));
    }
  }

  const NO_GRAPH := Graph(map[], [])

  ghost predicate NamesRef(canon: Canon, row: Row, ref: Ref) {
    ref.value != "" && Names(canon, row, KeyOf(canon, ref))
  }

  ghost predicate HasVerdict(edges: seq<Edge>) {
    exists e :: e in edges && IsVerdict(e.link.relation)
  }

  ghost predicate HasVerdictEdge(canon: Canon, row: Row) {
    HasVerdict(After(canon, NO_GRAPH, [row]).edges)
  }

  lemma {:induction false} NamedAlone(canon: Canon, row: Row, ref: Ref)
    ensures IsNamed(canon, NO_GRAPH, [row], ref) <==> NamesRef(canon, row, ref)
  {
    assert row in [row];
  }

  lemma {:induction false} LoneVerdictIsNamed(canon: Canon, row: Row, e: Edge)
    requires row.kind == ThreatIntel && e.evidence == row.id && IsVerdict(e.link.relation)
    ensures e in After(canon, NO_GRAPH, [row]).edges <==>
            && e == VerdictEdge(canon, row)
            && NamesRef(canon, row, VerdictRef(row.data)) && NamesRef(canon, row, Ref(Host, row.data.source))
  {
    NamedAlone(canon, row, VerdictRef(row.data));
    NamedAlone(canon, row, Ref(Host, row.data.source));
    assert HasOwnId([row], row);
    VerdictIsLinkedExactly(canon, NO_GRAPH, [row], row, e);
  }

  lemma {:induction false} LoneVerdictIsUnique(canon: Canon, row: Row, e: Edge)
    requires row.kind == ThreatIntel && e in After(canon, NO_GRAPH, [row]).edges && IsVerdict(e.link.relation)
    ensures e == VerdictEdge(canon, row)
  {
    LoneEvidence(canon, NO_GRAPH, [row], row, e);
    LoneVerdictIsNamed(canon, row, e);
  }

  lemma {:induction false} LoneEvidence(canon: Canon, g: Graph, rows: seq<Row>, row: Row, e: Edge)
    requires forall x :: x in rows ==> x == row
    requires e in After(canon, g, rows).edges && e !in g.edges
    ensures e.evidence == row.id
  {
    var x := EdgeComesFrom(canon, g, rows, e);
  }

  lemma {:induction false} HasOnly(edges: seq<Edge>, verdict: Edge)
    requires IsVerdict(verdict.link.relation)
    requires forall e :: e in edges && IsVerdict(e.link.relation) ==> e == verdict
    ensures HasVerdict(edges) <==> verdict in edges
  {
  }

  /** On its own, a verdict gets an edge exactly if its row names both ends. */
  lemma {:induction false} LoneVerdictIsLinkedExactly(canon: Canon, row: Row)
    requires row.kind == ThreatIntel
    ensures HasVerdictEdge(canon, row)
            <==> NamesRef(canon, row, VerdictRef(row.data)) && NamesRef(canon, row, Ref(Host, row.data.source))
  {
    LoneVerdictIsNamed(canon, row, VerdictEdge(canon, row));
    forall e | e in After(canon, NO_GRAPH, [row]).edges && IsVerdict(e.link.relation)
      ensures e == VerdictEdge(canon, row)
    {
      LoneVerdictIsUnique(canon, row, e);
    }
    HasOnly(After(canon, NO_GRAPH, [row]).edges, VerdictEdge(canon, row));
  }

  /** A row that names nothing but, possibly, the indicator and the source of a verdict. */
  predicate OnlyVerdict(row: Row) {
    var d := row.data;
    && row.kind == ThreatIntel && row.refs == []
    && d.host == "" && d.targetHost == "" && d.user == "" && d.targetUser == ""
    && d.sourceIp == "" && d.clientIp == "" && d.srcIp == "" && d.dstIp == ""
  }

  /** Indicator and source are given, and both look-ups agree on the type of the indicator. */
  predicate VerdictIsRecorded(d: Data) {
    !Blank(d.indicator) && !Blank(d.source) && RecordedKind(d) == VerdictRef(d).kind
  }

  function VerdictMentions(d: Data): seq<Ref> {
    Given(RecordedKind(d), d.indicator) + Given(Host, d.source)
  }

  lemma {:induction false} BareMentions(row: Row)
    requires OnlyVerdict(row)
    ensures row.refs + Candidates(row) == VerdictMentions(row.data)
  {
  }

  lemma {:induction false} BareEndsAreNamed(canon: Canon, d: Data)
    ensures d.source != "" && Means(canon, VerdictMentions(d), KeyOf(canon, Ref(Host, d.source))) <==> !Blank(d.source)
    ensures VerdictRef(d).value != "" && Means(canon, VerdictMentions(d), KeyOf(canon, VerdictRef(d)))
            <==> !Blank(d.indicator) && RecordedKind(d) == VerdictRef(d).kind
  {
    var mentions, recorded := VerdictMentions(d), Ref(RecordedKind(d), d.indicator);
    assert forall m :: m in mentions <==>
      (d.indicator != "" && m == recorded) || (d.source != "" && m == Ref(Host, d.source));
    if !Blank(d.source) {
      assert Ref(Host, d.source) in mentions;
    }
    if !Blank(d.indicator) {
      assert recorded in mentions;
    }
  }

  /**
   The look-up of a verdict's indicator falls back on fields the recording does not read: another type, and the query in
   place of a missing indicator. Without references, a verdict gets an edge exactly if neither is needed.
   */
  lemma {:induction false} BareVerdictIsLinkedExactly(canon: Canon, row: Row)
    requires OnlyVerdict(row)
    ensures HasVerdictEdge(canon, row) <==> VerdictIsRecorded(row.data)
  {
    LoneVerdictIsLinkedExactly(canon, row);
    BareMentions(row);
    BareEndsAreNamed(canon, row.data);
  }

  /**
   A domain whose type is given as `entity_type` only is recorded as an IP address, and its verdict loses its edge.
   */
  lemma {:induction false} VerdictCanBeLost(canon: Canon, row: Row)
    requires OnlyVerdict(row) && row.data.indicator == "evil.example" && row.data.source == "feed"
    requires row.data.indicatorType == None && row.data.entityType == "domain"
    ensures !HasVerdictEdge(canon, row)
  {
    assert Lower("ip") == "ip";
    assert Lower("domain") == "domain" && |Lower("domain")| == 6;
    BareVerdictIsLinkedExactly(canon, row);
  }

  /** A verdict that gives its domain as a query is looked up by the query, which no row of this kind records. */
  lemma {:induction false} QueryVerdictIsLost(canon: Canon, row: Row)
    requires OnlyVerdict(row) && row.data.indicator == "" && row.data.query == "evil.example"
             && row.data.source == "feed"
    requires row.data.indicatorType == Some("domain")
    ensures RecordedKind(row.data) == VerdictRef(row.data).kind && VerdictRef(row.data).value == "evil.example"
    ensures !HasVerdictEdge(canon, row)
  {
    BareVerdictIsLinkedExactly(canon, row);
  }

  // ---------------------------------------------------------------------------------------------
  // Which edges a row leaves, kind by kind
  // ---------------------------------------------------------------------------------------------

  /** Both fields are given and their entities known, and this is the edge between them. */
  ghost predicate Joins(canon: Canon, g: Graph, rows: seq<Row>, src: Ref, dst: Ref, relation: Relation, link: Link) {
    && IsNamed(canon, g, rows, src) && IsNamed(canon, g, rows, dst)
    && link == Link(KeyOf(canon, src), KeyOf(canon, dst), relation)
  }

  ghost predicate LoginLinks(canon: Canon, g: Graph, rows: seq<Row>, d: Data, link: Link) {
    || (d.outcome == "failure" && Joins(canon, g, rows, Ref(User, d.user), Ref(Host, d.host), FailedAuthTo, link))
    || (d.outcome == "success" && Joins(canon, g, rows, Ref(User, d.user), Ref(Host, d.host), AuthenticatedTo, link))
    || Joins(canon, g, rows, Ref(Ip, d.sourceIp), Ref(Host, d.host), ConnectedFrom, link)
    || (Joins(canon, g, rows, Ref(User, d.user), Ref(User, d.targetUser), AssociatedWith, link) && link.src != link.dst)
    || Joins(canon, g, rows, Ref(Ip, d.sourceIp), Ref(Port, d.sourcePort), ConnectedToPort, link)
  }

  ghost predicate RequestLinks(canon: Canon, g: Graph, rows: seq<Row>, d: Data, link: Link) {
    var client := Ref(Ip, if d.clientIp == "" then d.sourceIp else d.clientIp);
    || Joins(canon, g, rows, client, Ref(Host, d.host), ConnectedFrom, link)
    || Joins(canon, g, rows, client, Ref(Url, d.path), Contacted, link)
    || Joins(canon, g, rows, Ref(User, d.user), Ref(Host, d.host), AuthenticatedTo, link)
  }

  ghost predicate TrafficLinks(canon: Canon, g: Graph, rows: seq<Row>, d: Data, link: Link) {
    || Joins(canon, g, rows, Ref(Ip, d.srcIp), Ref(Ip, d.dstIp), Contacted, link)
    || Joins(canon, g, rows, Ref(Ip, d.dstIp), Ref(Port, d.dstPort), ListensOn, link)
  }

  ghost predicate QueryLinks(canon: Canon, g: Graph, rows: seq<Row>, d: Data, link: Link) {
    || Joins(canon, g, rows, Ref(Ip, d.clientIp), Ref(Domain, d.query), Contacted, link)
    || exists a :: a in d.answers && Joins(canon, g, rows, Ref(Domain, d.query), Ref(Ip, a), ResolvesTo, link)
  }

  /** What a row of threat intelligence is about: the indicator, or else the query, under the type given for it. */
  ghost predicate IsSubject(d: Data, ref: Ref) {
    var text := if d.indicatorType.Some? && d.indicatorType.value != "" then d.indicatorType.value else d.entityType;
    var name := Lower(text);
    && ref.value == (if d.indicator == "" then d.query else d.indicator)
    && (ref.kind == Ip <==> name == "ip" || name == "ipv4" || name == "ipv6" || text == "")
    && (ref.kind == Domain <==> name == "domain")
    && (ref.kind == Ip || ref.kind == Domain || ref.kind == Hash)
  }

  ghost predicate ReputationLinks(canon: Canon, g: Graph, rows: seq<Row>, d: Data, link: Link) {
    exists subject :: IsSubject(d, subject) && SubjectLinks(canon, g, rows, d, subject, link)
  }

  ghost predicate SubjectLinks(canon: Canon, g: Graph, rows: seq<Row>, d: Data, subject: Ref, link: Link) {
    || (d.isMalicious && Joins(canon, g, rows, subject, Ref(Host, d.source), FlaggedBy, link))
    || (!d.isMalicious && Joins(canon, g, rows, subject, Ref(Host, d.source), EvaluatedBy, link))
    || exists tag :: tag in d.tags && Joins(canon, g, rows, subject, Ref(Malware, tag), AssociatedWith, link)
  }

  /** The edges a row asks for by its kind. */
  ghost predicate AsksFor(canon: Canon, g: Graph, rows: seq<Row>, row: Row, link: Link) {
    match row.kind
    case AuthEvent => LoginLinks(canon, g, rows, row.data, link)
    case WebRequest => RequestLinks(canon, g, rows, row.data, link)
    case WebAttack => RequestLinks(canon, g, rows, row.data, link)
    case NetworkFlow => TrafficLinks(canon, g, rows, row.data, link)
    case DnsQuery => QueryLinks(canon, g, rows, row.data, link)
    case ThreatIntel => ReputationLinks(canon, g, rows, row.data, link)
    case _ => false
  }

  /** The association of the two entities of a row that names exactly two. */
  ghost predicate IsPair(canon: Canon, refs: seq<Ref>, link: Link) {
    && |refs| == 2 && KeyOf(canon, refs[0]) != KeyOf(canon, refs[1])
    && link == Link(KeyOf(canon, refs[0]), KeyOf(canon, refs[1]), AssociatedWith)
  }

  lemma {:induction false} JoinsExactly(canon: Canon, g: Graph, rows: seq<Row>, src: Ref, dst: Ref, relation: Relation,
                                        link: Link)
    ensures var known := After(canon, g, rows).table.Keys;
            link in Connect(Find(canon, known, src.kind, src.value), Find(canon, known, dst.kind, dst.value), relation)
            <==> Joins(canon, g, rows, src, dst, relation, link)
  {
    FoundExactly(canon, g, rows, src);
    FoundExactly(canon, g, rows, dst);
  }

  lemma {:induction false} DistinctConnect(src: Option<Key>, dst: Option<Key>, relation: Relation, link: Link)
    ensures link in ConnectDistinct(src, dst, relation) <==> link in Connect(src, dst, relation) && link.src != link.dst
  {
  }

  lemma {:induction false} LoginExactly(canon: Canon, g: Graph, rows: seq<Row>, d: Data, link: Link)
    ensures link in AuthLinks(canon, After(canon, g, rows).table.Keys, d) <==> LoginLinks(canon, g, rows, d, link)
  {
    var known := After(canon, g, rows).table.Keys;
    JoinsExactly(canon, g, rows, Ref(User, d.user), Ref(Host, d.host), FailedAuthTo, link);
    JoinsExactly(canon, g, rows, Ref(User, d.user), Ref(Host, d.host), AuthenticatedTo, link);
    JoinsExactly(canon, g, rows, Ref(Ip, d.sourceIp), Ref(Host, d.host), ConnectedFrom, link);
    JoinsExactly(canon, g, rows, Ref(User, d.user), Ref(User, d.targetUser), AssociatedWith, link);
    JoinsExactly(canon, g, rows, Ref(Ip, d.sourceIp), Ref(Port, d.sourcePort), ConnectedToPort, link);
    DistinctConnect(Find(canon, known, User, d.user), Find(canon, known, User, d.targetUser), AssociatedWith, link);
    LoginParts(canon, known, d, link);
  }

  lemma {:induction false} LoginParts(canon: Canon, known: set<Key>, d: Data, link: Link)
    ensures var user, host := Find(canon, known, User, d.user), Find(canon, known, Host, d.host);
            var src, target := Find(canon, known, Ip, d.sourceIp), Find(canon, known, User, d.targetUser);
            link in AuthLinks(canon, known, d) <==>
            || (d.outcome == "failure" && link in Connect(user, host, FailedAuthTo))
            || (d.outcome == "success" && link in Connect(user, host, AuthenticatedTo))
            || link in Connect(src, host, ConnectedFrom)
            || link in ConnectDistinct(user, target, AssociatedWith)
            || link in Connect(src, Find(canon, known, Port, d.sourcePort), ConnectedToPort)
  {
    assert "failure"[0] == 'f' && "success"[0] == 's';
  }

  lemma {:induction false} RequestExactly(canon: Canon, g: Graph, rows: seq<Row>, d: Data, link: Link)
    ensures link in WebLinks(canon, After(canon, g, rows).table.Keys, d) <==> RequestLinks(canon, g, rows, d, link)
  {
    var client := Ref(Ip, if d.clientIp == "" then d.sourceIp else d.clientIp);
    JoinsExactly(canon, g, rows, client, Ref(Host, d.host), ConnectedFrom, link);
    JoinsExactly(canon, g, rows, client, Ref(Url, d.path), Contacted, link);
    JoinsExactly(canon, g, rows, Ref(User, d.user), Ref(Host, d.host), AuthenticatedTo, link);
  }

  lemma {:induction false} TrafficExactly(canon: Canon, g: Graph, rows: seq<Row>, d: Data, link: Link)
    ensures link in FlowLinks(canon, After(canon, g, rows).table.Keys, d) <==> TrafficLinks(canon, g, rows, d, link)
  {
    JoinsExactly(canon, g, rows, Ref(Ip, d.srcIp), Ref(Ip, d.dstIp), Contacted, link);
    JoinsExactly(canon, g, rows, Ref(Ip, d.dstIp), Ref(Port, d.dstPort), ListensOn, link);
  }

  /** A fan of edges goes to exactly the known entities among its values. */
  lemma {:induction false} FanExactly(canon: Canon, g: Graph, rows: seq<Row>, src: Ref, kind: EntityType,
                                      values: seq<string>, relation: Relation, link: Link)
    ensures var known := After(canon, g, rows).table.Keys;
            link in Fan(canon, known, Find(canon, known, src.kind, src.value), kind, values, relation)
            <==> exists v :: v in values && Joins(canon, g, rows, src, Ref(kind, v), relation, link)
  {
    var known := After(canon, g, rows).table.Keys;
    FanMeans(canon, known, Find(canon, known, src.kind, src.value), kind, values, relation, link);
    FoundExactly(canon, g, rows, src);
    forall v
      ensures Find(canon, known, kind, v) == Some(link.dst)
              <==> IsNamed(canon, g, rows, Ref(kind, v)) && KeyOf(canon, Ref(kind, v)) == link.dst
    {
      FoundExactly(canon, g, rows, Ref(kind, v));
    }
  }

  lemma {:induction false} QueryExactly(canon: Canon, g: Graph, rows: seq<Row>, d: Data, link: Link)
    ensures link in DnsLinks(canon, After(canon, g, rows).table.Keys, d) <==> QueryLinks(canon, g, rows, d, link)
  {
    JoinsExactly(canon, g, rows, Ref(Ip, d.clientIp), Ref(Domain, d.query), Contacted, link);
    FanExactly(canon, g, rows, Ref(Domain, d.query), Ip, d.answers, ResolvesTo, link);
  }

  lemma {:induction false} SubjectIsVerdictRef(d: Data, ref: Ref)
    ensures IsSubject(d, ref) <==> ref == VerdictRef(d)
  {
    assert Lower("ip") == "ip";
    assert |Lower("")| == 0 && |"ip"| == 2 && |"ipv4"| == |"ipv6"| == 4 && |"domain"| == 6;
  }

  lemma {:induction false} ReputationExactly(canon: Canon, g: Graph, rows: seq<Row>, d: Data, link: Link)
    ensures link in IntelLinks(canon, After(canon, g, rows).table.Keys, d) <==> ReputationLinks(canon, g, rows, d, link)
  {
    var known, subject := After(canon, g, rows).table.Keys, VerdictRef(d);
    JoinsExactly(canon, g, rows, subject, Ref(Host, d.source), VerdictRelation(d), link);
    DistinctConnect(Find(canon, known, subject.kind, subject.value), Find(canon, known, Host, d.source),
                    VerdictRelation(d), link);
    FanExactly(canon, g, rows, subject, Malware, d.tags, AssociatedWith, link);
    assert link in IntelLinks(canon, known, d) <==> SubjectLinks(canon, g, rows, d, subject, link);
    SubjectIsVerdictRef(d, subject);
    forall ref
      ensures IsSubject(d, ref) <==> ref == subject
    {
      SubjectIsVerdictRef(d, ref);
    }
  }

  lemma {:induction false} AskedExactly(canon: Canon, g: Graph, rows: seq<Row>, row: Row, link: Link)
    ensures link in KindLinks(canon, row, After(canon, g, rows).table.Keys) <==> AsksFor(canon, g, rows, row, link)
  {
    match row.kind
    case AuthEvent => LoginExactly(canon, g, rows, row.data, link);
    case WebRequest => RequestExactly(canon, g, rows, row.data, link);
    case WebAttack => RequestExactly(canon, g, rows, row.data, link);
    case NetworkFlow => TrafficExactly(canon, g, rows, row.data, link);
    case DnsQuery => QueryExactly(canon, g, rows, row.data, link);
    case ThreatIntel => ReputationExactly(canon, g, rows, row.data, link);
    case _ =>
  }

  lemma {:induction false} PairExactly(canon: Canon, g: Graph, rows: seq<Row>, row: Row, link: Link)
    requires row in rows
    ensures link in FallbackLinks(canon, After(canon, g, rows).table.Keys, EntityRefs(row))
            <==> IsPair(canon, EntityRefs(row), link)
  {
    EntityRefsMean(row);
    forall ref | ref in EntityRefs(row)
      ensures ref.value != "" && KeyOf(canon, ref) in After(canon, g, rows).table.Keys
    {
      RefIsKnown(canon, g, rows, row, ref);
    }
    FallbackMeans(canon, After(canon, g, rows).table.Keys, EntityRefs(row), link);
  }

  /**
   The new edges of a row are exactly those its kind asks for, between the fields named and as far as their entities are
   known; and if there is none, the association of the two entities of a row that names exactly two.
   */
  lemma {:induction false} EdgesAreExactly(canon: Canon, g: Graph, rows: seq<Row>, row: Row, e: Edge)
    requires HasOwnId(rows, row) && e.evidence == row.id && e !in g.edges
    ensures e in After(canon, g, rows).edges <==>
            || AsksFor(canon, g, rows, row, e.link)
            || (IsPair(canon, EntityRefs(row), e.link) && forall link :: !AsksFor(canon, g, rows, row, link))
  {
    var asked := KindLinks(canon, row, After(canon, g, rows).table.Keys);
    NewEdgesOf(canon, g, rows, row, e);
    PairExactly(canon, g, rows, row, e.link);
    forall link
      ensures link in asked <==> AsksFor(canon, g, rows, row, link)
    {
      AskedExactly(canon, g, rows, row, link);
    }
    assert asked != [] ==> asked[0] in asked;
  }

  // ---------------------------------------------------------------------------------------------
  // Which entities a row names, field by field
  // ---------------------------------------------------------------------------------------------

  /** A standard field of the row's data names the entity. */
  ghost predicate IsField(row: Row, ref: Ref) {
    var d, intel := row.data, row.kind == ThreatIntel;
    match ref.kind
    case Host => ref.value == d.host || ref.value == d.targetHost || (intel && ref.value == d.source)
    case User => ref.value == d.user || ref.value == d.targetUser
    case Ip =>
      || ref.value == d.sourceIp || ref.value == d.clientIp || ref.value == d.srcIp || ref.value == d.dstIp
      || (row.kind == DnsQuery && ref.value in d.answers)
      || (intel && ref.value == d.indicator && IsRecordedAs(d, Ip))
    case Domain =>
      (row.kind == DnsQuery && ref.value == d.query) || (intel && ref.value == d.indicator && IsRecordedAs(d, Domain))
    case Hash => intel && ref.value == d.indicator && IsRecordedAs(d, Hash)
    case Url => (row.kind == WebRequest || row.kind == WebAttack) && ref.value == d.path
    case _ => false
  }

  /** The type of the indicator as the recording reads it: an address if none is given. */
  ghost predicate IsRecordedAs(d: Data, kind: EntityType) {
    var name := if d.indicatorType.Some? then Lower(d.indicatorType.value) else "ip";
    var isIp := name == "ip" || name == "ipv4" || name == "ipv6";
    if isIp then kind == Ip else if name == "domain" then kind == Domain else kind == Hash
  }

  lemma {:induction false} RecordedKindMeans(d: Data, kind: EntityType)
    ensures kind == RecordedKind(d) <==> IsRecordedAs(d, kind)
  {
    assert Lower("ip") == "ip";
  }

  lemma {:induction false} CommonFields(d: Data, ref: Ref)
    requires ref.value != ""
    ensures ref in Given(Host, d.host) + Given(Host, d.targetHost) + Given(User, d.user) + Given(User, d.targetUser)
                   + Given(Ip, d.sourceIp) + Given(Ip, d.clientIp) + Given(Ip, d.srcIp) + Given(Ip, d.dstIp)
            <==> || (ref.kind == Host && (ref.value == d.host || ref.value == d.targetHost))
                 || (ref.kind == User && (ref.value == d.user || ref.value == d.targetUser))
                 || (ref.kind == Ip && (ref.value == d.sourceIp || ref.value == d.clientIp || ref.value == d.srcIp
                                        || ref.value == d.dstIp))
  {
  }

  lemma {:induction false} AnswerFields(d: Data, ref: Ref)
    requires ref.value != ""
    ensures ref in Given(Domain, d.query) + IpRefs(d.answers)
            <==> (ref.kind == Domain && ref.value == d.query) || (ref.kind == Ip && ref.value in d.answers)
  {
    if ref.kind == Ip && ref.value in d.answers {
      var i :| 0 <= i < |d.answers| && d.answers[i] == ref.value;
      assert IpRefs(d.answers)[i] == ref;
    }
  }

  lemma {:induction false} IntelFields(d: Data, ref: Ref)
    requires ref.value != ""
    ensures ref in Given(RecordedKind(d), d.indicator) + Given(Host, d.source)
            <==> (ref.kind == Host && ref.value == d.source) || (IsRecordedAs(d, ref.kind) && ref.value == d.indicator)
  {
    RecordedKindMeans(d, ref.kind);
  }

  lemma {:induction false} CandidatesAreFields(row: Row, ref: Ref)
    requires ref.value != ""
    ensures ref in Candidates(row) <==> IsField(row, ref)
  {
    CommonFields(row.data, ref);
    AnswerFields(row.data, ref);
    IntelFields(row.data, ref);
    CandidateParts(row, ref);
  }

  lemma {:induction false} CandidateParts(row: Row, ref: Ref)
    ensures var d := row.data;
            ref in Candidates(row) <==>
            || ref in Given(Host, d.host) + Given(Host, d.targetHost) + Given(User, d.user) + Given(User, d.targetUser)
                      + Given(Ip, d.sourceIp) + Given(Ip, d.clientIp) + Given(Ip, d.srcIp) + Given(Ip, d.dstIp)
            || (row.kind == DnsQuery && ref in Given(Domain, d.query) + IpRefs(d.answers))
            || ((row.kind == WebRequest || row.kind == WebAttack) && ref in Given(Url, d.path))
            || (row.kind == ThreatIntel && ref in Given(RecordedKind(d), d.indicator) + Given(Host, d.source))
  {
  }

  /** A row names exactly its references and the standard fields of its kind, stripped, as far as they are not blank. */
  lemma {:induction false} FieldsAreExtracted(row: Row, ref: Ref)
    ensures ref in EntityRefs(row) <==>
            && ref.value != ""
            && exists m: Ref :: (m in row.refs || IsField(row, m)) && m.kind == ref.kind && Strip(m.value) == ref.value
  {
    EntityRefsMean(row);
    forall m: Ref | Strip(m.value) == ref.value && ref.value != ""
      ensures m in Candidates(row) <==> IsField(row, m)
    {
      StripBlank(m.value);
      CandidatesAreFields(row, m);
    }
    assert forall m :: m in row.refs + Candidates(row) <==> m in row.refs || m in Candidates(row);
  }
}
