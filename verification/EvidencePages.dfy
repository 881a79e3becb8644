/**
 Keyset pagination over the evidence table (src/acip/core/evidence/store.py): the four-part sort
 key with undated rows last, the cursor predicate, and what following cursors returns.
 */
module EvidencePages {
  import opened Prelude

  /** An entity as the content hash covers it: normalised, with an empty text for no role. */
  datatype Mention = Mention(kind: string, value: string, role: string)

  /**
   The content hash, taken to be injective: the intrinsic content it is computed from.  The entities are hashed in
   sorted order, so they count as a multiset.
   */
  datatype Digest = Digest(
    kind: string, sourceTool: string, observedAt: Option<int>, data: string, entities: multiset<Mention>)

  /** One stored observation.  `toolRun` is set when a deterministic tool produced it. */
  datatype Evidence = Evidence(
    id: int,
    investigation: int,
    kind: string,
    observedAt: Option<int>,
    collectedAt: int,
    contentHash: Digest,
    toolRun: Option<int>)

  /** A decoded cursor; the encoding itself (base64 of JSON) is taken to be injective. */
  datatype Cursor = Cursor(undated: bool, observedAt: Option<int>, collectedAt: int, id: int)

  datatype PageError = MalformedCursor

  datatype Page = Page(rows: seq<Evidence>, nextCursor: Option<Cursor>)

  const MAX_EVIDENCE_PAGE := 500

  type Table = seq<Evidence>

  ghost predicate UniqueIds(t: Table) {
    forall i, j :: 0 <= i < j < |t| ==> t[i].id != t[j].id
  }

  // ---------------------------------------------------------------------------------------------
  // The sort order
  // ---------------------------------------------------------------------------------------------

  /** `a` sorts before `b`: dated rows first, then by observation, collection and id. */
  predicate Precedes(a: Evidence, b: Evidence) {
    if a.observedAt.Some? != b.observedAt.Some? then a.observedAt.Some?
    else if a.observedAt != b.observedAt then a.observedAt.value < b.observedAt.value
    else if a.collectedAt != b.collectedAt then a.collectedAt < b.collectedAt
    else a.id < b.id
  }

  ghost predicate StrictlySorted(s: seq<Evidence>) {
    forall i, j :: 0 <= i < j < |s| ==> Precedes(s[i], s[j])
  }

  lemma {:induction false} PrecedesIsStrictTotalOrder(a: Evidence, b: Evidence, c: Evidence)
    ensures !Precedes(a, a)
    ensures Precedes(a, b) && Precedes(b, c) ==> Precedes(a, c)
    ensures a.id != b.id ==> (Precedes(a, b) <==> !Precedes(b, a))
  {
  }

  function CursorOf(row: Evidence): Cursor {
    Cursor(row.observedAt.None?, row.observedAt, row.collectedAt, row.id)
  }

  /** The cursor predicate, branch by branch. */
  function EvidenceAfter(cursor: Cursor, row: Evidence): Result<bool, PageError> {
    var tie := row.collectedAt > cursor.collectedAt || (row.collectedAt == cursor.collectedAt && row.id > cursor.id);
    if cursor.undated then
      Ok(row.observedAt.None? && tie)
    else if cursor.observedAt.None? then
      Err(MalformedCursor)
    else
      Ok(row.observedAt.None?
         || row.observedAt.value > cursor.observedAt.value
         || (row.observedAt.value == cursor.observedAt.value && tie))
  }

  /** The cursor of a row selects exactly the rows that sort after it. */
  lemma {:induction false} AfterIsPrecedes(last: Evidence, row: Evidence)
    ensures EvidenceAfter(CursorOf(last), row) == Ok(Precedes(last, row))
  {
  }

  // ---------------------------------------------------------------------------------------------
  // Sorting, as the database does it
  // ---------------------------------------------------------------------------------------------

  function Insert(row: Evidence, s: seq<Evidence>): seq<Evidence> {
    if s == [] || Precedes(row, s[0]) then [row] + s else [s[0]] + Insert(row, s[1..])
  }

  function OrderBy(t: Table): seq<Evidence> {
    if t == [] then [] else Insert(t[0], OrderBy(t[1..]))
  }

  lemma {:induction false} InsertSorted(row: Evidence, s: seq<Evidence>)
    requires StrictlySorted(s) && forall x :: x in s ==> x.id != row.id
    ensures StrictlySorted(Insert(row, s))
    ensures forall x :: x in Insert(row, s) <==> x == row || x in s
    ensures |Insert(row, s)| == |s| + 1
  {
    if s == [] {
    } else if Precedes(row, s[0]) {
      forall j | 0 < j < |s|
        ensures Precedes(row, s[j])
      {
        PrecedesIsStrictTotalOrder(row, s[0], s[j]);
      }
    } else {
      InsertSorted(row, s[1..]);
      PrecedesIsStrictTotalOrder(s[0], row, row);
      assert s == [s[0]] + s[1..];
      var rest := Insert(row, s[1..]);
      forall j | 0 <= j < |rest|
        ensures Precedes(s[0], rest[j])
      {
        assert rest[j] == row || rest[j] in s[1..];
      }
    }
  }

  lemma {:induction false} OrderBySorts(t: Table)
    requires UniqueIds(t)
    ensures StrictlySorted(OrderBy(t))
    ensures forall x :: x in OrderBy(t) <==> x in t
    ensures |OrderBy(t)| == |t|
  {
    if t != [] {
      OrderBySorts(t[1..]);
      assert t == [t[0]] + t[1..];
      InsertSorted(t[0], OrderBy(t[1..]));
    }
  }

  /** A strictly sorted sequence is determined by its elements. */
  lemma {:induction false} SortedUnique(a: seq<Evidence>, b: seq<Evidence>)
    requires StrictlySorted(a) && StrictlySorted(b)
    requires forall x :: x in a <==> x in b
    ensures a == b
  {
    assert a != [] ==> a[0] in b;
    assert b != [] ==> b[0] in a;
    if a != [] {
      SameHead(a, b);
      TailElements(a, b);
      SortedUnique(a[1..], b[1..]);
    }
  }

  lemma {:induction false} SameHead(a: seq<Evidence>, b: seq<Evidence>)
    requires StrictlySorted(a) && StrictlySorted(b) && a != [] && b != []
    requires forall x :: x in a <==> x in b
    ensures a[0] == b[0]
  {
    assert a[0] in b && b[0] in a;
    var i :| 0 <= i < |b| && b[i] == a[0];
    var j :| 0 <= j < |a| && a[j] == b[0];
    if i > 0 && j > 0 {
      PrecedesIsStrictTotalOrder(a[0], b[0], a[0]);
    }
  }

  lemma {:induction false} TailElements(a: seq<Evidence>, b: seq<Evidence>)
    requires StrictlySorted(a) && StrictlySorted(b) && a != [] && b != [] && a[0] == b[0]
    requires forall x :: x in a <==> x in b
    ensures forall x :: x in a[1..] <==> x in b[1..]
  {
    HeadNotInTail(a);
    HeadNotInTail(b);
    assert a == [a[0]] + a[1..] && b == [b[0]] + b[1..];
    forall x
      ensures x in a[1..] <==> x in b[1..]
    {
      assert x in a <==> x == a[0] || x in a[1..];
      assert x in b <==> x == b[0] || x in b[1..];
    }
  }

  lemma {:induction false} HeadNotInTail(a: seq<Evidence>)
    requires StrictlySorted(a) && a != []
    ensures a[0] !in a[1..]
  {
    assert !Precedes(a[0], a[0]);
  }

  // ---------------------------------------------------------------------------------------------
  // One page
  // ---------------------------------------------------------------------------------------------

  /** The rows a read is about: one investigation, optionally some kinds only. */
  predicate Matches(row: Evidence, investigation: int, kinds: Option<set<string>>) {
    row.investigation == investigation && (kinds.Some? ==> row.kind in kinds.value)
  }

  predicate IsAfter(cursor: Option<Cursor>, row: Evidence) {
    cursor.Some? ==> EvidenceAfter(cursor.value, row) == Ok(true)
  }

  function Where(t: Table, investigation: int, kinds: Option<set<string>>, cursor: Option<Cursor>): Table {
    if t == [] then []
    else
      var rest := Where(t[1..], investigation, kinds, cursor);
      if Matches(t[0], investigation, kinds) && IsAfter(cursor, t[0]) then [t[0]] + rest else rest
  }

  lemma {:induction false} WhereSelects(t: Table, investigation: int, kinds: Option<set<string>>,
                                        cursor: Option<Cursor>)
    ensures forall x :: x in Where(t, investigation, kinds, cursor) <==>
                          x in t && Matches(x, investigation, kinds) && IsAfter(cursor, x)
  {
    if t != [] {
      WhereSelects(t[1..], investigation, kinds, cursor);
      assert t == [t[0]] + t[1..];
    }
  }

  lemma {:induction false} WhereUnique(t: Table, investigation: int, kinds: Option<set<string>>, cursor: Option<Cursor>)
    requires UniqueIds(t)
    ensures UniqueIds(Where(t, investigation, kinds, cursor))
  {
    if t != [] {
      WhereUnique(t[1..], investigation, kinds, cursor);
      WhereSelects(t[1..], investigation, kinds, cursor);
      var rest := Where(t[1..], investigation, kinds, cursor);
      forall j | 0 <= j < |rest|
        ensures rest[j].id != t[0].id
      {
        assert rest[j] in t[1..];
      }
    }
  }

  /** The matching rows after the cursor, in timeline order. */
  function Timeline(t: Table, investigation: int, kinds: Option<set<string>>, cursor: Option<Cursor>): seq<Evidence> {
    OrderBy(Where(t, investigation, kinds, cursor))
  }

  lemma {:induction false} TimelineIsSorted(t: Table, investigation: int, kinds: Option<set<string>>,
                                            cursor: Option<Cursor>)
    requires UniqueIds(t)
    ensures StrictlySorted(Timeline(t, investigation, kinds, cursor))
    ensures forall x :: x in Timeline(t, investigation, kinds, cursor) <==>
                          x in t && Matches(x, investigation, kinds) && IsAfter(cursor, x)
  {
    WhereSelects(t, investigation, kinds, cursor);
    WhereUnique(t, investigation, kinds, cursor);
    OrderBySorts(Where(t, investigation, kinds, cursor));
  }

  predicate WellFormed(cursor: Option<Cursor>) {
    cursor.Some? && !cursor.value.undated ==> cursor.value.observedAt.Some?
  }

  function PageSize(limit: int): (n: nat)
    ensures 1 <= n <= MAX_EVIDENCE_PAGE
    ensures 1 <= limit <= MAX_EVIDENCE_PAGE ==> n == limit
    ensures limit < 1 ==> n == 1
    ensures limit > MAX_EVIDENCE_PAGE ==> n == MAX_EVIDENCE_PAGE
  {
    Max(1, Min(limit, MAX_EVIDENCE_PAGE))
  }

  function ListEvidence(t: Table, investigation: int, limit: int, cursor: Option<Cursor>, kinds: Option<set<string>>)
    : Result<Page, PageError>
  {
    if !WellFormed(cursor) then Err(MalformedCursor)
    else
      var size := PageSize(limit);
      var found := Timeline(t, investigation, kinds, cursor);
      var rows := found[..Min(|found|, size + 1)];
      var hasMore := |rows| > size;
      var page := rows[..Min(|rows|, size)];
      Ok(Page(page, if hasMore && page != [] then Some(CursorOf(page[|page| - 1])) else None))
  }

  /** A page is a prefix of what remains, and its cursor continues exactly where it stops. */
  lemma {:induction false} PageIsPrefix(t: Table, investigation: int, limit: int, cursor: Option<Cursor>,
                                        kinds: Option<set<string>>)
    requires WellFormed(cursor)
    ensures var found := Timeline(t, investigation, kinds, cursor);
            var page := ListEvidence(t, investigation, limit, cursor, kinds);
            && page.Ok?
            && page.value.rows == found[..Min(|found|, PageSize(limit))]
            && page.value.nextCursor == (if |found| > PageSize(limit) then Some(CursorOf(found[PageSize(limit) - 1]))
                                         else None)
  {
  }

  /** Dated rows come first, by observation; rows observed at once, or undated, by collection and then by id. */
  ghost predicate IsEarlier(a: Evidence, b: Evidence) {
    || (a.observedAt.Some? && b.observedAt.None?)
    || (a.observedAt.Some? && b.observedAt.Some? && a.observedAt.value < b.observedAt.value)
    || (a.observedAt == b.observedAt && a.collectedAt < b.collectedAt)
    || (a.observedAt == b.observedAt && a.collectedAt == b.collectedAt && a.id < b.id)
  }

  /** The row is one the read is about, and stands after the place the cursor names. */
  ghost predicate IsWanted(t: Table, investigation: int, kinds: Option<set<string>>, cursor: Option<Cursor>,
                           row: Evidence) {
    && row in t && row.investigation == investigation && (kinds.Some? ==> row.kind in kinds.value)
    && (cursor.Some? ==>
          var c := cursor.value;
          if c.undated then
            row.observedAt.None?
            && (c.collectedAt < row.collectedAt || (c.collectedAt == row.collectedAt && c.id < row.id))
          else
            IsEarlier(row.(observedAt := c.observedAt, collectedAt := c.collectedAt, id := c.id), row))
  }

  lemma {:induction false} WantedExactly(t: Table, investigation: int, kinds: Option<set<string>>,
                                         cursor: Option<Cursor>, row: Evidence)
    requires WellFormed(cursor)
    ensures row in t && Matches(row, investigation, kinds) && IsAfter(cursor, row)
            <==> IsWanted(t, investigation, kinds, cursor, row)
  {
  }

  lemma {:induction false} PrecedesExactly(a: Evidence, b: Evidence)
    ensures Precedes(a, b) <==> IsEarlier(a, b)
  {
  }

  /**
   A page holds the earliest rows wanted, in order, as many as the limit says (1 to 500 of them), and says where to go
   on exactly if it does not hold them all.  Only a dated cursor without a date is refused.
   */
  lemma {:induction false} PageMeans(t: Table, investigation: int, limit: int, cursor: Option<Cursor>,
                                     kinds: Option<set<string>>)
    requires UniqueIds(t)
    ensures var page := ListEvidence(t, investigation, limit, cursor, kinds);
            if cursor.Some? && !cursor.value.undated && cursor.value.observedAt.None? then page == Err(MalformedCursor)
            else page.Ok? && IsPage(t, investigation, limit, cursor, kinds, page.value)
  {
    if WellFormed(cursor) {
      TimelineIsSorted(t, investigation, kinds, cursor);
      var found := Timeline(t, investigation, kinds, cursor);
      forall row
        ensures row in found <==> IsWanted(t, investigation, kinds, cursor, row)
      {
        WantedExactly(t, investigation, kinds, cursor, row);
      }
      PageIsPrefix(t, investigation, limit, cursor, kinds);
      FrontIsPage(t, investigation, limit, cursor, kinds, found);
    }
  }

  lemma {:induction false} FrontIsPage(t: Table, investigation: int, limit: int, cursor: Option<Cursor>,
                                       kinds: Option<set<string>>, found: seq<Evidence>)
    requires StrictlySorted(found)
    requires forall row :: row in found <==> IsWanted(t, investigation, kinds, cursor, row)
    ensures var size := PageSize(limit);
            IsPage(t, investigation, limit, cursor, kinds, Page(found[..Min(|found|, size)],
                   if |found| > size then Some(CursorOf(found[size - 1])) else None))
  {
    var front := found[..Min(|found|, PageSize(limit))];
    FirstOfSorted(found, PageSize(limit));
    forall a, b
      ensures Precedes(a, b) <==> IsEarlier(a, b)
    {
      PrecedesExactly(a, b);
    }
    assert forall row :: row in front ==> row in found;
    assert forall row :: row in found && row !in front <==>
        IsWanted(t, investigation, kinds, cursor, row) && row !in front;
  }

  ghost predicate IsPage(t: Table, investigation: int, limit: int, cursor: Option<Cursor>, kinds: Option<set<string>>,
                         page: Page) {
    var size := if limit < 1 then 1 else if limit > MAX_EVIDENCE_PAGE then MAX_EVIDENCE_PAGE else limit;
    && (forall i, j :: 0 <= i < j < |page.rows| ==> IsEarlier(page.rows[i], page.rows[j]))
    && (forall row :: row in page.rows ==> IsWanted(t, investigation, kinds, cursor, row))
    && (forall row, shown ::
          IsWanted(t, investigation, kinds, cursor, row) && row !in page.rows && shown in page.rows ==>
            IsEarlier(shown, row))
    && |page.rows| <= size
    && (page.nextCursor.Some? <==> exists row :: IsWanted(t, investigation, kinds, cursor, row) && row !in page.rows)
    && (page.nextCursor.Some? ==> |page.rows| == size && page.nextCursor.value == CursorOf(page.rows[size - 1]))
  }

  lemma {:induction false} FirstOfSorted(s: seq<Evidence>, n: nat)
    requires StrictlySorted(s)
    ensures var front := s[..Min(|s|, n)];
            && StrictlySorted(front)
            && (forall x, y :: x in s && x !in front && y in front ==> Precedes(y, x))
            && ((exists x :: x in s && x !in front) <==> n < |s|)
  {
    var front := s[..Min(|s|, n)];
    if n < |s| {
      assert s[n] in s;
      forall i | 0 <= i < n
        ensures front[i] != s[n]
      {
        PrecedesIsStrictTotalOrder(s[n], s[n], s[n]);
      }
    }
  }

  /** Reading on after a row of the timeline drops exactly the rows up to and including it. */
  lemma {:induction false} TimelineAfter(t: Table, investigation: int, kinds: Option<set<string>>,
                                         cursor: Option<Cursor>, k: nat)
    requires UniqueIds(t)
    requires WellFormed(cursor) && 0 < k <= |Timeline(t, investigation, kinds, cursor)|
    ensures var found := Timeline(t, investigation, kinds, cursor);
            Timeline(t, investigation, kinds, Some(CursorOf(found[k - 1]))) == found[k..]
  {
    var found := Timeline(t, investigation, kinds, cursor);
    var last := found[k - 1];
    TimelineIsSorted(t, investigation, kinds, cursor);
    TimelineIsSorted(t, investigation, kinds, Some(CursorOf(last)));
    var rest := Timeline(t, investigation, kinds, Some(CursorOf(last)));
    forall x
      ensures x in rest <==> x in found[k..]
    {
      AfterIsPrecedes(last, x);
      if x in rest {
        AfterChains(cursor, last, x);
        var j :| 0 <= j < |found| && found[j] == x;
        NotBefore(found, k - 1, j);
        assert found[k..][j - k] == x;
      }
    }
    SortedUnique(rest, found[k..]);
  }

  lemma {:induction false} NotBefore(s: seq<Evidence>, i: nat, j: nat)
    requires StrictlySorted(s) && i < |s| && j < |s| && Precedes(s[i], s[j])
    ensures i < j
  {
    PrecedesIsStrictTotalOrder(s[i], s[j], s[i]);
  }

  /** What sorts after a row that is itself after the cursor is after the cursor. */
  lemma {:induction false} AfterChains(cursor: Option<Cursor>, last: Evidence, x: Evidence)
    requires WellFormed(cursor) && IsAfter(cursor, last) && Precedes(last, x)
    ensures IsAfter(cursor, x)
  {
  }

  // ---------------------------------------------------------------------------------------------
  // Following cursors
  // ---------------------------------------------------------------------------------------------

  /** What the table holds, and the limit asked for, when one page is fetched. */
  datatype Fetch = Fetch(table: Table, limit: int)

  /** Evidence is append-only: later fetches see at least the rows of earlier ones. */
  ghost predicate Growing(fetches: seq<Fetch>) {
    && (forall i :: 0 <= i < |fetches| ==> UniqueIds(fetches[i].table))
    && forall i, j, x :: 0 <= i <= j < |fetches| && x in fetches[i].table ==> x in fetches[j].table
  }

  /** The rows of consecutive pages, and whether the last page carried no further cursor. */
  ghost function Follow(fetches: seq<Fetch>, investigation: int, kinds: Option<set<string>>, cursor: Option<Cursor>)
    : (seq<Evidence>, bool)
    requires WellFormed(cursor)
  {
    if fetches == [] then ([], false)
    else
      var page := ListEvidence(fetches[0].table, investigation, fetches[0].limit, cursor, kinds).value;
      if page.nextCursor.None? then (page.rows, true)
      else
        var rest := Follow(fetches[1..], investigation, kinds, page.nextCursor);
        (page.rows + rest.0, rest.1)
  }

  /**
   Matching rows in timeline order, none twice; and once the last page is reached, every row that
   was there at the start.
   */
  ghost predicate ReadsOnceInOrder(fetches: seq<Fetch>, investigation: int, kinds: Option<set<string>>,
                                   cursor: Option<Cursor>)
    requires WellFormed(cursor)
  {
    var (rows, complete) := Follow(fetches, investigation, kinds, cursor);
    && StrictlySorted(rows)
    && (forall x :: x in rows ==> Matches(x, investigation, kinds) && IsAfter(cursor, x))
    && (forall x :: x in rows ==> x in fetches[|fetches| - 1].table)
    && (complete ==> AllPresent(rows, fetches, investigation, kinds, cursor))
  }

  ghost predicate AllPresent(rows: seq<Evidence>, fetches: seq<Fetch>, investigation: int, kinds: Option<set<string>>,
                             cursor: Option<Cursor>)
    requires WellFormed(cursor)
  {
    && fetches != []
    && forall x :: x in fetches[0].table && Matches(x, investigation, kinds) && IsAfter(cursor, x) ==> x in rows
  }

  /** Following cursors stays sound and complete while rows are inserted between the pages. */
  lemma {:induction false} FollowIsComplete(fetches: seq<Fetch>, investigation: int, kinds: Option<set<string>>,
                                            cursor: Option<Cursor>)
    requires WellFormed(cursor) && Growing(fetches)
    ensures ReadsOnceInOrder(fetches, investigation, kinds, cursor)
  {
    if fetches != [] {
      var found := Timeline(fetches[0].table, investigation, kinds, cursor);
      PageIsPrefix(fetches[0].table, investigation, fetches[0].limit, cursor, kinds);
      TimelineIsSorted(fetches[0].table, investigation, kinds, cursor);
      var size := PageSize(fetches[0].limit);
      if |found| > size {
        FollowIsComplete(fetches[1..], investigation, kinds, Some(CursorOf(found[size - 1])));
        FollowStep(fetches, investigation, kinds, cursor, found, size);
      } else {
        assert found[..Min(|found|, size)] == found;
        assert forall x :: x in found ==> x in fetches[0].table && x in fetches[|fetches| - 1].table;
      }
    }
  }

  lemma {:induction false} FollowStep(fetches: seq<Fetch>, investigation: int, kinds: Option<set<string>>,
                                      cursor: Option<Cursor>, found: seq<Evidence>, size: nat)
    requires WellFormed(cursor) && fetches != [] && Growing(fetches)
    requires found == Timeline(fetches[0].table, investigation, kinds, cursor)
    requires size == PageSize(fetches[0].limit) && |found| > size
    requires ReadsOnceInOrder(fetches[1..], investigation, kinds, Some(CursorOf(found[size - 1])))
    ensures ReadsOnceInOrder(fetches, investigation, kinds, cursor)
  {
    var last := found[size - 1];
    var (rest, complete) := Follow(fetches[1..], investigation, kinds, Some(CursorOf(last)));
    TimelineIsSorted(fetches[0].table, investigation, kinds, cursor);
    PageIsPrefix(fetches[0].table, investigation, fetches[0].limit, cursor, kinds);
    var rows := found[..size] + rest;
    assert Follow(fetches, investigation, kinds, cursor) == (rows, complete);
    forall x | x in rest
      ensures Precedes(last, x) && IsAfter(cursor, x)
    {
      AfterIsPrecedes(last, x);
      assert last in found;
      AfterChains(cursor, last, x);
    }
    SortedJoin(found[..size], rest);
    if complete {
      forall x | x in fetches[0].table && Matches(x, investigation, kinds) && IsAfter(cursor, x)
        ensures x in rows
      {
        var j :| 0 <= j < |found| && found[j] == x;
        if j < size {
          assert found[..size][j] == x;
        } else {
          AfterIsPrecedes(last, x);
          assert x in fetches[1].table;
        }
      }
    }
  }

  lemma {:induction false} SortedJoin(a: seq<Evidence>, b: seq<Evidence>)
    requires StrictlySorted(a) && StrictlySorted(b) && a != []
    requires forall x :: x in b ==> Precedes(a[|a| - 1], x)
    ensures StrictlySorted(a + b)
  {
    forall i, j | 0 <= i < |a| <= j < |a| + |b|
      ensures Precedes((a + b)[i], (a + b)[j])
    {
      assert (a + b)[j] in b;
      PrecedesIsStrictTotalOrder(a[i], a[|a| - 1], (a + b)[j]);
    }
  }

  /** How many rows the fetches can return at most. */
  function Capacity(fetches: seq<Fetch>): nat {
    if fetches == [] then 0 else PageSize(fetches[0].limit) + Capacity(fetches[1..])
  }

  /** Over a table that does not change, the end is reached exactly when the pages have room for what is left. */
  lemma {:induction false} FollowEnds(t: Table, fetches: seq<Fetch>, investigation: int, kinds: Option<set<string>>,
                                      cursor: Option<Cursor>)
    requires WellFormed(cursor) && UniqueIds(t) && forall i :: 0 <= i < |fetches| ==> fetches[i].table == t
    ensures Follow(fetches, investigation, kinds, cursor).1
            <==> fetches != [] && Capacity(fetches) >= |Timeline(t, investigation, kinds, cursor)|
  {
    if fetches != [] {
      var found, size := Timeline(t, investigation, kinds, cursor), PageSize(fetches[0].limit);
      PageIsPrefix(t, investigation, fetches[0].limit, cursor, kinds);
      if |found| > size {
        TimelineAfter(t, investigation, kinds, cursor, size);
        FollowEnds(t, fetches[1..], investigation, kinds, Some(CursorOf(found[size - 1])));
      }
    }
  }

  /**
   Over a table that does not change, any mix of page sizes returns the whole timeline, and is done exactly when the
   pages have room for it; as many fetches as there are rows, and at least one, always are enough.
   */
  lemma {:induction false} FollowFixedTable(t: Table, fetches: seq<Fetch>, investigation: int,
                                            kinds: Option<set<string>>)
    requires UniqueIds(t) && forall i :: 0 <= i < |fetches| ==> fetches[i].table == t
    ensures var (rows, complete) := Follow(fetches, investigation, kinds, None);
            var all := Timeline(t, investigation, kinds, None);
            && (complete <==> fetches != [] && Capacity(fetches) >= |all|)
            && (complete ==> rows == all)
            && (|fetches| >= Max(1, |all|) ==> complete)
  {
    FollowIsComplete(fetches, investigation, kinds, None);
    FollowEnds(t, fetches, investigation, kinds, None);
    CapacityGrows(fetches);
    TimelineIsSorted(t, investigation, kinds, None);
    var (rows, complete) := Follow(fetches, investigation, kinds, None);
    if complete {
      SortedUnique(rows, Timeline(t, investigation, kinds, None));
    }
  }

  lemma {:induction false} CapacityGrows(fetches: seq<Fetch>)
    ensures Capacity(fetches) >= |fetches|
  {
    if fetches != [] {
      CapacityGrows(fetches[1..]);
    }
  }
}
