/**
 Bounded traversal of the evidence graph (src/acip/core/graph/traversal.py): the breadth-first
 neighbourhood and the enumeration of simple paths.  One investigation's tables are fixed
 sequences; the order in which a query returns its rows is left open.
 */
module Traversal {
  import opened Prelude

  type EntityId = int

  datatype Entity = Entity(id: EntityId, kind: string, value: string)

  datatype Edge = Edge(id: int, src: EntityId, dst: EntityId, relation: string)

  datatype Subgraph = Subgraph(entities: seq<Entity>, edges: seq<Edge>, truncated: bool)

  /** An entity waiting to be expanded, with the depth it was found at. */
  datatype Queued = Queued(at: EntityId, depth: int)

  /** A queued partial path: its end, its edges, and the entities on it. */
  datatype Partial = Partial(at: EntityId, path: seq<Edge>, seen: set<EntityId>)

  const ABSOLUTE_MAX_DEPTH := 6
  const ABSOLUTE_RESULT_CAP := 1000
  const ABSOLUTE_PATH_CAP := 50

  // ---------------------------------------------------------------------------------------------
  // Undirected distance
  // ---------------------------------------------------------------------------------------------

  ghost predicate Touches(e: Edge, x: EntityId) {
    e.src == x || e.dst == x
  }

  function FarEnd(e: Edge, x: EntityId): EntityId {
    if e.src == x then e.dst else e.src
  }

  /** `walk` lists the entities of an undirected walk from `start` to `x`. */
  ghost predicate IsWalk(edges: seq<Edge>, walk: seq<EntityId>, start: EntityId, x: EntityId) {
    && |walk| > 0 && walk[0] == start && walk[|walk| - 1] == x
    && forall i, j :: 0 <= i && j == i + 1 < |walk| ==> Linked(edges, walk[i], walk[j])
  }

  ghost predicate Linked(edges: seq<Edge>, x: EntityId, y: EntityId) {
    exists e :: e in edges && Touches(e, x) && FarEnd(e, x) == y
  }

  /** `x` is at undirected distance at most `k` from `start`. */
  ghost predicate Within(edges: seq<Edge>, start: EntityId, k: int, x: EntityId) {
    exists walk :: IsWalk(edges, walk, start, x) && |walk| <= k + 1
  }

  /** `e` touches an entity at distance strictly below `bound`. */
  ghost predicate IsCollectable(edges: seq<Edge>, start: EntityId, bound: int, e: Edge) {
    e in edges && (Within(edges, start, bound - 1, e.src) || Within(edges, start, bound - 1, e.dst))
  }

  ghost function Collectable(edges: seq<Edge>, start: EntityId, bound: int): set<Edge> {
    set e | e in edges && IsCollectable(edges, start, bound, e)
  }

  ghost predicate AllCollectable(edges: seq<Edge>, start: EntityId, bound: int, s: set<Edge>) {
    forall e :: e in s ==> IsCollectable(edges, start, bound, e)
  }

  lemma {:induction false} WithinSelf(edges: seq<Edge>, start: EntityId)
    ensures Within(edges, start, 0, start)
  {
    assert IsWalk(edges, [start], start, start);
  }

  lemma {:induction false} WithinMonotone(edges: seq<Edge>, start: EntityId, j: int, k: int, x: EntityId)
    requires j <= k && Within(edges, start, j, x)
    ensures Within(edges, start, k, x)
  {
  }

  lemma {:induction false} WithinStep(edges: seq<Edge>, start: EntityId, k: int, x: EntityId, e: Edge)
    requires Within(edges, start, k, x) && e in edges && Touches(e, x)
    ensures Within(edges, start, k + 1, FarEnd(e, x))
  {
    var walk :| IsWalk(edges, walk, start, x) && |walk| <= k + 1;
    assert Linked(edges, x, FarEnd(e, x));
    assert IsWalk(edges, walk + [FarEnd(e, x)], start, FarEnd(e, x));
  }

  // ---------------------------------------------------------------------------------------------
  // The breadth-first invariant
  // ---------------------------------------------------------------------------------------------

  /** Recorded depths are upper bounds on distance, within the radius. */
  ghost predicate DepthsSound(edges: seq<Edge>, start: EntityId, radius: nat, depth: map<EntityId, int>) {
    && start in depth && depth[start] == 0
    && (forall x :: x in depth ==> 0 <= depth[x] <= radius)
    && forall x {:trigger Within(edges, start, depth[x], x)} :: x in depth ==> Within(edges, start, depth[x], x)
  }

  /** The queue is in depth order and nothing visited is more than one level beyond its head. */
  ghost predicate QueueOrdered(queue: seq<Queued>, depth: map<EntityId, int>) {
    && (forall i :: 0 <= i < |queue| ==> queue[i].at in depth && depth[queue[i].at] == queue[i].depth)
    && (forall i, j :: 0 <= i < j < |queue| ==> queue[i].depth <= queue[j].depth)
    && (queue != [] ==> forall x :: x in depth ==> depth[x] <= queue[0].depth + 1)
  }

  /** `x` has been expanded: its edges are collected and its neighbours visited in time. */
  ghost predicate Expanded(edges: seq<Edge>, depth: map<EntityId, int>, collected: set<Edge>, x: EntityId)
    requires x in depth
  {
    forall e :: e in edges && Touches(e, x) ==>
      e in collected && FarEnd(e, x) in depth && depth[FarEnd(e, x)] <= depth[x] + 1
  }

  ghost predicate AllExpandedBut(edges: seq<Edge>, bound: int, depth: map<EntityId, int>, collected: set<Edge>,
                                 pending: set<EntityId>) {
    forall x {:trigger Expanded(edges, depth, collected, x)} ::
      x in depth && x !in pending && depth[x] < bound ==> Expanded(edges, depth, collected, x)
  }

  ghost function Pending(queue: seq<Queued>): set<EntityId> {
    set i | 0 <= i < |queue| :: queue[i].at
  }

  /** Once nothing is pending, recorded depths are also lower bounds: every short walk is visited. */
  lemma {:induction false} WalkVisited(edges: seq<Edge>, start: EntityId, bound: int, depth: map<EntityId, int>,
                                       collected: set<Edge>, walk: seq<EntityId>, x: EntityId)
    requires DepthsSound(edges, start, Max(bound, 0), depth)
    requires AllExpandedBut(edges, bound, depth, collected, {})
    requires IsWalk(edges, walk, start, x) && |walk| <= Max(bound, 0) + 1
    ensures x in depth && depth[x] <= |walk| - 1
    decreases |walk|
  {
    if |walk| > 1 {
      var y := walk[|walk| - 2];
      WalkVisited(edges, start, bound, depth, collected, walk[..|walk| - 1], y);
      assert Linked(edges, y, x);
      assert Expanded(edges, depth, collected, y);
    }
  }

  /** An uncut search has collected every collectable edge. */
  lemma {:induction false} CollectedAll(edges: seq<Edge>, start: EntityId, bound: int, depth: map<EntityId, int>,
                                        collected: set<Edge>)
    requires DepthsSound(edges, start, Max(bound, 0), depth)
    requires AllExpandedBut(edges, bound, depth, collected, {})
    ensures Collectable(edges, start, bound) <= collected
  {
    forall e | e in Collectable(edges, start, bound)
      ensures e in collected
    {
      var x := if Within(edges, start, bound - 1, e.src) then e.src else e.dst;
      var walk :| IsWalk(edges, walk, start, x) && |walk| <= bound;
      WalkVisited(edges, start, bound, depth, collected, walk, x);
      assert Expanded(edges, depth, collected, x) && Touches(e, x);
    }
  }

  ghost function Nodes(edges: seq<Edge>, start: EntityId): set<EntityId> {
    {start} + (set e | e in edges :: e.src) + (set e | e in edges :: e.dst)
  }

  lemma {:induction false} VisitedIffWithin(edges: seq<Edge>, start: EntityId, bound: int, depth: map<EntityId, int>,
                                            collected: set<Edge>)
    requires DepthsSound(edges, start, Max(bound, 0), depth)
    ensures forall x :: x in depth ==> Within(edges, start, Max(bound, 0), x)
    ensures AllExpandedBut(edges, bound, depth, collected, {}) ==>
              forall x :: Within(edges, start, Max(bound, 0), x) ==> x in depth
  {
    forall x | x in depth
      ensures Within(edges, start, Max(bound, 0), x)
    {
      WithinMonotone(edges, start, depth[x], Max(bound, 0), x);
    }
    if AllExpandedBut(edges, bound, depth, collected, {}) {
      forall x | Within(edges, start, Max(bound, 0), x)
        ensures x in depth
      {
        var walk :| IsWalk(edges, walk, start, x) && |walk| <= Max(bound, 0) + 1;
        WalkVisited(edges, start, bound, depth, collected, walk, x);
      }
    }
  }

  lemma {:induction false} Sizes(edges: seq<Edge>, start: EntityId, bound: int, cap: int, depth: map<EntityId, int>,
                                 collected: seq<Edge>, got: set<Edge>)
    requires DepthsSound(edges, start, Max(bound, 0), depth)
    requires Distinct(collected) && Elements(collected) == got && AllCollectable(edges, start, bound, got)
    requires |collected| <= Max(cap, 0)
    requires |collected| < cap ==> AllExpandedBut(edges, bound, depth, got, {})
    ensures |collected| == Min(|Collectable(edges, start, bound)|, Max(cap, 0))
    ensures |collected| >= cap <==> cap <= |Collectable(edges, start, bound)|
    ensures |collected| < cap ==> got == Collectable(edges, start, bound)
  {
    DistinctCount(collected);
    SubsetCount(got, Collectable(edges, start, bound));
    if |collected| < cap {
      CollectedAll(edges, start, bound, depth, got);
      assert got == Collectable(edges, start, bound);
    }
  }

  lemma {:induction false} CollectableFrom(edges: seq<Edge>, start: EntityId, bound: int, x: EntityId, k: int, e: Edge)
    requires Within(edges, start, k, x) && k < bound && e in edges && Touches(e, x)
    ensures IsCollectable(edges, start, bound, e)
    ensures Within(edges, start, k + 1, FarEnd(e, x))
  {
    WithinMonotone(edges, start, k, bound - 1, x);
    WithinStep(edges, start, k, x, e);
  }

  /** The outer loop's invariant. */
  ghost predicate Searching(edges: seq<Edge>, start: EntityId, bound: int, depth: map<EntityId, int>,
                            queue: seq<Queued>, collected: set<Edge>) {
    && DepthsSound(edges, start, Max(bound, 0), depth)
    && QueueOrdered(queue, depth)
    && AllExpandedBut(edges, bound, depth, collected, Pending(queue))
  }

  /** The same while `curr` is being expanded. */
  ghost predicate Expanding(edges: seq<Edge>, start: EntityId, bound: int, depth: map<EntityId, int>,
                            queue: seq<Queued>, collected: set<Edge>, curr: EntityId) {
    && DepthsSound(edges, start, Max(bound, 0), depth)
    && QueueOrdered(queue, depth)
    && curr in depth && depth[curr] < bound
    && (forall x :: x in depth ==> depth[x] <= depth[curr] + 1)
    && (forall j :: 0 <= j < |queue| ==> depth[curr] <= queue[j].depth)
    && AllExpandedBut(edges, bound, depth, collected, Pending(queue) + {curr})
  }

  lemma {:induction false} PendingTail(queue: seq<Queued>)
    requires queue != []
    ensures Pending(queue) == Pending(queue[1..]) + {queue[0].at}
  {
    forall i | 0 <= i < |queue|
      ensures queue[i].at in Pending(queue[1..]) + {queue[0].at}
    {
      if i > 0 { assert queue[i] == queue[1..][i - 1]; }
    }
    forall i | 0 <= i < |queue[1..]|
      ensures queue[1..][i].at in Pending(queue)
    {
      assert queue[1..][i] == queue[i + 1];
    }
  }

  lemma {:induction false} Pop(edges: seq<Edge>, start: EntityId, bound: int, depth: map<EntityId, int>,
                               queue: seq<Queued>, collected: set<Edge>)
    requires Searching(edges, start, bound, depth, queue, collected) && queue != []
    ensures queue[0].depth >= bound ==> Searching(edges, start, bound, depth, queue[1..], collected)
    ensures queue[0].depth < bound ==> Expanding(edges, start, bound, depth, queue[1..], collected, queue[0].at)
  {
    PendingTail(queue);
  }

  lemma {:induction false} Visit(edges: seq<Edge>, start: EntityId, bound: int, depth: map<EntityId, int>,
                                 queue: seq<Queued>, collected: set<Edge>, curr: EntityId, x: EntityId)
    requires Expanding(edges, start, bound, depth, queue, collected, curr)
    requires x !in depth && Within(edges, start, depth[curr] + 1, x)
    ensures Expanding(edges, start, bound, depth[x := depth[curr] + 1], queue + [Queued(x, depth[curr] + 1)],
                      collected, curr)
  {
    var depth', queue' := depth[x := depth[curr] + 1], queue + [Queued(x, depth[curr] + 1)];
    assert Pending(queue') == Pending(queue) + {x} by {
      assert queue'[|queue|].at == x;
      assert forall i :: 0 <= i < |queue| ==> queue'[i] == queue[i];
    }
    forall y | y in depth' && y !in Pending(queue') + {curr} && depth'[y] < bound
      ensures Expanded(edges, depth', collected, y)
    {
      assert Expanded(edges, depth, collected, y);
    }
  }

  lemma {:induction false} Collect(edges: seq<Edge>, start: EntityId, bound: int, depth: map<EntityId, int>,
                                   queue: seq<Queued>, collected: set<Edge>, curr: EntityId, edge: Edge)
    requires Expanding(edges, start, bound, depth, queue, collected, curr)
    ensures Expanding(edges, start, bound, depth, queue, collected + {edge}, curr)
  {
    forall y | y in depth && y !in Pending(queue) + {curr} && depth[y] < bound
      ensures Expanded(edges, depth, collected + {edge}, y)
    {
      assert Expanded(edges, depth, collected, y);
    }
  }

  /** What one iteration over an adjacent edge does to the search, when the cap is not reached. */
  lemma {:induction false} Examine(edges: seq<Edge>, start: EntityId, bound: int, depth0: map<EntityId, int>,
                                   queue0: seq<Queued>, collected0: set<Edge>, curr: EntityId, edge: Edge,
                                   depth1: map<EntityId, int>, queue1: seq<Queued>, collected1: set<Edge>)
    requires Expanding(edges, start, bound, depth0, queue0, collected0, curr)
    requires edge in edges && Touches(edge, curr)
    requires collected1 == collected0 + {edge}
    requires var x := FarEnd(edge, curr);
             if x in depth0 then depth1 == depth0 && queue1 == queue0
             else depth1 == depth0[x := depth0[curr] + 1] && queue1 == queue0 + [Queued(x, depth0[curr] + 1)]
    ensures Expanding(edges, start, bound, depth1, queue1, collected1, curr)
    ensures FarEnd(edge, curr) in depth1 && edge in collected1
  {
    Collect(edges, start, bound, depth0, queue0, collected0, curr, edge);
    var x := FarEnd(edge, curr);
    if x !in depth0 {
      WithinStep(edges, start, depth0[curr], curr, edge);
      Visit(edges, start, bound, depth0, queue0, collected1, curr, x);
    }
  }

  /** The first `i` adjacent edges are collected and their far ends visited. */
  ghost predicate Done(adjacent: seq<Edge>, i: int, collected: set<Edge>, depth: map<EntityId, int>, curr: EntityId) {
    forall j :: 0 <= j < i <= |adjacent| ==> adjacent[j] in collected && FarEnd(adjacent[j], curr) in depth
  }

  lemma {:induction false} DoneStep(adjacent: seq<Edge>, i: int, collected: set<Edge>, depth: map<EntityId, int>,
                                    curr: EntityId, collected': set<Edge>, depth': map<EntityId, int>)
    requires 0 <= i < |adjacent| && Done(adjacent, i, collected, depth, curr)
    requires collected <= collected' && depth.Keys <= depth'.Keys
    requires adjacent[i] in collected' && FarEnd(adjacent[i], curr) in depth'
    ensures Done(adjacent, i + 1, collected', depth', curr)
  {
  }

  lemma {:induction false} FinishExpansion(edges: seq<Edge>, start: EntityId, bound: int, depth: map<EntityId, int>,
                                           queue: seq<Queued>, collected: set<Edge>, curr: EntityId,
                                           adjacent: seq<Edge>)
    requires Expanding(edges, start, bound, depth, queue, collected, curr)
    requires forall e :: e in edges && Touches(e, curr) ==> e in adjacent
    requires Done(adjacent, |adjacent|, collected, depth, curr)
    ensures Searching(edges, start, bound, depth, queue, collected)
  {
    assert Expanded(edges, depth, collected, curr);
  }

  lemma {:induction false} UnvisitedShrink(universe: set<EntityId>, before: set<EntityId>, after: set<EntityId>)
    requires before <= after <= universe
    ensures before == after || universe - after < universe - before
  {
  }

  ghost function Ids(entities: seq<Entity>): set<EntityId> {
    set x | x in entities :: x.id
  }

  lemma {:induction false} IdsAreSelected(entities: seq<Entity>, ids: set<EntityId>)
    requires forall x :: x in entities ==> x.id in ids
    ensures |Ids(entities)| <= |ids|
  {
    SubsetCount(Ids(entities), ids);
  }

  /** Every visited entity but the first has a collected edge of its own, and both ends of every edge are visited. */
  ghost predicate Spans(visited: set<EntityId>, collected: seq<Edge>) {
    |visited| <= |collected| + 1 && forall e :: e in collected ==> e.src in visited && e.dst in visited
  }

  lemma {:induction false} SpansStep(visited: set<EntityId>, collected: seq<Edge>, curr: EntityId, e: Edge,
                                     visited': set<EntityId>, collected': seq<Edge>)
    requires Spans(visited, collected) && curr in visited && Touches(e, curr)
    requires collected' == if e in collected then collected else collected + [e]
    requires visited' == if FarEnd(e, curr) in visited then visited else visited + {FarEnd(e, curr)}
    ensures Spans(visited', collected')
  {
  }

  /** Both ends of a collectable edge are within the bound. */
  lemma {:induction false} CollectableEnds(edges: seq<Edge>, start: EntityId, bound: int, e: Edge)
    requires IsCollectable(edges, start, bound, e)
    ensures Within(edges, start, bound, e.src) && Within(edges, start, bound, e.dst)
  {
    if Within(edges, start, bound - 1, e.src) {
      WithinStep(edges, start, bound - 1, e.src, e);
    } else {
      WithinStep(edges, start, bound - 1, e.dst, e);
    }
  }

  lemma {:induction false} EndsAreWithin(edges: seq<Edge>, start: EntityId, bound: int, collected: seq<Edge>)
    requires AllCollectable(edges, start, bound, Elements(collected))
    ensures forall e :: e in collected ==> Within(edges, start, bound, e.src) && Within(edges, start, bound, e.dst)
  {
    forall e | e in collected
      ensures Within(edges, start, bound, e.src) && Within(edges, start, bound, e.dst)
    {
      assert e in Elements(collected);
      CollectableEnds(edges, start, bound, e);
    }
  }

  // ---------------------------------------------------------------------------------------------
  // Simple paths
  // ---------------------------------------------------------------------------------------------

  type Path = seq<Edge>

  ghost function EndOf(src: EntityId, p: Path): EntityId {
    if p == [] then src else p[|p| - 1].dst
  }

  /** The edges of `p` are stored and each starts where the previous one ends. */
  ghost predicate Chained(edges: seq<Edge>, src: EntityId, p: Path) {
    && (forall i :: 0 <= i < |p| ==> p[i] in edges)
    && (p != [] ==> p[0].src == src)
    && forall i, j :: 0 <= i && j == i + 1 < |p| ==> p[j].src == p[i].dst
  }

  ghost predicate OnPath(src: EntityId, p: Path, x: EntityId) {
    x == src || exists i :: 0 <= i < |p| && p[i].dst == x
  }

  ghost predicate VertexSimple(src: EntityId, p: Path) {
    && (forall i :: 0 <= i < |p| ==> p[i].dst != src)
    && forall i, j :: 0 <= i < j < |p| ==> p[i].dst != p[j].dst
  }

  ghost predicate SimplePath(edges: seq<Edge>, src: EntityId, dst: EntityId, p: Path) {
    p != [] && Chained(edges, src, p) && VertexSimple(src, p) && EndOf(src, p) == dst
  }

  /** A simple path from `src` that has not reached `dst`. */
  ghost predicate Trail(edges: seq<Edge>, src: EntityId, dst: EntityId, p: Path) {
    Chained(edges, src, p) && VertexSimple(src, p) && forall i :: 0 <= i < |p| ==> p[i].dst != dst
  }

  ghost predicate Prefix(a: Path, b: Path) {
    a <= b
  }

  /** The length of the shortest simple path that can extend `o`. */
  ghost function Reach(src: EntityId, dst: EntityId, o: Path): nat {
    if EndOf(src, o) == dst then |o| else |o| + 1
  }

  ghost predicate Antichain(open: set<Path>) {
    forall a, b :: a in open && b in open && Prefix(a, b) ==> a == b
  }

  /**
   The search frontier: no two open paths extend one another, none extends to a path already found,
   and every simple path within the bound is found or extends an open one.
   */
  ghost predicate Frontier(edges: seq<Edge>, src: EntityId, dst: EntityId, bound: int, open: set<Path>,
                           found: seq<Path>) {
    && Antichain(open)
    && (forall o, r :: o in open && r in found ==> !Prefix(o, r))
    && forall p {:trigger SimplePath(edges, src, dst, p)} ::
         SimplePath(edges, src, dst, p) && |p| <= bound ==> p in found || HasPrefixIn(open, p)
  }

  ghost predicate HasPrefixIn(open: set<Path>, p: Path) {
    exists o :: o in open && Prefix(o, p)
  }

  /** What has been found so far, in the order it was found. */
  ghost predicate FoundOk(edges: seq<Edge>, src: EntityId, dst: EntityId, bound: int, found: seq<Path>) {
    && Distinct(found)
    && (forall r :: r in found ==> SimplePath(edges, src, dst, r) && |r| <= bound)
    && forall i, j :: 0 <= i < j < |found| ==> |found[i]| <= |found[j]|
  }

  ghost function Kids(c: Path, rows: seq<Edge>, i: int): set<Path> {
    set j | 0 <= i <= j < |rows| :: c + [rows[j]]
  }

  lemma {:induction false} KidsStep(c: Path, rows: seq<Edge>, i: int)
    requires 0 <= i < |rows| && Distinct(rows)
    ensures Kids(c, rows, i) == Kids(c, rows, i + 1) + {c + [rows[i]]}
    ensures c + [rows[i]] !in Kids(c, rows, i + 1)
  {
    forall j | i < j < |rows|
      ensures c + [rows[j]] != c + [rows[i]]
    {
      assert (c + [rows[j]])[|c|] == rows[j] && (c + [rows[i]])[|c|] == rows[i];
    }
  }

  lemma {:induction false} KidIncomparable(c: Path, e: Edge, o: Path)
    requires !Prefix(c, o)
    ensures !Prefix(c + [e], o)
    ensures !Prefix(o, c) ==> !Prefix(o, c + [e])
  {
  }

  /** Replacing an open path by all its one-edge extensions keeps the frontier. */
  lemma {:induction false} Refine(edges: seq<Edge>, src: EntityId, dst: EntityId, bound: int, open: set<Path>,
                                  found: seq<Path>, c: Path, rows: seq<Edge>)
    requires Frontier(edges, src, dst, bound, open, found) && c in open && Trail(edges, src, dst, c)
    requires Distinct(rows) && forall e :: e in rows <==> e in edges && e.src == EndOf(src, c)
    requires src != dst
    ensures Frontier(edges, src, dst, bound, open - {c} + Kids(c, rows, 0), found)
    ensures (open - {c}) !! Kids(c, rows, 0)
  {
    var kids := Kids(c, rows, 0);
    forall o, k | o in open - {c} && k in kids
      ensures !Prefix(o, k) && !Prefix(k, o)
    {
      var j :| 0 <= j < |rows| && k == c + [rows[j]];
      KidIncomparable(c, rows[j], o);
    }
    forall a, b | a in kids && b in kids && Prefix(a, b)
      ensures a == b
    {
    }
    forall k, r | k in kids && r in found
      ensures !Prefix(k, r)
    {
      var j :| 0 <= j < |rows| && k == c + [rows[j]];
      KidIncomparable(c, rows[j], r);
    }
    forall p: Path | SimplePath(edges, src, dst, p) && |p| <= bound && p !in found
      ensures HasPrefixIn(open - {c} + kids, p)
    {
      var o :| o in open && Prefix(o, p);
      if o == c {
        NextEdge(edges, src, dst, c, p);
        var j :| 0 <= j < |rows| && rows[j] == p[|c|];
        assert c + [rows[j]] in kids && Prefix(c + [rows[j]], p);
      }
    }
  }

  lemma {:induction false} NextEdge(edges: seq<Edge>, src: EntityId, dst: EntityId, c: Path, p: Path)
    requires Trail(edges, src, dst, c) && SimplePath(edges, src, dst, p) && Prefix(c, p) && src != dst
    ensures |c| < |p| && p[|c|] in edges && p[|c|].src == EndOf(src, c)
    ensures Prefix(c + [p[|c|]], p)
  {
    assert c == p[..|c|];
    if |c| > 0 {
      assert p[|c| - 1] == c[|c| - 1];
    }
    assert c + [p[|c|]] == p[..|c| + 1];
  }

  lemma {:induction false} OnlyItself(edges: seq<Edge>, src: EntityId, dst: EntityId, k: Path, p: Path)
    requires SimplePath(edges, src, dst, k) && SimplePath(edges, src, dst, p) && Prefix(k, p)
    ensures p == k
  {
    assert p[|k| - 1] == k[|k| - 1];
  }

  lemma {:induction false} NoReturn(src: EntityId, c: Path, e: Edge, p: Path)
    requires Prefix(c + [e], p) && OnPath(src, c, e.dst)
    ensures !VertexSimple(src, p)
  {
    assert p[|c|] == (c + [e])[|c|] == e;
    if e.dst != src {
      var i :| 0 <= i < |c| && c[i].dst == e.dst;
      assert p[i] == (c + [e])[i] == c[i];
    }
  }

  /** A path that reaches `dst` leaves the frontier as a result. */
  lemma {:induction false} Resolve(edges: seq<Edge>, src: EntityId, dst: EntityId, bound: int, open: set<Path>,
                                   found: seq<Path>, k: Path)
    requires Frontier(edges, src, dst, bound, open, found) && k in open && SimplePath(edges, src, dst, k)
    ensures Frontier(edges, src, dst, bound, open - {k}, found + [k])
    ensures k !in found
  {
    assert Prefix(k, k);
    forall p: Path | SimplePath(edges, src, dst, p) && |p| <= bound && p !in found + [k]
      ensures HasPrefixIn(open - {k}, p)
    {
      var o :| o in open && Prefix(o, p);
      if o == k {
        OnlyItself(edges, src, dst, k, p);
      }
    }
  }

  /** A path that returns to one of its own entities leaves the frontier for good. */
  lemma {:induction false} Prune(edges: seq<Edge>, src: EntityId, dst: EntityId, bound: int, open: set<Path>,
                                 found: seq<Path>, c: Path, e: Edge)
    requires Frontier(edges, src, dst, bound, open, found) && c + [e] in open
    requires OnPath(src, c, e.dst)
    ensures Frontier(edges, src, dst, bound, open - {c + [e]}, found)
  {
    forall p: Path | SimplePath(edges, src, dst, p) && |p| <= bound && p !in found
      ensures HasPrefixIn(open - {c + [e]}, p)
    {
      var o :| o in open && Prefix(o, p);
      if o == c + [e] {
        NoReturn(src, c, e, p);
      }
    }
  }

  /** A path as long as the bound can be dropped. */
  lemma {:induction false} Drop(edges: seq<Edge>, src: EntityId, dst: EntityId, bound: int, open: set<Path>,
                                found: seq<Path>, c: Path)
    requires Frontier(edges, src, dst, bound, open, found) && c in open && Trail(edges, src, dst, c) && src != dst
    requires |c| >= bound
    ensures Frontier(edges, src, dst, bound, open - {c}, found)
  {
    forall p: Path | SimplePath(edges, src, dst, p) && |p| <= bound && p !in found
      ensures HasPrefixIn(open - {c}, p)
    {
      var o :| o in open && Prefix(o, p);
      if o == c {
        NextEdge(edges, src, dst, c, p);
      }
    }
  }

  lemma {:induction false} TrailExtends(edges: seq<Edge>, src: EntityId, dst: EntityId, c: Path, e: Edge)
    requires Trail(edges, src, dst, c) && e in edges && e.src == EndOf(src, c) && !OnPath(src, c, e.dst)
    ensures e.dst != dst ==> Trail(edges, src, dst, c + [e])
    ensures e.dst == dst ==> SimplePath(edges, src, dst, c + [e])
    ensures EndOf(src, c + [e]) == e.dst
    ensures forall x :: OnPath(src, c + [e], x) <==> OnPath(src, c, x) || x == e.dst
  {
    var p := c + [e];
    assert p[|c|] == e;
    forall x | OnPath(src, c, x) || x == e.dst
      ensures OnPath(src, p, x)
    {
      if x != e.dst && x != src {
        var i :| 0 <= i < |c| && c[i].dst == x;
        assert p[i].dst == x;
      }
    }
  }

  ghost function PathsOf(queue: seq<Partial>): set<Path> {
    set i | 0 <= i < |queue| :: queue[i].path
  }

  ghost predicate PartialOk(edges: seq<Edge>, src: EntityId, dst: EntityId, q: Partial) {
    && Trail(edges, src, dst, q.path)
    && q.at == EndOf(src, q.path)
    && forall x :: x in q.seen <==> OnPath(src, q.path, x)
  }

  /** Queued partial paths are distinct trails. */
  ghost predicate QueueOk(edges: seq<Edge>, src: EntityId, dst: EntityId, queue: seq<Partial>) {
    && (forall i :: 0 <= i < |queue| ==> PartialOk(edges, src, dst, queue[i]))
    && forall i, j :: 0 <= i < j < |queue| ==> queue[i].path != queue[j].path
  }

  /** The first `current` queued paths have length `level`, the others are one longer, within `longest`. */
  ghost predicate Levelled(queue: seq<Partial>, level: int, current: int, longest: int) {
    && 0 <= current <= |queue|
    && 0 <= level <= longest
    && (current < |queue| ==> level < longest)
    && forall i :: 0 <= i < |queue| ==> |queue[i].path| == if i < current then level else level + 1
  }

  /** Between two iterations of the outer loop. */
  ghost predicate Enumerating(edges: seq<Edge>, src: EntityId, dst: EntityId, bound: int, queue: seq<Partial>,
                              found: seq<Path>, open: set<Path>, level: int, current: int) {
    && QueueOk(edges, src, dst, queue)
    && Levelled(queue, level, current, Max(bound, 0))
    && Frontier(edges, src, dst, bound, open, found)
    && FoundOk(edges, src, dst, bound, found)
    && Split(src, dst, level + 1, open, found)
    && open == PathsOf(queue)
  }

  lemma {:induction false} EnumerationStart(edges: seq<Edge>, src: EntityId, dst: EntityId, bound: int)
    requires src != dst
    ensures Enumerating(edges, src, dst, bound, [Partial(src, [], {src})], [], {[]}, 0, 1)
  {
    assert forall p: Path :: Prefix([], p);
    assert PathsOf([Partial(src, [], {src})]) == {[]} by {
      assert [Partial(src, [], {src})][0].path == [];
    }
  }

  /** When a level is used up, the rest of the queue is the next one. */
  lemma {:induction false} NextLevel(edges: seq<Edge>, src: EntityId, dst: EntityId, bound: int, queue: seq<Partial>,
                                     found: seq<Path>, open: set<Path>, level: int)
    requires queue != [] && Enumerating(edges, src, dst, bound, queue, found, open, level, 0)
    ensures Enumerating(edges, src, dst, bound, queue, found, open, level + 1, |queue|)
  {
  }

  /** A popped path is either too long to extend or becomes the one path outside the queue. */
  lemma {:induction false} PopPartial(edges: seq<Edge>, src: EntityId, dst: EntityId, bound: int, queue: seq<Partial>,
                                      found: seq<Path>, open: set<Path>, level: int, current: int)
    requires src != dst && current > 0 && Enumerating(edges, src, dst, bound, queue, found, open, level, current)
    ensures QueueOk(edges, src, dst, queue[1..]) && queue[0].path !in PathsOf(queue[1..])
    ensures open == PathsOf(queue[1..]) + {queue[0].path}
    ensures Levelled(queue[1..], level, current - 1, Max(bound, 0)) && |queue[0].path| == level
    ensures |queue[0].path| >= bound ==>
              Enumerating(edges, src, dst, bound, queue[1..], found, open - {queue[0].path}, level, current - 1)
  {
    PathsOfHead(queue, edges, src, dst);
    assert queue[0].path in PathsOf(queue);
    if |queue[0].path| >= bound {
      Drop(edges, src, dst, bound, open, found, queue[0].path);
    }
  }

  /** Nothing found is longer than `m`, and nothing still open can give a path shorter than `m`. */
  ghost predicate Split(src: EntityId, dst: EntityId, m: int, open: set<Path>, found: seq<Path>) {
    && (forall r :: r in found ==> |r| <= m)
    && forall o :: o in open ==> m <= Reach(src, dst, o)
  }

  lemma {:induction false} PathsOfHead(queue: seq<Partial>, edges: seq<Edge>, src: EntityId, dst: EntityId)
    requires queue != [] && QueueOk(edges, src, dst, queue)
    ensures PathsOf(queue[1..]) == PathsOf(queue) - {queue[0].path}
  {
    forall i | 0 <= i < |queue[1..]|
      ensures queue[1..][i].path in PathsOf(queue) - {queue[0].path}
    {
      assert queue[1..][i] == queue[i + 1];
    }
    forall i | 0 <= i < |queue| && queue[i].path != queue[0].path
      ensures queue[i].path in PathsOf(queue[1..])
    {
      assert queue[1..][i - 1] == queue[i];
    }
  }

  lemma {:induction false} PathsOfSnoc(queue: seq<Partial>, q: Partial)
    ensures PathsOf(queue + [q]) == PathsOf(queue) + {q.path}
  {
    var longer := queue + [q];
    assert longer[|queue|] == q;
    assert forall i :: 0 <= i < |queue| ==> longer[i] == queue[i];
  }

  /** The state of the inner loop after `i` of the edges leaving `c`. */
  ghost predicate Extending(edges: seq<Edge>, src: EntityId, dst: EntityId, bound: int, current: int, c: Path,
                            rows: seq<Edge>, i: int, queue: seq<Partial>, found: seq<Path>, open: set<Path>) {
    && QueueOk(edges, src, dst, queue)
    && open == PathsOf(queue) + Kids(c, rows, i)
    && PathsOf(queue) !! Kids(c, rows, i)
    && Frontier(edges, src, dst, bound, open, found)
    && FoundOk(edges, src, dst, bound, found)
    && Split(src, dst, |c| + 1, open, found)
    && |c| < bound && 0 <= current && Levelled(queue, |c|, current, bound)
  }

  lemma {:induction false} ExtendStart(edges: seq<Edge>, src: EntityId, dst: EntityId, bound: int, current: int,
                                       c: Path, rows: seq<Edge>, queue: seq<Partial>, found: seq<Path>,
                                       open: set<Path>)
    requires src != dst && Trail(edges, src, dst, c) && |c| < bound
    requires Distinct(rows) && forall e :: e in rows <==> e in edges && e.src == EndOf(src, c)
    requires QueueOk(edges, src, dst, queue) && c !in PathsOf(queue) && open == PathsOf(queue) + {c}
    requires Frontier(edges, src, dst, bound, open, found) && FoundOk(edges, src, dst, bound, found)
    requires Split(src, dst, |c| + 1, open, found) && Levelled(queue, |c|, current, bound)
    ensures Extending(edges, src, dst, bound, current, c, rows, 0, queue, found, PathsOf(queue) + Kids(c, rows, 0))
  {
    Refine(edges, src, dst, bound, open, found, c, rows);
    assert open - {c} == PathsOf(queue);
  }

  lemma {:induction false} ExtendFound(edges: seq<Edge>, src: EntityId, dst: EntityId, bound: int, current: int,
                                       c: Path, rows: seq<Edge>, i: int, queue: seq<Partial>, found: seq<Path>,
                                       open: set<Path>)
    requires 0 <= i < |rows| && Distinct(rows) && |c| < bound
    requires Extending(edges, src, dst, bound, current, c, rows, i, queue, found, open)
    requires Trail(edges, src, dst, c) && rows[i] in edges && rows[i].src == EndOf(src, c) && rows[i].dst == dst != src
    ensures Extending(edges, src, dst, bound, current, c, rows, i + 1, queue, found + [c + [rows[i]]],
                      open - {c + [rows[i]]})
  {
    var k := c + [rows[i]];
    assert !OnPath(src, c, dst);
    TrailExtends(edges, src, dst, c, rows[i]);
    KidsStep(c, rows, i);
    Resolve(edges, src, dst, bound, open, found, k);
    AppendNew(found, k);
    assert open - {k} == PathsOf(queue) + Kids(c, rows, i + 1);
    assert FoundOk(edges, src, dst, bound, found + [k]);
  }

  lemma {:induction false} PartialExtends(edges: seq<Edge>, src: EntityId, dst: EntityId, c: Partial, e: Edge)
    requires PartialOk(edges, src, dst, c) && e in edges && e.src == c.at && e.dst !in c.seen && e.dst != dst
    ensures PartialOk(edges, src, dst, Partial(e.dst, c.path + [e], c.seen + {e.dst}))
  {
    TrailExtends(edges, src, dst, c.path, e);
  }

  lemma {:induction false} ExtendQueue(edges: seq<Edge>, src: EntityId, dst: EntityId, bound: int, current: int,
                                       c: Partial, rows: seq<Edge>, i: int, queue: seq<Partial>, found: seq<Path>,
                                       open: set<Path>, q: Partial)
    requires 0 <= i < |rows| && Distinct(rows) && PartialOk(edges, src, dst, c)
    requires Extending(edges, src, dst, bound, current, c.path, rows, i, queue, found, open)
    requires rows[i] in edges && rows[i].src == c.at && rows[i].dst !in c.seen && rows[i].dst != dst
    requires q == Partial(rows[i].dst, c.path + [rows[i]], c.seen + {rows[i].dst})
    ensures Extending(edges, src, dst, bound, current, c.path, rows, i + 1, queue + [q], found, open)
  {
    PartialExtends(edges, src, dst, c, rows[i]);
    KidsStep(c.path, rows, i);
    PathsOfSnoc(queue, q);
    assert QueueOk(edges, src, dst, queue + [q]) by {
      assert forall j :: 0 <= j < |queue| ==> queue[j].path in PathsOf(queue);
    }
  }

  lemma {:induction false} ExtendEnd(edges: seq<Edge>, src: EntityId, dst: EntityId, bound: int, current: int,
                                     c: Path, rows: seq<Edge>, queue: seq<Partial>, found: seq<Path>, open: set<Path>)
    requires Extending(edges, src, dst, bound, current, c, rows, |rows|, queue, found, open)
    ensures Enumerating(edges, src, dst, bound, queue, found, open, |c|, current)
  {
    assert Kids(c, rows, |rows|) == {};
  }

  lemma {:induction false} ExtendPruned(edges: seq<Edge>, src: EntityId, dst: EntityId, bound: int, current: int,
                                        c: Path, rows: seq<Edge>, i: int, queue: seq<Partial>, found: seq<Path>,
                                        open: set<Path>)
    requires 0 <= i < |rows| && Distinct(rows)
    requires Extending(edges, src, dst, bound, current, c, rows, i, queue, found, open)
    requires OnPath(src, c, rows[i].dst)
    ensures Extending(edges, src, dst, bound, current, c, rows, i + 1, queue, found, open - {c + [rows[i]]})
  {
    KidsStep(c, rows, i);
    Prune(edges, src, dst, bound, open, found, c, rows[i]);
    assert open - {c + [rows[i]]} == PathsOf(queue) + Kids(c, rows, i + 1);
  }

  /** What a cut enumeration leaves out is no shorter than anything it returns. */
  lemma {:induction false} OmittedAreLonger(edges: seq<Edge>, src: EntityId, dst: EntityId, bound: int, m: int,
                                            open: set<Path>, found: seq<Path>, p: Path)
    requires Frontier(edges, src, dst, bound, open, found) && Split(src, dst, m, open, found)
    requires SimplePath(edges, src, dst, p) && |p| <= bound && p !in found
    ensures open != {} && forall r :: r in found ==> |r| <= |p|
  {
    var o :| o in open && Prefix(o, p);
    assert o == p || |o| < |p|;
  }

  class GraphTraversal {
    const edgeTable: seq<Edge>
    const entityTable: seq<Entity>

    constructor (edgeTable: seq<Edge>, entityTable: seq<Entity>)
      ensures this.edgeTable == edgeTable && this.entityTable == entityTable
    {
      this.edgeTable, this.entityTable := edgeTable, entityTable;
    }

    /** The edge rows touching `x`, each once; callers may rely on no particular order. */
    method SelectTouching(x: EntityId) returns (rows: seq<Edge>)
      requires Distinct(edgeTable)
      ensures Distinct(rows)
      ensures forall e :: e in rows <==> e in edgeTable && Touches(e, x)
    {
      rows := [];
      for i := 0 to |edgeTable|
        invariant Distinct(rows)
        invariant forall e :: e in rows <==> e in edgeTable[..i] && Touches(e, x)
      {
        assert edgeTable[..i + 1] == edgeTable[..i] + [edgeTable[i]];
        assert edgeTable[i] !in edgeTable[..i];
        if edgeTable[i].src == x || edgeTable[i].dst == x {
          rows := rows + [edgeTable[i]];
        }
      }
    }

    method SelectEntities(ids: set<EntityId>) returns (rows: seq<Entity>)
      ensures forall e :: e in rows <==> e in entityTable && e.id in ids
    {
      rows := [];
      for i := 0 to |entityTable|
        invariant forall e :: e in rows <==> e in entityTable[..i] && e.id in ids
      {
        if entityTable[i].id in ids {
          rows := rows + [entityTable[i]];
        }
      }
    }

    /** The inner loop over the edges of `curr`; it stops as soon as the cap is reached. */
    method ExpandEntity(curr: EntityId, currDepth: int, cap: int, visited0: set<EntityId>, queue0: seq<Queued>,
                        collected0: seq<Edge>, ghost start: EntityId, ghost bound: int,
                        ghost depth0: map<EntityId, int>, ghost universe: set<EntityId>)
      returns (visited: set<EntityId>, queue: seq<Queued>, collected: seq<Edge>, ghost depth: map<EntityId, int>)
      requires Distinct(edgeTable)
      requires visited0 == depth0.Keys <= universe
      requires forall e :: e in edgeTable ==> e.src in universe && e.dst in universe
      requires curr in depth0 && depth0[curr] == currDepth
      requires Expanding(edgeTable, start, bound, depth0, queue0, Elements(collected0), curr)
      requires Distinct(collected0) && AllCollectable(edgeTable, start, bound, Elements(collected0))
      requires |collected0| < cap && Spans(visited0, collected0)
      ensures visited0 <= visited == depth.Keys <= universe
      ensures DepthsSound(edgeTable, start, Max(bound, 0), depth)
      ensures Distinct(collected) && AllCollectable(edgeTable, start, bound, Elements(collected))
      ensures |collected| <= cap
      ensures |collected| < cap ==> Searching(edgeTable, start, bound, depth, queue, Elements(collected))
      ensures |visited| <= cap && |visited| <= |collected| + 1 && (|collected| < cap ==> Spans(visited, collected))
      ensures visited == visited0 ==> queue == queue0
    {
      visited, queue, collected, depth := visited0, queue0, collected0, depth0;
      var adjacent := SelectTouching(curr);
      ghost var got := Elements(collected);
      for i := 0 to |adjacent|
        invariant visited0 <= visited == depth.Keys <= universe
        invariant curr in depth && depth[curr] == currDepth
        invariant Expanding(edgeTable, start, bound, depth, queue, got, curr)
        invariant Distinct(collected) && Elements(collected) == got && AllCollectable(edgeTable, start, bound, got)
        invariant |collected| < cap && Spans(visited, collected)
        invariant Done(adjacent, i, got, depth, curr)
        invariant visited == visited0 ==> queue == queue0
      {
        ghost var depth1, queue1, got1, visited1, collected1 := depth, queue, got, visited, collected;
        var edge := adjacent[i];
        CollectableFrom(edgeTable, start, bound, curr, currDepth, edge);
        AppendNew(collected, edge);
        got := got + {edge};
        if edge !in collected {
          collected := collected + [edge];
          if |collected| >= cap {
            return;
          }
        }
        var neighbour := FarEnd(edge, curr);
        if neighbour !in visited {
          visited := visited + {neighbour};
          queue := queue + [Queued(neighbour, currDepth + 1)];
          depth := depth[neighbour := currDepth + 1];
        }
        SpansStep(visited1, collected1, curr, edge, visited, collected);
        Examine(edgeTable, start, bound, depth1, queue1, got1, curr, edge, depth, queue, got);
        DoneStep(adjacent, i, got1, depth1, curr, got, depth);
      }
      FinishExpansion(edgeTable, start, bound, depth, queue, got, curr, adjacent);
    }

    method Neighbours(start: EntityId, maxDepth: int, limit: int) returns (g: Subgraph)
      requires Distinct(edgeTable)
      // Whatever was cut, everything returned lies within the bound, and no edge is repeated.
      ensures Distinct(g.edges)
      ensures AllCollectable(edgeTable, start, Min(maxDepth, ABSOLUTE_MAX_DEPTH), Elements(g.edges))
      ensures forall x :: x in g.entities ==>
                x in entityTable && Within(edgeTable, start, Max(Min(maxDepth, ABSOLUTE_MAX_DEPTH), 0), x.id)
      // So do both ends of every edge, even where the search stopped before it visited the far end.
      ensures forall e :: e in g.edges ==>
                && Within(edgeTable, start, Min(maxDepth, ABSOLUTE_MAX_DEPTH), e.src)
                && Within(edgeTable, start, Min(maxDepth, ABSOLUTE_MAX_DEPTH), e.dst)
      // There are no more entities than the edges can have reached, and never more than a cap of at least one.
      ensures |Ids(g.entities)| <= |g.edges| + 1
      ensures |Ids(g.entities)| <= Max(Min(limit, ABSOLUTE_RESULT_CAP), 1)
      // The answer is as large as the cap allows, and the graph alone decides `truncated`.
      ensures var all := |Collectable(edgeTable, start, Min(maxDepth, ABSOLUTE_MAX_DEPTH))|;
              var cap := Min(limit, ABSOLUTE_RESULT_CAP);
              && |g.edges| == Min(all, Max(cap, 0))
              && (g.truncated <==> cap <= all)
      // Below the cap the answer is complete.
      ensures !g.truncated ==>
                && Elements(g.edges) == Collectable(edgeTable, start, Min(maxDepth, ABSOLUTE_MAX_DEPTH))
                && forall x :: x in entityTable
                               && Within(edgeTable, start, Max(Min(maxDepth, ABSOLUTE_MAX_DEPTH), 0), x.id)
                               ==> x in g.entities
    {
      var bound := Min(maxDepth, ABSOLUTE_MAX_DEPTH);
      var cap := Min(limit, ABSOLUTE_RESULT_CAP);
      var visited: set<EntityId> := {start};
      var collected: seq<Edge> := [];
      var queue: seq<Queued> := [Queued(start, 0)];
      WithinSelf(edgeTable, start);
      ghost var depth: map<EntityId, int> := map[start := 0];
      ghost var universe := Nodes(edgeTable, start);

      while queue != [] && |collected| < cap
        invariant visited == depth.Keys <= universe
        invariant DepthsSound(edgeTable, start, Max(bound, 0), depth)
        invariant Distinct(collected) && AllCollectable(edgeTable, start, bound, Elements(collected))
        invariant |collected| <= Max(cap, 0)
        invariant |collected| < cap ==> Searching(edgeTable, start, bound, depth, queue, Elements(collected))
        invariant |visited| <= Max(cap, 1) && |visited| <= |collected| + 1
        invariant |collected| < cap ==> Spans(visited, collected)
        decreases universe - visited, |queue|, |collected| < cap
      {
        var Queued(curr, currDepth) := queue[0];
        Pop(edgeTable, start, bound, depth, queue, Elements(collected));
        queue := queue[1..];
        if currDepth < bound {
          ghost var visited0 := visited;
          visited, queue, collected, depth :=
            ExpandEntity(curr, currDepth, cap, visited, queue, collected, start, bound, depth, universe);
          UnvisitedShrink(universe, visited0, visited);
        }
      }
      Sizes(edgeTable, start, bound, cap, depth, collected, Elements(collected));
      VisitedIffWithin(edgeTable, start, bound, depth, Elements(collected));
      EndsAreWithin(edgeTable, start, bound, collected);
      var entities := SelectEntities(visited);
      IdsAreSelected(entities, visited);
      g := Subgraph(entities, collected, |collected| >= cap);
    }

    /** The edge rows leaving `x`, each once; callers may rely on no particular order. */
    method SelectLeaving(x: EntityId) returns (rows: seq<Edge>)
      requires Distinct(edgeTable)
      ensures Distinct(rows)
      ensures forall e :: e in rows <==> e in edgeTable && e.src == x
    {
      rows := [];
      for i := 0 to |edgeTable|
        invariant Distinct(rows)
        invariant forall e :: e in rows <==> e in edgeTable[..i] && e.src == x
      {
        assert edgeTable[..i + 1] == edgeTable[..i] + [edgeTable[i]];
        assert edgeTable[i] !in edgeTable[..i];
        if edgeTable[i].src == x {
          rows := rows + [edgeTable[i]];
        }
      }
    }

    /** The inner loop: extend `c` by each edge leaving it, stopping at the cap. */
    method ExtendPath(c: Partial, cap: int, queue0: seq<Partial>, paths0: seq<Path>, src: EntityId, dst: EntityId,
                      ghost bound: int, ghost open0: set<Path>, ghost current: int)
      returns (queue: seq<Partial>, paths: seq<Path>, ghost open: set<Path>)
      requires Distinct(edgeTable) && src != dst
      requires PartialOk(edgeTable, src, dst, c) && |c.path| < bound
      requires QueueOk(edgeTable, src, dst, queue0) && c.path !in PathsOf(queue0)
      requires Levelled(queue0, |c.path|, current, bound)
      requires open0 == PathsOf(queue0) + {c.path}
      requires Frontier(edgeTable, src, dst, bound, open0, paths0)
      requires FoundOk(edgeTable, src, dst, bound, paths0) && |paths0| < cap
      requires Split(src, dst, |c.path| + 1, open0, paths0)
      ensures |paths| <= cap && FoundOk(edgeTable, src, dst, bound, paths)
      ensures |paths| < cap ==> Enumerating(edgeTable, src, dst, bound, queue, paths, open, |c.path|, current)
      ensures Frontier(edgeTable, src, dst, bound, open, paths) && Split(src, dst, |c.path| + 1, open, paths)
    {
      queue, paths := queue0, paths0;
      var outEdges := SelectLeaving(c.at);
      open := PathsOf(queue) + Kids(c.path, outEdges, 0);
      ExtendStart(edgeTable, src, dst, bound, current, c.path, outEdges, queue, paths, open0);
      for i := 0 to |outEdges|
        invariant Extending(edgeTable, src, dst, bound, current, c.path, outEdges, i, queue, paths, open)
        invariant |paths| < cap
      {
        var edge := outEdges[i];
        if edge.dst == dst {
          ExtendFound(edgeTable, src, dst, bound, current, c.path, outEdges, i, queue, paths, open);
          paths, open := paths + [c.path + [edge]], open - {c.path + [edge]};
          if |paths| >= cap {
            return;
          }
        } else if edge.dst !in c.seen {
          var longer := Partial(edge.dst, c.path + [edge], c.seen + {edge.dst});
          ExtendQueue(edgeTable, src, dst, bound, current, c, outEdges, i, queue, paths, open, longer);
          queue := queue + [longer];
        } else {
          ExtendPruned(edgeTable, src, dst, bound, current, c.path, outEdges, i, queue, paths, open);
          open := open - {c.path + [edge]};
        }
      }
      ExtendEnd(edgeTable, src, dst, bound, current, c.path, outEdges, queue, paths, open);
    }

    method PathsBetween(src: EntityId, dst: EntityId, maxDepth: int, limit: int) returns (paths: seq<Path>)
      requires Distinct(edgeTable)
      ensures src == dst ==> paths == []
      // Only simple paths within the bound, each once, shortest first.
      ensures FoundOk(edgeTable, src, dst, Min(maxDepth, ABSOLUTE_MAX_DEPTH), paths)
      ensures |paths| <= Max(Min(limit, ABSOLUTE_PATH_CAP), 0)
      // A path is omitted only at the cap, and then it is no shorter than any path returned.
      ensures var bound, cap := Min(maxDepth, ABSOLUTE_MAX_DEPTH), Min(limit, ABSOLUTE_PATH_CAP);
              src != dst ==>
                forall p :: SimplePath(edgeTable, src, dst, p) && |p| <= bound && p !in paths ==>
                  cap <= |paths| && forall r :: r in paths ==> |r| <= |p|
    {
      paths := [];
      if src == dst {
        return;
      }
      var bound := Min(maxDepth, ABSOLUTE_MAX_DEPTH);
      var cap := Min(limit, ABSOLUTE_PATH_CAP);
      var queue := [Partial(src, [], {src})];
      ghost var open: set<Path> := {[]};
      ghost var level, current := 0, 1;
      EnumerationStart(edgeTable, src, dst, bound);

      while queue != [] && |paths| < cap
        invariant 0 <= level <= Max(bound, 0) && 0 <= current
        invariant |paths| <= Max(cap, 0) && FoundOk(edgeTable, src, dst, bound, paths)
        invariant |paths| < cap ==> Enumerating(edgeTable, src, dst, bound, queue, paths, open, level, current)
        invariant Frontier(edgeTable, src, dst, bound, open, paths) && Split(src, dst, level + 1, open, paths)
        decreases Max(bound, 0) - level, current
      {
        if current == 0 {
          NextLevel(edgeTable, src, dst, bound, queue, paths, open, level);
          level, current := level + 1, |queue|;
        }
        var c := queue[0];
        PopPartial(edgeTable, src, dst, bound, queue, paths, open, level, current);
        queue, current := queue[1..], current - 1;
        if |c.path| >= bound {
          open := open - {c.path};
        } else {
          queue, paths, open := ExtendPath(c, cap, queue, paths, src, dst, bound, open, current);
        }
      }
      forall p: Path | SimplePath(edgeTable, src, dst, p) && |p| <= bound && p !in paths
        ensures cap <= |paths| && forall r :: r in paths ==> |r| <= |p|
      {
        OmittedAreLonger(edgeTable, src, dst, bound, level + 1, open, paths, p);
      }
    }
  }
}
