/**
 One-to-one maximum bipartite matching between predicted and ground-truth findings
 (experiments/metrics/matcher.py).  The pairing is grown by a recursive augmenting search that
 updates one shared dictionary in place; `Match` is proved to return a matching that no other
 matching of the same graph exceeds, together with the vertex cover that certifies it.
 */
module Matcher {
  import opened Prelude
  import opened Sorting

  type Id = string

  /** How one prediction relates to one ground-truth finding; the keyword tests stay abstract. */
  datatype Verdict = Linked | EntityMismatch | BehaviorMismatch | Unrelated

  datatype NearMiss = NearMiss(pred: Id, gt: Id, reason: Verdict)

  /** A prediction and a ground truth, by place. */
  datatype Cell = Cell(row: nat, column: nat)

  datatype MatchingResult = MatchingResult(
    matchedPairs: seq<(Id, Id)>,
    unmatchedPredictions: seq<Id>,
    unmatchedGroundTruth: seq<Id>,
    nearMisses: seq<NearMiss>)

  // ---------------------------------------------------------------------------------------------
  // The graph and its matchings
  // ---------------------------------------------------------------------------------------------

  ghost function Edges(predicted: seq<Id>, groundTruth: seq<Id>, judge: (nat, nat) -> Verdict): set<(Id, Id)> {
    set i: nat, j: nat | i < |predicted| && j < |groundTruth| && judge(i, j) == Linked ::
      (predicted[i], groundTruth[j])
  }

  ghost predicate IsMatching(m: set<(Id, Id)>, edges: set<(Id, Id)>) {
    && m <= edges
    && forall e, f :: e in m && f in m && e != f ==> e.0 != f.0 && e.1 != f.1
  }

  ghost predicate IsVertexCover(preds: set<Id>, gts: set<Id>, edges: set<(Id, Id)>) {
    forall e :: e in edges ==> e.0 in preds || e.1 in gts
  }

  function MatchedPreds(pairs: seq<(Id, Id)>): set<Id> {
    set e | e in pairs :: e.0
  }

  function MatchedGts(pairs: seq<(Id, Id)>): set<Id> {
    set e | e in pairs :: e.1
  }

  /** The entries of `s` outside `drop`, in order. */
  function Without(s: seq<Id>, drop: set<Id>): (r: seq<Id>)
    ensures forall x :: x in r <==> x in s && x !in drop
  {
    if s == [] then []
    else
      var rest := Without(s[1..], drop);
      if s[0] in drop then rest else [s[0]] + rest
  }

  // ---------------------------------------------------------------------------------------------
  // Predicates over an adjacency map and a pairing from ground truth to prediction
  // ---------------------------------------------------------------------------------------------

  ghost predicate OnEdges(adj: map<Id, seq<Id>>, pair: map<Id, Id>) {
    forall g :: g in pair ==> pair[g] in adj && g in adj[pair[g]]
  }

  ghost predicate Injective(pair: map<Id, Id>) {
    forall g, h :: g in pair && h in pair && pair[g] == pair[h] ==> g == h
  }

  /** Only `u` may be held by more than one ground truth. */
  ghost predicate InjectiveBut(pair: map<Id, Id>, u: Id) {
    forall g, h :: g in pair && h in pair && pair[g] == pair[h] && pair[g] != u ==> g == h
  }

  ghost predicate Covered(neighbours: seq<Id>, d: set<Id>) {
    forall g :: g in neighbours ==> g in d
  }

  /** A dead set: every member is matched, and its partner has no neighbour outside the set. */
  ghost predicate Dead(adj: map<Id, seq<Id>>, pair: map<Id, Id>, d: set<Id>) {
    forall g :: g in d ==> g in pair && pair[g] in adj && Covered(adj[pair[g]], d)
  }

  ghost predicate AgreeOn(a: map<Id, Id>, b: map<Id, Id>, d: set<Id>) {
    forall g :: g in d ==> (g in a <==> g in b) && (g in a ==> a[g] == b[g])
  }

  // ---------------------------------------------------------------------------------------------
  // Weak duality
  // ---------------------------------------------------------------------------------------------

  lemma {:induction false} InjectionBound(m: set<(Id, Id)>, f: map<(Id, Id), Id>, target: set<Id>)
    requires m <= f.Keys
    requires forall e :: e in m ==> f[e] in target
    requires forall e, e' :: e in m && e' in m && f[e] == f[e'] ==> e == e'
    ensures |m| <= |target|
  {
    if m != {} {
      var e :| e in m;
      InjectionBound(m - {e}, f, target - {f[e]});
    }
  }

  lemma {:induction false} PredictionsBound(m: set<(Id, Id)>, preds: set<Id>)
    requires forall e :: e in m ==> e.0 in preds
    requires forall e, f :: e in m && f in m && e != f ==> e.0 != f.0
    ensures |m| <= |preds|
  {
    InjectionBound(m, map e | e in m :: e.0, preds);
  }

  lemma {:induction false} GroundTruthsBound(m: set<(Id, Id)>, gts: set<Id>)
    requires forall e :: e in m ==> e.1 in gts
    requires forall e, f :: e in m && f in m && e != f ==> e.1 != f.1
    ensures |m| <= |gts|
  {
    InjectionBound(m, map e | e in m :: e.1, gts);
  }

  /** Any matching is no larger than any vertex cover. */
  lemma {:induction false} WeakDuality(m: set<(Id, Id)>, edges: set<(Id, Id)>, preds: set<Id>, gts: set<Id>)
    requires IsMatching(m, edges) && IsVertexCover(preds, gts, edges)
    ensures |m| <= |preds| + |gts|
  {
    var left := set e | e in m && e.0 in preds;
    var right := m - left;
    PredictionsBound(left, preds);
    GroundTruthsBound(right, gts);
    assert m == left + right;
  }

  /** The holders of the pairs outside the dead set. */
  ghost function LiveHolders(pair: map<Id, Id>, d: set<Id>): set<Id> {
    set g | g in pair && g !in d :: pair[g]
  }

  lemma {:induction false} LiveHolderCount(pair: map<Id, Id>, d: set<Id>)
    requires Injective(pair)
    requires d <= pair.Keys
    ensures |LiveHolders(pair, d)| + |d| <= |pair|
    decreases pair
  {
    var live := pair.Keys - d;
    assert |live| + |d| == |pair| by { assert live + d == pair.Keys; }
    ImageBound(pair, live);
    assert LiveHolders(pair, d) == set g | g in live :: pair[g];
  }

  lemma {:induction false} ImageBound(pair: map<Id, Id>, keys: set<Id>)
    requires keys <= pair.Keys
    ensures |set g | g in keys :: pair[g]| <= |keys|
  {
    if keys != {} {
      var k :| k in keys;
      ImageBound(pair, keys - {k});
      assert (set g | g in keys :: pair[g]) == (set g | g in keys - {k} :: pair[g]) + {pair[k]};
    }
  }

  /**
   A pairing whose unmatched predictions have only dead neighbours is optimal: the dead set and
   the live holders form a vertex cover that is no larger than the pairing.
   */
  lemma {:induction false} CoverOfPairing(adj: map<Id, seq<Id>>, pair: map<Id, Id>, d: set<Id>, edges: set<(Id, Id)>)
    requires OnEdges(adj, pair) && Injective(pair) && Dead(adj, pair, d)
    requires forall p :: p in adj ==> p in pair.Values || Covered(adj[p], d)
    requires forall e :: e in edges ==> e.0 in adj && e.1 in adj[e.0]
    ensures IsVertexCover(LiveHolders(pair, d), d, edges)
    ensures |LiveHolders(pair, d)| + |d| <= |pair|
  {
    forall e | e in edges && e.1 !in d
      ensures e.0 in LiveHolders(pair, d)
    {
      assert !Covered(adj[e.0], d);
      assert e.0 in pair.Values;
      var g :| g in pair && pair[g] == e.0;
      assert g !in d;
    }
    LiveHolderCount(pair, d);
  }

  // ---------------------------------------------------------------------------------------------
  // One augmenting search, as a relation between the pairing before and after it
  // ---------------------------------------------------------------------------------------------

  ghost predicate HeldWithin(pair: map<Id, Id>, u: Id, d: set<Id>) {
    forall g :: g in pair && pair[g] == u ==> g in d
  }

  /** `u` holds exactly one ground truth outside `visited0`. */
  ghost predicate HoldsOneOutside(pair: map<Id, Id>, u: Id, visited0: set<Id>) {
    && (exists g :: g in pair && g !in visited0 && pair[g] == u)
    && forall g, h :: g in pair && g !in visited0 && pair[g] == u && h in pair && h !in visited0 && pair[h] == u ==>
        g == h
  }

  /**
   A successful search from `u`: everybody matched before still is, `u` gains one ground truth
   outside `visited0`, no ground truth is released, and only `u` may hold two.
   */
  ghost predicate Augmented(pair0: map<Id, Id>, pair1: map<Id, Id>, visited0: set<Id>, u: Id) {
    && InjectiveBut(pair1, u)
    && HoldsOneOutside(pair1, u, visited0)
    && pair1.Values == pair0.Values + {u}
    && pair0.Keys <= pair1.Keys
  }

  /** A failed search: whatever it visited is matched to predictions with nowhere else to go. */
  ghost predicate Exhausted(adj: map<Id, seq<Id>>, pair: map<Id, Id>, visited0: set<Id>, visited1: set<Id>) {
    forall g :: g in visited1 - visited0 ==> g in pair && pair[g] in adj && Covered(adj[pair[g]], visited1)
  }

  lemma {:induction false} ExhaustedGrows(adj: map<Id, seq<Id>>, pair: map<Id, Id>, v0: set<Id>, v1: set<Id>,
                                          v2: set<Id>, v: Id)
    requires v in pair && pair[v] in adj && v0 <= v1 && v1 + {v} <= v2
    requires Exhausted(adj, pair, v0, v1) && Exhausted(adj, pair, v1 + {v}, v2)
    requires Covered(adj[pair[v]], v2)
    ensures Exhausted(adj, pair, v0, v2)
  {
    forall g | g in v2 - v0
      ensures g in pair && pair[g] in adj && Covered(adj[pair[g]], v2)
    {
      if g in v1 { assert g in v1 - v0; } else if g != v { assert g in v2 - (v1 + {v}); }
    }
  }

  lemma {:induction false} OnEdgesAfterAssign(adj: map<Id, seq<Id>>, pair: map<Id, Id>, v: Id, u: Id)
    requires OnEdges(adj, pair) && u in adj && v in adj[u]
    ensures OnEdges(adj, pair[v := u])
  {
  }

  lemma {:induction false} ValuesAfterAssign(pair: map<Id, Id>, v: Id, u: Id)
    requires v in pair ==> exists g :: g in pair && g != v && pair[g] == pair[v]
    ensures pair[v := u].Values == pair.Values + {u}
  {
    var p := pair[v := u];
    assert p[v] == u;
    forall x | x in pair.Values
      ensures x in p.Values
    {
      var g :| g in pair && pair[g] == x && g != v;
      assert p[g] == x;
    }
  }

  /** Taking a free ground truth. */
  lemma {:induction false} ExtendAugments(pair0: map<Id, Id>, visited0: set<Id>, u: Id, v: Id)
    requires Injective(pair0) && HeldWithin(pair0, u, visited0)
    requires v !in visited0 && v !in pair0
    ensures Augmented(pair0, pair0[v := u], visited0, u)
  {
    var p := pair0[v := u];
    assert p.Keys == pair0.Keys + {v};
    assert v in p && v !in visited0 && p[v] == u;
    ValuesAfterAssign(pair0, v, u);
  }

  /** Taking `v` over from `w`, for whom the nested search has just found another partner. */
  lemma {:induction false} RotateAugments(pair0: map<Id, Id>, pair1: map<Id, Id>, visited0: set<Id>,
                                          visited1: set<Id>, u: Id, v: Id, w: Id)
    requires Injective(pair0) && HeldWithin(pair0, u, visited0)
    requires visited0 <= visited1 && v !in visited0 && v in visited1
    requires v in pair0 && pair0[v] == w
    requires AgreeOn(pair1, pair0, visited1) && Augmented(pair0, pair1, visited1, w)
    ensures Augmented(pair0, pair1[v := u], visited0, u)
  {
    assert w != u && w in pair0.Values;
    HeldWithinKept(pair0, pair1, visited0, visited1, u, w);
    assert HoldsOneOutside(pair1[v := u], u, visited0) by {
      assert v in pair1[v := u] && v !in visited0 && pair1[v := u][v] == u;
    }
    assert pair1[v := u].Values == pair0.Values + {u} by {
      var other :| other in pair1 && other !in visited1 && pair1[other] == w;
      ValuesAfterAssign(pair1, v, u);
    }
    InjectiveAfterRotation(pair1, visited1, u, v, w);
  }

  lemma {:induction false} InjectiveAfterRotation(pair1: map<Id, Id>, visited1: set<Id>, u: Id, v: Id, w: Id)
    requires v in pair1 && v in visited1 && pair1[v] == w && w != u
    requires InjectiveBut(pair1, w) && HoldsOneOutside(pair1, w, visited1)
    requires forall g :: g in pair1 && g in visited1 && pair1[g] == w ==> g == v
    ensures InjectiveBut(pair1[v := u], u)
  {
  }

  lemma {:induction false} HeldWithinKept(pair0: map<Id, Id>, pair1: map<Id, Id>, visited0: set<Id>,
                                          visited1: set<Id>, u: Id, w: Id)
    requires HeldWithin(pair0, u, visited0) && visited0 <= visited1 && w != u
    requires AgreeOn(pair1, pair0, visited1) && InjectiveBut(pair1, w)
    requires pair1.Values == pair0.Values + {w}
    ensures HeldWithin(pair1, u, visited0)
  {
    forall g | g in pair1 && pair1[g] == u
      ensures g in visited0
    {
      assert u in pair1.Values;
      var h :| h in pair0 && pair0[h] == u;
      assert h in visited1 && pair1[h] == u;
    }
  }

  lemma {:induction false} AgreeAfterAssign(pair: map<Id, Id>, pair0: map<Id, Id>, v: Id, u: Id, d: set<Id>,
                                            part: set<Id>)
    requires AgreeOn(pair, pair0, d) && part <= d && v !in part
    ensures AgreeOn(pair[v := u], pair0, part)
  {
  }

  /** Entries were added at the end only. */
  ghost predicate Grown(order: seq<Id>, longer: seq<Id>) {
    order <= longer
  }

  lemma {:induction false} GrownTwice(a: seq<Id>, b: seq<Id>, c: seq<Id>)
    requires Grown(a, b) && Grown(b, c)
    ensures Grown(a, c)
  {
  }

  // ---------------------------------------------------------------------------------------------
  // The matcher
  // ---------------------------------------------------------------------------------------------

  class MaximumBipartiteMatcher {
    var adj: map<Id, seq<Id>>
    var pair: map<Id, Id>
    /** The keys of `pair` in the order they were first inserted. */
    var pairOrder: seq<Id>
    var visited: set<Id>

    constructor ()
      ensures adj == map[] && pair == map[] && pairOrder == [] && visited == {}
    {
      adj, pair, pairOrder, visited := map[], map[], [], {};
    }

    ghost predicate Ordered()
      reads this
    {
      Distinct(pairOrder) && Elements(pairOrder) == pair.Keys
    }

    method Assign(v: Id, u: Id)
      requires Ordered()
      modifies this`pair, this`pairOrder
      ensures Ordered() && pair == old(pair)[v := u] && Grown(old(pairOrder), pairOrder)
    {
      if v !in pair {
        pairOrder := pairOrder + [v];
      }
      pair := pair[v := u];
      assert forall x :: x in pairOrder <==> x in old(pairOrder) || x == v;
    }

    /**
     The augmenting search from prediction `u`.  `all` bounds what can be visited; `dead` is any
     dead set of the pairing on entry, in which the search can gain nothing and changes nothing.
     */
    method Dfs(u: Id, ghost all: set<Id>, ghost dead: set<Id>) returns (found: bool)
      requires u in adj && visited <= all
      requires forall p :: p in adj ==> Covered(adj[p], all)
      requires Ordered() && OnEdges(adj, pair) && Injective(pair)
      requires HeldWithin(pair, u, visited)
      requires Dead(adj, pair, dead)
      modifies this`pair, this`pairOrder, this`visited
      decreases all - visited
      ensures Ordered() && OnEdges(adj, pair) && Grown(old(pairOrder), pairOrder)
      ensures old(visited) <= visited <= all
      ensures AgreeOn(pair, old(pair), old(visited) + dead)
      ensures found ==> Augmented(old(pair), pair, old(visited), u)
      ensures !found ==> pair == old(pair) && pairOrder == old(pairOrder)
      ensures !found ==> Covered(adj[u], visited) && Exhausted(adj, pair, old(visited), visited)
      ensures Covered(adj[u], dead) ==> !found
    {
      ghost var pair0, order0, visited0 := pair, pairOrder, visited;
      for i := 0 to |adj[u]|
        invariant pair == pair0 && pairOrder == order0
        invariant visited0 <= visited <= all
        invariant Covered(adj[u][..i], visited)
        invariant Exhausted(adj, pair, visited0, visited)
      {
        var v := adj[u][i];
        assert v in all;
        if v !in visited {
          ghost var visited1 := visited;
          visited := visited + {v};
          if v !in pair {
            ExtendAugments(pair0, visited0, u, v);
            OnEdgesAfterAssign(adj, pair, v, u);
            Assign(v, u);
            return true;
          }
          var w := pair[v];
          var freed := Dfs(w, all, dead);
          if freed {
            assert v !in dead;
            RotateAugments(pair0, pair, visited0, visited1 + {v}, u, v, w);
            OnEdgesAfterAssign(adj, pair, v, u);
            AgreeAfterAssign(pair, pair0, v, u, visited1 + {v} + dead, visited0 + dead);
            ghost var order1 := pairOrder;
            Assign(v, u);
            GrownTwice(order0, order1, pairOrder);
            return true;
          }
          ExhaustedGrows(adj, pair, visited0, visited1, visited, v);
        }
        assert adj[u][..i + 1] == adj[u][..i] + [v];
      }
      assert adj[u][..|adj[u]|] == adj[u];
      return false;
    }

    /** Every distinct predicted id starts with no neighbours; `keys` is their insertion order. */
    method InitAdjacency(predicted: seq<Id>) returns (keys: seq<Id>)
      modifies this`adj
      ensures keys == Firsts(predicted, {}) && Distinct(keys) && Elements(keys) == Elements(predicted) == adj.Keys
      ensures forall p :: p in adj ==> adj[p] == []
    {
      keys, adj := [], map[];
      for i := 0 to |predicted|
        invariant keys == Firsts(predicted[..i], {}) && forall p :: p in adj <==> p in keys
        invariant forall p :: p in adj ==> adj[p] == []
      {
        assert predicted[..i + 1][..i] == predicted[..i];
        if predicted[i] !in adj {
          keys := keys + [predicted[i]];
        }
        adj := adj[predicted[i] := []];
      }
      assert predicted[..|predicted|] == predicted;
      FirstsSelect(predicted, {});
    }

    /** `adj` lists, for each distinct predicted id, the linked ground truths. */
    method BuildAdjacency(predicted: seq<Id>, groundTruth: seq<Id>, judge: (nat, nat) -> Verdict)
      returns (keys: seq<Id>, nearMisses: seq<NearMiss>)
      modifies this`adj
      ensures keys == Firsts(predicted, {}) && Distinct(keys) && Elements(keys) == Elements(predicted) == adj.Keys
      ensures forall e :: e in Edges(predicted, groundTruth, judge) <==> e.0 in adj && e.1 in adj[e.0]
      ensures nearMisses == NearMisses(predicted, groundTruth, judge, |predicted|)
    {
      keys := InitAdjacency(predicted);
      nearMisses := [];
      for i := 0 to |predicted|
        invariant adj.Keys == Elements(predicted) && nearMisses == NearMisses(predicted, groundTruth, judge, i)
        invariant Represents(adj, EdgesUpTo(predicted, groundTruth, judge, i, 0))
      {
        for j := 0 to |groundTruth|
          invariant Built(predicted, groundTruth, judge, i, j, adj, nearMisses)
        {
          var p, g := predicted[i], groundTruth[j];
          BuiltNext(predicted, groundTruth, judge, i, j, adj, nearMisses);
          match judge(i, j)
          case Linked =>
            adj := adj[p := adj[p] + [g]];
          case Unrelated =>
          case _ =>
            nearMisses := nearMisses + [NearMiss(p, g, judge(i, j))];
        }
        RowEnd(predicted, groundTruth, judge, i);
      }
      RepresentsAll(predicted, groundTruth, judge);
    }

    /**
     One pass over the predictions.  `dead` collects what failed searches visited: a prediction
     whose search failed has all its neighbours there, and no later search can enter it.
     */
    method AugmentAll(keys: seq<Id>) returns (ghost dead: set<Id>, ghost failed: set<Id>)
      requires Distinct(keys) && Elements(keys) == adj.Keys
      requires pair == map[] && pairOrder == []
      modifies this`pair, this`pairOrder, this`visited
      ensures Ordered() && OnEdges(adj, pair)
      ensures Progress(adj, pair, dead, failed, adj.Keys)
      ensures AllStood(adj, pairOrder, keys, |keys|)
    {
      ghost var all := AllNeighbours(adj);
      dead, failed := {}, {};
      PassStarts(adj, keys);
      for i := 0 to |keys|
        invariant Pass(adj, pair, pairOrder, dead, failed, keys, i)
      {
        ghost var pair0, order0 := pair, pairOrder;
        MaySearch(adj, pair, pairOrder, dead, failed, keys, i);
        visited := {};
        var found := Dfs(keys[i], all, dead);
        if found {
          PassFound(adj, pair0, order0, dead, failed, keys, i, pair, pairOrder);
        } else {
          PassFailed(adj, pair, pairOrder, dead, failed, keys, i, visited);
          dead, failed := dead + visited, failed + {keys[i]};
        }
      }
      assert keys[..|keys|] == keys;
    }
  }

  /** A half match: the behaviour or the entities agree, but not both. */
  predicate IsHalf(v: Verdict) {
    v == EntityMismatch || v == BehaviorMismatch
  }

  /** The half matches of one prediction with the first `j` ground truths, in order. */
  function RowMisses(predicted: seq<Id>, groundTruth: seq<Id>, judge: (nat, nat) -> Verdict, i: nat,
                     j: nat): seq<NearMiss>
    requires i < |predicted| && j <= |groundTruth|
  {
    if j == 0 then []
    else
      RowMisses(predicted, groundTruth, judge, i, j - 1)
      + if IsHalf(judge(i, j - 1)) then [NearMiss(predicted[i], groundTruth[j - 1], judge(i, j - 1))] else []
  }

  /** What `BuildAdjacency` records besides edges: the half matches of the first `n` predictions, row by row. */
  function NearMisses(predicted: seq<Id>, groundTruth: seq<Id>, judge: (nat, nat) -> Verdict, n: nat): seq<NearMiss>
    requires n <= |predicted|
  {
    if n == 0 then []
    else
      NearMisses(predicted, groundTruth, judge, n - 1) + RowMisses(predicted, groundTruth, judge, n - 1, |groundTruth|)
  }

  /** The same up to the `j`-th ground truth of the `i`-th prediction. */
  ghost function MissesUpTo(predicted: seq<Id>, groundTruth: seq<Id>, judge: (nat, nat) -> Verdict, i: nat, j: nat)
    : seq<NearMiss>
    requires i < |predicted| && j <= |groundTruth|
  {
    NearMisses(predicted, groundTruth, judge, i) + RowMisses(predicted, groundTruth, judge, i, j)
  }

  lemma {:induction false} MissesUpToNext(predicted: seq<Id>, groundTruth: seq<Id>, judge: (nat, nat) -> Verdict,
                                          i: nat, j: nat)
    requires i < |predicted| && j < |groundTruth|
    ensures MissesUpTo(predicted, groundTruth, judge, i, j + 1)
         == MissesUpTo(predicted, groundTruth, judge, i, j)
            + if IsHalf(judge(i, j)) then [NearMiss(predicted[i], groundTruth[j], judge(i, j))] else []
  {
  }

  lemma {:induction false} NothingToMiss(predicted: seq<Id>, judge: (nat, nat) -> Verdict, n: nat)
    requires n <= |predicted|
    ensures NearMisses(predicted, [], judge, n) == []
  {
    if n > 0 {
      NothingToMiss(predicted, judge, n - 1);
    }
  }

  ghost predicate Before(a: nat, b: nat, i: nat, j: nat) {
    a < i || (a == i && b < j)
  }

  ghost predicate IsMiss(predicted: seq<Id>, groundTruth: seq<Id>, judge: (nat, nat) -> Verdict, c: Cell, m: NearMiss) {
    && c.row < |predicted| && c.column < |groundTruth| && IsHalf(judge(c.row, c.column))
    && m == NearMiss(predicted[c.row], groundTruth[c.column], judge(c.row, c.column))
  }

  ghost predicate InReadingOrder(cells: seq<Cell>) {
    forall k, l :: 0 <= k < l < |cells| ==> Before(cells[k].row, cells[k].column, cells[l].row, cells[l].column)
  }

  /** The near misses are the half matches ahead of the `j`-th ground truth of the `i`-th prediction. */
  ghost predicate AreMisses(predicted: seq<Id>, groundTruth: seq<Id>, judge: (nat, nat) -> Verdict, i: nat, j: nat,
                            misses: seq<NearMiss>, cells: seq<Cell>)
  {
    && |misses| == |cells| && InReadingOrder(cells)
    && (forall k :: 0 <= k < |cells| ==> IsMiss(predicted, groundTruth, judge, cells[k], misses[k]))
    && forall c :: c in cells <==> IsHalfAt(predicted, groundTruth, judge, i, j, c)
  }

  ghost predicate IsHalfAt(predicted: seq<Id>, groundTruth: seq<Id>, judge: (nat, nat) -> Verdict, i: nat, j: nat,
                           c: Cell)
  {
    c.row < |predicted| && c.column < |groundTruth| && IsHalf(judge(c.row, c.column)) && Before(c.row, c.column, i, j)
  }

  lemma {:induction false} MissesNext(predicted: seq<Id>, groundTruth: seq<Id>, judge: (nat, nat) -> Verdict, i: nat,
                                      j: nat, misses: seq<NearMiss>, cells: seq<Cell>)
    returns (longer: seq<Cell>)
    requires i < |predicted| && j < |groundTruth| && AreMisses(predicted, groundTruth, judge, i, j, misses, cells)
    ensures AreMisses(predicted, groundTruth, judge, i, j + 1,
                      misses + (if IsHalf(judge(i, j)) then [NearMiss(predicted[i], groundTruth[j], judge(i, j))]
                                else []), longer)
  {
    var here := Cell(i, j);
    forall c: Cell
      ensures IsHalfAt(predicted, groundTruth, judge, i, j + 1, c)
              <==> IsHalfAt(predicted, groundTruth, judge, i, j, c) || (c == here && IsHalf(judge(i, j)))
    {
    }
    if IsHalf(judge(i, j)) {
      longer := cells + [here];
      assert forall k :: 0 <= k < |cells| ==> cells[k] in cells;
    } else {
      longer := cells;
      assert misses + [] == misses;
    }
  }

  lemma {:induction false} MissPlaces(predicted: seq<Id>, groundTruth: seq<Id>, judge: (nat, nat) -> Verdict, i: nat,
                                      j: nat)
    returns (cells: seq<Cell>)
    requires i < |predicted| && j <= |groundTruth|
    ensures AreMisses(predicted, groundTruth, judge, i, j, MissesUpTo(predicted, groundTruth, judge, i, j), cells)
    decreases i, j
  {
    if j > 0 {
      cells := MissPlaces(predicted, groundTruth, judge, i, j - 1);
      MissesUpToNext(predicted, groundTruth, judge, i, j - 1);
      cells := MissesNext(predicted, groundTruth, judge, i, j - 1,
                          MissesUpTo(predicted, groundTruth, judge, i, j - 1), cells);
    } else if i > 0 {
      cells := MissPlaces(predicted, groundTruth, judge, i - 1, |groundTruth|);
      MissesRowEnd(predicted, groundTruth, judge, i, cells);
    } else {
      cells := [];
    }
  }

  lemma {:induction false} MissesRowEnd(predicted: seq<Id>, groundTruth: seq<Id>, judge: (nat, nat) -> Verdict, i: nat,
                                        cells: seq<Cell>)
    requires 0 < i < |predicted|
    requires AreMisses(predicted, groundTruth, judge, i - 1, |groundTruth|,
                       MissesUpTo(predicted, groundTruth, judge, i - 1, |groundTruth|), cells)
    ensures AreMisses(predicted, groundTruth, judge, i, 0, MissesUpTo(predicted, groundTruth, judge, i, 0), cells)
  {
    var misses := NearMisses(predicted, groundTruth, judge, i);
    assert misses + [] == misses;
    forall c: Cell
      ensures IsHalfAt(predicted, groundTruth, judge, i - 1, |groundTruth|, c)
              <==> IsHalfAt(predicted, groundTruth, judge, i, 0, c)
    {
    }
  }

  /** Exactly the half matches are recorded, each once, prediction by prediction and ground truth by ground truth. */
  lemma {:induction false} NearMissesMean(predicted: seq<Id>, groundTruth: seq<Id>, judge: (nat, nat) -> Verdict)
    returns (cells: seq<Cell>)
    ensures AreMisses(predicted, groundTruth, judge, |predicted|, 0,
                      NearMisses(predicted, groundTruth, judge, |predicted|), cells)
  {
    cells := [];
    if predicted != [] {
      var i := |predicted| - 1;
      cells := MissPlaces(predicted, groundTruth, judge, i, |groundTruth|);
      forall c: Cell
        ensures IsHalfAt(predicted, groundTruth, judge, i, |groundTruth|, c)
                <==> IsHalfAt(predicted, groundTruth, judge, i + 1, 0, c)
      {
      }
    }
  }

  ghost function EdgesUpTo(predicted: seq<Id>, groundTruth: seq<Id>, judge: (nat, nat) -> Verdict, i: nat, j: nat)
    : set<(Id, Id)>
  {
    set a: nat, b: nat | a < |predicted| && b < |groundTruth| && Before(a, b, i, j) && judge(a, b) == Linked ::
      (predicted[a], groundTruth[b])
  }

  ghost predicate Represents(adj: map<Id, seq<Id>>, edges: set<(Id, Id)>) {
    forall e: (Id, Id) :: e in edges <==> e.0 in adj && e.1 in adj[e.0]
  }

  lemma {:induction false} RepresentsAppend(adj: map<Id, seq<Id>>, edges: set<(Id, Id)>, p: Id, g: Id)
    requires Represents(adj, edges) && p in adj
    ensures Represents(adj[p := adj[p] + [g]], edges + {(p, g)})
  {
  }

  lemma {:induction false} EdgesUpToNext(predicted: seq<Id>, groundTruth: seq<Id>,
                                         judge: (nat, nat) -> Verdict, i: nat, j: nat)
    requires i < |predicted| && j < |groundTruth|
    ensures EdgesUpTo(predicted, groundTruth, judge, i, j + 1)
         == EdgesUpTo(predicted, groundTruth, judge, i, j)
            + (if judge(i, j) == Linked then {(predicted[i], groundTruth[j])} else {})
  {
    forall a: nat, b: nat
      ensures Before(a, b, i, j + 1) <==> Before(a, b, i, j) || (a == i && b == j)
    {
    }
    assert Before(i, j, i, j + 1);
  }

  /** What the two loops have recorded ahead of the `j`-th ground truth of the `i`-th prediction. */
  ghost predicate Built(predicted: seq<Id>, groundTruth: seq<Id>, judge: (nat, nat) -> Verdict, i: nat, j: nat,
                        adj: map<Id, seq<Id>>, nearMisses: seq<NearMiss>)
    requires i < |predicted| && j <= |groundTruth|
  {
    && adj.Keys == Elements(predicted)
    && Represents(adj, EdgesUpTo(predicted, groundTruth, judge, i, j))
    && nearMisses == MissesUpTo(predicted, groundTruth, judge, i, j)
  }

  lemma {:induction false} BuiltNext(predicted: seq<Id>, groundTruth: seq<Id>, judge: (nat, nat) -> Verdict, i: nat,
                                     j: nat, adj: map<Id, seq<Id>>, nearMisses: seq<NearMiss>)
    requires i < |predicted| && j < |groundTruth| && Built(predicted, groundTruth, judge, i, j, adj, nearMisses)
    ensures var p, g := predicted[i], groundTruth[j];
            && p in adj
            && match judge(i, j)
               case Linked =>
                 Built(predicted, groundTruth, judge, i, j + 1, adj[p := adj[p] + [g]], nearMisses)
               case Unrelated => Built(predicted, groundTruth, judge, i, j + 1, adj, nearMisses)
               case _ =>
                 Built(predicted, groundTruth, judge, i, j + 1, adj, nearMisses + [NearMiss(p, g, judge(i, j))])
  {
    var p, g := predicted[i], groundTruth[j];
    assert p in Elements(predicted);
    EdgesUpToNext(predicted, groundTruth, judge, i, j);
    MissesUpToNext(predicted, groundTruth, judge, i, j);
    match judge(i, j)
    case Linked =>
      RepresentsAppend(adj, EdgesUpTo(predicted, groundTruth, judge, i, j), p, g);
      assert adj[p := adj[p] + [g]].Keys == adj.Keys && nearMisses + [] == nearMisses;
    case Unrelated =>
      assert nearMisses + [] == nearMisses;
    case _ =>
  }

  lemma {:induction false} RowEnd(predicted: seq<Id>, groundTruth: seq<Id>, judge: (nat, nat) -> Verdict, i: nat)
    ensures EdgesUpTo(predicted, groundTruth, judge, i, |groundTruth|)
         == EdgesUpTo(predicted, groundTruth, judge, i + 1, 0)
  {
    assert forall a: nat, b: nat :: b < |groundTruth| ==> (Before(a, b, i, |groundTruth|) <==> Before(a, b, i + 1, 0));
  }

  lemma {:induction false} RepresentsAll(predicted: seq<Id>, groundTruth: seq<Id>, judge: (nat, nat) -> Verdict)
    ensures EdgesUpTo(predicted, groundTruth, judge, |predicted|, 0) == Edges(predicted, groundTruth, judge)
  {
    assert forall a: nat, b: nat :: a < |predicted| ==> Before(a, b, |predicted|, 0);
  }

  /**
   The main loop's invariant: of the predictions `done`, the failed ones are exactly the unmatched
   ones, and all their neighbours lie in the dead set.
   */
  ghost predicate Progress(adj: map<Id, seq<Id>>, pair: map<Id, Id>, dead: set<Id>, failed: set<Id>, done: set<Id>) {
    && Injective(pair)
    && Dead(adj, pair, dead)
    && failed !! pair.Values
    && failed + pair.Values == done
    && forall p :: p in failed ==> p in adj && Covered(adj[p], dead)
  }

  lemma {:induction false} ProgressFound(adj: map<Id, seq<Id>>, pair0: map<Id, Id>, pair1: map<Id, Id>, dead: set<Id>,
                                         failed: set<Id>, done: set<Id>, p: Id)
    requires Progress(adj, pair0, dead, failed, done) && p !in done
    requires Augmented(pair0, pair1, {}, p) && AgreeOn(pair1, pair0, dead)
    ensures Progress(adj, pair1, dead, failed, done + {p})
  {
  }

  lemma {:induction false} ProgressFailed(adj: map<Id, seq<Id>>, pair: map<Id, Id>, dead: set<Id>, failed: set<Id>,
                                          visited: set<Id>, done: set<Id>, p: Id)
    requires Progress(adj, pair, dead, failed, done) && p !in done && p in adj
    requires Covered(adj[p], visited) && Exhausted(adj, pair, {}, visited)
    ensures Progress(adj, pair, dead + visited, failed + {p}, done + {p})
  {
    assert forall g :: g in visited ==> g in visited - {};
  }

  // ---------------------------------------------------------------------------------------------
  // The order of the pairs
  // ---------------------------------------------------------------------------------------------

  /** A pairing of the predictions `done` that nothing was left to add to, with the first ground truths of the order. */
  ghost predicate IsStage(adj: map<Id, seq<Id>>, order: seq<Id>, done: set<Id>, pair: map<Id, Id>, dead: set<Id>,
                          failed: set<Id>) {
    && OnEdges(adj, pair) && Progress(adj, pair, dead, failed, done)
    && |pair| <= |order| && pair.Keys == Elements(order[..|pair|])
  }

  ghost predicate Stood(adj: map<Id, seq<Id>>, order: seq<Id>, done: set<Id>) {
    exists pair, dead, failed :: IsStage(adj, order, done, pair, dead, failed)
  }

  lemma {:induction false} StandsNow(adj: map<Id, seq<Id>>, order: seq<Id>, done: set<Id>, pair: map<Id, Id>,
                                     dead: set<Id>, failed: set<Id>)
    requires OnEdges(adj, pair) && Progress(adj, pair, dead, failed, done)
    requires Distinct(order) && Elements(order) == pair.Keys
    ensures Stood(adj, order, done)
  {
    DistinctCount(order);
    assert order[..|pair|] == order;
    assert IsStage(adj, order, done, pair, dead, failed);
  }

  /** The order has stood behind each of the first `n` predictions. */
  ghost predicate AllStood(adj: map<Id, seq<Id>>, order: seq<Id>, keys: seq<Id>, n: nat)
    requires n <= |keys|
  {
    forall k :: 0 <= k <= n ==> StoodAt(adj, order, keys, k)
  }

  ghost predicate StoodAt(adj: map<Id, seq<Id>>, order: seq<Id>, keys: seq<Id>, k: int)
    requires 0 <= k <= |keys|
  {
    Stood(adj, order, Elements(keys[..k]))
  }

  lemma {:induction false} StandsStill(adj: map<Id, seq<Id>>, order: seq<Id>, longer: seq<Id>, done: set<Id>)
    requires Grown(order, longer) && Stood(adj, order, done)
    ensures Stood(adj, longer, done)
  {
    var pair, dead, failed :| IsStage(adj, order, done, pair, dead, failed);
    assert longer[..|pair|] == order[..|pair|];
    assert IsStage(adj, longer, done, pair, dead, failed);
  }

  lemma {:induction false} NextStood(adj: map<Id, seq<Id>>, order: seq<Id>, longer: seq<Id>, keys: seq<Id>, n: nat)
    requires n < |keys| && Grown(order, longer) && AllStood(adj, order, keys, n)
    requires Stood(adj, longer, Elements(keys[..n + 1]))
    ensures AllStood(adj, longer, keys, n + 1)
  {
    forall k | 0 <= k <= n
      ensures StoodAt(adj, longer, keys, k)
    {
      assert StoodAt(adj, order, keys, k);
      StandsStill(adj, order, longer, Elements(keys[..k]));
    }
  }

  /** One pass over the predictions, of which `i` have been searched. */
  ghost predicate Pass(adj: map<Id, seq<Id>>, pair: map<Id, Id>, order: seq<Id>, dead: set<Id>, failed: set<Id>,
                       keys: seq<Id>, i: nat)
  {
    && i <= |keys| && Distinct(order) && Elements(order) == pair.Keys && OnEdges(adj, pair)
    && Progress(adj, pair, dead, failed, Elements(keys[..i])) && AllStood(adj, order, keys, i)
  }

  ghost function AllNeighbours(adj: map<Id, seq<Id>>): set<Id> {
    set p, g | p in adj && g in adj[p] :: g
  }

  lemma {:induction false} PassStarts(adj: map<Id, seq<Id>>, keys: seq<Id>)
    ensures Pass(adj, map[], [], {}, {}, keys, 0)
  {
    StandsNow(adj, [], Elements(keys[..0]), map[], {}, {});
  }

  lemma {:induction false} MaySearch(adj: map<Id, seq<Id>>, pair: map<Id, Id>, order: seq<Id>, dead: set<Id>,
                                     failed: set<Id>, keys: seq<Id>, i: nat)
    requires Pass(adj, pair, order, dead, failed, keys, i) && i < |keys|
    requires Distinct(keys) && Elements(keys) == adj.Keys
    ensures keys[i] in adj && forall p :: p in adj ==> Covered(adj[p], AllNeighbours(adj))
    ensures Injective(pair) && HeldWithin(pair, keys[i], {}) && Dead(adj, pair, dead)
  {
    assert keys[i] in Elements(keys) && keys[i] !in Elements(keys[..i]);
    assert forall g :: g in pair ==> pair[g] in pair.Values;
  }

  lemma {:induction false} PassFound(adj: map<Id, seq<Id>>, pair: map<Id, Id>, order: seq<Id>, dead: set<Id>,
                                     failed: set<Id>, keys: seq<Id>, i: nat, pair': map<Id, Id>, order': seq<Id>)
    requires Pass(adj, pair, order, dead, failed, keys, i) && i < |keys| && Distinct(keys)
    requires Augmented(pair, pair', {}, keys[i]) && AgreeOn(pair', pair, dead) && OnEdges(adj, pair')
    requires Distinct(order') && Elements(order') == pair'.Keys && Grown(order, order')
    ensures Pass(adj, pair', order', dead, failed, keys, i + 1)
  {
    DoneNext(keys, i);
    ProgressFound(adj, pair, pair', dead, failed, Elements(keys[..i]), keys[i]);
    StandsNow(adj, order', Elements(keys[..i + 1]), pair', dead, failed);
    NextStood(adj, order, order', keys, i);
  }

  lemma {:induction false} PassFailed(adj: map<Id, seq<Id>>, pair: map<Id, Id>, order: seq<Id>, dead: set<Id>,
                                      failed: set<Id>, keys: seq<Id>, i: nat, visited: set<Id>)
    requires Pass(adj, pair, order, dead, failed, keys, i) && i < |keys| && Distinct(keys) && keys[i] in adj
    requires Covered(adj[keys[i]], visited) && Exhausted(adj, pair, {}, visited)
    ensures Pass(adj, pair, order, dead + visited, failed + {keys[i]}, keys, i + 1)
  {
    DoneNext(keys, i);
    ProgressFailed(adj, pair, dead, failed, visited, Elements(keys[..i]), keys[i]);
    StandsNow(adj, order, Elements(keys[..i + 1]), pair, dead + visited, failed + {keys[i]});
    NextStood(adj, order, order, keys, i);
  }

  lemma {:induction false} DoneNext(keys: seq<Id>, i: nat)
    requires i < |keys| && Distinct(keys)
    ensures Elements(keys[..i + 1]) == Elements(keys[..i]) + {keys[i]} && keys[i] !in Elements(keys[..i])
  {
  }

  /** The edges of some of the predictions. */
  ghost function EdgesOf(edges: set<(Id, Id)>, preds: set<Id>): set<(Id, Id)> {
    set e | e in edges && e.0 in preds
  }

  ghost function GtsOf(m: set<(Id, Id)>): set<Id> {
    set e | e in m :: e.1
  }

  /** The first of these ground truths, as many as can be matched at once, are those of a maximum matching. */
  ghost predicate Leads(gts: seq<Id>, edges: set<(Id, Id)>) {
    exists m :: IsMaximum(m, edges) && |m| <= |gts| && GtsOf(m) == Elements(gts[..|m|])
  }

  ghost function PairsOf(pair: map<Id, Id>): set<(Id, Id)> {
    set g | g in pair :: (pair[g], g)
  }

  lemma {:induction false} PairsOfCount(pair: map<Id, Id>)
    ensures |PairsOf(pair)| == |pair| && GtsOf(PairsOf(pair)) == pair.Keys
  {
    PairsOfKeys(pair, pair.Keys);
    assert (set g | g in pair.Keys :: (pair[g], g)) == PairsOf(pair);
    assert forall g :: g in pair ==> (pair[g], g) in PairsOf(pair);
  }

  lemma {:induction false} PairsOfKeys(pair: map<Id, Id>, keys: set<Id>)
    requires keys <= pair.Keys
    ensures |set g | g in keys :: (pair[g], g)| == |keys|
  {
    if keys != {} {
      var k :| k in keys;
      PairsOfKeys(pair, keys - {k});
      assert (set g | g in keys :: (pair[g], g)) == (set g | g in keys - {k} :: (pair[g], g)) + {(pair[k], k)};
    }
  }

  lemma {:induction false} StageOfPart(adj: map<Id, seq<Id>>, edges: set<(Id, Id)>, done: set<Id>, pair: map<Id, Id>,
                                       dead: set<Id>, failed: set<Id>)
    requires OnEdges(adj, pair) && Progress(adj, pair, dead, failed, done) && Represents(adj, edges)
    requires done <= adj.Keys
    ensures IsMaximum(PairsOf(pair), EdgesOf(edges, done))
  {
    var part := map p | p in adj && p in done :: adj[p];
    assert part.Keys == done;
    assert forall g :: g in pair ==> pair[g] in pair.Values && pair[g] in done;
    assert Represents(part, EdgesOf(edges, done));
    ProgressIsMaximum(part, pair, dead, failed, EdgesOf(edges, done));
    PairsOfCount(pair);
  }

  /** So at every point the ground truths gained so far are those of a maximum matching of the predictions so far. */
  lemma {:induction false} StageLeads(adj: map<Id, seq<Id>>, edges: set<(Id, Id)>, order: seq<Id>, done: set<Id>,
                                      pair: map<Id, Id>, dead: set<Id>, failed: set<Id>)
    requires Represents(adj, edges) && done <= adj.Keys && IsStage(adj, order, done, pair, dead, failed)
    ensures Leads(order, EdgesOf(edges, done))
  {
    StageOfPart(adj, edges, done, pair, dead, failed);
    PairsOfCount(pair);
  }

  // ---------------------------------------------------------------------------------------------
  // MaximumBipartiteMatcher.match
  // ---------------------------------------------------------------------------------------------

  ghost predicate IsMaximum(m: set<(Id, Id)>, edges: set<(Id, Id)>) {
    && IsMatching(m, edges)
    && forall other :: IsMatching(other, edges) ==> |other| <= |m|
  }

  /** A vertex cover as small as the matching, which is what makes the matching maximum. */
  ghost predicate HasCertificate(size: nat, edges: set<(Id, Id)>) {
    exists preds, gts :: IsVertexCover(preds, gts, edges) && |preds| + |gts| <= size
  }

  lemma {:induction false} WithoutNext(s: seq<Id>, drop: set<Id>, x: Id)
    ensures Without(s + [x], drop) == Without(s, drop) + if x in drop then [] else [x]
  {
    if s == [] {
      assert s + [x] == [x];
    } else {
      assert (s + [x])[1..] == s[1..] + [x] && (s + [x])[0] == s[0];
      WithoutNext(s[1..], drop, x);
    }
  }

  /** What is not dropped keeps its order and its repetitions. */
  lemma {:induction false} WithoutMeans(s: seq<Id>, drop: set<Id>) returns (places: seq<int>)
    ensures Selects(s, (x: Id) => x !in drop, Without(s, drop), places)
  {
    if s == [] {
      places := [];
    } else {
      var front, last := s[..|s| - 1], s[|s| - 1];
      places := WithoutMeans(front, drop);
      WithoutNext(front, drop, last);
      SelectsNext(front, (x: Id) => x !in drop, Without(front, drop), places, last);
      assert s == front + [last];
      places := places + if last in drop then [] else [|front|];
    }
  }

  lemma {:induction false} WithoutNothing(s: seq<Id>)
    ensures Without(s, {}) == s
  {
    if s != [] { WithoutNothing(s[1..]); }
  }

  lemma {:induction false} EmptyGraph(predicted: seq<Id>, groundTruth: seq<Id>, judge: (nat, nat) -> Verdict)
    requires predicted == [] || groundTruth == []
    ensures Edges(predicted, groundTruth, judge) == {}
    ensures IsMaximum({}, {}) && HasCertificate(0, {})
    ensures GainedInOrder([], {}, Firsts(predicted, {}))
  {
    assert IsVertexCover({}, {}, {});
    assert forall preds :: EdgesOf({}, preds) == {};
    assert IsMaximum({}, {}) && GtsOf({}) == Elements(Seconds([])[..0]);
    assert Leads(Seconds([]), {});
  }

  lemma {:induction false} PairsAreMatching(adj: map<Id, seq<Id>>, pair: map<Id, Id>, order: seq<Id>,
                                            edges: set<(Id, Id)>, pairs: seq<(Id, Id)>)
    requires OnEdges(adj, pair) && Injective(pair) && Represents(adj, edges)
    requires Distinct(order) && Elements(order) == pair.Keys && |pairs| == |order|
    requires forall i :: 0 <= i < |order| ==> order[i] in pair && pairs[i] == (pair[order[i]], order[i])
    ensures IsMatching(Elements(pairs), edges)
    ensures |Elements(pairs)| == |pairs| == |pair|
  {
    DistinctCount(order);
    DistinctCount(pairs);
    forall e | e in pairs
      ensures e in edges && e.1 in pair && pair[e.1] == e.0
    {
      var i :| 0 <= i < |pairs| && pairs[i] == e;
      assert order[i] in pair;
    }
  }

  lemma {:induction false} ProgressIsMaximum(adj: map<Id, seq<Id>>, pair: map<Id, Id>, dead: set<Id>, failed: set<Id>,
                                             edges: set<(Id, Id)>)
    requires OnEdges(adj, pair) && Progress(adj, pair, dead, failed, adj.Keys)
    requires Represents(adj, edges)
    ensures forall other :: IsMatching(other, edges) ==> |other| <= |pair|
    ensures HasCertificate(|pair|, edges)
  {
    var live := LiveHolders(pair, dead);
    CoverOfPairing(adj, pair, dead, edges);
    forall other | IsMatching(other, edges)
      ensures |other| <= |pair|
    {
      WeakDuality(other, edges, live, dead);
    }
  }

  lemma {:induction false} WithoutCount(s: seq<Id>, drop: set<Id>)
    requires Distinct(s) && drop <= Elements(s)
    ensures |Without(s, drop)| + |drop| == |s|
  {
    if s != [] {
      assert s == [s[0]] + s[1..];
      assert forall x :: x in s[1..] ==> x != s[0];
      var inner := drop - {s[0]};
      WithoutCount(s[1..], inner);
      WithoutAbsent(s[1..], drop, s[0]);
    }
  }

  lemma {:induction false} WithoutAbsent(s: seq<Id>, drop: set<Id>, x: Id)
    requires x !in s
    ensures Without(s, drop) == Without(s, drop - {x})
  {
    if s != [] { WithoutAbsent(s[1..], drop, x); }
  }

  /** Each matched pair accounts for one prediction and one ground truth. */
  lemma {:induction false} MatchedCount(pairs: seq<(Id, Id)>, predicted: seq<Id>, groundTruth: seq<Id>,
                                        judge: (nat, nat) -> Verdict)
    requires IsMatching(Elements(pairs), Edges(predicted, groundTruth, judge)) && |Elements(pairs)| == |pairs|
    ensures Distinct(predicted) ==> |pairs| + |Without(predicted, MatchedPreds(pairs))| == |predicted|
    ensures Distinct(groundTruth) ==> |pairs| + |Without(groundTruth, MatchedGts(pairs))| == |groundTruth|
  {
    var m := Elements(pairs);
    assert forall e :: e in m ==> e.0 in predicted && e.1 in groundTruth;
    InjectionBound(m, map e | e in m :: e.0, MatchedPreds(pairs));
    InjectionBound(m, map e | e in m :: e.1, MatchedGts(pairs));
    assert |MatchedPreds(pairs)| <= |pairs| by { FirstsBound(pairs); }
    assert |MatchedGts(pairs)| <= |pairs| by { SecondsBound(pairs); }
    if Distinct(predicted) { WithoutCount(predicted, MatchedPreds(pairs)); }
    if Distinct(groundTruth) { WithoutCount(groundTruth, MatchedGts(pairs)); }
  }

  lemma {:induction false} FirstsBound(pairs: seq<(Id, Id)>)
    ensures |MatchedPreds(pairs)| <= |pairs|
  {
    if pairs != [] {
      FirstsBound(pairs[1..]);
      assert pairs == [pairs[0]] + pairs[1..];
      assert MatchedPreds(pairs) == MatchedPreds(pairs[1..]) + {pairs[0].0};
    }
  }

  lemma {:induction false} SecondsBound(pairs: seq<(Id, Id)>)
    ensures |MatchedGts(pairs)| <= |pairs|
  {
    if pairs != [] {
      SecondsBound(pairs[1..]);
      assert pairs == [pairs[0]] + pairs[1..];
      assert MatchedGts(pairs) == MatchedGts(pairs[1..]) + {pairs[0].1};
    }
  }

  function Seconds(pairs: seq<(Id, Id)>): seq<Id> {
    seq(|pairs|, i requires 0 <= i < |pairs| => pairs[i].1)
  }

  /**
   However many of the predictions are looked at, the first pairs, as many as these predictions allow, are for the
   ground truths of a maximum matching of these predictions.
   */
  ghost predicate GainedInOrder(pairs: seq<(Id, Id)>, edges: set<(Id, Id)>, keys: seq<Id>) {
    forall k :: 0 <= k <= |keys| ==> Leads(Seconds(pairs), EdgesOf(edges, Elements(keys[..k])))
  }

  lemma {:induction false} AlwaysLeads(adj: map<Id, seq<Id>>, edges: set<(Id, Id)>, order: seq<Id>, keys: seq<Id>,
                                       pairs: seq<(Id, Id)>)
    requires Represents(adj, edges) && Elements(keys) == adj.Keys && AllStood(adj, order, keys, |keys|)
    requires |pairs| == |order| && forall i :: 0 <= i < |order| ==> pairs[i].1 == order[i]
    ensures GainedInOrder(pairs, edges, keys)
  {
    assert Seconds(pairs) == order;
    forall k | 0 <= k <= |keys|
      ensures Leads(order, EdgesOf(edges, Elements(keys[..k])))
    {
      assert StoodAt(adj, order, keys, k);
      assert forall p :: p in keys[..k] ==> p in Elements(keys);
      var pair, dead, failed :| IsStage(adj, order, Elements(keys[..k]), pair, dead, failed);
      StageLeads(adj, edges, order, Elements(keys[..k]), pair, dead, failed);
    }
  }

  method Match(predicted: seq<Id>, groundTruth: seq<Id>, judge: (nat, nat) -> Verdict) returns (r: MatchingResult)
    ensures IsMaximum(Elements(r.matchedPairs), Edges(predicted, groundTruth, judge))
    ensures |Elements(r.matchedPairs)| == |r.matchedPairs|
    ensures HasCertificate(|r.matchedPairs|, Edges(predicted, groundTruth, judge))
    ensures r.unmatchedPredictions == Without(predicted, MatchedPreds(r.matchedPairs))
    ensures r.unmatchedGroundTruth == Without(groundTruth, MatchedGts(r.matchedPairs))
    ensures Distinct(predicted) ==> |r.matchedPairs| + |r.unmatchedPredictions| == |predicted|
    ensures Distinct(groundTruth) ==> |r.matchedPairs| + |r.unmatchedGroundTruth| == |groundTruth|
    // Pairs come in the order in which their ground truths were gained, prediction by prediction.
    ensures GainedInOrder(r.matchedPairs, Edges(predicted, groundTruth, judge), Firsts(predicted, {}))
    ensures r.nearMisses == NearMisses(predicted, groundTruth, judge, |predicted|)
  {
    assert MatchedPreds([]) == {} && MatchedGts([]) == {};
    if groundTruth == [] {
      EmptyGraph(predicted, groundTruth, judge);
      NothingToMiss(predicted, judge, |predicted|);
      WithoutNothing(predicted);
      return MatchingResult([], predicted, [], []);
    }
    if predicted == [] {
      EmptyGraph(predicted, groundTruth, judge);
      WithoutNothing(groundTruth);
      return MatchingResult([], [], groundTruth, []);
    }
    var matcher := new MaximumBipartiteMatcher();
    var keys, nearMisses := matcher.BuildAdjacency(predicted, groundTruth, judge);
    ghost var dead, failed := matcher.AugmentAll(keys);
    var order, pair := matcher.pairOrder, matcher.pair;
    var matchedPairs := seq(|order|, i requires 0 <= i < |order| && order[i] in pair => (pair[order[i]], order[i]));
    AlwaysLeads(matcher.adj, Edges(predicted, groundTruth, judge), order, keys, matchedPairs);
    PairsAreMatching(matcher.adj, pair, order, Edges(predicted, groundTruth, judge), matchedPairs);
    ProgressIsMaximum(matcher.adj, pair, dead, failed, Edges(predicted, groundTruth, judge));
    MatchedCount(matchedPairs, predicted, groundTruth, judge);
    r := MatchingResult(matchedPairs, Without(predicted, MatchedPreds(matchedPairs)),
                        Without(groundTruth, MatchedGts(matchedPairs)), nearMisses);
  }
}
