/** The stable sort by an integer key, and counts that sorting preserves. */
module Sorting {

  function InsertBy<E>(e: E, s: seq<E>, key: E -> int): seq<E> {
    if s == [] || key(e) <= key(s[0]) then [e] + s else [s[0]] + InsertBy(e, s[1..], key)
  }

  /** The stable sort of `s` by key. */
  function SortBy<E>(s: seq<E>, key: E -> int): seq<E> {
    if s == [] then [] else InsertBy(s[0], SortBy(s[1..], key), key)
  }

  ghost predicate Ascending<E>(s: seq<E>, key: E -> int) {
    forall i, j :: 0 <= i < j < |s| ==> key(s[i]) <= key(s[j])
  }

  /** How many keys lie in the closed interval. */
  function CountIn<E>(s: seq<E>, key: E -> int, from: int, until: int): nat {
    if s == [] then 0
    else CountIn(s[1..], key, from, until) + if from <= key(s[0]) <= until then 1 else 0
  }

  /** How many keys lie at or below `until`. */
  function UpTo<E>(s: seq<E>, key: E -> int, until: int): nat {
    if s == [] then 0 else UpTo(s[1..], key, until) + if key(s[0]) <= until then 1 else 0
  }

  lemma {:induction false} InsertBySorts<E(!new)>(e: E, s: seq<E>, key: E -> int)
    requires Ascending(s, key)
    ensures var r := InsertBy(e, s, key);
            && Ascending(r, key) && |r| == |s| + 1
            && (forall x :: x in r <==> x == e || x in s)
            && (forall a, b :: CountIn(r, key, a, b) == CountIn([e] + s, key, a, b))
            && forall b :: UpTo(r, key, b) == UpTo([e] + s, key, b)
  {
    if s == [] || key(e) <= key(s[0]) {
    } else {
      InsertBySorts(e, s[1..], key);
      var rest := InsertBy(e, s[1..], key);
      var r := [s[0]] + rest;
      assert s == [s[0]] + s[1..];
      forall j | 0 <= j < |rest|
        ensures key(s[0]) <= key(rest[j])
      {
        assert rest[j] == e || rest[j] in s[1..];
      }
      forall a, b
        ensures CountIn(r, key, a, b) == CountIn([e] + s, key, a, b)
      {
        assert r[1..] == rest && ([e] + s)[1..] == s && ([e] + s[1..])[1..] == s[1..];
        assert CountIn(rest, key, a, b) == CountIn([e] + s[1..], key, a, b);
      }
      forall b
        ensures UpTo(r, key, b) == UpTo([e] + s, key, b)
      {
        assert r[1..] == rest && ([e] + s)[1..] == s && ([e] + s[1..])[1..] == s[1..];
        assert UpTo(rest, key, b) == UpTo([e] + s[1..], key, b);
      }
    }
  }

  lemma {:induction false} SortBySorts<E(!new)>(s: seq<E>, key: E -> int)
    ensures var r := SortBy(s, key);
            && Ascending(r, key) && |r| == |s|
            && (forall x :: x in r <==> x in s)
            && (forall a, b :: CountIn(r, key, a, b) == CountIn(s, key, a, b))
            && forall b :: UpTo(r, key, b) == UpTo(s, key, b)
  {
    if s != [] {
      SortBySorts(s[1..], key);
      InsertBySorts(s[0], SortBy(s[1..], key), key);
      var sorted := SortBy(s[1..], key);
      assert s == [s[0]] + s[1..];
      forall a, b
        ensures CountIn(SortBy(s, key), key, a, b) == CountIn(s, key, a, b)
      {
        assert ([s[0]] + sorted)[1..] == sorted;
        assert CountIn(sorted, key, a, b) == CountIn(s[1..], key, a, b);
      }
      forall b
        ensures UpTo(SortBy(s, key), key, b) == UpTo(s, key, b)
      {
        assert ([s[0]] + sorted)[1..] == sorted;
        assert UpTo(sorted, key, b) == UpTo(s[1..], key, b);
      }
    }
  }

  /** The entries with one key, in order. */
  function WithKey<E>(s: seq<E>, key: E -> int, k: int): seq<E> {
    if s == [] then [] else (if key(s[0]) == k then [s[0]] else []) + WithKey(s[1..], key, k)
  }

  lemma {:induction false} InsertByIsStable<E>(e: E, s: seq<E>, key: E -> int, k: int)
    ensures WithKey(InsertBy(e, s, key), key, k) == WithKey([e] + s, key, k)
  {
    if s == [] || key(e) <= key(s[0]) {
    } else {
      InsertByIsStable(e, s[1..], key, k);
      var rest := InsertBy(e, s[1..], key);
      assert ([s[0]] + rest)[1..] == rest && ([e] + s)[1..] == s && ([e] + s[1..])[1..] == s[1..];
    }
  }

  /** Entries with equal keys keep their order. */
  lemma {:induction false} SortByIsStable<E>(s: seq<E>, key: E -> int, k: int)
    ensures WithKey(SortBy(s, key), key, k) == WithKey(s, key, k)
  {
    if s != [] {
      SortByIsStable(s[1..], key, k);
      InsertByIsStable(s[0], SortBy(s[1..], key), key, k);
      assert ([s[0]] + SortBy(s[1..], key))[1..] == SortBy(s[1..], key);
    }
  }

  /** All entries have the key. */
  ghost predicate AllWithKey<E>(s: seq<E>, key: E -> int, k: int) {
    forall i :: 0 <= i < |s| ==> key(s[i]) == k
  }

  ghost predicate AllBelow<E>(s: seq<E>, key: E -> int, k: int) {
    forall i :: 0 <= i < |s| ==> key(s[i]) < k
  }

  ghost predicate AllFrom<E>(s: seq<E>, key: E -> int, k: int) {
    forall i :: 0 <= i < |s| ==> k <= key(s[i])
  }

  lemma {:induction false} InsertBetween<E>(x: E, low: seq<E>, high: seq<E>, key: E -> int)
    requires AllBelow(low, key, key(x)) && AllFrom(high, key, key(x))
    ensures InsertBy(x, low + high, key) == low + [x] + high
  {
    if low == [] {
      assert low + high == high;
    } else {
      InsertBetween(x, low[1..], high, key);
      assert (low + high)[0] == low[0] && (low + high)[1..] == low[1..] + high;
      assert low + [x] + high == [low[0]] + (low[1..] + [x] + high);
    }
  }

  lemma {:induction false} Regroup<E>(low: seq<E>, a: seq<E>, high: seq<E>)
    requires a != []
    ensures low + a[1..] + high == low + (a[1..] + high)
    ensures low + [a[0]] + (a[1..] + high) == low + a + high
  {
    assert a == [a[0]] + a[1..];
  }

  /** Entries of one key, ahead of others, are sorted in between these, in their own order. */
  lemma {:induction false} SortBetween<E>(a: seq<E>, s: seq<E>, low: seq<E>, high: seq<E>, key: E -> int, k: int)
    requires AllWithKey(a, key, k) && SortBy(s, key) == low + high && AllBelow(low, key, k) && AllFrom(high, key, k)
    ensures SortBy(a + s, key) == low + a + high
  {
    if a == [] {
      assert a + s == s && low + a == low;
    } else {
      assert (a + s)[0] == a[0] && (a + s)[1..] == a[1..] + s;
      SortBetween(a[1..], s, low, high, key, k);
      Regroup(low, a, high);
      InsertBetween(a[0], low, a[1..] + high, key);
    }
  }

  /** The place `i` goes before the place `j`: a lower key, or the same key and further in front. */
  ghost predicate GoesBefore<E>(s: seq<E>, key: E -> int, i: int, j: int) {
    && 0 <= i < |s| && 0 <= j < |s|
    && (key(s[i]) < key(s[j]) || (key(s[i]) == key(s[j]) && i < j))
  }

  ghost predicate InSequence<E>(s: seq<E>, key: E -> int, places: seq<int>) {
    forall k, l :: 0 <= k < l < |places| ==> GoesBefore(s, key, places[k], places[l])
  }

  /** `r` holds the entries of `s` at the places, in that order. */
  ghost predicate Lists<E>(r: seq<E>, s: seq<E>, places: seq<int>) {
    |r| == |places| && forall k :: 0 <= k < |r| ==> 0 <= places[k] < |s| && r[k] == s[places[k]]
  }

  ghost predicate AllPlaces(n: nat, places: seq<int>) {
    forall i :: i in places <==> 0 <= i < n
  }

  lemma {:induction false} InsertedAt<E>(e: E, s: seq<E>, key: E -> int) returns (p: nat)
    ensures p <= |s| && InsertBy(e, s, key) == s[..p] + [e] + s[p..]
    ensures forall k :: 0 <= k < p ==> key(s[k]) < key(e)
    ensures p < |s| ==> key(e) <= key(s[p])
  {
    if s == [] || key(e) <= key(s[0]) {
      p := 0;
    } else {
      var q := InsertedAt(e, s[1..], key);
      p := q + 1;
      assert s[..p] == [s[0]] + s[1..][..q] && s[p..] == s[1..][q..];
    }
  }

  function Shifted(places: seq<int>): (r: seq<int>)
    ensures |r| == |places| && forall k :: 0 <= k < |r| ==> r[k] == places[k] + 1
  {
    seq(|places|, k requires 0 <= k < |places| => places[k] + 1)
  }

  lemma {:induction false} ShiftedPlaces(n: nat, places: seq<int>, p: nat)
    requires AllPlaces(n, places) && p <= |places|
    ensures AllPlaces(n + 1, Shifted(places)[..p] + [0] + Shifted(places)[p..])
  {
    var shifted := Shifted(places);
    var all := shifted[..p] + [0] + shifted[p..];
    assert shifted == shifted[..p] + shifted[p..];
    forall i
      ensures i in all <==> 0 <= i < n + 1
    {
      assert i in all <==> i == 0 || i in shifted;
      if i in shifted {
        var k :| 0 <= k < |places| && shifted[k] == i;
        assert places[k] in places;
      }
      if 0 < i < n + 1 {
        assert i - 1 in places;
        var k :| 0 <= k < |places| && places[k] == i - 1;
        assert shifted[k] in shifted;
      }
    }
  }

  lemma {:induction false} ShiftedSequence<E>(e: E, s: seq<E>, key: E -> int, r: seq<E>, places: seq<int>, p: nat)
    requires InSequence(s, key, places) && Lists(r, s, places) && p <= |r|
    requires forall k :: 0 <= k < p ==> key(r[k]) < key(e)
    requires p < |r| ==> key(e) <= key(r[p])
    ensures InSequence([e] + s, key, Shifted(places)[..p] + [0] + Shifted(places)[p..])
  {
    var all := Shifted(places)[..p] + [0] + Shifted(places)[p..];
    forall k, l | 0 <= k < l < |all|
      ensures GoesBefore([e] + s, key, all[k], all[l])
    {
      var k', l' := if k < p then k else k - 1, if l < p then l else l - 1;
      if k != p && l != p {
        assert GoesBefore(s, key, places[k'], places[l']);
      } else if k == p && p < l' {
        assert GoesBefore(s, key, places[p], places[l']);
      }
    }
  }

  lemma {:induction false} ShiftedLists<E>(e: E, s: seq<E>, r: seq<E>, places: seq<int>, p: nat)
    requires Lists(r, s, places) && p <= |r|
    ensures Lists(r[..p] + [e] + r[p..], [e] + s, Shifted(places)[..p] + [0] + Shifted(places)[p..])
  {
  }

  /** The stable sort holds every place once, lower keys first and equal keys as they stood. */
  lemma {:induction false} SortByPlaces<E>(s: seq<E>, key: E -> int) returns (places: seq<int>)
    ensures AllPlaces(|s|, places) && InSequence(s, key, places) && Lists(SortBy(s, key), s, places)
  {
    if s == [] {
      places := [];
    } else {
      var before := SortByPlaces(s[1..], key);
      var r := SortBy(s[1..], key);
      var p := InsertedAt(s[0], r, key);
      places := Shifted(before)[..p] + [0] + Shifted(before)[p..];
      assert [s[0]] + s[1..] == s;
      ShiftedPlaces(|s| - 1, before, p);
      ShiftedSequence(s[0], s[1..], key, r, before, p);
      ShiftedLists(s[0], s[1..], r, before, p);
    }
  }

  /** `r` holds the entries kept, at these places and in this order. */
  ghost predicate Selects<E>(s: seq<E>, keep: E -> bool, r: seq<E>, places: seq<int>) {
    && (forall k, l :: 0 <= k < l < |places| ==> places[k] < places[l])
    && (forall i :: i in places <==> 0 <= i < |s| && keep(s[i]))
    && Lists(r, s, places)
  }

  lemma {:induction false} SelectsNext<E>(s: seq<E>, keep: E -> bool, r: seq<E>, places: seq<int>, x: E)
    requires Selects(s, keep, r, places)
    ensures Selects(s + [x], keep, r + (if keep(x) then [x] else []), places + if keep(x) then [|s|] else [])
  {
    var longer, all := s + [x], places + if keep(x) then [|s|] else [];
    forall i
      ensures i in all <==> 0 <= i < |longer| && keep(longer[i])
    {
      assert i in all <==> i in places || (i == |s| && keep(x));
      assert 0 <= i < |s| ==> longer[i] == s[i];
    }
    forall k | 0 <= k < |places|
      ensures 0 <= places[k] < |s| && longer[places[k]] == s[places[k]]
    {
      assert places[k] in places;
    }
  }
}
