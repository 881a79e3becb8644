/** Small datatypes shared by the other modules. */
module Prelude {

  datatype Option<+T> = None | Some(value: T)

  /** The result of an operation that raises in the source. */
  datatype Result<+T, +E> = Ok(value: T) | Err(error: E)

  // ---------------------------------------------------------------------------------------------
  // Text
  // ---------------------------------------------------------------------------------------------

  /** The characters `str.strip` removes. */
  predicate IsSpace(c: char) {
    var n := c as int;
    || 9 <= n <= 13 || 28 <= n <= 32 || n == 0x85 || n == 0xA0 || n == 0x1680 || 0x2000 <= n <= 0x200A
    || n == 0x2028 || n == 0x2029 || n == 0x202F || n == 0x205F || n == 0x3000
  }

  /** The text is absent or strips to nothing. */
  predicate Blank(text: string) {
    forall i :: 0 <= i < |text| ==> IsSpace(text[i])
  }

  /** Lower case, for the ASCII letters the source compares with. */
  function Lower(text: string): string {
    seq(|text|, i requires 0 <= i < |text| => if 'A' <= text[i] <= 'Z' then text[i] - 'A' + 'a' else text[i])
  }

  // ---------------------------------------------------------------------------------------------
  // Numbers and collections
  // ---------------------------------------------------------------------------------------------

  function Min(a: int, b: int): int {
    if a < b then a else b
  }

  function Max(a: int, b: int): int {
    if a < b then b else a
  }

  ghost predicate Distinct<T>(s: seq<T>) {
    forall i, j :: 0 <= i < j < |s| ==> s[i] != s[j]
  }

  ghost function Elements<T>(s: seq<T>): set<T> {
    set x | x in s
  }

  lemma {:induction false} DistinctCount<T>(s: seq<T>)
    requires Distinct(s)
    ensures |Elements(s)| == |s|
  {
    if s != [] {
      var front, last := s[..|s| - 1], s[|s| - 1];
      DistinctCount(front);
      assert s == front + [last] && last !in front;
      assert Elements(s) == Elements(front) + {last};
    }
  }

  lemma {:induction false} AppendNew<T>(s: seq<T>, x: T)
    requires Distinct(s)
    ensures x in s ==> Elements(s) == Elements(s) + {x}
    ensures x !in s ==> Distinct(s + [x]) && Elements(s + [x]) == Elements(s) + {x}
  {
  }

  lemma {:induction false} SubsetCount<T>(a: set<T>, b: set<T>)
    requires a <= b
    ensures |a| <= |b| && (|a| == |b| ==> a == b)
  {
    if a != {} {
      var x :| x in a;
      SubsetCount(a - {x}, b - {x});
    }
  }

  // ---------------------------------------------------------------------------------------------
  // First occurrences
  // ---------------------------------------------------------------------------------------------

  /** The entries of `s` outside `known`, each at its first occurrence. */
  function Firsts<T(==)>(s: seq<T>, known: set<T>): seq<T> {
    if s == [] then []
    else
      var before, x := Firsts(s[..|s| - 1], known), s[|s| - 1];
      if x in known || x in before then before else before + [x]
  }

  function Cut<T>(s: seq<T>, headroom: Option<nat>): seq<T> {
    if headroom.Some? && headroom.value < |s| then s[..headroom.value] else s
  }

  lemma {:induction false} FirstsSelect<T(!new)>(s: seq<T>, known: set<T>)
    ensures forall x :: x in Firsts(s, known) <==> x in s && x !in known
    ensures Distinct(Firsts(s, known))
  {
    if s != [] {
      var before := s[..|s| - 1];
      FirstsSelect(before, known);
      assert s == before + [s[|s| - 1]];
    }
  }

  /** Reading further only appends to the first occurrences. */
  lemma {:induction false} FirstsExtend<T>(a: seq<T>, s: seq<T>, known: set<T>)
    requires a <= s
    ensures Firsts(a, known) <= Firsts(s, known)
    decreases |s|
  {
    if |a| == |s| {
      assert a == s;
    } else {
      FirstsExtend(a, s[..|s| - 1], known);
    }
  }

  /** Where an entry first occurs. */
  ghost function FirstAt<T>(s: seq<T>, x: T): (i: nat)
    requires x in s
    ensures i < |s| && s[i] == x && x !in s[..i]
  {
    if s[0] == x then 0
    else
      assert s == [s[0]] + s[1..];
      var i := FirstAt(s[1..], x);
      assert s[..i + 1] == [s[0]] + s[1..][..i];
      i + 1
  }

  /** First occurrences keep their order. */
  lemma {:induction false} FirstsInOrder<T(!new)>(s: seq<T>, known: set<T>, i: nat, j: nat)
    requires i < j < |Firsts(s, known)|
    ensures Firsts(s, known)[i] in s && Firsts(s, known)[j] in s
    ensures FirstAt(s, Firsts(s, known)[i]) < FirstAt(s, Firsts(s, known)[j])
  {
    var before := s[..|s| - 1];
    var f, g := Firsts(s, known), Firsts(before, known);
    FirstsSelect(s, known);
    FirstsSelect(before, known);
    assert s == before + [s[|s| - 1]];
    assert f[i] in f && f[j] in f && g[i] in g;
    FirstAtInPrefix(s, before, g[i]);
    if j < |g| {
      FirstsInOrder(before, known, i, j);
      FirstAtInPrefix(s, before, g[j]);
    }
  }

  /** Something new stands at this place: it is not known, and not in `s` before. */
  ghost predicate IsFirstPlace<T>(s: seq<T>, known: set<T>, k: nat) {
    k < |s| && s[k] !in known && s[k] !in s[..k]
  }

  /** The first occurrences in `s` are the entries at these places, which are all there are. */
  ghost predicate AreFirstPlaces<T>(s: seq<T>, known: set<T>, ks: seq<nat>) {
    && |Firsts(s, known)| == |ks| && (forall m, n :: 0 <= m < n < |ks| ==> ks[m] < ks[n])
    && (forall n :: 0 <= n < |ks| ==> IsFirstPlace(s, known, ks[n]) && Firsts(s, known)[n] == s[ks[n]])
    && forall k :: IsFirstPlace(s, known, k) ==> k in ks
  }

  lemma {:induction false} FirstPlaces<T(!new)>(s: seq<T>, known: set<T>) returns (ks: seq<nat>)
    ensures AreFirstPlaces(s, known, ks)
  {
    if s == [] {
      ks := [];
    } else {
      var front, last := s[..|s| - 1], |s| - 1;
      var before := FirstPlaces(front, known);
      FirstsSelect(front, known);
      forall k: nat | k < last
        ensures IsFirstPlace(s, known, k) <==> IsFirstPlace(front, known, k)
      {
        PlaceInPrefix(s, known, k);
      }
      assert IsFirstPlace(s, known, last) <==> s[last] !in known && s[last] !in Firsts(front, known);
      if IsFirstPlace(s, known, last) {
        ks := before + [last];
        OnePlaceMore(s, known, before);
      } else {
        ks := before;
        NoPlaceMore(s, known, before);
      }
    }
  }

  /** Places before the last are the same with the last and without. */
  ghost predicate SamePlaces<T>(s: seq<T>, known: set<T>) {
    s != [] && forall k: nat :: k < |s| - 1 ==> (IsFirstPlace(s, known, k) <==> IsFirstPlace(s[..|s| - 1], known, k))
  }

  lemma {:induction false} OnePlaceMore<T>(s: seq<T>, known: set<T>, ks: seq<nat>)
    requires SamePlaces(s, known) && AreFirstPlaces(s[..|s| - 1], known, ks) && IsFirstPlace(s, known, |s| - 1)
    requires Firsts(s, known) == Firsts(s[..|s| - 1], known) + [s[|s| - 1]]
    ensures AreFirstPlaces(s, known, ks + [|s| - 1])
  {
    forall k: nat | IsFirstPlace(s, known, k)
      ensures k in ks + [|s| - 1]
    {
      assert k < |s| - 1 ==> IsFirstPlace(s[..|s| - 1], known, k);
    }
  }

  lemma {:induction false} NoPlaceMore<T>(s: seq<T>, known: set<T>, ks: seq<nat>)
    requires SamePlaces(s, known) && AreFirstPlaces(s[..|s| - 1], known, ks) && !IsFirstPlace(s, known, |s| - 1)
    requires Firsts(s, known) == Firsts(s[..|s| - 1], known)
    ensures AreFirstPlaces(s, known, ks)
  {
    forall k: nat | IsFirstPlace(s, known, k)
      ensures k in ks
    {
      assert k < |s| - 1 && IsFirstPlace(s[..|s| - 1], known, k);
    }
  }

  lemma {:induction false} PlaceInPrefix<T(!new)>(s: seq<T>, known: set<T>, k: nat)
    requires k + 1 < |s|
    ensures IsFirstPlace(s, known, k) <==> IsFirstPlace(s[..|s| - 1], known, k)
  {
    assert s[..k] == s[..|s| - 1][..k];
  }

  lemma {:induction false} FirstAtInPrefix<T(!new)>(s: seq<T>, before: seq<T>, x: T)
    requires before <= s && x in before
    ensures x in s && FirstAt(s, x) == FirstAt(before, x)
  {
    var a, b := FirstAt(s, x), FirstAt(before, x);
    assert s[b] == before[b] == x;
  }

  // ---------------------------------------------------------------------------------------------
  // Collecting over a list
  // ---------------------------------------------------------------------------------------------

  function Flat<A, B>(s: seq<A>, f: A -> seq<B>): seq<B> {
    if s == [] then [] else Flat(s[..|s| - 1], f) + f(s[|s| - 1])
  }

  lemma {:induction false} FlatConcat<A, B>(a: seq<A>, b: seq<A>, f: A -> seq<B>)
    ensures Flat(a + b, f) == Flat(a, f) + Flat(b, f)
  {
    if b == [] {
      assert a + b == a;
    } else {
      assert (a + b)[..|a + b| - 1] == a + b[..|b| - 1];
      FlatConcat(a, b[..|b| - 1], f);
    }
  }

  lemma {:induction false} FlatMeans<A, B>(s: seq<A>, f: A -> seq<B>, y: B)
    ensures y in Flat(s, f) <==> exists x :: x in s && y in f(x)
  {
    if s != [] {
      FlatMeans(s[..|s| - 1], f, y);
      assert s == s[..|s| - 1] + [s[|s| - 1]];
    }
  }

  lemma {:induction false} TakeOut<A>(a: seq<A>, b: seq<A>) returns (left: seq<A>, right: seq<A>)
    requires multiset(a) == multiset(b) && a != []
    ensures b == left + [a[|a| - 1]] + right && multiset(a[..|a| - 1]) == multiset(left + right)
  {
    var front, x := a[..|a| - 1], a[|a| - 1];
    assert a == front + [x];
    assert x in multiset(a);
    var i :| 0 <= i < |b| && b[i] == x;
    left, right := b[..i], b[i + 1..];
    assert b == left + [x] + right;
    assert multiset(front) == multiset(a) - multiset{x} == multiset(b) - multiset{x};
  }

  /** Reordering a list reorders what is collected over it. */
  lemma {:induction false} FlatReorders<A, B>(a: seq<A>, b: seq<A>, f: A -> seq<B>)
    requires multiset(a) == multiset(b)
    ensures multiset(Flat(a, f)) == multiset(Flat(b, f))
  {
    if a != [] {
      var left, right := TakeOut(a, b);
      var x := a[|a| - 1];
      FlatReorders(a[..|a| - 1], left + right, f);
      FlatConcat(left + [x], right, f);
      FlatConcat(left, [x], f);
      FlatConcat(left, right, f);
      assert Flat([x], f) == f(x);
    } else {
      assert |multiset(b)| == 0;
    }
  }
}
