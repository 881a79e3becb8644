/**
 The burst detectors (src/acip/core/detection/auth_rules.py and web_rules.py): a two-pointer search
 for the longest window of failures, a quadratic scan for the first window of errors, and the rules
 chained onto the first.  Timestamps are integers in the unit of the window.
 */
module Detection {
  import opened Prelude
  import opened Sorting

  // ---------------------------------------------------------------------------------------------
  // Windows
  // ---------------------------------------------------------------------------------------------

  /** Some closed interval of length `window` holds at least `threshold` (and at least one) entries. */
  ghost predicate HasBurst<E>(s: seq<E>, time: E -> int, threshold: int, window: int) {
    exists from :: Crowded(s, time, threshold, window, from)
  }

  ghost predicate Crowded<E>(s: seq<E>, time: E -> int, threshold: int, window: int, from: int) {
    CountIn(s, time, from, from + window) >= Max(threshold, 1)
  }

  /** `s[i..j]` is a nonempty run no longer than the window. */
  ghost predicate IsWindow<E>(s: seq<E>, time: E -> int, window: int, i: int, j: int) {
    0 <= i < j <= |s| && time(s[j - 1]) - time(s[i]) <= window
  }

  lemma {:induction false} CountIsDifference<E>(s: seq<E>, time: E -> int, from: int, until: int)
    requires from <= until + 1
    ensures CountIn(s, time, from, until) == UpTo(s, time, until) - UpTo(s, time, from - 1)
    ensures UpTo(s, time, until) <= |s|
  {
    if s != [] { CountIsDifference(s[1..], time, from, until); }
  }

  lemma {:induction false} UpToIsPrefix<E>(s: seq<E>, time: E -> int, until: int)
    requires Ascending(s, time)
    ensures UpTo(s, time, until) <= |s|
    ensures forall k :: 0 <= k < |s| ==> (k < UpTo(s, time, until) <==> time(s[k]) <= until)
  {
    if s != [] {
      UpToIsPrefix(s[1..], time, until);
      var rest := UpTo(s[1..], time, until);
      forall k | 0 <= k < |s|
        ensures k < UpTo(s, time, until) <==> time(s[k]) <= until
      {
        if k > 0 {
          assert s[1..][k - 1] == s[k];
          assert k - 1 < rest <==> time(s[k]) <= until;
          assert time(s[0]) <= time(s[k]);
        }
      }
    }
  }

  /** In a sorted sequence, a crowded interval and a long window are the same thing. */
  lemma {:induction false} BurstIsWindow<E>(s: seq<E>, time: E -> int, threshold: int, window: int)
    requires Ascending(s, time) && window >= 0
    ensures HasBurst(s, time, threshold, window) <==>
              exists i, j :: IsWindow(s, time, window, i, j) && j - i >= threshold
  {
    if HasBurst(s, time, threshold, window) {
      var from :| Crowded(s, time, threshold, window, from);
      var i, j := UpTo(s, time, from - 1), UpTo(s, time, from + window);
      CountIsDifference(s, time, from, from + window);
      UpToIsPrefix(s, time, from - 1);
      UpToIsPrefix(s, time, from + window);
      assert IsWindow(s, time, window, i, j) && j - i >= threshold;
    }
    forall i, j | IsWindow(s, time, window, i, j) && j - i >= threshold
      ensures HasBurst(s, time, threshold, window)
    {
      var from := time(s[i]);
      CountIsDifference(s, time, from, from + window);
      UpToIsPrefix(s, time, from - 1);
      UpToIsPrefix(s, time, from + window);
      assert Crowded(s, time, threshold, window, from);
    }
  }

  /** The earliest among the longest windows with at least `threshold` entries, or nothing. */
  ghost predicate IsBestWindow<E>(s: seq<E>, time: E -> int, threshold: int, window: int, best: seq<E>, lo: int,
                                  end: int) {
    && (best != [] ==> IsWindow(s, time, window, lo, lo + |best|) && lo + |best| <= end && |best| >= threshold
                       && best == s[lo..lo + |best|])
    && forall i, j :: IsWindow(s, time, window, i, j) && j <= end && j - i >= threshold ==>
                        j - i < |best| || (j - i == |best| && lo <= i)
  }

  /** The inner search of `_find_failure_bursts`, over one address's failures in time order. */
  method LongestBurst<E>(ordered: seq<E>, time: E -> int, minFailures: int, window: int)
    returns (best: seq<E>, ghost lo: int)
    requires Ascending(ordered, time) && window >= 0
    ensures IsBestWindow(ordered, time, minFailures, window, best, lo, |ordered|)
    ensures best != [] <==> HasBurst(ordered, time, minFailures, window)
  {
    var start := 0;
    best, lo := [], 0;
    for end := 0 to |ordered|
      invariant 0 <= start <= end
      invariant forall i :: 0 <= i < start && end > 0 ==> time(ordered[end - 1]) - time(ordered[i]) > window
      invariant IsBestWindow(ordered, time, minFailures, window, best, lo, end)
    {
      while time(ordered[end]) - time(ordered[start]) > window
        invariant 0 <= start <= end
        invariant forall i :: 0 <= i < start ==> time(ordered[end]) - time(ordered[i]) > window
        decreases end - start
      {
        start := start + 1;
      }
      var span := ordered[start..end + 1];
      BestWindowNext(ordered, time, minFailures, window, best, lo, start, end);
      if |span| >= minFailures && |span| > |best| {
        best, lo := span, start;
      }
    }
    BurstIsWindow(ordered, time, minFailures, window);
  }

  /** One more entry: only the widest window ending there can improve on the best. */
  lemma {:induction false} BestWindowNext<E>(s: seq<E>, time: E -> int, threshold: int, window: int, best: seq<E>,
                                             lo: int, start: int, end: int)
    requires Ascending(s, time) && 0 <= start <= end < |s|
    requires IsBestWindow(s, time, threshold, window, best, lo, end)
    requires time(s[end]) - time(s[start]) <= window
    requires forall i :: 0 <= i < start ==> time(s[end]) - time(s[i]) > window
    ensures var span := s[start..end + 1];
            if |span| >= threshold && |span| > |best|
            then IsBestWindow(s, time, threshold, window, span, start, end + 1)
            else IsBestWindow(s, time, threshold, window, best, lo, end + 1)
  {
    forall i, j | IsWindow(s, time, window, i, j) && j == end + 1
      ensures start <= i
    {
    }
  }

  /** The first start with enough entries ahead of it, and everything within the window from there. */
  ghost predicate IsFirstWindow<E>(s: seq<E>, time: E -> int, threshold: int, window: int, burst: seq<E>, i: int) {
    && 0 <= i < |s| && burst == s[i..WindowEnd(s, time, window, i)] && |burst| >= threshold
    && forall k :: 0 <= k < i ==> WindowEnd(s, time, window, k) - k < threshold
  }

  /** Where the forward window from `i` ends in a sorted sequence. */
  ghost function WindowEnd<E>(s: seq<E>, time: E -> int, window: int, i: int): (j: int)
    requires 0 <= i < |s|
    ensures i <= j <= |s|
  {
    Max(i, Min(UpTo(s, time, time(s[i]) + window), |s|))
  }

  /** The entries of a sequence at or before `until`, in order. */
  function KeepUntil<E>(s: seq<E>, time: E -> int, until: int): seq<E> {
    if s == [] then []
    else (if time(s[0]) <= until then [s[0]] else []) + KeepUntil(s[1..], time, until)
  }

  lemma {:induction false} KeepUntilIsPrefix<E>(s: seq<E>, time: E -> int, until: int)
    requires Ascending(s, time)
    ensures UpTo(s, time, until) <= |s| && KeepUntil(s, time, until) == s[..UpTo(s, time, until)]
  {
    if s != [] {
      KeepUntilIsPrefix(s[1..], time, until);
      UpToIsPrefix(s, time, until);
      UpToIsPrefix(s[1..], time, until);
      if time(s[0]) <= until {
        assert s[..UpTo(s, time, until)] == [s[0]] + s[1..][..UpTo(s[1..], time, until)];
      }
    }
  }

  /** Filtering everything ahead of `i` by distance in time gives the forward window. */
  lemma {:induction false} ForwardWindow<E>(s: seq<E>, time: E -> int, window: int, i: int)
    requires Ascending(s, time) && 0 <= i < |s|
    ensures KeepUntil(s[i..], time, time(s[i]) + window) == s[i..WindowEnd(s, time, window, i)]
  {
    var until := time(s[i]) + window;
    KeepUntilIsPrefix(s[i..], time, until);
    UpToSuffix(s, time, until, i);
    UpToIsPrefix(s, time, until);
    PrefixOfSuffix(s, i, UpTo(s[i..], time, until));
  }

  lemma {:induction false} PrefixOfSuffix<E>(s: seq<E>, i: int, n: int)
    requires 0 <= i <= |s| && 0 <= n <= |s| - i
    ensures s[i..][..n] == s[i..i + n]
  {
  }

  lemma {:induction false} UpToSuffix<E>(s: seq<E>, time: E -> int, until: int, i: int)
    requires Ascending(s, time) && 0 <= i <= |s|
    ensures i + UpTo(s[i..], time, until) == Max(i, UpTo(s, time, until))
    decreases i
  {
    if i == 0 {
      assert s[0..] == s;
    } else {
      assert s[1..][i - 1..] == s[i..];
      UpToSuffix(s[1..], time, until, i - 1);
      if time(s[0]) > until {
        UpToIsPrefix(s, time, until);
        UpToIsPrefix(s[1..], time, until);
      }
    }
  }

  /** Some forward window is long enough exactly when some closed interval is crowded enough. */
  lemma {:induction false} ScanFindsBurst<E>(s: seq<E>, time: E -> int, threshold: int, window: int)
    requires Ascending(s, time) && window >= 0
    ensures HasBurst(s, time, threshold, window) <==>
              exists i :: 0 <= i < |s| && WindowEnd(s, time, window, i) - i >= threshold
  {
    BurstIsWindow(s, time, threshold, window);
    forall i | 0 <= i < |s|
      ensures IsWindow(s, time, window, i, WindowEnd(s, time, window, i))
      ensures forall j :: IsWindow(s, time, window, i, j) ==> j <= WindowEnd(s, time, window, i)
    {
      UpToIsPrefix(s, time, time(s[i]) + window);
    }
    if HasBurst(s, time, threshold, window) {
      var i, j :| IsWindow(s, time, window, i, j) && j - i >= threshold;
      assert WindowEnd(s, time, window, i) - i >= threshold;
    }
  }

  // ---------------------------------------------------------------------------------------------
  // Grouping by source address
  // ---------------------------------------------------------------------------------------------

  /** The events filed under `k`, in order; `key` is None for events that are not filed. */
  function Group<E>(events: seq<E>, key: E -> Option<string>, k: string): seq<E> {
    if events == [] then []
    else
      var e := events[|events| - 1];
      Group(events[..|events| - 1], key, k) + if key(e) == Some(k) then [e] else []
  }

  lemma {:induction false} GroupMeans<E(!new)>(events: seq<E>, key: E -> Option<string>, k: string)
    ensures forall e :: e in Group(events, key, k) <==> e in events && key(e) == Some(k)
  {
    if events != [] {
      GroupMeans(events[..|events| - 1], key, k);
      assert events == events[..|events| - 1] + [events[|events| - 1]];
    }
  }

  /** A group keeps the order of its events, and their repetitions. */
  lemma {:induction false} GroupSelects<E(!new)>(events: seq<E>, key: E -> Option<string>, k: string, keep: E -> bool)
    returns (places: seq<int>)
    requires forall e :: keep(e) <==> key(e) == Some(k)
    ensures Selects(events, keep, Group(events, key, k), places)
  {
    if events == [] {
      places := [];
    } else {
      var front, last := events[..|events| - 1], events[|events| - 1];
      places := GroupSelects(front, key, k, keep);
      SelectsNext(front, keep, Group(front, key, k), places, last);
      assert events == front + [last];
      places := places + if keep(last) then [|front|] else [];
    }
  }

  /** Where the events are filed, event by event. */
  function Filed<E>(events: seq<E>, key: E -> Option<string>): seq<string> {
    if events == [] then []
    else
      var k := key(events[|events| - 1]);
      Filed(events[..|events| - 1], key) + if k.Some? then [k.value] else []
  }

  /** The groups in the order in which they are opened. */
  function GroupOrder<E>(events: seq<E>, key: E -> Option<string>): seq<string> {
    Firsts(Filed(events, key), {})
  }

  lemma {:induction false} GroupOrderNext<E>(events: seq<E>, key: E -> Option<string>, n: nat)
    requires n < |events|
    ensures var k, before := key(events[n]), GroupOrder(events[..n], key);
            GroupOrder(events[..n + 1], key)
            == if k.None? || k.value in before then before else before + [k.value]
  {
    assert events[..n + 1][..n] == events[..n];
    var k, filed := key(events[n]), Filed(events[..n], key);
    if k.Some? {
      assert (filed + [k.value])[..|filed|] == filed;
    } else {
      assert filed + [] == filed;
    }
  }

  /** The chosen ones of some keys, in the order of the keys. */
  function Chosen(keys: seq<string>, chosen: set<string>): seq<string> {
    if keys == [] then []
    else
      var last := keys[|keys| - 1];
      Chosen(keys[..|keys| - 1], chosen) + if last in chosen then [last] else []
  }

  lemma {:induction false} ChosenLater(keys: seq<string>, chosen: set<string>, k: string)
    requires k !in keys
    ensures Chosen(keys, chosen + {k}) == Chosen(keys, chosen)
  {
    if keys != [] {
      ChosenLater(keys[..|keys| - 1], chosen, k);
    }
  }

  /** `order` lists the chosen keys, each once. */
  ghost predicate IsChoice(keys: seq<string>, order: seq<string>, chosen: set<string>) {
    order == Chosen(keys, chosen) && Distinct(order) && Elements(order) == chosen <= Elements(keys)
  }

  lemma {:induction false} ChoiceNext(keys: seq<string>, order: seq<string>, chosen: set<string>, k: string)
    requires IsChoice(keys, order, chosen) && k !in keys
    ensures IsChoice(keys + [k], order, chosen) && IsChoice(keys + [k], order + [k], chosen + {k})
  {
    assert (keys + [k])[..|keys|] == keys;
    ChosenLater(keys, chosen, k);
    assert k !in Elements(keys);
    AppendNew(order, k);
  }

  /** The groups of the events so far. */
  ghost predicate Grouped<E>(events: seq<E>, key: E -> Option<string>, order: seq<string>, groups: map<string, seq<E>>)
  {
    && order == GroupOrder(events, key) && Distinct(order) && Elements(order) == groups.Keys
    && forall k :: IsGroup(events, key, groups, k)
  }

  ghost predicate IsGroup<E>(events: seq<E>, key: E -> Option<string>, groups: map<string, seq<E>>, k: string) {
    if k in groups then groups[k] == Group(events, key, k) else Group(events, key, k) == []
  }

  lemma {:induction false} NotFiled<E>(events: seq<E>, key: E -> Option<string>, n: nat, order: seq<string>,
                                       groups: map<string, seq<E>>)
    requires n < |events| && Grouped(events[..n], key, order, groups) && key(events[n]).None?
    ensures Grouped(events[..n + 1], key, order, groups)
  {
    assert events[..n + 1][..n] == events[..n];
    GroupOrderNext(events, key, n);
    var later := events[..n + 1];
    forall x
      ensures IsGroup(later, key, groups, x)
    {
      assert IsGroup(events[..n], key, groups, x);
    }
  }

  lemma {:induction false} FiledAgain<E>(events: seq<E>, key: E -> Option<string>, n: nat, order: seq<string>,
                                         groups: map<string, seq<E>>, k: string)
    requires n < |events| && Grouped(events[..n], key, order, groups) && key(events[n]) == Some(k) && k in groups
    ensures Grouped(events[..n + 1], key, order, groups[k := groups[k] + [events[n]]])
  {
    assert events[..n + 1][..n] == events[..n];
    GroupOrderNext(events, key, n);
    assert k in Elements(order);
    var groups' := groups[k := groups[k] + [events[n]]];
    var later := events[..n + 1];
    forall x
      ensures IsGroup(later, key, groups', x)
    {
      assert IsGroup(events[..n], key, groups, x);
    }
  }

  lemma {:induction false} FiledFirst<E>(events: seq<E>, key: E -> Option<string>, n: nat, order: seq<string>,
                                         groups: map<string, seq<E>>, k: string)
    requires n < |events| && Grouped(events[..n], key, order, groups) && key(events[n]) == Some(k) && k !in groups
    ensures Grouped(events[..n + 1], key, order + [k], groups[k := [events[n]]])
  {
    assert events[..n + 1][..n] == events[..n];
    GroupOrderNext(events, key, n);
    assert k !in Elements(order);
    AppendNew(order, k);
    var groups' := groups[k := [events[n]]];
    assert groups'.Keys == groups.Keys + {k};
    var later := events[..n + 1];
    forall x
      ensures IsGroup(later, key, groups', x)
    {
      assert IsGroup(events[..n], key, groups, x);
    }
  }

  method GroupBy<E>(events: seq<E>, key: E -> Option<string>) returns (order: seq<string>, groups: map<string, seq<E>>)
    ensures Grouped(events, key, order, groups)
  {
    order, groups := [], map[];
    for n := 0 to |events|
      invariant Grouped(events[..n], key, order, groups)
    {
      var e := events[n];
      if key(e).Some? {
        var k := key(e).value;
        ghost var groups0 := groups;
        if k in groups {
          FiledAgain(events, key, n, order, groups, k);
        } else {
          FiledFirst(events, key, n, order, groups, k);
          order := order + [k];
          groups := groups[k := []];
        }
        groups := groups[k := groups[k] + [e]];
        assert [] + [e] == [e];
        assert groups == groups0[k := if k in groups0 then groups0[k] + [e] else [e]];
      } else {
        NotFiled(events, key, n, order, groups);
      }
    }
    assert events[..|events|] == events;
  }

  // ---------------------------------------------------------------------------------------------
  // Authentication failures
  // ---------------------------------------------------------------------------------------------

  datatype AuthEvent = AuthEvent(
    evidenceId: int, eventType: string, observedAt: Option<int>, user: Option<string>, sourceIp: Option<string>,
    targetUser: Option<string>, invalidUser: bool)

  const FAILURE_TYPES := {"auth_failure", "invalid_user", "max_auth_attempts"}

  const SUCCESS_CORRELATION_SECONDS := 3600

  const MAX_CITED_EVENTS := 25

  predicate Present(text: Option<string>) {
    text.Some? && text.value != ""
  }

  function FailureKey(e: AuthEvent): Option<string> {
    if e.eventType in FAILURE_TYPES && Present(e.sourceIp) && e.observedAt.Some? then e.sourceIp else None
  }

  function AuthTime(e: AuthEvent): int {
    if e.observedAt.Some? then e.observedAt.value else 0
  }

  /** The dated failures of one address, in the order they were logged. */
  function Failures(events: seq<AuthEvent>, ip: string): seq<AuthEvent> {
    Group(events, FailureKey, ip)
  }

  /** `burst` is the earliest of the longest qualifying windows over one address's failures. */
  ghost predicate IsAuthBurst(failures: seq<AuthEvent>, minFailures: int, window: int, burst: seq<AuthEvent>) {
    var ordered := SortBy(failures, AuthTime);
    burst != [] && exists lo :: IsBestWindow(ordered, AuthTime, minFailures, window, burst, lo, |ordered|)
  }

  /** One address: sort its failures and search for the longest window. */
  method BestBurst(failures: seq<AuthEvent>, minFailures: int, window: int) returns (best: seq<AuthEvent>)
    requires window >= 0
    ensures best != [] <==> HasBurst(failures, AuthTime, minFailures, window)
    ensures best != [] ==> IsAuthBurst(failures, minFailures, window, best)
  {
    var ordered := SortBy(failures, AuthTime);
    SortBySorts(failures, AuthTime);
    SameBurst(ordered, failures, AuthTime, AuthTime, minFailures, window);
    ghost var lo;
    best, lo := LongestBurst(ordered, AuthTime, minFailures, window);
  }

  /** The bursts of the addresses in `done`, in their order. */
  ghost predicate BurstsAmong(events: seq<AuthEvent>, minFailures: int, window: int, done: seq<string>,
                              order: seq<string>, bursts: map<string, seq<AuthEvent>>) {
    && IsChoice(done, order, bursts.Keys)
    && (forall ip :: ip in done ==> (ip in bursts <==> HasBurst(Failures(events, ip), AuthTime, minFailures, window)))
    && forall ip :: ip in bursts ==> IsAuthBurst(Failures(events, ip), minFailures, window, bursts[ip])
  }

  lemma {:induction false} BurstFound(events: seq<AuthEvent>, minFailures: int, window: int, done: seq<string>,
                                      order: seq<string>, bursts: map<string, seq<AuthEvent>>, ip: string,
                                      best: seq<AuthEvent>)
    requires BurstsAmong(events, minFailures, window, done, order, bursts) && ip !in done
    requires HasBurst(Failures(events, ip), AuthTime, minFailures, window)
    requires IsAuthBurst(Failures(events, ip), minFailures, window, best)
    ensures BurstsAmong(events, minFailures, window, done + [ip], order + [ip], bursts[ip := best])
  {
    ChoiceNext(done, order, bursts.Keys, ip);
    assert bursts[ip := best].Keys == bursts.Keys + {ip};
  }

  lemma {:induction false} NoBurstFound(events: seq<AuthEvent>, minFailures: int, window: int, done: seq<string>,
                                        order: seq<string>, bursts: map<string, seq<AuthEvent>>, ip: string)
    requires BurstsAmong(events, minFailures, window, done, order, bursts) && ip !in done
    requires !HasBurst(Failures(events, ip), AuthTime, minFailures, window)
    ensures BurstsAmong(events, minFailures, window, done + [ip], order, bursts)
  {
    ChoiceNext(done, order, bursts.Keys, ip);
  }

  method FindFailureBursts(events: seq<AuthEvent>, minFailures: int, window: int)
    returns (order: seq<string>, bursts: map<string, seq<AuthEvent>>)
    requires window >= 0
    ensures Distinct(order) && Elements(order) == bursts.Keys
    ensures order == Chosen(GroupOrder(events, FailureKey), bursts.Keys)
    ensures forall ip :: ip in bursts <==> HasBurst(Failures(events, ip), AuthTime, minFailures, window)
    ensures forall ip :: ip in bursts ==> IsAuthBurst(Failures(events, ip), minFailures, window, bursts[ip])
  {
    var keys, byIp := GroupBy(events, FailureKey);
    order, bursts := [], map[];
    for n := 0 to |keys|
      invariant BurstsAmong(events, minFailures, window, keys[..n], order, bursts)
    {
      var ip := keys[n];
      assert ip in Elements(keys) && IsGroup(events, FailureKey, byIp, ip);
      var best := BestBurst(byIp[ip], minFailures, window);
      assert keys[..n + 1] == keys[..n] + [ip] && ip !in keys[..n];
      if best != [] {
        BurstFound(events, minFailures, window, keys[..n], order, bursts, ip, best);
        order := order + [ip];
        bursts := bursts[ip := best];
      } else {
        NoBurstFound(events, minFailures, window, keys[..n], order, bursts, ip);
      }
    }
    assert keys[..|keys|] == keys;
    NoFailuresNoBurst(events, keys, byIp, minFailures, window);
    BurstsOfAll(events, minFailures, window, keys, order, bursts);
  }

  lemma {:induction false} BurstsOfAll(events: seq<AuthEvent>, minFailures: int, window: int, keys: seq<string>,
                                       order: seq<string>, bursts: map<string, seq<AuthEvent>>)
    requires BurstsAmong(events, minFailures, window, keys, order, bursts)
    requires forall ip :: ip !in keys ==> !HasBurst(Failures(events, ip), AuthTime, minFailures, window)
    ensures Distinct(order) && Elements(order) == bursts.Keys && order == Chosen(keys, bursts.Keys)
    ensures forall ip :: ip in bursts <==> HasBurst(Failures(events, ip), AuthTime, minFailures, window)
    ensures forall ip :: ip in bursts ==> IsAuthBurst(Failures(events, ip), minFailures, window, bursts[ip])
  {
    assert forall ip :: ip in bursts ==> ip in Elements(keys);
  }

  lemma {:induction false} NoFailuresNoBurst(events: seq<AuthEvent>, keys: seq<string>,
                                             byIp: map<string, seq<AuthEvent>>, minFailures: int, window: int)
    requires Grouped(events, FailureKey, keys, byIp)
    ensures forall ip :: ip !in keys ==> !HasBurst(Failures(events, ip), AuthTime, minFailures, window)
  {
    forall ip | ip !in keys
      ensures !HasBurst(Failures(events, ip), AuthTime, minFailures, window)
    {
      assert IsGroup(events, FailureKey, byIp, ip) && ip !in Elements(keys);
      assert forall from :: !Crowded<AuthEvent>([], AuthTime, minFailures, window, from);
    }
  }

  /** Whether there is a burst depends only on how many entries fall into each interval. */
  lemma {:induction false} SameBurst<A, B>(a: seq<A>, b: seq<B>,
                                           timeA: A -> int, timeB: B -> int, threshold: int, window: int)
    requires forall from, until :: CountIn(a, timeA, from, until) == CountIn(b, timeB, from, until)
    ensures HasBurst(a, timeA, threshold, window) <==> HasBurst(b, timeB, threshold, window)
  {
    assert forall from :: Crowded(a, timeA, threshold, window, from) <==> Crowded(b, timeB, threshold, window, from);
  }

  // ---------------------------------------------------------------------------------------------
  // Web errors
  // ---------------------------------------------------------------------------------------------

  datatype WebEvent = WebEvent(evidenceId: int, observedAt: Option<int>, clientIp: string, statusCode: int)

  function ErrorKey(e: WebEvent): Option<string> {
    if e.statusCode >= 400 then Some(e.clientIp) else None
  }

  function WebTime(e: WebEvent): int {
    if e.observedAt.Some? then e.observedAt.value else 0
  }

  function Errors(events: seq<WebEvent>, ip: string): seq<WebEvent> {
    Group(events, ErrorKey, ip)
  }

  function Dated(events: seq<WebEvent>): (r: seq<WebEvent>)
    ensures |r| <= |events|
  {
    if events == [] then [] else (if events[0].observedAt.Some? then [events[0]] else []) + Dated(events[1..])
  }

  lemma {:induction false} DatedNext(events: seq<WebEvent>, e: WebEvent)
    ensures Dated(events + [e]) == Dated(events) + if e.observedAt.Some? then [e] else []
  {
    if events != [] {
      assert (events + [e])[0] == events[0] && (events + [e])[1..] == events[1..] + [e];
      DatedNext(events[1..], e);
    }
  }

  lemma {:induction false} DatedMeans(events: seq<WebEvent>) returns (places: seq<int>)
    ensures Selects(events, (e: WebEvent) => e.observedAt.Some?, Dated(events), places)
  {
    if events == [] {
      places := [];
    } else {
      var front, last := events[..|events| - 1], events[|events| - 1];
      places := DatedMeans(front);
      DatedNext(front, last);
      SelectsNext(front, (e: WebEvent) => e.observedAt.Some?, Dated(front), places, last);
      assert events == front + [last];
      places := places + if last.observedAt.Some? then [|front|] else [];
    }
  }

  /** The error responses to an address, in order. */
  lemma {:induction false} ErrorsMean(events: seq<WebEvent>, ip: string) returns (places: seq<int>)
    ensures Selects(events, (e: WebEvent) => e.statusCode >= 400 && e.clientIp == ip, Errors(events, ip), places)
  {
    places := GroupSelects(events, ErrorKey, ip, (e: WebEvent) => e.statusCode >= 400 && e.clientIp == ip);
  }

  /** `burst` is the forward window of the first qualifying start, or the first errors if few are dated. */
  ghost predicate IsWebBurst(errors: seq<WebEvent>, minErrors: int, window: int, burst: seq<WebEvent>) {
    var dated := SortBy(Dated(errors), WebTime);
    if |dated| < minErrors then |errors| >= minErrors && burst == errors[..minErrors]
    else exists i :: IsFirstWindow(dated, WebTime, minErrors, window, burst, i)
  }

  /** Whether `_find_error_bursts` reports an address: too few dated errors fall back on counting all. */
  ghost predicate WebReports(errors: seq<WebEvent>, minErrors: int, window: int) {
    var dated := SortBy(Dated(errors), WebTime);
    if |dated| < minErrors then |errors| >= minErrors
    else exists i :: 0 <= i < |dated| && WindowEnd(dated, WebTime, window, i) - i >= minErrors
  }

  /** The quadratic scan over one address's dated errors in time order. */
  method FirstWindow(dated: seq<WebEvent>, minErrors: int, window: int) returns (found: bool, burst: seq<WebEvent>)
    requires Ascending(dated, WebTime)
    ensures found <==> exists i :: 0 <= i < |dated| && WindowEnd(dated, WebTime, window, i) - i >= minErrors
    ensures found ==> exists i :: IsFirstWindow(dated, WebTime, minErrors, window, burst, i)
  {
    for i := 0 to |dated|
      invariant forall k :: 0 <= k < i ==> WindowEnd(dated, WebTime, window, k) - k < minErrors
    {
      var startTime := WebTime(dated[i]);
      var currentWindow := KeepUntil(dated[i..], WebTime, startTime + window);
      ForwardWindow(dated, WebTime, window, i);
      if |currentWindow| >= minErrors {
        assert IsFirstWindow(dated, WebTime, minErrors, window, currentWindow, i);
        return true, currentWindow;
      }
    }
    return false, [];
  }

  /** One address: count everything when too little is dated, otherwise scan. */
  method ErrorBurst(errors: seq<WebEvent>, minErrors: int, window: int) returns (found: bool, burst: seq<WebEvent>)
    ensures found <==> WebReports(errors, minErrors, window)
    ensures found ==> IsWebBurst(errors, minErrors, window, burst)
  {
    var dated := SortBy(Dated(errors), WebTime);
    SortBySorts(Dated(errors), WebTime);
    if |dated| < minErrors {
      if |errors| >= minErrors {
        return true, errors[..minErrors];
      }
      return false, [];
    }
    found, burst := FirstWindow(dated, minErrors, window);
  }

  method FindErrorBursts(events: seq<WebEvent>, minErrors: int, window: int)
    returns (bursts: map<string, seq<WebEvent>>)
    ensures forall ip :: ip in bursts <==> WebReports(Errors(events, ip), minErrors, window)
    ensures forall ip :: ip in bursts ==> IsWebBurst(Errors(events, ip), minErrors, window, bursts[ip])
  {
    var keys, byIp := GroupBy(events, ErrorKey);
    bursts := map[];
    for n := 0 to |keys|
      invariant bursts.Keys <= Elements(keys[..n])
      invariant forall ip :: ip in keys[..n] ==> (ip in bursts <==> WebReports(Errors(events, ip), minErrors, window))
      invariant forall ip :: ip in bursts ==> IsWebBurst(Errors(events, ip), minErrors, window, bursts[ip])
    {
      var ip := keys[n];
      assert keys[..n + 1] == keys[..n] + [ip];
      assert ip in Elements(keys) && IsGroup(events, ErrorKey, byIp, ip);
      var found, burst := ErrorBurst(byIp[ip], minErrors, window);
      if found {
        bursts := bursts[ip := burst];
      }
    }
    assert keys[..|keys|] == keys;
    forall ip | ip !in keys
      ensures !WebReports(Errors(events, ip), minErrors, window)
    {
      assert IsGroup(events, ErrorKey, byIp, ip) && ip !in Elements(keys);
    }
  }

  // ---------------------------------------------------------------------------------------------
  // The two detectors agree
  // ---------------------------------------------------------------------------------------------

  ghost predicate SameTimes<A, B>(a: seq<A>, b: seq<B>, timeA: A -> int, timeB: B -> int) {
    |a| == |b| && forall i :: 0 <= i < |a| ==> timeA(a[i]) == timeB(b[i])
  }

  /** As many entries in all, and as many in every closed interval: the same times, in any order. */
  ghost predicate SameCounts<A, B>(a: seq<A>, b: seq<B>, timeA: A -> int, timeB: B -> int) {
    |a| == |b| && forall from, until :: CountIn(a, timeA, from, until) == CountIn(b, timeB, from, until)
  }

  lemma {:induction false} BelowAll<E>(s: seq<E>, time: E -> int) returns (low: int)
    ensures forall until :: until <= low ==> UpTo(s, time, until) == 0
  {
    if s == [] {
      low := 0;
    } else {
      var rest := BelowAll(s[1..], time);
      low := Min(rest, time(s[0]) - 1);
    }
  }

  lemma {:induction false} SameUpTo<A, B>(a: seq<A>, b: seq<B>, timeA: A -> int, timeB: B -> int)
    requires SameCounts(a, b, timeA, timeB)
    ensures forall until :: UpTo(a, timeA, until) == UpTo(b, timeB, until)
  {
    var lowA := BelowAll(a, timeA);
    var lowB := BelowAll(b, timeB);
    var low := Min(lowA, lowB);
    forall until
      ensures UpTo(a, timeA, until) == UpTo(b, timeB, until)
    {
      if until > low {
        CountIsDifference(a, timeA, low + 1, until);
        CountIsDifference(b, timeB, low + 1, until);
        assert CountIn(a, timeA, low + 1, until) == CountIn(b, timeB, low + 1, until);
      }
    }
  }

  /** Sorted sequences with the same counts show the same times in the same places. */
  lemma {:induction false} SortedTimesDetermined<A, B>(a: seq<A>, b: seq<B>, timeA: A -> int, timeB: B -> int)
    requires Ascending(a, timeA) && Ascending(b, timeB) && |a| == |b|
    requires forall until :: UpTo(a, timeA, until) == UpTo(b, timeB, until)
    ensures SameTimes(a, b, timeA, timeB)
  {
    forall k | 0 <= k < |a|
      ensures timeA(a[k]) == timeB(b[k])
    {
      UpToIsPrefix(a, timeA, timeA(a[k]));
      UpToIsPrefix(b, timeB, timeA(a[k]));
      UpToIsPrefix(a, timeA, timeB(b[k]));
      UpToIsPrefix(b, timeB, timeB(b[k]));
    }
  }

  lemma {:induction false} SortedAlike(failures: seq<AuthEvent>, dated: seq<WebEvent>)
    requires SameCounts(failures, dated, AuthTime, WebTime)
    ensures SameTimes(SortBy(failures, AuthTime), SortBy(dated, WebTime), AuthTime, WebTime)
  {
    SortBySorts(failures, AuthTime);
    SortBySorts(dated, WebTime);
    SameUpTo(failures, dated, AuthTime, WebTime);
    SortedTimesDetermined(SortBy(failures, AuthTime), SortBy(dated, WebTime), AuthTime, WebTime);
  }

  /**
   On events with the same dated times, in any order, the linear search and the quadratic scan report a burst in the
   same cases, except that the scan also reports an address with too few dated errors but enough in all.
   */
  lemma {:induction false} DetectorsAgree(failures: seq<AuthEvent>, errors: seq<WebEvent>, threshold: int, window: int)
    requires window >= 0 && SameCounts(failures, Dated(errors), AuthTime, WebTime)
    ensures WebReports(errors, threshold, window) <==>
              HasBurst(failures, AuthTime, threshold, window) || |failures| < threshold <= |errors|
  {
    var dated := SortBy(Dated(errors), WebTime);
    SortBySorts(Dated(errors), WebTime);
    SameBurst(failures, dated, AuthTime, WebTime, threshold, window);
    ScanFindsBurst(dated, WebTime, threshold, window);
    if |dated| < threshold {
      TooFew(dated, WebTime, threshold, window);
    }
  }

  lemma {:induction false} TooFew<E>(s: seq<E>, time: E -> int, threshold: int, window: int)
    requires |s| < threshold && window >= 0
    ensures !HasBurst(s, time, threshold, window)
  {
    forall from
      ensures !Crowded(s, time, threshold, window, from)
    {
      CountIsDifference(s, time, from, from + window);
    }
  }

  /** Where both report, the linear search's burst is at least as long and starts no earlier. */
  lemma {:induction false} BurstsCompared(failures: seq<AuthEvent>, errors: seq<WebEvent>, threshold: int,
                                          window: int, longest: seq<AuthEvent>, first: seq<WebEvent>)
    requires window >= 0 && SameCounts(failures, Dated(errors), AuthTime, WebTime) && threshold <= |failures|
    requires IsAuthBurst(failures, threshold, window, longest) && IsWebBurst(errors, threshold, window, first)
    ensures 0 < |first| <= |longest|
    ensures WebTime(first[0]) <= AuthTime(longest[0])
  {
    var a, b := SortBy(failures, AuthTime), SortBy(Dated(errors), WebTime);
    SortBySorts(failures, AuthTime);
    SortBySorts(Dated(errors), WebTime);
    SortedAlike(failures, Dated(errors));
    var lo :| IsBestWindow(a, AuthTime, threshold, window, longest, lo, |a|);
    var i :| IsFirstWindow(b, WebTime, threshold, window, first, i);
    WindowsCompared(a, b, threshold, window, longest, lo, first, i);
  }

  lemma {:induction false} WindowsCompared(a: seq<AuthEvent>, b: seq<WebEvent>, threshold: int, window: int,
                                           longest: seq<AuthEvent>, lo: int, first: seq<WebEvent>, i: int)
    requires window >= 0 && Ascending(b, WebTime) && SameTimes(a, b, AuthTime, WebTime)
    requires longest != [] && IsBestWindow(a, AuthTime, threshold, window, longest, lo, |a|)
    requires IsFirstWindow(b, WebTime, threshold, window, first, i)
    ensures 0 < |first| <= |longest|
    ensures WebTime(first[0]) <= AuthTime(longest[0])
  {
    UpToIsPrefix(b, WebTime, WebTime(b[i]) + window);
    assert IsWindow(a, AuthTime, window, i, i + |first|);
    FirstIsEarlier(a, b, threshold, window, longest, lo, first, i);
  }

  lemma {:induction false} FirstIsEarlier(a: seq<AuthEvent>, b: seq<WebEvent>, threshold: int, window: int,
                                          longest: seq<AuthEvent>, lo: int, first: seq<WebEvent>, i: int)
    requires window >= 0 && Ascending(b, WebTime) && SameTimes(a, b, AuthTime, WebTime)
    requires longest != [] && IsBestWindow(a, AuthTime, threshold, window, longest, lo, |a|)
    requires IsFirstWindow(b, WebTime, threshold, window, first, i)
    ensures i <= lo
  {
    UpToIsPrefix(b, WebTime, WebTime(b[lo]) + window);
    assert WindowEnd(b, WebTime, window, lo) >= lo + |longest|;
  }

  /** `_unique_evidence_ids`: the first occurrences, cut to the citation limit. */
  method UniqueEvidenceIds(events: seq<WebEvent>) returns (ids: seq<int>)
    ensures ids == Cut(Firsts(seq(|events|, i requires 0 <= i < |events| => events[i].evidenceId), {}),
                       Some(MAX_CITED_EVENTS))
  {
    ghost var all := seq(|events|, i requires 0 <= i < |events| => events[i].evidenceId);
    var seen: set<int> := {};
    ids := [];
    for i := 0 to |events|
      invariant ids == Firsts(all[..i], {}) && |ids| < MAX_CITED_EVENTS
      invariant forall id :: id in seen <==> id in ids
    {
      assert all[..i + 1][..i] == all[..i];
      if events[i].evidenceId !in seen {
        seen := seen + {events[i].evidenceId};
        ids := ids + [events[i].evidenceId];
        if |ids| >= MAX_CITED_EVENTS {
          FirstsExtend(all[..i + 1], all, {});
          return;
        }
      }
    }
    assert all[..|events|] == all;
  }

  // ---------------------------------------------------------------------------------------------
  // Rules chained onto the failure bursts
  // ---------------------------------------------------------------------------------------------

  datatype Rule = BruteForce | SuccessAfterBruteForce | UserEnumeration | PrivilegeEscalation

  /** A rule firing: the address or user it is about, and the evidence it cites. */
  datatype Hit = Hit(rule: Rule, subject: string, evidenceIds: seq<int>)

  function Span(burst: seq<AuthEvent>): (r: (int, int))
    requires burst != []
    ensures forall e :: e in burst ==> r.0 <= AuthTime(e) <= r.1
    ensures exists e :: e in burst && AuthTime(e) == r.0
    ensures exists e :: e in burst && AuthTime(e) == r.1
  {
    var t := AuthTime(burst[0]);
    if |burst| == 1 then (t, t)
    else
      assert burst == [burst[0]] + burst[1..];
      assert burst[0] in burst;
      var rest := Span(burst[1..]);
      (Min(t, rest.0), Max(t, rest.1))
  }

  /** A dated success of the address between the burst's first failure and an hour after its last. */
  predicate IsRelatedSuccess(e: AuthEvent, ip: string, burst: seq<AuthEvent>)
    requires burst != []
  {
    && e.eventType == "auth_success" && e.sourceIp == Some(ip) && e.observedAt.Some?
    && Span(burst).0 <= AuthTime(e) <= Span(burst).1 + SUCCESS_CORRELATION_SECONDS
  }

  function Candidates(events: seq<AuthEvent>, ip: string, burst: seq<AuthEvent>): seq<AuthEvent>
    requires burst != []
  {
    if events == [] then []
    else (if IsRelatedSuccess(events[0], ip, burst) then [events[0]] else []) + Candidates(events[1..], ip, burst)
  }

  /** The first of the earliest events. */
  function Earliest(events: seq<AuthEvent>): (r: AuthEvent)
    requires events != []
    ensures r in events && forall e :: e in events ==> AuthTime(r) <= AuthTime(e)
  {
    if |events| == 1 then events[0]
    else
      assert events == [events[0]] + events[1..];
      var rest := Earliest(events[1..]);
      if AuthTime(events[0]) <= AuthTime(rest) then events[0] else rest
  }

  function FirstSuccessAfter(events: seq<AuthEvent>, ip: string, burst: seq<AuthEvent>): Option<AuthEvent> {
    if burst == [] || Candidates(events, ip, burst) == [] then None
    else Some(Earliest(Candidates(events, ip, burst)))
  }

  lemma {:induction false} CandidatesMean(events: seq<AuthEvent>, ip: string, burst: seq<AuthEvent>)
    requires burst != []
    ensures forall e :: e in Candidates(events, ip, burst) <==> e in events && IsRelatedSuccess(e, ip, burst)
  {
    if events != [] {
      CandidatesMean(events[1..], ip, burst);
      assert events == [events[0]] + events[1..];
    }
  }

  /** A success is found exactly when there is a related one, and then no related one is earlier. */
  lemma {:induction false} FirstSuccessIsEarliest(events: seq<AuthEvent>, ip: string, burst: seq<AuthEvent>)
    requires burst != []
    ensures var r := FirstSuccessAfter(events, ip, burst);
            && (r.Some? <==> exists e :: e in events && IsRelatedSuccess(e, ip, burst))
            && (r.Some? ==> r.value in events && IsRelatedSuccess(r.value, ip, burst)
                            && forall e :: e in events && IsRelatedSuccess(e, ip, burst) ==>
                                AuthTime(r.value) <= AuthTime(e))
  {
    CandidatesMean(events, ip, burst);
    var found := Candidates(events, ip, burst);
    if found != [] {
      assert found[0] in found;
    }
  }

  predicate IsRootSudo(e: AuthEvent) {
    e.eventType == "sudo_command" && Present(e.user) && e.targetUser.Some? && Lower(e.targetUser.value) == "root"
  }

  function Ids(events: seq<AuthEvent>): seq<int> {
    seq(|events|, i requires 0 <= i < |events| => events[i].evidenceId)
  }

  /** For each address with a burst, the login related to it. */
  type Logins = map<string, Option<AuthEvent>>

  function RelatedLogins(events: seq<AuthEvent>, bursts: map<string, seq<AuthEvent>>): Logins {
    map ip | ip in bursts :: FirstSuccessAfter(events, ip, bursts[ip])
  }

  /** `user` logged in from `ip` in relation to its burst, recorded as evidence `id`. */
  ghost predicate LoginFrom(logins: Logins, ip: string, user: string, id: int) {
    && ip in logins && logins[ip].Some?
    && logins[ip].value.user == Some(user) && user != "" && logins[ip].value.evidenceId == id
  }

  ghost predicate Suspicious(order: seq<string>, logins: Logins, user: string, id: int) {
    exists ip :: ip in order && LoginFrom(logins, ip, user, id)
  }

  /** The hit for a burst that a login followed. */
  function LoginHit(ip: string, burst: seq<AuthEvent>, success: AuthEvent): Hit {
    Hit(SuccessAfterBruteForce, ip, Ids(Cut(burst, Some(MAX_CITED_EVENTS))) + [success.evidenceId])
  }

  function LastId(h: Hit): int {
    if h.evidenceIds == [] then 0 else h.evidenceIds[|h.evidenceIds| - 1]
  }

  /** The users with a suspicious login, each with the hit of the last burst it is related to. */
  function Compromised(order: seq<string>, bursts: map<string, seq<AuthEvent>>, logins: Logins): map<string, Hit>
    requires forall ip :: ip in order ==> ip in bursts && ip in logins
  {
    if order == [] then map[]
    else
      var ip := order[|order| - 1];
      var before := Compromised(order[..|order| - 1], bursts, logins);
      if logins[ip].Some? && Present(logins[ip].value.user)
      then before[logins[ip].value.user.value := LoginHit(ip, bursts[ip], logins[ip].value)]
      else before
  }

  /** The hits for the addresses whose burst a login followed. */
  function LoginHits(order: seq<string>, bursts: map<string, seq<AuthEvent>>, logins: Logins): seq<Hit>
    requires forall ip :: ip in order ==> ip in bursts && ip in logins
  {
    if order == [] then []
    else
      var ip := order[|order| - 1];
      LoginHits(order[..|order| - 1], bursts, logins)
      + if logins[ip].Some? then [LoginHit(ip, bursts[ip], logins[ip].value)] else []
  }

  function EscalationHit(e: AuthEvent, related: Hit): Hit
    requires IsRootSudo(e)
  {
    Hit(PrivilegeEscalation, e.user.value, [e.evidenceId, LastId(related)])
  }

  function Escalations(events: seq<AuthEvent>, compromised: map<string, Hit>): seq<Hit> {
    if events == [] then []
    else
      var e := events[|events| - 1];
      Escalations(events[..|events| - 1], compromised)
      + if IsRootSudo(e) && e.user.value in compromised then [EscalationHit(e, compromised[e.user.value])] else []
  }

  /** Every compromised user has a suspicious login, and the last evidence of the hit is that login. */
  ghost predicate AllSuspicious(order: seq<string>, logins: Logins, found: map<string, Hit>) {
    forall user :: user in found ==> Suspicious(order, logins, user, LastId(found[user]))
  }

  lemma {:induction false} CompromisedMeans(order: seq<string>, bursts: map<string, seq<AuthEvent>>, logins: Logins)
    requires forall ip :: ip in order ==> ip in bursts && ip in logins
    ensures AllSuspicious(order, logins, Compromised(order, bursts, logins))
    ensures forall ip, user, id :: ip in order && LoginFrom(logins, ip, user, id) ==>
            user in Compromised(order, bursts, logins)
  {
    if order != [] {
      var front, ip := order[..|order| - 1], order[|order| - 1];
      CompromisedMeans(front, bursts, logins);
      assert order == front + [ip];
      SuspiciousGrows(front, ip, logins, Compromised(front, bursts, logins));
      if logins[ip].Some? && Present(logins[ip].value.user) {
        var user, id := logins[ip].value.user.value, logins[ip].value.evidenceId;
        assert LoginFrom(logins, ip, user, id) && LastId(LoginHit(ip, bursts[ip], logins[ip].value)) == id;
      }
    }
  }

  lemma {:induction false} SuspiciousGrows(front: seq<string>, ip: string, logins: Logins, found: map<string, Hit>)
    requires AllSuspicious(front, logins, found)
    ensures AllSuspicious(front + [ip], logins, found)
  {
    forall user | user in found
      ensures Suspicious(front + [ip], logins, user, LastId(found[user]))
    {
      assert Suspicious(front, logins, user, LastId(found[user]));
      var other :| other in front && LoginFrom(logins, other, user, LastId(found[user]));
      assert other in front + [ip];
    }
  }

  lemma {:induction false} EscalationsMean(events: seq<AuthEvent>, compromised: map<string, Hit>)
    ensures forall h :: h in Escalations(events, compromised) ==>
              exists e :: e in events && IsRootSudo(e) && e.user.value in compromised
                          && h == EscalationHit(e, compromised[e.user.value])
    ensures forall e :: e in events && IsRootSudo(e) && e.user.value in compromised ==>
              EscalationHit(e, compromised[e.user.value]) in Escalations(events, compromised)
  {
    if events != [] {
      EscalationsMean(events[..|events| - 1], compromised);
      assert events == events[..|events| - 1] + [events[|events| - 1]];
    }
  }

  /** `h` reports a root command of its subject, and cites it with a suspicious login of the same user. */
  ghost predicate IsBacked(events: seq<AuthEvent>, order: seq<string>, logins: Logins, h: Hit) {
    && |h.evidenceIds| == 2 && Suspicious(order, logins, h.subject, h.evidenceIds[1])
    && exists e :: e in events && IsRootSudo(e) && e.user == Some(h.subject) && e.evidenceId == h.evidenceIds[0]
  }

  /** Every escalation hit cites a root command and a suspicious login of the user who ran it. */
  lemma {:induction false} EscalationsAreBacked(events: seq<AuthEvent>, order: seq<string>,
                                                bursts: map<string, seq<AuthEvent>>, logins: Logins, h: Hit)
    requires forall ip :: ip in order ==> ip in bursts && ip in logins
    requires h in Escalations(events, Compromised(order, bursts, logins))
    ensures IsBacked(events, order, logins, h)
  {
    var compromised := Compromised(order, bursts, logins);
    CompromisedMeans(order, bursts, logins);
    EscalationsMean(events, compromised);
    var e :| e in events && IsRootSudo(e) && e.user.value in compromised
        && h == EscalationHit(e, compromised[e.user.value]);
    assert Suspicious(order, logins, e.user.value, LastId(compromised[e.user.value]));
  }

  /** Every root command of a user with a suspicious login is reported, even one run before the login. */
  lemma {:induction false} EscalationsAreComplete(events: seq<AuthEvent>, order: seq<string>,
                                                  bursts: map<string, seq<AuthEvent>>, logins: Logins, e: AuthEvent,
                                                  ip: string, id: int)
    requires forall k :: k in order ==> k in bursts && k in logins
    requires e in events && IsRootSudo(e) && ip in order && LoginFrom(logins, ip, e.user.value, id)
    ensures exists h :: h in Escalations(events, Compromised(order, bursts, logins)) && h.subject == e.user.value
                        && h.evidenceIds != [] && h.evidenceIds[0] == e.evidenceId
  {
    var compromised := Compromised(order, bursts, logins);
    CompromisedMeans(order, bursts, logins);
    EscalationsMean(events, compromised);
    var h := EscalationHit(e, compromised[e.user.value]);
    assert h in Escalations(events, compromised) && h.evidenceIds != [] && h.evidenceIds[0] == e.evidenceId;
  }

  // ---------------------------------------------------------------------------------------------
  // Whether the commands reported follow the logins they are reported for
  // ---------------------------------------------------------------------------------------------

  /** The events are the same, but for when they were observed. */
  ghost predicate SameButTimes(a: seq<AuthEvent>, b: seq<AuthEvent>) {
    |a| == |b| && forall i :: 0 <= i < |a| ==> a[i].(observedAt := None) == b[i].(observedAt := None)
  }

  /** Times play no part in what is reported. */
  lemma {:induction false} TimesPlayNoPart(a: seq<AuthEvent>, b: seq<AuthEvent>, compromised: map<string, Hit>)
    requires SameButTimes(a, b)
    ensures Escalations(a, compromised) == Escalations(b, compromised)
  {
    if a != [] {
      TimesPlayNoPart(a[..|a| - 1], b[..|b| - 1], compromised);
      assert a[|a| - 1].(observedAt := None) == b[|b| - 1].(observedAt := None);
    }
  }

  /** The login an escalation of the user cites: that of the last burst with a login of the user. */
  ghost function CitedLogin(order: seq<string>, logins: Logins, user: string): Option<AuthEvent>
    requires forall ip :: ip in order ==> ip in logins
  {
    if order == [] then None
    else
      var login := logins[order[|order| - 1]];
      if login.Some? && login.value.user == Some(user) && user != "" then login
      else CitedLogin(order[..|order| - 1], logins, user)
  }

  lemma {:induction false} CompromisedCites(order: seq<string>, bursts: map<string, seq<AuthEvent>>, logins: Logins,
                                            user: string)
    requires forall ip :: ip in order ==> ip in bursts && ip in logins
    ensures var compromised, login := Compromised(order, bursts, logins), CitedLogin(order, logins, user);
            && (user in compromised <==> login.Some?)
            && (login.Some? ==> LastId(compromised[user]) == login.value.evidenceId)
  {
    if order != [] {
      var front, ip := order[..|order| - 1], order[|order| - 1];
      CompromisedCites(front, bursts, logins, user);
      if logins[ip].Some? && Present(logins[ip].value.user) {
        assert LastId(LoginHit(ip, bursts[ip], logins[ip].value)) == logins[ip].value.evidenceId;
      }
    }
  }

  lemma {:induction false} CitedLoginIsLogged(events: seq<AuthEvent>, bursts: map<string, seq<AuthEvent>>,
                                              order: seq<string>, user: string)
    requires forall ip :: ip in order ==> ip in bursts
    ensures var login := CitedLogin(order, RelatedLogins(events, bursts), user);
            login.Some? ==> login.value in events && login.value.user == Some(user)
  {
    if order != [] {
      var ip := order[|order| - 1];
      CitedLoginIsLogged(events, bursts, order[..|order| - 1], user);
      if bursts[ip] != [] {
        FirstSuccessIsEarliest(events, ip, bursts[ip]);
      }
    }
  }

  ghost predicate UniqueEvidence(events: seq<AuthEvent>) {
    forall a, b :: a in events && b in events && a.evidenceId == b.evidenceId ==> a == b
  }

  predicate Follows(command: AuthEvent, login: AuthEvent) {
    command.observedAt.Some? && login.observedAt.Some? && login.observedAt.value <= command.observedAt.value
  }

  /** Of the two events a hit cites, the command follows the login. */
  ghost predicate HitFollows(events: seq<AuthEvent>, h: Hit) {
    forall command, login ::
      command in events && login in events && h.evidenceIds == [command.evidenceId, login.evidenceId]
      ==> Follows(command, login)
  }

  /** No root command of a user with a suspicious login is undated or older than that login. */
  ghost predicate CommandsFollow(events: seq<AuthEvent>, order: seq<string>, logins: Logins)
    requires forall ip :: ip in order ==> ip in logins
  {
    forall e :: e in events && IsRootSudo(e) && CitedLogin(order, logins, e.user.value).Some? ==>
                  Follows(e, CitedLogin(order, logins, e.user.value).value)
  }

  lemma {:induction false} CommandIsReported(events: seq<AuthEvent>, order: seq<string>,
                                             bursts: map<string, seq<AuthEvent>>, e: AuthEvent)
    requires forall ip :: ip in order ==> ip in bursts
    requires e in events && IsRootSudo(e) && CitedLogin(order, RelatedLogins(events, bursts), e.user.value).Some?
    ensures var logins := RelatedLogins(events, bursts);
            var login := CitedLogin(order, logins, e.user.value).value;
            Hit(PrivilegeEscalation, e.user.value, [e.evidenceId, login.evidenceId])
            in Escalations(events, Compromised(order, bursts, logins))
  {
    var compromised := Compromised(order, bursts, RelatedLogins(events, bursts));
    CompromisedCites(order, bursts, RelatedLogins(events, bursts), e.user.value);
    EscalationsMean(events, compromised);
    assert EscalationHit(e, compromised[e.user.value]) in Escalations(events, compromised);
  }

  lemma {:induction false} ReportedCommand(events: seq<AuthEvent>, order: seq<string>,
                                           bursts: map<string, seq<AuthEvent>>, h: Hit) returns (e: AuthEvent)
    requires forall ip :: ip in order ==> ip in bursts
    requires h in Escalations(events, Compromised(order, bursts, RelatedLogins(events, bursts)))
    ensures e in events && IsRootSudo(e)
    ensures var login := CitedLogin(order, RelatedLogins(events, bursts), e.user.value);
            login.Some? && h.evidenceIds == [e.evidenceId, login.value.evidenceId]
  {
    var compromised := Compromised(order, bursts, RelatedLogins(events, bursts));
    EscalationsMean(events, compromised);
    e :| e in events && IsRootSudo(e) && e.user.value in compromised
        && h == EscalationHit(e, compromised[e.user.value]);
    CompromisedCites(order, bursts, RelatedLogins(events, bursts), e.user.value);
  }

  /**
   Every reported command is said to follow a login. That is so exactly if no root command of a user with a suspicious
   login is undated or older than the login cited.
   */
  lemma {:induction false} ReportsFollowExactly(events: seq<AuthEvent>, order: seq<string>,
                                                bursts: map<string, seq<AuthEvent>>)
    requires UniqueEvidence(events) && forall ip :: ip in order ==> ip in bursts
    ensures var logins := RelatedLogins(events, bursts);
            (forall h :: h in Escalations(events, Compromised(order, bursts, logins)) ==> HitFollows(events, h))
            <==> CommandsFollow(events, order, logins)
  {
    var logins := RelatedLogins(events, bursts);
    var hits := Escalations(events, Compromised(order, bursts, logins));
    if forall h :: h in hits ==> HitFollows(events, h) {
      forall e | e in events && IsRootSudo(e) && CitedLogin(order, logins, e.user.value).Some?
        ensures Follows(e, CitedLogin(order, logins, e.user.value).value)
      {
        CommandIsReported(events, order, bursts, e);
        CitedLoginIsLogged(events, bursts, order, e.user.value);
      }
    }
    if CommandsFollow(events, order, logins) {
      forall h | h in hits
        ensures HitFollows(events, h)
      {
        var e := ReportedCommand(events, order, bursts, h);
        CitedLoginIsLogged(events, bursts, order, e.user.value);
      }
    }
  }

  /** A failure, a login by the same address, and a root command of the user from before the login. */
  function EarlyCommand(): seq<AuthEvent> {
    [AuthEvent(1, "auth_failure", Some(100), Some("ann"), Some("10.0.0.9"), None, false),
     AuthEvent(2, "auth_success", Some(120), Some("ann"), Some("10.0.0.9"), None, false),
     AuthEvent(3, "sudo_command", Some(50), Some("ann"), None, Some("root"), false)]
  }

  lemma {:induction false} EarlyFailures()
    ensures Failures(EarlyCommand(), "10.0.0.9") == [EarlyCommand()[0]]
  {
    var events := EarlyCommand();
    assert "auth_failure"[5] == 'f' && "auth_success"[5] == 's' && "sudo_command"[0] == 's' && "invalid_user"[0] == 'i';
    assert |"max_auth_attempts"| == 17 && |"auth_success"| == |"sudo_command"| == 12;
    assert FailureKey(events[0]) == Some("10.0.0.9") && FailureKey(events[1]) == FailureKey(events[2]) == None;
    assert events[..2][..1] == [events[0]] && events[..1][..0] == [];
    assert Group([events[0]], FailureKey, "10.0.0.9") == Group([], FailureKey, "10.0.0.9") + [events[0]];
  }

  lemma {:induction false} EarlyBurst()
    ensures IsAuthBurst(Failures(EarlyCommand(), "10.0.0.9"), 1, 60, [EarlyCommand()[0]])
  {
    EarlyFailures();
    var burst := [EarlyCommand()[0]];
    assert SortBy(burst, AuthTime) == burst;
    assert IsBestWindow(burst, AuthTime, 1, 60, burst, 0, 1);
  }

  lemma {:induction false} EarlyLogin()
    ensures FirstSuccessAfter(EarlyCommand(), "10.0.0.9", [EarlyCommand()[0]]) == Some(EarlyCommand()[1])
  {
    var events, burst := EarlyCommand(), [EarlyCommand()[0]];
    assert "auth_failure"[5] == 'f' && "auth_success"[5] == 's' && "sudo_command"[0] == 's';
    assert Span(burst) == (100, 100);
    assert IsRelatedSuccess(events[1], "10.0.0.9", burst) && events[1] in events;
    FirstSuccessIsEarliest(events, "10.0.0.9", burst);
  }

  lemma {:induction false} EarlyRoot()
    ensures IsRootSudo(EarlyCommand()[2])
  {
    assert Lower("root") == "root";
  }

  /** With a threshold of one failure, the command is reported with the login that came after it. */
  lemma {:induction false} EarlyCommandIsReported()
    ensures var events := EarlyCommand();
            var bursts := map["10.0.0.9" := [events[0]]];
            && IsAuthBurst(Failures(events, "10.0.0.9"), 1, 60, bursts["10.0.0.9"])
            && Hit(PrivilegeEscalation, "ann", [3, 2])
               in Escalations(events, Compromised(["10.0.0.9"], bursts, RelatedLogins(events, bursts)))
            && !Follows(events[2], events[1])
  {
    var events := EarlyCommand();
    var bursts := map["10.0.0.9" := [events[0]]];
    EarlyBurst();
    EarlyLogin();
    EarlyRoot();
    assert events[2] in events;
    assert CitedLogin(["10.0.0.9"], RelatedLogins(events, bursts), "ann") == Some(events[1]);
    CommandIsReported(events, ["10.0.0.9"], bursts, events[2]);
  }

  function BruteForceHits(order: seq<string>, bursts: map<string, seq<AuthEvent>>): seq<Hit>
    requires forall ip :: ip in order ==> ip in bursts
  {
    seq(|order|, i requires 0 <= i < |order| =>
                   Hit(BruteForce, order[i], Ids(Cut(bursts[order[i]], Some(MAX_CITED_EVENTS)))))
  }

  lemma {:induction false} ChainNext(order: seq<string>, bursts: map<string, seq<AuthEvent>>, logins: Logins, n: nat)
    requires n < |order| && forall ip :: ip in order ==> ip in bursts && ip in logins
    ensures var ip := order[n];
            && LoginHits(order[..n + 1], bursts, logins)
               == LoginHits(order[..n], bursts, logins)
                  + (if logins[ip].Some? then [LoginHit(ip, bursts[ip], logins[ip].value)] else [])
            && Compromised(order[..n + 1], bursts, logins)
               == var before := Compromised(order[..n], bursts, logins);
                  if logins[ip].Some? && Present(logins[ip].value.user)
                  then before[logins[ip].value.user.value := LoginHit(ip, bursts[ip], logins[ip].value)]
                  else before
  {
    assert order[..n + 1][..n] == order[..n];
  }

  /** The loop over bursts that looks for a login after each. */
  method ChainLogins(events: seq<AuthEvent>, order: seq<string>, bursts: map<string, seq<AuthEvent>>)
    returns (hits: seq<Hit>, compromised: map<string, Hit>)
    requires forall ip :: ip in order ==> ip in bursts
    ensures hits == LoginHits(order, bursts, RelatedLogins(events, bursts))
    ensures compromised == Compromised(order, bursts, RelatedLogins(events, bursts))
  {
    hits, compromised := [], map[];
    ghost var logins := RelatedLogins(events, bursts);
    for n := 0 to |order|
      invariant hits == LoginHits(order[..n], bursts, logins)
      invariant compromised == Compromised(order[..n], bursts, logins)
    {
      var ip := order[n];
      ChainNext(order, bursts, logins, n);
      var success := FirstSuccessAfter(events, ip, bursts[ip]);
      assert logins[ip] == success;
      if success.None? {
        continue;
      }
      var hit := LoginHit(ip, bursts[ip], success.value);
      hits := hits + [hit];
      if Present(success.value.user) {
        compromised := compromised[success.value.user.value := hit];
      }
    }
    assert order[..|order|] == order;
  }

  // ---------------------------------------------------------------------------------------------
  // User enumeration
  // ---------------------------------------------------------------------------------------------

  const ENUMERATION_MIN_USERS := 3

  function InvalidKey(e: AuthEvent): Option<string> {
    if e.invalidUser && Present(e.sourceIp) && Present(e.user) then e.sourceIp else None
  }

  /** The attempts of one address at names that do not exist. */
  function InvalidAttempts(events: seq<AuthEvent>, ip: string): seq<AuthEvent> {
    Group(events, InvalidKey, ip)
  }

  predicate NamesUser(events: seq<AuthEvent>, user: Option<string>) {
    exists e | e in events :: e.user == user
  }

  /** The first event of each user, in order. */
  function FirstPerUser(events: seq<AuthEvent>): seq<AuthEvent> {
    if events == [] then []
    else
      var before, e := FirstPerUser(events[..|events| - 1]), events[|events| - 1];
      if NamesUser(before, e.user) then before else before + [e]
  }

  ghost function UsersOf(events: seq<AuthEvent>): set<Option<string>> {
    set e | e in events :: e.user
  }

  /** There are as many first events as there are users. */
  lemma {:induction false} FirstPerUserMeans(events: seq<AuthEvent>)
    ensures UsersOf(FirstPerUser(events)) == UsersOf(events) && |FirstPerUser(events)| == |UsersOf(events)|
    ensures forall e :: e in FirstPerUser(events) ==> e in events
  {
    if events != [] {
      var front, last := events[..|events| - 1], events[|events| - 1];
      FirstPerUserMeans(front);
      assert events == front + [last];
      assert UsersOf(events) == UsersOf(front) + {last.user};
      var before := FirstPerUser(front);
      if NamesUser(before, last.user) {
        assert last.user in UsersOf(before);
      } else {
        assert last.user !in UsersOf(before);
        assert UsersOf(before + [last]) == UsersOf(before) + {last.user};
      }
    }
  }

  function EnumerationHit(ip: string, firsts: seq<AuthEvent>): Hit {
    Hit(UserEnumeration, ip, Ids(Cut(firsts, Some(MAX_CITED_EVENTS))))
  }

  /** The hits for the addresses that tried enough names, in the order given. */
  function EnumerationHits(events: seq<AuthEvent>, order: seq<string>): seq<Hit> {
    if order == [] then []
    else
      var ip := order[|order| - 1];
      var firsts := FirstPerUser(InvalidAttempts(events, ip));
      EnumerationHits(events, order[..|order| - 1])
      + if |firsts| >= ENUMERATION_MIN_USERS then [EnumerationHit(ip, firsts)] else []
  }

  /** An address is reported exactly if it tried at least three names that do not exist. */
  lemma {:induction false} EnumerationIsExact(events: seq<AuthEvent>, order: seq<string>, ip: string)
    requires forall k :: InvalidAttempts(events, k) != [] ==> k in order
    ensures (exists h :: h in EnumerationHits(events, order) && h.subject == ip)
            <==> |UsersOf(InvalidAttempts(events, ip))| >= ENUMERATION_MIN_USERS
  {
    FirstPerUserMeans(InvalidAttempts(events, ip));
    EnumerationHitsMean(events, order, ip);
  }

  lemma {:induction false} EnumerationHitsMean(events: seq<AuthEvent>, order: seq<string>, ip: string)
    ensures (exists h :: h in EnumerationHits(events, order) && h.subject == ip)
            <==> ip in order && |FirstPerUser(InvalidAttempts(events, ip))| >= ENUMERATION_MIN_USERS
  {
    if order != [] {
      var front, last := order[..|order| - 1], order[|order| - 1];
      EnumerationHitsMean(events, front, ip);
      assert order == front + [last];
      var firsts := FirstPerUser(InvalidAttempts(events, last));
      var hits := EnumerationHits(events, front);
      if |firsts| >= ENUMERATION_MIN_USERS {
        assert EnumerationHits(events, order) == hits + [EnumerationHit(last, firsts)];
        assert EnumerationHit(last, firsts) in EnumerationHits(events, order);
      } else {
        assert EnumerationHits(events, order) == hits;
      }
    }
  }

  /** One address: keep the first event of each name. */
  method KeepFirstPerUser(events: seq<AuthEvent>) returns (firsts: seq<AuthEvent>)
    ensures firsts == FirstPerUser(events)
  {
    firsts := [];
    for n := 0 to |events|
      invariant firsts == FirstPerUser(events[..n])
    {
      assert events[..n + 1][..n] == events[..n];
      if !NamesUser(firsts, events[n].user) {
        firsts := firsts + [events[n]];
      }
    }
    assert events[..|events|] == events;
  }

  method EvaluateUserEnumeration(events: seq<AuthEvent>) returns (hits: seq<Hit>, order: seq<string>)
    ensures Distinct(order) && forall k :: InvalidAttempts(events, k) != [] ==> k in order
    ensures order == GroupOrder(events, InvalidKey) && hits == EnumerationHits(events, order)
  {
    var byIp;
    order, byIp := GroupBy(events, InvalidKey);
    hits := [];
    for n := 0 to |order|
      invariant hits == EnumerationHits(events, order[..n])
    {
      var ip := order[n];
      assert order[..n + 1][..n] == order[..n] && ip in Elements(order);
      assert IsGroup(events, InvalidKey, byIp, ip);
      var firsts := KeepFirstPerUser(byIp[ip]);
      if |firsts| < ENUMERATION_MIN_USERS {
        continue;
      }
      hits := hits + [EnumerationHit(ip, firsts)];
    }
    assert order[..|order|] == order;
    forall k | InvalidAttempts(events, k) != []
      ensures k in order
    {
      assert IsGroup(events, InvalidKey, byIp, k) && (k in byIp ==> k in Elements(order));
    }
  }

  // ---------------------------------------------------------------------------------------------
  // All rules
  // ---------------------------------------------------------------------------------------------

  /** High for a login after failures and for an escalation, medium for the other two. */
  function SeverityRank(rule: Rule): int {
    if rule.SuccessAfterBruteForce? || rule.PrivilegeEscalation? then 3 else 2
  }

  function RuleNumber(rule: Rule): int {
    match rule
    case BruteForce => 1
    case SuccessAfterBruteForce => 2
    case UserEnumeration => 3
    case PrivilegeEscalation => 4
  }

  /** The highest severity first, and then by the number of the rule. */
  function HitKey(h: Hit): int {
    RuleNumber(h.rule) - 10 * SeverityRank(h.rule)
  }

  lemma {:induction false} LoginHitsHaveRule(order: seq<string>, bursts: map<string, seq<AuthEvent>>, logins: Logins)
    requires forall ip :: ip in order ==> ip in bursts && ip in logins
    ensures AllWithKey(LoginHits(order, bursts, logins), HitKey, -28)
  {
    if order != [] {
      LoginHitsHaveRule(order[..|order| - 1], bursts, logins);
    }
  }

  lemma {:induction false} EscalationsHaveRule(events: seq<AuthEvent>, compromised: map<string, Hit>)
    ensures AllWithKey(Escalations(events, compromised), HitKey, -26)
  {
    if events != [] {
      EscalationsHaveRule(events[..|events| - 1], compromised);
    }
  }

  lemma {:induction false} BruteForceHitsHaveRule(order: seq<string>, bursts: map<string, seq<AuthEvent>>)
    requires forall ip :: ip in order ==> ip in bursts
    ensures AllWithKey(BruteForceHits(order, bursts), HitKey, -19)
  {
  }

  lemma {:induction false} EnumerationHitsHaveRule(events: seq<AuthEvent>, order: seq<string>)
    ensures AllWithKey(EnumerationHits(events, order), HitKey, -17)
  {
    if order != [] {
      EnumerationHitsHaveRule(events, order[..|order| - 1]);
    }
  }

  /** Sorting the hits of the four rules puts the rules one behind the other, each in its own order. */
  lemma {:induction false} SortedByRule(brute: seq<Hit>, login: seq<Hit>, enumeration: seq<Hit>, escalation: seq<Hit>)
    requires AllWithKey(brute, HitKey, -19) && AllWithKey(login, HitKey, -28)
    requires AllWithKey(enumeration, HitKey, -17) && AllWithKey(escalation, HitKey, -26)
    ensures SortBy(brute + login + enumeration + escalation, HitKey) == login + escalation + brute + enumeration
  {
    SortedByThree(login, enumeration, escalation);
    SortBetween(brute, login + enumeration + escalation, login + escalation, enumeration, HitKey, -19);
    assert brute + (login + enumeration + escalation) == brute + login + enumeration + escalation;
  }

  lemma {:induction false} SortedByThree(login: seq<Hit>, enumeration: seq<Hit>, escalation: seq<Hit>)
    requires AllWithKey(login, HitKey, -28) && AllWithKey(enumeration, HitKey, -17)
             && AllWithKey(escalation, HitKey, -26)
    ensures SortBy(login + enumeration + escalation, HitKey) == (login + escalation) + enumeration
  {
    SortedByTwo(enumeration, escalation);
    SortBetween(login, enumeration + escalation, [], escalation + enumeration, HitKey, -28);
    assert login + (enumeration + escalation) == login + enumeration + escalation;
    assert [] + login == login;
    assert login + (escalation + enumeration) == (login + escalation) + enumeration;
  }

  lemma {:induction false} SortedByTwo(enumeration: seq<Hit>, escalation: seq<Hit>)
    requires AllWithKey(enumeration, HitKey, -17) && AllWithKey(escalation, HitKey, -26)
    ensures SortBy(enumeration + escalation, HitKey) == [] + (escalation + enumeration)
  {
    SortBetween(escalation, [], [], [], HitKey, -26);
    assert escalation + [] == escalation && [] + escalation + [] == escalation;
    SortBetween(enumeration, escalation, escalation, [], HitKey, -17);
  }

  method EvaluatePrivilegeEscalation(events: seq<AuthEvent>, compromised: map<string, Hit>) returns (hits: seq<Hit>)
    ensures hits == Escalations(events, compromised)
  {
    hits := [];
    for n := 0 to |events|
      invariant hits == Escalations(events[..n], compromised)
    {
      var e := events[n];
      assert events[..n + 1][..n] == events[..n];
      if IsRootSudo(e) && e.user.value in compromised {
        hits := hits + [EscalationHit(e, compromised[e.user.value])];
      }
    }
    assert events[..|events|] == events;
  }

  // ---------------------------------------------------------------------------------------------
  // What the hits say, rule by rule
  // ---------------------------------------------------------------------------------------------

  /** The hits of one rule about one subject. */
  function Of(hits: seq<Hit>, rule: Rule, subject: string): seq<Hit> {
    if hits == [] then []
    else
      var h := hits[|hits| - 1];
      Of(hits[..|hits| - 1], rule, subject) + if h.rule == rule && h.subject == subject then [h] else []
  }

  lemma {:induction false} OfConcat(a: seq<Hit>, b: seq<Hit>, rule: Rule, subject: string)
    ensures Of(a + b, rule, subject) == Of(a, rule, subject) + Of(b, rule, subject)
  {
    if b == [] {
      assert a + b == a;
    } else {
      assert (a + b)[..|a + b| - 1] == a + b[..|b| - 1];
      OfConcat(a, b[..|b| - 1], rule, subject);
    }
  }

  lemma {:induction false} OfNext(hits: seq<Hit>, h: Hit, rule: Rule, subject: string)
    ensures Of(hits + [h], rule, subject)
         == Of(hits, rule, subject) + if h.rule == rule && h.subject == subject then [h] else []
  {
    assert (hits + [h])[..|hits|] == hits;
  }

  lemma {:induction false} OfOther(hits: seq<Hit>, rule: Rule, subject: string)
    requires forall h :: h in hits ==> h.rule != rule
    ensures Of(hits, rule, subject) == []
  {
    if hits != [] {
      assert hits[|hits| - 1] in hits;
      OfOther(hits[..|hits| - 1], rule, subject);
    }
  }

  /** The ids are those of the first of the events, as many as may be cited. */
  ghost predicate CitesFirst(ids: seq<int>, events: seq<AuthEvent>) {
    && |ids| == Min(|events|, MAX_CITED_EVENTS)
    && forall i :: 0 <= i < |ids| ==> ids[i] == events[i].evidenceId
  }

  lemma {:induction false} IdsOfFirst(events: seq<AuthEvent>)
    ensures CitesFirst(Ids(Cut(events, Some(MAX_CITED_EVENTS))), events)
  {
  }

  /** A dated failure of the address. */
  lemma {:induction false} FailuresMean(events: seq<AuthEvent>, ip: string)
    ensures forall e :: e in Failures(events, ip) <==>
              && e in events && e.sourceIp == Some(ip) && ip != "" && e.observedAt.Some?
              && (e.eventType == "auth_failure" || e.eventType == "invalid_user" || e.eventType == "max_auth_attempts")
  {
    GroupMeans(events, FailureKey, ip);
  }

  predicate IsFailureOf(e: AuthEvent, ip: string) {
    && e.sourceIp == Some(ip) && ip != "" && e.observedAt.Some?
    && (e.eventType == "auth_failure" || e.eventType == "invalid_user" || e.eventType == "max_auth_attempts")
  }

  /** The failures and the attempts of an address stand in the order of the events. */
  lemma {:induction false} GroupsInOrder(events: seq<AuthEvent>, ip: string)
    returns (failures: seq<int>, attempts: seq<int>)
    ensures Selects(events, (e: AuthEvent) => IsFailureOf(e, ip), Failures(events, ip), failures)
    ensures Selects(events, (e: AuthEvent) => InvalidKey(e) == Some(ip), InvalidAttempts(events, ip), attempts)
  {
    failures := GroupSelects(events, FailureKey, ip, (e: AuthEvent) => IsFailureOf(e, ip));
    attempts := GroupSelects(events, InvalidKey, ip, (e: AuthEvent) => InvalidKey(e) == Some(ip));
  }

  /** An attempt of the address at a name that does not exist. */
  lemma {:induction false} InvalidAttemptsMean(events: seq<AuthEvent>, ip: string)
    ensures forall e :: e in InvalidAttempts(events, ip) <==>
              && e in events && e.sourceIp == Some(ip) && ip != "" && e.invalidUser
              && e.user.Some? && e.user.value != ""
  {
    GroupMeans(events, InvalidKey, ip);
  }

  /** A dated success of the address, not before all of the burst and not more than an hour after all of it. */
  ghost predicate IsRelated(e: AuthEvent, ip: string, burst: seq<AuthEvent>) {
    && e.eventType == "auth_success" && e.sourceIp == Some(ip) && e.observedAt.Some?
    && (exists f :: f in burst && AuthTime(f) <= e.observedAt.value)
    && exists f :: f in burst && e.observedAt.value <= AuthTime(f) + SUCCESS_CORRELATION_SECONDS
  }

  lemma {:induction false} RelatedMeans(e: AuthEvent, ip: string, burst: seq<AuthEvent>)
    requires burst != []
    ensures IsRelatedSuccess(e, ip, burst) <==> IsRelated(e, ip, burst)
  {
  }

  /** Of the related successes, the `k`-th event is the earliest, and the first of these in the log. */
  ghost predicate IsEarliestSuccess(events: seq<AuthEvent>, ip: string, burst: seq<AuthEvent>, k: nat) {
    && k < |events| && IsRelated(events[k], ip, burst)
    && forall j :: 0 <= j < |events| && IsRelated(events[j], ip, burst) ==>
         && AuthTime(events[k]) <= AuthTime(events[j]) && (j < k ==> AuthTime(events[k]) < AuthTime(events[j]))
  }

  lemma {:induction false} EarliestOfMore(e: AuthEvent, rest: seq<AuthEvent>)
    ensures Earliest([e] + rest)
         == if rest == [] || AuthTime(e) <= AuthTime(Earliest(rest)) then e else Earliest(rest)
  {
    assert ([e] + rest)[1..] == rest;
  }

  lemma {:induction false} OnlyFirst(events: seq<AuthEvent>, ip: string, burst: seq<AuthEvent>)
    requires burst != [] && events != [] && Candidates(events[1..], ip, burst) == [] && IsRelated(events[0], ip, burst)
    ensures IsEarliestSuccess(events, ip, burst, 0)
  {
    CandidatesMean(events[1..], ip, burst);
    forall j | 0 < j < |events|
      ensures !IsRelated(events[j], ip, burst)
    {
      assert events[j] == events[1..][j - 1];
      RelatedMeans(events[j], ip, burst);
    }
  }

  lemma {:induction false} OneMore(events: seq<AuthEvent>, ip: string, burst: seq<AuthEvent>, i: nat)
    requires events != [] && IsEarliestSuccess(events[1..], ip, burst, i)
    ensures IsEarliestSuccess(events, ip, burst,
                              if IsRelated(events[0], ip, burst) && AuthTime(events[0]) <= AuthTime(events[i + 1])
                              then 0 else i + 1)
  {
    assert forall j :: 0 < j < |events| ==> events[j] == events[1..][j - 1];
  }

  lemma {:induction false} EarliestSuccess(events: seq<AuthEvent>, ip: string, burst: seq<AuthEvent>) returns (k: nat)
    requires burst != [] && Candidates(events, ip, burst) != []
    ensures IsEarliestSuccess(events, ip, burst, k) && events[k] == Earliest(Candidates(events, ip, burst))
  {
    var rest := Candidates(events[1..], ip, burst);
    RelatedMeans(events[0], ip, burst);
    EarliestOfMore(events[0], rest);
    assert [] + rest == rest;
    if rest == [] {
      k := 0;
      OnlyFirst(events, ip, burst);
    } else {
      var i := EarliestSuccess(events[1..], ip, burst);
      OneMore(events, ip, burst, i);
      k := if IsRelated(events[0], ip, burst) && AuthTime(events[0]) <= AuthTime(events[i + 1]) then 0 else i + 1;
    }
  }

  ghost predicate HasRelated(events: seq<AuthEvent>, ip: string, burst: seq<AuthEvent>) {
    exists e :: e in events && IsRelated(e, ip, burst)
  }

  lemma {:induction false} NoSuccess(events: seq<AuthEvent>, ip: string, burst: seq<AuthEvent>)
    requires burst != []
    ensures Candidates(events, ip, burst) == [] <==> !HasRelated(events, ip, burst)
  {
    CandidatesMean(events, ip, burst);
    forall e
      ensures IsRelatedSuccess(e, ip, burst) <==> IsRelated(e, ip, burst)
    {
      RelatedMeans(e, ip, burst);
    }
    assert Candidates(events, ip, burst) != [] ==> Candidates(events, ip, burst)[0] in Candidates(events, ip, burst);
  }

  /** One hit about the address if it has a burst, which cites the first events of the earliest longest one. */
  ghost predicate BurstIsReported(events: seq<AuthEvent>, minFailures: int, window: int, ip: string, hits: seq<Hit>) {
    if HasBurst(Failures(events, ip), AuthTime, minFailures, window) then
      exists burst, ids ::
        && IsAuthBurst(Failures(events, ip), minFailures, window, burst) && CitesFirst(ids, burst)
        && hits == [Hit(BruteForce, ip, ids)]
    else hits == []
  }

  /** One hit about the address if a success is related to its burst, which cites the earliest such success last. */
  ghost predicate LoginIsReported(events: seq<AuthEvent>, minFailures: int, window: int, ip: string, hits: seq<Hit>) {
    if exists burst :: IsAuthBurst(Failures(events, ip), minFailures, window, burst) && HasRelated(events, ip, burst)
    then
      exists burst, ids, k: nat ::
        && IsAuthBurst(Failures(events, ip), minFailures, window, burst) && CitesFirst(ids, burst)
        && IsEarliestSuccess(events, ip, burst, k)
        && hits == [Hit(SuccessAfterBruteForce, ip, ids + [events[k].evidenceId])]
    else hits == []
  }

  lemma {:induction false} BruteForceHitsOf(order: seq<string>, bursts: map<string, seq<AuthEvent>>, ip: string)
    requires Distinct(order) && forall k :: k in order ==> k in bursts
    ensures Of(BruteForceHits(order, bursts), BruteForce, ip)
         == if ip in order then [Hit(BruteForce, ip, Ids(Cut(bursts[ip], Some(MAX_CITED_EVENTS))))] else []
  {
    if order != [] {
      var front, last := order[..|order| - 1], order[|order| - 1];
      assert order == front + [last] && last !in front;
      BruteForceHitsOf(front, bursts, ip);
      var h := Hit(BruteForce, last, Ids(Cut(bursts[last], Some(MAX_CITED_EVENTS))));
      assert BruteForceHits(order, bursts) == BruteForceHits(front, bursts) + [h];
      OfNext(BruteForceHits(front, bursts), h, BruteForce, ip);
    }
  }

  lemma {:induction false} LoginHitsOf(order: seq<string>, bursts: map<string, seq<AuthEvent>>, logins: Logins,
                                       ip: string)
    requires Distinct(order) && forall k :: k in order ==> k in bursts && k in logins
    ensures Of(LoginHits(order, bursts, logins), SuccessAfterBruteForce, ip)
         == if ip in order && logins[ip].Some? then [LoginHit(ip, bursts[ip], logins[ip].value)] else []
  {
    if order != [] {
      var front, last := order[..|order| - 1], order[|order| - 1];
      assert order == front + [last] && last !in front;
      LoginHitsOf(front, bursts, logins, ip);
      if logins[last].Some? {
        OfNext(LoginHits(front, bursts, logins), LoginHit(last, bursts[last], logins[last].value),
               SuccessAfterBruteForce, ip);
      } else {
        assert LoginHits(order, bursts, logins) == LoginHits(front, bursts, logins);
      }
    }
  }

  lemma {:induction false} BurstIsUnique(failures: seq<AuthEvent>, minFailures: int, window: int, a: seq<AuthEvent>,
                                         b: seq<AuthEvent>)
    requires IsAuthBurst(failures, minFailures, window, a) && IsAuthBurst(failures, minFailures, window, b)
    ensures a == b
  {
    var ordered := SortBy(failures, AuthTime);
    var i :| IsBestWindow(ordered, AuthTime, minFailures, window, a, i, |ordered|);
    var j :| IsBestWindow(ordered, AuthTime, minFailures, window, b, j, |ordered|);
  }

  lemma {:induction false} LogIsReported(events: seq<AuthEvent>, minFailures: int, window: int, order: seq<string>,
                                         bursts: map<string, seq<AuthEvent>>, ip: string)
    requires Distinct(order) && Elements(order) == bursts.Keys
    requires forall k :: k in bursts <==> HasBurst(Failures(events, k), AuthTime, minFailures, window)
    requires forall k :: k in bursts ==> IsAuthBurst(Failures(events, k), minFailures, window, bursts[k])
    ensures forall k :: k in order ==> k in bursts
    ensures BurstIsReported(events, minFailures, window, ip, Of(BruteForceHits(order, bursts), BruteForce, ip))
    ensures LoginIsReported(events, minFailures, window, ip,
                            Of(LoginHits(order, bursts, RelatedLogins(events, bursts)), SuccessAfterBruteForce, ip))
  {
    assert forall k :: k in order <==> k in Elements(order);
    BruteForceHitsOf(order, bursts, ip);
    LoginHitsOf(order, bursts, RelatedLogins(events, bursts), ip);
    if ip in bursts {
      IdsOfFirst(bursts[ip]);
      assert bursts[ip] != [];
      BurstLoginIsReported(events, minFailures, window, ip, bursts[ip]);
    } else {
      forall burst
        ensures !IsAuthBurst(Failures(events, ip), minFailures, window, burst)
      {
        if IsAuthBurst(Failures(events, ip), minFailures, window, burst) {
          BurstIsCrowded(Failures(events, ip), minFailures, window, burst);
        }
      }
    }
  }

  lemma {:induction false} BurstIsCrowded(failures: seq<AuthEvent>, minFailures: int, window: int,
                                          burst: seq<AuthEvent>)
    requires IsAuthBurst(failures, minFailures, window, burst)
    ensures HasBurst(failures, AuthTime, minFailures, window)
  {
    var ordered := SortBy(failures, AuthTime);
    SortBySorts(failures, AuthTime);
    var lo :| IsBestWindow(ordered, AuthTime, minFailures, window, burst, lo, |ordered|);
    assert IsWindow(ordered, AuthTime, window, lo, lo + |burst|);
    BurstIsWindow(ordered, AuthTime, minFailures, window);
    SameBurst(ordered, failures, AuthTime, AuthTime, minFailures, window);
  }

  lemma {:induction false} BurstLoginIsReported(events: seq<AuthEvent>, minFailures: int, window: int, ip: string,
                                                burst: seq<AuthEvent>)
    requires IsAuthBurst(Failures(events, ip), minFailures, window, burst)
    ensures var login := FirstSuccessAfter(events, ip, burst);
            LoginIsReported(events, minFailures, window, ip,
                            if login.Some? then [LoginHit(ip, burst, login.value)] else [])
  {
    NoSuccess(events, ip, burst);
    if HasRelated(events, ip, burst) {
      var k := EarliestSuccess(events, ip, burst);
      IdsOfFirst(burst);
    } else {
      forall other | IsAuthBurst(Failures(events, ip), minFailures, window, other)
        ensures other == burst
      {
        BurstIsUnique(Failures(events, ip), minFailures, window, other, burst);
      }
    }
  }

  /** The first of the attempts at a name. */
  ghost predicate IsFirstOfName(attempts: seq<AuthEvent>, k: nat) {
    k < |attempts| && forall j :: 0 <= j < k ==> attempts[j].user != attempts[k].user
  }

  /** The first attempt at each name, in the order of the log; `ks` are their places. */
  ghost predicate AreFirsts(attempts: seq<AuthEvent>, firsts: seq<AuthEvent>, ks: seq<nat>) {
    && |ks| == |firsts| && (forall i, j :: 0 <= i < j < |ks| ==> ks[i] < ks[j])
    && (forall i :: 0 <= i < |ks| ==> IsFirstOfName(attempts, ks[i]) && firsts[i] == attempts[ks[i]])
    && forall k :: IsFirstOfName(attempts, k) ==> k in ks
  }

  lemma {:induction false} FirstsOfName(attempts: seq<AuthEvent>) returns (ks: seq<nat>)
    ensures AreFirsts(attempts, FirstPerUser(attempts), ks)
  {
    if attempts == [] {
      ks := [];
    } else {
      var front, last := attempts[..|attempts| - 1], attempts[|attempts| - 1];
      assert attempts == front + [last];
      var before := FirstsOfName(front);
      FirstPerUserMeans(front);
      NameIsNew(front, last);
      OneAttemptMore(front, last, FirstPerUser(front), before);
      ks := if NamesUser(FirstPerUser(front), last.user) then before else before + [|front|];
    }
  }

  lemma {:induction false} OneAttemptMore(front: seq<AuthEvent>, last: AuthEvent, firsts: seq<AuthEvent>, ks: seq<nat>)
    requires AreFirsts(front, firsts, ks)
    ensures if IsFirstOfName(front + [last], |front|) then AreFirsts(front + [last], firsts + [last], ks + [|front|])
            else AreFirsts(front + [last], firsts, ks)
  {
    var all := front + [last];
    forall k: nat | k < |front|
      ensures IsFirstOfName(all, k) <==> IsFirstOfName(front, k)
    {
      assert forall j :: 0 <= j <= k ==> all[j] == front[j];
    }
    forall k: nat | IsFirstOfName(all, k)
      ensures k == |front| || k in ks
    {
      assert k < |front| ==> IsFirstOfName(front, k);
    }
  }

  lemma {:induction false} NameIsNew(front: seq<AuthEvent>, last: AuthEvent)
    requires UsersOf(FirstPerUser(front)) == UsersOf(front)
    ensures NamesUser(FirstPerUser(front), last.user) <==> !IsFirstOfName(front + [last], |front|)
  {
    var all := front + [last];
    assert NamesUser(FirstPerUser(front), last.user) <==> last.user in UsersOf(FirstPerUser(front));
    if last.user in UsersOf(front) {
      var e :| e in front && e.user == last.user;
      var j :| 0 <= j < |front| && front[j] == e;
      assert all[j] == e;
    }
    if !IsFirstOfName(all, |front|) {
      var j :| 0 <= j < |front| && all[j].user == all[|front|].user;
      assert all[j] == front[j] && front[j] in front;
    }
  }

  /** One hit about the address if it tried at least three names, which cites the first attempts at the first names. */
  ghost predicate EnumerationIsReported(events: seq<AuthEvent>, ip: string, hits: seq<Hit>) {
    var attempts := InvalidAttempts(events, ip);
    if |UsersOf(attempts)| >= 3 then
      exists firsts, ks, ids ::
        AreFirsts(attempts, firsts, ks) && CitesFirst(ids, firsts) && hits == [Hit(UserEnumeration, ip, ids)]
    else hits == []
  }

  lemma {:induction false} EnumerationHitsOf(events: seq<AuthEvent>, order: seq<string>, ip: string)
    requires Distinct(order)
    ensures var firsts := FirstPerUser(InvalidAttempts(events, ip));
            Of(EnumerationHits(events, order), UserEnumeration, ip)
            == if ip in order && |firsts| >= ENUMERATION_MIN_USERS then [EnumerationHit(ip, firsts)] else []
  {
    if order != [] {
      var front, last := order[..|order| - 1], order[|order| - 1];
      assert order == front + [last] && last !in front;
      EnumerationHitsOf(events, front, ip);
      var firsts := FirstPerUser(InvalidAttempts(events, last));
      if |firsts| >= ENUMERATION_MIN_USERS {
        OfNext(EnumerationHits(events, front), EnumerationHit(last, firsts), UserEnumeration, ip);
      } else {
        assert EnumerationHits(events, order) == EnumerationHits(events, front);
      }
    }
  }

  lemma {:induction false} AttemptsAreReported(events: seq<AuthEvent>, order: seq<string>, ip: string)
    requires Distinct(order) && forall k :: InvalidAttempts(events, k) != [] ==> k in order
    ensures EnumerationIsReported(events, ip, Of(EnumerationHits(events, order), UserEnumeration, ip))
  {
    var attempts := InvalidAttempts(events, ip);
    EnumerationHitsOf(events, order, ip);
    FirstPerUserMeans(attempts);
    var ks := FirstsOfName(attempts);
    IdsOfFirst(FirstPerUser(attempts));
  }

  function RootKey(e: AuthEvent): Option<string> {
    if IsRootSudo(e) then e.user else None
  }

  /** One hit for each root command of a user with a suspicious login, in order, and none for anybody else. */
  ghost predicate CommandsAreReported(events: seq<AuthEvent>, order: seq<string>, logins: Logins, user: string,
                                      hits: seq<Hit>)
    requires forall ip :: ip in order ==> ip in logins
  {
    var commands, login := Group(events, RootKey, user), CitedLogin(order, logins, user);
    if login.None? then hits == []
    else
      && |hits| == |commands|
      && forall i :: 0 <= i < |hits| ==>
           hits[i] == Hit(PrivilegeEscalation, user, [commands[i].evidenceId, login.value.evidenceId])
  }

  lemma {:induction false} EscalationsOf(events: seq<AuthEvent>, compromised: map<string, Hit>, user: string)
    ensures var hits, commands := Of(Escalations(events, compromised), PrivilegeEscalation, user),
                                  Group(events, RootKey, user);
            if user in compromised then
              && |hits| == |commands|
              && forall i :: 0 <= i < |hits| ==>
                   hits[i] == Hit(PrivilegeEscalation, user, [commands[i].evidenceId, LastId(compromised[user])])
            else hits == []
  {
    if events != [] {
      var front, e := events[..|events| - 1], events[|events| - 1];
      EscalationsOf(front, compromised, user);
      if IsRootSudo(e) && e.user.value in compromised {
        OfNext(Escalations(front, compromised), EscalationHit(e, compromised[e.user.value]), PrivilegeEscalation, user);
      } else {
        assert Escalations(events, compromised) == Escalations(front, compromised);
      }
    }
  }

  /** What the hits say about one address or user. */
  ghost predicate ReportsOn(events: seq<AuthEvent>, minFailures: int, window: int, order: seq<string>, logins: Logins,
                            hits: seq<Hit>, subject: string)
    requires forall ip :: ip in order ==> ip in logins
  {
    && BurstIsReported(events, minFailures, window, subject, Of(hits, BruteForce, subject))
    && LoginIsReported(events, minFailures, window, subject, Of(hits, SuccessAfterBruteForce, subject))
    && EnumerationIsReported(events, subject, Of(hits, UserEnumeration, subject))
    && CommandsAreReported(events, order, logins, subject, Of(hits, PrivilegeEscalation, subject))
  }

  lemma {:induction false} OfKey(hits: seq<Hit>, k: int, rule: Rule, subject: string)
    requires AllWithKey(hits, HitKey, k) && k != RuleNumber(rule) - 10 * SeverityRank(rule)
    ensures Of(hits, rule, subject) == []
  {
    forall h | h in hits
      ensures h.rule != rule
    {
      assert HitKey(h) == k;
    }
    OfOther(hits, rule, subject);
  }

  lemma {:induction false} OfFour(login: seq<Hit>, escalation: seq<Hit>, brute: seq<Hit>, enumeration: seq<Hit>,
                                  subject: string)
    requires AllWithKey(brute, HitKey, -19) && AllWithKey(login, HitKey, -28)
    requires AllWithKey(enumeration, HitKey, -17) && AllWithKey(escalation, HitKey, -26)
    ensures var hits := login + escalation + brute + enumeration;
            && Of(hits, SuccessAfterBruteForce, subject) == Of(login, SuccessAfterBruteForce, subject)
            && Of(hits, PrivilegeEscalation, subject) == Of(escalation, PrivilegeEscalation, subject)
            && Of(hits, BruteForce, subject) == Of(brute, BruteForce, subject)
            && Of(hits, UserEnumeration, subject) == Of(enumeration, UserEnumeration, subject)
  {
    OfParts(login, escalation, brute, enumeration, SuccessAfterBruteForce, subject);
    OfParts(login, escalation, brute, enumeration, PrivilegeEscalation, subject);
    OfParts(login, escalation, brute, enumeration, BruteForce, subject);
    OfParts(login, escalation, brute, enumeration, UserEnumeration, subject);
    OfKey(login, -28, PrivilegeEscalation, subject);
    OfKey(login, -28, BruteForce, subject);
    OfKey(login, -28, UserEnumeration, subject);
    OfKey(escalation, -26, SuccessAfterBruteForce, subject);
    OfKey(escalation, -26, BruteForce, subject);
    OfKey(escalation, -26, UserEnumeration, subject);
    OfKey(brute, -19, SuccessAfterBruteForce, subject);
    OfKey(brute, -19, PrivilegeEscalation, subject);
    OfKey(brute, -19, UserEnumeration, subject);
    OfKey(enumeration, -17, SuccessAfterBruteForce, subject);
    OfKey(enumeration, -17, PrivilegeEscalation, subject);
    OfKey(enumeration, -17, BruteForce, subject);
  }

  lemma {:induction false} OfParts(a: seq<Hit>, b: seq<Hit>, c: seq<Hit>, d: seq<Hit>, rule: Rule, subject: string)
    ensures Of(a + b + c + d, rule, subject)
         == Of(a, rule, subject) + Of(b, rule, subject) + Of(c, rule, subject) + Of(d, rule, subject)
  {
    OfConcat(a + b + c, d, rule, subject);
    OfConcat(a + b, c, rule, subject);
    OfConcat(a, b, rule, subject);
  }

  /** The hits of all rules report exactly what the log shows, about every address and user. */
  lemma {:induction false} HitsReport(events: seq<AuthEvent>, minFailures: int, window: int, order: seq<string>,
                                      bursts: map<string, seq<AuthEvent>>, ips: seq<string>, subject: string)
    requires Distinct(order) && Elements(order) == bursts.Keys && forall ip :: ip in order ==> ip in bursts
    requires forall k :: k in bursts <==> HasBurst(Failures(events, k), AuthTime, minFailures, window)
    requires forall k :: k in bursts ==> IsAuthBurst(Failures(events, k), minFailures, window, bursts[k])
    requires Distinct(ips) && forall k :: InvalidAttempts(events, k) != [] ==> k in ips
    ensures var logins := RelatedLogins(events, bursts);
            var hits := LoginHits(order, bursts, logins) + Escalations(events, Compromised(order, bursts, logins))
                        + BruteForceHits(order, bursts) + EnumerationHits(events, ips);
            ReportsOn(events, minFailures, window, order, logins, hits, subject)
  {
    var logins := RelatedLogins(events, bursts);
    var compromised := Compromised(order, bursts, logins);
    LoginHitsHaveRule(order, bursts, logins);
    EscalationsHaveRule(events, compromised);
    BruteForceHitsHaveRule(order, bursts);
    EnumerationHitsHaveRule(events, ips);
    OfFour(LoginHits(order, bursts, logins), Escalations(events, compromised), BruteForceHits(order, bursts),
           EnumerationHits(events, ips), subject);
    LogIsReported(events, minFailures, window, order, bursts, subject);
    AttemptsAreReported(events, ips, subject);
    EscalationsOf(events, compromised, subject);
    CompromisedCites(order, bursts, logins, subject);
  }

  /** All rules, in the order of severity and rule. */
  method EvaluateAuthRules(events: seq<AuthEvent>, minFailures: int, window: int)
    returns (hits: seq<Hit>, order: seq<string>, bursts: map<string, seq<AuthEvent>>, ips: seq<string>)
    requires window >= 0
    ensures Distinct(order) && Elements(order) == bursts.Keys && forall ip :: ip in order ==> ip in bursts
    ensures forall ip :: ip in bursts <==> HasBurst(Failures(events, ip), AuthTime, minFailures, window)
    ensures forall ip :: ip in bursts ==> IsAuthBurst(Failures(events, ip), minFailures, window, bursts[ip])
    ensures Distinct(ips) && forall ip :: InvalidAttempts(events, ip) != [] ==> ip in ips
    // Within a rule, addresses come in the order in which the events first name them.
    ensures order == Chosen(GroupOrder(events, FailureKey), bursts.Keys) && ips == GroupOrder(events, InvalidKey)
    ensures var logins := RelatedLogins(events, bursts);
            hits == LoginHits(order, bursts, logins) + Escalations(events, Compromised(order, bursts, logins))
                    + BruteForceHits(order, bursts) + EnumerationHits(events, ips)
    // And this is what they say about every address and user.
    ensures forall subject ::
              ReportsOn(events, minFailures, window, order, RelatedLogins(events, bursts), hits, subject)
  {
    order, bursts := FindFailureBursts(events, minFailures, window);
    assert forall ip :: ip in order ==> ip in Elements(order);
    var enumerations, logins, escalations, compromised;
    logins, compromised := ChainLogins(events, order, bursts);
    enumerations, ips := EvaluateUserEnumeration(events);
    escalations := EvaluatePrivilegeEscalation(events, compromised);
    LoginHitsHaveRule(order, bursts, RelatedLogins(events, bursts));
    BruteForceHitsHaveRule(order, bursts);
    EscalationsHaveRule(events, compromised);
    EnumerationHitsHaveRule(events, ips);
    SortedByRule(BruteForceHits(order, bursts), logins, enumerations, escalations);
    hits := SortBy(BruteForceHits(order, bursts) + logins + enumerations + escalations, HitKey);
    forall subject
      ensures ReportsOn(events, minFailures, window, order, RelatedLogins(events, bursts), hits, subject)
    {
      HitsReport(events, minFailures, window, order, bursts, ips, subject);
    }
  }
}
