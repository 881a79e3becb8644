/**
 The sliding-window rate limiter (src/acip/core/security/ratelimit.py).  Times are reals; the lock
 makes every check one step, so a run is a sequence of checks.
 */
module RateLimit {
  import opened Prelude

  type Key = string

  datatype Decision = Admitted | Refused(retryAfter: int) | EmptyHistoryFault

  /** One completed check. */
  datatype Check = Check(key: Key, now: real, admitted: bool)

  function Prune(timestamps: seq<real>, windowStart: real): seq<real> {
    if timestamps == [] then []
    else (if timestamps[0] > windowStart then [timestamps[0]] else []) + Prune(timestamps[1..], windowStart)
  }

  /** When a key was admitted, in the order of the log. */
  function Admissions(log: seq<Check>, key: Key): seq<real> {
    if log == [] then []
    else
      var last := log[|log| - 1];
      Admissions(log[..|log| - 1], key) + if last.key == key && last.admitted then [last.now] else []
  }

  ghost predicate Ascending(s: seq<real>) {
    forall i, j :: 0 <= i < j < |s| ==> s[i] <= s[j]
  }

  /** Clock readings do not go back, in the order in which checks take the lock. */
  ghost predicate Monotone(log: seq<Check>) {
    forall i, j :: 0 <= i < j < |log| ==> log[i].now <= log[j].now
  }

  // ---------------------------------------------------------------------------------------------
  // The policy, stated without the stored history
  // ---------------------------------------------------------------------------------------------

  /** The admissions of a key that still count at `now`. */
  function Active(log: seq<Check>, key: Key, now: real, window: real): seq<real> {
    Prune(Admissions(log, key), now - window)
  }

  /** Every check was admitted exactly when fewer than the maximum still counted. */
  ghost predicate FollowsPolicy(log: seq<Check>, maxRequests: int, window: real) {
    forall i :: 0 <= i < |log| ==> DecidedAt(log, i, maxRequests, window)
  }

  ghost predicate DecidedAt(log: seq<Check>, i: nat, maxRequests: int, window: real)
    requires i < |log|
  {
    log[i].admitted <==> |Active(log[..i], log[i].key, log[i].now, window)| < maxRequests
  }

  lemma {:induction false} AdmissionsSnoc(log: seq<Check>, c: Check, key: Key)
    ensures Admissions(log + [c], key) == Admissions(log, key) + if c.key == key && c.admitted then [c.now] else []
  {
    assert (log + [c])[..|log|] == log;
  }

  lemma {:induction false} PolicySnoc(log: seq<Check>, c: Check, maxRequests: int, window: real)
    requires FollowsPolicy(log, maxRequests, window)
    requires c.admitted <==> |Active(log, c.key, c.now, window)| < maxRequests
    ensures FollowsPolicy(log + [c], maxRequests, window)
  {
    var longer := log + [c];
    assert longer[..|log|] == log;
    forall i | 0 <= i < |longer|
      ensures DecidedAt(longer, i, maxRequests, window)
    {
      if i < |log| {
        assert longer[..i] == log[..i] && DecidedAt(log, i, maxRequests, window);
      }
    }
  }

  /** How many of the times fall into the half-open interval. */
  function CountIn(s: seq<real>, from: real, until: real): nat {
    if s == [] then 0
    else CountIn(s[..|s| - 1], from, until) + if from <= s[|s| - 1] < until then 1 else 0
  }

  /** How many of the times are at or before `windowStart`. */
  function CutAt(s: seq<real>, windowStart: real): (k: nat)
    ensures k <= |s|
  {
    if s == [] then 0 else CutAt(s[1..], windowStart) + if s[0] > windowStart then 0 else 1
  }

  /** Exactly the entries from `k` on are past `windowStart`. */
  ghost predicate IsCut(s: seq<real>, windowStart: real, k: int) {
    forall i :: 0 <= i < |s| ==> (s[i] > windowStart <==> i >= k)
  }

  /** Pruning ascending times drops a prefix. */
  lemma {:induction false} PruneMeans(s: seq<real>, windowStart: real)
    requires Ascending(s)
    ensures IsCut(s, windowStart, CutAt(s, windowStart)) && Prune(s, windowStart) == s[CutAt(s, windowStart)..]
  {
    if s != [] {
      var k := CutAt(s[1..], windowStart);
      assert Ascending(s[1..]);
      PruneMeans(s[1..], windowStart);
      CutTail(s, windowStart, k);
      if s[0] > windowStart {
        assert s[1..][0..] == s[1..] && s == [s[0]] + s[1..];
      } else {
        assert s[1..][k..] == s[k + 1..];
      }
    }
  }

  /** A cut of the tail of ascending times is one of all of them, unless already the first is past the bound. */
  lemma {:induction false} CutTail(s: seq<real>, windowStart: real, k: int)
    requires Ascending(s) && s != [] && 0 <= k < |s| && IsCut(s[1..], windowStart, k)
    ensures if s[0] > windowStart then k == 0 && IsCut(s, windowStart, 0) else IsCut(s, windowStart, k + 1)
  {
    var tail := s[1..];
    assert |s| > 1 ==> tail[0] == s[1];
    forall i | 0 < i < |s|
      ensures s[i] > windowStart <==> i >= k + 1
    {
      assert tail[i - 1] == s[i];
    }
  }

  /** In any run, a key's admission is at least a window after the one `maxRequests` before it. */
  ghost predicate Spaced(s: seq<real>, maxRequests: int, window: real) {
    forall i, j :: 0 <= i < |s| && 0 <= j < |s| && j == i + maxRequests ==> s[j] - s[i] >= window
  }

  lemma {:induction false} AdmissionsAscend(log: seq<Check>, key: Key)
    requires Monotone(log)
    ensures Ascending(Admissions(log, key))
    ensures forall i :: 0 <= i < |Admissions(log, key)| ==> log != [] && Admissions(log, key)[i] <= log[|log| - 1].now
  {
    if log != [] { AdmissionsAscend(log[..|log| - 1], key); }
  }

  /** Admitting when fewer than the maximum still count keeps the spacing. */
  lemma {:induction false} SpacedAppend(s: seq<real>, now: real, maxRequests: int, window: real)
    requires Ascending(s) && Spaced(s, maxRequests, window) && maxRequests >= 1
    requires |Prune(s, now - window)| < maxRequests
    ensures Spaced(s + [now], maxRequests, window)
  {
    PruneMeans(s, now - window);
    var k := CutAt(s, now - window);
    assert |s[k..]| == |s| - k;
  }

  lemma {:induction false} PolicyOfPrefix(log: seq<Check>, maxRequests: int, window: real)
    requires log != [] && Monotone(log) && FollowsPolicy(log, maxRequests, window)
    ensures var before, last := log[..|log| - 1], log[|log| - 1];
            && Monotone(before) && FollowsPolicy(before, maxRequests, window)
            && (last.admitted <==> |Active(before, last.key, last.now, window)| < maxRequests)
  {
    var before, n := log[..|log| - 1], |log| - 1;
    assert DecidedAt(log, n, maxRequests, window);
    forall i | 0 <= i < n
      ensures DecidedAt(before, i, maxRequests, window)
    {
      assert log[..i] == before[..i] && DecidedAt(log, i, maxRequests, window);
    }
  }

  lemma {:induction false} AdmissionsSpaced(log: seq<Check>, key: Key, maxRequests: int, window: real)
    requires Monotone(log) && FollowsPolicy(log, maxRequests, window) && maxRequests >= 1
    ensures Spaced(Admissions(log, key), maxRequests, window)
  {
    if log != [] {
      var before, last := log[..|log| - 1], log[|log| - 1];
      PolicyOfPrefix(log, maxRequests, window);
      AdmissionsSpaced(before, key, maxRequests, window);
      AdmissionsAscend(before, key);
      if last.key == key && last.admitted {
        SpacedAppend(Admissions(before, key), last.now, maxRequests, window);
      }
    }
  }

  lemma {:induction false} NothingAdmitted(log: seq<Check>, key: Key, maxRequests: int, window: real)
    requires Monotone(log) && FollowsPolicy(log, maxRequests, window) && maxRequests <= 0
    ensures Admissions(log, key) == []
  {
    if log != [] {
      PolicyOfPrefix(log, maxRequests, window);
      NothingAdmitted(log[..|log| - 1], key, maxRequests, window);
    }
  }

  /** Well-spaced times put no more than the maximum into any half-open interval of one window. */
  lemma {:induction false} SpacedBoundsWindows(s: seq<real>, maxRequests: int, window: real, from: real)
    requires Ascending(s) && Spaced(s, maxRequests, window) && maxRequests >= 1
    ensures CountIn(s, from, from + window) <= maxRequests
  {
    if |s| > maxRequests {
      var front, last := s[..|s| - 1], s[|s| - 1];
      SpacedBoundsWindows(front, maxRequests, window, from);
      if from <= last < from + window {
        var m := |s| - 1 - maxRequests;
        assert last - s[m] >= window;
        EarlierAreOutside(front, m, from, from + window);
      }
    } else {
      CountAtMost(s, from, from + window);
    }
  }

  lemma {:induction false} CountAtMost(s: seq<real>, from: real, until: real)
    ensures CountIn(s, from, until) <= |s|
  {
    if s != [] { CountAtMost(s[..|s| - 1], from, until); }
  }

  lemma {:induction false} EarlierAreOutside(s: seq<real>, m: int, from: real, until: real)
    requires Ascending(s) && 0 <= m < |s| && s[m] < from
    ensures CountIn(s, from, until) <= |s| - m - 1
  {
    var front := s[..|s| - 1];
    if m < |s| - 1 {
      EarlierAreOutside(front, m, from, until);
    } else {
      NoneInside(s, from, until);
    }
  }

  lemma {:induction false} NoneInside(s: seq<real>, from: real, until: real)
    requires forall i :: 0 <= i < |s| ==> s[i] < from
    ensures CountIn(s, from, until) == 0
  {
    if s != [] { NoneInside(s[..|s| - 1], from, until); }
  }

  /** In every run, no half-open interval of one window holds more than the maximum per key. */
  lemma {:induction false} EveryWindowIsBounded(log: seq<Check>, key: Key, maxRequests: int, window: real, from: real)
    requires Monotone(log) && FollowsPolicy(log, maxRequests, window)
    ensures CountIn(Admissions(log, key), from, from + window) <= Max(maxRequests, 0)
  {
    AdmissionsAscend(log, key);
    if maxRequests >= 1 {
      AdmissionsSpaced(log, key, maxRequests, window);
      SpacedBoundsWindows(Admissions(log, key), maxRequests, window, from);
    } else {
      NothingAdmitted(log, key, maxRequests, window);
    }
  }

  // ---------------------------------------------------------------------------------------------
  // Keys do not affect each other
  // ---------------------------------------------------------------------------------------------

  function Only(log: seq<Check>, key: Key): seq<Check> {
    if log == [] then []
    else
      var last := log[|log| - 1];
      Only(log[..|log| - 1], key) + if last.key == key then [last] else []
  }

  lemma {:induction false} OnlyKeepsAdmissions(log: seq<Check>, key: Key)
    ensures Admissions(Only(log, key), key) == Admissions(log, key)
  {
    if log != [] {
      var before, last := log[..|log| - 1], log[|log| - 1];
      OnlyKeepsAdmissions(before, key);
      AdmissionsSnoc(Only(before, key), last, key);
      assert Only(before, key) + [] == Only(before, key);
    }
  }

  lemma {:induction false} OnlyKeepsActive(log: seq<Check>, key: Key, now: real, window: real)
    ensures Active(Only(log, key), key, now, window) == Active(log, key, now, window)
  {
    OnlyKeepsAdmissions(log, key);
  }

  lemma {:induction false} PolicyOfOnly(log: seq<Check>, c: Check, key: Key, maxRequests: int, window: real)
    requires FollowsPolicy(Only(log, key), maxRequests, window)
    requires c.admitted <==> |Active(log, c.key, c.now, window)| < maxRequests
    ensures FollowsPolicy(Only(log, key) + if c.key == key then [c] else [], maxRequests, window)
  {
    if c.key == key {
      OnlyKeepsActive(log, key, c.now, window);
      PolicySnoc(Only(log, key), c, maxRequests, window);
    } else {
      assert Only(log, key) + [] == Only(log, key);
    }
  }

  /** Striking out every other key's checks leaves a run of the same policy with the same decisions. */
  lemma {:induction false} KeysAreIndependent(log: seq<Check>, key: Key, maxRequests: int, window: real)
    requires Monotone(log) && FollowsPolicy(log, maxRequests, window)
    ensures FollowsPolicy(Only(log, key), maxRequests, window)
  {
    if log != [] {
      var before, last := log[..|log| - 1], log[|log| - 1];
      PolicyOfPrefix(log, maxRequests, window);
      KeysAreIndependent(before, key, maxRequests, window);
      PolicyOfOnly(before, last, key, maxRequests, window);
    }
  }

  // ---------------------------------------------------------------------------------------------
  // Refusals
  // ---------------------------------------------------------------------------------------------

  /** The whole seconds of the wait, and at least one. */
  ghost predicate IsHint(wait: real, hint: int) {
    if wait < 1.0 then hint == 1 else hint as real <= wait < hint as real + 1.0
  }

  function RetryAfter(oldest: real, window: real, now: real): (hint: int)
    ensures IsHint(oldest + window - now, hint)
  {
    Max(1, (oldest + window - now).Floor)
  }

  /** The earlier checks of the key that were admitted less than a window ago. */
  ghost function Counted(log: seq<Check>, key: Key, now: real, window: real): set<int> {
    set i: int | 0 <= i < |log| && log[i].key == key && log[i].admitted && log[i].now > now - window
  }

  lemma {:induction false} PruneSnoc(s: seq<real>, t: real, bound: real)
    ensures Prune(s + [t], bound) == Prune(s, bound) + if t > bound then [t] else []
  {
    if s == [] {
    } else {
      assert (s + [t])[1..] == s[1..] + [t];
      PruneSnoc(s[1..], t, bound);
    }
  }

  ghost predicate Counts(c: Check, key: Key, now: real, window: real) {
    c.key == key && c.admitted && c.now > now - window
  }

  lemma {:induction false} ActiveSnoc(log: seq<Check>, c: Check, key: Key, now: real, window: real)
    ensures Active(log + [c], key, now, window)
            == Active(log, key, now, window) + if Counts(c, key, now, window) then [c.now] else []
  {
    AdmissionsSnoc(log, c, key);
    if c.key == key && c.admitted {
      PruneSnoc(Admissions(log, key), c.now, now - window);
    } else {
      assert Admissions(log, key) + [] == Admissions(log, key);
      assert Active(log, key, now, window) + [] == Active(log, key, now, window);
    }
  }

  lemma {:induction false} CountedSnoc(log: seq<Check>, c: Check, key: Key, now: real, window: real)
    ensures Counted(log + [c], key, now, window)
            == Counted(log, key, now, window) + if Counts(c, key, now, window) then {|log|} else {}
    ensures |log| !in Counted(log, key, now, window)
  {
  }

  /** The times of the active history are those of the counted admissions. */
  ghost predicate AreTimesOf(active: seq<real>, log: seq<Check>, counted: set<int>) {
    && |active| == |counted|
    && (forall i :: i in counted ==> 0 <= i < |log| && log[i].now in active)
    && forall t :: t in active ==> exists i :: i in counted && 0 <= i < |log| && log[i].now == t
  }

  lemma {:induction false} TimesSnoc(active: seq<real>, log: seq<Check>, counted: set<int>, c: Check, counts: bool)
    requires AreTimesOf(active, log, counted)
    ensures AreTimesOf(active + if counts then [c.now] else [], log + [c], counted + if counts then {|log|} else {})
  {
    var longer := log + [c];
    assert longer[|log|] == c;
    forall t | t in active
      ensures exists i :: i in counted && 0 <= i < |longer| && longer[i].now == t
    {
      var i :| i in counted && 0 <= i < |log| && log[i].now == t;
      assert longer[i] == log[i];
    }
    assert |log| !in counted;
    assert !counts ==> active + [] == active && counted + {} == counted;
  }

  lemma {:induction false} ActiveIsCounted(log: seq<Check>, key: Key, now: real, window: real)
    ensures AreTimesOf(Active(log, key, now, window), log, Counted(log, key, now, window))
  {
    if log != [] {
      var before, last := log[..|log| - 1], log[|log| - 1];
      var active, counted := Active(before, key, now, window), Counted(before, key, now, window);
      ActiveIsCounted(before, key, now, window);
      ActiveSnoc(before, last, key, now, window);
      CountedSnoc(before, last, key, now, window);
      TimesSnoc(active, before, counted, last, Counts(last, key, now, window));
      assert log == before + [last];
    }
  }

  /** The hint is that of the earliest counted admission. */
  ghost predicate HintsAtEarliest(log: seq<Check>, key: Key, now: real, window: real, hint: int) {
    exists i :: IsEarliestCounted(log, key, now, window, i) && IsHint(log[i].now + window - now, hint)
  }

  ghost predicate IsEarliestCounted(log: seq<Check>, key: Key, now: real, window: real, i: int) {
    && i in Counted(log, key, now, window)
    && forall j :: j in Counted(log, key, now, window) ==> log[i].now <= log[j].now
  }

  lemma {:induction false} FirstActiveIsEarliest(log: seq<Check>, key: Key, now: real, window: real)
    requires Monotone(log) && Active(log, key, now, window) != []
    ensures var oldest := Active(log, key, now, window)[0];
            HintsAtEarliest(log, key, now, window, RetryAfter(oldest, window, now))
  {
    ActiveIsCounted(log, key, now, window);
    ActiveAscends(log, key, now, window);
    var active := Active(log, key, now, window);
    var i := FirstIsEarliest(active, log, Counted(log, key, now, window));
    assert IsEarliestCounted(log, key, now, window, i);
  }

  lemma {:induction false} ActiveAscends(log: seq<Check>, key: Key, now: real, window: real)
    requires Monotone(log)
    ensures Ascending(Active(log, key, now, window))
  {
    AdmissionsAscend(log, key);
    PruneMeans(Admissions(log, key), now - window);
  }

  lemma {:induction false} FirstIsEarliest(active: seq<real>, log: seq<Check>, counted: set<int>) returns (i: int)
    requires Ascending(active) && AreTimesOf(active, log, counted) && active != []
    ensures i in counted && 0 <= i < |log| && log[i].now == active[0]
    ensures forall j :: j in counted ==> 0 <= j < |log| && log[i].now <= log[j].now
  {
    assert active[0] in active;
    i :| i in counted && 0 <= i < |log| && log[i].now == active[0];
  }

  /**
   A check is admitted exactly if fewer than the maximum count.  A refusal names the wait until the earliest of them
   expires; without any, the look-up of the earliest fails.
   */
  ghost predicate IsDecision(log: seq<Check>, key: Key, now: real, maxRequests: int, window: real, d: Decision) {
    var counted := Counted(log, key, now, window);
    match d
    case Admitted => |counted| < maxRequests
    case Refused(hint) => |counted| >= maxRequests && HintsAtEarliest(log, key, now, window, hint)
    case EmptyHistoryFault => |counted| >= maxRequests && counted == {}
  }

  function Decide(active: seq<real>, now: real, maxRequests: int, window: real): Decision {
    if |active| < maxRequests then Admitted
    else if active == [] then EmptyHistoryFault
    else Refused(RetryAfter(active[0], window, now))
  }

  lemma {:induction false} DecisionMeans(log: seq<Check>, key: Key, now: real, maxRequests: int, window: real)
    requires Monotone(log)
    ensures IsDecision(log, key, now, maxRequests, window,
                       Decide(Active(log, key, now, window), now, maxRequests, window))
  {
    ActiveIsCounted(log, key, now, window);
    if Active(log, key, now, window) != [] {
      FirstActiveIsEarliest(log, key, now, window);
    }
  }

  /** Never more than the maximum still count. */
  lemma {:induction false} ActiveBounded(s: seq<real>, now: real, maxRequests: int, window: real)
    requires Ascending(s) && Spaced(s, maxRequests, window) && maxRequests >= 1
    requires forall i :: 0 <= i < |s| ==> s[i] <= now
    ensures |Prune(s, now - window)| <= maxRequests
  {
    PruneMeans(s, now - window);
    var k := CutAt(s, now - window);
    SpacedCut(s, now, k, maxRequests, window);
  }

  lemma {:induction false} SpacedCut(s: seq<real>, now: real, k: nat, maxRequests: int, window: real)
    requires Spaced(s, maxRequests, window) && maxRequests >= 1 && k <= |s| && IsCut(s, now - window, k)
    requires forall i :: 0 <= i < |s| ==> s[i] <= now
    ensures |s| - k <= maxRequests
  {
    if k + maxRequests < |s| {
      SpacedPair(s, k, k + maxRequests, maxRequests, window);
    }
  }

  lemma {:induction false} SpacedPair(s: seq<real>, i: nat, j: nat, maxRequests: int, window: real)
    requires Spaced(s, maxRequests, window) && i < |s| && j < |s| && j == i + maxRequests
    ensures s[j] - s[i] >= window
  {
  }

  /** When the maximum count, one fewer will as soon as the oldest of them has expired. */
  lemma {:induction false} ExpiryOfOldest(s: seq<real>, now: real, t: real, maxRequests: int, window: real)
    requires Ascending(s) && now <= t && |Prune(s, now - window)| == maxRequests >= 1
    ensures |Prune(s, t - window)| < maxRequests <==> t >= Prune(s, now - window)[0] + window
  {
    PruneMeans(s, now - window);
    PruneMeans(s, t - window);
    var k := CutAt(s, now - window);
    var m := CutAt(s, t - window);
    CutOrder(s, t - window, k, m);
  }

  lemma {:induction false} CutOrder(s: seq<real>, windowStart: real, k: int, m: int)
    requires 0 <= k < |s| && 0 <= m <= |s| && IsCut(s, windowStart, m)
    ensures m > k <==> s[k] <= windowStart
    ensures s[k..][0] == s[k] && |s[k..]| == |s| - k && |s[m..]| == |s| - m
  {
  }

  /** A refused key is next admitted exactly when the oldest counted admission is a full window old. */
  lemma {:induction false} ReadmittedWhenOldestExpires(log: seq<Check>, later: seq<Check>, key: Key, now: real,
                                                       t: real, maxRequests: int, window: real)
    requires Monotone(log) && FollowsPolicy(log, maxRequests, window) && maxRequests >= 1
    requires log != [] ==> log[|log| - 1].now <= now
    requires |Active(log, key, now, window)| >= maxRequests && now <= t
    requires Admissions(later, key) == Admissions(log, key)
    ensures |Active(later, key, t, window)| < maxRequests <==> t >= Active(log, key, now, window)[0] + window
  {
    AdmissionsAscend(log, key);
    AdmissionsSpaced(log, key, maxRequests, window);
    ActiveBounded(Admissions(log, key), now, maxRequests, window);
    ExpiryOfOldest(Admissions(log, key), now, t, maxRequests, window);
  }

  /**
   The hint is too short whenever the remaining wait is longer than a second and not a whole number
   of seconds: it is truncated.  Otherwise waiting as told is enough.
   */
  lemma {:induction false} HintIsExact(oldest: real, window: real, now: real)
    ensures var wait := oldest + window - now;
            (now + RetryAfter(oldest, window, now) as real >= oldest + window)
            <==> (wait <= 1.0 || wait == wait.Floor as real)
  {
  }

  /** A refused caller who waits as told, and is not overtaken, is admitted in exactly these cases. */
  lemma {:induction false} WaitingAsToldExactly(log: seq<Check>, later: seq<Check>, key: Key, now: real,
                                                maxRequests: int,
                                                window: real)
    requires Monotone(log) && FollowsPolicy(log, maxRequests, window) && maxRequests >= 1
    requires log != [] ==> log[|log| - 1].now <= now
    requires |Active(log, key, now, window)| >= maxRequests
    requires Admissions(later, key) == Admissions(log, key)
    ensures var oldest := Active(log, key, now, window)[0];
            var wait := oldest + window - now;
            |Active(later, key, now + RetryAfter(oldest, window, now) as real, window)| < maxRequests
            <==> (wait <= 1.0 || wait == wait.Floor as real)
  {
    var oldest := Active(log, key, now, window)[0];
    HintIsExact(oldest, window, now);
    ReadmittedWhenOldestExpires(log, later, key, now, now + RetryAfter(oldest, window, now) as real, maxRequests,
                                window);
  }

  /** One admission at 2.0 in a window of 60 seconds: refused at 60.5, told to wait a second, and refused again. */
  lemma {:induction false} HintCanBeTooShort(key: Key)
    ensures var log := [Check(key, 2.0, true), Check(key, 60.5, false)];
            && FollowsPolicy(log, 1, 60.0) && RetryAfter(2.0, 60.0, 60.5) == 1
            && |Active(log, key, 60.5 + RetryAfter(2.0, 60.0, 60.5) as real, 60.0)| == 1
  {
    var log := [Check(key, 2.0, true), Check(key, 60.5, false)];
    assert log[..0] == [] && log[..1] == [log[0]] && log[..2] == log;
    assert [log[0]][..0] == [];
    assert Admissions([log[0]], key) == [] + [2.0];
    assert Admissions(log, key) == [2.0] + [];
    assert (2.0 + 60.0 - 60.5).Floor == 1;
    assert Admissions(log, key) == [2.0];
    assert [2.0][1..] == [] && Prune([2.0], 1.5) == [2.0] + Prune([], 1.5);
  }

  // ---------------------------------------------------------------------------------------------
  // The limiter
  // ---------------------------------------------------------------------------------------------

  /** `stored` is what is left of the admissions `s` after dropping some that are no later than `bound`. */
  ghost predicate Retains(stored: seq<real>, s: seq<real>, bound: real) {
    exists k :: 0 <= k <= |s| && DropsUpTo(s, k, bound) && stored == s[k..]
  }

  ghost predicate DropsUpTo(s: seq<real>, k: int, bound: real) {
    forall i :: 0 <= i < k && i < |s| ==> s[i] <= bound
  }

  lemma {:induction false} PruneDropsPrefix(s: seq<real>, k: int, bound: real)
    requires 0 <= k <= |s| && DropsUpTo(s, k, bound)
    ensures Prune(s[k..], bound) == Prune(s, bound)
  {
    if k > 0 {
      assert s[1..][k - 1..] == s[k..];
      PruneDropsPrefix(s[1..], k - 1, bound);
    } else {
      assert s[0..] == s;
    }
  }

  lemma {:induction false} RetainsLater(stored: seq<real>, s: seq<real>, bound: real, later: real)
    requires Retains(stored, s, bound) && bound <= later && Ascending(s)
    ensures Prune(stored, later) == Prune(s, later) && Retains(Prune(stored, later), s, later)
  {
    var k :| 0 <= k <= |s| && DropsUpTo(s, k, bound) && stored == s[k..];
    PruneDropsPrefix(s, k, later);
    PruneMeans(s, later);
    var m := CutAt(s, later);
    assert DropsUpTo(s, m, later);
  }

  lemma {:induction false} RetainsAppend(stored: seq<real>, s: seq<real>, bound: real, now: real)
    requires Retains(stored, s, bound)
    ensures Retains(stored + [now], s + [now], bound)
  {
    var k :| 0 <= k <= |s| && DropsUpTo(s, k, bound) && stored == s[k..];
    assert DropsUpTo(s + [now], k, bound) && stored + [now] == (s + [now])[k..];
  }

  /** What the stored history is, for one key, between two checks. */
  ghost predicate Faithful(stored: seq<real>, log: seq<Check>, key: Key, window: real) {
    Retains(stored, Admissions(log, key), if log == [] then 0.0 else log[|log| - 1].now - window)
  }

  lemma {:induction false} FaithfulEmpty(key: Key, window: real)
    ensures Faithful([], [], key, window)
  {
    assert DropsUpTo([], 0, 0.0);
  }

  /** Pruning the stored history gives exactly the admissions that still count. */
  lemma {:induction false} FaithfulPrune(stored: seq<real>, log: seq<Check>, key: Key, now: real, window: real)
    requires Monotone(log) && Faithful(stored, log, key, window) && (log != [] ==> log[|log| - 1].now <= now)
    ensures Prune(stored, now - window) == Active(log, key, now, window)
    ensures Retains(Prune(stored, now - window), Admissions(log, key), now - window)
  {
    AdmissionsAscend(log, key);
    if log == [] {
      assert stored == [] && DropsUpTo([], 0, now - window);
    } else {
      RetainsLater(stored, Admissions(log, key), log[|log| - 1].now - window, now - window);
    }
  }

  lemma {:induction false} FaithfulRefusal(kept: seq<real>, log: seq<Check>, key: Key, now: real, window: real)
    requires Retains(kept, Admissions(log, key), now - window)
    ensures Faithful(kept, log + [Check(key, now, false)], key, window)
  {
    AdmissionsSnoc(log, Check(key, now, false), key);
    assert Admissions(log, key) + [] == Admissions(log, key);
  }

  lemma {:induction false} FaithfulAdmission(kept: seq<real>, log: seq<Check>, key: Key, now: real, window: real)
    requires Retains(kept, Admissions(log, key), now - window)
    ensures Faithful(kept + [now], log + [Check(key, now, true)], key, window)
  {
    AdmissionsSnoc(log, Check(key, now, true), key);
    RetainsAppend(kept, Admissions(log, key), now - window, now);
  }

  lemma {:induction false} FaithfulOther(stored: seq<real>, log: seq<Check>, key: Key, c: Check, window: real)
    requires c.key != key && Faithful(stored, log, key, window) && (log != [] ==> log[|log| - 1].now <= c.now)
    ensures Faithful(stored, log + [c], key, window)
  {
    var s := Admissions(log, key);
    AdmissionsSnoc(log, c, key);
    assert s + [] == s;
    var k :| 0 <= k <= |s| && DropsUpTo(s, k, if log == [] then 0.0 else log[|log| - 1].now - window)
        && stored == s[k..];
    assert DropsUpTo(s, k, c.now - window);
  }

  function Stored(history: map<Key, seq<real>>, key: Key): seq<real> {
    if key in history then history[key] else []
  }

  ghost predicate FaithfulAt(history: map<Key, seq<real>>, log: seq<Check>, window: real, key: Key) {
    Faithful(Stored(history, key), log, key, window)
  }

  /** What the limiter keeps between two checks. */
  ghost predicate Consistent(history: map<Key, seq<real>>, log: seq<Check>, maxRequests: int, window: real) {
    && Monotone(log) && FollowsPolicy(log, maxRequests, window)
    && forall key :: FaithfulAt(history, log, window, key)
  }

  lemma {:induction false} FaithfulElsewhere(history: map<Key, seq<real>>, log: seq<Check>, c: Check, window: real,
                                             stored: seq<real>, key: Key)
    requires FaithfulAt(history, log, window, key) && key != c.key && (log != [] ==> log[|log| - 1].now <= c.now)
    ensures FaithfulAt(history[c.key := stored], log + [c], window, key)
  {
    FaithfulOther(Stored(history, key), log, key, c, window);
  }

  lemma {:induction false} MonotoneSnoc(log: seq<Check>, c: Check)
    requires Monotone(log) && (log != [] ==> log[|log| - 1].now <= c.now)
    ensures Monotone(log + [c])
  {
  }

  lemma {:induction false} ConsistentUpdate(history: map<Key, seq<real>>, log: seq<Check>, c: Check, maxRequests: int,
                                            window: real, stored: seq<real>)
    requires Consistent(history, log, maxRequests, window) && (log != [] ==> log[|log| - 1].now <= c.now)
    requires c.admitted <==> |Active(log, c.key, c.now, window)| < maxRequests
    requires Faithful(stored, log + [c], c.key, window)
    ensures Consistent(history[c.key := stored], log + [c], maxRequests, window)
  {
    PolicySnoc(log, c, maxRequests, window);
    MonotoneSnoc(log, c);
    var history', log' := history[c.key := stored], log + [c];
    forall key
      ensures FaithfulAt(history', log', window, key)
    {
      if key != c.key {
        assert FaithfulAt(history, log, window, key);
        FaithfulElsewhere(history, log, c, window, stored, key);
      }
    }
  }

  /** The check is on the log, is decided as stated, and leaves the limiter consistent. */
  ghost predicate IsChecked(log: seq<Check>, key: Key, now: real, maxRequests: int, window: real, d: Decision,
                            history': map<Key, seq<real>>, log': seq<Check>)
  {
    && log' == log + [Check(key, now, d.Admitted?)]
    && Consistent(history', log', maxRequests, window)
    && IsDecision(log, key, now, maxRequests, window, d)
  }

  /** Both outcomes of a check keep the limiter consistent. */
  lemma {:induction false} CheckStep(history: map<Key, seq<real>>, log: seq<Check>, key: Key, now: real,
                                     maxRequests: int, window: real, d: Decision, history': map<Key, seq<real>>)
    requires Consistent(history, log, maxRequests, window) && (log != [] ==> log[|log| - 1].now <= now)
    requires var active := Prune(Stored(history, key), now - window);
             && d == Decide(active, now, maxRequests, window)
             && history' == history[key := if d.Admitted? then active + [now] else active]
    ensures IsChecked(log, key, now, maxRequests, window, d, history', log + [Check(key, now, d.Admitted?)])
  {
    var active := Prune(Stored(history, key), now - window);
    assert FaithfulAt(history, log, window, key);
    FaithfulPrune(Stored(history, key), log, key, now, window);
    DecisionMeans(log, key, now, maxRequests, window);
    if |active| >= maxRequests {
      FaithfulRefusal(active, log, key, now, window);
      ConsistentUpdate(history, log, Check(key, now, false), maxRequests, window, active);
    } else {
      FaithfulAdmission(active, log, key, now, window);
      ConsistentUpdate(history, log, Check(key, now, true), maxRequests, window, active + [now]);
    }
  }

  class SlidingWindowRateLimiter {
    const maxRequests: int
    const windowSeconds: real
    var history: map<Key, seq<real>>
    /** Every check so far. */
    ghost var log: seq<Check>

    ghost predicate Valid()
      reads this
    {
      Consistent(history, log, maxRequests, windowSeconds)
    }

    constructor (maxRequests: int, windowSeconds: real)
      ensures Valid() && log == [] && this.maxRequests == maxRequests && this.windowSeconds == windowSeconds
    {
      this.maxRequests, this.windowSeconds, history, log := maxRequests, windowSeconds, map[], [];
      new;
      forall key
        ensures FaithfulAt(history, log, windowSeconds, key)
      {
        FaithfulEmpty(key, windowSeconds);
      }
    }

    method CheckKey(key: Key, now: real) returns (d: Decision)
      requires Valid() && (log != [] ==> log[|log| - 1].now <= now)
      modifies this
      ensures Valid() && IsChecked(old(log), key, now, maxRequests, windowSeconds, d, history, log)
    {
      ghost var before := history;
      var windowStart := now - windowSeconds;
      history := history[key := Prune(Stored(history, key), windowStart)];
      var activeCount := |history[key]|;
      if activeCount >= maxRequests {
        if history[key] == [] {
          d := EmptyHistoryFault;
        } else {
          var oldest := history[key][0];
          d := Refused(RetryAfter(oldest, windowSeconds, now));
        }
      } else {
        history := history[key := history[key] + [now]];
        d := Admitted;
      }
      CheckStep(before, log, key, now, maxRequests, windowSeconds, d, history);
      log := log + [Check(key, now, d.Admitted?)];
    }
  }
}
