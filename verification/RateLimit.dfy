/** The sliding-window rate limit kept in a sorted set per key, with key expiry, and the circuit
    breaker around it. Times are milliseconds. */
module RateLimit {
  import opened Wrappers
  import opened TimeCounts

  const KEY_EXPIRATION: int := 20 * 60 * 1000
  const CIRCUIT_OPEN: int := 15 * 1000
  const CIRCUIT_FAILURES: int := 3

  /** The scores of the members in ascending order, and when the key expires. */
  datatype SortedSet = SortedSet(scores: seq<int>, expiresAt: int)

  ghost predicate Ordered(times: seq<int>)
  {
    forall i, j :: 0 <= i < j < |times| ==> times[i] <= times[j]
  }

  /** ZREMRANGEBYSCORE key -inf max: drop the scores up to `max`. */
  function Trimmed(scores: seq<int>, max: int): seq<int>
  {
    if scores == [] || scores[0] > max then scores else Trimmed(scores[1..], max)
  }

  /** ZADD: the new score goes where the order puts it, which is last unless the clocks of two callers
      disagree. */
  function Joined(scores: seq<int>, score: int): seq<int>
  {
    var n := |scores| - 1;
    if scores == [] || scores[n] <= score then scores + [score] else Joined(scores[..n], score) + [scores[n]]
  }

  /** Both commands keep the order, so dropping a prefix drops exactly the scores up to `max`. */
  lemma {:induction false} JoinedIsOrdered(scores: seq<int>, score: int)
    requires Ordered(scores)
    ensures Ordered(Joined(scores, score))
    decreases |scores|
  {
    var n := |scores| - 1;
    if scores == [] || scores[n] <= score {
      OrderedAppend(scores, score);
    } else {
      JoinedIsOrdered(scores[..n], score);
      JoinedUpTo(scores[..n], score, scores[n]);
      OrderedAppend(Joined(scores[..n], score), scores[n]);
    }
  }

  lemma {:induction false} JoinedUpTo(scores: seq<int>, score: int, max: int)
    requires AllUpTo(scores, max) && score <= max
    ensures AllUpTo(Joined(scores, score), max)
    decreases |scores|
  {
    var n := |scores| - 1;
    if scores != [] && scores[n] > score {
      JoinedUpTo(scores[..n], score, max);
    }
  }

  lemma OrderedAppend(scores: seq<int>, score: int)
    requires Ordered(scores) && AllUpTo(scores, score)
    ensures Ordered(scores + [score])
  {
  }

  lemma {:induction false} JoinedAdds(scores: seq<int>, score: int)
    ensures multiset(Joined(scores, score)) == multiset(scores) + multiset{score}
    decreases |scores|
  {
    var n := |scores| - 1;
    if scores != [] && scores[n] > score {
      JoinedAdds(scores[..n], score);
      assert scores == scores[..n] + [scores[n]];
    }
  }

  lemma {:induction false} TrimmedSuffix(scores: seq<int>, max: int) returns (k: nat)
    requires Ordered(scores)
    ensures k <= |scores| && Trimmed(scores, max) == scores[k..]
    ensures AllUpTo(scores[..k], max) && forall i :: k <= i < |scores| ==> scores[i] > max
    decreases |scores|
  {
    if scores == [] || scores[0] > max {
      k := 0;
    } else {
      var rest := TrimmedSuffix(scores[1..], max);
      k := rest + 1;
      assert forall i :: 0 <= i < k ==> i == 0 || scores[i] == scores[1..][..rest][i - 1];
      assert forall i :: k <= i < |scores| ==> scores[i] == scores[1..][i - 1];
    }
  }

  // ----- one key -----

  /** A rule: so many requests in so long a window. */
  datatype Rule = Rule(limit: int, window: int)

  predicate ValidRule(r: Rule)
  {
    r.limit > 0 && r.window > 0
  }

  function Ttl(r: Rule): int
  {
    if KEY_EXPIRATION < r.window then r.window else KEY_EXPIRATION
  }

  type Key = Option<SortedSet>

  function Scores(k: Key): seq<int>
  {
    if k.Some? then k.value.scores else []
  }

  /** What is left in the set once the window has moved on to `now`. */
  function Live(r: Rule, k: Key, now: int): seq<int>
  {
    Trimmed(Scores(k), now - r.window)
  }

  predicate Allows(r: Rule, k: Key, now: int)
  {
    |Live(r, k, now)| < r.limit
  }

  /** The key after the script: a full set with limit members keeps them, otherwise `now` joins.
      Either way the expiry starts again. */
  function Script(r: Rule, k: Key, now: int): Key
  {
    Some(SortedSet(if Allows(r, k, now) then Joined(Live(r, k, now), now) else Live(r, k, now), now + Ttl(r)))
  }

  // ----- runs -----

  /** A request, or the moment at which the server drops the key if it has expired. */
  datatype Event = Request(at: int) | Expiry(at: int)

  datatype Run = Run(key: Key, admitted: seq<int>)

  function After(r: Rule, events: seq<Event>): Run
  {
    if events == [] then Run(None, []) else
      var before, e := After(r, events[..|events| - 1]), events[|events| - 1];
      match e
      case Expiry(at) =>
        if before.key.Some? && at >= before.key.value.expiresAt then before.(key := None) else before
      case Request(at) =>
        Run(Script(r, before.key, at), if Allows(r, before.key, at) then before.admitted + [at] else before.admitted)
  }

  /** The rule itself: a request passes exactly when the window ending with it is not full. */
  function Admitted(r: Rule, events: seq<Event>): seq<int>
  {
    if events == [] then [] else
      var before, e := Admitted(r, events[..|events| - 1]), events[|events| - 1];
      if e.Request? && InWindow(r, before, e.at) < r.limit then before + [e.at] else before
  }

  /** How many of the times lie in the window that ends at `t`: after t - window, up to t. */
  function InWindow(r: Rule, times: seq<int>, t: int): nat
  {
    CountIn(times, t - r.window + 1, t + 1)
  }

  ghost predicate InTime(events: seq<Event>)
  {
    forall i, j :: 0 <= i < j < |events| ==> events[i].at <= events[j].at
  }

  /** The set holds the latest admitted times; what it has lost is outside every window from now on,
      and it expires only once all it holds is outside as well. */
  ghost predicate Tracks(r: Rule, run: Run, clock: int)
  {
    && |Scores(run.key)| <= |run.admitted|
    && Splits(r, run.admitted[..|run.admitted| - |Scores(run.key)|], Scores(run.key), run.admitted, clock)
    && (run.key.Some? ==> AllUpTo(Scores(run.key), run.key.value.expiresAt - r.window))
  }

  ghost predicate Splits(r: Rule, lost: seq<int>, scores: seq<int>, times: seq<int>, clock: int)
  {
    times == lost + scores && Ordered(times) && AllUpTo(times, clock) && AllUpTo(lost, clock - r.window)
  }

  lemma SplitIsTracked(r: Rule, lost: seq<int>, run: Run, clock: int)
    requires Splits(r, lost, Scores(run.key), run.admitted, clock)
    requires run.key.Some? ==> AllUpTo(Scores(run.key), run.key.value.expiresAt - r.window)
    ensures Tracks(r, run, clock)
  {
    assert run.admitted[..|run.admitted| - |Scores(run.key)|] == lost;
  }

  ghost predicate WithinLimit(r: Rule, times: seq<int>)
  {
    forall t :: InWindow(r, times, t) <= r.limit
  }

  lemma OrderedParts(a: seq<int>, b: seq<int>, times: seq<int>, clock: int)
    requires times == a + b && Ordered(times) && AllUpTo(times, clock)
    ensures Ordered(b) && AllUpTo(b, clock)
  {
    assert forall i :: 0 <= i < |b| ==> b[i] == times[|a| + i];
  }

  lemma JoinNow(r: Rule, lost: seq<int>, live: seq<int>, times: seq<int>, now: int)
    requires Splits(r, lost, live, times, now)
    ensures Splits(r, lost, Joined(live, now), times + [now], now)
  {
    assert forall i :: 0 <= i < |live| ==> live[i] == times[|lost| + i];
    assert Joined(live, now) == live + [now];
    assert times + [now] == lost + (live + [now]);
  }

  /** Trimming the set moves times to the lost ones; what stays is the window that ends now. */
  lemma TrimStep(r: Rule, lost: seq<int>, scores: seq<int>, times: seq<int>, clock: int, now: int) returns (gone: seq<int>)
    requires ValidRule(r) && Splits(r, lost, scores, times, clock) && clock <= now
    ensures Splits(r, gone, Trimmed(scores, now - r.window), times, now)
    ensures |Trimmed(scores, now - r.window)| == InWindow(r, times, now)
  {
    OrderedParts(lost, scores, times, clock);
    var k := TrimmedSuffix(scores, now - r.window);
    gone := lost + scores[..k];
    assert times == gone + scores[k..] by {
      assert scores == scores[..k] + scores[k..];
    }
    AllUpToConcat(lost, scores[..k], now - r.window);
    OrderedParts(gone, scores[k..], times, now);
    WindowIsSuffix(r, gone, scores[k..], times, now);
  }

  lemma AllUpToConcat(a: seq<int>, b: seq<int>, t: int)
    requires AllUpTo(a, t) && AllUpTo(b, t)
    ensures AllUpTo(a + b, t)
  {
  }

  lemma WindowIsSuffix(r: Rule, gone: seq<int>, live: seq<int>, times: seq<int>, now: int)
    requires times == gone + live && AllUpTo(gone, now - r.window)
    requires AllUpTo(live, now) && forall i :: 0 <= i < |live| ==> now - r.window < live[i]
    ensures InWindow(r, times, now) == |live|
  {
    CountSplit(gone, live, now - r.window + 1, now + 1);
    NothingLater(gone, now - r.window + 1, now + 1);
    CountAll(live, now - r.window + 1, now + 1);
  }

  /** Admitting one more request into a window that is not full keeps every window within the limit. */
  lemma AdmitOne(r: Rule, times: seq<int>, now: int)
    requires ValidRule(r) && WithinLimit(r, times) && AllUpTo(times, now) && InWindow(r, times, now) < r.limit
    ensures WithinLimit(r, times + [now])
  {
    forall t
      ensures InWindow(r, times + [now], t) <= r.limit
    {
      assert InWindow(r, times, t) <= r.limit;
      if now <= t {
        CountUpTo(times, t - r.window + 1, t + 1, now);
        CountShrinks(times, t - r.window + 1, now - r.window + 1, now + 1);
      }
    }
  }

  lemma RequestTracks(r: Rule, run: Run, clock: int, now: int)
    requires ValidRule(r) && Tracks(r, run, clock) && clock <= now
    ensures Allows(r, run.key, now) <==> InWindow(r, run.admitted, now) < r.limit
    ensures Tracks(r, Run(Script(r, run.key, now), if Allows(r, run.key, now) then run.admitted + [now] else run.admitted), now)
  {
    var gone := LiveSplit(r, run, clock, now);
    if Allows(r, run.key, now) {
      JoinNow(r, gone, Live(r, run.key, now), run.admitted, now);
    }
    ScriptTracks(r, gone, run, now);
  }

  lemma {:induction false} LiveSplit(r: Rule, run: Run, clock: int, now: int) returns (gone: seq<int>)
    requires ValidRule(r) && Tracks(r, run, clock) && clock <= now
    ensures Splits(r, gone, Live(r, run.key, now), run.admitted, now)
    ensures |Live(r, run.key, now)| == InWindow(r, run.admitted, now)
  {
    var times, lost := run.admitted, run.admitted[..|run.admitted| - |Scores(run.key)|];
    assert Splits(r, lost, Scores(run.key), times, clock);
    gone := TrimStep(r, lost, Scores(run.key), times, clock, now);
  }

  lemma RequestStep(r: Rule, run: Run, clock: int, now: int)
    requires ValidRule(r) && Tracks(r, run, clock) && WithinLimit(r, run.admitted) && clock <= now
    ensures Allows(r, run.key, now) <==> InWindow(r, run.admitted, now) < r.limit
    ensures var next := Run(Script(r, run.key, now), if Allows(r, run.key, now) then run.admitted + [now] else run.admitted);
            Tracks(r, next, now) && WithinLimit(r, next.admitted)
  {
    RequestTracks(r, run, clock, now);
    if Allows(r, run.key, now) {
      assert AllUpTo(run.admitted, now);
      AdmitOne(r, run.admitted, now);
    }
  }

  lemma ScriptTracks(r: Rule, gone: seq<int>, run: Run, now: int)
    requires var allowed := Allows(r, run.key, now);
             var live, times := Live(r, run.key, now), run.admitted;
             Splits(r, gone, if allowed then Joined(live, now) else live, if allowed then times + [now] else times, now)
    ensures Tracks(r, Run(Script(r, run.key, now), if Allows(r, run.key, now) then run.admitted + [now] else run.admitted), now)
  {
    var next := Run(Script(r, run.key, now), if Allows(r, run.key, now) then run.admitted + [now] else run.admitted);
    OrderedParts(gone, Scores(next.key), next.admitted, now);
    SplitIsTracked(r, gone, next, now);
  }

  lemma ExpiryStep(r: Rule, run: Run, clock: int, now: int)
    requires ValidRule(r) && Tracks(r, run, clock) && clock <= now
    requires run.key.Some? && now >= run.key.value.expiresAt
    ensures Tracks(r, run.(key := None), now)
  {
    var scores, times := run.key.value.scores, run.admitted;
    assert AllUpTo(times, now - r.window) by {
      var lost := times[..|times| - |scores|];
      assert times == lost + scores && AllUpTo(lost, clock - r.window);
    }
    assert times == times + [];
    SplitIsTracked(r, times, run.(key := None), now);
  }

  ghost function ClockAfter(events: seq<Event>): int
  {
    if events == [] then 0 else events[|events| - 1].at
  }

  /** For every run of requests and expiries in time order: the script admits exactly what the rule
      admits, so expiry never alters a decision, and no window ever exceeds the limit. */
  lemma {:induction false} ScriptFollowsRule(r: Rule, events: seq<Event>)
    requires ValidRule(r) && InTime(events)
    ensures After(r, events).admitted == Admitted(r, events)
    ensures WithinLimit(r, Admitted(r, events))
    ensures events != [] ==> Tracks(r, After(r, events), ClockAfter(events))
    decreases |events|
  {
    if events != [] {
      var front, e := events[..|events| - 1], events[|events| - 1];
      ScriptFollowsRule(r, front);
      var before := After(r, front);
      var clock := if front == [] then e.at else ClockAfter(front);
      if e.Request? {
        RequestStep(r, before, clock, e.at);
      } else if before.key.Some? && e.at >= before.key.value.expiresAt {
        ExpiryStep(r, before, clock, e.at);
      }
    }
  }

  /** A request is refused only when the window that ends with it is full, and never otherwise. */
  lemma RefusedOnlyWhenFull(r: Rule, events: seq<Event>, now: int)
    requires ValidRule(r) && InTime(events + [Request(now)])
    ensures Allows(r, After(r, events).key, now) <==> InWindow(r, Admitted(r, events), now) < r.limit
    ensures !Allows(r, After(r, events).key, now) ==> InWindow(r, Admitted(r, events), now) == r.limit
  {
    var all := events + [Request(now)];
    assert forall i :: 0 <= i < |events| ==> events[i] == all[i];
    assert all[|events|] == Request(now);
    ScriptFollowsRule(r, events);
    var before := After(r, events);
    var clock := if events == [] then now else ClockAfter(events);
    RequestStep(r, before, clock, now);
    assert InWindow(r, Admitted(r, events), now) <= r.limit;
  }

  // ----- the server's keys -----

  class Server {
    var keys: map<string, SortedSet>

    function KeyFor(name: string): Key
      reads this
    {
      if name in keys then Some(keys[name]) else None
    }

    /** Every set is in order. */
    ghost predicate Valid()
      reads this
    {
      forall name :: name in keys ==> Ordered(keys[name].scores)
    }

    constructor ()
      ensures Valid() && keys == map[]
    {
      keys := map[];
    }

    /** The script, one request of one key, whatever clock it comes from; other keys keep their sets. */
    method RunScript(name: string, rule: Rule, now: int) returns (allowed: bool)
      requires Valid()
      modifies this
      ensures Valid()
      ensures allowed == Allows(rule, old(KeyFor(name)), now)
      ensures KeyFor(name) == Script(rule, old(KeyFor(name)), now)
      ensures name in keys && keys[name].expiresAt == now + if rule.window > 1_200_000 then rule.window else 1_200_000
      ensures forall other :: other != name ==> KeyFor(other) == old(KeyFor(other))
    {
      var next: SortedSet;
      allowed, next := Apply(rule, KeyFor(name), now);
      keys := keys[name := next];
    }
  }

  /** The commands of the script on one set. */
  method Apply(rule: Rule, key: Key, now: int) returns (allowed: bool, next: SortedSet)
    requires Ordered(Scores(key))
    ensures allowed == Allows(rule, key, now) && Some(next) == Script(rule, key, now) && Ordered(next.scores)
  {
    var ttl := KEY_EXPIRATION;
    if ttl < rule.window {
      ttl := rule.window;
    }
    var scores := Drop(Scores(key), now - rule.window);
    allowed := |scores| < rule.limit;
    if allowed {
      JoinedIsOrdered(scores, now);
      scores := Joined(scores, now);
    }
    next := SortedSet(scores, now + ttl);
  }

  /** Dropping from the front, as long as the first score is not above `max`. */
  method Drop(scores: seq<int>, max: int) returns (left: seq<int>)
    requires Ordered(scores)
    ensures left == Trimmed(scores, max) && Ordered(left)
    ensures forall x :: x in left <==> x in scores && x > max
  {
    left := scores;
    while left != [] && left[0] <= max
      invariant Ordered(left) && Trimmed(left, max) == Trimmed(scores, max)
      invariant forall x :: x in scores && x > max ==> x in left
      invariant forall x :: x in left ==> x in scores
      decreases |left|
    {
      assert left == [left[0]] + left[1..];
      left := left[1..];
    }
    assert forall i :: 0 <= i < |left| ==> left[0] <= left[i];
  }

  // ----- the circuit breaker -----

  class Circuit {
    var failures: int
    var openUntil: Option<int>
    ghost var openedAt: int

    /** Fewer than three failures are pending, and an opening lasts fifteen seconds. */
    ghost predicate Valid()
      reads this
    {
      0 <= failures < CIRCUIT_FAILURES && (openUntil.Some? ==> openUntil.value == openedAt + CIRCUIT_OPEN)
    }

    predicate OpenAt(now: int)
      reads this
    {
      openUntil.Some? && now < openUntil.value
    }

    constructor ()
      ensures Valid() && failures == 0 && openUntil == None
    {
      failures, openUntil, openedAt := 0, None, 0;
    }

    method IsOpen(now: int) returns (open: bool)
      requires Valid()
      modifies this
      ensures Valid() && open == old(OpenAt(now)) && OpenAt(now) == open
      ensures openedAt == old(openedAt)
      ensures open || old(openUntil).None? ==> failures == old(failures) && openUntil == old(openUntil)
      ensures !open && old(openUntil).Some? ==> failures == 0 && openUntil.None?
    {
      if openUntil.None? {
        return false;
      }
      if now < openUntil.value {
        return true;
      }
      openUntil := None;
      failures := 0;
      return false;
    }

    /** The third failure opens the circuit for fifteen seconds; while it is open, failures do not count. */
    method RecordFailure(now: int) returns (tripped: bool)
      requires Valid()
      modifies this
      ensures Valid() && tripped == OpenAt(now)
      ensures old(OpenAt(now)) ==> failures == old(failures) && openUntil == old(openUntil)
      ensures !old(OpenAt(now)) && old(failures) + 1 < CIRCUIT_FAILURES ==> failures == old(failures) + 1 && openUntil == old(openUntil)
      ensures !old(OpenAt(now)) && old(failures) + 1 == CIRCUIT_FAILURES ==> failures == 0 && openedAt == now
      ensures !old(OpenAt(now)) ==> (tripped <==> old(failures) == 2) && (tripped ==> openUntil == Some(now + 15_000))
    {
      if openUntil.Some? && now < openUntil.value {
        return true;
      }
      failures := failures + 1;
      if failures < CIRCUIT_FAILURES {
        return false;
      }
      failures := 0;
      openUntil := Some(now + CIRCUIT_OPEN);
      openedAt := now;
      return true;
    }

    method RecordSuccess()
      modifies this
      ensures Valid() && failures == 0 && openUntil == None
    {
      failures := 0;
      openUntil := None;
    }
  }
}
