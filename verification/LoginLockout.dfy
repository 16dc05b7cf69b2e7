/** The login-failure lockout: five failures within ten minutes lock a key for ten minutes. */
module LoginLockout {
  import opened Wrappers
  import opened TimeCounts

  const MAX_ATTEMPTS: int := 5
  const WINDOW: int := 600_000_000_000   // ten minutes in nanoseconds
  const LOCKOUT: int := 600_000_000_000

  datatype Failures = Failures(firstAt: int, count: int, lockedUntil: Option<int>)

  type Entry = Option<Failures>

  // ----- one key -----

  predicate Locked(e: Entry, now: int)
  {
    e.Some? && e.value.lockedUntil.Some? && now < e.value.lockedUntil.value
  }

  /** What a check leaves behind: a lock or a window that is over is forgotten. */
  function Checked(e: Entry, now: int): Entry
  {
    if e.None? || Locked(e, now) then e
    else if e.value.lockedUntil.Some? || now - e.value.firstAt > WINDOW then None
    else e
  }

  /** What a recorded failure leaves behind. */
  function Recorded(e: Entry, now: int): Failures
  {
    var r := if e.None? || now - e.value.firstAt > WINDOW then Failures(now, 0, None) else e.value;
    var n := r.count + 1;
    Failures(r.firstAt, n, if n >= MAX_ATTEMPTS then Some(now + LOCKOUT) else r.lockedUntil)
  }

  // ----- runs -----

  /** A failed login: checked, then, unless locked, recorded a little later. */
  datatype Attempt = Attempt(checkedAt: int, failedAt: int)

  datatype Run = Run(entry: Entry, recorded: seq<int>)

  function After(attempts: seq<Attempt>): Run
  {
    if attempts == [] then Run(None, []) else
      var before, a := After(attempts[..|attempts| - 1]), attempts[|attempts| - 1];
      if Locked(before.entry, a.checkedAt) then before
      else Run(Some(Recorded(Checked(before.entry, a.checkedAt), a.failedAt)), before.recorded + [a.failedAt])
  }

  /** One attempt after the other. */
  predicate Serial(attempts: seq<Attempt>)
  {
    && (forall i :: 0 <= i < |attempts| ==> attempts[i].checkedAt <= attempts[i].failedAt)
    && (forall i, j :: 0 <= i < j < |attempts| ==> attempts[i].failedAt <= attempts[j].checkedAt)
  }

  /** A stored entry has one to five failures, and is locked exactly when it has five. */
  predicate EntryOk(e: Entry, clock: int)
  {
    e.Some? ==>
      && 1 <= e.value.count <= MAX_ATTEMPTS
      && (e.value.lockedUntil.Some? <==> e.value.count == MAX_ATTEMPTS)
      && e.value.firstAt <= clock
  }

  /** Locked until ten minutes after the last failure. */
  ghost predicate LockCovers(r: Run)
  {
    r.entry.Some? && r.entry.value.lockedUntil.Some? ==>
      forall i :: 0 <= i < |r.recorded| ==> r.recorded[i] + LOCKOUT <= r.entry.value.lockedUntil.value
  }

  /** How many failures a window that starts at `a` may hold so far. A window that opened before the
      entry did can also hold failures of the entry before it, but not its first. */
  function Allowance(e: Entry, a: int): int
  {
    if e.None? then 3 else if e.value.firstAt < a then e.value.count - 1 else 3 + e.value.count
  }

  /** Windows that are over hold at most eight; those that a later failure can fall into keep to
      their allowance. */
  ghost predicate Bounded(r: Run, clock: int, a: int)
  {
    CountIn(r.recorded, a, a + WINDOW) <= if a + WINDOW <= clock then 8 else Allowance(r.entry, a)
  }

  ghost predicate Inv(r: Run, clock: int)
  {
    && EntryOk(r.entry, clock) && LockCovers(r)
    && (forall i :: 0 <= i < |r.recorded| ==> r.recorded[i] <= clock)
    && forall a :: Bounded(r, clock, a)
  }

  /** Time passes, and a check forgets what is over. */
  lemma CheckKeepsInv(r: Run, clock: int, now: int)
    requires Inv(r, clock) && clock <= now && !Locked(r.entry, now)
    ensures var next := r.(entry := Checked(r.entry, now));
            Inv(next, now) && (next.entry.Some? ==> next.entry.value.lockedUntil.None?)
  {
    var next := r.(entry := Checked(r.entry, now));
    forall a
      ensures Bounded(next, now, a)
    {
      assert Bounded(r, clock, a);
      if a + WINDOW > now && r.entry.Some? && r.entry.value.lockedUntil.Some? {
        NothingLater(r.recorded, a, a + WINDOW);
      }
    }
  }

  /** A failure is recorded on an entry that is not locked. */
  lemma RecordKeepsInv(r: Run, clock: int, now: int)
    requires Inv(r, clock) && clock <= now
    requires r.entry.Some? ==> r.entry.value.lockedUntil.None?
    ensures Inv(Run(Some(Recorded(r.entry, now)), r.recorded + [now]), now)
  {
    var next := Run(Some(Recorded(r.entry, now)), r.recorded + [now]);
    forall a
      ensures Bounded(next, now, a)
    {
      assert Bounded(r, clock, a);
      if a > now {
        NothingLater(r.recorded, a, a + WINDOW);
      }
    }
  }

  ghost function ClockAfter(attempts: seq<Attempt>): int
  {
    if attempts == [] then 0 else attempts[|attempts| - 1].failedAt
  }

  lemma {:induction false} RunKeepsInv(attempts: seq<Attempt>)
    requires Serial(attempts)
    ensures attempts == [] || Inv(After(attempts), ClockAfter(attempts))
    decreases |attempts|
  {
    if attempts != [] {
      var front, a := attempts[..|attempts| - 1], attempts[|attempts| - 1];
      RunKeepsInv(front);
      var before := After(front);
      var clock := if front == [] then a.checkedAt else ClockAfter(front);
      if Locked(before.entry, a.checkedAt) {
        TimePasses(before, clock, a.failedAt);
      } else {
        CheckKeepsInv(before, clock, a.checkedAt);
        RecordKeepsInv(before.(entry := Checked(before.entry, a.checkedAt)), a.checkedAt, a.failedAt);
      }
    }
  }

  lemma TimePasses(r: Run, clock: int, now: int)
    requires Inv(r, clock) && clock <= now
    ensures Inv(r, now)
  {
    forall a
      ensures Bounded(r, now, a)
    {
      assert Bounded(r, clock, a);
    }
  }

  /** Whatever the serial attempts on a key, with no success between them: any ten minutes hold at
      most eight recorded failures, and the entry is locked exactly when it counts five. */
  lemma AtMostEight(attempts: seq<Attempt>, from: int)
    requires Serial(attempts)
    ensures CountIn(After(attempts).recorded, from, from + 600_000_000_000) <= 8
    ensures var e := After(attempts).entry; e.Some? ==> 1 <= e.value.count <= 5 && (e.value.lockedUntil.Some? <==> e.value.count == 5)
  {
    RunKeepsInv(attempts);
    if attempts != [] {
      InvBounds(After(attempts), ClockAfter(attempts), from);
    }
  }

  lemma InvBounds(r: Run, clock: int, from: int)
    requires Inv(r, clock)
    ensures CountIn(r.recorded, from, from + WINDOW) <= 8
  {
    assert Bounded(r, clock, from);
  }

  /** An attempt that fails without being locked out. */
  lemma OneMore(attempts: seq<Attempt>, t: int)
    requires !Locked(After(attempts).entry, t)
    ensures var before := After(attempts);
            After(attempts + [Attempt(t, t)]) == Run(Some(Recorded(Checked(before.entry, t), t)), before.recorded + [t])
  {
    assert (attempts + [Attempt(t, t)])[..|attempts|] == attempts;
  }

  /** Eight do happen: one failure, three more as its window ends, and five just after. */
  lemma {:induction false} EightHappen()
    ensures exists attempts :: Serial(attempts) && CountIn(After(attempts).recorded, 2, 2 + WINDOW) == 8
  {
    var w := WINDOW;
    var u := w + 1;
    var a1 := [Attempt(0, 0)];
    assert a1[..0] == [];
    var a2 := a1 + [Attempt(w, w)];
    var a3 := a2 + [Attempt(w, w)];
    var a4 := a3 + [Attempt(w, w)];
    var a5 := a4 + [Attempt(u, u)];
    var a6 := a5 + [Attempt(u, u)];
    var a7 := a6 + [Attempt(u, u)];
    var a8 := a7 + [Attempt(u, u)];
    var a9 := a8 + [Attempt(u, u)];
    assert After([]).recorded == [];
    OneMore([], 0);
    assert [] + [Attempt(0, 0)] == a1;
    OneMore(a1, w);
    OneMore(a2, w);
    OneMore(a3, w);
    OneMore(a4, u);
    OneMore(a5, u);
    OneMore(a6, u);
    OneMore(a7, u);
    OneMore(a8, u);
    var times := After(a9).recorded;
    assert times == [0, w, w, w, u, u, u, u, u];
    CountEight(2, w, u);
    assert Serial(a9);
  }

  lemma CountEight(from: int, w: int, u: int)
    requires 0 < from <= w <= u < from + w
    ensures CountIn([0, w, w, w, u, u, u, u, u], from, from + w) == 8
  {
    var three, five := [w, w, w], [u, u, u, u, u];
    assert [0, w, w, w, u, u, u, u, u] == [0] + three + five;
    CountSplit([0] + three, five, from, from + w);
    CountSplit([0], three, from, from + w);
    CountAll(three, from, from + w);
    CountAll(five, from, from + w);
    NothingLater([0], from, from + w);
  }

  // ----- one recorded failure, in figures -----

  /** The entry was opened in the ten minutes up to `now`. */
  predicate Open(e: Entry, now: int)
  {
    e.Some? && now - e.value.firstAt <= 10 * 60 * 1_000_000_000
  }

  /** One failure more within ten minutes of the first, otherwise a first one; the fifth locks for
      ten minutes. */
  predicate Counts(e: Entry, now: int, f: Failures)
  {
    && (Open(e, now) ==> f.firstAt == e.value.firstAt && f.count == e.value.count + 1)
    && (!Open(e, now) ==> f.firstAt == now && f.count == 1)
    && (f.count >= 5 ==> f.lockedUntil == Some(now + 10 * 60 * 1_000_000_000))
    && (f.count < 5 ==> f.lockedUntil == if Open(e, now) then e.value.lockedUntil else None)
  }

  // ----- the shared map -----

  class LoginFailures {
    var failures: map<string, Failures>

    function EntryFor(key: string): Entry
      reads this
    {
      if key in failures then Some(failures[key]) else None
    }

    constructor ()
      ensures failures == map[]
    {
      failures := map[];
    }

    /** Is the key locked, and for how long? Keys of other users keep their entries. */
    method AttemptLocked(key: string, now: int) returns (locked: bool, retryAfter: int)
      modifies this
      ensures locked <==> key != "" && Locked(old(EntryFor(key)), now)
      ensures locked ==> old(EntryFor(key)).value.lockedUntil == Some(now + retryAfter) && retryAfter > 0
      ensures key != "" && !locked && old(EntryFor(key)).Some? && old(EntryFor(key)).value.lockedUntil.Some? ==>
                now >= old(EntryFor(key)).value.lockedUntil.value
      ensures key != "" ==> EntryFor(key) == Checked(old(EntryFor(key)), now)
      ensures key != "" && !locked ==> (EntryFor(key).Some? <==> Open(old(EntryFor(key)), now) && old(EntryFor(key)).value.lockedUntil.None?)
      ensures forall other :: other != key || key == "" ==> EntryFor(other) == old(EntryFor(other))
    {
      if key == "" || key !in failures {
        return false, 0;
      }
      var record := failures[key];
      if record.lockedUntil.Some? {
        if now < record.lockedUntil.value {
          return true, record.lockedUntil.value - now;
        }
        failures := failures - {key};
        return false, 0;
      }
      if now - record.firstAt > WINDOW {
        failures := failures - {key};
      }
      return false, 0;
    }

    method RecordFailure(key: string, now: int)
      modifies this
      ensures key != "" ==> EntryFor(key) == Some(Recorded(old(EntryFor(key)), now))
      ensures key != "" ==> Counts(old(EntryFor(key)), now, failures[key])
      ensures forall other :: other != key || key == "" ==> EntryFor(other) == old(EntryFor(other))
    {
      if key == "" {
        return;
      }
      var record := if key in failures then failures[key] else Failures(now, 0, None);
      if now - record.firstAt > WINDOW {
        record := Failures(now, 0, None);
      }
      record := record.(count := record.count + 1);
      if record.count >= MAX_ATTEMPTS {
        record := record.(lockedUntil := Some(now + LOCKOUT));
      }
      failures := failures[key := record];
    }

    method ClearFailure(key: string)
      modifies this
      ensures key != "" ==> EntryFor(key) == None
      ensures forall other :: other != key || key == "" ==> EntryFor(other) == old(EntryFor(other))
    {
      if key != "" {
        failures := failures - {key};
      }
    }

    /** A failed login on a key whose attempts so far are `attempts`: the entry stays what the run says. */
    method FailedLogin(key: string, a: Attempt, ghost attempts: seq<Attempt>) returns (locked: bool)
      requires key != "" && EntryFor(key) == After(attempts).entry
      modifies this
      ensures EntryFor(key) == After(attempts + [a]).entry
      ensures forall other :: other != key ==> EntryFor(other) == old(EntryFor(other))
      ensures After(attempts + [a]).recorded == if locked then After(attempts).recorded else After(attempts).recorded + [a.failedAt]
    {
      assert (attempts + [a])[..|attempts|] == attempts;
      var retryAfter;
      locked, retryAfter := AttemptLocked(key, a.checkedAt);
      if !locked {
        RecordFailure(key, a.failedAt);
      }
    }
  }
}
