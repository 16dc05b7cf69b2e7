/** The scheduler of the derived-rollup refresh: a set of pending minutes, a timer and a
    running flag, each changed under one lock. */
module RefreshQueue {
  import opened AccessLog

  /** The scheduler's state. `timer` is the stored timer handle; `scheduled` says that a
      timer exists that has not fired, and `callbacks` counts fired timers whose function
      has not yet entered the lock. Stopping a timer that has fired does not recall it. */
  datatype Sched = Sched(pending: set<int>, timer: bool, scheduled: bool, callbacks: nat, running: bool)

  const EMPTY: Sched := Sched({}, false, false, 0, false)

  /** The minute that starts at the zero time counts as "no time" and is skipped. */
  function Announced(minutes: set<int>): set<int>
  {
    minutes - {ZERO_TIME}
  }

  function Enqueued(s: Sched, minutes: set<int>): Sched
  {
    var pending := s.pending + Announced(minutes);
    if Announced(minutes) == {} then s
    else if !s.timer && !s.running then s.(pending := pending, timer := true, scheduled := true)
    else s.(pending := pending)
  }

  /** The timer fires: its function is on its way to the lock. */
  function Fired(s: Sched): Sched
    requires s.scheduled
  {
    s.(scheduled := false, callbacks := s.callbacks + 1)
  }

  predicate CanTake(s: Sched)
  {
    !s.running && s.pending != {}
  }

  function Taken(s: Sched): Sched
  {
    if CanTake(s) then s.(pending := {}, timer := false, scheduled := false, running := true) else s
  }

  function TakenBatch(s: Sched): set<int>
  {
    if CanTake(s) then s.pending else {}
  }

  function Finished(s: Sched, batch: set<int>, failed: bool): Sched
  {
    var pending := if failed then s.pending + Announced(batch) else s.pending;
    if pending != {} then s.(pending := pending, running := false, timer := true, scheduled := true)
    else s.(pending := pending, running := false, timer := false)
  }

  predicate Idle(s: Sched)
  {
    !s.running && s.pending == {}
  }

  /** What holds between any two critical sections: no minute without a time waits, the handle is set exactly when there is
      work and nobody is doing it, and a set handle means someone is coming. */
  predicate SchedOk(s: Sched)
  {
    && ZERO_TIME !in s.pending
    && (s.timer <==> s.pending != {} && !s.running)
    && (s.scheduled ==> s.timer)
    && (s.timer ==> s.scheduled || s.callbacks > 0)
  }

  lemma SchedulingIsKept(s: Sched, minutes: set<int>, failed: bool)
    requires SchedOk(s)
    ensures SchedOk(Enqueued(s, minutes))
    ensures s.scheduled ==> SchedOk(Fired(s))
    ensures SchedOk(Taken(s))
    ensures s.callbacks > 0 ==> SchedOk(Taken(s.(callbacks := s.callbacks - 1)))
    ensures s.running ==> SchedOk(Finished(s, minutes, failed))
  {
  }

  /** The refresh state as the program holds it. Methods are the critical sections. */
  class Queue {
    var pending: set<int>
    var timer: bool
    var scheduled: bool
    var callbacks: nat
    var running: bool

    function View(): Sched
      reads this
    {
      Sched(pending, timer, scheduled, callbacks, running)
    }

    ghost predicate Valid()
      reads this
    {
      SchedOk(View())
    }

    constructor ()
      ensures Valid() && View() == EMPTY
    {
      pending, timer, scheduled, callbacks, running := {}, false, false, 0, false;
    }

    /** Note the minutes of the rows just upserted; a minute may be named many times. */
    method Enqueue(rowMinutes: seq<int>)
      requires Valid()
      modifies this
      ensures Valid() && View() == Enqueued(old(View()), set m | m in rowMinutes)
    {
      var seen: set<int> := {};
      for i := 0 to |rowMinutes|
        invariant seen == Announced(set m | m in rowMinutes[..i])
        invariant View() == old(View())
      {
        assert rowMinutes[..i + 1] == rowMinutes[..i] + [rowMinutes[i]];
        if rowMinutes[i] != ZERO_TIME {
          seen := seen + {rowMinutes[i]};
        }
      }
      assert rowMinutes[..|rowMinutes|] == rowMinutes;
      if seen == {} {
        return;
      }
      pending := pending + seen;
      if !timer && !running {
        timer, scheduled := true, true;
      }
    }

    method Fire()
      requires Valid() && scheduled
      modifies this
      ensures Valid() && View() == Fired(old(View()))
    {
      scheduled, callbacks := false, callbacks + 1;
    }

    /** Take every pending minute, unless a refresh is in flight. */
    method Take() returns (batch: set<int>)
      requires Valid()
      modifies this
      ensures Valid() && View() == Taken(old(View())) && batch == TakenBatch(old(View()))
    {
      if running || pending == {} {
        return {};
      }
      if timer {
        timer, scheduled := false, false;
      }
      batch := pending;
      pending := {};
      running := true;
    }

    method Finish(batch: set<int>, failed: bool)
      requires Valid() && running
      modifies this
      ensures Valid() && View() == Finished(old(View()), batch, failed)
    {
      running := false;
      if failed {
        pending := pending + Announced(batch);
      }
      if pending != {} {
        timer, scheduled := true, true;
        return;
      }
      timer := false;
    }

    /** Drain the queue when nobody else writes. If a refresh of `inFlight` is running, wait until it
        finishes, with or without an error; `fails` tells whether refreshing a batch ends in one. It
        stops, with nothing pending unless a refresh failed, and a failed batch is pending again. */
    method Flush(inFlight: set<int>, inFlightFails: bool, fails: set<int> -> bool) returns (failed: bool)
      requires Valid()
      modifies this
      ensures Valid() && !running
      ensures var left := old(pending) + (if old(running) && inFlightFails then Announced(inFlight) else {});
              failed == (left != {} && fails(left)) && pending == if failed then left else {}
    {
      if running {
        Finish(inFlight, inFlightFails);
      }
      ghost var left := pending;
      assert left == old(pending) + (if old(running) && inFlightFails then Announced(inFlight) else {});
      while true
        invariant Valid() && !running
        invariant pending == left || (pending == {} && !fails(left))
        decreases pending
      {
        var batch := Take();
        if batch == {} {
          return false;
        }
        var err := fails(batch);
        Finish(batch, err);
        if err {
          assert Announced(batch) == batch;
          return true;
        }
      }
    }
  }
}
