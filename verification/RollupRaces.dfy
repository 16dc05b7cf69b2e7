/** What disturbs the access-log pipeline, and exactly when: minutes the scheduler does not announce,
    commits that come late, counts in the middle of a rebuild, and rebuilds that overlap a refresh. */
module RollupRaces {
  import opened Wrappers
  import opened Sums
  import opened SqlDialect
  import opened AccessLog
  import opened DerivedRollups
  import opened RollupQueries
  import opened RefreshQueue
  import opened RefreshStatements
  import opened RebuildStatements
  import opened RollupProtocol
  import opened RollupRuns
  import RebuildOverlap

  // ----- which minutes an insertion changes -----

  ghost function AtMinute(m: int): Key -> bool
  {
    (k: Key) => k.minute == m
  }

  lemma RequestsAtMinute(rs: seq<Record>, m: int)
    requires AllTimed(rs)
    ensures BucketRowAt(Aggregate(rs), m).requests == CountIf(rs, OfKey(AtMinute(m)))
  {
    var t := Aggregate(rs);
    RequestsCountRecords(rs, AtMinute(m));
    assert InClassRows(KeysIn(t, {m}), AnyStatus) == Select(t, AtMinute(m));
  }

  lemma {:induction false} CountIsPositive<T>(xs: seq<T>, p: T -> bool, x: T)
    requires x in xs && p(x)
    ensures CountIf(xs, p) > 0
    decreases |xs|
  {
    if xs[|xs| - 1] != x {
      CountIsPositive(xs[..|xs| - 1], p, x);
    }
  }

  /** Records change the bucket row of every minute they fall in. */
  lemma InsertionChangesMinute(applied: seq<Record>, rs: seq<Record>, m: int)
    requires AllTimed(applied) && AllTimed(rs) && m in MinutesOf(Aggregate(rs))
    ensures var t, u := Aggregate(applied), Upsert(Aggregate(applied), Aggregate(rs));
            m in MinutesOf(u) && BucketRowAt(t, m) != BucketRowAt(u, m)
  {
    AggregateConcat(applied, rs);
    RequestsAtMinute(applied, m);
    RequestsAtMinute(applied + rs, m);
    CountIfConcat(applied, rs, OfKey(AtMinute(m)));
    AggregateIsGrouping(rs);
    var r :| r in rs && KeyOf(r).minute == m;
    CountIsPositive(rs, OfKey(AtMinute(m)), r);
    UpsertGrows(Aggregate(applied), Aggregate(rs), m);
  }

  lemma ChangedIsStale(t: Table, u: Table, tables: Tables, m: int)
    requires m in MinutesOf(u) && BucketRowAt(t, m) != BucketRowAt(u, m) && BucketFresh(t, tables.buckets, m)
    ensures !Fresh(u, tables, m)
  {
  }

  lemma UndatedIsStale(applied: seq<Record>, rs: seq<Record>, r: Record)
    requires AllTimed(applied) && AllTimed(rs) && r in rs && !Dated(r)
    ensures !Fresh(Upsert(Aggregate(applied), Aggregate(rs)), Derive(Aggregate(applied)), ZERO_TIME)
  {
    var t, u := Aggregate(applied), Upsert(Aggregate(applied), Aggregate(rs));
    ZeroMinuteIsThere(rs, r);
    InsertionChangesMinute(applied, rs, ZERO_TIME);
    DeriveIsFresh(t, ZERO_TIME);
    ChangedIsStale(t, u, Derive(t), ZERO_TIME);
  }

  lemma ZeroMinuteIsThere(rs: seq<Record>, r: Record)
    requires AllTimed(rs) && r in rs && !Dated(r)
    ensures ZERO_TIME in MinutesOf(Aggregate(rs))
  {
    AggregateIsGrouping(rs);
    assert KeyOf(r) in Aggregate(rs).Keys;
  }

  /** The scheduler announces every minute that an insertion makes stale if and only if no record falls
      in the minute that starts at the zero time. */
  lemma {:induction false} AnnouncesAllIff(applied: seq<Record>, rs: seq<Record>)
    requires AllTimed(applied) && AllTimed(rs)
    ensures (forall m :: !Fresh(Upsert(Aggregate(applied), Aggregate(rs)), Derive(Aggregate(applied)), m) ==>
                           m in Announced(MinutesOf(Aggregate(rs))))
            <==> AllDated(rs)
  {
    if AllDated(rs) {
      DatedMinutes(rs);
      forall m | m !in MinutesOf(Aggregate(rs))
        ensures Fresh(Upsert(Aggregate(applied), Aggregate(rs)), Derive(Aggregate(applied)), m)
      {
        DeriveIsFresh(Aggregate(applied), m);
        UpsertIsLocal(Aggregate(applied), Aggregate(rs), Derive(Aggregate(applied)), m);
      }
    } else {
      var r :| r in rs && !Dated(r);
      UndatedIsStale(applied, rs, r);
    }
  }

  // ----- commits that come after the announcement -----

  /** Adding rows that were announced before keeps every stale minute owned if and only if each minute
      still waits, or the refresh that took it has read nothing yet or will fail. */
  lemma CommitIsOwnedIff(s: State, rs: seq<Record>)
    requires s.detailed == Aggregate(s.applied) && AllTimed(s.applied) && AllTimed(rs)
    requires s.rebuild == NoRebuild && StaleIsOwned(s) && Progress(s)
    ensures var s' := s.(detailed := Upsert(s.detailed, Aggregate(rs)));
            StaleIsOwned(s') && Progress(s') <==> forall m :: m in MinutesOf(Aggregate(rs)) ==> InTime(s, m)
  {
    var rows := Aggregate(rs);
    var s' := s.(detailed := Upsert(s.detailed, rows));
    assert forall m :: Settled(s', m) <==> Settled(s, m);
    if forall m :: m in MinutesOf(rows) ==> InTime(s, m) {
      CommitInTime(s, rows, s');
    } else {
      var m :| m in MinutesOf(rows) && !InTime(s, m);
      LateCommitIsStale(s, rs, m);
    }
  }

  lemma {:induction false} LateCommitIsStale(s: State, rs: seq<Record>, m: int)
    requires s.detailed == Aggregate(s.applied) && AllTimed(s.applied) && AllTimed(rs)
    requires s.rebuild == NoRebuild && StaleIsOwned(s) && Progress(s) && m in MinutesOf(Aggregate(rs)) && !InTime(s, m)
    ensures var s' := s.(detailed := Upsert(s.detailed, Aggregate(rs))); !(StaleIsOwned(s') && Progress(s'))
  {
    var s' := s.(detailed := Upsert(s.detailed, Aggregate(rs)));
    assert Settled(s, m) && Settled(s', m);
    InsertionChangesMinute(s.applied, rs, m);
    if m in BatchOf(s.phase) {
      assert WillBeFresh(s, s.phase, m);
      ReadIsStale(s.phase, s.detailed, s'.detailed, s.tables, m);
      assert !WillBeFresh(s', s.phase, m);
    } else {
      ChangedIsStale(s.detailed, s'.detailed, s.tables, m);
    }
  }

  /** A refresh that has read its bucket rows misses what is added later. */
  lemma ReadIsStale(p: Phase, t: Table, u: Table, tables: Tables, m: int)
    requires Rank(p) >= 5 && Fresh(t, Remaining(p, t, tables), m)
    requires m in MinutesOf(u) && BucketRowAt(t, m) != BucketRowAt(u, m)
    ensures !Fresh(u, Remaining(p, u, tables), m)
  {
    assert RemainingBuckets(p, t, tables.buckets) == RemainingBuckets(p, u, tables.buckets);
    ChangedIsStale(t, u, Remaining(p, u, tables), m);
  }

  // ----- counts in the middle of a rebuild -----

  ghost predicate NoneMatch(d: Dialect, rs: seq<Record>, q: Query)
  {
    forall r :: r in rs ==> !RawMatches(d, q, r)
  }

  /** While shards are being grouped and the derived tables are empty, a count is the raw scan's if and
      only if the detailed table does not answer it, or no record that is still to be grouped matches. */
  lemma CountDuringRebuildIff(states: seq<State>, events: seq<Event>, n: nat, q: Query)
    requires Run(states, events) && n < |states| && states[n].sound && states[n].rebuild.GroupShards?
    requires NobodyHalfway(states[n].writers) && states[n].tables == NO_TABLES && q.before == None
    ensures var s := states[n];
            CountLogs(s.backend, ViewOf(s), q) == RawCount(s.backend, s.shards, q) <==>
              || s.detailed == map[] || !Aligned(q.since)
              || NoneMatch(s.backend, Flatten(Ungrouped(s.rebuild, s.shards)), q)
  {
    var s := states[n];
    RunHasInv(states, events, n);
    HalfwayOnly(s.writers);
    if s.detailed != map[] && Aligned(q.since) {
      PartialCountIff(s.backend, ViewOf(s), s.applied, Flatten(Ungrouped(s.rebuild, s.shards)), q);
    }
  }

  lemma PartialCountIff(d: Dialect, db: Db, grouped: seq<Record>, ungrouped: seq<Record>, q: Query)
    requires multiset(Flatten(db.shards)) == multiset(grouped) + multiset(ungrouped) && AllTimed(Flatten(db.shards))
    requires db.detailed == Aggregate(grouped) && db.detailed != map[] && db.tables == NO_TABLES && Aligned(q.since) && q.before == None
    ensures CountLogs(d, db, q) == RawCount(d, db.shards, q) <==> NoneMatch(d, ungrouped, q)
  {
    var part := db.(shards := [grouped]);
    FlattenOne(grouped);
    assert AllTimed(grouped) by {
      assert forall r :: r in grouped ==> r in multiset(Flatten(db.shards));
    }
    DetailedServes(d, part.(idle := false), q);
    RawRecordsOfUnion(d, db.shards, q);
    RawRecordsOfUnion(d, [grouped], q);
    CountIfPermutation(Flatten(db.shards), grouped + ungrouped, RawFilter(d, q));
    CountIfConcat(grouped, ungrouped, RawFilter(d, q));
    NoneMatchIff(d, ungrouped, q);
    if NoneMatch(d, ungrouped, q) {
      SameIdentities(d, db.shards, grouped, ungrouped, q);
    }
  }

  lemma SameIdentities(d: Dialect, shards: seq<seq<Record>>, grouped: seq<Record>, ungrouped: seq<Record>, q: Query)
    requires multiset(Flatten(shards)) == multiset(grouped) + multiset(ungrouped) && NoneMatch(d, ungrouped, q)
    ensures RawIdentities(d, shards, q, Address) == RawIdentities(d, [grouped], q, Address)
  {
    FlattenOne(grouped);
    RawIdentitiesOfUnion(d, shards, q, Address);
    RawIdentitiesOfUnion(d, [grouped], q, Address);
    forall r
      ensures r in Flatten(shards) <==> r in grouped || r in ungrouped
    {
      assert r in multiset(Flatten(shards)) <==> r in multiset(grouped) + multiset(ungrouped);
    }
  }

  lemma {:induction false} NoneMatchIff(d: Dialect, rs: seq<Record>, q: Query)
    ensures NoneMatch(d, rs, q) <==> CountIf(rs, RawFilter(d, q)) == 0
    decreases |rs|
  {
    if rs != [] {
      var front, last := rs[..|rs| - 1], rs[|rs| - 1];
      NoneMatchIff(d, front, q);
      assert forall r :: r in rs <==> r in front || r == last;
    }
  }

  lemma {:induction false} CountIfPermutation(a: seq<Record>, b: seq<Record>, p: Record -> bool)
    requires multiset(a) == multiset(b)
    ensures CountIf(a, p) == CountIf(b, p)
    decreases |a|
  {
    var f := (r: Record) => if p(r) then 1 else 0;
    CountIsSum(a, p, f);
    CountIsSum(b, p, f);
    SumSeqPermutation(a, b, f);
  }

  lemma {:induction false} CountIsSum(a: seq<Record>, p: Record -> bool, f: Record -> int)
    requires forall r :: f(r) == if p(r) then 1 else 0
    ensures CountIf(a, p) == SumSeq(a, f)
    decreases |a|
  {
    if a != [] {
      CountIsSum(a[..|a| - 1], p, f);
    }
  }

  // ----- runs that end stale behind an idle gate -----

  ghost predicate Reachable(s: State)
  {
    exists states, events :: Run(states, events) && states[|events|] == s
  }

  /** Nobody does anything and nothing waits, so nothing will be refreshed. */
  predicate AtRest(s: State)
  {
    s.rebuild == NoRebuild && s.phase == NoRefresh && s.writers == [] && Idle(s.sched)
  }

  ghost predicate StaleAtRest(s: State)
  {
    Reachable(s) && AtRest(s) && s.tables != Derive(s.detailed)
  }

  lemma RunExtends(states: seq<State>, events: seq<Event>, e: Event)
    requires Run(states, events) && Enabled(states[|events|], e)
    ensures Run(states + [Next(states[|events|], e)], events + [e])
  {
    var longer, all := states + [Next(states[|events|], e)], events + [e];
    forall i | 0 <= i < |all|
      ensures Enabled(longer[i], all[i]) && longer[i + 1] == Next(longer[i], all[i])
    {
      if i < |events| {
        assert longer[i] == states[i] && longer[i + 1] == states[i + 1] && all[i] == events[i];
      }
    }
  }

  lemma ReachNext(s: State, e: Event)
    requires Reachable(s) && Enabled(s, e)
    ensures Reachable(Next(s, e))
  {
    var states, events :| Run(states, events) && states[|events|] == s;
    RunExtends(states, events, e);
    assert (states + [Next(s, e)])[|events + [e]|] == Next(s, e);
  }

  ghost function FirstState(d: Dialect): State
  {
    State(d, [[]], map[], NO_TABLES, EMPTY, NoRefresh, NoRebuild, [], [], true)
  }

  lemma FirstIsReachable(d: Dialect)
    ensures Reachable(FirstState(d))
  {
    var states, events: seq<Event> := [FirstState(d)], [];
    FlattenOne<Record>([]);
    assert Run(states, events) && states[|events|] == FirstState(d);
  }

  lemma OneRow(r: Record)
    requires r.loggedAt != ZERO_TIME
    ensures MinutesOf(Aggregate([r])) == {KeyOf(r).minute} && KeyOf(r) in Aggregate([r]) && AllTimed([r])
  {
    AggregateIsGrouping([r]);
    assert Keys(FromRecord, [r]) == {KeyOf(r)};
  }

  lemma OneShardAdds(s: State, rs: seq<Record>, r: Record)
    requires s.shards == [rs]
    ensures Adds(s, [r], [rs + [r]])
  {
    FlattenOne(rs);
    FlattenOne(rs + [r]);
  }

  /** A record is inserted, upserted and announced. */
  lemma RecordAnnounced(s: State, rs: seq<Record>, r: Record) returns (s': State)
    requires Reachable(s) && AtRest(s) && s.shards == [rs] && r.loggedAt != ZERO_TIME
    ensures Reachable(s') && s' == s.(shards := [rs + [r]], detailed := Upsert(s.detailed, Aggregate([r])), applied := s.applied + [r],
                                      sched := Enqueued(s.sched, {KeyOf(r).minute}), sound := s'.sound)
  {
    OneShardAdds(s, rs, r);
    OneRow(r);
    ReachNext(s, InsertRaw([r], [rs + [r]]));
    var s1 := Next(s, InsertRaw([r], [rs + [r]]));
    assert s1.writers == [Inserted([r])];
    ReachNext(s1, UpsertRows(0));
    var s2 := Next(s1, UpsertRows(0));
    assert s2.writers == [Upserted({KeyOf(r).minute})];
    ReachNext(s2, EnqueueMinutes(0));
    s' := Next(s2, EnqueueMinutes(0));
  }

  /** The refresh takes what waits. */
  lemma WaitingIsTaken(s: State) returns (s': State)
    requires Reachable(s) && s.rebuild == NoRebuild && CanTake(s.sched)
    ensures Reachable(s') && s' == s.(sched := Taken(s.sched), phase := DropIdentities(s.sched.pending))
  {
    ReachNext(s, FlushTakes);
    s' := Next(s, FlushTakes);
  }

  /** The refresh runs to its end while nobody else does anything. */
  lemma {:induction false} RefreshFinishes(s: State) returns (s': State)
    requires Reachable(s) && s.phase != NoRefresh && !WillConflict(s.phase, s.detailed, s.tables)
    ensures Reachable(s') && s' == s.(tables := Remaining(s.phase, s.detailed, s.tables), phase := NoRefresh,
                                      sched := Finished(s.sched, s.phase.batch, false))
    decreases StatementsLeft(s.phase)
  {
    if s.phase.Finishing? {
      s' := RefreshEnds(s);
    } else {
      StepKeepsRemaining(s.phase, s.detailed, s.tables);
      StepKeepsClear(s.phase, s.detailed, s.tables);
      var next := RefreshAdvances(s);
      s' := RefreshFinishes(next);
    }
  }

  lemma RefreshEnds(s: State) returns (s': State)
    requires Reachable(s) && s.phase.Finishing?
    ensures Reachable(s') && s' == s.(phase := NoRefresh, sched := Finished(s.sched, s.phase.batch, false))
  {
    ReachNext(s, RefreshStatement);
    s' := NextStatement(s);
  }

  lemma RefreshAdvances(s: State) returns (s': State)
    requires Reachable(s) && s.phase != NoRefresh && !s.phase.Finishing? && !Conflicts(s.phase, s.tables)
    ensures Reachable(s') && s' == s.(tables := StepTables(s.phase, s.tables), phase := StepPhase(s.phase, s.detailed))
  {
    ReachNext(s, RefreshStatement);
    s' := NextStatement(s);
  }

  /** A record in the minute of the zero time is counted and never announced. */
  lemma UndatedGoesStale(d: Dialect, r: Record) returns (s: State)
    requires r.loggedAt != ZERO_TIME && !Dated(r)
    ensures StaleAtRest(s) && s.shards == [[r]]
  {
    FirstIsReachable(d);
    s := RecordAnnounced(FirstState(d), [], r);
    assert [] + [r] == [r];
    OneRow(r);
    assert s.sched == EMPTY;
    RowsCallForTables(s, r);
  }

  lemma RowsCallForTables(s: State, r: Record)
    requires s.tables == NO_TABLES && s.detailed == Upsert(map[], Aggregate([r])) && r.loggedAt != ZERO_TIME
    ensures s.tables != Derive(s.detailed)
  {
    OneRow(r);
    UpsertGrows(map[], Aggregate([r]), KeyOf(r).minute);
    assert KeyOf(r).minute in Derive(s.detailed).buckets;
  }

  /** A record is announced, and the refresh takes its minute and finds nothing. */
  lemma {:induction false} AnnouncedForNothing(d: Dialect, r: Record) returns (s: State)
    requires Dated(r)
    ensures Reachable(s) && s == FirstState(d).(sched := s.sched, writers := [InTransaction([r])]) && Idle(s.sched)
  {
    var m := KeyOf(r).minute;
    FirstIsReachable(d);
    OneRow(r);
    ReachNext(FirstState(d), EnqueueFirst([r]));
    s := Next(FirstState(d), EnqueueFirst([r]));
    assert s.writers == [InTransaction([r])] && s.sched.pending == {m};
    s := WaitingIsTaken(s);
    NothingToRefresh({m});
    s := RefreshFinishes(s);
  }

  /** Then the insertion commits. */
  lemma LateCommitGoesStale(d: Dialect, r: Record) returns (s: State)
    requires Dated(r)
    ensures StaleAtRest(s) && s.shards == [[r]]
  {
    var s1 := AnnouncedForNothing(d, r);
    OneShardAdds(s1, [], r);
    assert [] + [r] == [r];
    ReachNext(s1, Commit(0, [[r]]));
    s := Next(s1, Commit(0, [[r]]));
    RowsCallForTables(s, r);
  }

  lemma NothingToRefresh(b: set<int>)
    ensures Remaining(DropIdentities(b), map[], NO_TABLES) == NO_TABLES
  {
    forall m
      ensures Fresh(map[], Remaining(DropIdentities(b), map[], NO_TABLES), m)
    {
      EmptyIsFresh(map[], m);
      if m in b {
        WholeRefreshIsFresh(b, map[], NO_TABLES, m);
      } else {
        RemainingOutside(DropIdentities(b), map[], NO_TABLES, m);
        FreshSame(map[], NO_TABLES, Remaining(DropIdentities(b), map[], NO_TABLES), m);
      }
    }
    FreshEverywhere(map[], Remaining(DropIdentities(b), map[], NO_TABLES));
    forall m
      ensures Fresh(map[], NO_TABLES, m)
    {
      EmptyIsFresh(map[], m);
    }
    FreshEverywhere(map[], NO_TABLES);
  }

  // ----- a rebuild that overlaps a refresh -----

  /** The machine goes through an interleaving of a refresh and the end of a rebuild. */
  ghost predicate Mirrors(s: State, t: Table, o: RebuildOverlap.Overlap)
  {
    && s.detailed == t && s.tables == o.tables && s.phase == o.phase && s.rebuild == o.rebuild
    && s.sched.pending == o.returned && (s.sched.running <==> s.phase != NoRefresh)
    && (o.phase != NoRefresh ==> o.returned == {} && ZERO_TIME !in o.phase.batch)
    && s.writers == [] && (s.rebuild == NoRebuild || Refilling(s.rebuild))
  }

  lemma RefreshMirrors(s: State, t: Table, o: RebuildOverlap.Overlap)
    requires Mirrors(s, t, o) && o.phase != NoRefresh
    ensures Mirrors(NextStatement(s), t, RebuildOverlap.RefreshNext(t, o))
  {
  }

  lemma RebuildMirrors(s: State, t: Table, chunks: seq<set<int>>, o: RebuildOverlap.Overlap)
    requires Mirrors(s, t, o) && o.rebuild != NoRebuild
    ensures Mirrors(NextRebuild(s, chunks), t, RebuildOverlap.RebuildNext(t, chunks, o))
  {
  }

  lemma ReachStatement(s: State, rebuilds: bool, chunks: seq<set<int>>) returns (s': State)
    requires Reachable(s) && Chunking(chunks, MinutesOf(s.detailed))
    requires if rebuilds then s.rebuild != NoRebuild else s.phase != NoRefresh
    ensures Reachable(s') && s' == if rebuilds then NextRebuild(s, chunks) else NextStatement(s)
  {
    var e := if rebuilds then RebuildStatement(chunks) else RefreshStatement;
    ReachNext(s, e);
    s' := Next(s, e);
  }

  lemma {:induction false} RunMirrors(s: State, t: Table, chunks: seq<set<int>>, states: seq<RebuildOverlap.Overlap>, n: nat)
    returns (s': State)
    requires RebuildOverlap.Run(t, chunks, states) && n < |states|
    requires Reachable(s) && Mirrors(s, t, states[0]) && Chunking(chunks, MinutesOf(t))
    ensures Reachable(s') && Mirrors(s', t, states[n])
    decreases n
  {
    if n == 0 {
      s' := s;
    } else {
      var o := states[n - 1];
      var before := RunMirrors(s, t, chunks, states, n - 1);
      assert RebuildOverlap.Step(t, chunks, o, states[n]);
      if o.phase != NoRefresh && states[n] == RebuildOverlap.RefreshNext(t, o) {
        RefreshMirrors(before, t, o);
        s' := ReachStatement(before, false, chunks);
      } else {
        RebuildMirrors(before, t, chunks, o);
        s' := ReachStatement(before, true, chunks);
      }
    }
  }

  /** From every reachable state in which the last clear is to come and the refresh in flight is not
      harmless, a run ends stale behind an idle gate. */
  lemma {:induction false} HarmfulOverlapGoesStale(s: State, chunks: seq<set<int>>) returns (s': State)
    requires Reachable(s) && s.phase != NoRefresh && s.sched.pending == {} && s.writers == []
    requires s.rebuild == ClearTable(0, Again) || (s.rebuild == ClearTable(0, Only) && s.detailed == map[])
    requires Chunking(chunks, MinutesOf(s.detailed)) && !RebuildOverlap.Harmless(s.phase, s.detailed, chunks)
    ensures StaleAtRest(s')
  {
    var t := s.detailed;
    var o := RebuildOverlap.Overlap(s.tables, s.phase, {}, s.rebuild);
    ReachableHasQueue(s);
    RebuildOverlap.HarmfulGoesAstray(t, chunks, o);
    var end :| RebuildOverlap.Leads(t, chunks, o, end) && RebuildOverlap.Ended(end) && end.returned == {} && end.tables != Derive(t);
    var states :| RebuildOverlap.Run(t, chunks, states) && states[0] == o && states[|states| - 1] == end;
    s' := RunMirrors(s, t, chunks, states, |states| - 1);
  }

  lemma ReachableHasQueue(s: State)
    requires Reachable(s)
    ensures QueueOk(s)
  {
    var states, events :| Run(states, events) && states[|events|] == s;
    RunHasInv(states, events, |events|);
  }

  lemma RefreshReads(s: State) returns (s': State)
    requires Reachable(s) && s.phase.DropIdentities?
    ensures Reachable(s') && s' == s.(tables := s'.tables, phase := WriteBuckets(s.phase.batch, BucketRows(s.detailed, s.phase.batch)))
  {
    s' := RefreshAdvances(s);
    s' := RefreshAdvances(s');
    s' := RefreshAdvances(s');
    s' := RefreshAdvances(s');
  }

  lemma RebuildAdvances(s: State) returns (s': State)
    requires Reachable(s) && s.rebuild != NoRebuild && !s.rebuild.PluckMinutes?
    ensures Reachable(s') && s' == NextRebuild(s, [])
  {
    ReachNext(s, RebuildStatement([]));
    s' := NextRebuild(s, []);
  }

  /** A record is stored, and the refresh of its minute is about to begin. */
  lemma RecordTaken(s: State, rs: seq<Record>, r: Record) returns (s': State)
    requires Reachable(s) && AtRest(s) && s.shards == [rs] && Dated(r)
    ensures Reachable(s') && s' == s.(shards := [rs + [r]], detailed := Upsert(s.detailed, Aggregate([r])), applied := s.applied + [r],
                                      sched := s'.sched, phase := DropIdentities({KeyOf(r).minute}), sound := s'.sound)
    ensures s'.sched.pending == {}
  {
    var announced := RecordAnnounced(s, rs, r);
    assert Announced({KeyOf(r).minute}) == {KeyOf(r).minute};
    assert announced.sched.pending == {KeyOf(r).minute};
    s' := WaitingIsTaken(announced);
  }

  /** The refresh holds the bucket row of the only record. */
  lemma OneRowInHand(d: Dialect, r: Record) returns (s: State)
    requires Dated(r)
    ensures Reachable(s) && s.shards == [[r]] && s.writers == [] && s.rebuild == NoRebuild && s.sched.pending == {}
    ensures s.phase.WriteBuckets? && KeyOf(r).minute in s.phase.bucketRows
  {
    FirstIsReachable(d);
    var taken := RecordTaken(FirstState(d), [], r);
    assert [] + [r] == [r];
    s := RefreshReads(taken);
    OneRow(r);
    UpsertGrows(map[], Aggregate([r]), KeyOf(r).minute);
  }

  /** All logs are deleted meanwhile. */
  lemma DeleteAllGoesStale(d: Dialect, r: Record) returns (s: State)
    requires Dated(r)
    ensures StaleAtRest(s)
  {
    var reading := OneRowInHand(d, r);
    FlattenOne<Record>([]);
    var deleted := AllDeleted(reading, [[]]);
    NoChunksWhenEmpty(deleted.phase, KeyOf(r).minute);
    s := HarmfulOverlapGoesStale(deleted, []);
  }

  lemma AllDeleted(s: State, shards: seq<seq<Record>>) returns (s': State)
    requires Reachable(s) && s.rebuild == NoRebuild && |shards| == |s.shards| && Bag(shards) <= Bag(s.shards)
    ensures Reachable(s') && s' == s.(shards := shards, detailed := map[], applied := [], rebuild := ClearTable(0, Only), sound := s'.sound)
  {
    ReachNext(s, DeleteRaw(shards, true));
    s' := RebuildAdvances(Next(s, DeleteRaw(shards, true)));
  }

  lemma NoChunksWhenEmpty(p: Phase, m: int)
    requires p.WriteBuckets? && m in p.bucketRows
    ensures Chunking([], MinutesOf(map[])) && !RebuildOverlap.Harmless(p, map[], [])
  {
    assert Covered([]) == {} && MinutesOf(map[]) == {};
  }

  /** Old logs are deleted while a refresh of another minute has just begun. The rebuild fails on the
      bucket row that the refresh has written, and the other minute keeps no rows. */
  lemma RetentionGoesStale(d: Dialect, r1: Record, r2: Record) returns (s: State)
    requires Dated(r1) && Dated(r2) && Normal(d, r1) && Normal(d, r2) && KeyOf(r1).minute != KeyOf(r2).minute
    ensures StaleAtRest(s)
  {
    s := SecondIsTaken(d, r2, r1);
    s := Regrouped(s, [r2, r1]);
    TwoMinutes(d, r2, r1);
    var all := MinutesOf(s.detailed);
    OneChunk(all);
    RebuildOverlap.NothingRead(s.detailed, s.phase);
    RebuildOverlap.OneChunkRows(s.detailed, {KeyOf(r1).minute});
    s := HarmfulOverlapGoesStale(s, [all]);
  }

  lemma FirstIsRefreshed(d: Dialect, r: Record) returns (s: State)
    requires Dated(r)
    ensures Reachable(s) && AtRest(s) && s.backend == d && s.shards == [[r]]
  {
    FirstIsReachable(d);
    var taken := RecordTaken(FirstState(d), [], r);
    assert [] + [r] == [r];
    s := RefreshFinishes(taken);
  }

  /** One record is stored and refreshed, and the refresh of a second one is about to begin. */
  lemma {:induction false} SecondIsTaken(d: Dialect, first: Record, second: Record) returns (s: State)
    requires Dated(first) && Dated(second)
    ensures Reachable(s) && s.backend == d && s.shards == [[first, second]] && s.writers == [] && s.rebuild == NoRebuild
    ensures s.phase == DropIdentities({KeyOf(second).minute}) && s.sched.pending == {}
  {
    var done := FirstIsRefreshed(d, first);
    assert [first] + [second] == [first, second];
    s := RecordTaken(done, [first], second);
  }

  /** The rebuild goes up to its last clear. */
  lemma Regrouped(s: State, rs: seq<Record>) returns (s': State)
    requires Reachable(s) && s.rebuild == NoRebuild && s.shards == [rs]
    ensures Reachable(s') && s' == s.(detailed := Upsert(map[], SqlRows(s.backend, rs)), applied := rs, tables := s'.tables,
                                      rebuild := ClearTable(0, Again), sound := s'.sound)
  {
    var cleared := Cleared(s);
    var grouped := RebuildAdvances(cleared);
    assert [] + rs == rs;
    s' := RebuildAdvances(grouped);
  }

  lemma {:induction false} Cleared(s: State) returns (s': State)
    requires Reachable(s) && s.rebuild == NoRebuild
    ensures Reachable(s') && s' == s.(detailed := map[], applied := [], tables := s'.tables, rebuild := GroupShards(0), sound := s'.sound)
  {
    ReachNext(s, DeleteRaw(s.shards, false));
    var s1 := RebuildAdvances(Next(s, DeleteRaw(s.shards, false)));
    var s2 := RebuildAdvances(s1);
    var s3 := RebuildAdvances(s2);
    s' := RebuildAdvances(s3);
  }

  lemma TwoMinutes(d: Dialect, a: Record, b: Record)
    requires Normal(d, a) && Normal(d, b)
    ensures MinutesOf(Upsert(map[], SqlRows(d, [a, b]))) == {KeyOf(a).minute, KeyOf(b).minute}
  {
    RowsAgreeIff(d, [a, b]);
    TwoKeys(a, b);
    MinutesOfTwo(Upsert(map[], SqlRows(d, [a, b])), KeyOf(a), KeyOf(b));
  }

  lemma {:induction false} TwoKeys(a: Record, b: Record)
    requires a.loggedAt != ZERO_TIME && b.loggedAt != ZERO_TIME
    ensures Aggregate([a, b]).Keys == {KeyOf(a), KeyOf(b)}
  {
    AggregateIsGrouping([a, b]);
    assert Keys(FromRecord, [a, b]) == {KeyOf(a), KeyOf(b)};
  }

  lemma MinutesOfTwo(t: Table, a: Key, b: Key)
    requires t.Keys == {a, b}
    ensures MinutesOf(t) == {a.minute, b.minute}
  {
  }

  lemma OneChunk(minutes: set<int>)
    requires 0 < |minutes| <= CHUNK_SIZE
    ensures Chunking([minutes], minutes)
  {
    CoveredNext([minutes]);
    assert Covered([]) == {};
  }
}
