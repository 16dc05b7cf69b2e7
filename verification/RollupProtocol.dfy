/** The access-log pipeline as a state machine. Writers insert raw records, upsert their rollup rows
    and enqueue the minutes, or enqueue first and commit both at the end of a transaction; timers
    fire; one refresh drops and rewrites the derived tables; one rebuild follows a deletion of
    records. A step is one SQL statement, one commit or one critical section, and every
    interleaving is allowed. */
module RollupProtocol {
  import opened Wrappers
  import opened Sums
  import opened SqlDialect
  import opened AccessLog
  import opened DerivedRollups
  import opened RollupQueries
  import opened RefreshQueue
  import opened RefreshStatements
  import opened RebuildStatements

  /** A call to insert records, between its first and last step. */
  datatype Writer =
    | Inserted(records: seq<Record>)
    | Upserted(minutes: set<int>)
    | InTransaction(records: seq<Record>)

  /** `applied` and `sound` are history that no step looks at: the records added to the detailed table
      since it was last cleared, and whether nothing has happened since then that calls for another
      rebuild. */
  datatype State = State(
    backend: Dialect,
    shards: seq<seq<Record>>,
    detailed: Table,
    tables: Tables,
    sched: Sched,
    phase: Phase,
    rebuild: Rebuild,
    writers: seq<Writer>,
    applied: seq<Record>,
    sound: bool)

  datatype Event =
    | InsertRaw(records: seq<Record>, shards: seq<seq<Record>>)
    | UpsertRows(writer: nat)
    | EnqueueMinutes(writer: nat)
    | EnqueueFirst(records: seq<Record>)
    | Commit(writer: nat, shards: seq<seq<Record>>)
    | Rollback(writer: nat)
    | TimerFires
    | CallbackTakes
    | FlushTakes
    | RefreshStatement
    | RefreshFails(left: Tables)
    | DeleteRaw(shards: seq<seq<Record>>, all: bool)
    | RebuildStatement(chunks: seq<set<int>>)
    | RebuildFails(detailed: Table, left: Tables)

  ghost predicate Init(s: State)
  {
    && Flatten(s.shards) == [] && s.detailed == map[] && s.tables == NO_TABLES
    && s.sched == EMPTY && s.phase == NoRefresh && s.rebuild == NoRebuild
    && s.writers == [] && s.applied == [] && s.sound
  }

  function Without(ws: seq<Writer>, i: nat): seq<Writer>
    requires i < |ws|
  {
    ws[..i] + ws[i + 1..]
  }

  /** A record whose minute the scheduler takes for a time. */
  predicate Dated(r: Record)
  {
    MinuteOf(r.loggedAt) != ZERO_TIME
  }

  predicate AllDated(rs: seq<Record>)
  {
    forall r :: r in rs ==> Dated(r)
  }

  ghost function Bag(shards: seq<seq<Record>>): multiset<Record>
  {
    multiset(Flatten(shards))
  }

  // ----- the rebuild -----

  /** The shards that the rebuild has still to group. */
  function Ungrouped(r: Rebuild, shards: seq<seq<Record>>): seq<seq<Record>>
  {
    match r
    case ClearTable(_, First) => shards
    case GroupShards(next) => if next <= |shards| then shards[next..] else []
    case _ => []
  }

  /** The rebuild has come to the clear after which it refills the derived tables. */
  predicate Refilling(r: Rebuild)
  {
    (r.ClearTable? && r.clear != First) || r.PluckMinutes? || r.RefreshChunks?
  }

  /** When the detailed table is cleared, records still to be upserted would count twice, and records
      must be ones that both rollup paths agree on. Deleting all logs groups nothing afterwards. */
  ghost predicate MayClear(s: State, all: bool)
  {
    && Unapplied(s.writers) == multiset{} && AllNormal(s.backend, Flatten(s.shards))
    && (all ==> Flatten(s.shards) == [] && s.phase == NoRefresh)
  }

  ghost function NextRebuild(s: State, chunks: seq<set<int>>): State
    requires s.rebuild != NoRebuild
  {
    match s.rebuild
    case ClearDetailed(all) =>
      s.(detailed := map[], applied := [], rebuild := ClearTable(0, if all then Only else First), sound := MayClear(s, all))
    case ClearTable(table, clear) =>
      s.(tables := WithoutRows(s.tables, table), rebuild := AfterClear(table, clear))
    case GroupShards(next) =>
      if next >= |s.shards| then s.(rebuild := ClearTable(0, Again), sound := s.sound && s.phase == NoRefresh)
      else s.(detailed := Upsert(s.detailed, SqlRows(s.backend, s.shards[next])),
              applied := s.applied + s.shards[next],
              rebuild := GroupShards(next + 1))
    case PluckMinutes => s.(rebuild := RefreshChunks(NoRefresh, chunks))
    case RefreshChunks(q, rest) =>
      if q == NoRefresh then s.(rebuild := NextChunk(rest))
      else if Conflicts(q, s.tables) then s.(rebuild := NoRebuild, sound := false)
      else s.(tables := StepTables(q, s.tables), rebuild := RefreshChunks(StepPhase(q, s.detailed), rest))
  }

  // ----- the other steps -----

  /** One statement of the refresh. One that fails returns the batch. */
  ghost function NextStatement(s: State): State
    requires s.phase != NoRefresh
  {
    if Conflicts(s.phase, s.tables) then s.(sched := Finished(s.sched, s.phase.batch, true), phase := NoRefresh)
    else if s.phase.Finishing? then s.(sched := Finished(s.sched, s.phase.batch, false), phase := NoRefresh)
    else s.(tables := StepTables(s.phase, s.tables), phase := StepPhase(s.phase, s.detailed))
  }

  /** A refresh that starts while the derived tables are being refilled disturbs the rebuild. */
  ghost function AfterTake(s: State, sched: Sched): State
  {
    s.(sched := Taken(sched),
       phase := if CanTake(sched) then DropIdentities(TakenBatch(sched)) else s.phase,
       sound := s.sound && !(CanTake(sched) && Refilling(s.rebuild)))
  }

  /** New records go where they are counted once, and have minutes that can be announced. */
  ghost predicate CountedOnce(s: State, records: seq<Record>, shards: seq<seq<Record>>)
  {
    AllDated(records) && Bag(Ungrouped(s.rebuild, shards)) == Bag(Ungrouped(s.rebuild, s.shards))
  }

  /** A commit comes before the announcement has been used up: the minute is still waiting, or the
      refresh that took it has not yet read it, or will fail. */
  ghost predicate InTime(s: State, m: int)
  {
    || !Settled(s, m)
    || (s.rebuild == NoRebuild && m in BatchOf(s.phase) && (Rank(s.phase) <= 4 || Conflicts(s.phase, s.tables)))
    || (s.rebuild != NoRebuild && !Refilling(s.rebuild))
  }

  ghost function AfterCommit(s: State, w: nat, shards: seq<seq<Record>>): State
    requires w < |s.writers| && s.writers[w].InTransaction?
  {
    var records := s.writers[w].records;
    var rows := Aggregate(records);
    s.(shards := shards,
       detailed := Upsert(s.detailed, rows),
       applied := s.applied + records,
       writers := Without(s.writers, w),
       sound := s.sound && CountedOnce(s, records, shards) && forall m :: m in MinutesOf(rows) ==> InTime(s, m))
  }

  ghost predicate Adds(s: State, records: seq<Record>, shards: seq<seq<Record>>)
  {
    |shards| == |s.shards| && Bag(shards) == Bag(s.shards) + multiset(records)
  }

  ghost predicate Enabled(s: State, e: Event)
  {
    match e
    case InsertRaw(records, shards) => Adds(s, records, shards)
    case UpsertRows(w) => w < |s.writers| && s.writers[w].Inserted?
    case EnqueueMinutes(w) => w < |s.writers| && s.writers[w].Upserted?
    case EnqueueFirst(_) => true
    case Commit(w, shards) => w < |s.writers| && s.writers[w].InTransaction? && Adds(s, s.writers[w].records, shards)
    case Rollback(w) => w < |s.writers| && s.writers[w].InTransaction?
    case TimerFires => s.sched.scheduled
    case CallbackTakes => s.sched.callbacks > 0
    case FlushTakes => true
    case RefreshStatement => s.phase != NoRefresh
    case RefreshFails(left) => s.phase != NoRefresh && SameOutside(s.tables, left, s.phase.batch)
    case DeleteRaw(shards, all) =>
      && s.rebuild in {NoRebuild, ClearDetailed(all)}
      && |shards| == |s.shards| && Bag(shards) <= Bag(s.shards)
    case RebuildStatement(chunks) =>
      s.rebuild != NoRebuild && (s.rebuild.PluckMinutes? ==> Chunking(chunks, MinutesOf(s.detailed)))
    case RebuildFails(_, _) => s.rebuild != NoRebuild
  }

  ghost function Next(s: State, e: Event): State
    requires Enabled(s, e)
  {
    match e
    case InsertRaw(records, shards) =>
      s.(shards := shards, writers := s.writers + [Inserted(records)], sound := s.sound && CountedOnce(s, records, shards))
    case UpsertRows(w) =>
      var rows := Aggregate(s.writers[w].records);
      s.(detailed := Upsert(s.detailed, rows),
         writers := s.writers[w := Upserted(MinutesOf(rows))],
         applied := s.applied + s.writers[w].records)
    case EnqueueMinutes(w) =>
      s.(sched := Enqueued(s.sched, s.writers[w].minutes), writers := Without(s.writers, w))
    case EnqueueFirst(records) =>
      s.(sched := Enqueued(s.sched, MinutesOf(Aggregate(records))), writers := s.writers + [InTransaction(records)])
    case Commit(w, shards) => AfterCommit(s, w, shards)
    case Rollback(w) => s.(writers := Without(s.writers, w))
    case TimerFires => s.(sched := Fired(s.sched))
    case CallbackTakes => AfterTake(s, s.sched.(callbacks := s.sched.callbacks - 1))
    case FlushTakes => AfterTake(s, s.sched)
    case RefreshStatement => NextStatement(s)
    case RefreshFails(left) =>
      s.(tables := left, sched := Finished(s.sched, s.phase.batch, true), phase := NoRefresh)
    case DeleteRaw(shards, all) => s.(shards := shards, rebuild := ClearDetailed(all))
    case RebuildStatement(chunks) => NextRebuild(s, chunks)
    case RebuildFails(detailed, left) => s.(detailed := detailed, tables := left, rebuild := NoRebuild, sound := false)
  }

  // ----- the invariant -----

  /** Records inserted whose rows are still to be upserted. */
  ghost function Unapplied(ws: seq<Writer>): multiset<Record>
  {
    if ws == [] then multiset{} else Unapplied(ws[..|ws| - 1]) + UnappliedBy(ws[|ws| - 1])
  }

  ghost function UnappliedBy(w: Writer): multiset<Record>
  {
    if w.Inserted? then multiset(w.records) else multiset{}
  }

  /** Minutes upserted whose writer has yet to enqueue them. */
  ghost predicate Dirty(ws: seq<Writer>, m: int)
  {
    exists i :: 0 <= i < |ws| && ws[i].Upserted? && m in Announced(ws[i].minutes)
  }

  ghost predicate WriterOk(w: Writer)
  {
    w.Inserted? ==> AllDated(w.records)
  }

  /** The detailed table counts what is stored, except what a writer or the rebuild will add. */
  ghost predicate RecordsOk(s: State)
  {
    && AllTimed(Flatten(s.shards))
    && (forall i :: 0 <= i < |s.writers| ==> WriterOk(s.writers[i]))
    && s.detailed == Aggregate(s.applied)
    && AllNormal(s.backend, Flatten(Ungrouped(s.rebuild, s.shards)))
    && Bag(s.shards) == multiset(s.applied) + Unapplied(s.writers) + Bag(Ungrouped(s.rebuild, s.shards))
  }

  /** A minute nobody is about to announce, and that does not wait. */
  ghost predicate Settled(s: State, m: int)
  {
    m !in s.sched.pending && !Dirty(s.writers, m)
  }

  /** Every minute whose derived rows are out of date is pending, in the batch in flight,
      or owned by a writer between upsert and enqueue. */
  ghost predicate StaleIsOwned(s: State)
  {
    forall m :: m !in BatchOf(s.phase) && Settled(s, m) ==> Fresh(s.detailed, s.tables, m)
  }

  /** The refresh in flight is bound to fail, or will make the settled minutes of its batch fresh. */
  ghost predicate Progress(s: State)
  {
    Conflicts(s.phase, s.tables) || forall m :: m in BatchOf(s.phase) && Settled(s, m) ==> WillBeFresh(s, s.phase, m)
  }

  ghost predicate WillBeFresh(s: State, p: Phase, m: int)
  {
    Fresh(s.detailed, Remaining(p, s.detailed, s.tables), m)
  }

  /** While chunks are refreshed: no bucket row stands in the way of the next insert, and the chunk in
      hand will leave every settled minute fresh that is not in a later chunk. */
  ghost predicate ChunksOwned(s: State, q: Phase, rest: seq<set<int>>)
  {
    && RowsInBatch(q)
    && (4 <= Rank(q) <= 5 ==> forall m :: m in q.batch ==> m !in s.tables.buckets)
    && forall m :: Settled(s, m) && m !in Covered(rest) ==> WillBeFresh(s, q, m)
  }

  ghost predicate ClearedUpTo(tables: Tables, n: nat)
  {
    && (n > 0 ==> tables.identities == {})
    && (n > 1 ==> tables.filterIdentities == {})
    && (n > 2 ==> tables.buckets == map[])
  }

  /** What the derived tables hold, or will hold when the rebuild is done. */
  ghost predicate DerivedOk(s: State)
  {
    match s.rebuild
    case NoRebuild => StaleIsOwned(s) && Progress(s)
    case ClearDetailed(_) => true
    case ClearTable(table, clear) =>
      && table <= 2
      && (clear != First ==> s.phase == NoRefresh && ClearedUpTo(s.tables, table))
      && (clear == Only ==> forall m :: m in MinutesOf(s.detailed) ==> !Settled(s, m))
    case GroupShards(next) => next <= |s.shards|
    case PluckMinutes => s.phase == NoRefresh && s.tables == NO_TABLES
    case RefreshChunks(q, rest) => s.phase == NoRefresh && ChunksOwned(s, q, rest)
  }

  ghost predicate QueueOk(s: State)
  {
    && SchedOk(s.sched) && (s.sched.running <==> s.phase != NoRefresh)
    && RowsInBatch(s.phase) && ZERO_TIME !in BatchOf(s.phase)
  }

  ghost predicate Inv(s: State)
  {
    QueueOk(s) && (s.sound && !s.rebuild.ClearDetailed? ==> RecordsOk(s) && DerivedOk(s))
  }

  // ----- every step -----

  /** Every step keeps the invariant. */
  lemma StepKeepsInv(s: State, e: Event)
    requires Inv(s) && Enabled(s, e)
    ensures Inv(Next(s, e))
  {
    QueueIsKept(s, e);
    var s' := Next(s, e);
    if s'.sound && !s'.rebuild.ClearDetailed? {
      match e
      case InsertRaw(_, _) => InsertKeepsInv(s, e);
      case UpsertRows(_) => UpsertKeepsInv(s, e);
      case EnqueueMinutes(_) => EnqueueKeepsInv(s, e);
      case EnqueueFirst(_) => EnqueueFirstKeepsInv(s, e);
      case Commit(_, _) => CommitKeepsInv(s, e);
      case Rollback(_) => RollbackKeepsInv(s, e);
      case TimerFires => UnchangedTables(s, s');
      case CallbackTakes => TakeKeepsInv(s, s.sched.(callbacks := s.sched.callbacks - 1));
      case FlushTakes => TakeKeepsInv(s, s.sched);
      case RefreshStatement => StatementKeepsInv(s);
      case RefreshFails(_) => FailureKeepsInv(s, e);
      case RebuildStatement(chunks) => RebuildKeepsInv(s, chunks);
    }
  }

  lemma {:induction false} QueueIsKept(s: State, e: Event)
    requires QueueOk(s) && Enabled(s, e)
    ensures QueueOk(Next(s, e))
  {
    SchedulingIsKept(s.sched, {}, false);
    match e
    case EnqueueMinutes(w) => SchedulingIsKept(s.sched, s.writers[w].minutes, false);
    case EnqueueFirst(records) => SchedulingIsKept(s.sched, MinutesOf(Aggregate(records)), false);
    case RefreshStatement => StatementKeepsQueue(s);
    case RefreshFails(_) => SchedulingIsKept(s.sched, s.phase.batch, true);
    case _ =>
  }

  lemma StatementKeepsQueue(s: State)
    requires QueueOk(s) && s.phase != NoRefresh
    ensures QueueOk(NextStatement(s))
  {
    SchedulingIsKept(s.sched, s.phase.batch, Conflicts(s.phase, s.tables));
    StepKeepsRows(s.phase, s.detailed);
  }

  /** A step that leaves records, rows and tables alone, and settles nothing. */
  lemma UnchangedTables(s: State, s': State)
    requires s'.detailed == s.detailed && s'.tables == s.tables && s'.phase == s.phase && s'.rebuild == s.rebuild
    requires |s'.shards| == |s.shards|
    requires forall m :: Settled(s', m) ==> Settled(s, m)
    requires DerivedOk(s)
    ensures DerivedOk(s')
  {
    forall p, m | WillBeFresh(s, p, m)
      ensures WillBeFresh(s', p, m)
    {
    }
  }

  // ----- timers and takes -----

  lemma TakeKeepsInv(s: State, sched: Sched)
    requires RecordsOk(s) && DerivedOk(s) && (s.sched.running <==> s.phase != NoRefresh)
    requires sched.pending == s.sched.pending && sched.running == s.sched.running && AfterTake(s, sched).sound
    ensures RecordsOk(AfterTake(s, sched)) && DerivedOk(AfterTake(s, sched))
  {
    var s' := AfterTake(s, sched);
    if !CanTake(sched) {
      UnchangedTables(s, s');
    } else if s.rebuild == NoRebuild {
      forall m | m !in BatchOf(s'.phase) && Settled(s', m)
        ensures Fresh(s'.detailed, s'.tables, m)
      {
        assert Settled(s, m);
      }
      forall m | m in BatchOf(s'.phase)
        ensures WillBeFresh(s', s'.phase, m)
      {
        WholeRefreshIsFresh(s'.phase.batch, s.detailed, s.tables, m);
      }
    }
  }

  // ----- the refresh -----

  lemma StatementKeepsInv(s: State)
    requires RecordsOk(s) && DerivedOk(s) && s.phase != NoRefresh && RowsInBatch(s.phase) && ZERO_TIME !in s.phase.batch
    ensures RecordsOk(NextStatement(s)) && DerivedOk(NextStatement(s))
  {
    if s.rebuild == NoRebuild {
      if Conflicts(s.phase, s.tables) {
        ReturnedBatch(s, s.tables);
      } else if s.phase.Finishing? {
        LastStatement(s);
      } else {
        MiddleStatement(s);
      }
    }
  }

  lemma MiddleStatement(s: State)
    requires StaleIsOwned(s) && Progress(s) && RowsInBatch(s.phase)
    requires s.phase != NoRefresh && !Conflicts(s.phase, s.tables) && !s.phase.Finishing?
    ensures StaleIsOwned(NextStatement(s)) && Progress(NextStatement(s))
  {
    var s' := NextStatement(s);
    StepKeepsRemaining(s.phase, s.detailed, s.tables);
    forall m | Settled(s', m)
      ensures m !in BatchOf(s'.phase) ==> Fresh(s'.detailed, s'.tables, m)
      ensures m in BatchOf(s'.phase) ==> WillBeFresh(s', s'.phase, m)
    {
      assert Settled(s, m);
      if m in BatchOf(s'.phase) {
        assert WillBeFresh(s, s.phase, m);
      } else {
        StepIsLocal(s.phase, s.tables, m);
      }
    }
  }

  lemma LastStatement(s: State)
    requires StaleIsOwned(s) && Progress(s) && s.phase.Finishing?
    ensures StaleIsOwned(NextStatement(s)) && Progress(NextStatement(s))
  {
    var s' := NextStatement(s);
    forall m | Settled(s', m)
      ensures Fresh(s'.detailed, s'.tables, m)
    {
      assert Settled(s, m);
      if m in s.phase.batch {
        assert WillBeFresh(s, s.phase, m);
      }
    }
  }

  /** A failed refresh leaves its batch pending, whatever it did to the batch's rows. */
  lemma ReturnedBatch(s: State, left: Tables)
    requires StaleIsOwned(s) && s.phase != NoRefresh && SameOutside(s.tables, left, s.phase.batch) && ZERO_TIME !in s.phase.batch
    ensures var s' := s.(tables := left, sched := Finished(s.sched, s.phase.batch, true), phase := NoRefresh);
            StaleIsOwned(s') && Progress(s')
  {
    var s' := s.(tables := left, sched := Finished(s.sched, s.phase.batch, true), phase := NoRefresh);
    forall m | Settled(s', m)
      ensures Fresh(s'.detailed, s'.tables, m)
    {
      assert m !in s.phase.batch && Settled(s, m);
      assert SameAt(s.tables, left, m);
    }
  }

  lemma FailureKeepsInv(s: State, e: Event)
    requires RecordsOk(s) && DerivedOk(s) && e.RefreshFails? && Enabled(s, e) && ZERO_TIME !in s.phase.batch
    ensures RecordsOk(Next(s, e)) && DerivedOk(Next(s, e))
  {
    if s.rebuild == NoRebuild {
      ReturnedBatch(s, e.left);
    }
  }

  // ----- the rebuild -----

  lemma RebuildKeepsInv(s: State, chunks: seq<set<int>>)
    requires s.rebuild != NoRebuild && NextRebuild(s, chunks).sound
    requires s.sound && !s.rebuild.ClearDetailed? ==> RecordsOk(s) && DerivedOk(s)
    requires s.rebuild.PluckMinutes? ==> Chunking(chunks, MinutesOf(s.detailed))
    ensures RecordsOk(NextRebuild(s, chunks)) && DerivedOk(NextRebuild(s, chunks))
  {
    var s' := NextRebuild(s, chunks);
    match s.rebuild
    case ClearDetailed(all) => ClearKeepsInv(s, all, s');
    case ClearTable(table, clear) => ClearTableKeepsInv(s, table, clear, s');
    case GroupShards(next) => GroupKeepsInv(s, next, s');
    case PluckMinutes => PluckKeepsInv(s, chunks, s');
    case RefreshChunks(q, rest) => ChunkKeepsInv(s, q, rest, s');
  }

  lemma {:induction false} ClearKeepsInv(s: State, all: bool, s': State)
    requires MayClear(s, all) && s' == s.(detailed := map[], applied := [], rebuild := ClearTable(0, if all then Only else First), sound := true)
    ensures RecordsOk(s') && DerivedOk(s')
  {
    forall i | 0 <= i < |s.writers|
      ensures WriterOk(s.writers[i])
    {
      NothingUnapplied(s.writers, i);
    }
    assert Flatten<Record>([]) == [];
    assert MinutesOf(map[]) == {};
  }

  lemma {:induction false} NothingUnapplied(ws: seq<Writer>, i: nat)
    requires i < |ws| && Unapplied(ws) == multiset{}
    ensures UnappliedBy(ws[i]) == multiset{}
    decreases |ws|
  {
    var n := |ws| - 1;
    assert |Unapplied(ws)| == |Unapplied(ws[..n])| + |UnappliedBy(ws[n])|;
    if i < n {
      NothingUnapplied(ws[..n], i);
    }
  }

  lemma ClearTableKeepsInv(s: State, table: nat, clear: Clear, s': State)
    requires s.rebuild == ClearTable(table, clear) && RecordsOk(s) && DerivedOk(s)
    requires s' == s.(tables := WithoutRows(s.tables, table), rebuild := AfterClear(table, clear))
    ensures RecordsOk(s') && DerivedOk(s')
  {
    SameUngrouped(table, clear, s.shards);
    assert RecordsOk(s');
    ClearTableKeepsDerived(s, table, clear, s');
  }

  lemma SameUngrouped(table: nat, clear: Clear, shards: seq<seq<Record>>)
    requires table <= 2
    ensures Ungrouped(AfterClear(table, clear), shards) == Ungrouped(ClearTable(table, clear), shards)
  {
    assert shards[0..] == shards;
  }

  lemma ClearTableKeepsDerived(s: State, table: nat, clear: Clear, s': State)
    requires s.rebuild == ClearTable(table, clear) && DerivedOk(s)
    requires s' == s.(tables := WithoutRows(s.tables, table), rebuild := AfterClear(table, clear))
    ensures DerivedOk(s')
  {
    if s'.rebuild == NoRebuild {
      AllCleared(s, s');
    } else if s'.rebuild.ClearTable? {
      assert forall m :: Settled(s', m) <==> Settled(s, m);
    }
  }

  /** After all logs are deleted, only minutes that somebody will refresh have rows. */
  lemma AllCleared(s: State, s': State)
    requires s'.tables == NO_TABLES && s'.phase == NoRefresh && s'.detailed == s.detailed
    requires s'.sched == s.sched && s'.writers == s.writers
    requires forall m :: m in MinutesOf(s.detailed) ==> !Settled(s, m)
    ensures StaleIsOwned(s') && Progress(s')
  {
    forall m | Settled(s', m)
      ensures Fresh(s'.detailed, s'.tables, m)
    {
      assert Settled(s, m);
      EmptyIsFresh(s.detailed, m);
    }
  }

  lemma {:induction false} GroupKeepsInv(s: State, next: nat, s': State)
    requires s.rebuild == GroupShards(next) && RecordsOk(s) && DerivedOk(s)
    requires s' == NextRebuild(s, []) && s'.sound
    ensures RecordsOk(s') && DerivedOk(s')
  {
    if next < |s.shards| {
      GroupOneKeepsInv(s, next, s');
    } else {
      GroupsDone(s, next, s');
    }
  }

  /** With every shard grouped, nothing is left to be added. */
  lemma {:induction false} GroupsDone(s: State, next: nat, s': State)
    requires s.rebuild == GroupShards(next) && |s.shards| <= next && RecordsOk(s) && DerivedOk(s) && s.phase == NoRefresh
    requires s' == s.(rebuild := ClearTable(0, Again), sound := s'.sound)
    ensures RecordsOk(s') && DerivedOk(s')
  {
    assert Ungrouped(s.rebuild, s.shards) == Ungrouped(s'.rebuild, s.shards) == [];
  }

  lemma GroupOneKeepsInv(s: State, next: nat, s': State)
    requires s.rebuild == GroupShards(next) && next < |s.shards| && RecordsOk(s)
    requires s' == s.(detailed := Upsert(s.detailed, SqlRows(s.backend, s.shards[next])), applied := s.applied + s.shards[next],
                      rebuild := GroupShards(next + 1))
    ensures RecordsOk(s') && DerivedOk(s')
  {
    ShardIsAdded(s.backend, s.shards, next, s.applied, Unapplied(s.writers));
  }

  /** The rows of the next shard move it from the ungrouped to the applied records. */
  lemma ShardIsAdded(d: Dialect, shards: seq<seq<Record>>, next: nat, applied: seq<Record>, unapplied: multiset<Record>)
    requires next < |shards| && AllNormal(d, Flatten(shards[next..]))
    ensures AllNormal(d, Flatten(shards[next + 1..]))
    ensures Upsert(Aggregate(applied), SqlRows(d, shards[next])) == Aggregate(applied + shards[next])
    ensures multiset(applied) + unapplied + Bag(shards[next..]) == multiset(applied + shards[next]) + unapplied + Bag(shards[next + 1..])
  {
    var shard, rest := shards[next], shards[next + 1..];
    assert shards[next..] == [shard] + rest;
    FlattenConcat([shard], rest);
    FlattenOne(shard);
    assert forall r :: r in shard || r in Flatten(rest) ==> r in Flatten(shards[next..]);
    RowsAgreeIff(d, shard);
    AggregateConcat(applied, shard);
    GroupMoves(multiset(applied), unapplied, multiset(shard), Bag(rest));
  }

  lemma GroupMoves<T>(a: multiset<T>, u: multiset<T>, g: multiset<T>, rest: multiset<T>)
    ensures a + u + (g + rest) == (a + g) + u + rest
  {
  }

  lemma PluckKeepsInv(s: State, chunks: seq<set<int>>, s': State)
    requires s.rebuild == PluckMinutes && RecordsOk(s) && DerivedOk(s) && Chunking(chunks, MinutesOf(s.detailed))
    requires s' == s.(rebuild := RefreshChunks(NoRefresh, chunks))
    ensures RecordsOk(s') && DerivedOk(s')
  {
    forall m | m !in Covered(chunks)
      ensures WillBeFresh(s', NoRefresh, m)
    {
      EmptyIsFresh(s.detailed, m);
    }
  }

  lemma ChunkKeepsInv(s: State, q: Phase, rest: seq<set<int>>, s': State)
    requires s.rebuild == RefreshChunks(q, rest) && RecordsOk(s) && DerivedOk(s)
    requires s' == NextRebuild(s, []) && s'.sound
    ensures RecordsOk(s') && DerivedOk(s')
  {
    if q == NoRefresh {
      NextChunkKeepsInv(s, rest, s');
    } else {
      ChunkStatementKeepsInv(s, q, rest, s');
    }
  }

  lemma ChunkStatementKeepsInv(s: State, q: Phase, rest: seq<set<int>>, s': State)
    requires ChunksOwned(s, q, rest) && q != NoRefresh
    requires s' == s.(tables := StepTables(q, s.tables), rebuild := RefreshChunks(StepPhase(q, s.detailed), rest))
    ensures ChunksOwned(s', StepPhase(q, s.detailed), rest)
  {
    StepKeepsRows(q, s.detailed);
    StepKeepsRemaining(q, s.detailed, s.tables);
    forall m | Settled(s', m) && m !in Covered(rest)
      ensures WillBeFresh(s', StepPhase(q, s.detailed), m)
    {
      assert Settled(s, m) && WillBeFresh(s, q, m);
    }
  }

  lemma NextChunkKeepsInv(s: State, rest: seq<set<int>>, s': State)
    requires s.rebuild == RefreshChunks(NoRefresh, rest) && DerivedOk(s)
    requires s' == s.(rebuild := NextChunk(rest))
    ensures DerivedOk(s')
  {
    if rest != [] {
      CoveredNext(rest);
    }
    forall m | Settled(s', m)
      ensures rest == [] ==> Fresh(s'.detailed, s'.tables, m)
      ensures rest != [] && m !in Covered(rest[1..]) ==> WillBeFresh(s', DropIdentities(rest[0]), m)
    {
      assert Settled(s, m);
      if rest != [] && m in rest[0] {
        WholeRefreshIsFresh(rest[0], s.detailed, s.tables, m);
      } else if m !in Covered(rest) {
        assert WillBeFresh(s, NoRefresh, m);
        if rest != [] {
          RemainingOutside(DropIdentities(rest[0]), s.detailed, s.tables, m);
          FreshSame(s.detailed, s.tables, Remaining(DropIdentities(rest[0]), s.detailed, s.tables), m);
        }
      }
    }
  }

  /** Without a disturbance the rebuild's insert never fails. */
  lemma SoundRebuildNeverClashes(s: State)
    requires Inv(s) && s.sound && s.rebuild.RefreshChunks?
    ensures !Conflicts(s.rebuild.chunk, s.tables)
  {
  }

  // ----- writers -----

  lemma InsertKeepsInv(s: State, e: Event)
    requires RecordsOk(s) && DerivedOk(s) && e.InsertRaw? && Enabled(s, e) && Next(s, e).sound
    ensures RecordsOk(Next(s, e)) && DerivedOk(Next(s, e))
  {
    var s' := Next(s, e);
    InsertKeepsRecords(s, e);
    forall m
      ensures Dirty(s'.writers, m) <==> Dirty(s.writers, m)
    {
      DirtyAppend(s.writers, Inserted(e.records), m);
    }
    UnchangedTables(s, s');
  }

  lemma SameNormal(d: Dialect, a: seq<Record>, b: seq<Record>)
    requires multiset(a) == multiset(b) && AllNormal(d, b)
    ensures AllNormal(d, a)
  {
    assert forall r :: r in a ==> r in multiset(b);
  }

  lemma TimedAfter(before: seq<Record>, records: seq<Record>, after: seq<Record>)
    requires multiset(after) == multiset(before) + multiset(records) && AllTimed(before) && AllDated(records)
    ensures AllTimed(after)
  {
    forall r | r in after
      ensures r.loggedAt != ZERO_TIME
    {
      assert r in multiset(after) && r in multiset(before) + multiset(records);
      assert r in before || Dated(r);
    }
  }

  lemma InsertKeepsRecords(s: State, e: Event)
    requires RecordsOk(s) && e.InsertRaw? && Enabled(s, e) && Next(s, e).sound
    ensures RecordsOk(Next(s, e))
  {
    var s' := Next(s, e);
    assert s'.writers[..|s.writers|] == s.writers;
    TimedAfter(Flatten(s.shards), e.records, Flatten(s'.shards));
    SameNormal(s.backend, Flatten(Ungrouped(s.rebuild, s'.shards)), Flatten(Ungrouped(s.rebuild, s.shards)));
    AddInside(multiset(s.applied), Unapplied(s.writers), Bag(Ungrouped(s.rebuild, s.shards)), multiset(e.records));
  }

  lemma AddInside<T>(a: multiset<T>, u: multiset<T>, g: multiset<T>, x: multiset<T>)
    ensures a + u + g + x == a + (u + x) + g && a + u + g + x == (a + x) + u + g
  {
  }

  lemma DirtyAppend(ws: seq<Writer>, w: Writer, m: int)
    ensures Dirty(ws + [w], m) <==> Dirty(ws, m) || (w.Upserted? && m in Announced(w.minutes))
  {
    if Dirty(ws, m) {
      var i :| 0 <= i < |ws| && ws[i].Upserted? && m in Announced(ws[i].minutes);
      assert (ws + [w])[i] == ws[i];
    }
    if w.Upserted? && m in Announced(w.minutes) {
      assert (ws + [w])[|ws|] == w;
    }
  }

  lemma DatedMinutes(rs: seq<Record>)
    requires AllDated(rs)
    ensures Announced(MinutesOf(Aggregate(rs))) == MinutesOf(Aggregate(rs))
  {
    AggregateIsGrouping(rs);
  }

  lemma {:induction false} UpsertKeepsRecords(s: State, e: Event)
    requires RecordsOk(s) && e.UpsertRows? && Enabled(s, e)
    ensures RecordsOk(Next(s, e))
  {
    var s' := Next(s, e);
    AggregateConcat(s.applied, s.writers[e.writer].records);
    UpsertMoves(s.applied, s.writers, e.writer, s'.writers[e.writer]);
  }

  lemma DirtyUpdate(ws: seq<Writer>, i: nat, w: Writer, m: int)
    requires i < |ws| && ws[i].Inserted?
    ensures Dirty(ws[i := w], m) <==> Dirty(ws, m) || (w.Upserted? && m in Announced(w.minutes))
  {
    if Dirty(ws, m) {
      var j :| 0 <= j < |ws| && ws[j].Upserted? && m in Announced(ws[j].minutes);
      assert ws[i := w][j] == ws[j];
    }
    if w.Upserted? && m in Announced(w.minutes) {
      assert ws[i := w][i] == w;
    }
  }

  lemma UpsertKeepsInv(s: State, e: Event)
    requires RecordsOk(s) && DerivedOk(s) && e.UpsertRows? && Enabled(s, e)
    ensures RecordsOk(Next(s, e)) && DerivedOk(Next(s, e))
  {
    var s' := Next(s, e);
    var records := s.writers[e.writer].records;
    UpsertKeepsRecords(s, e);
    assert WriterOk(s.writers[e.writer]);
    DatedMinutes(records);
    forall m | Settled(s', m)
      ensures Settled(s, m) && m !in MinutesOf(Aggregate(records))
    {
      DirtyUpdate(s.writers, e.writer, Upserted(MinutesOf(Aggregate(records))), m);
    }
    UpsertedTables(s, Aggregate(records), s');
  }

  /** A step that adds rows for minutes that are not settled afterwards. */
  lemma UpsertedTables(s: State, rows: Table, s': State)
    requires s'.detailed == Upsert(s.detailed, rows) && s'.tables == s.tables && s'.phase == s.phase && s'.rebuild == s.rebuild
    requires |s'.shards| == |s.shards|
    requires forall m :: Settled(s', m) ==> Settled(s, m) && m !in MinutesOf(rows)
    requires DerivedOk(s)
    ensures DerivedOk(s')
  {
    forall m | Settled(s', m)
      ensures Fresh(s.detailed, s.tables, m) ==> Fresh(s'.detailed, s'.tables, m)
      ensures forall p :: WillBeFresh(s, p, m) ==> WillBeFresh(s', p, m)
      ensures m in MinutesOf(s'.detailed) ==> m in MinutesOf(s.detailed)
    {
      UpsertIsLocal(s.detailed, rows, s.tables, m);
      forall p | WillBeFresh(s, p, m)
        ensures WillBeFresh(s', p, m)
      {
        UpsertElsewhere(s.detailed, rows, p, s.tables, m);
      }
    }
  }

  /** Rows for other minutes change nothing at a minute when a refresh is done. */
  lemma UpsertElsewhere(t: Table, rows: Table, p: Phase, tables: Tables, m: int)
    requires m !in MinutesOf(rows)
    ensures Fresh(t, Remaining(p, t, tables), m) <==> Fresh(Upsert(t, rows), Remaining(p, Upsert(t, rows), tables), m)
  {
    var u := Upsert(t, rows);
    var before, after := Remaining(p, t, tables), Remaining(p, u, tables);
    UpsertIsLocal(t, rows, before, m);
    UpsertAgrees(t, rows, m);
    RemainingIsLocal(p, t, u, tables, m);
    FreshSame(u, before, after, m);
  }

  lemma UpsertAgrees(t: Table, rows: Table, m: int)
    requires m !in MinutesOf(rows)
    ensures KeysIn(t, {m}) == KeysIn(Upsert(t, rows), {m})
    ensures forall k :: k in KeysIn(t, {m}) ==> t[k] == Upsert(t, rows)[k]
  {
    assert forall k :: k in rows.Keys ==> k.minute in MinutesOf(rows);
  }

  lemma DirtyWithout(ws: seq<Writer>, i: nat, m: int)
    requires i < |ws|
    ensures Dirty(ws, m) ==> Dirty(Without(ws, i), m) || (ws[i].Upserted? && m in Announced(ws[i].minutes))
    ensures Dirty(Without(ws, i), m) ==> Dirty(ws, m)
  {
    var rest := Without(ws, i);
    if Dirty(ws, m) && !(ws[i].Upserted? && m in Announced(ws[i].minutes)) {
      var j :| 0 <= j < |ws| && ws[j].Upserted? && m in Announced(ws[j].minutes);
      assert rest[if j < i then j else j - 1] == ws[j];
    }
    if Dirty(rest, m) {
      var j :| 0 <= j < |rest| && rest[j].Upserted? && m in Announced(rest[j].minutes);
      assert rest[j] == ws[if j < i then j else j + 1];
    }
  }

  lemma {:induction false} WithoutKeepsRecords(s: State, w: nat, s': State)
    requires RecordsOk(s) && w < |s.writers| && !s.writers[w].Inserted?
    requires s'.shards == s.shards && s'.rebuild == s.rebuild && s'.detailed == s.detailed && s'.applied == s.applied
    requires s'.backend == s.backend && s'.writers == Without(s.writers, w)
    ensures RecordsOk(s')
  {
    UnappliedWithout(s.writers, w);
    OthersStayOk(s.writers, w);
  }

  lemma OthersStayOk(ws: seq<Writer>, w: nat)
    requires w < |ws| && forall i :: 0 <= i < |ws| ==> WriterOk(ws[i])
    ensures forall i :: 0 <= i < |Without(ws, w)| ==> WriterOk(Without(ws, w)[i])
  {
    forall i | 0 <= i < |Without(ws, w)|
      ensures WriterOk(Without(ws, w)[i])
    {
      assert Without(ws, w)[i] == ws[if i < w then i else i + 1];
    }
  }

  lemma EnqueueKeepsInv(s: State, e: Event)
    requires RecordsOk(s) && DerivedOk(s) && e.EnqueueMinutes? && Enabled(s, e)
    ensures RecordsOk(Next(s, e)) && DerivedOk(Next(s, e))
  {
    var s' := Next(s, e);
    WithoutKeepsRecords(s, e.writer, s');
    forall m | Settled(s', m)
      ensures Settled(s, m)
    {
      DirtyWithout(s.writers, e.writer, m);
    }
    UnchangedTables(s, s');
  }

  lemma EnqueueFirstKeepsInv(s: State, e: Event)
    requires RecordsOk(s) && DerivedOk(s) && e.EnqueueFirst?
    ensures RecordsOk(Next(s, e)) && DerivedOk(Next(s, e))
  {
    var s' := Next(s, e);
    InTransactionIsUnseen(s, e.records, s');
    forall m | Settled(s', m)
      ensures Settled(s, m)
    {
      DirtyAppend(s.writers, InTransaction(e.records), m);
    }
    UnchangedTables(s, s');
  }

  lemma InTransactionIsUnseen(s: State, records: seq<Record>, s': State)
    requires RecordsOk(s)
    requires s'.shards == s.shards && s'.rebuild == s.rebuild && s'.detailed == s.detailed && s'.applied == s.applied
    requires s'.backend == s.backend && s'.writers == s.writers + [InTransaction(records)]
    ensures RecordsOk(s')
  {
    UnappliedAppend(s.writers, InTransaction(records));
  }

  lemma RollbackKeepsInv(s: State, e: Event)
    requires RecordsOk(s) && DerivedOk(s) && e.Rollback? && Enabled(s, e)
    ensures RecordsOk(Next(s, e)) && DerivedOk(Next(s, e))
  {
    var s' := Next(s, e);
    WithoutKeepsRecords(s, e.writer, s');
    forall m | Settled(s', m)
      ensures Settled(s, m)
    {
      DirtyWithout(s.writers, e.writer, m);
    }
    UnchangedTables(s, s');
  }

  // ----- commits -----

  lemma CommitKeepsRecords(s: State, w: nat, shards: seq<seq<Record>>)
    requires RecordsOk(s) && w < |s.writers| && s.writers[w].InTransaction? && Adds(s, s.writers[w].records, shards)
    requires AfterCommit(s, w, shards).sound
    ensures RecordsOk(AfterCommit(s, w, shards))
  {
    var s', records := AfterCommit(s, w, shards), s.writers[w].records;
    WithoutKeepsRecords(s, w, s.(writers := s'.writers));
    TimedAfter(Flatten(s.shards), records, Flatten(shards));
    SameNormal(s.backend, Flatten(Ungrouped(s.rebuild, shards)), Flatten(Ungrouped(s.rebuild, s.shards)));
    AggregateConcat(s.applied, records);
    AddInside(multiset(s.applied), Unapplied(s.writers), Bag(Ungrouped(s.rebuild, s.shards)), multiset(records));
    assert multiset(s'.applied) == multiset(s.applied) + multiset(records);
  }

  lemma CommitKeepsInv(s: State, e: Event)
    requires RecordsOk(s) && DerivedOk(s) && e.Commit? && Enabled(s, e) && Next(s, e).sound
    ensures RecordsOk(Next(s, e)) && DerivedOk(Next(s, e))
  {
    var s', rows := Next(s, e), Aggregate(s.writers[e.writer].records);
    CommitKeepsRecords(s, e.writer, e.shards);
    forall m
      ensures Settled(s', m) <==> Settled(s, m)
    {
      DirtyWithout(s.writers, e.writer, m);
    }
    if s.rebuild == NoRebuild {
      CommitInTime(s, rows, s');
    } else if Refilling(s.rebuild) {
      forall m | Settled(s', m)
        ensures m !in MinutesOf(rows)
      {
        assert m in MinutesOf(rows) ==> InTime(s, m);
      }
      UpsertedTables(s, rows, s');
    }
  }

  /** A commit whose minutes still wait, or are still to be read, makes nothing stale. */
  lemma CommitInTime(s: State, rows: Table, s': State)
    requires StaleIsOwned(s) && Progress(s) && s.rebuild == NoRebuild
    requires s'.detailed == Upsert(s.detailed, rows) && s'.tables == s.tables && s'.phase == s.phase
    requires forall m :: Settled(s', m) <==> Settled(s, m)
    requires forall m :: m in MinutesOf(rows) ==> InTime(s, m)
    ensures StaleIsOwned(s') && Progress(s')
  {
    forall m | Settled(s', m)
      ensures m !in BatchOf(s.phase) ==> Fresh(s'.detailed, s'.tables, m)
      ensures m in BatchOf(s.phase) && !Conflicts(s.phase, s.tables) ==> WillBeFresh(s', s.phase, m)
    {
      if m !in MinutesOf(rows) {
        UpsertIsLocal(s.detailed, rows, s.tables, m);
        UpsertElsewhere(s.detailed, rows, s.phase, s.tables, m);
      } else if !Conflicts(s.phase, s.tables) {
        assert InTime(s, m) && WillBeFresh(s, s.phase, m);
        UpsertGrows(s.detailed, rows, m);
        UnreadIsFresh(s.phase, s.detailed, s'.detailed, s.tables, m);
      }
    }
  }

  lemma UpsertGrows(t: Table, rows: Table, m: int)
    ensures IdentityRows(t, {m}) <= IdentityRows(Upsert(t, rows), {m})
    ensures FilterIdentityRows(t, {m}) <= FilterIdentityRows(Upsert(t, rows), {m})
    ensures m in MinutesOf(rows) ==> m in MinutesOf(Upsert(t, rows))
  {
    assert KeysIn(t, {m}) <= KeysIn(Upsert(t, rows), {m});
    if m in MinutesOf(rows) {
      var k :| k in rows.Keys && k.minute == m;
      assert k in Upsert(t, rows).Keys;
    }
  }

  /** A refresh that has read nothing yet will read what has been added. */
  lemma UnreadIsFresh(p: Phase, t: Table, u: Table, tables: Tables, m: int)
    requires 1 <= Rank(p) <= 4 && m in p.batch && m in MinutesOf(u) && Fresh(t, Remaining(p, t, tables), m)
    requires IdentityRows(t, {m}) <= IdentityRows(u, {m}) && FilterIdentityRows(t, {m}) <= FilterIdentityRows(u, {m})
    ensures Fresh(u, Remaining(p, u, tables), m)
  {
    RemainingBucketsAt(p, u, tables.buckets, m);
    UnreadIdentities(p, t, u, tables.identities, m);
    UnreadFilterIdentities(p, t, u, tables.filterIdentities, m);
  }

  lemma UnreadIdentities(p: Phase, t: Table, u: Table, rows: set<Identity>, m: int)
    requires 1 <= Rank(p) <= 4 && m in p.batch && IdentityRows(t, {m}) <= IdentityRows(u, {m})
    requires IdentityFresh(t, RemainingIdentities(p, t, rows), m)
    ensures IdentityFresh(u, RemainingIdentities(p, u, rows), m)
  {
    RemainingIdentitiesAt(p, t, rows, m);
    RemainingIdentitiesAt(p, u, rows, m);
  }

  lemma UnreadFilterIdentities(p: Phase, t: Table, u: Table, rows: set<FilterIdentity>, m: int)
    requires 1 <= Rank(p) <= 4 && m in p.batch && FilterIdentityRows(t, {m}) <= FilterIdentityRows(u, {m})
    requires FilterIdentityFresh(t, RemainingFilterIdentities(p, t, rows), m)
    ensures FilterIdentityFresh(u, RemainingFilterIdentities(p, u, rows), m)
  {
    RemainingFilterIdentitiesAt(p, t, rows, m);
    RemainingFilterIdentitiesAt(p, u, rows, m);
  }

  // ----- records on their way -----

  lemma {:induction false} UnappliedConcat(a: seq<Writer>, b: seq<Writer>)
    ensures Unapplied(a + b) == Unapplied(a) + Unapplied(b)
    decreases |b|
  {
    if b == [] {
      assert a + b == a;
    } else {
      assert (a + b)[..|a + b| - 1] == a + b[..|b| - 1];
      UnappliedConcat(a, b[..|b| - 1]);
    }
  }

  lemma UnappliedAppend(ws: seq<Writer>, w: Writer)
    ensures Unapplied(ws + [w]) == Unapplied(ws) + UnappliedBy(w)
  {
    assert (ws + [w])[..|ws|] == ws;
  }

  lemma UnappliedParts(a: seq<Writer>, w: Writer, b: seq<Writer>)
    ensures Unapplied(a + [w] + b) == Unapplied(a + b) + UnappliedBy(w)
  {
    UnappliedConcat(a + [w], b);
    UnappliedAppend(a, w);
    UnappliedConcat(a, b);
    SwapLast(Unapplied(a), UnappliedBy(w), Unapplied(b));
  }

  /** The records of one writer and those of the others. */
  lemma {:induction false} UnappliedAt(ws: seq<Writer>, i: nat)
    requires i < |ws|
    ensures Unapplied(ws) == Unapplied(Without(ws, i)) + UnappliedBy(ws[i])
  {
    UnappliedParts(ws[..i], ws[i], ws[i + 1..]);
    assert ws == ws[..i] + [ws[i]] + ws[i + 1..];
  }

  lemma SwapLast<T>(a: multiset<T>, x: multiset<T>, b: multiset<T>)
    ensures a + x + b == a + b + x
  {
  }

  lemma {:induction false} UnappliedWithout(ws: seq<Writer>, i: nat)
    requires i < |ws| && !ws[i].Inserted?
    ensures Unapplied(Without(ws, i)) == Unapplied(ws)
  {
    UnappliedAt(ws, i);
  }

  /** The records of an upsert move from the unapplied to the applied. */
  lemma {:induction false} UpsertMoves(applied: seq<Record>, ws: seq<Writer>, i: nat, w: Writer)
    requires i < |ws| && ws[i].Inserted? && !w.Inserted?
    ensures multiset(applied + ws[i].records) + Unapplied(ws[i := w]) == multiset(applied) + Unapplied(ws)
  {
    UnappliedAt(ws, i);
    UnappliedAt(ws[i := w], i);
    assert Without(ws[i := w], i) == Without(ws, i);
    SwapLast(multiset(applied), multiset(ws[i].records), Unapplied(Without(ws, i)));
  }
}
