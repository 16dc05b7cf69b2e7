/** Whole runs of the access-log pipeline: what every state of every run promises to a reader, and
    what a rebuild repairs. */
module RollupRuns {
  import opened Wrappers
  import opened Sums
  import opened SqlDialect
  import opened AccessLog
  import opened DerivedRollups
  import opened RollupQueries
  import opened FoldedBuckets
  import opened RefreshQueue
  import opened RefreshStatements
  import opened RebuildStatements
  import opened RollupProtocol

  /** A run: states joined by enabled events, from an initial state. */
  ghost predicate Run(states: seq<State>, events: seq<Event>)
  {
    && |states| == |events| + 1 && Init(states[0])
    && forall i :: 0 <= i < |events| ==> Enabled(states[i], events[i]) && states[i + 1] == Next(states[i], events[i])
  }

  lemma {:induction false} RunHasInv(states: seq<State>, events: seq<Event>, n: nat)
    requires Run(states, events) && n < |states|
    ensures Inv(states[n])
    decreases n
  {
    if n == 0 {
      InitHasInv(states[0]);
    } else {
      RunHasInv(states, events, n - 1);
      StepKeepsInv(states[n - 1], events[n - 1]);
    }
  }

  lemma InitHasInv(s: State)
    requires Init(s)
    ensures Inv(s)
  {
    assert Flatten<Record>([]) == [] && MinutesOf(map[]) == {};
    forall m
      ensures Fresh(s.detailed, s.tables, m)
    {
      EmptyIsFresh(map[], m);
    }
  }

  /** Nothing calls for a rebuild and none is in flight. */
  predicate Steady(s: State)
  {
    s.sound && s.rebuild == NoRebuild
  }

  /** In every run: in a steady state, once the idle gate passes and no writer is between upsert and
      enqueue, the three derived tables are the derivation of the detailed table. */
  lemma IdleGateMeansDerived(states: seq<State>, events: seq<Event>, n: nat)
    requires Run(states, events) && n < |states| && Steady(states[n])
    requires Idle(states[n].sched) && forall i :: 0 <= i < |states[n].writers| ==> !states[n].writers[i].Upserted?
    ensures states[n].tables == Derive(states[n].detailed)
  {
    RunHasInv(states, events, n);
    forall m
      ensures Fresh(states[n].detailed, states[n].tables, m)
    {
      assert Settled(states[n], m);
    }
    FreshEverywhere(states[n].detailed, states[n].tables);
  }

  /** In every run there is at most one refresh, and pending work is never forgotten: a
      timer is armed or has fired, and letting it run hands the whole pending set to a
      refresh. */
  lemma WakeUpIsNeverLost(states: seq<State>, events: seq<Event>, n: nat)
    requires Run(states, events) && n < |states|
    ensures states[n].sched.running <==> states[n].phase != NoRefresh
    ensures states[n].sched.timer <==> states[n].sched.pending != {} && !states[n].sched.running
    ensures states[n].sched.pending != {} && !states[n].sched.running ==>
              || (Enabled(states[n], CallbackTakes) && Next(states[n], CallbackTakes).phase == DropIdentities(states[n].sched.pending))
              || (Enabled(states[n], TimerFires) && Enabled(Next(states[n], TimerFires), CallbackTakes)
                  && Next(Next(states[n], TimerFires), CallbackTakes).phase == DropIdentities(states[n].sched.pending))
  {
    RunHasInv(states, events, n);
  }

  /** What a query sees in a state. */
  function ViewOf(s: State): Db
  {
    Db(s.shards, s.detailed, s.tables, Idle(s.sched))
  }

  /** Every writer is inside a transaction that nobody sees yet. */
  predicate NobodyHalfway(ws: seq<Writer>)
  {
    forall i :: 0 <= i < |ws| ==> ws[i].InTransaction?
  }

  lemma {:induction false} HalfwayOnly(ws: seq<Writer>)
    requires NobodyHalfway(ws)
    ensures Unapplied(ws) == multiset{}
    decreases |ws|
  {
    if ws != [] {
      HalfwayOnly(ws[..|ws| - 1]);
    }
  }

  lemma QuietStateIsConsistent(states: seq<State>, events: seq<Event>, n: nat)
    requires Run(states, events) && n < |states| && Steady(states[n]) && NobodyHalfway(states[n].writers)
    ensures Consistent(ViewOf(states[n]))
  {
    var s := states[n];
    RunHasInv(states, events, n);
    HalfwayOnly(s.writers);
    assert Flatten<Record>([]) == [];
    assert multiset(s.applied) == Bag(s.shards);
    AggregatePermutation(s.applied, Flatten(s.shards));
    if Idle(s.sched) {
      IdleGateMeansDerived(states, events, n);
    }
  }

  /** In every run, whatever the refresh is doing, a count taken in a steady state with no insertion
      halfway is the raw scan's count. */
  lemma EveryCountIsExact(states: seq<State>, events: seq<Event>, n: nat, q: Query)
    requires Run(states, events) && n < |states| && Steady(states[n]) && NobodyHalfway(states[n].writers)
    requires q.before == None
    ensures CountLogs(states[n].backend, ViewOf(states[n]), q) == RawCount(states[n].backend, states[n].shards, q)
    ensures PlainFilter(states[n].backend, q.filter) ==>
              CountLogs(states[n].backend, ViewOf(states[n]), q) == CountOfWanted(states[n].backend, Flatten(states[n].shards), q)
  {
    QuietStateIsConsistent(states, events, n);
    CountIsPathIndependent(states[n].backend, ViewOf(states[n]), q);
    if PlainFilter(states[n].backend, q.filter) {
      RawCountMeaning(states[n].backend, states[n].shards, q);
    }
  }

  /** The same for folded buckets: a list is the raw one if and only if it starts inside a minute, or
      every record it selects folds with its minute; then their number is right as well. */
  lemma EveryBucketListIsExactIff(states: seq<State>, events: seq<Event>, n: nat, q: Query, foldMinutes: int)
    requires Run(states, events) && n < |states| && Steady(states[n]) && NobodyHalfway(states[n].writers)
    requires q.before == None
    ensures var d, shards := states[n].backend, states[n].shards;
            var raw := RawFold(d, shards, q, StartIn(d, FoldWidth(foldMinutes)));
            var folds := !Aligned(q.since) || AllFold(d, shards, q, FoldWidth(foldMinutes));
            (ListBuckets(d, ViewOf(states[n]), q, foldMinutes) == raw <==> folds)
            && (folds ==> CountBuckets(d, ViewOf(states[n]), q, foldMinutes) == |raw.Keys|)
            && (folds && PlainFilter(d, q.filter) ==>
                  ListsWanted(d, Flatten(shards), q, foldMinutes, ListBuckets(d, ViewOf(states[n]), q, foldMinutes)))
  {
    var d, db := states[n].backend, ViewOf(states[n]);
    QuietStateIsConsistent(states, events, n);
    FoldIsExactIff(d, db, q, foldMinutes);
    if !Aligned(q.since) || AllFold(d, db.shards, q, FoldWidth(foldMinutes)) {
      BucketCountIsExact(d, db, q, foldMinutes);
      if PlainFilter(d, q.filter) {
        RawFoldMeaning(d, db.shards, q, foldMinutes);
      }
    }
  }

  // ----- what a rebuild repairs -----

  /** Steps that do not disturb a rebuild: its own, timers, and writers that insert nothing. */
  predicate Bystander(e: Event)
  {
    e.RebuildStatement? || e.TimerFires? || e.UpsertRows? || e.EnqueueMinutes? || e.EnqueueFirst? || e.Rollback?
  }

  predicate Healing(s: State)
  {
    s.sound && s.phase == NoRefresh && !s.rebuild.ClearDetailed?
  }

  /** From any state of any run, sound or not: a rebuild that starts with no refresh in flight and no
      record on its way, and that only bystanders accompany, leaves the state sound. */
  lemma {:induction false} RebuildHeals(states: seq<State>, events: seq<Event>, i: nat, j: nat)
    requires Run(states, events) && i < j < |states| && events[i].RebuildStatement? && states[i].rebuild.ClearDetailed?
    requires states[i].phase == NoRefresh && MayClear(states[i], states[i].rebuild.all)
    requires forall k :: i <= k < j ==> Bystander(events[k])
    ensures Healing(states[j])
    decreases j
  {
    if j - 1 == i {
      ClearIsSound(states, events, i);
    } else {
      RebuildHeals(states, events, i, j - 1);
      BystanderKeepsSound(states, events, j - 1);
    }
  }

  lemma ClearIsSound(states: seq<State>, events: seq<Event>, n: nat)
    requires Run(states, events) && n < |events| && events[n].RebuildStatement? && states[n].rebuild.ClearDetailed?
    requires states[n].phase == NoRefresh && MayClear(states[n], states[n].rebuild.all)
    ensures Healing(states[n + 1])
  {
  }

  lemma BystanderKeepsSound(states: seq<State>, events: seq<Event>, n: nat)
    requires Run(states, events) && n < |events| && Bystander(events[n]) && Healing(states[n])
    ensures Healing(states[n + 1])
  {
    RunHasInv(states, events, n);
    BystanderStep(states[n], events[n]);
  }

  lemma BystanderStep(s: State, e: Event)
    requires Inv(s) && Enabled(s, e) && Bystander(e) && Healing(s)
    ensures Healing(Next(s, e))
  {
    if s.rebuild.RefreshChunks? {
      SoundRebuildNeverClashes(s);
    }
    match e
    case RebuildStatement(chunks) => RebuildStaysSound(s, chunks);
    case _ =>
  }

  lemma RebuildStaysSound(s: State, chunks: seq<set<int>>)
    requires Healing(s) && s.rebuild != NoRebuild && (s.rebuild.RefreshChunks? ==> !Conflicts(s.rebuild.chunk, s.tables))
    ensures Healing(NextRebuild(s, chunks))
  {
  }
}
