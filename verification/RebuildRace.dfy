/** The rebuild of the detailed table, shard by shard, while writers go on: after the table is
    cleared, each shard is grouped and its rows are added, and in between records are inserted
    and upserted. The rebuild takes no lock. */
module RebuildRace {
  import opened Sums
  import opened SqlDialect
  import opened AccessLog
  import opened DerivedRollups
  import opened RollupQueries

  /** A record on its way into a shard. */
  datatype Placed = Placed(shard: nat, record: Record)

  /** `writers` are the insertions whose rows are still to be upserted; `next` is the next shard to
      group. `counted` and `twice` are history that no step looks at: the records added to the table
      since it was cleared, and those that will have been added by a shard and by a writer. */
  datatype State = State(
    backend: Dialect,
    shards: seq<seq<Record>>,
    next: nat,
    detailed: Table,
    writers: seq<seq<Record>>,
    counted: seq<Record>,
    twice: seq<Record>)

  datatype Event = Insert(placed: seq<Placed>) | UpsertRows(writer: nat) | GroupShard

  function RecordsOf(placed: seq<Placed>): seq<Record>
  {
    if placed == [] then [] else RecordsOf(placed[..|placed| - 1]) + [placed[|placed| - 1].record]
  }

  /** The records that go into shards still to be grouped. */
  function Early(placed: seq<Placed>, next: nat): seq<Record>
  {
    if placed == [] then [] else
      var front, last := Early(placed[..|placed| - 1], next), placed[|placed| - 1];
      if last.shard >= next then front + [last.record] else front
  }

  function PutAll(shards: seq<seq<Record>>, placed: seq<Placed>): (r: seq<seq<Record>>)
    requires forall p :: p in placed ==> p.shard < |shards|
    ensures |r| == |shards|
  {
    if placed == [] then shards else
      var front, last := PutAll(shards, placed[..|placed| - 1]), placed[|placed| - 1];
      front[last.shard := front[last.shard] + [last.record]]
  }

  function Without(ws: seq<seq<Record>>, i: nat): seq<seq<Record>>
    requires i < |ws|
  {
    ws[..i] + ws[i + 1..]
  }

  /** The table has just been cleared: whatever is stored and not yet upserted will count twice. */
  ghost predicate Cleared(s: State)
  {
    && s.next == 0 && s.detailed == map[] && s.counted == [] && s.twice == Flatten(s.writers)
    && AllNormal(s.backend, Flatten(s.shards)) && AllNormal(s.backend, Flatten(s.writers))
  }

  ghost predicate Enabled(s: State, e: Event)
  {
    match e
    case Insert(placed) => (forall p :: p in placed ==> p.shard < |s.shards|) && AllNormal(s.backend, RecordsOf(placed))
    case UpsertRows(w) => w < |s.writers|
    case GroupShard => s.next < |s.shards|
  }

  /** Adding rows commutes, so it does not matter when the rows read from a shard are added. */
  ghost function Next(s: State, e: Event): State
    requires Enabled(s, e)
  {
    match e
    case Insert(placed) =>
      s.(shards := PutAll(s.shards, placed), writers := s.writers + [RecordsOf(placed)], twice := s.twice + Early(placed, s.next))
    case UpsertRows(w) =>
      s.(detailed := Upsert(s.detailed, Aggregate(s.writers[w])), writers := Without(s.writers, w),
         counted := s.counted + s.writers[w])
    case GroupShard =>
      s.(detailed := Upsert(s.detailed, SqlRows(s.backend, s.shards[s.next])), next := s.next + 1,
         counted := s.counted + s.shards[s.next])
  }

  ghost predicate Run(states: seq<State>, events: seq<Event>)
  {
    && |states| == |events| + 1 && Cleared(states[0])
    && forall i :: 0 <= i < |events| ==> Enabled(states[i], events[i]) && states[i + 1] == Next(states[i], events[i])
  }

  /** Every shard is grouped and every writer is done. */
  ghost predicate Done(s: State)
  {
    s.next == |s.shards| && s.writers == []
  }

  // ----- the balance -----

  ghost function Bag(shards: seq<seq<Record>>): multiset<Record>
  {
    multiset(Flatten(shards))
  }

  /** What has been and will be added is what is stored, and what counts twice. */
  ghost predicate Balanced(s: State)
  {
    && s.next <= |s.shards| && s.detailed == Aggregate(s.counted)
    && AllNormal(s.backend, Flatten(s.shards)) && AllNormal(s.backend, Flatten(s.writers))
    && AllNormal(s.backend, s.counted) && AllNormal(s.backend, s.twice)
    && multiset(s.counted) + Bag(s.writers) + Bag(s.shards[s.next..]) == Bag(s.shards) + multiset(s.twice)
  }

  lemma BagWithout(ws: seq<seq<Record>>, i: nat)
    requires i < |ws|
    ensures Bag(ws) == Bag(Without(ws, i)) + multiset(ws[i])
  {
    assert ws == ws[..i] + ([ws[i]] + ws[i + 1..]);
    FlattenConcat(ws[..i], [ws[i]] + ws[i + 1..]);
    FlattenConcat([ws[i]], ws[i + 1..]);
    FlattenOne(ws[i]);
    FlattenConcat(ws[..i], ws[i + 1..]);
  }

  lemma NormalFromBag(d: Dialect, a: seq<Record>, b: seq<Record>, c: seq<Record>)
    requires multiset(a) == multiset(b) + multiset(c) && AllNormal(d, b) && AllNormal(d, c)
    ensures AllNormal(d, a)
  {
    forall r | r in a
      ensures Normal(d, r)
    {
      assert r in multiset(a);
      assert r in multiset(b) || r in multiset(c);
    }
  }

  /** Inserting adds every record to the stored ones. */
  lemma {:induction false} PutAllBag(shards: seq<seq<Record>>, placed: seq<Placed>)
    requires forall p :: p in placed ==> p.shard < |shards|
    ensures Bag(PutAll(shards, placed)) == Bag(shards) + multiset(RecordsOf(placed))
    decreases |placed|
  {
    if placed != [] {
      var front, last := placed[..|placed| - 1], placed[|placed| - 1];
      assert last in placed;
      PutAllBag(shards, front);
      PutOne(PutAll(shards, front), last, 0);
    }
  }

  /** And the early ones to those still to be grouped. */
  lemma {:induction false} PutAllRest(shards: seq<seq<Record>>, placed: seq<Placed>, next: nat)
    requires (forall p :: p in placed ==> p.shard < |shards|) && next <= |shards|
    ensures Bag(PutAll(shards, placed)[next..]) == Bag(shards[next..]) + multiset(Early(placed, next))
    decreases |placed|
  {
    if placed != [] {
      var front, last := placed[..|placed| - 1], placed[|placed| - 1];
      assert last in placed;
      PutAllRest(shards, front, next);
      PutOne(PutAll(shards, front), last, next);
    }
  }

  lemma PutOne(shards: seq<seq<Record>>, p: Placed, next: nat)
    requires p.shard < |shards| && next <= |shards|
    ensures var after := shards[p.shard := shards[p.shard] + [p.record]];
            && Bag(after) == Bag(shards) + multiset{p.record}
            && Bag(after[next..]) == Bag(shards[next..]) + (if p.shard >= next then multiset{p.record} else multiset{})
  {
    var after := shards[p.shard := shards[p.shard] + [p.record]];
    FlattenAppend(shards, p.shard, [p.record]);
    if p.shard >= next {
      var rest := shards[next..];
      FlattenAppend(rest, p.shard - next, [p.record]);
      assert after[next..] == rest[p.shard - next := rest[p.shard - next] + [p.record]];
    } else {
      assert after[next..] == shards[next..];
    }
  }

  lemma {:induction false} EarlyIsPart(placed: seq<Placed>, next: nat, d: Dialect)
    requires AllNormal(d, RecordsOf(placed))
    ensures AllNormal(d, Early(placed, next))
    decreases |placed|
  {
    if placed != [] {
      EarlyIsPart(placed[..|placed| - 1], next, d);
    }
  }

  lemma InsertKeepsBalance(s: State, e: Event)
    requires Balanced(s) && e.Insert? && Enabled(s, e)
    ensures Balanced(Next(s, e))
  {
    var s', recs, early := Next(s, e), RecordsOf(e.placed), Early(e.placed, s.next);
    PutAllBag(s.shards, e.placed);
    PutAllRest(s.shards, e.placed, s.next);
    FlattenConcat(s.writers, [recs]);
    FlattenOne(recs);
    EarlyIsPart(e.placed, s.next, s.backend);
    NormalFromBag(s.backend, Flatten(s'.shards), Flatten(s.shards), recs);
    InsertBalance(multiset(s.counted), Bag(s.writers), Bag(s.shards[s.next..]), Bag(s.shards), multiset(s.twice),
                  multiset(recs), multiset(early));
  }

  lemma InsertBalance<T>(c: multiset<T>, w: multiset<T>, u: multiset<T>, a: multiset<T>, t: multiset<T>, r: multiset<T>, e: multiset<T>)
    requires c + w + u == a + t
    ensures c + (w + r) + (u + e) == (a + r) + (t + e)
  {
    assert c + (w + r) + (u + e) == (c + w + u) + (r + e);
    assert (a + r) + (t + e) == (a + t) + (r + e);
  }

  lemma UpsertKeepsBalance(s: State, e: Event)
    requires Balanced(s) && e.UpsertRows? && Enabled(s, e)
    ensures Balanced(Next(s, e))
  {
    var s', recs := Next(s, e), s.writers[e.writer];
    BagWithout(s.writers, e.writer);
    AggregateConcat(s.counted, recs);
    assert forall r :: r in Flatten(s'.writers) ==> r in Bag(s.writers);
    assert forall r :: r in recs ==> r in multiset(recs);
    assert forall r :: r in recs ==> r in Bag(s.writers);
  }

  lemma GroupKeepsBalance(s: State, e: Event)
    requires Balanced(s) && e.GroupShard? && Enabled(s, e)
    ensures Balanced(Next(s, e))
  {
    var s', shard := Next(s, e), s.shards[s.next];
    assert s.shards[s.next..] == [shard] + s.shards[s.next + 1..];
    FlattenConcat([shard], s.shards[s.next + 1..]);
    FlattenOne(shard);
    forall r | r in shard
      ensures Normal(s.backend, r)
    {
      FlattenMembers(s.shards, r);
    }
    RowsAgreeIff(s.backend, shard);
    AggregateConcat(s.counted, shard);
  }

  lemma {:induction false} RunIsBalanced(states: seq<State>, events: seq<Event>, n: nat)
    requires Run(states, events) && n < |states|
    ensures Balanced(states[n])
    decreases n
  {
    if n == 0 {
      assert states[0].shards[0..] == states[0].shards;
    } else {
      RunIsBalanced(states, events, n - 1);
      var s, e := states[n - 1], events[n - 1];
      match e
      case Insert(_) => InsertKeepsBalance(s, e);
      case UpsertRows(_) => UpsertKeepsBalance(s, e);
      case GroupShard => GroupKeepsBalance(s, e);
    }
  }

  // ----- the result -----

  /** The rows of a table count all the records it was made of. */
  lemma TotalRequests(rs: seq<Record>)
    requires AllTimed(rs)
    ensures SumSet(Aggregate(rs).Keys, RequestsOf(Aggregate(rs))) == |rs|
  {
    var all := (k: Key) => true;
    RequestsCountRecords(rs, all);
    assert Select(Aggregate(rs), all) == Aggregate(rs).Keys;
    CountEverything(rs, OfKey(all));
  }

  lemma {:induction false} CountEverything(rs: seq<Record>, p: Record -> bool)
    requires forall r :: p(r)
    ensures CountIf(rs, p) == |rs|
    decreases |rs|
  {
    if rs != [] {
      CountEverything(rs[..|rs| - 1], p);
    }
  }

  /** However insertions, upserts and the grouping of shards interleave: in the end the table is the
      aggregate of the stored records exactly when nothing was stored but not upserted when the table
      was cleared, and everything inserted since went into shards already grouped. Each other record
      counts twice. */
  lemma RebuildIsExactIff(states: seq<State>, events: seq<Event>, n: nat)
    requires Run(states, events) && n < |states| && Done(states[n])
    ensures states[n].detailed == Aggregate(Flatten(states[n].shards)) <==> states[n].twice == []
    ensures states[n].detailed == Aggregate(Flatten(states[n].shards) + states[n].twice)
  {
    var s := states[n];
    RunIsBalanced(states, events, n);
    var stored := Flatten(s.shards);
    assert s.shards[s.next..] == [];
    assert multiset(s.counted) == multiset(stored + s.twice);
    AggregatePermutation(s.counted, stored + s.twice);
    if s.twice == [] {
      assert stored + s.twice == stored;
    }
    TotalRequests(stored);
    TotalRequests(stored + s.twice);
  }

  /** The smallest such run: a record inserted before the clear and upserted after it has two requests. */
  lemma OneRecordCountsTwice(d: Dialect, r: Record) returns (states: seq<State>, events: seq<Event>)
    requires Normal(d, r)
    ensures Run(states, events)
    ensures var last := states[|events|];
            Done(last) && Flatten(last.shards) == [r] && KeyOf(r) in last.detailed && last.detailed[KeyOf(r)].requests == 2
  {
    FlattenOne([r]);
    var s0 := State(d, [[r]], 0, map[], [[r]], [], [r]);
    var s1 := Next(s0, GroupShard);
    var s2 := Next(s1, UpsertRows(0));
    states, events := [s0, s1, s2], [GroupShard, UpsertRows(0)];
    assert Cleared(s0);
    assert states[1] == Next(states[0], events[0]) && states[2] == Next(states[1], events[1]);
    assert Run(states, events);
    assert Without([[r]], 0) == [];
    RowsAgreeIff(d, [r]);
    assert s2.detailed == Upsert(Upsert(map[], Aggregate([r])), Aggregate([r]));
    assert Done(states[|events|]);
  }
}
