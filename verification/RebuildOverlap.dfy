/** A rebuild refills the derived tables while a refresh is in flight, and nobody writes: all
    interleavings of their statements. A refresh that fails returns its batch to the queue; a
    rebuild that fails returns nothing. */
module RebuildOverlap {
  import opened Sums
  import opened AccessLog
  import opened DerivedRollups
  import opened RefreshStatements
  import opened RebuildStatements

  /** `returned` is the batch of a refresh that failed. */
  datatype Overlap = Overlap(tables: Tables, phase: Phase, returned: set<int>, rebuild: Rebuild)

  ghost function RefreshNext(t: Table, o: Overlap): Overlap
    requires o.phase != NoRefresh
  {
    if Conflicts(o.phase, o.tables) then o.(phase := NoRefresh, returned := o.phase.batch)
    else o.(tables := StepTables(o.phase, o.tables), phase := StepPhase(o.phase, t))
  }

  ghost function AfterChunkStatement(t: Table, o: Overlap): Overlap
    requires o.rebuild.RefreshChunks?
  {
    o.(tables := StepTables(o.rebuild.chunk, o.tables), rebuild := RefreshChunks(StepPhase(o.rebuild.chunk, t), o.rebuild.rest))
  }

  ghost function RebuildNext(t: Table, chunks: seq<set<int>>, o: Overlap): Overlap
    requires o.rebuild != NoRebuild
  {
    match o.rebuild
    case ClearTable(table, clear) => o.(tables := WithoutRows(o.tables, table), rebuild := AfterClear(table, clear))
    case PluckMinutes => o.(rebuild := RefreshChunks(NoRefresh, chunks))
    case RefreshChunks(q, rest) =>
      if q == NoRefresh then o.(rebuild := NextChunk(rest))
      else if Conflicts(q, o.tables) then o.(rebuild := NoRebuild)
      else AfterChunkStatement(t, o)
    case _ => o
  }

  ghost predicate Step(t: Table, chunks: seq<set<int>>, o: Overlap, o': Overlap)
  {
    || (o.phase != NoRefresh && o' == RefreshNext(t, o))
    || (o.rebuild != NoRebuild && o' == RebuildNext(t, chunks, o))
  }

  ghost predicate Run(t: Table, chunks: seq<set<int>>, states: seq<Overlap>)
  {
    states != [] && forall i :: 0 <= i < |states| - 1 ==> Step(t, chunks, states[i], states[i + 1])
  }

  ghost predicate Ended(o: Overlap)
  {
    o.phase == NoRefresh && o.rebuild == NoRebuild
  }

  /** Whatever is not fresh will be refreshed again. */
  ghost predicate Owned(t: Table, o: Overlap)
  {
    forall m :: m !in o.returned ==> Fresh(t, o.tables, m)
  }

  /** A refresh is in flight when the derived tables are to be cleared for the last time. */
  ghost predicate Starts(t: Table, chunks: seq<set<int>>, o: Overlap)
  {
    && o.phase != NoRefresh && RowsInBatch(o.phase) && o.returned == {}
    && (o.rebuild == ClearTable(0, Again) || (o.rebuild == ClearTable(0, Only) && t == map[]))
    && Chunking(chunks, MinutesOf(t))
  }

  ghost predicate AlwaysEndsOwned(t: Table, chunks: seq<set<int>>, o: Overlap)
  {
    forall states :: Run(t, chunks, states) && states[0] == o && Ended(states[|states| - 1]) ==> Owned(t, states[|states| - 1])
  }

  // ----- the condition -----

  /** The bucket rows the refresh has still to write. */
  ghost function RowsToWrite(p: Phase, t: Table): map<int, BucketRow>
  {
    match p
    case DropIdentities(b) => BucketRows(t, b)
    case DropFilterIdentities(b) => BucketRows(t, b)
    case DropBuckets(b) => BucketRows(t, b)
    case ReadBuckets(b) => BucketRows(t, b)
    case WriteBuckets(_, rows) => rows
    case _ => map[]
  }

  /** None, or those of the last chunks. */
  ghost predicate RowsOfLastChunks(rows: map<int, BucketRow>, t: Table, chunks: seq<set<int>>)
  {
    rows == map[] || exists i :: 0 <= i < |chunks| && RowsFrom(rows, t, chunks, i)
  }

  ghost predicate RowsFrom(rows: map<int, BucketRow>, t: Table, chunks: seq<set<int>>, i: nat)
    requires i <= |chunks|
  {
    rows == BucketRows(t, Covered(chunks[i..]))
  }

  ghost predicate HeldIsCurrent(p: Phase, t: Table)
  {
    && (p.ReadHosts? || p.WriteIdentities? ==> p.rows <= IdentityRows(t, MinutesOf(t)))
    && (p.ReadFilterHosts? || p.WriteFilterIdentities? ==> p.filterRows <= FilterIdentityRows(t, MinutesOf(t)))
  }

  ghost predicate Harmless(p: Phase, t: Table, chunks: seq<set<int>>)
  {
    RowsOfLastChunks(RowsToWrite(p, t), t, chunks) && HeldIsCurrent(p, t)
  }

  // ----- harmless refreshes: what every interleaving keeps -----

  /** Tables the rebuild has cleared hold current rows only. */
  ghost predicate Clean(t: Table, o: Overlap)
  {
    && (Passed(o.rebuild, 0) ==> o.tables.identities <= IdentityRows(t, MinutesOf(t)))
    && (Passed(o.rebuild, 1) ==> o.tables.filterIdentities <= FilterIdentityRows(t, MinutesOf(t)))
    && (Passed(o.rebuild, 2) ==> CurrentRows(t, o.tables.buckets))
  }

  predicate Passed(r: Rebuild, table: nat)
  {
    r.ClearTable? ==> r.table > table
  }

  ghost predicate CurrentRows(t: Table, rows: map<int, BucketRow>)
  {
    forall m :: m in rows ==> m in MinutesOf(t) && rows[m] == BucketRowAt(t, m)
  }

  /** The chunk in hand and those after it are the last ones, and the rows in hand are the chunk's. */
  ghost predicate AtChunk(t: Table, chunks: seq<set<int>>, r: Rebuild)
  {
    && (r.ClearTable? ==> r.clear != First && r.table <= 2 && (r.clear == Only ==> MinutesOf(t) == {}))
    && !r.ClearDetailed? && !r.GroupShards?
    && (r.RefreshChunks? ==> LastChunks(chunks, r.chunk, r.rest) && HoldsChunk(t, r.chunk))
  }

  ghost predicate LastChunks(chunks: seq<set<int>>, q: Phase, rest: seq<set<int>>)
  {
    var n := |chunks| - |rest|;
    n >= 0 && rest == chunks[n..] && (q != NoRefresh ==> n > 0 && q.batch == chunks[n - 1])
  }

  ghost predicate HoldsChunk(t: Table, q: Phase)
  {
    && (q.WriteBuckets? ==> q.bucketRows == BucketRows(t, q.batch))
    && (q.ReadHosts? ==> q.rows == KindRows(t, q.batch, Address))
    && (q.WriteIdentities? ==> q.rows == IdentityRows(t, q.batch))
    && (q.ReadFilterHosts? ==> q.filterRows == FilterKindRows(t, q.batch, Address))
    && (q.WriteFilterIdentities? ==> q.filterRows == FilterIdentityRows(t, q.batch))
  }

  /** The rebuild has still to write the minute's rows; `last` is the statement that writes them. */
  ghost predicate Owes(r: Rebuild, last: nat, m: int)
  {
    match r
    case NoRebuild => false
    case RefreshChunks(q, rest) => m in Covered(rest) || (m in BatchOf(q) && Rank(q) <= last)
    case _ => true
  }

  ghost predicate BucketIsComing(t: Table, o: Overlap, m: int)
  {
    m in RemainingBuckets(o.phase, t, o.tables.buckets)
  }

  ghost predicate IdentitiesAreComing(t: Table, o: Overlap, m: int)
  {
    IdentityRows(t, {m}) <= RemainingIdentities(o.phase, t, o.tables.identities)
  }

  ghost predicate FilterIdentitiesAreComing(t: Table, o: Overlap, m: int)
  {
    FilterIdentityRows(t, {m}) <= RemainingFilterIdentities(o.phase, t, o.tables.filterIdentities)
  }

  /** Rows that are missing will be written by the rebuild or by the refresh. */
  ghost predicate MinuteIsComing(t: Table, o: Overlap, m: int)
  {
    && (Owes(o.rebuild, 5, m) || BucketIsComing(t, o, m))
    && (Owes(o.rebuild, 8, m) || IdentitiesAreComing(t, o, m))
    && (Owes(o.rebuild, 11, m) || FilterIdentitiesAreComing(t, o, m))
  }

  ghost predicate NothingIsLost(t: Table, o: Overlap)
  {
    forall m :: m in MinutesOf(t) && m !in o.returned ==> MinuteIsComing(t, o, m)
  }

  /** The rebuild is about to fail: between its delete and its insert a bucket row has appeared. */
  ghost predicate Blocked(o: Overlap)
  {
    o.rebuild.RefreshChunks? && 4 <= Rank(o.rebuild.chunk) <= 5 && exists m :: m in o.rebuild.chunk.batch && m in o.tables.buckets
  }

  /** Then the refresh has written the buckets of this chunk and of all later ones, and will go on. */
  ghost predicate Relieved(t: Table, o: Overlap)
    requires o.rebuild.RefreshChunks? && o.rebuild.chunk != NoRefresh
  {
    && (o.phase == NoRefresh || Rank(o.phase) >= 6) && o.returned == {}
    && forall m :: m in o.rebuild.chunk.batch || m in Covered(o.rebuild.rest) ==>
                     m in o.tables.buckets && IdentitiesAreComing(t, o, m) && FilterIdentitiesAreComing(t, o, m)
  }

  ghost predicate Inv(t: Table, chunks: seq<set<int>>, o: Overlap)
  {
    && RowsInBatch(o.phase) && (o.phase != NoRefresh ==> o.returned == {})
    && Harmless(o.phase, t, chunks)
    && AtChunk(t, chunks, o.rebuild)
    && Clean(t, o)
    && NothingIsLost(t, o)
    && (Blocked(o) ==> Relieved(t, o))
  }

  lemma KindsAreCurrent(t: Table, minutes: set<int>, kind: Kind)
    ensures KindRows(t, minutes, kind) <= IdentityRows(t, MinutesOf(t))
    ensures FilterKindRows(t, minutes, kind) <= FilterIdentityRows(t, MinutesOf(t))
  {
    assert forall k :: k in KeysIn(t, minutes) ==> k in KeysIn(t, MinutesOf(t));
  }

  lemma RefreshStaysHarmless(t: Table, chunks: seq<set<int>>, p: Phase)
    requires p != NoRefresh && Harmless(p, t, chunks)
    ensures Harmless(StepPhase(p, t), t, chunks)
  {
    RowsToWriteNext(t, p);
    HeldStaysCurrent(t, p);
  }

  lemma RowsToWriteNext(t: Table, p: Phase)
    requires p != NoRefresh
    ensures RowsToWrite(StepPhase(p, t), t) == if p.WriteBuckets? then map[] else RowsToWrite(p, t)
  {
  }

  lemma HeldStaysCurrent(t: Table, p: Phase)
    requires p != NoRefresh && HeldIsCurrent(p, t)
    ensures HeldIsCurrent(StepPhase(p, t), t)
  {
    KindsAreCurrent(t, p.batch, Address);
    KindsAreCurrent(t, p.batch, HostName);
  }

  lemma TailRowsAreCurrent(t: Table, chunks: seq<set<int>>, rows: map<int, BucketRow>)
    requires RowsOfLastChunks(rows, t, chunks)
    ensures CurrentRows(t, rows)
  {
  }

  lemma RefreshStaysClean(t: Table, chunks: seq<set<int>>, o: Overlap)
    requires Inv(t, chunks, o) && o.phase != NoRefresh
    ensures Clean(t, RefreshNext(t, o))
  {
    TailRowsAreCurrent(t, chunks, RowsToWrite(o.phase, t));
  }

  /** What is coming stays so; a batch that fails is returned. */
  lemma RefreshLosesNothing(t: Table, o: Overlap, m: int)
    requires o.phase != NoRefresh && RowsInBatch(o.phase) && m !in RefreshNext(t, o).returned && o.returned == {}
    ensures BucketIsComing(t, o, m) ==> BucketIsComing(t, RefreshNext(t, o), m)
    ensures IdentitiesAreComing(t, o, m) ==> IdentitiesAreComing(t, RefreshNext(t, o), m)
    ensures FilterIdentitiesAreComing(t, o, m) ==> FilterIdentitiesAreComing(t, RefreshNext(t, o), m)
  {
    if Conflicts(o.phase, o.tables) {
      assert forall i :: i in IdentityRows(t, o.phase.batch) ==> i.minute in o.phase.batch;
      assert forall i :: i in FilterIdentityRows(t, o.phase.batch) ==> i.minute in o.phase.batch;
    } else {
      StepKeepsRemaining(o.phase, t, o.tables);
    }
  }

  /** The bucket rows of a refresh that block the rebuild are those of this chunk and all later ones. */
  lemma BlockedByRows(t: Table, chunks: seq<set<int>>, rows: map<int, BucketRow>, n: nat, x: int)
    requires Chunking(chunks, MinutesOf(t)) && RowsOfLastChunks(rows, t, chunks)
    requires 0 < n <= |chunks| && x in chunks[n - 1] && x in rows
    ensures chunks[n - 1] <= rows.Keys && Covered(chunks[n..]) <= rows.Keys
  {
    var i :| 0 <= i < |chunks| && RowsFrom(rows, t, chunks, i);
    LaterChunks(chunks, MinutesOf(t), i, n, x);
  }

  lemma WrittenRelieves(t: Table, o: Overlap, written: set<int>)
    requires o.phase.ReadAddresses? && o.returned == {} && o.rebuild.RefreshChunks? && o.rebuild.chunk != NoRefresh
    requires written <= o.phase.batch && written <= o.tables.buckets.Keys
    requires o.rebuild.chunk.batch <= written && Covered(o.rebuild.rest) <= written
    ensures Relieved(t, o)
  {
    forall m | m in o.rebuild.chunk.batch || m in Covered(o.rebuild.rest)
      ensures m in o.tables.buckets && IdentitiesAreComing(t, o, m) && FilterIdentitiesAreComing(t, o, m)
    {
      BatchIsComing(t, o, m);
    }
  }

  lemma BatchIsComing(t: Table, o: Overlap, m: int)
    requires o.phase.ReadAddresses? && m in o.phase.batch
    ensures IdentitiesAreComing(t, o, m) && FilterIdentitiesAreComing(t, o, m)
  {
    IdentityRowsSplit(t, o.phase.batch, m);
  }

  lemma LaterChunks(chunks: seq<set<int>>, minutes: set<int>, i: nat, n: nat, x: int)
    requires Chunking(chunks, minutes) && i < |chunks| && 0 < n <= |chunks| && x in chunks[n - 1] && x in Covered(chunks[i..])
    ensures chunks[n - 1] <= Covered(chunks[i..]) * minutes && Covered(chunks[n..]) <= Covered(chunks[i..]) * minutes
  {
    var j :| 0 <= j < |chunks[i..]| && x in chunks[i..][j];
    assert i + j == n - 1;
    forall m | m in chunks[n - 1]
      ensures m in Covered(chunks[i..]) * minutes
    {
      assert m in chunks[i..][j];
    }
    forall m | m in Covered(chunks[n..])
      ensures m in Covered(chunks[i..]) * minutes
    {
      var l :| 0 <= l < |chunks[n..]| && m in chunks[n..][l];
      assert m in chunks[n + l] && m in chunks[i..][n + l - i];
    }
  }

  lemma {:induction false} RefreshKeepsRelief(t: Table, o: Overlap)
    requires o.phase != NoRefresh && RowsInBatch(o.phase) && Blocked(o) && Relieved(t, o)
    ensures Blocked(RefreshNext(t, o)) ==> Relieved(t, RefreshNext(t, o))
  {
    var o' := RefreshNext(t, o);
    forall m | m in o.rebuild.chunk.batch || m in Covered(o.rebuild.rest)
      ensures m in o'.tables.buckets && IdentitiesAreComing(t, o', m) && FilterIdentitiesAreComing(t, o', m)
    {
      RefreshLosesNothing(t, o, m);
    }
  }

  /** Only the insert of its bucket rows makes a refresh block the rebuild. */
  lemma OnlyWritingBlocks(t: Table, o: Overlap) returns (x: int)
    requires o.phase != NoRefresh && !Blocked(o) && Blocked(RefreshNext(t, o))
    ensures o.phase.WriteBuckets? && !Conflicts(o.phase, o.tables) && x in o.rebuild.chunk.batch && x in o.phase.bucketRows
  {
    x :| x in o.rebuild.chunk.batch && x in RefreshNext(t, o).tables.buckets;
    assert x !in o.tables.buckets;
  }

  lemma RefreshKeepsInv(t: Table, chunks: seq<set<int>>, o: Overlap)
    requires Inv(t, chunks, o) && o.phase != NoRefresh && Chunking(chunks, MinutesOf(t))
    ensures Inv(t, chunks, RefreshNext(t, o))
  {
    var o' := RefreshNext(t, o);
    StepKeepsRows(o.phase, t);
    RefreshStaysHarmless(t, chunks, o.phase);
    RefreshStaysClean(t, chunks, o);
    forall m | m in MinutesOf(t) && m !in o'.returned
      ensures MinuteIsComing(t, o', m)
    {
      assert MinuteIsComing(t, o, m);
      RefreshLosesNothing(t, o, m);
    }
    if Blocked(o) {
      RefreshKeepsRelief(t, o);
    } else if Blocked(o') {
      var x := OnlyWritingBlocks(t, o);
      BlockedByRows(t, chunks, o.phase.bucketRows, |chunks| - |o.rebuild.rest|, x);
      WrittenRelieves(t, o', o.phase.bucketRows.Keys);
    }
  }

  // ----- the rebuild's statements -----

  /** Rows that appear at a minute do not take away what is coming. */
  lemma MoreIsComing(t: Table, o: Overlap, o': Overlap, m: int)
    requires o'.phase == o.phase
    ensures (m in o.tables.buckets ==> m in o'.tables.buckets) && BucketIsComing(t, o, m) ==> BucketIsComing(t, o', m)
    ensures IdentitiesIn(o.tables.identities, {m}) <= o'.tables.identities && IdentitiesAreComing(t, o, m) ==>
              IdentitiesAreComing(t, o', m)
    ensures FilterIdentitiesIn(o.tables.filterIdentities, {m}) <= o'.tables.filterIdentities && FilterIdentitiesAreComing(t, o, m) ==>
              FilterIdentitiesAreComing(t, o', m)
  {
    assert forall i :: i in IdentityRows(t, {m}) ==> i.minute == m;
    assert forall i :: i in FilterIdentityRows(t, {m}) ==> i.minute == m;
  }

  /** Rows that are there and current stay, or the refresh that drops them writes them again. */
  lemma ThereIsComing(t: Table, o: Overlap, m: int)
    requires m in MinutesOf(t)
    ensures m in o.tables.buckets ==> BucketIsComing(t, o, m)
    ensures IdentityRows(t, {m}) <= o.tables.identities ==> IdentitiesAreComing(t, o, m)
    ensures FilterIdentityRows(t, {m}) <= o.tables.filterIdentities ==> FilterIdentitiesAreComing(t, o, m)
  {
    if o.phase != NoRefresh {
      IdentityRowsSplit(t, o.phase.batch, m);
      assert forall i :: i in IdentityRows(t, {m}) ==> i.minute == m;
      assert forall i :: i in FilterIdentityRows(t, {m}) ==> i.minute == m;
    }
  }

  lemma ChunkStaysInHand(t: Table, q: Phase)
    requires q != NoRefresh && HoldsChunk(t, q)
    ensures HoldsChunk(t, StepPhase(q, t))
  {
    KindsMakeIdentities(t, q.batch);
  }

  lemma ChunkStaysClean(t: Table, o: Overlap)
    requires Clean(t, o) && o.rebuild.RefreshChunks? && HoldsChunk(t, o.rebuild.chunk)
    ensures var q := o.rebuild.chunk; Clean(t, o.(tables := StepTables(q, o.tables)))
  {
    var q := o.rebuild.chunk;
    if q != NoRefresh {
      assert forall k :: k in KeysIn(t, q.batch) ==> k in KeysIn(t, MinutesOf(t));
    }
  }

  lemma BucketStays(q: Phase, tables: Tables, m: int)
    requires q.DropBuckets? ==> m !in q.batch
    ensures m in tables.buckets ==> m in StepTables(q, tables).buckets
  {
  }

  lemma BucketStillComing(p: Phase, t: Table, before: map<int, BucketRow>, after: map<int, BucketRow>, m: int)
    requires m in MinutesOf(t)
    ensures m in after ==> m in RemainingBuckets(p, t, after)
    ensures (m in before ==> m in after) && m in RemainingBuckets(p, t, before) ==> m in RemainingBuckets(p, t, after)
  {
  }

  lemma ChunkKeepsBucket(t: Table, o: Overlap, m: int)
    requires o.rebuild.RefreshChunks? && o.rebuild.chunk != NoRefresh && HoldsChunk(t, o.rebuild.chunk) && m in MinutesOf(t)
    requires Owes(o.rebuild, 5, m) || BucketIsComing(t, o, m)
    ensures var o' := AfterChunkStatement(t, o); Owes(o'.rebuild, 5, m) || BucketIsComing(t, o', m)
  {
    var q, o' := o.rebuild.chunk, AfterChunkStatement(t, o);
    BucketStillComing(o.phase, t, o.tables.buckets, o'.tables.buckets, m);
    if q.WriteBuckets? && m in q.batch {
      assert m in q.bucketRows;
    } else if !Owes(o.rebuild, 5, m) {
      BucketStays(q, o.tables, m);
    }
  }

  lemma ChunkKeepsIdentities(t: Table, o: Overlap, m: int)
    requires o.rebuild.RefreshChunks? && o.rebuild.chunk != NoRefresh && HoldsChunk(t, o.rebuild.chunk) && m in MinutesOf(t)
    requires Owes(o.rebuild, 8, m) || IdentitiesAreComing(t, o, m)
    ensures var o' := AfterChunkStatement(t, o); Owes(o'.rebuild, 8, m) || IdentitiesAreComing(t, o', m)
  {
    var q, o' := o.rebuild.chunk, AfterChunkStatement(t, o);
    if q.WriteIdentities? && m in q.batch {
      IdentityRowsSplit(t, q.batch, m);
      ThereIsComing(t, o', m);
    } else if !Owes(o.rebuild, 8, m) {
      assert IdentitiesIn(o.tables.identities, {m}) <= o'.tables.identities;
      MoreIsComing(t, o, o', m);
    }
  }

  lemma ChunkKeepsFilterIdentities(t: Table, o: Overlap, m: int)
    requires o.rebuild.RefreshChunks? && o.rebuild.chunk != NoRefresh && HoldsChunk(t, o.rebuild.chunk) && m in MinutesOf(t)
    requires Owes(o.rebuild, 11, m) || FilterIdentitiesAreComing(t, o, m)
    ensures var o' := AfterChunkStatement(t, o); Owes(o'.rebuild, 11, m) || FilterIdentitiesAreComing(t, o', m)
  {
    var q, o' := o.rebuild.chunk, AfterChunkStatement(t, o);
    if q.WriteFilterIdentities? && m in q.batch {
      IdentityRowsSplit(t, q.batch, m);
      ThereIsComing(t, o', m);
    } else if !Owes(o.rebuild, 11, m) {
      assert FilterIdentitiesIn(o.tables.filterIdentities, {m}) <= o'.tables.filterIdentities;
      MoreIsComing(t, o, o', m);
    }
  }

  lemma ChunkKeepsRelief(t: Table, o: Overlap)
    requires o.rebuild.RefreshChunks? && o.rebuild.chunk != NoRefresh && !Conflicts(o.rebuild.chunk, o.tables)
    requires Blocked(o) ==> Relieved(t, o)
    ensures Blocked(AfterChunkStatement(t, o)) ==> Relieved(t, AfterChunkStatement(t, o))
  {
    var q, o' := o.rebuild.chunk, AfterChunkStatement(t, o);
    if Blocked(o') {
      var m :| m in o'.rebuild.chunk.batch && m in o'.tables.buckets;
      assert q.ReadBuckets? && m in o.tables.buckets;
      assert Blocked(o);
      forall m | m in q.batch || m in Covered(o.rebuild.rest)
        ensures m in o'.tables.buckets && IdentitiesAreComing(t, o', m) && FilterIdentitiesAreComing(t, o', m)
      {
        assert IdentitiesAreComing(t, o, m) && FilterIdentitiesAreComing(t, o, m);
      }
    }
  }

  /** A statement of a chunk writes what the rebuild then no longer owes. */
  lemma ChunkKeepsInv(t: Table, chunks: seq<set<int>>, o: Overlap)
    requires Inv(t, chunks, o) && o.rebuild.RefreshChunks? && o.rebuild.chunk != NoRefresh
    requires !Conflicts(o.rebuild.chunk, o.tables)
    ensures Inv(t, chunks, AfterChunkStatement(t, o))
  {
    var o' := AfterChunkStatement(t, o);
    ChunkStaysInHand(t, o.rebuild.chunk);
    ChunkStaysClean(t, o);
    ChunkKeepsRelief(t, o);
    forall m | m in MinutesOf(t) && m !in o'.returned
      ensures MinuteIsComing(t, o', m)
    {
      assert MinuteIsComing(t, o, m);
      ChunkKeepsBucket(t, o, m);
      ChunkKeepsIdentities(t, o, m);
      ChunkKeepsFilterIdentities(t, o, m);
    }
  }

  /** A rebuild that fails leaves nothing to be done that the refresh will not do. */
  lemma FailureLosesNothing(t: Table, o: Overlap, m: int)
    requires o.rebuild.RefreshChunks? && o.rebuild.chunk != NoRefresh && Relieved(t, o)
    requires m in MinutesOf(t) && MinuteIsComing(t, o, m)
    ensures MinuteIsComing(t, o.(rebuild := NoRebuild), m)
  {
    var o' := o.(rebuild := NoRebuild);
    if m in o.rebuild.chunk.batch || m in Covered(o.rebuild.rest) {
      assert m in o.tables.buckets && IdentitiesAreComing(t, o, m) && FilterIdentitiesAreComing(t, o, m);
      ThereIsComing(t, o, m);
    }
    assert BucketIsComing(t, o, m) && IdentitiesAreComing(t, o, m) && FilterIdentitiesAreComing(t, o, m);
    MoreIsComing(t, o, o', m);
  }

  lemma FailureKeepsInv(t: Table, chunks: seq<set<int>>, o: Overlap)
    requires Inv(t, chunks, o) && o.rebuild.RefreshChunks? && o.rebuild.chunk != NoRefresh
    requires Conflicts(o.rebuild.chunk, o.tables)
    ensures Inv(t, chunks, o.(rebuild := NoRebuild))
  {
    RowsAreOfMinutes(t, o.rebuild.chunk.batch);
    ConflictBlocks(o);
    RelievedLosesNothing(t, o);
  }

  lemma ConflictBlocks(o: Overlap)
    requires o.rebuild.RefreshChunks? && Conflicts(o.rebuild.chunk, o.tables)
    requires o.rebuild.chunk.bucketRows.Keys <= o.rebuild.chunk.batch
    ensures Blocked(o)
  {
  }

  lemma RowsAreOfMinutes(t: Table, b: set<int>)
    ensures BucketRows(t, b).Keys <= b
  {
  }

  lemma RelievedLosesNothing(t: Table, o: Overlap)
    requires o.rebuild.RefreshChunks? && o.rebuild.chunk != NoRefresh && Relieved(t, o) && NothingIsLost(t, o)
    ensures NothingIsLost(t, o.(rebuild := NoRebuild))
  {
    var o' := o.(rebuild := NoRebuild);
    forall m | m in MinutesOf(t) && m !in o'.returned
      ensures MinuteIsComing(t, o', m)
    {
      assert MinuteIsComing(t, o, m);
      FailureLosesNothing(t, o, m);
    }
  }

  lemma RebuildKeepsInv(t: Table, chunks: seq<set<int>>, o: Overlap)
    requires Inv(t, chunks, o) && o.rebuild != NoRebuild && Chunking(chunks, MinutesOf(t))
    ensures Inv(t, chunks, RebuildNext(t, chunks, o))
  {
    var o' := RebuildNext(t, chunks, o);
    match o.rebuild
    case ClearTable(_, _) => ClearKeepsInv(t, chunks, o);
    case PluckMinutes => PluckKeepsInv(t, chunks, o);
    case RefreshChunks(q, rest) =>
      if q == NoRefresh {
        ChunkBegins(t, chunks, o);
      } else if Conflicts(q, o.tables) {
        FailureKeepsInv(t, chunks, o);
      } else {
        ChunkKeepsInv(t, chunks, o);
      }
  }

  lemma ClearKeepsInv(t: Table, chunks: seq<set<int>>, o: Overlap)
    requires Inv(t, chunks, o) && o.rebuild.ClearTable?
    ensures Inv(t, chunks, RebuildNext(t, chunks, o))
  {
  }

  lemma PluckKeepsInv(t: Table, chunks: seq<set<int>>, o: Overlap)
    requires Inv(t, chunks, o) && o.rebuild.PluckMinutes? && Covered(chunks) == MinutesOf(t)
    ensures Inv(t, chunks, o.(rebuild := RefreshChunks(NoRefresh, chunks)))
  {
    assert chunks[0..] == chunks;
    var o' := o.(rebuild := RefreshChunks(NoRefresh, chunks));
    assert forall m :: m in MinutesOf(t) ==> MinuteIsComing(t, o', m);
  }

  lemma ChunkBegins(t: Table, chunks: seq<set<int>>, o: Overlap)
    requires Inv(t, chunks, o) && o.rebuild.RefreshChunks? && o.rebuild.chunk == NoRefresh
    ensures Inv(t, chunks, o.(rebuild := NextChunk(o.rebuild.rest)))
  {
    var o', rest := o.(rebuild := NextChunk(o.rebuild.rest)), o.rebuild.rest;
    if rest != [] {
      CoveredNext(rest);
    }
    forall m | m in MinutesOf(t) && m !in o'.returned
      ensures MinuteIsComing(t, o', m)
    {
      assert MinuteIsComing(t, o, m);
    }
  }

  lemma {:induction false} RunHasInv(t: Table, chunks: seq<set<int>>, states: seq<Overlap>, n: nat)
    requires Run(t, chunks, states) && n < |states| && Chunking(chunks, MinutesOf(t)) && Inv(t, chunks, states[0])
    ensures Inv(t, chunks, states[n])
    decreases n
  {
    if n > 0 {
      var o := states[n - 1];
      RunHasInv(t, chunks, states, n - 1);
      assert Step(t, chunks, o, states[n]);
      if o.phase != NoRefresh && states[n] == RefreshNext(t, o) {
        RefreshKeepsInv(t, chunks, o);
      } else {
        RebuildKeepsInv(t, chunks, o);
      }
    }
  }

  lemma {:induction false} EndIsOwned(t: Table, chunks: seq<set<int>>, o: Overlap)
    requires Inv(t, chunks, o) && Ended(o)
    ensures Owned(t, o)
  {
    forall m | m !in o.returned
      ensures Fresh(t, o.tables, m)
    {
      IdentityRowsSplit(t, MinutesOf(t), m);
      assert IdentitiesIn(o.tables.identities, {m}) <= IdentitiesIn(IdentityRows(t, MinutesOf(t)), {m});
      assert FilterIdentitiesIn(o.tables.filterIdentities, {m}) <= FilterIdentitiesIn(FilterIdentityRows(t, MinutesOf(t)), {m});
      if m in MinutesOf(t) {
        assert MinuteIsComing(t, o, m);
        assert forall i :: i in IdentityRows(t, {m}) ==> i.minute == m;
        assert forall i :: i in FilterIdentityRows(t, {m}) ==> i.minute == m;
      }
    }
  }

  lemma HarmlessEndsOwned(t: Table, chunks: seq<set<int>>, o: Overlap)
    requires Starts(t, chunks, o) && Harmless(o.phase, t, chunks)
    ensures AlwaysEndsOwned(t, chunks, o)
  {
    assert MinutesOf(map[]) == {};
    assert Inv(t, chunks, o);
    forall states | Run(t, chunks, states) && states[0] == o && Ended(states[|states| - 1])
      ensures Owned(t, states[|states| - 1])
    {
      RunHasInv(t, chunks, states, |states| - 1);
      EndIsOwned(t, chunks, states[|states| - 1]);
    }
  }

  // ----- other refreshes: an interleaving that loses or keeps rows -----

  ghost predicate Leads(t: Table, chunks: seq<set<int>>, o: Overlap, o': Overlap)
  {
    exists states :: Run(t, chunks, states) && states[0] == o && states[|states| - 1] == o'
  }

  lemma LeadsNowhere(t: Table, chunks: seq<set<int>>, o: Overlap)
    ensures Leads(t, chunks, o, o)
  {
    assert Run(t, chunks, [o]);
  }

  lemma LeadsOn(t: Table, chunks: seq<set<int>>, a: Overlap, b: Overlap, c: Overlap)
    requires Leads(t, chunks, a, b) && Step(t, chunks, b, c)
    ensures Leads(t, chunks, a, c)
  {
    var states :| Run(t, chunks, states) && states[0] == a && states[|states| - 1] == b;
    assert Run(t, chunks, states + [c]);
  }

  /** The refresh alone runs to its end. */
  lemma {:induction false} RefreshRuns(t: Table, chunks: seq<set<int>>, a: Overlap, o: Overlap)
    requires Leads(t, chunks, a, o) && !WillConflict(o.phase, t, o.tables)
    ensures Leads(t, chunks, a, o.(tables := Remaining(o.phase, t, o.tables), phase := NoRefresh))
    decreases StatementsLeft(o.phase)
  {
    if o.phase != NoRefresh {
      var next := RefreshNext(t, o);
      LeadsOn(t, chunks, a, o, next);
      StepKeepsRemaining(o.phase, t, o.tables);
      StepKeepsClear(o.phase, t, o.tables);
      RefreshRuns(t, chunks, a, next);
    }
  }

  /** The chunk in hand alone runs to its end. */
  lemma {:induction false} ChunkRuns(t: Table, chunks: seq<set<int>>, a: Overlap, o: Overlap)
    requires Leads(t, chunks, a, o) && o.rebuild.RefreshChunks? && !WillConflict(o.rebuild.chunk, t, o.tables)
    ensures Leads(t, chunks, a, o.(tables := Remaining(o.rebuild.chunk, t, o.tables), rebuild := RefreshChunks(NoRefresh, o.rebuild.rest)))
    decreases StatementsLeft(o.rebuild.chunk)
  {
    if o.rebuild.chunk != NoRefresh {
      var next := AfterChunkStatement(t, o);
      LeadsOn(t, chunks, a, o, next);
      StepKeepsRemaining(o.rebuild.chunk, t, o.tables);
      StepKeepsClear(o.rebuild.chunk, t, o.tables);
      ChunkRuns(t, chunks, a, next);
    }
  }

  /** The rebuild alone refreshes the first `n` chunks that are left. */
  lemma {:induction false} ChunksRun(t: Table, chunks: seq<set<int>>, a: Overlap, o: Overlap, n: nat)
    requires Leads(t, chunks, a, o) && o.rebuild.RefreshChunks? && o.rebuild.chunk == NoRefresh && n <= |o.rebuild.rest|
    ensures Leads(t, chunks, a, o.(tables := ChunksDone(t, o.tables, o.rebuild.rest[..n]),
                                   rebuild := RefreshChunks(NoRefresh, o.rebuild.rest[n..])))
    decreases n
  {
    var rest := o.rebuild.rest;
    if n == 0 {
      assert rest[0..] == rest;
    } else {
      var begun := o.(rebuild := NextChunk(rest));
      LeadsOn(t, chunks, a, o, begun);
      ChunkRuns(t, chunks, a, begun);
      var next := o.(tables := Remaining(DropIdentities(rest[0]), t, o.tables), rebuild := RefreshChunks(NoRefresh, rest[1..]));
      ChunksRun(t, chunks, a, next, n - 1);
      assert rest[1..][n - 1..] == rest[n..] && rest[1..][..n - 1] == rest[..n][1..];
    }
  }

  lemma RebuildEnds(t: Table, chunks: seq<set<int>>, a: Overlap, o: Overlap)
    requires Leads(t, chunks, a, o) && o.rebuild == RefreshChunks(NoRefresh, chunks)
    ensures Leads(t, chunks, a, o.(tables := ChunksDone(t, o.tables, chunks), rebuild := NoRebuild))
  {
    ChunksRun(t, chunks, a, o, |chunks|);
    assert chunks[..|chunks|] == chunks && chunks[|chunks|..] == [];
    var done := o.(tables := ChunksDone(t, o.tables, chunks), rebuild := RefreshChunks(NoRefresh, []));
    LeadsOn(t, chunks, a, done, done.(rebuild := NoRebuild));
  }

  /** The rebuild clears the tables while the refresh waits. */
  lemma RebuildClears(t: Table, chunks: seq<set<int>>, o: Overlap)
    requires o.rebuild.ClearTable? && o.rebuild.table == 0
    ensures Leads(t, chunks, o, o.(tables := NO_TABLES, rebuild := AfterClear(2, o.rebuild.clear)))
  {
    var clear := o.rebuild.clear;
    var o1 := RebuildNext(t, chunks, o);
    var o2 := RebuildNext(t, chunks, o1);
    LeadsNowhere(t, chunks, o);
    LeadsOn(t, chunks, o, o, o1);
    LeadsOn(t, chunks, o, o1, o2);
    LeadsOn(t, chunks, o, o2, RebuildNext(t, chunks, o2));
  }

  lemma NoMinutesNoChunks(chunks: seq<set<int>>)
    requires Chunking(chunks, {})
    ensures chunks == []
  {
    if chunks != [] {
      var m := SomeElement(chunks[0]);
      CoveredNext(chunks);
    }
  }

  /** First the clears, then the refresh, then the chunks. */
  lemma RefreshThenChunks(t: Table, chunks: seq<set<int>>, o: Overlap)
    requires Starts(t, chunks, o)
    ensures Leads(t, chunks, o, Overlap(ChunksDone(t, Remaining(o.phase, t, NO_TABLES), chunks), NoRefresh, {}, NoRebuild))
  {
    RebuildClears(t, chunks, o);
    var cleared := o.(tables := NO_TABLES, rebuild := AfterClear(2, o.rebuild.clear));
    RefreshRuns(t, chunks, o, cleared);
    var refreshed := cleared.(tables := Remaining(o.phase, t, NO_TABLES), phase := NoRefresh);
    if o.rebuild.clear == Only {
      assert MinutesOf(t) == {};
      NoMinutesNoChunks(chunks);
    } else {
      var plucked := refreshed.(rebuild := RefreshChunks(NoRefresh, chunks));
      LeadsOn(t, chunks, o, refreshed, plucked);
      RebuildEnds(t, chunks, o, plucked);
    }
  }

  /** First the whole rebuild, then the refresh. */
  lemma ChunksThenRefresh(t: Table, chunks: seq<set<int>>, o: Overlap)
    requires Starts(t, chunks, o) && !WillConflict(o.phase, t, Derive(t))
    ensures Leads(t, chunks, o, Overlap(Remaining(o.phase, t, Derive(t)), NoRefresh, {}, NoRebuild))
  {
    RebuildClears(t, chunks, o);
    RebuildInChunks(t, chunks);
    var cleared := o.(tables := NO_TABLES, rebuild := AfterClear(2, o.rebuild.clear));
    if o.rebuild.clear == Only {
      assert MinutesOf(t) == {};
      NoMinutesNoChunks(chunks);
    } else {
      var plucked := cleared.(rebuild := RefreshChunks(NoRefresh, chunks));
      LeadsOn(t, chunks, o, cleared, plucked);
      RebuildEnds(t, chunks, o, plucked);
    }
    RefreshRuns(t, chunks, o, o.(tables := Derive(t), rebuild := NoRebuild));
  }

  /** An interleaving in which the refresh succeeds and rows are missing or stay. */
  ghost predicate GoesAstray(t: Table, chunks: seq<set<int>>, o: Overlap)
  {
    exists end :: Leads(t, chunks, o, end) && Ended(end) && end.returned == {} && end.tables != Derive(t)
  }

  lemma LeadsAstray(t: Table, chunks: seq<set<int>>, o: Overlap)
    requires GoesAstray(t, chunks, o)
    ensures !AlwaysEndsOwned(t, chunks, o)
  {
    var end :| Leads(t, chunks, o, end) && Ended(end) && end.returned == {} && end.tables != Derive(t);
    var states :| Run(t, chunks, states) && states[0] == o && states[|states| - 1] == end;
    FreshEverywhere(t, end.tables);
  }

  /** Identities in hand that are no longer current stay when the refresh writes them last. */
  lemma HeldRowsStay(t: Table, chunks: seq<set<int>>, o: Overlap)
    requires Starts(t, chunks, o) && !HeldIsCurrent(o.phase, t)
    ensures GoesAstray(t, chunks, o)
  {
    ChunksThenRefresh(t, chunks, o);
    var end := Overlap(Remaining(o.phase, t, Derive(t)), NoRefresh, {}, NoRebuild);
    assert end.tables != Derive(t);
  }

  /** A bucket row in hand for a minute that is gone stays, because no chunk names it. */
  lemma GoneMinuteStays(t: Table, chunks: seq<set<int>>, o: Overlap, m: int)
    requires Starts(t, chunks, o) && m in RowsToWrite(o.phase, t) && m !in MinutesOf(t)
    ensures GoesAstray(t, chunks, o)
  {
    RefreshThenChunks(t, chunks, o);
    var refreshed := Remaining(o.phase, t, NO_TABLES);
    ChunksDoneAt(t, refreshed, chunks, m);
    var end := Overlap(ChunksDone(t, refreshed, chunks), NoRefresh, {}, NoRebuild);
    assert m in end.tables.buckets;
  }

  // ----- the refresh between a chunk's delete and its insert -----

  /** The tables when the rebuild has deleted the rows of a chunk. */
  ghost function Dropped(t: Table, tables: Tables, c: set<int>): Tables
  {
    Tables(tables.buckets - c, IdentitiesOutside(tables.identities, c), FilterIdentitiesOutside(tables.filterIdentities, c))
  }

  /** The chunk in hand goes up to its insert of bucket rows. */
  lemma ChunkDrops(t: Table, chunks: seq<set<int>>, a: Overlap, o: Overlap)
    requires Leads(t, chunks, a, o) && o.rebuild.RefreshChunks? && o.rebuild.chunk.DropIdentities?
    ensures var c := o.rebuild.chunk.batch;
            Leads(t, chunks, a, o.(tables := Dropped(t, o.tables, c), rebuild := RefreshChunks(WriteBuckets(c, BucketRows(t, c)), o.rebuild.rest)))
  {
    var o1 := AfterChunkStatement(t, o);
    var o2 := AfterChunkStatement(t, o1);
    var o3 := AfterChunkStatement(t, o2);
    LeadsOn(t, chunks, a, o, o1);
    LeadsOn(t, chunks, a, o1, o2);
    LeadsOn(t, chunks, a, o2, o3);
    LeadsOn(t, chunks, a, o3, AfterChunkStatement(t, o3));
  }

  /** Clears and `k` chunks. */
  lemma ChunksComeFirst(t: Table, chunks: seq<set<int>>, o: Overlap, k: nat)
    requires o.rebuild == ClearTable(0, Again) && k < |chunks|
    ensures Leads(t, chunks, o, o.(tables := ChunksDone(t, NO_TABLES, chunks[..k]), rebuild := RefreshChunks(NoRefresh, chunks[k..])))
  {
    RebuildClears(t, chunks, o);
    var cleared := o.(tables := NO_TABLES, rebuild := PluckMinutes);
    var plucked := cleared.(rebuild := RefreshChunks(NoRefresh, chunks));
    LeadsOn(t, chunks, o, cleared, plucked);
    ChunksRun(t, chunks, o, plucked, k);
  }

  lemma ChunkStarts(t: Table, chunks: seq<set<int>>, a: Overlap, o: Overlap)
    requires Leads(t, chunks, a, o) && o.rebuild.RefreshChunks? && o.rebuild.chunk == NoRefresh && o.rebuild.rest != []
    ensures var rest := o.rebuild.rest; Leads(t, chunks, a, o.(rebuild := RefreshChunks(DropIdentities(rest[0]), rest[1..])))
  {
    LeadsOn(t, chunks, a, o, o.(rebuild := NextChunk(o.rebuild.rest)));
  }

  /** Then the deletes of the next one, the whole refresh, and then the insert fails. */
  lemma ClashRuns(t: Table, chunks: seq<set<int>>, o: Overlap, k: nat, x: int)
    requires o.rebuild == ClearTable(0, Again) && o.phase != NoRefresh && o.returned == {} && k < |chunks|
    requires x in chunks[k] && x in MinutesOf(t) && x in RowsToWrite(o.phase, t)
    requires RowsToWrite(o.phase, t).Keys !! ChunksDone(t, NO_TABLES, chunks[..k]).buckets.Keys
    ensures Leads(t, chunks, o, Overlap(Remaining(o.phase, t, Dropped(t, ChunksDone(t, NO_TABLES, chunks[..k]), chunks[k])), NoRefresh, {}, NoRebuild))
  {
    ChunksComeFirst(t, chunks, o, k);
    var done := o.(tables := ChunksDone(t, NO_TABLES, chunks[..k]), rebuild := RefreshChunks(NoRefresh, chunks[k..]));
    ChunkStarts(t, chunks, o, done);
    ChunkDrops(t, chunks, o, done.(rebuild := RefreshChunks(DropIdentities(chunks[k]), chunks[k..][1..])));
    ClashEnds(t, chunks, o, done.tables, chunks[k], chunks[k..][1..], x);
  }

  lemma ClashEnds(t: Table, chunks: seq<set<int>>, o: Overlap, tables: Tables, c: set<int>, rest: seq<set<int>>, x: int)
    requires o.phase != NoRefresh && o.returned == {} && x in c && x in MinutesOf(t) && x in RowsToWrite(o.phase, t)
    requires RowsToWrite(o.phase, t).Keys !! tables.buckets.Keys
    requires Leads(t, chunks, o, o.(tables := Dropped(t, tables, c), rebuild := RefreshChunks(WriteBuckets(c, BucketRows(t, c)), rest)))
    ensures Leads(t, chunks, o, Overlap(Remaining(o.phase, t, Dropped(t, tables, c)), NoRefresh, {}, NoRebuild))
  {
    var dropped := o.(tables := Dropped(t, tables, c), rebuild := RefreshChunks(WriteBuckets(c, BucketRows(t, c)), rest));
    WritesWithoutClash(t, o.phase, dropped.tables, x);
    RefreshRuns(t, chunks, o, dropped);
    var written := dropped.(tables := Remaining(o.phase, t, dropped.tables), phase := NoRefresh);
    BlockedFails(t, chunks, o, written, x);
  }

  lemma WritesWithoutClash(t: Table, p: Phase, tables: Tables, x: int)
    requires RowsToWrite(p, t).Keys !! tables.buckets.Keys && x in RowsToWrite(p, t)
    ensures !WillConflict(p, t, tables) && x in RemainingBuckets(p, t, tables.buckets)
  {
  }

  lemma BlockedFails(t: Table, chunks: seq<set<int>>, a: Overlap, o: Overlap, x: int)
    requires Leads(t, chunks, a, o) && o.rebuild.RefreshChunks? && o.rebuild.chunk.WriteBuckets?
    requires x in o.rebuild.chunk.bucketRows && x in o.tables.buckets
    ensures Leads(t, chunks, a, o.(rebuild := NoRebuild))
  {
    LeadsOn(t, chunks, a, o, o.(rebuild := NoRebuild));
  }

  /** The first chunk that the refresh is to write to. */
  lemma {:induction false} FirstChunkOf(chunks: seq<set<int>>, rows: set<int>) returns (k: nat, x: int)
    requires rows != {} && rows <= Covered(chunks)
    ensures k < |chunks| && x in chunks[k] && x in rows && rows !! Covered(chunks[..k])
    decreases |chunks|
  {
    var n := |chunks| - 1;
    var y := SomeElement(rows);
    assert chunks != [];
    CoveredLast(chunks);
    if rows !! Covered(chunks[..n]) {
      k, x := n, y;
    } else {
      var z :| z in rows && z in Covered(chunks[..n]);
      assert z in rows * Covered(chunks[..n]);
      k, x := FirstChunkOf(chunks[..n], rows * Covered(chunks[..n]));
      assert chunks[..n][..k] == chunks[..k];
      forall m | m in Covered(chunks[..k])
        ensures m in Covered(chunks[..n])
      {
        var i :| 0 <= i < k && m in chunks[i];
        assert m in chunks[..n][i];
      }
    }
  }

  /** A refresh that writes buckets, but not exactly those from some chunk on, makes the rebuild fail
      with minutes left that nobody refreshes. */
  lemma ClashLosesMinutes(t: Table, chunks: seq<set<int>>, o: Overlap)
    requires Starts(t, chunks, o) && RowsToWrite(o.phase, t).Keys <= MinutesOf(t)
    requires !RowsOfLastChunks(RowsToWrite(o.phase, t), t, chunks)
    ensures GoesAstray(t, chunks, o)
  {
    var rows := RowsToWrite(o.phase, t);
    var k, x := FirstChunkOf(chunks, rows.Keys);
    var before := ChunksDone(t, NO_TABLES, chunks[..k]);
    BucketsOfChunks(t, chunks, k);
    ClashRuns(t, chunks, o, k, x);
    var end := Overlap(Remaining(o.phase, t, Dropped(t, before, chunks[k])), NoRefresh, {}, NoRebuild);
    assert RowsFrom(rows, t, chunks, k) <==> rows == BucketRows(t, Covered(chunks[k..]));
    if end.tables == Derive(t) {
      FreshEverywhere(t, end.tables);
      SplitChunks(chunks, MinutesOf(t), k);
      OwnedWritesTail(t, o.phase, before, end.tables, chunks[k], Covered(chunks[k..]));
      assert false;
    }
  }

  lemma BucketsOfChunks(t: Table, chunks: seq<set<int>>, k: nat)
    requires Chunking(chunks, MinutesOf(t)) && k < |chunks|
    ensures ChunksDone(t, NO_TABLES, chunks[..k]).buckets.Keys == Covered(chunks[..k])
  {
    forall m
      ensures m in ChunksDone(t, NO_TABLES, chunks[..k]).buckets <==> m in Covered(chunks[..k])
    {
      ChunksDoneAt(t, NO_TABLES, chunks[..k], m);
      if m in Covered(chunks[..k]) {
        var i :| 0 <= i < k && m in chunks[i];
        assert m in Covered(chunks);
      }
    }
  }

  lemma OwnedWritesTail(t: Table, p: Phase, before: Tables, end: Tables, c: set<int>, tail: set<int>)
    requires before.buckets.Keys + tail == MinutesOf(t) && before.buckets.Keys !! tail
    requires RowsToWrite(p, t).Keys <= MinutesOf(t) && RowsToWrite(p, t).Keys !! before.buckets.Keys
    requires end.buckets == RemainingBuckets(p, t, before.buckets - c) && forall m :: Fresh(t, end, m)
    ensures RowsToWrite(p, t) == BucketRows(t, tail)
  {
    var rows := RowsToWrite(p, t);
    forall m
      ensures m in rows <==> m in tail
      ensures m in rows ==> rows[m] == BucketRowAt(t, m)
    {
      assert Fresh(t, end, m);
      assert m in MinutesOf(t) <==> m in before.buckets.Keys + tail;
      TailAt(t, p, before.buckets, before.buckets.Keys, c, tail, m);
    }
    SameMap(rows, BucketRows(t, tail));
  }

  lemma TailAt(t: Table, p: Phase, before: map<int, BucketRow>, done: set<int>, c: set<int>, tail: set<int>, m: int)
    requires (m in MinutesOf(t) <==> m in done || m in tail) && !(m in done && m in tail)
    requires (m in before <==> m in done) && !(m in RowsToWrite(p, t) && m in done) && (m in RowsToWrite(p, t) ==> m in MinutesOf(t))
    requires BucketFresh(t, RemainingBuckets(p, t, before - c), m)
    ensures m in RowsToWrite(p, t) <==> m in tail
    ensures m in RowsToWrite(p, t) ==> RowsToWrite(p, t)[m] == BucketRowAt(t, m)
  {
    WrittenBucketAt(t, p, before - c, m);
  }

  lemma WrittenBucketAt(t: Table, p: Phase, buckets: map<int, BucketRow>, m: int)
    ensures var after := RemainingBuckets(p, t, buckets);
            && (m in RowsToWrite(p, t) ==> m in after && after[m] == RowsToWrite(p, t)[m])
            && (m !in RowsToWrite(p, t) && m in after ==> m in buckets)
  {
  }

  lemma SplitChunks(chunks: seq<set<int>>, minutes: set<int>, k: nat)
    requires Chunking(chunks, minutes) && k < |chunks|
    ensures Covered(chunks[..k]) + Covered(chunks[k..]) == minutes && Covered(chunks[..k]) !! Covered(chunks[k..])
  {
    forall m | m in minutes
      ensures m in Covered(chunks[..k]) + Covered(chunks[k..])
    {
      var i :| 0 <= i < |chunks| && m in chunks[i];
      assert if i < k then m in chunks[..k][i] else m in chunks[k..][i - k];
    }
    forall m | m in Covered(chunks[..k])
      ensures m in minutes && m !in Covered(chunks[k..])
    {
      var i :| 0 <= i < k && m in chunks[..k][i];
      assert m in chunks[i];
      assert forall j :: 0 <= j < |chunks[k..]| ==> chunks[k..][j] == chunks[k + j];
    }
    forall m | m in Covered(chunks[k..])
      ensures m in minutes
    {
      var j :| 0 <= j < |chunks[k..]| && m in chunks[k..][j];
      assert m in chunks[k + j];
    }
  }

  lemma HarmfulGoesAstray(t: Table, chunks: seq<set<int>>, o: Overlap)
    requires Starts(t, chunks, o) && !Harmless(o.phase, t, chunks)
    ensures GoesAstray(t, chunks, o)
  {
    var gone := RowsToWrite(o.phase, t).Keys - MinutesOf(t);
    if !HeldIsCurrent(o.phase, t) {
      HeldRowsStay(t, chunks, o);
    } else if gone != {} {
      var m := SomeElement(gone);
      GoneMinuteStays(t, chunks, o, m);
    } else {
      assert RowsToWrite(o.phase, t).Keys <= gone + MinutesOf(t);
      ClashLosesMinutes(t, chunks, o);
    }
  }

  /** Every interleaving ends with the derivation, up to a batch that is returned, if and only if the
      bucket rows the refresh has still to write are none or exactly those from some chunk on, and the
      identities it holds are current. */
  lemma OverlapIsSafeIff(t: Table, chunks: seq<set<int>>, o: Overlap)
    requires Starts(t, chunks, o)
    ensures AlwaysEndsOwned(t, chunks, o) <==> Harmless(o.phase, t, chunks)
  {
    if Harmless(o.phase, t, chunks) {
      HarmlessEndsOwned(t, chunks, o);
    } else {
      HarmfulGoesAstray(t, chunks, o);
      LeadsAstray(t, chunks, o);
    }
  }

  /** A refresh that has read nothing yet, and a rebuild in one chunk: safe if and only if the batch
      meets no minute of the table or covers them all. */
  lemma OneChunkIff(t: Table, b: set<int>, o: Overlap)
    requires Starts(t, [MinutesOf(t)], o) && 1 <= Rank(o.phase) <= 4 && o.phase.batch == b
    ensures AlwaysEndsOwned(t, [MinutesOf(t)], o) <==> b !! MinutesOf(t) || MinutesOf(t) <= b
  {
    OverlapIsSafeIff(t, [MinutesOf(t)], o);
    NothingRead(t, o.phase);
    OneChunkRows(t, b);
  }

  lemma NothingRead(t: Table, p: Phase)
    requires 1 <= Rank(p) <= 4
    ensures RowsToWrite(p, t) == BucketRows(t, p.batch) && HeldIsCurrent(p, t)
  {
  }

  lemma OneChunkRows(t: Table, b: set<int>)
    ensures RowsOfLastChunks(BucketRows(t, b), t, [MinutesOf(t)]) <==> b !! MinutesOf(t) || MinutesOf(t) <= b
  {
    var all, rows := MinutesOf(t), BucketRows(t, b);
    CoveredNext([all]);
    assert [all][0..] == [all] && Covered([all]) == all;
    NoRowsIff(t, b);
    AllRowsIff(t, b);
    assert RowsFrom(rows, t, [all], 0) <==> rows == BucketRows(t, all);
  }

  lemma NoRowsIff(t: Table, b: set<int>)
    ensures BucketRows(t, b) == map[] <==> b !! MinutesOf(t)
  {
    assert BucketRows(t, b).Keys == b * MinutesOf(t);
    if !(b !! MinutesOf(t)) {
      var m :| m in b && m in MinutesOf(t);
      assert m in BucketRows(t, b);
    }
  }

  lemma AllRowsIff(t: Table, b: set<int>)
    ensures BucketRows(t, b) == BucketRows(t, MinutesOf(t)) <==> MinutesOf(t) <= b
  {
    if BucketRows(t, b) == BucketRows(t, MinutesOf(t)) {
      forall m | m in MinutesOf(t)
        ensures m in b
      {
        assert m in BucketRows(t, MinutesOf(t));
      }
    }
  }

  /** When all logs are deleted: safe if and only if the refresh holds no rows by the time the detailed
      table is empty. */
  lemma DeleteAllIff(o: Overlap)
    requires Starts(map[], [], o) && o.rebuild == ClearTable(0, Only)
    ensures AlwaysEndsOwned(map[], [], o) <==> HoldsNothing(o.phase)
  {
    OverlapIsSafeIff(map[], [], o);
    var none: Table := map[];
    assert IdentityRows(none, MinutesOf(none)) == {} && FilterIdentityRows(none, MinutesOf(none)) == {};
    assert forall b :: BucketRows(none, b) == map[];
  }

  /** The phase holds no rows. */
  ghost predicate HoldsNothing(p: Phase)
  {
    && (p.WriteBuckets? ==> p.bucketRows == map[])
    && (p.ReadHosts? || p.WriteIdentities? ==> p.rows == {})
    && (p.ReadFilterHosts? || p.WriteFilterIdentities? ==> p.filterRows == {})
  }
}
