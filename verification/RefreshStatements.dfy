/** A refresh of the derived tables, statement by statement: it drops the rows of its batch,
    reads them anew from the detailed table and writes them, with rows in hand in between.
    Other actors may change the detailed table, or clear tables, between two statements. */
module RefreshStatements {
  import opened Sums
  import opened AccessLog
  import opened DerivedRollups

  /** The next statement of the refresh in flight, with the rows it has read. */
  datatype Phase =
    | NoRefresh
    | DropIdentities(batch: set<int>)
    | DropFilterIdentities(batch: set<int>)
    | DropBuckets(batch: set<int>)
    | ReadBuckets(batch: set<int>)
    | WriteBuckets(batch: set<int>, bucketRows: map<int, BucketRow>)
    | ReadAddresses(batch: set<int>)
    | ReadHosts(batch: set<int>, rows: set<Identity>)
    | WriteIdentities(batch: set<int>, rows: set<Identity>)
    | ReadFilterAddresses(batch: set<int>)
    | ReadFilterHosts(batch: set<int>, filterRows: set<FilterIdentity>)
    | WriteFilterIdentities(batch: set<int>, filterRows: set<FilterIdentity>)
    | Finishing(batch: set<int>)

  function BatchOf(p: Phase): set<int>
  {
    if p.NoRefresh? then {} else p.batch
  }

  function Rank(p: Phase): nat
  {
    match p
    case NoRefresh => 0
    case DropIdentities(_) => 1
    case DropFilterIdentities(_) => 2
    case DropBuckets(_) => 3
    case ReadBuckets(_) => 4
    case WriteBuckets(_, _) => 5
    case ReadAddresses(_) => 6
    case ReadHosts(_, _) => 7
    case WriteIdentities(_, _) => 8
    case ReadFilterAddresses(_) => 9
    case ReadFilterHosts(_, _) => 10
    case WriteFilterIdentities(_, _) => 11
    case Finishing(_) => 12
  }

  function StatementsLeft(p: Phase): nat
  {
    if p.NoRefresh? then 0 else 13 - Rank(p)
  }

  /** Rows of the identity table for one kind: one of the two SELECTs that fill it. */
  ghost function KindRows(t: Table, minutes: set<int>, kind: Kind): set<Identity>
  {
    set k | k in KeysIn(t, minutes) && ValueOf(k.dims, kind) != "" :: IdentityOf(k, kind)
  }

  ghost function FilterKindRows(t: Table, minutes: set<int>, kind: Kind): set<FilterIdentity>
  {
    set k | k in KeysIn(t, minutes) && ValueOf(k.dims, kind) != "" :: FilterIdentityOf(k, kind)
  }

  ghost function IdentitiesOutside(rows: set<Identity>, batch: set<int>): set<Identity>
  {
    set i | i in rows && i.minute !in batch
  }

  ghost function FilterIdentitiesOutside(rows: set<FilterIdentity>, batch: set<int>): set<FilterIdentity>
  {
    set i | i in rows && i.minute !in batch
  }

  /** The bucket table has one row per minute: writing a minute that is there fails. The identity
      tables ignore rows that are there. */
  ghost predicate Conflicts(p: Phase, tables: Tables)
  {
    p.WriteBuckets? && exists m :: m in p.bucketRows && m in tables.buckets
  }

  /** The tables after the statement, if it succeeds. */
  ghost function StepTables(p: Phase, tables: Tables): Tables
  {
    match p
    case DropIdentities(b) => tables.(identities := IdentitiesOutside(tables.identities, b))
    case DropFilterIdentities(b) => tables.(filterIdentities := FilterIdentitiesOutside(tables.filterIdentities, b))
    case DropBuckets(b) => tables.(buckets := tables.buckets - b)
    case WriteBuckets(_, rows) => tables.(buckets := tables.buckets + rows)
    case WriteIdentities(_, rows) => tables.(identities := tables.identities + rows)
    case WriteFilterIdentities(_, rows) => tables.(filterIdentities := tables.filterIdentities + rows)
    case _ => tables
  }

  /** The statement after it, with the rows read so far. */
  ghost function StepPhase(p: Phase, t: Table): Phase
  {
    match p
    case NoRefresh => NoRefresh
    case DropIdentities(b) => DropFilterIdentities(b)
    case DropFilterIdentities(b) => DropBuckets(b)
    case DropBuckets(b) => ReadBuckets(b)
    case ReadBuckets(b) => WriteBuckets(b, BucketRows(t, b))
    case WriteBuckets(b, _) => ReadAddresses(b)
    case ReadAddresses(b) => ReadHosts(b, KindRows(t, b, Address))
    case ReadHosts(b, rows) => WriteIdentities(b, rows + KindRows(t, b, HostName))
    case WriteIdentities(b, _) => ReadFilterAddresses(b)
    case ReadFilterAddresses(b) => ReadFilterHosts(b, FilterKindRows(t, b, Address))
    case ReadFilterHosts(b, rows) => WriteFilterIdentities(b, rows + FilterKindRows(t, b, HostName))
    case WriteFilterIdentities(b, _) => Finishing(b)
    case Finishing(_) => NoRefresh
  }

  // ----- what the remaining statements will make of the tables -----

  ghost function RemainingBuckets(p: Phase, t: Table, buckets: map<int, BucketRow>): map<int, BucketRow>
  {
    match p
    case DropIdentities(b) => (buckets - b) + BucketRows(t, b)
    case DropFilterIdentities(b) => (buckets - b) + BucketRows(t, b)
    case DropBuckets(b) => (buckets - b) + BucketRows(t, b)
    case ReadBuckets(b) => buckets + BucketRows(t, b)
    case WriteBuckets(_, rows) => buckets + rows
    case _ => buckets
  }

  ghost function RemainingIdentities(p: Phase, t: Table, rows: set<Identity>): set<Identity>
  {
    match p
    case DropIdentities(b) => IdentitiesOutside(rows, b) + IdentityRows(t, b)
    case DropFilterIdentities(b) => rows + IdentityRows(t, b)
    case DropBuckets(b) => rows + IdentityRows(t, b)
    case ReadBuckets(b) => rows + IdentityRows(t, b)
    case WriteBuckets(b, _) => rows + IdentityRows(t, b)
    case ReadAddresses(b) => rows + IdentityRows(t, b)
    case ReadHosts(b, read) => rows + (read + KindRows(t, b, HostName))
    case WriteIdentities(_, read) => rows + read
    case _ => rows
  }

  ghost function RemainingFilterIdentities(p: Phase, t: Table, rows: set<FilterIdentity>): set<FilterIdentity>
  {
    match p
    case NoRefresh => rows
    case DropIdentities(b) => FilterIdentitiesOutside(rows, b) + FilterIdentityRows(t, b)
    case DropFilterIdentities(b) => FilterIdentitiesOutside(rows, b) + FilterIdentityRows(t, b)
    case ReadFilterHosts(b, read) => rows + (read + FilterKindRows(t, b, HostName))
    case WriteFilterIdentities(_, read) => rows + read
    case Finishing(_) => rows
    case _ => rows + FilterIdentityRows(t, p.batch)
  }

  /** The tables once the refresh is done, if nothing else happens and no statement fails. */
  ghost function Remaining(p: Phase, t: Table, tables: Tables): Tables
  {
    Tables(
      RemainingBuckets(p, t, tables.buckets),
      RemainingIdentities(p, t, tables.identities),
      RemainingFilterIdentities(p, t, tables.filterIdentities))
  }

  lemma KindsMakeIdentities(t: Table, minutes: set<int>)
    ensures KindRows(t, minutes, Address) + KindRows(t, minutes, HostName) == IdentityRows(t, minutes)
    ensures FilterKindRows(t, minutes, Address) + FilterKindRows(t, minutes, HostName) == FilterIdentityRows(t, minutes)
  {
    forall i | i in IdentityRows(t, minutes)
      ensures i in KindRows(t, minutes, Address) + KindRows(t, minutes, HostName)
    {
      var k, kind :| k in KeysIn(t, minutes) && ValueOf(k.dims, kind) != "" && i == IdentityOf(k, kind);
      assert i in KindRows(t, minutes, kind);
    }
    forall i | i in FilterIdentityRows(t, minutes)
      ensures i in FilterKindRows(t, minutes, Address) + FilterKindRows(t, minutes, HostName)
    {
      var k, kind :| k in KeysIn(t, minutes) && ValueOf(k.dims, kind) != "" && i == FilterIdentityOf(k, kind);
      assert i in FilterKindRows(t, minutes, kind);
    }
  }

  lemma StepKeepsBuckets(p: Phase, t: Table, tables: Tables)
    requires p != NoRefresh
    ensures RemainingBuckets(StepPhase(p, t), t, StepTables(p, tables).buckets) == RemainingBuckets(p, t, tables.buckets)
  {
  }

  lemma StepKeepsIdentities(p: Phase, t: Table, tables: Tables)
    requires p != NoRefresh
    ensures RemainingIdentities(StepPhase(p, t), t, StepTables(p, tables).identities) == RemainingIdentities(p, t, tables.identities)
  {
    KindsMakeIdentities(t, p.batch);
  }

  lemma StepKeepsFilterIdentities(p: Phase, t: Table, tables: Tables)
    requires p != NoRefresh
    ensures RemainingFilterIdentities(StepPhase(p, t), t, StepTables(p, tables).filterIdentities)
            == RemainingFilterIdentities(p, t, tables.filterIdentities)
  {
    KindsMakeIdentities(t, p.batch);
  }

  /** A statement keeps what the refresh will have made. */
  lemma StepKeepsRemaining(p: Phase, t: Table, tables: Tables)
    requires p != NoRefresh
    ensures Remaining(StepPhase(p, t), t, StepTables(p, tables)) == Remaining(p, t, tables)
  {
    StepKeepsBuckets(p, t, tables);
    StepKeepsIdentities(p, t, tables);
    StepKeepsFilterIdentities(p, t, tables);
  }

  // ----- minute by minute -----

  /** The tables hold the same rows for a minute. */
  ghost predicate SameAt(a: Tables, b: Tables, m: int)
  {
    && (m in a.buckets <==> m in b.buckets) && (m in a.buckets ==> a.buckets[m] == b.buckets[m])
    && IdentitiesIn(a.identities, {m}) == IdentitiesIn(b.identities, {m})
    && FilterIdentitiesIn(a.filterIdentities, {m}) == FilterIdentitiesIn(b.filterIdentities, {m})
  }

  lemma FreshSame(t: Table, a: Tables, b: Tables, m: int)
    requires SameAt(a, b, m)
    ensures Fresh(t, a, m) <==> Fresh(t, b, m)
  {
  }

  /** Tables that differ at most in the rows of a batch. */
  ghost predicate SameOutside(a: Tables, b: Tables, batch: set<int>)
  {
    forall m :: m !in batch ==> SameAt(a, b, m)
  }

  /** The rows a refresh holds belong to its batch. */
  ghost predicate RowsInBatch(p: Phase)
  {
    && (p.WriteBuckets? ==> p.bucketRows.Keys <= p.batch)
    && (p.ReadHosts? || p.WriteIdentities? ==> forall i :: i in p.rows ==> i.minute in p.batch)
    && (p.ReadFilterHosts? || p.WriteFilterIdentities? ==> forall i :: i in p.filterRows ==> i.minute in p.batch)
  }

  lemma StepKeepsRows(p: Phase, t: Table)
    requires RowsInBatch(p)
    ensures RowsInBatch(StepPhase(p, t))
  {
  }

  /** A statement touches no minute outside the batch. */
  lemma StepIsLocal(p: Phase, tables: Tables, m: int)
    requires RowsInBatch(p) && m !in BatchOf(p)
    ensures SameAt(tables, StepTables(p, tables), m)
  {
    var after := StepTables(p, tables);
    assert IdentitiesIn(after.identities, {m}) == IdentitiesIn(tables.identities, {m});
    assert FilterIdentitiesIn(after.filterIdentities, {m}) == FilterIdentitiesIn(tables.filterIdentities, {m});
  }

  lemma IdentitiesUnion(a: set<Identity>, b: set<Identity>, m: int)
    ensures IdentitiesIn(a + b, {m}) == IdentitiesIn(a, {m}) + IdentitiesIn(b, {m})
  {
  }

  lemma FilterIdentitiesUnion(a: set<FilterIdentity>, b: set<FilterIdentity>, m: int)
    ensures FilterIdentitiesIn(a + b, {m}) == FilterIdentitiesIn(a, {m}) + FilterIdentitiesIn(b, {m})
  {
  }

  /** The identities at a minute once the refresh is done. */
  lemma RemainingIdentitiesAt(p: Phase, t: Table, rows: set<Identity>, m: int)
    requires p != NoRefresh
    ensures IdentitiesIn(RemainingIdentities(p, t, rows), {m}) ==
            (if p.DropIdentities? && m in p.batch then {} else IdentitiesIn(rows, {m}))
            + (if Rank(p) <= 6 then (if m in p.batch then IdentityRows(t, {m}) else {})
               else if p.ReadHosts? then IdentitiesIn(p.rows, {m}) + (if m in p.batch then KindRows(t, {m}, HostName) else {})
               else if p.WriteIdentities? then IdentitiesIn(p.rows, {m})
               else {})
  {
    IdentityRowsSplit(t, p.batch, m);
    if p.DropIdentities? {
      IdentitiesUnion(IdentitiesOutside(rows, p.batch), IdentityRows(t, p.batch), m);
    } else if Rank(p) <= 6 {
      IdentitiesUnion(rows, IdentityRows(t, p.batch), m);
    } else if p.ReadHosts? {
      IdentitiesUnion(rows, p.rows + KindRows(t, p.batch, HostName), m);
      IdentitiesUnion(p.rows, KindRows(t, p.batch, HostName), m);
    } else if p.WriteIdentities? {
      IdentitiesUnion(rows, p.rows, m);
    }
  }

  lemma RemainingFilterIdentitiesAt(p: Phase, t: Table, rows: set<FilterIdentity>, m: int)
    requires p != NoRefresh
    ensures FilterIdentitiesIn(RemainingFilterIdentities(p, t, rows), {m}) ==
            (if Rank(p) <= 2 && m in p.batch then {} else FilterIdentitiesIn(rows, {m}))
            + (if Rank(p) <= 9 then (if m in p.batch then FilterIdentityRows(t, {m}) else {})
               else if p.ReadFilterHosts? then
                 FilterIdentitiesIn(p.filterRows, {m}) + (if m in p.batch then FilterKindRows(t, {m}, HostName) else {})
               else if p.WriteFilterIdentities? then FilterIdentitiesIn(p.filterRows, {m})
               else {})
  {
    IdentityRowsSplit(t, p.batch, m);
    if Rank(p) <= 2 {
      FilterIdentitiesUnion(FilterIdentitiesOutside(rows, p.batch), FilterIdentityRows(t, p.batch), m);
    } else if Rank(p) <= 9 {
      FilterIdentitiesUnion(rows, FilterIdentityRows(t, p.batch), m);
    } else if p.ReadFilterHosts? {
      FilterIdentitiesUnion(rows, p.filterRows + FilterKindRows(t, p.batch, HostName), m);
      FilterIdentitiesUnion(p.filterRows, FilterKindRows(t, p.batch, HostName), m);
    } else if p.WriteFilterIdentities? {
      FilterIdentitiesUnion(rows, p.filterRows, m);
    }
  }

  /** The bucket row at a minute once the refresh is done. */
  lemma RemainingBucketsAt(p: Phase, t: Table, buckets: map<int, BucketRow>, m: int)
    requires p != NoRefresh
    ensures var after := RemainingBuckets(p, t, buckets);
            if Rank(p) <= 4 && m in p.batch && m in MinutesOf(t) then m in after && after[m] == BucketRowAt(t, m)
            else if p.WriteBuckets? && m in p.bucketRows then m in after && after[m] == p.bucketRows[m]
            else if Rank(p) <= 3 && m in p.batch then m !in after
            else (m in after <==> m in buckets) && (m in after ==> after[m] == buckets[m])
  {
  }

  lemma RemainingBucketsLocal(p: Phase, t: Table, u: Table, buckets: map<int, BucketRow>, m: int)
    requires p != NoRefresh && BucketRowAt(t, m) == BucketRowAt(u, m) && (m in MinutesOf(t) <==> m in MinutesOf(u))
    ensures var a, b := RemainingBuckets(p, t, buckets), RemainingBuckets(p, u, buckets);
            (m in a <==> m in b) && (m in a ==> a[m] == b[m])
  {
    RemainingBucketsAt(p, t, buckets, m);
    RemainingBucketsAt(p, u, buckets, m);
  }

  /** What the refresh will have made at a minute depends on that minute's detailed rows only. */
  lemma RemainingIsLocal(p: Phase, t: Table, u: Table, tables: Tables, m: int)
    requires KeysIn(t, {m}) == KeysIn(u, {m})
    requires forall k :: k in KeysIn(t, {m}) ==> t[k] == u[k]
    ensures SameAt(Remaining(p, t, tables), Remaining(p, u, tables), m)
  {
    if p != NoRefresh {
      DerivationIsLocal(t, u, m);
      RemainingBucketsLocal(p, t, u, tables.buckets, m);
      assert KindRows(t, {m}, HostName) == KindRows(u, {m}, HostName);
      assert FilterKindRows(t, {m}, HostName) == FilterKindRows(u, {m}, HostName);
      RemainingIdentitiesAt(p, t, tables.identities, m);
      RemainingIdentitiesAt(p, u, tables.identities, m);
      RemainingFilterIdentitiesAt(p, t, tables.filterIdentities, m);
      RemainingFilterIdentitiesAt(p, u, tables.filterIdentities, m);
    }
  }

  lemma RefreshedIdentities(b: set<int>, t: Table, rows: set<Identity>, m: int)
    requires m in b
    ensures IdentityFresh(t, IdentitiesOutside(rows, b) + IdentityRows(t, b), m)
  {
    IdentityRowsSplit(t, b, m);
    IdentitiesUnion(IdentitiesOutside(rows, b), IdentityRows(t, b), m);
  }

  lemma RefreshedFilterIdentities(b: set<int>, t: Table, rows: set<FilterIdentity>, m: int)
    requires m in b
    ensures FilterIdentityFresh(t, FilterIdentitiesOutside(rows, b) + FilterIdentityRows(t, b), m)
  {
    IdentityRowsSplit(t, b, m);
    FilterIdentitiesUnion(FilterIdentitiesOutside(rows, b), FilterIdentityRows(t, b), m);
  }

  /** A refresh from its first statement makes every minute of its batch fresh. */
  lemma WholeRefreshIsFresh(b: set<int>, t: Table, tables: Tables, m: int)
    requires m in b
    ensures Fresh(t, Remaining(DropIdentities(b), t, tables), m)
  {
    RefreshedIdentities(b, t, tables.identities, m);
    RefreshedFilterIdentities(b, t, tables.filterIdentities, m);
  }

  lemma RemainingOutside(p: Phase, t: Table, tables: Tables, m: int)
    requires RowsInBatch(p) && m !in BatchOf(p)
    ensures SameAt(tables, Remaining(p, t, tables), m)
  {
    if p != NoRefresh {
      RemainingBucketsAt(p, t, tables.buckets, m);
      RemainingIdentitiesAt(p, t, tables.identities, m);
      RemainingFilterIdentitiesAt(p, t, tables.filterIdentities, m);
    }
  }

  /** The statement, or the write that the next statement leads to, fails if nothing else happens. */
  ghost predicate WillConflict(p: Phase, t: Table, tables: Tables)
  {
    Conflicts(p, tables) || (p.ReadBuckets? && Conflicts(StepPhase(p, t), tables))
  }

  lemma StepKeepsClear(p: Phase, t: Table, tables: Tables)
    requires p != NoRefresh && !WillConflict(p, t, tables)
    ensures !Conflicts(p, tables) && !WillConflict(StepPhase(p, t), t, StepTables(p, tables))
    ensures StatementsLeft(StepPhase(p, t)) < StatementsLeft(p)
    ensures !p.Finishing? ==> StepPhase(p, t) != NoRefresh && StepPhase(p, t).batch == p.batch
  {
  }
}
