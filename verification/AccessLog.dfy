/** Raw access-log records and the detailed per-minute rollup table.

    Two paths fill the detailed table. The incremental path turns each new
    record into a row in program code and adds it on conflict; the rebuild path
    groups each shard with one SQL statement. The table is keyed by the minute
    and the eight dimensions themselves; module DimensionKey shows why the
    joined text that is hashed stands for them. */
module AccessLog {
  import opened Sums
  import opened SqlDialect

  /** Go's zero time as Unix seconds. */
  const ZERO_TIME: int := -62135596800

  /** The zero time is midnight on the first day of the year 1: so many days before 1970. */
  lemma ZeroTimeIsYearOne()
    ensures var days := 1969 * 365 + 1969 / 4 - 1969 / 100 + 1969 / 400;
            ZERO_TIME == -days * 24 * 60 * 60
  {
  }

  datatype Record = Record(
    id: nat,
    nodeID: string,
    loggedAt: int,
    remoteAddr: string,
    region: string,
    operatorName: string,
    host: string,
    path: string,
    status: int,
    cacheStatus: string,
    requestBytes: int,
    responseBytes: int,
    upstreamBytes: int)

  datatype Dimensions = Dimensions(
    nodeID: string,
    remoteAddr: string,
    region: string,
    operatorName: string,
    host: string,
    path: string,
    status: int,
    cacheStatus: string)

  datatype Key = Key(minute: int, dims: Dimensions)

  function KeyOf(r: Record): Key
  {
    Key(MinuteOf(r.loggedAt),
        Dimensions(r.nodeID, r.remoteAddr, r.region, r.operatorName, r.host, r.path, r.status, r.cacheStatus))
  }

  /** The minute that the grouping statement computes for a record. */
  function SqlKeyOf(d: Dialect, r: Record): Key
  {
    KeyOf(r).(minute := BucketStart(d, MINUTE, r.loggedAt))
  }

  // ----- cache status -----

  datatype CacheClass = Hit | Miss | Bypass | Expired | Stale | Unclassified

  function Classify(s: string): CacheClass
  {
    if s == "HIT" then Hit
    else if s == "MISS" then Miss
    else if s == "BYPASS" then Bypass
    else if s == "EXPIRED" then Expired
    else if s == "STALE" then Stale
    else Unclassified
  }

  function Upper(s: string): string
  {
    seq(|s|, i requires 0 <= i < |s| => UpperChar(s[i]))
  }

  // ----- counters -----

  /** The summed columns of a rollup row. */
  datatype Column =
    | Requests | RequestBytes | ResponseBytes | UpstreamBytes | UpstreamHits
    | CacheCount(kind: CacheClass) | Classified

  datatype Measures = Measures(
    requests: int,
    requestBytes: int,
    responseBytes: int,
    upstreamBytes: int,
    upstreamHits: int,
    hits: int,
    misses: int,
    bypasses: int,
    expired: int,
    stale: int,
    classified: int,
    lastSeen: int)

  /** Which path computes a row; the SQL path depends on the backend. */
  datatype Source = FromRecord | FromSql(backend: Dialect)

  function KeyIn(source: Source, r: Record): Key
  {
    match source
    case FromRecord => KeyOf(r)
    case FromSql(d) => SqlKeyOf(d, r)
  }

  function NonNegative(v: int): int
  {
    if v < 0 then 0 else v
  }

  function Indicator(b: bool): int
  {
    if b then 1 else 0
  }

  /** The program path clamps negative byte counts and upper-cases the cache
      status before classifying it; the SQL path does neither. */
  function Value(source: Source, c: Column, r: Record): int
  {
    match source
    case FromRecord =>
      (match c
       case Requests => 1
       case RequestBytes => NonNegative(r.requestBytes)
       case ResponseBytes => NonNegative(r.responseBytes)
       case UpstreamBytes => NonNegative(r.upstreamBytes)
       case UpstreamHits => Indicator(NonNegative(r.upstreamBytes) > 0)
       case CacheCount(kind) => Indicator(Classify(Upper(r.cacheStatus)) == kind)
       case Classified => Indicator(Classify(Upper(r.cacheStatus)) != Unclassified))
    case FromSql(_) =>
      (match c
       case Requests => 1
       case RequestBytes => r.requestBytes
       case ResponseBytes => r.responseBytes
       case UpstreamBytes => r.upstreamBytes
       case UpstreamHits => Indicator(r.upstreamBytes > 0)
       case CacheCount(kind) => Indicator(Classify(r.cacheStatus) == kind)
       case Classified => Indicator(Classify(r.cacheStatus) != Unclassified))
  }

  /** The row a single record becomes on the program path. */
  function RowOf(r: Record): Measures
  {
    Measures(
      Value(FromRecord, Requests, r), Value(FromRecord, RequestBytes, r), Value(FromRecord, ResponseBytes, r),
      Value(FromRecord, UpstreamBytes, r), Value(FromRecord, UpstreamHits, r),
      Value(FromRecord, CacheCount(Hit), r), Value(FromRecord, CacheCount(Miss), r),
      Value(FromRecord, CacheCount(Bypass), r), Value(FromRecord, CacheCount(Expired), r),
      Value(FromRecord, CacheCount(Stale), r), Value(FromRecord, Classified, r), r.loggedAt)
  }

  function Later(a: int, b: int): int
  {
    if b > a then b else a
  }

  function Merge(a: Measures, b: Measures): Measures
  {
    Measures(
      a.requests + b.requests, a.requestBytes + b.requestBytes, a.responseBytes + b.responseBytes,
      a.upstreamBytes + b.upstreamBytes, a.upstreamHits + b.upstreamHits,
      a.hits + b.hits, a.misses + b.misses, a.bypasses + b.bypasses, a.expired + b.expired, a.stale + b.stale,
      a.classified + b.classified, Later(a.lastSeen, b.lastSeen))
  }

  // ----- the detailed table -----

  type Table = map<Key, Measures>

  /** One row added on conflict. */
  function AddRow(t: Table, k: Key, m: Measures): Table
  {
    t[k := if k in t then Merge(t[k], m) else m]
  }

  /** INSERT ... ON CONFLICT (bucket, dimensions) DO UPDATE: counters are added,
      the later last_seen_at is kept. */
  function Upsert(t: Table, rows: Table): Table
  {
    map k | k in t.Keys + rows.Keys ::
      if k in t && k in rows then Merge(t[k], rows[k]) else if k in t then t[k] else rows[k]
  }

  /** The rows of a batch of records; a record without a time gives no row. */
  function Aggregate(rs: seq<Record>): Table
  {
    if rs == [] then map[] else
      var last := rs[|rs| - 1];
      var front := Aggregate(rs[..|rs| - 1]);
      if last.loggedAt == ZERO_TIME then front else AddRow(front, KeyOf(last), RowOf(last))
  }

  /** The loop that builds the rows of a batch in a map. */
  method AggregateRecords(records: seq<Record>) returns (byKey: Table)
    ensures byKey == Aggregate(records)
  {
    byKey := map[];
    for i := 0 to |records|
      invariant byKey == Aggregate(records[..i])
    {
      var record := records[i];
      assert records[..i + 1][..i] == records[..i];
      if record.loggedAt != ZERO_TIME {
        var key := KeyOf(record);
        if key in byKey {
          byKey := byKey[key := Merge(byKey[key], RowOf(record))];
        } else {
          byKey := byKey[key := RowOf(record)];
        }
      }
    }
    assert records[..|records|] == records;
  }

  // ----- aggregation is a homomorphism -----

  lemma {:induction false} UpsertAddRow(t: Table, u: Table, k: Key, m: Measures)
    ensures Upsert(t, AddRow(u, k, m)) == AddRow(Upsert(t, u), k, m)
  {
  }

  lemma {:induction false} AggregateConcat(a: seq<Record>, b: seq<Record>)
    ensures Aggregate(a + b) == Upsert(Aggregate(a), Aggregate(b))
    decreases |b|
  {
    if b == [] {
      assert a + b == a;
      assert Aggregate(b) == map[];
      assert Upsert(Aggregate(a), map[]) == Aggregate(a);
    } else {
      var last := b[|b| - 1];
      assert (a + b)[..|a + b| - 1] == a + b[..|b| - 1];
      AggregateConcat(a, b[..|b| - 1]);
      UpsertAddRow(Aggregate(a), Aggregate(b[..|b| - 1]), KeyOf(last), RowOf(last));
    }
  }

  lemma UpsertCommutes(a: Table, b: Table)
    ensures Upsert(a, b) == Upsert(b, a)
  {
  }

  lemma {:induction false} UpsertAssociates(a: Table, b: Table, c: Table)
    ensures Upsert(Upsert(a, b), c) == Upsert(a, Upsert(b, c))
  {
  }

  /** Any order of the same records gives the same table. */
  lemma {:induction false} AggregatePermutation(a: seq<Record>, b: seq<Record>)
    requires multiset(a) == multiset(b)
    ensures Aggregate(a) == Aggregate(b)
    decreases |a|
  {
    if a == [] {
      assert |multiset(b)| == 0;
    } else {
      var i := PositionOfLast(a, b);
      var front, tail, x := b[..i], b[i + 1..], a[|a| - 1];
      AggregatePermutation(a[..|a| - 1], front + tail);
      assert a == a[..|a| - 1] + [x] && b == front + ([x] + tail);
      AggregateConcat(a[..|a| - 1], [x]);
      AggregateConcat(front, tail);
      AggregateConcat(front, [x] + tail);
      AggregateConcat([x], tail);
      UpsertCommutes(Aggregate([x]), Aggregate(tail));
      UpsertAssociates(Aggregate(front), Aggregate(tail), Aggregate([x]));
    }
  }

  // ----- the rebuild path -----

  /** SUM of one column over the rows of one group. */
  function ColumnSum(source: Source, rs: seq<Record>, k: Key, c: Column): int
  {
    if rs == [] then 0 else
      var last := rs[|rs| - 1];
      ColumnSum(source, rs[..|rs| - 1], k, c)
      + (if KeyIn(source, last) == k && (source == FromRecord ==> last.loggedAt != ZERO_TIME) then Value(source, c, last) else 0)
  }

  /** MAX(logged_at) over the rows of one group; ZERO_TIME for an empty group. */
  function LatestIn(source: Source, rs: seq<Record>, k: Key): int
  {
    if rs == [] then ZERO_TIME else
      var last := rs[|rs| - 1];
      var before := LatestIn(source, rs[..|rs| - 1], k);
      if KeyIn(source, last) != k then before
      else if Count(source, rs[..|rs| - 1], k) == 0 then last.loggedAt
      else Later(before, last.loggedAt)
  }

  /** The size of a group. */
  function Count(source: Source, rs: seq<Record>, k: Key): nat
  {
    if rs == [] then 0 else Count(source, rs[..|rs| - 1], k) + (if KeyIn(source, rs[|rs| - 1]) == k then 1 else 0)
  }

  function MeasuresFrom(source: Source, rs: seq<Record>, k: Key): Measures
  {
    Measures(
      ColumnSum(source, rs, k, Requests), ColumnSum(source, rs, k, RequestBytes), ColumnSum(source, rs, k, ResponseBytes),
      ColumnSum(source, rs, k, UpstreamBytes), ColumnSum(source, rs, k, UpstreamHits),
      ColumnSum(source, rs, k, CacheCount(Hit)), ColumnSum(source, rs, k, CacheCount(Miss)),
      ColumnSum(source, rs, k, CacheCount(Bypass)), ColumnSum(source, rs, k, CacheCount(Expired)),
      ColumnSum(source, rs, k, CacheCount(Stale)), ColumnSum(source, rs, k, Classified), LatestIn(source, rs, k))
  }

  function Keys(source: Source, rs: seq<Record>): set<Key>
  {
    set r | r in rs :: KeyIn(source, r)
  }

  /** SELECT ... GROUP BY minute and the eight dimensions, over one shard. */
  function SqlRows(d: Dialect, rs: seq<Record>): Table
  {
    map k | k in Keys(FromSql(d), rs) :: MeasuresFrom(FromSql(d), rs, k)
  }

  /** The rebuild: clear the table, then upsert each shard's groups in turn. */
  function Rebuild(d: Dialect, shards: seq<seq<Record>>): Table
  {
    if shards == [] then map[]
    else Upsert(Rebuild(d, shards[..|shards| - 1]), SqlRows(d, shards[|shards| - 1]))
  }

  method RebuildTable(d: Dialect, shards: seq<seq<Record>>) returns (t: Table)
    ensures t == Rebuild(d, shards)
  {
    t := map[];
    for i := 0 to |shards|
      invariant t == Rebuild(d, shards[..i])
    {
      assert shards[..i + 1][..i] == shards[..i];
      t := Upsert(t, SqlRows(d, shards[i]));
    }
    assert shards[..|shards|] == shards;
  }

  /** The backend puts the record in the minute the program does. */
  predicate MinuteAgrees(d: Dialect, r: Record)
  {
    d == Postgres || r.loggedAt >= 0 || r.loggedAt % MINUTE == 0
  }

  /** What a record must satisfy for both paths to agree on it. */
  predicate Normal(d: Dialect, r: Record)
  {
    && r.loggedAt != ZERO_TIME && MinuteAgrees(d, r)
    && r.requestBytes >= 0 && r.responseBytes >= 0 && r.upstreamBytes >= 0
    && (Classify(Upper(r.cacheStatus)) != Unclassified ==> Classify(r.cacheStatus) != Unclassified)
  }

  predicate AllNormal(d: Dialect, rs: seq<Record>)
  {
    forall r :: r in rs ==> Normal(d, r)
  }

  predicate AllTimed(rs: seq<Record>)
  {
    forall r :: r in rs ==> r.loggedAt != ZERO_TIME
  }

  predicate SameKeys(d: Dialect, rs: seq<Record>)
  {
    forall r :: r in rs ==> SqlKeyOf(d, r) == KeyOf(r)
  }

  lemma KeyAgreesIff(d: Dialect, r: Record)
    ensures SqlKeyOf(d, r) == KeyOf(r) <==> MinuteAgrees(d, r)
  {
    SqlMinuteIff(d, r.loggedAt);
    assert KeyOf(r).minute == MinuteOf(r.loggedAt);
  }

  lemma NormalValue(d: Dialect, c: Column, r: Record)
    requires Normal(d, r)
    ensures Value(FromRecord, c, r) == Value(FromSql(d), c, r)
  {
  }

  lemma {:induction false} NormalSum(d: Dialect, rs: seq<Record>, k: Key, c: Column)
    requires AllNormal(d, rs) && SameKeys(d, rs)
    ensures ColumnSum(FromRecord, rs, k, c) == ColumnSum(FromSql(d), rs, k, c)
    decreases |rs|
  {
    if rs != [] {
      assert rs[|rs| - 1] in rs;
      assert forall r :: r in rs[..|rs| - 1] ==> r in rs;
      NormalSum(d, rs[..|rs| - 1], k, c);
      NormalValue(d, c, rs[|rs| - 1]);
    }
  }

  /** With the same keys, the groups are the same. */
  lemma {:induction false} SameGroups(d: Dialect, rs: seq<Record>, k: Key)
    requires SameKeys(d, rs)
    ensures Keys(FromSql(d), rs) == Keys(FromRecord, rs)
    ensures Count(FromSql(d), rs, k) == Count(FromRecord, rs, k)
    ensures LatestIn(FromSql(d), rs, k) == LatestIn(FromRecord, rs, k)
    decreases |rs|
  {
    if rs != [] {
      var front, last := rs[..|rs| - 1], rs[|rs| - 1];
      assert rs == front + [last] && last in rs;
      SameGroups(d, front, k);
      KeysNext(FromSql(d), front, last);
      KeysNext(FromRecord, front, last);
    }
  }

  lemma KeysNext(source: Source, rs: seq<Record>, r: Record)
    ensures Keys(source, rs + [r]) == Keys(source, rs) + {KeyIn(source, r)}
  {
    assert forall x :: x in rs + [r] <==> x in rs || x == r;
    assert r in rs + [r];
  }

  lemma {:induction false} CountPositive(source: Source, rs: seq<Record>, k: Key)
    ensures Count(source, rs, k) > 0 <==> k in Keys(source, rs)
    decreases |rs|
  {
    if rs != [] {
      var front := rs[..|rs| - 1];
      CountPositive(source, front, k);
      assert rs == front + [rs[|rs| - 1]];
      KeysNext(source, front, rs[|rs| - 1]);
    }
  }

  /** Without zero times the program path's rows are groups of column sums. */
  lemma {:induction false} AggregateIsGrouping(rs: seq<Record>)
    requires AllTimed(rs)
    ensures Aggregate(rs).Keys == Keys(FromRecord, rs)
    ensures forall k :: k in Keys(FromRecord, rs) ==> Aggregate(rs)[k] == MeasuresFrom(FromRecord, rs, k)
    decreases |rs|
  {
    if rs != [] {
      var front, last := rs[..|rs| - 1], rs[|rs| - 1];
      AggregateIsGrouping(front);
      assert rs == front + [last];
      KeysNext(FromRecord, front, last);
      forall k | k in Keys(FromRecord, rs)
        ensures Aggregate(rs)[k] == MeasuresFrom(FromRecord, rs, k)
      {
        GroupingStep(rs, k);
      }
    }
  }

  /** How the last record changes the sums of a group. */
  lemma GroupingStep(rs: seq<Record>, k: Key)
    requires rs != [] && rs[|rs| - 1].loggedAt != ZERO_TIME
    ensures var front, last := rs[..|rs| - 1], rs[|rs| - 1];
            MeasuresFrom(FromRecord, rs, k) ==
            if KeyOf(last) != k then MeasuresFrom(FromRecord, front, k)
            else if k in Keys(FromRecord, front) then Merge(MeasuresFrom(FromRecord, front, k), RowOf(last))
            else RowOf(last)
  {
    var front := rs[..|rs| - 1];
    CountPositive(FromRecord, front, k);
    if k !in Keys(FromRecord, front) {
      forall c
        ensures ColumnSum(FromRecord, rs, k, c) == if KeyOf(rs[|rs| - 1]) == k then Value(FromRecord, c, rs[|rs| - 1]) else 0
      {
        EmptyGroup(FromRecord, front, k);
      }
    }
  }

  lemma {:induction false} EmptyGroup(source: Source, rs: seq<Record>, k: Key)
    requires k !in Keys(source, rs)
    ensures forall c :: ColumnSum(source, rs, k, c) == 0
    decreases |rs|
  {
    if rs != [] {
      var front := rs[..|rs| - 1];
      assert forall r :: r in front ==> r in rs;
      assert KeyIn(source, rs[|rs| - 1]) in Keys(source, rs);
      EmptyGroup(source, front, k);
    }
  }

  lemma NormalRowsAgree(d: Dialect, rs: seq<Record>)
    requires AllNormal(d, rs) && SameKeys(d, rs)
    ensures SqlRows(d, rs) == Aggregate(rs)
  {
    AggregateIsGrouping(rs);
    var sql, program := SqlRows(d, rs), Aggregate(rs);
    if rs != [] {
      SameGroups(d, rs, KeyOf(rs[0]));
    }
    forall k | k in sql.Keys
      ensures sql[k] == program[k]
    {
      NormalGroup(d, rs, k);
    }
    SameMap(sql, program);
  }

  lemma NormalGroup(d: Dialect, rs: seq<Record>, k: Key)
    requires AllNormal(d, rs) && SameKeys(d, rs)
    ensures MeasuresFrom(FromRecord, rs, k) == MeasuresFrom(FromSql(d), rs, k)
  {
    SameGroups(d, rs, k);
    NormalSum(d, rs, k, Requests);
    NormalSum(d, rs, k, RequestBytes);
    NormalSum(d, rs, k, ResponseBytes);
    NormalSum(d, rs, k, UpstreamBytes);
    NormalSum(d, rs, k, UpstreamHits);
    NormalSum(d, rs, k, CacheCount(Hit));
    NormalSum(d, rs, k, CacheCount(Miss));
    NormalSum(d, rs, k, CacheCount(Bypass));
    NormalSum(d, rs, k, CacheCount(Expired));
    NormalSum(d, rs, k, CacheCount(Stale));
    NormalSum(d, rs, k, Classified);
  }

  /** If one path's column is nowhere above the other's, and somewhere below it, the sums differ. */
  lemma {:induction false} StrictGap(d: Dialect, rs: seq<Record>, k: Key, c: Column, at: nat)
    requires at < |rs| && KeyOf(rs[at]) == k && AllTimed(rs) && SameKeys(d, rs)
    requires forall r :: r in rs ==> Value(FromSql(d), c, r) <= Value(FromRecord, c, r)
    requires Value(FromSql(d), c, rs[at]) < Value(FromRecord, c, rs[at])
    ensures ColumnSum(FromSql(d), rs, k, c) < ColumnSum(FromRecord, rs, k, c)
    decreases |rs|
  {
    var front := rs[..|rs| - 1];
    assert rs[|rs| - 1] in rs;
    if at == |rs| - 1 {
      WeakGap(d, front, k, c);
    } else {
      StrictGap(d, front, k, c, at);
    }
  }

  lemma {:induction false} WeakGap(d: Dialect, rs: seq<Record>, k: Key, c: Column)
    requires AllTimed(rs) && SameKeys(d, rs)
    requires forall r :: r in rs ==> Value(FromSql(d), c, r) <= Value(FromRecord, c, r)
    ensures ColumnSum(FromSql(d), rs, k, c) <= ColumnSum(FromRecord, rs, k, c)
    decreases |rs|
  {
    if rs != [] {
      assert rs[|rs| - 1] in rs;
      WeakGap(d, rs[..|rs| - 1], k, c);
    }
  }

  /** A record that the rebuild counts under a key and the program does not. */
  predicate OnlyRebuilt(d: Dialect, r: Record, k: Key)
  {
    SqlKeyOf(d, r) == k && (KeyOf(r) != k || r.loggedAt == ZERO_TIME)
  }

  /** If the rebuild counts all the program counts under a key, and something else, the counts differ. */
  lemma {:induction false} RequestGap(d: Dialect, rs: seq<Record>, k: Key)
    requires forall r :: r in rs && KeyOf(r) == k && r.loggedAt != ZERO_TIME ==> SqlKeyOf(d, r) == k
    ensures k in Aggregate(rs) ==> Aggregate(rs)[k].requests == ColumnSum(FromRecord, rs, k, Requests)
    ensures k !in Aggregate(rs) ==> ColumnSum(FromRecord, rs, k, Requests) == 0
    ensures ColumnSum(FromRecord, rs, k, Requests) <= ColumnSum(FromSql(d), rs, k, Requests)
    ensures (exists r :: r in rs && OnlyRebuilt(d, r, k)) ==>
              ColumnSum(FromRecord, rs, k, Requests) < ColumnSum(FromSql(d), rs, k, Requests)
    decreases |rs|
  {
    if rs != [] {
      RequestGap(d, rs[..|rs| - 1], k);
      assert rs == rs[..|rs| - 1] + [rs[|rs| - 1]];
    }
  }

  /** So equal tables leave no such record. */
  lemma AgreementLeavesNone(d: Dialect, rs: seq<Record>, r: Record, k: Key)
    requires SqlRows(d, rs) == Aggregate(rs) && r in rs
    requires forall x :: x in rs && KeyOf(x) == k && x.loggedAt != ZERO_TIME ==> SqlKeyOf(d, x) == k
    ensures !OnlyRebuilt(d, r, k)
  {
    RequestGap(d, rs, k);
    if SqlKeyOf(d, r) == k {
      assert k in Keys(FromSql(d), rs);
      assert k in SqlRows(d, rs);
    }
  }

  /** The record that the backend moves to the latest minute. */
  lemma {:induction false} LatestMoved(d: Dialect, rs: seq<Record>, r: Record) returns (m: Record)
    requires r in rs && !MinuteAgrees(d, r)
    ensures m in rs && !MinuteAgrees(d, m)
    ensures forall x :: x in rs && !MinuteAgrees(d, x) ==> SqlKeyOf(d, x).minute <= SqlKeyOf(d, m).minute
    decreases |rs|
  {
    var front, last := rs[..|rs| - 1], rs[|rs| - 1];
    assert rs == front + [last];
    if forall x :: x in front ==> MinuteAgrees(d, x) {
      m := last;
    } else {
      var y :| y in front && !MinuteAgrees(d, y);
      m := LatestMoved(d, front, y);
      if !MinuteAgrees(d, last) && SqlKeyOf(d, last).minute > SqlKeyOf(d, m).minute {
        m := last;
      }
    }
  }

  /** A moved record goes up by a minute. The latest such minute gains it and loses nothing, so its
      count gives the difference away. */
  lemma AgreementForcesMinutes(d: Dialect, rs: seq<Record>, r: Record)
    requires SqlRows(d, rs) == Aggregate(rs) && r in rs
    ensures MinuteAgrees(d, r)
  {
    if !MinuteAgrees(d, r) {
      var m := LatestMoved(d, rs, r);
      var k := SqlKeyOf(d, m);
      forall x | x in rs && KeyOf(x) == k && x.loggedAt != ZERO_TIME
        ensures SqlKeyOf(d, x) == k
      {
        KeyAgreesIff(d, x);
      }
      AgreementLeavesNone(d, rs, m, k);
    }
  }

  lemma AgreementForcesTimes(d: Dialect, rs: seq<Record>, r: Record)
    requires SqlRows(d, rs) == Aggregate(rs) && r in rs && SameKeys(d, rs)
    ensures r.loggedAt != ZERO_TIME
  {
    AgreementLeavesNone(d, rs, r, KeyOf(r));
  }

  ghost predicate SumsAgree(d: Dialect, rs: seq<Record>, k: Key, c: Column)
  {
    ColumnSum(FromSql(d), rs, k, c) == ColumnSum(FromRecord, rs, k, c)
  }

  /** Equal sums of a column that is nowhere below leave no record strictly below. */
  lemma EqualSumsAgree(d: Dialect, rs: seq<Record>, at: nat, c: Column)
    requires at < |rs| && c in {RequestBytes, ResponseBytes, UpstreamBytes, Classified}
    requires AllTimed(rs) && SameKeys(d, rs) && SumsAgree(d, rs, KeyOf(rs[at]), c)
    ensures Value(FromSql(d), c, rs[at]) == Value(FromRecord, c, rs[at])
  {
    forall r | r in rs
      ensures Value(FromSql(d), c, r) <= Value(FromRecord, c, r)
    {
    }
    assert rs[at] in rs;
    if Value(FromSql(d), c, rs[at]) < Value(FromRecord, c, rs[at]) {
      StrictGap(d, rs, KeyOf(rs[at]), c, at);
    }
  }

  lemma AgreementForcesNormal(d: Dialect, rs: seq<Record>, at: nat)
    requires at < |rs| && AllTimed(rs) && SameKeys(d, rs)
    requires SumsAgree(d, rs, KeyOf(rs[at]), RequestBytes) && SumsAgree(d, rs, KeyOf(rs[at]), ResponseBytes)
    requires SumsAgree(d, rs, KeyOf(rs[at]), UpstreamBytes) && SumsAgree(d, rs, KeyOf(rs[at]), Classified)
    ensures Normal(d, rs[at])
  {
    EqualSumsAgree(d, rs, at, RequestBytes);
    EqualSumsAgree(d, rs, at, ResponseBytes);
    EqualSumsAgree(d, rs, at, UpstreamBytes);
    EqualSumsAgree(d, rs, at, Classified);
    assert rs[at] in rs;
    KeyAgreesIff(d, rs[at]);
  }

  lemma AgreementForcesKeys(d: Dialect, rs: seq<Record>)
    requires SqlRows(d, rs) == Aggregate(rs)
    ensures SameKeys(d, rs) && AllTimed(rs)
  {
    forall r | r in rs
      ensures SqlKeyOf(d, r) == KeyOf(r)
    {
      AgreementForcesMinutes(d, rs, r);
      KeyAgreesIff(d, r);
    }
    forall r | r in rs
      ensures r.loggedAt != ZERO_TIME
    {
      AgreementForcesTimes(d, rs, r);
    }
  }

  /** The two paths agree on a shard exactly when every record has a time, lies on SQLite not before
      1970 inside a minute, and has non-negative byte counts and a cache status that is spelled in
      upper case if it is a known one. */
  lemma RowsAgreeIff(d: Dialect, rs: seq<Record>)
    ensures SqlRows(d, rs) == Aggregate(rs) <==> AllNormal(d, rs)
  {
    if AllNormal(d, rs) {
      forall r | r in rs
        ensures SqlKeyOf(d, r) == KeyOf(r)
      {
        KeyAgreesIff(d, r);
      }
      NormalRowsAgree(d, rs);
    }
    if SqlRows(d, rs) == Aggregate(rs) {
      AgreementForcesKeys(d, rs);
      AggregateIsGrouping(rs);
      forall r | r in rs
        ensures Normal(d, r)
      {
        var at :| 0 <= at < |rs| && rs[at] == r;
        assert KeyOf(r) in Keys(FromSql(d), rs) && KeyOf(r) in Keys(FromRecord, rs);
        assert MeasuresFrom(FromSql(d), rs, KeyOf(r)) == MeasuresFrom(FromRecord, rs, KeyOf(r));
        AgreementForcesNormal(d, rs, at);
      }
    }
  }

  lemma {:induction false} ColumnSumConcat(source: Source, a: seq<Record>, b: seq<Record>, k: Key, c: Column)
    ensures ColumnSum(source, a + b, k, c) == ColumnSum(source, a, k, c) + ColumnSum(source, b, k, c)
    decreases |b|
  {
    if b == [] {
      assert a + b == a;
    } else {
      assert (a + b)[..|a + b| - 1] == a + b[..|b| - 1];
      ColumnSumConcat(source, a, b[..|b| - 1], k, c);
    }
  }

  lemma {:induction false} LatestConcat(source: Source, a: seq<Record>, b: seq<Record>, k: Key)
    ensures Count(source, a + b, k) == Count(source, a, k) + Count(source, b, k)
    ensures LatestIn(source, a + b, k) == if Count(source, b, k) == 0 then LatestIn(source, a, k)
                                          else if Count(source, a, k) == 0 then LatestIn(source, b, k)
                                          else Later(LatestIn(source, a, k), LatestIn(source, b, k))
    decreases |b|
  {
    if b == [] {
      assert a + b == a;
    } else {
      assert (a + b)[..|a + b| - 1] == a + b[..|b| - 1];
      LatestConcat(source, a, b[..|b| - 1], k);
    }
  }

  lemma SumsConcat(source: Source, a: seq<Record>, b: seq<Record>, k: Key)
    ensures forall c :: ColumnSum(source, a + b, k, c) == ColumnSum(source, a, k, c) + ColumnSum(source, b, k, c)
  {
    forall c: Column
      ensures ColumnSum(source, a + b, k, c) == ColumnSum(source, a, k, c) + ColumnSum(source, b, k, c)
    {
      ColumnSumConcat(source, a, b, k, c);
    }
  }

  /** The group of a union is the merge of the groups. */
  lemma MeasuresConcat(source: Source, a: seq<Record>, b: seq<Record>, k: Key)
    requires k in Keys(source, a) || k in Keys(source, b)
    ensures MeasuresFrom(source, a + b, k)
            == if k !in Keys(source, b) then MeasuresFrom(source, a, k)
               else if k !in Keys(source, a) then MeasuresFrom(source, b, k)
               else Merge(MeasuresFrom(source, a, k), MeasuresFrom(source, b, k))
  {
    SumsConcat(source, a, b, k);
    LatestConcat(source, a, b, k);
    CountPositive(source, a, k);
    CountPositive(source, b, k);
    if k !in Keys(source, a) {
      EmptyGroup(source, a, k);
      assert LatestIn(source, a + b, k) == LatestIn(source, b, k);
    } else if k !in Keys(source, b) {
      EmptyGroup(source, b, k);
      assert LatestIn(source, a + b, k) == LatestIn(source, a, k);
    } else {
      assert LatestIn(source, a + b, k) == Later(LatestIn(source, a, k), LatestIn(source, b, k));
    }
  }

  lemma UpsertAt(t: Table, rows: Table, k: Key)
    requires k in t || k in rows
    ensures Upsert(t, rows)[k] == if k !in rows then t[k] else if k !in t then rows[k] else Merge(t[k], rows[k])
  {
  }

  lemma KeysConcat(source: Source, a: seq<Record>, b: seq<Record>)
    ensures Keys(source, a + b) == Keys(source, a) + Keys(source, b)
  {
    assert forall r :: r in a + b <==> r in a || r in b;
  }

  lemma {:induction false} SqlRowsConcat(d: Dialect, a: seq<Record>, b: seq<Record>)
    ensures SqlRows(d, a + b) == Upsert(SqlRows(d, a), SqlRows(d, b))
  {
    var source := FromSql(d);
    var whole, parts := SqlRows(d, a + b), Upsert(SqlRows(d, a), SqlRows(d, b));
    KeysConcat(source, a, b);
    forall k | k in whole.Keys
      ensures whole[k] == parts[k]
    {
      MeasuresConcat(source, a, b, k);
      UpsertAt(SqlRows(d, a), SqlRows(d, b), k);
    }
    SameMap(whole, parts);
  }

  /** Rebuilding shard by shard is one grouping of all the records, however they are split. */
  lemma {:induction false} RebuildIsGrouping(d: Dialect, shards: seq<seq<Record>>)
    ensures Rebuild(d, shards) == SqlRows(d, Flatten(shards))
    decreases |shards|
  {
    if shards != [] {
      RebuildIsGrouping(d, shards[..|shards| - 1]);
      SqlRowsConcat(d, Flatten(shards[..|shards| - 1]), shards[|shards| - 1]);
    }
  }

  /** Rebuilding from any split into shards gives the incremental table exactly when every
      record is one the two paths agree on. */
  lemma RebuildIsAggregateIff(d: Dialect, shards: seq<seq<Record>>)
    ensures Rebuild(d, shards) == Aggregate(Flatten(shards)) <==> AllNormal(d, Flatten(shards))
  {
    RebuildIsGrouping(d, shards);
    RowsAgreeIff(d, Flatten(shards));
  }

  /** Inserting `batches` one after the other and rebuilding from `shards`, for any batching, order
      and split of the same records, give one table exactly when both paths agree on each record. */
  lemma BatchesMatchRebuildIff(d: Dialect, batches: seq<seq<Record>>, shards: seq<seq<Record>>)
    requires multiset(Flatten(batches)) == multiset(Flatten(shards))
    ensures Incremental(batches) == Rebuild(d, shards) <==> AllNormal(d, Flatten(batches))
  {
    IncrementalIsAggregate(batches);
    AggregatePermutation(Flatten(batches), Flatten(shards));
    assert forall r :: r in Flatten(shards) <==> r in multiset(Flatten(shards));
    assert forall r :: r in Flatten(batches) <==> r in multiset(Flatten(batches));
    RebuildIsAggregateIff(d, shards);
  }

  /** The table after upserting each batch of new records in turn. */
  function Incremental(batches: seq<seq<Record>>): Table
  {
    if batches == [] then map[]
    else Upsert(Incremental(batches[..|batches| - 1]), Aggregate(batches[|batches| - 1]))
  }

  lemma {:induction false} IncrementalIsAggregate(batches: seq<seq<Record>>)
    ensures Incremental(batches) == Aggregate(Flatten(batches))
    decreases |batches|
  {
    if batches != [] {
      IncrementalIsAggregate(batches[..|batches| - 1]);
      AggregateConcat(Flatten(batches[..|batches| - 1]), batches[|batches| - 1]);
    }
  }

  // ----- the columns of a row, field by field -----

  /** The record falls in the minute and has the eight dimensions. */
  predicate InGroup(r: Record, k: Key)
  {
    && k.minute % 60 == 0 && k.minute <= r.loggedAt < k.minute + 60
    && k.dims.nodeID == r.nodeID && k.dims.remoteAddr == r.remoteAddr && k.dims.region == r.region
    && k.dims.operatorName == r.operatorName && k.dims.host == r.host && k.dims.path == r.path
    && k.dims.status == r.status && k.dims.cacheStatus == r.cacheStatus
  }

  lemma GroupMeaning(r: Record, k: Key)
    ensures KeyOf(r) == k <==> InGroup(r, k)
  {
  }

  /** The sum of a value over the records of a group. */
  function Total(rs: seq<Record>, k: Key, v: Record -> int): int
  {
    SumSeq(rs, InGroupOnly(k, v))
  }

  function InGroupOnly(k: Key, v: Record -> int): Record -> int
  {
    (r: Record) => if InGroup(r, k) then v(r) else 0
  }

  lemma {:induction false} ColumnIsTotal(source: Source, rs: seq<Record>, k: Key, c: Column, v: Record -> int)
    requires AllTimed(rs) && (forall r :: r in rs ==> KeyIn(source, r) == KeyOf(r))
    requires forall r :: Value(source, c, r) == v(r)
    ensures ColumnSum(source, rs, k, c) == Total(rs, k, v)
    decreases |rs|
  {
    if rs != [] {
      var front, last := rs[..|rs| - 1], rs[|rs| - 1];
      assert last in rs && forall r :: r in front ==> r in rs;
      ColumnIsTotal(source, front, k, c, v);
      GroupMeaning(last, k);
    }
  }

  lemma {:induction false} LatestMeaning(source: Source, rs: seq<Record>, k: Key)
    requires exists r :: r in rs && KeyIn(source, r) == k
    ensures forall r :: r in rs && KeyIn(source, r) == k ==> r.loggedAt <= LatestIn(source, rs, k)
    ensures exists r :: r in rs && KeyIn(source, r) == k && r.loggedAt == LatestIn(source, rs, k)
    decreases |rs|
  {
    var front, last := rs[..|rs| - 1], rs[|rs| - 1];
    assert forall r :: r in rs <==> r in front || r == last;
    NoneCounted(source, front, k);
    if exists r :: r in front && KeyIn(source, r) == k {
      LatestMeaning(source, front, k);
    }
  }

  lemma {:induction false} NoneCounted(source: Source, rs: seq<Record>, k: Key)
    ensures Count(source, rs, k) == 0 <==> forall r :: r in rs ==> KeyIn(source, r) != k
    decreases |rs|
  {
    if rs != [] {
      var front, last := rs[..|rs| - 1], rs[|rs| - 1];
      assert forall r :: r in rs <==> r in front || r == last;
      NoneCounted(source, front, k);
    }
  }

  /** The counters of the group, each from its own field. The program clamps byte counts and looks at the
      cache status in upper case; the statement takes both as they are. */
  ghost predicate CountsGroup(source: Source, rs: seq<Record>, k: Key, row: Measures)
  {
    CountsBytes(source, rs, k, row) && CountsStatuses(source, rs, k, row) && HasLatest(rs, k, row)
  }

  ghost predicate CountsBytes(source: Source, rs: seq<Record>, k: Key, row: Measures)
  {
    && row.requests == Total(rs, k, (r: Record) => 1)
    && row.requestBytes == Total(rs, k, (r: Record) => if source == FromRecord && r.requestBytes < 0 then 0 else r.requestBytes)
    && row.responseBytes == Total(rs, k, (r: Record) => if source == FromRecord && r.responseBytes < 0 then 0 else r.responseBytes)
    && row.upstreamBytes == Total(rs, k, (r: Record) => if source == FromRecord && r.upstreamBytes < 0 then 0 else r.upstreamBytes)
    && row.upstreamHits == Total(rs, k, (r: Record) => if r.upstreamBytes > 0 then 1 else 0)
  }

  ghost predicate CountsStatuses(source: Source, rs: seq<Record>, k: Key, row: Measures)
  {
    && row.hits == Total(rs, k, HasStatus(source, "HIT"))
    && row.misses == Total(rs, k, HasStatus(source, "MISS"))
    && row.bypasses == Total(rs, k, HasStatus(source, "BYPASS"))
    && row.expired == Total(rs, k, HasStatus(source, "EXPIRED"))
    && row.stale == Total(rs, k, HasStatus(source, "STALE"))
    && row.classified == row.hits + row.misses + row.bypasses + row.expired + row.stale
  }

  ghost predicate HasLatest(rs: seq<Record>, k: Key, row: Measures)
  {
    && (forall r :: r in rs && InGroup(r, k) ==> r.loggedAt <= row.lastSeen)
    && (exists r :: r in rs && InGroup(r, k) && r.loggedAt == row.lastSeen)
  }

  function HasStatus(source: Source, word: string): Record -> int
  {
    (r: Record) => if (if source == FromRecord then Upper(r.cacheStatus) else r.cacheStatus) == word then 1 else 0
  }

  lemma SameTimes(source: Source, rs: seq<Record>, k: Key)
    requires (forall r :: r in rs ==> KeyIn(source, r) == KeyOf(r)) && k in Keys(source, rs)
    ensures forall r :: r in rs && InGroup(r, k) ==> r.loggedAt <= LatestIn(source, rs, k)
    ensures exists r :: r in rs && InGroup(r, k) && r.loggedAt == LatestIn(source, rs, k)
  {
    forall r | r in rs
      ensures KeyIn(source, r) == k <==> InGroup(r, k)
    {
      GroupMeaning(r, k);
    }
    LatestMeaning(source, rs, k);
  }

  lemma {:induction false} ClassifiedIsSum(source: Source, rs: seq<Record>, k: Key)
    ensures ColumnSum(source, rs, k, Classified)
         == ColumnSum(source, rs, k, CacheCount(Hit)) + ColumnSum(source, rs, k, CacheCount(Miss))
            + ColumnSum(source, rs, k, CacheCount(Bypass)) + ColumnSum(source, rs, k, CacheCount(Expired))
            + ColumnSum(source, rs, k, CacheCount(Stale))
    decreases |rs|
  {
    if rs != [] {
      ClassifiedIsSum(source, rs[..|rs| - 1], k);
    }
  }

  lemma BytesAreCounted(source: Source, rs: seq<Record>, k: Key)
    requires AllTimed(rs) && (forall r :: r in rs ==> KeyIn(source, r) == KeyOf(r))
    ensures CountsBytes(source, rs, k, MeasuresFrom(source, rs, k))
  {
    ColumnIsTotal(source, rs, k, Requests, (r: Record) => 1);
    ColumnIsTotal(source, rs, k, RequestBytes, (r: Record) => if source == FromRecord && r.requestBytes < 0 then 0 else r.requestBytes);
    ColumnIsTotal(source, rs, k, ResponseBytes, (r: Record) => if source == FromRecord && r.responseBytes < 0 then 0 else r.responseBytes);
    ColumnIsTotal(source, rs, k, UpstreamBytes, (r: Record) => if source == FromRecord && r.upstreamBytes < 0 then 0 else r.upstreamBytes);
    ColumnIsTotal(source, rs, k, UpstreamHits, (r: Record) => if r.upstreamBytes > 0 then 1 else 0);
  }

  lemma StatusesAreCounted(source: Source, rs: seq<Record>, k: Key)
    requires AllTimed(rs) && (forall r :: r in rs ==> KeyIn(source, r) == KeyOf(r))
    ensures CountsStatuses(source, rs, k, MeasuresFrom(source, rs, k))
  {
    ColumnIsTotal(source, rs, k, CacheCount(Hit), HasStatus(source, "HIT"));
    ColumnIsTotal(source, rs, k, CacheCount(Miss), HasStatus(source, "MISS"));
    ColumnIsTotal(source, rs, k, CacheCount(Bypass), HasStatus(source, "BYPASS"));
    ColumnIsTotal(source, rs, k, CacheCount(Expired), HasStatus(source, "EXPIRED"));
    ColumnIsTotal(source, rs, k, CacheCount(Stale), HasStatus(source, "STALE"));
    ClassifiedIsSum(source, rs, k);
  }

  lemma GroupIsCounted(source: Source, rs: seq<Record>, k: Key)
    requires AllTimed(rs) && (forall r :: r in rs ==> KeyIn(source, r) == KeyOf(r)) && k in Keys(source, rs)
    ensures CountsGroup(source, rs, k, MeasuresFrom(source, rs, k))
  {
    BytesAreCounted(source, rs, k);
    StatusesAreCounted(source, rs, k);
    SameTimes(source, rs, k);
  }

  /** Each row of the detailed table counts its group, on the program path. */
  lemma DetailedRowMeaning(rs: seq<Record>, k: Key)
    requires AllTimed(rs) && k in Aggregate(rs)
    ensures CountsGroup(FromRecord, rs, k, Aggregate(rs)[k])
  {
    AggregateIsGrouping(rs);
    GroupIsCounted(FromRecord, rs, k);
  }

  /** And on the rebuild path, where the backend computes the program's minute. */
  lemma RebuiltRowMeaning(d: Dialect, rs: seq<Record>, k: Key)
    requires AllTimed(rs) && SameKeys(d, rs) && k in SqlRows(d, rs)
    ensures CountsGroup(FromSql(d), rs, k, SqlRows(d, rs)[k])
  {
    GroupIsCounted(FromSql(d), rs, k);
  }

  /** Upper case changes the letters a to z only. */
  lemma UpperMeaning(s: string, i: nat)
    requires i < |s|
    ensures Upper("abcdefghijklmnopqrstuvwxyz") == "ABCDEFGHIJKLMNOPQRSTUVWXYZ"
    ensures |Upper(s)| == |s| && (Upper(s)[i] == s[i] <==> !('a' <= s[i] <= 'z'))
  {
  }
}
