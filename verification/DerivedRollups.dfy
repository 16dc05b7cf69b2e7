/** The tables derived from the detailed rollups: per-minute totals, the distinct
    addresses and hosts of each minute, and the same identities kept with the
    columns a query can filter on. Each table is given by the relational meaning
    of the statement that fills it. */
module DerivedRollups {
  import opened Sums
  import opened AccessLog

  datatype Kind = Address | HostName

  datatype BucketRow = BucketRow(
    requests: int,
    uniqueAddresses: nat,
    uniqueHosts: nat,
    success: int,
    clientErrors: int,
    serverErrors: int)

  datatype Identity = Identity(minute: int, kind: Kind, value: string)

  datatype FilterIdentity = FilterIdentity(
    minute: int,
    nodeID: string,
    remoteAddr: string,
    host: string,
    path: string,
    kind: Kind,
    value: string)

  datatype Tables = Tables(
    buckets: map<int, BucketRow>,
    identities: set<Identity>,
    filterIdentities: set<FilterIdentity>)

  datatype StatusClass = AnyStatus | Success | ClientError | ServerError

  predicate InClass(c: StatusClass, status: int)
  {
    match c
    case AnyStatus => true
    case Success => status < 400
    case ClientError => 400 <= status < 500
    case ServerError => status >= 500
  }

  function ValueOf(d: Dimensions, kind: Kind): string
  {
    match kind
    case Address => d.remoteAddr
    case HostName => d.host
  }

  /** The request_count column of a detailed table. */
  ghost function RequestsOf(t: Table): Key -> int
  {
    (k: Key) => if k in t then t[k].requests else 0
  }

  ghost function KeysIn(t: Table, minutes: set<int>): set<Key>
  {
    set k | k in t.Keys && k.minute in minutes
  }

  ghost function InClassRows(rows: set<Key>, c: StatusClass): set<Key>
  {
    set k | k in rows && InClass(c, k.dims.status)
  }

  /** SUM(CASE WHEN status in the class THEN request_count ELSE 0 END) over some rows. */
  ghost function ClassTotal(t: Table, rows: set<Key>, c: StatusClass): int
  {
    SumSet(InClassRows(rows, c), RequestsOf(t))
  }

  /** The distinct non-empty values of one identity column over some rows. */
  ghost function DistinctValues(rows: set<Key>, kind: Kind): set<string>
  {
    set k | k in rows && ValueOf(k.dims, kind) != "" :: ValueOf(k.dims, kind)
  }

  ghost function MinutesOf(t: Table): set<int>
  {
    set k | k in t.Keys :: k.minute
  }

  ghost function BucketRowAt(t: Table, m: int): BucketRow
  {
    var rows := KeysIn(t, {m});
    BucketRow(
      ClassTotal(t, rows, AnyStatus), |DistinctValues(rows, Address)|, |DistinctValues(rows, HostName)|,
      ClassTotal(t, rows, Success), ClassTotal(t, rows, ClientError), ClassTotal(t, rows, ServerError))
  }

  /** SELECT ... WHERE bucket_started_at IN minutes GROUP BY bucket_started_at. */
  ghost function BucketRows(t: Table, minutes: set<int>): map<int, BucketRow>
  {
    map m | m in minutes * MinutesOf(t) :: BucketRowAt(t, m)
  }

  function IdentityOf(k: Key, kind: Kind): Identity
  {
    Identity(k.minute, kind, ValueOf(k.dims, kind))
  }

  function FilterIdentityOf(k: Key, kind: Kind): FilterIdentity
  {
    FilterIdentity(k.minute, k.dims.nodeID, k.dims.remoteAddr, k.dims.host, k.dims.path, kind, ValueOf(k.dims, kind))
  }

  ghost function IdentityRows(t: Table, minutes: set<int>): set<Identity>
  {
    set k, kind | k in KeysIn(t, minutes) && ValueOf(k.dims, kind) != "" :: IdentityOf(k, kind)
  }

  ghost function FilterIdentityRows(t: Table, minutes: set<int>): set<FilterIdentity>
  {
    set k, kind | k in KeysIn(t, minutes) && ValueOf(k.dims, kind) != "" :: FilterIdentityOf(k, kind)
  }

  /** The derived tables a detailed table calls for. */
  ghost function Derive(t: Table): Tables
  {
    Tables(BucketRows(t, MinutesOf(t)), IdentityRows(t, MinutesOf(t)), FilterIdentityRows(t, MinutesOf(t)))
  }

  // ----- freshness, minute by minute -----

  ghost predicate BucketFresh(t: Table, buckets: map<int, BucketRow>, m: int)
  {
    && (m in buckets <==> m in MinutesOf(t))
    && (m in buckets ==> buckets[m] == BucketRowAt(t, m))
  }

  ghost function IdentitiesIn(rows: set<Identity>, minutes: set<int>): set<Identity>
  {
    set i | i in rows && i.minute in minutes
  }

  ghost function FilterIdentitiesIn(rows: set<FilterIdentity>, minutes: set<int>): set<FilterIdentity>
  {
    set i | i in rows && i.minute in minutes
  }

  ghost predicate IdentityFresh(t: Table, identities: set<Identity>, m: int)
  {
    IdentitiesIn(identities, {m}) == IdentityRows(t, {m})
  }

  ghost predicate FilterIdentityFresh(t: Table, identities: set<FilterIdentity>, m: int)
  {
    FilterIdentitiesIn(identities, {m}) == FilterIdentityRows(t, {m})
  }

  ghost predicate Fresh(t: Table, tables: Tables, m: int)
  {
    && BucketFresh(t, tables.buckets, m)
    && IdentityFresh(t, tables.identities, m)
    && FilterIdentityFresh(t, tables.filterIdentities, m)
  }

  lemma DeriveIsFresh(t: Table, m: int)
    ensures Fresh(t, Derive(t), m)
  {
    IdentityRowsSplit(t, MinutesOf(t), m);
  }

  /** Restricting the rows of several minutes to one of them. */
  lemma IdentityRowsSplit(t: Table, minutes: set<int>, m: int)
    ensures IdentitiesIn(IdentityRows(t, minutes), {m}) ==
            if m in minutes then IdentityRows(t, {m}) else {}
    ensures FilterIdentitiesIn(FilterIdentityRows(t, minutes), {m}) ==
            if m in minutes then FilterIdentityRows(t, {m}) else {}
    ensures m !in MinutesOf(t) ==> IdentityRows(t, {m}) == {} && FilterIdentityRows(t, {m}) == {}
  {
    if m in minutes {
      assert forall k :: k in KeysIn(t, {m}) ==> k in KeysIn(t, minutes);
      forall i | i in IdentityRows(t, {m})
        ensures i in IdentitiesIn(IdentityRows(t, minutes), {m})
      {
        var k, kind :| k in KeysIn(t, {m}) && ValueOf(k.dims, kind) != "" && i == IdentityOf(k, kind);
      }
      forall i | i in FilterIdentityRows(t, {m})
        ensures i in FilterIdentitiesIn(FilterIdentityRows(t, minutes), {m})
      {
        var k, kind :| k in KeysIn(t, {m}) && ValueOf(k.dims, kind) != "" && i == FilterIdentityOf(k, kind);
      }
    }
    forall i | i in IdentitiesIn(IdentityRows(t, minutes), {m})
      ensures m in minutes && i in IdentityRows(t, {m})
    {
      var k, kind :| k in KeysIn(t, minutes) && ValueOf(k.dims, kind) != "" && i == IdentityOf(k, kind);
      assert k in KeysIn(t, {m});
    }
    forall i | i in FilterIdentitiesIn(FilterIdentityRows(t, minutes), {m})
      ensures m in minutes && i in FilterIdentityRows(t, {m})
    {
      var k, kind :| k in KeysIn(t, minutes) && ValueOf(k.dims, kind) != "" && i == FilterIdentityOf(k, kind);
      assert k in KeysIn(t, {m});
    }
  }

  /** Tables that are fresh at every minute are the derived tables. */
  lemma FreshEverywhere(t: Table, tables: Tables)
    ensures (forall m :: Fresh(t, tables, m)) <==> tables == Derive(t)
  {
    if forall m :: Fresh(t, tables, m) {
      var d := Derive(t);
      forall m
        ensures Fresh(t, d, m) && Fresh(t, tables, m)
      {
        DeriveIsFresh(t, m);
      }
      assert tables.buckets == d.buckets by {
        forall m
          ensures m in tables.buckets <==> m in d.buckets
          ensures m in tables.buckets ==> tables.buckets[m] == d.buckets[m]
        {
          assert Fresh(t, tables, m) && Fresh(t, d, m);
        }
      }
      forall i: Identity
        ensures i in tables.identities <==> i in d.identities
      {
        assert Fresh(t, tables, i.minute) && Fresh(t, d, i.minute);
        assert i in tables.identities <==> i in IdentitiesIn(tables.identities, {i.minute});
        assert i in d.identities <==> i in IdentitiesIn(d.identities, {i.minute});
      }
      forall i: FilterIdentity
        ensures i in tables.filterIdentities <==> i in d.filterIdentities
      {
        assert Fresh(t, tables, i.minute) && Fresh(t, d, i.minute);
        assert i in tables.filterIdentities <==> i in FilterIdentitiesIn(tables.filterIdentities, {i.minute});
        assert i in d.filterIdentities <==> i in FilterIdentitiesIn(d.filterIdentities, {i.minute});
      }
    } else {
      var m :| !Fresh(t, tables, m);
      DeriveIsFresh(t, m);
    }
  }

  /** Detailed tables that agree on a minute derive the same rows for it. */
  lemma DerivationIsLocal(t: Table, u: Table, m: int)
    requires KeysIn(t, {m}) == KeysIn(u, {m})
    requires forall k :: k in KeysIn(t, {m}) ==> t[k] == u[k]
    ensures BucketRowAt(t, m) == BucketRowAt(u, m)
    ensures m in MinutesOf(t) <==> m in MinutesOf(u)
    ensures IdentityRows(t, {m}) == IdentityRows(u, {m})
    ensures FilterIdentityRows(t, {m}) == FilterIdentityRows(u, {m})
  {
    var rows := KeysIn(t, {m});
    forall c
      ensures ClassTotal(t, rows, c) == ClassTotal(u, rows, c)
    {
      SumSetCongruence(InClassRows(rows, c), RequestsOf(t), RequestsOf(u));
    }
    MinuteHasRows(t, m);
    MinuteHasRows(u, m);
  }

  lemma MinuteHasRows(t: Table, m: int)
    ensures m in MinutesOf(t) <==> KeysIn(t, {m}) != {}
  {
    if m in MinutesOf(t) {
      var k :| k in t.Keys && k.minute == m;
      assert k in KeysIn(t, {m});
    }
  }

  /** An upsert leaves the minutes it does not name alone. */
  lemma UpsertIsLocal(t: Table, rows: Table, tables: Tables, m: int)
    requires m !in MinutesOf(rows)
    ensures BucketRowAt(t, m) == BucketRowAt(Upsert(t, rows), m)
    ensures m in MinutesOf(t) <==> m in MinutesOf(Upsert(t, rows))
    ensures IdentityRows(t, {m}) == IdentityRows(Upsert(t, rows), {m})
    ensures FilterIdentityRows(t, {m}) == FilterIdentityRows(Upsert(t, rows), {m})
    ensures Fresh(t, tables, m) <==> Fresh(Upsert(t, rows), tables, m)
  {
    var u := Upsert(t, rows);
    assert forall k :: k in rows.Keys ==> k.minute in MinutesOf(rows);
    assert KeysIn(t, {m}) == KeysIn(u, {m});
    DerivationIsLocal(t, u, m);
  }

  lemma MoreRequestsAt(t: Table, rows: Table, k: Key)
    requires rows.Keys == {k} && rows[k].requests > 0
    ensures k.minute in MinutesOf(Upsert(t, rows))
    ensures BucketRowAt(Upsert(t, rows), k.minute).requests > BucketRowAt(t, k.minute).requests
  {
    var u, m := Upsert(t, rows), k.minute;
    var before, after := KeysIn(t, {m}), KeysIn(u, {m});
    assert InClassRows(after, AnyStatus) == after && InClassRows(before, AnyStatus) == before;
    assert after == before + {k};
    SumSetChange(before, k, RequestsOf(t), RequestsOf(u));
  }

  /** A row that counts requests shows in the derived tables. */
  lemma MoreRequests(t: Table, rows: Table, k: Key)
    requires rows.Keys == {k} && rows[k].requests > 0
    ensures Derive(Upsert(t, rows)) != Derive(t)
  {
    var u, m := Upsert(t, rows), k.minute;
    MoreRequestsAt(t, rows, k);
    DeriveIsFresh(u, m);
    DeriveIsFresh(t, m);
  }
}
