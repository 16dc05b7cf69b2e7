/** The proxy-route backfills of the migration chain and the validators they must satisfy:
    site names and domains (V5), certificates (V7), certificates per domain (V8). */
module ProxyRouteBackfill {
  import opened Wrappers
  import opened RouteFields

  datatype Route = Route(
    id: nat,
    domain: string,
    domains: Column<string>,
    siteName: string,
    certID: Option<nat>,
    certIDs: Column<nat>,
    domainCertIDs: Column<nat>,
    enableHTTPS: bool,
    redirectHTTP: bool)

  type Step = Route -> Result<Route>

  // ----- one route -----

  function SiteName(raw: string, primary: string): string
  {
    if Trim(raw) != "" then Trim(raw) else primary
  }

  function DomainsOf(r: Route): Result<seq<string>>
  {
    DecodeDomains(r.domains, r.domain)
  }

  function WithSiteFields(r: Route): (out: Result<Route>)
  {
    match DomainsOf(r)
    case Err => Err
    case Ok(ds) =>
      if ds == [] then Err else
        Ok(r.(domain := ds[0], siteName := SiteName(r.siteName, ds[0]), domains := List(ds)))
  }

  function WithCertFields(r: Route): Result<Route>
  {
    match DecodeCertIDs(r.certIDs, r.certID)
    case Err => Err
    case Ok(ids) => Ok(r.(certIDs := List(ids), certID := Head(ids)))
  }

  /** The assignments the third backfill settles on. */
  function Assignments(certs: Certificates, r: Route): Result<seq<nat>>
  {
    match DomainsOf(r)
    case Err => Err
    case Ok(ds) =>
      match DecodeCertIDs(r.certIDs, r.certID)
      case Err => Err
      case Ok(ids) =>
        match DecodeDomainCertIDs(r.domainCertIDs, |ds|)
        case Err => Err
        case Ok(given) =>
          var settled := if given == [] && ids != [] then Derive(certs, ds, ids) else Ok(given);
          if settled.Ok? && !r.enableHTTPS then Ok([]) else settled
  }

  function WithDomainCertFields(certs: Certificates, r: Route): Result<Route>
  {
    match Assignments(certs, r)
    case Err => Err
    case Ok(a) =>
      var ids := Firsts(a, NonZero);
      Ok(r.(domainCertIDs := List(a), certIDs := List(ids), certID := Head(ids)))
  }

  function SiteStep(): Step
  {
    (r: Route) => WithSiteFields(r)
  }

  function CertStep(): Step
  {
    (r: Route) => WithCertFields(r)
  }

  function DomainCertStep(certs: Certificates): Step
  {
    (r: Route) => WithDomainCertFields(certs, r)
  }

  // ----- the table -----

  /** The rows after updating one by one up to the first failure. */
  function Filled(rows: seq<Route>, step: Step): (r: seq<Route>)
    ensures |r| == |rows|
  {
    if rows == [] then [] else
      var front, last := Filled(rows[..|rows| - 1], step), rows[|rows| - 1];
      front + [if Succeeds(rows[..|rows| - 1], step) && step(last).Ok? then step(last).value else last]
  }

  predicate Succeeds(rows: seq<Route>, step: Step)
  {
    forall i :: 0 <= i < |rows| ==> step(rows[i]).Ok?
  }

  lemma {:induction false} FilledAt(rows: seq<Route>, step: Step, i: nat)
    requires i < |rows|
    ensures Filled(rows, step)[i] == if Succeeds(rows[..i + 1], step) then step(rows[i]).value else rows[i]
    decreases |rows|
  {
    if i < |rows| - 1 {
      FilledAt(rows[..|rows| - 1], step, i);
      assert rows[..|rows| - 1][..i + 1] == rows[..i + 1];
    } else {
      assert rows[..i + 1] == rows;
      assert Succeeds(rows, step) <==> Succeeds(rows[..i], step) && step(rows[i]).Ok?;
    }
  }

  lemma FilledWhole(rows: seq<Route>, step: Step, i: nat)
    requires Succeeds(rows, step) && i < |rows|
    ensures Filled(rows, step)[i] == step(rows[i]).value
  {
    FilledAt(rows, step, i);
    assert Succeeds(rows[..i + 1], step);
  }

  // ----- the site backfill under the unique indexes -----

  /** No two rows hold the same domain: the column has a unique index. */
  predicate DomainColumnUnique(rows: seq<Route>)
  {
    forall i, j :: 0 <= i < j < |rows| ==> rows[i].domain != rows[j].domain
  }

  /** The update of a row sets a column with a unique index to a value that another row holds. */
  predicate Clashes(rows: seq<Route>, indexed: bool, i: nat, out: Route, j: nat)
    requires i < |rows| && j < |rows|
  {
    j != i && (|| (out.domain != rows[i].domain && rows[j].domain == out.domain)
               || (indexed && out.siteName != rows[i].siteName && rows[j].siteName == out.siteName))
  }

  predicate NoClash(rows: seq<Route>, indexed: bool, i: nat, out: Route)
    requires i < |rows|
  {
    forall j :: 0 <= j < |rows| ==> !Clashes(rows, indexed, i, out, j)
  }

  datatype SiteOutcome = SiteOutcome(ok: bool, rows: seq<Route>)

  /** The site backfill from row `i` on: it stops at a row that cannot be decoded, and at an update
      that a unique index rejects. */
  function SiteRun(rows: seq<Route>, indexed: bool, i: nat): SiteOutcome
    decreases |rows| - i
  {
    if i >= |rows| then SiteOutcome(true, rows)
    else if WithSiteFields(rows[i]).Err? || !NoClash(rows, indexed, i, WithSiteFields(rows[i]).value) then SiteOutcome(false, rows)
    else SiteRun(rows[i := WithSiteFields(rows[i]).value], indexed, i + 1)
  }

  class RouteTable {
    var rows: seq<Route>
    var siteIndexed: bool

    /** The table keeps its unique indexes: on the domain, and on the site name once it exists. */
    ghost predicate Valid()
      reads this
    {
      IndexesHold(rows, siteIndexed)
    }

    /** Update the rows in order; stop at the first that cannot be normalised. */
    method Backfill(step: Step) returns (ok: bool)
      modifies this`rows
      ensures rows == Filled(old(rows), step)
      ensures ok <==> Succeeds(old(rows), step)
    {
      ghost var before := rows;
      var i := 0;
      while i < |rows|
        invariant 0 <= i <= |rows| == |before|
        invariant Succeeds(before[..i], step)
        invariant rows == Filled(before[..i], step) + before[i..]
      {
        MidwayAt(before, step, i);
        var out := step(rows[i]);
        if out.Err? {
          StopsHere(before, step, i);
          return false;
        }
        FillNext(before, step, i);
        rows := rows[i := out.value];
        i := i + 1;
      }
      assert before[..i] == before;
      return true;
    }

    /** It succeeds exactly when every route decodes and no two end up with the same primary domain,
        nor, once names are indexed, with the same site name. */
    method BackfillSiteFields() returns (ok: bool)
      requires Valid()
      modifies this`rows
      ensures SiteOutcome(ok, rows) == SiteRun(old(rows), siteIndexed, 0)
      ensures ok <==> Succeeds(old(rows), SiteStep()) && PrimariesDistinct(old(rows)) && (siteIndexed ==> SitesDistinct(old(rows)))
      ensures ok ==> Valid() && rows == Filled(old(rows), SiteStep())
    {
      SiteRunIff(rows, siteIndexed);
      var i := 0;
      while i < |rows|
        invariant 0 <= i <= |rows|
        invariant SiteRun(rows, siteIndexed, i) == SiteRun(old(rows), siteIndexed, 0)
      {
        var out := WithSiteFields(rows[i]);
        if out.Err? || !NoClash(rows, siteIndexed, i, out.value) {
          return false;
        }
        rows := rows[i := out.value];
        i := i + 1;
      }
      return true;
    }

    method BackfillCertificateFields() returns (ok: bool)
      requires Valid()
      modifies this`rows
      ensures Valid() && rows == Filled(old(rows), CertStep())
      ensures ok <==> Succeeds(old(rows), CertStep())
    {
      IndexedColumnsStay(rows, CertStep(), siteIndexed);
      ok := Backfill(CertStep());
    }

    method BackfillDomainCertificateFields(certs: Certificates) returns (ok: bool)
      requires Valid()
      modifies this`rows
      ensures Valid() && rows == Filled(old(rows), DomainCertStep(certs))
      ensures ok <==> Succeeds(old(rows), DomainCertStep(certs))
    {
      IndexedColumnsStay(rows, DomainCertStep(certs), siteIndexed);
      ok := Backfill(DomainCertStep(certs));
    }

    /** CREATE UNIQUE INDEX IF NOT EXISTS on the site names: fails on a repetition. */
    method EnsureSiteNameIndex() returns (ok: bool)
      requires Valid()
      modifies this`siteIndexed
      ensures Valid() && (ok <==> SiteNamesDistinct(rows)) && siteIndexed == (old(siteIndexed) || ok)
    {
      if siteIndexed {
        return true;
      }
      var names: set<string> := {};
      for i := 0 to |rows|
        invariant names == set k | 0 <= k < i :: rows[k].siteName
        invariant SiteNamesDistinct(rows[..i]) && siteIndexed == old(siteIndexed)
      {
        if rows[i].siteName in names {
          var k :| 0 <= k < i && rows[k].siteName == rows[i].siteName;
          return false;
        }
        names := names + {rows[i].siteName};
      }
      assert rows[..|rows|] == rows;
      siteIndexed := true;
      return true;
    }

    /** The three backfills as the migration to version 8 runs them. It succeeds exactly when every
        route can be decoded and no primary domain and no site name repeats. The validators then accept
        the routes exactly when no domain has two owners and no route asks for what its columns cannot
        back, and a second run changes nothing. */
    method MigrateV8(certs: Certificates) returns (ok: bool)
      requires Valid()
      modifies this
      ensures ok <==> Succeeds(old(rows), WholeStep(certs)) && PrimariesDistinct(old(rows)) && SitesDistinct(old(rows))
      ensures ok <==> (forall i :: 0 <= i < |old(rows)| ==> Migratable(certs, old(rows)[i])) && PrimariesDistinct(old(rows)) && SitesDistinct(old(rows))
      ensures ok ==> Valid() && siteIndexed && rows == Filled(old(rows), WholeStep(certs))
      ensures ok ==> (MeetsV5(rows) <==> DomainsDisjoint(old(rows)))
      ensures ok ==> (MeetsV7(rows) && MeetsV8(rows) <==> AllServable(old(rows)))
      ensures ok ==> (forall i :: 0 <= i < |rows| ==> Mirrors(rows[i])) && AtRest(certs, rows)
      ensures ok ==> forall i :: 0 <= i < |rows| ==> CertificatesFollow(certs, old(rows)[i], rows[i]) && SiteFollows(old(rows)[i], rows[i])
    {
      ghost var before := rows;
      var site := BackfillSiteFields();
      ghost var afterSite := rows;
      var index := false;
      if site {
        index := EnsureSiteNameIndex();
        SitesAfterBackfill(before);
      }
      var cert := false;
      if index {
        cert := BackfillCertificateFields();
      }
      ghost var afterCert := rows;
      ok := false;
      if cert {
        ok := BackfillDomainCertificateFields(certs);
      }
      ThreeSteps(certs, before, afterSite, afterCert, index, cert, ok);
      AllMigratable(certs, before);
      if ok {
        MigratedRows(certs, before, rows);
      }
    }

    /** Walk the routes, recording who owns each site name and each domain. */
    method ValidateV5() returns (ok: bool)
      ensures ok <==> MeetsV5(rows)
    {
      var siteNames: map<string, nat> := map[];
      var domainOwners: map<string, nat> := map[];
      for i := 0 to |rows|
        invariant MeetsV5(rows[..i])
        invariant Recorded(rows[..i], siteNames, domainOwners)
      {
        assert rows[..i + 1] == rows[..i] + [rows[i]];
        V5Next(rows[..i], rows[i]);
        V5Prefix(rows, i + 1);
        ok, siteNames, domainOwners := ValidateRoute(rows[..i], rows[i], siteNames, domainOwners);
        if !ok {
          return;
        }
      }
      assert rows[..|rows|] == rows;
      return true;
    }

    method ValidateV7() returns (ok: bool)
      ensures ok <==> MeetsV7(rows)
    {
      for i := 0 to |rows|
        invariant MeetsV7(rows[..i])
      {
        var route := rows[i];
        var decoded := DecodeCertIDs(route.certIDs, route.certID);
        if decoded.Err? {
          return false;
        }
        var certIDs := decoded.value;
        if route.enableHTTPS && certIDs == [] {
          return false;
        }
        if !route.enableHTTPS && route.redirectHTTP {
          return false;
        }
        if certIDs == [] {
          if route.certID.Some? {
            return false;
          }
        } else if route.certID.None? || route.certID.value != certIDs[0] {
          return false;
        }
        assert RouteMeetsV7(route);
      }
      assert rows[..|rows|] == rows;
      return true;
    }

    method ValidateV8() returns (ok: bool)
      ensures ok <==> MeetsV8(rows)
    {
      for i := 0 to |rows|
        invariant MeetsV8(rows[..i])
      {
        ok := ValidateAssignments(rows[i]);
        if !ok {
          return;
        }
      }
      assert rows[..|rows|] == rows;
      return true;
    }
  }

  method ValidateAssignments(route: Route) returns (ok: bool)
    ensures ok <==> RouteMeetsV8(route)
  {
    var domains := DecodeDomainColumn(route.domains, route.domain);
    if domains.Err? {
      return false;
    }
    var assignments := DecodeDomainCertIDs(route.domainCertIDs, |domains.value|);
    if assignments.Err? {
      return false;
    }
    var certIDs := DecodeCertIDs(route.certIDs, route.certID);
    if certIDs.Err? {
      return false;
    }
    if !route.enableHTTPS {
      return assignments.value == [];
    }
    if |assignments.value| != |domains.value| {
      return false;
    }
    var unique := UniqueCertIDs(assignments.value);
    return unique != [] && certIDs.value == unique && route.certID == Some(unique[0]);
  }

  // ----- what the validators ask -----

  function SiteOf(r: Route): string
  {
    match DomainsOf(r)
    case Err => ""
    case Ok(ds) => if ds == [] then "" else SiteName(r.siteName, ds[0])
  }

  function DomainSet(r: Route): set<string>
  {
    match DomainsOf(r)
    case Err => {}
    case Ok(ds) => set d | d in ds
  }

  predicate SiteNamesDistinct(rows: seq<Route>)
  {
    forall i, j :: 0 <= i < j < |rows| ==> rows[i].siteName != rows[j].siteName
  }

  ghost predicate SitesDistinct(rows: seq<Route>)
  {
    forall i, j :: 0 <= i < j < |rows| ==> SiteOf(rows[i]) != SiteOf(rows[j])
  }

  ghost predicate DomainsDisjoint(rows: seq<Route>)
  {
    forall i, j :: 0 <= i < j < |rows| ==> rows[i].id == rows[j].id || DomainSet(rows[i]) !! DomainSet(rows[j])
  }

  ghost predicate RouteMeetsV5(r: Route)
  {
    DomainsOf(r).Ok? && DomainsOf(r).value != [] && r.domain == DomainsOf(r).value[0] && SiteOf(r) != ""
  }

  /** Two routes may share a site name or a domain only if they are the same route. */
  ghost predicate Compatible(a: Route, b: Route)
  {
    a.id == b.id || (SiteOf(a) != SiteOf(b) && DomainSet(a) !! DomainSet(b))
  }

  ghost predicate MeetsV5(rows: seq<Route>)
  {
    && (forall i :: 0 <= i < |rows| ==> RouteMeetsV5(rows[i]))
    && (forall i, j :: 0 <= i < j < |rows| ==> Compatible(rows[i], rows[j]))
  }

  ghost predicate RouteMeetsV7(r: Route)
  {
    && DecodeCertIDs(r.certIDs, r.certID).Ok?
    && (r.redirectHTTP ==> r.enableHTTPS)
    && var ids := DecodeCertIDs(r.certIDs, r.certID).value;
       (r.enableHTTPS ==> ids != []) && r.certID == Head(ids)
  }

  ghost predicate MeetsV7(rows: seq<Route>)
  {
    forall i :: 0 <= i < |rows| ==> RouteMeetsV7(rows[i])
  }

  ghost predicate RouteMeetsV8(r: Route)
  {
    && DomainsOf(r).Ok? && DecodeCertIDs(r.certIDs, r.certID).Ok?
    && DecodeDomainCertIDs(r.domainCertIDs, |DomainsOf(r).value|).Ok?
    && var a := DecodeDomainCertIDs(r.domainCertIDs, |DomainsOf(r).value|).value;
       if r.enableHTTPS then
         && |a| == |DomainsOf(r).value|
         && Firsts(a, NonZero) != []
         && DecodeCertIDs(r.certIDs, r.certID).value == Firsts(a, NonZero)
         && r.certID == Head(Firsts(a, NonZero))
       else a == []
  }

  ghost predicate MeetsV8(rows: seq<Route>)
  {
    forall i :: 0 <= i < |rows| ==> RouteMeetsV8(rows[i])
  }

  ghost predicate AllServable(rows: seq<Route>)
  {
    forall i :: 0 <= i < |rows| ==> Servable(rows[i])
  }

  ghost predicate AtRest(certs: Certificates, rows: seq<Route>)
  {
    Succeeds(rows, WholeStep(certs)) && Filled(rows, WholeStep(certs)) == rows
  }

  // ----- ownership -----

  /** Whoever has this site name so far is this route. */
  ghost predicate SiteFree(done: seq<Route>, name: string, id: nat)
  {
    forall k :: 0 <= k < |done| && SiteOf(done[k]) == name ==> done[k].id == id
  }

  ghost predicate DomainFree(done: seq<Route>, domain: string, id: nat)
  {
    forall k :: 0 <= k < |done| && domain in DomainSet(done[k]) ==> done[k].id == id
  }

  predicate OwnedBy(owners: map<string, nat>, name: string, id: nat)
  {
    name in owners ==> owners[name] == id
  }

  /** The maps answer who owns a site name or a domain so far. */
  ghost predicate Recorded(done: seq<Route>, siteNames: map<string, nat>, domainOwners: map<string, nat>)
  {
    && (forall n, id :: OwnedBy(siteNames, n, id) <==> SiteFree(done, n, id))
    && (forall d, id :: OwnedBy(domainOwners, d, id) <==> DomainFree(done, d, id))
  }

  /** The checks on one route, against those before it. */
  method ValidateRoute(ghost done: seq<Route>, route: Route, siteNames: map<string, nat>, domainOwners: map<string, nat>)
    returns (ok: bool, siteNamesAfter: map<string, nat>, domainOwnersAfter: map<string, nat>)
    requires Recorded(done, siteNames, domainOwners)
    ensures ok <==> RouteMeetsV5(route) && forall k :: 0 <= k < |done| ==> Compatible(done[k], route)
    ensures ok ==> Recorded(done + [route], siteNamesAfter, domainOwnersAfter)
  {
    ok, siteNamesAfter, domainOwnersAfter := false, siteNames, domainOwners;
    var decoded := DecodeDomainColumn(route.domains, route.domain);
    if decoded.Err? || decoded.value == [] || route.domain != decoded.value[0] {
      return;
    }
    var domains := decoded.value;
    var siteName := SiteName(route.siteName, domains[0]);
    if siteName == "" {
      return;
    }
    DecodedDomains(route.domains, route.domain);
    if !OwnedBy(siteNames, siteName, route.id) {
      return;
    }
    siteNamesAfter := siteNames[siteName := route.id];
    ok, domainOwnersAfter := OwnDomains(domains, route.id, domainOwners);
    if ok {
      RecordedNext(done, route, siteNames, domainOwners, siteNamesAfter, domainOwnersAfter);
    }
  }

  lemma FreeNext(done: seq<Route>, r: Route, name: string, id: nat)
    ensures SiteFree(done + [r], name, id) <==> SiteFree(done, name, id) && (SiteOf(r) == name ==> r.id == id)
    ensures DomainFree(done + [r], name, id) <==> DomainFree(done, name, id) && (name in DomainSet(r) ==> r.id == id)
  {
    var rows := done + [r];
    assert forall k :: 0 <= k < |done| ==> rows[k] == done[k];
    assert rows[|done|] == r;
  }

  lemma RecordedNext(done: seq<Route>, r: Route, siteNames: map<string, nat>, domainOwners: map<string, nat>,
                     siteNamesAfter: map<string, nat>, domainOwnersAfter: map<string, nat>)
    requires Recorded(done, siteNames, domainOwners)
    requires SiteFree(done, SiteOf(r), r.id) && forall d :: d in DomainSet(r) ==> DomainFree(done, d, r.id)
    requires siteNamesAfter == siteNames[SiteOf(r) := r.id]
    requires domainOwnersAfter.Keys == domainOwners.Keys + DomainSet(r)
    requires forall d :: d in domainOwnersAfter ==> domainOwnersAfter[d] == if d in DomainSet(r) then r.id else domainOwners[d]
    ensures Recorded(done + [r], siteNamesAfter, domainOwnersAfter)
  {
    forall n, id: nat
      ensures OwnedBy(siteNamesAfter, n, id) <==> SiteFree(done + [r], n, id)
    {
      FreeNext(done, r, n, id);
      assert OwnedBy(siteNames, n, id) <==> SiteFree(done, n, id);
    }
    forall d, id: nat
      ensures OwnedBy(domainOwnersAfter, d, id) <==> DomainFree(done + [r], d, id)
    {
      FreeNext(done, r, d, id);
      assert OwnedBy(domainOwners, d, id) <==> DomainFree(done, d, id);
    }
  }

  lemma V5Next(done: seq<Route>, r: Route)
    ensures MeetsV5(done + [r]) <==>
            MeetsV5(done) && RouteMeetsV5(r) && forall k :: 0 <= k < |done| ==> Compatible(done[k], r)
  {
    var rows := done + [r];
    assert forall k :: 0 <= k < |done| ==> rows[k] == done[k];
    assert rows[|done|] == r;
  }

  lemma V5Prefix(rows: seq<Route>, n: nat)
    requires n <= |rows|
    ensures MeetsV5(rows) ==> MeetsV5(rows[..n])
  {
    assert forall k :: 0 <= k < n ==> rows[..n][k] == rows[k];
  }

  /** Claim the domains for a route; fails on one that another route owns. The check for a
      repetition within the route never fires, because decoding removed them. */
  method OwnDomains(domains: seq<string>, id: nat, before: map<string, nat>) returns (ok: bool, owners: map<string, nat>)
    requires NoDuplicates(domains)
    ensures ok <==> forall d :: d in domains ==> OwnedBy(before, d, id)
    ensures ok ==> owners.Keys == before.Keys + set d | d in domains
    ensures ok ==> forall d :: d in owners ==> owners[d] == if d in domains then id else before[d]
  {
    owners := before;
    var localSeen: set<string> := {};
    for i := 0 to |domains|
      invariant localSeen == set d | d in domains[..i]
      invariant owners.Keys == before.Keys + localSeen
      invariant forall d :: d in owners ==> owners[d] == if d in localSeen then id else before[d]
      invariant forall d :: d in localSeen ==> OwnedBy(before, d, id)
    {
      var domain := domains[i];
      assert domains[..i + 1] == domains[..i] + [domain];
      if domain in localSeen {
        assert false;
      }
      localSeen := localSeen + {domain};
      if domain in owners && owners[domain] != id {
        assert domain in domains;
        return false, owners;
      }
      owners := owners[domain := id];
    }
    assert domains[..|domains|] == domains;
    ok := true;
  }

  lemma MidwayAt(before: seq<Route>, step: Step, i: nat)
    requires i < |before|
    ensures |Filled(before[..i], step) + before[i..]| == |before| && (Filled(before[..i], step) + before[i..])[i] == before[i]
  {
  }

  lemma FillNext(before: seq<Route>, step: Step, i: nat)
    requires i < |before| && Succeeds(before[..i], step) && step(before[i]).Ok?
    ensures Succeeds(before[..i + 1], step)
    ensures (Filled(before[..i], step) + before[i..])[i := step(before[i]).value] == Filled(before[..i + 1], step) + before[i + 1..]
  {
    assert before[..i + 1][..i] == before[..i];
    assert forall j :: 0 <= j < i ==> before[..i][j] == before[..i + 1][j];
  }

  lemma StopsHere(before: seq<Route>, step: Step, i: nat)
    requires i < |before| && Succeeds(before[..i], step) && step(before[i]).Err?
    ensures Filled(before, step) == Filled(before[..i], step) + before[i..]
    ensures !Succeeds(before, step)
  {
    var r := Filled(before[..i], step) + before[i..];
    forall j | 0 <= j < |before|
      ensures Filled(before, step)[j] == r[j]
    {
      FilledAt(before, step, j);
      if j < i {
        FilledAt(before[..i], step, j);
        assert before[..i][..j + 1] == before[..j + 1];
      } else {
        assert before[..j + 1][i] == before[i];
      }
    }
  }

  // ----- the steps together -----

  function Then(first: Step, second: Step): Step
  {
    (r: Route) => if first(r).Ok? then second(first(r).value) else Err
  }

  function WholeStep(certs: Certificates): Step
  {
    Then(Then(SiteStep(), CertStep()), DomainCertStep(certs))
  }

  /** Two successful passes over the table are one pass of the steps in a row. */
  lemma TwoPasses(rows: seq<Route>, first: Step, second: Step)
    requires Succeeds(rows, first)
    ensures Succeeds(Filled(rows, first), second) <==> Succeeds(rows, Then(first, second))
    ensures Succeeds(rows, Then(first, second)) ==> Filled(Filled(rows, first), second) == Filled(rows, Then(first, second))
  {
    var mid := Filled(rows, first);
    forall i | 0 <= i < |rows|
      ensures mid[i] == first(rows[i]).value
    {
      FilledWhole(rows, first, i);
    }
    if Succeeds(rows, Then(first, second)) {
      forall i | 0 <= i < |rows|
        ensures second(mid[i]).Ok?
      {
        assert Then(first, second)(rows[i]).Ok?;
      }
      forall i | 0 <= i < |rows|
        ensures Filled(mid, second)[i] == Filled(rows, Then(first, second))[i]
      {
        FilledWhole(mid, second, i);
        FilledWhole(rows, Then(first, second), i);
      }
    }
    if Succeeds(mid, second) {
      forall i | 0 <= i < |rows|
        ensures Then(first, second)(rows[i]).Ok?
      {
        assert second(mid[i]).Ok?;
      }
    }
  }

  lemma ThreeSteps(certs: Certificates, before: seq<Route>, afterSite: seq<Route>, afterCert: seq<Route>,
                   index: bool, cert: bool, ok: bool)
    requires index <==> Succeeds(before, SiteStep()) && PrimariesDistinct(before) && SitesDistinct(before)
    requires index ==> afterSite == Filled(before, SiteStep())
    requires index ==> afterCert == Filled(afterSite, CertStep()) && (cert <==> Succeeds(afterSite, CertStep()))
    requires cert ==> (ok <==> Succeeds(afterCert, DomainCertStep(certs)))
    requires (!index ==> !cert) && (!cert ==> !ok)
    ensures ok <==> Succeeds(before, WholeStep(certs)) && PrimariesDistinct(before) && SitesDistinct(before)
    ensures ok ==> Filled(afterCert, DomainCertStep(certs)) == Filled(before, WholeStep(certs))
  {
    var two := Then(SiteStep(), CertStep());
    if index {
      TwoPasses(before, SiteStep(), CertStep());
      if cert {
        TwoPasses(before, two, DomainCertStep(certs));
      }
    }
  }

  // ----- why a clash on the way is a clash in the end -----

  function PrimaryOf(r: Route): string
  {
    match DomainsOf(r)
    case Err => ""
    case Ok(ds) => if ds == [] then "" else ds[0]
  }

  ghost predicate PrimariesDistinct(rows: seq<Route>)
  {
    forall i, j :: 0 <= i < j < |rows| ==> PrimaryOf(rows[i]) != PrimaryOf(rows[j])
  }

  /** The table when the site backfill has come to row `i`. */
  ghost function Midway(before: seq<Route>, i: nat): seq<Route>
    requires i <= |before|
  {
    seq(|before|, k requires 0 <= k < |before| =>
      if k < i && WithSiteFields(before[k]).Ok? then WithSiteFields(before[k]).value else before[k])
  }

  lemma SiteStepNames(r: Route)
    requires WithSiteFields(r).Ok?
    ensures WithSiteFields(r).value.domain == PrimaryOf(r) && WithSiteFields(r).value.siteName == SiteOf(r)
    ensures PrimaryOf(r) != "" && Normal(PrimaryOf(r)) == PrimaryOf(r) && SiteOf(r) != "" && Trim(SiteOf(r)) == SiteOf(r)
  {
    SiteStepMeaning(r);
    var ds := WithSiteFields(r).value.domains.items;
    assert ds[0] in ds;
  }

  /** An update that a unique index rejects would have repeated a name in the end. */
  lemma ClashIsFinal(before: seq<Route>, indexed: bool, i: nat, j: nat)
    requires i < |before| && j < |before| && Succeeds(before, SiteStep())
    requires Clashes(Midway(before, i), indexed, i, WithSiteFields(before[i]).value, j)
    ensures PrimaryOf(before[i]) == PrimaryOf(before[j]) || (indexed && SiteOf(before[i]) == SiteOf(before[j]))
  {
    assert SiteStep()(before[i]).Ok? && SiteStep()(before[j]).Ok?;
    SiteStepNames(before[i]);
    SiteStepNames(before[j]);
  }

  ghost predicate IndexesHold(rows: seq<Route>, indexed: bool)
  {
    DomainColumnUnique(rows) && (indexed ==> SiteNamesDistinct(rows))
  }

  lemma MidwayNext(before: seq<Route>, i: nat)
    requires i < |before| && WithSiteFields(before[i]).Ok?
    ensures Midway(before, i)[i := WithSiteFields(before[i]).value] == Midway(before, i + 1)
  {
  }

  /** An update without a clash keeps the indexes. */
  lemma UpdateKeepsIndexes(rows: seq<Route>, indexed: bool, i: nat, out: Route)
    requires i < |rows| && IndexesHold(rows, indexed) && NoClash(rows, indexed, i, out)
    ensures IndexesHold(rows[i := out], indexed)
  {
    var after := rows[i := out];
    forall j, k | 0 <= j < k < |after|
      ensures after[j].domain != after[k].domain && (indexed ==> after[j].siteName != after[k].siteName)
    {
      if j == i {
        assert !Clashes(rows, indexed, i, out, k);
      } else if k == i {
        assert !Clashes(rows, indexed, i, out, j);
      }
    }
  }

  lemma {:induction false} SiteRunDone(before: seq<Route>, indexed: bool)
    requires Succeeds(before, SiteStep()) && IndexesHold(Midway(before, |before|), indexed)
    ensures PrimariesDistinct(before) && (indexed ==> SitesDistinct(before))
    ensures Midway(before, |before|) == Filled(before, SiteStep())
  {
    var after := Midway(before, |before|);
    forall i | 0 <= i < |before|
      ensures after[i].domain == PrimaryOf(before[i]) && after[i].siteName == SiteOf(before[i])
      ensures after[i] == Filled(before, SiteStep())[i]
    {
      assert SiteStep()(before[i]).Ok?;
      SiteStepNames(before[i]);
      FilledWhole(before, SiteStep(), i);
    }
  }

  lemma {:induction false} SiteRunFrom(before: seq<Route>, indexed: bool, i: nat)
    requires i <= |before| && IndexesHold(Midway(before, i), indexed) && Succeeds(before[..i], SiteStep())
    ensures var run := SiteRun(Midway(before, i), indexed, i);
            && (run.ok <==> Succeeds(before, SiteStep()) && PrimariesDistinct(before) && (indexed ==> SitesDistinct(before)))
            && (run.ok ==> run.rows == Filled(before, SiteStep()) && IndexesHold(run.rows, indexed))
    decreases |before| - i
  {
    var mid := Midway(before, i);
    if i == |before| {
      assert before[..i] == before;
      SiteRunDone(before, indexed);
    } else if WithSiteFields(before[i]).Err? || !NoClash(mid, indexed, i, WithSiteFields(before[i]).value) {
      SiteRunStops(before, indexed, i);
    } else {
      MidwayNext(before, i);
      UpdateKeepsIndexes(mid, indexed, i, WithSiteFields(before[i]).value);
      OneMoreSucceeds(before, i);
      SiteRunFrom(before, indexed, i + 1);
    }
  }

  lemma OneMoreSucceeds(before: seq<Route>, i: nat)
    requires i < |before| && Succeeds(before[..i], SiteStep()) && WithSiteFields(before[i]).Ok?
    ensures Succeeds(before[..i + 1], SiteStep())
  {
    assert forall k :: 0 <= k < i ==> before[..i + 1][k] == before[..i][k];
  }

  lemma SiteRunStops(before: seq<Route>, indexed: bool, i: nat)
    requires i < |before|
    requires WithSiteFields(before[i]).Err? || !NoClash(Midway(before, i), indexed, i, WithSiteFields(before[i]).value)
    ensures !(Succeeds(before, SiteStep()) && PrimariesDistinct(before) && (indexed ==> SitesDistinct(before)))
  {
    if Succeeds(before, SiteStep()) {
      assert SiteStep()(before[i]).Ok?;
      var j :| 0 <= j < |before| && Clashes(Midway(before, i), indexed, i, WithSiteFields(before[i]).value, j);
      ClashIsFinal(before, indexed, i, j);
      if i < j {
        assert PrimariesDistinct(before) ==> PrimaryOf(before[i]) != PrimaryOf(before[j]);
        assert SitesDistinct(before) ==> SiteOf(before[i]) != SiteOf(before[j]);
      } else {
        assert PrimariesDistinct(before) ==> PrimaryOf(before[j]) != PrimaryOf(before[i]);
        assert SitesDistinct(before) ==> SiteOf(before[j]) != SiteOf(before[i]);
      }
    }
  }

  lemma SiteRunIff(rows: seq<Route>, indexed: bool)
    requires IndexesHold(rows, indexed)
    ensures var run := SiteRun(rows, indexed, 0);
            && (run.ok <==> Succeeds(rows, SiteStep()) && PrimariesDistinct(rows) && (indexed ==> SitesDistinct(rows)))
            && (run.ok ==> run.rows == Filled(rows, SiteStep()) && IndexesHold(run.rows, indexed))
  {
    assert Midway(rows, 0) == rows;
    SiteRunFrom(rows, indexed, 0);
  }

  /** The certificate backfills leave the indexed columns alone. */
  lemma IndexedColumnsStay(rows: seq<Route>, step: Step, indexed: bool)
    requires forall r :: step(r).Ok? ==> step(r).value.domain == r.domain && step(r).value.siteName == r.siteName
    requires IndexesHold(rows, indexed)
    ensures IndexesHold(Filled(rows, step), indexed)
  {
    var after := Filled(rows, step);
    forall i | 0 <= i < |rows|
      ensures after[i].domain == rows[i].domain && after[i].siteName == rows[i].siteName
    {
      FilledAt(rows, step, i);
      assert Succeeds(rows[..i + 1], step) ==> step(rows[..i + 1][i]).Ok?;
    }
  }

  // ----- what one route looks like afterwards -----

  /** The columns mirror each other: primary domain first, one assignment per domain or none,
      cert_ids the first occurrences of the assignments, cert_id the first of them. */
  ghost predicate Mirrors(r: Route)
  {
    && r.domains.List? && Normalised(r.domains.items)
    && r.domain == r.domains.items[0] && r.siteName != ""
    && r.domainCertIDs.List? && r.certIDs.List?
    && (r.domainCertIDs.items == [] || |r.domainCertIDs.items| == |r.domains.items|)
    && r.certIDs.items == Firsts(r.domainCertIDs.items, NonZero)
    && r.certID == Head(r.certIDs.items)
    && (!r.enableHTTPS ==> r.domainCertIDs.items == [])
  }

  /** A non-zero assignment is given or, without assignments, some certificate. */
  ghost predicate HasAssignment(r: Route)
  {
    if r.domainCertIDs.List? && r.domainCertIDs.items != [] then exists id :: id in r.domainCertIDs.items && id != 0
    else DecodeCertIDs(r.certIDs, r.certID).Ok? && DecodeCertIDs(r.certIDs, r.certID).value != []
  }

  /** The route asks for nothing its columns cannot back. */
  ghost predicate Servable(r: Route)
  {
    (r.redirectHTTP ==> r.enableHTTPS) && (r.enableHTTPS ==> HasAssignment(r))
  }

  /** The domains are the route's own, normalised, with its primary domain first; the site name is
      the trimmed one it had or, without one, the primary domain; the other columns stay. */
  ghost predicate SiteFollows(r: Route, out: Route)
  {
    && out.domains.List?
    && (forall d :: d in out.domains.items <==>
          d != "" && (d == Normal(r.domain) || (r.domains.List? && exists x :: x in r.domains.items && d == Normal(x))))
    && (Normal(r.domain) != "" ==> out.domain == Normal(r.domain))
    && (Trim(r.siteName) != "" ==> out.siteName == Trim(r.siteName))
    && (Trim(r.siteName) == "" ==> out.siteName == out.domain)
    && out == r.(domain := out.domain, domains := out.domains, siteName := out.siteName,
                 certIDs := out.certIDs, certID := out.certID, domainCertIDs := out.domainCertIDs)
  }

  lemma DecodedSite(r: Route)
    requires WithSiteFields(r).Ok?
    ensures SiteFollows(r, WithSiteFields(r).value)
  {
    DecodedDomains(r.domains, r.domain);
    if r.domains.List? {
      var items := r.domains.items;
      NormalsAt(items);
      forall d
        ensures d in Normals(items) <==> exists x :: x in items && d == Normal(x)
      {
        if d in Normals(items) {
          var i :| 0 <= i < |items| && Normals(items)[i] == d;
          assert items[i] in items;
        }
        if exists x :: x in items && d == Normal(x) {
          var x :| x in items && d == Normal(x);
          var i :| 0 <= i < |items| && items[i] == x;
          assert Normals(items)[i] == d;
        }
      }
    }
  }

  lemma SiteStepMeaning(r: Route)
    requires WithSiteFields(r).Ok?
    ensures var out := WithSiteFields(r).value;
            && out.domains.List? && Normalised(out.domains.items)
            && out.domain == out.domains.items[0] && out.siteName != "" && Trim(out.siteName) == out.siteName
            && out == r.(domain := out.domain, domains := out.domains, siteName := out.siteName)
            && DomainsOf(r) == Ok(out.domains.items) && SiteOf(r) == out.siteName
  {
    var ds := WithSiteFields(r).value.domains.items;
    DecodedDomains(r.domains, r.domain);
    assert ds[0] in ds;
    NormalIsTrimmed(ds[0]);
  }

  lemma NormalIsTrimmed(s: string)
    requires Normal(s) == s
    ensures Trim(s) == s
  {
    var t := Trim(s);
    LowerAt(t);
    if t != "" {
      assert s[0] == LowerChar(t[0]) && s[|s| - 1] == LowerChar(t[|t| - 1]);
    }
  }

  lemma SitesAfterBackfill(before: seq<Route>)
    requires Succeeds(before, SiteStep())
    ensures SiteNamesDistinct(Filled(before, SiteStep())) <==> SitesDistinct(before)
  {
    var after := Filled(before, SiteStep());
    forall i | 0 <= i < |before|
      ensures after[i].siteName == SiteOf(before[i])
    {
      FilledWhole(before, SiteStep(), i);
      assert SiteStep()(before[i]).Ok?;
      SiteStepMeaning(before[i]);
    }
  }

  lemma CertStepMeaning(r: Route)
    requires WithCertFields(r).Ok?
    ensures var out := WithCertFields(r).value;
            && out.certIDs.List? && DistinctIDs(out.certIDs.items) && out.certID == Head(out.certIDs.items)
            && out == r.(certIDs := out.certIDs, certID := out.certID)
            && DecodeCertIDs(r.certIDs, r.certID) == Ok(out.certIDs.items)
  {
  }

  /** The third backfill establishes the mirrors. It leaves certificates on a route with HTTPS
      exactly when the assignments or the certificates it found allow it. */
  lemma DomainCertStepMeaning(certs: Certificates, r: Route)
    requires r.domains.List? && Normalised(r.domains.items) && r.domain == r.domains.items[0] && r.siteName != ""
    requires r.certIDs.List? && DistinctIDs(r.certIDs.items) && r.certID == Head(r.certIDs.items)
    requires WithDomainCertFields(certs, r).Ok?
    ensures var out := WithDomainCertFields(certs, r).value;
            && Mirrors(out)
            && out == r.(domainCertIDs := out.domainCertIDs, certIDs := out.certIDs, certID := out.certID)
            && (r.enableHTTPS ==> (out.certIDs.items != [] <==> HasAssignment(r)))
            && CertificatesFollow(certs, r, out)
  {
    NormalisedDomainsDecode(r.domains.items);
    AssignmentsMeaning(certs, r);
    SomeNonZero(Assignments(certs, r).value);
    FollowKeepsCertificates(certs, r, WithDomainCertFields(certs, r).value);
  }

  // ----- the certificates of a migrated route -----

  predicate HasGiven(r: Route)
  {
    r.domainCertIDs.List? && r.domainCertIDs.items != []
  }

  /** Where the assignments come from: none without HTTPS, those the route had, or else derived from
      its certificates. */
  ghost predicate AssignmentsFollow(certs: Certificates, r: Route, domains: seq<string>, a: seq<nat>)
  {
    DecodeCertIDs(r.certIDs, r.certID).Ok? &&
    var ids := DecodeCertIDs(r.certIDs, r.certID).value;
    if !r.enableHTTPS then a == []
    else if HasGiven(r) then a == r.domainCertIDs.items
    else if ids == [] then a == []
    else Assigns(certs, domains, ids, a)
  }

  /** A route with HTTPS and no assignments keeps its certificates where it has one, or one for each
      domain: in the latter case they are assigned to the domains in order. */
  ghost predicate CertificatesFollow(certs: Certificates, r: Route, out: Route)
  {
    && out.domains.List? && out.domainCertIDs.List? && out.certIDs.List?
    && AssignmentsFollow(certs, r, out.domains.items, out.domainCertIDs.items)
    && var ids := DecodeCertIDs(r.certIDs, r.certID).value;
       && (r.enableHTTPS && !HasGiven(r) && |ids| == |out.domains.items| ==> out.certIDs.items == out.domainCertIDs.items == ids)
       && (r.enableHTTPS && !HasGiven(r) && |ids| <= 1 ==> out.certIDs.items == ids)
  }

  lemma FollowKeepsCertificates(certs: Certificates, r: Route, out: Route)
    requires Mirrors(out) && AssignmentsFollow(certs, r, out.domains.items, out.domainCertIDs.items)
    ensures CertificatesFollow(certs, r, out)
  {
    var a, ids := out.domainCertIDs.items, DecodeCertIDs(r.certIDs, r.certID).value;
    DecodedCertIDs(r.certIDs, r.certID);
    if r.enableHTTPS && !HasGiven(r) && ids != [] && |ids| == |out.domains.items| {
      assert a == ids;
      FirstsOfDistinct(ids, NonZero);
    } else if r.enableHTTPS && !HasGiven(r) && |ids| == 1 {
      FirstsOfOne(a, ids[0]);
    }
  }

  lemma {:induction false} FirstsOfOne(a: seq<nat>, id: nat)
    requires a != [] && id != 0 && forall i :: 0 <= i < |a| ==> a[i] == id
    ensures Firsts(a, NonZero) == [id]
    decreases |a|
  {
    if |a| > 1 {
      FirstsOfOne(a[..|a| - 1], id);
    }
  }

  lemma AssignmentsMeaning(certs: Certificates, r: Route)
    requires r.domains.List? && Normalised(r.domains.items) && r.domain == r.domains.items[0]
    requires r.certIDs.List? && DistinctIDs(r.certIDs.items) && r.certID == Head(r.certIDs.items)
    requires Assignments(certs, r).Ok?
    ensures var a := Assignments(certs, r).value;
            && (a == [] || |a| == |r.domains.items|)
            && (!r.enableHTTPS ==> a == [])
            && (r.enableHTTPS ==> ((exists id :: id in a && id != 0) <==> HasAssignment(r)))
            && AssignmentsFollow(certs, r, r.domains.items, a)
  {
    NormalisedDomainsDecode(r.domains.items);
    DistinctIDsDecode(r.certIDs.items);
    var ds, ids := r.domains.items, r.certIDs.items;
    var given := DecodeDomainCertIDs(r.domainCertIDs, |ds|).value;
    var a := Assignments(certs, r).value;
    if given == [] && ids != [] {
      DerivedAssignments(certs, ds, ids);
      assert r.enableHTTPS ==> a[0] in a && a[0] != 0;
    }
  }

  lemma SomeNonZero(a: seq<nat>)
    ensures Firsts(a, NonZero) != [] <==> exists id :: id in a && id != 0
  {
    if Firsts(a, NonZero) != [] {
      assert Firsts(a, NonZero)[0] in a;
    }
    if exists id :: id in a && id != 0 {
      var id :| id in a && id != 0;
      assert id in Firsts(a, NonZero);
    }
  }

  /** With mirrored columns, the V7 and V8 checks come down to two questions. */
  lemma AcceptedIff(r: Route)
    requires Mirrors(r)
    ensures RouteMeetsV7(r) && RouteMeetsV8(r) <==> (r.redirectHTTP ==> r.enableHTTPS) && (r.enableHTTPS ==> r.certIDs.items != [])
  {
    NormalisedDomainsDecode(r.domains.items);
    DistinctIDsDecode(r.certIDs.items);
    if r.certIDs.items != [] {
      assert r.certIDs.items[0] in r.domainCertIDs.items;
    }
  }

  lemma MirroredSite(r: Route)
    requires Mirrors(r) && Trim(r.siteName) == r.siteName
    ensures WithSiteFields(r) == Ok(r)
  {
    NormalisedDomainsDecode(r.domains.items);
  }

  lemma MirroredCerts(r: Route)
    requires Mirrors(r)
    ensures WithCertFields(r) == Ok(r)
  {
    DistinctIDsDecode(r.certIDs.items);
  }

  lemma MirroredAssignments(certs: Certificates, r: Route)
    requires Mirrors(r)
    ensures WithDomainCertFields(certs, r) == Ok(r)
  {
    NormalisedDomainsDecode(r.domains.items);
    DistinctIDsDecode(r.certIDs.items);
    assert Assignments(certs, r) == Ok(r.domainCertIDs.items);
  }

  /** A route whose columns mirror each other passes through all three backfills unchanged. */
  lemma MirroredIsAtRest(certs: Certificates, r: Route)
    requires Mirrors(r) && Trim(r.siteName) == r.siteName
    ensures WholeStep(certs)(r) == Ok(r)
  {
    MirroredSite(r);
    MirroredCerts(r);
    MirroredAssignments(certs, r);
  }

  lemma FixedTable(rows: seq<Route>, step: Step)
    requires forall i :: 0 <= i < |rows| ==> step(rows[i]) == Ok(rows[i])
    ensures Succeeds(rows, step) && Filled(rows, step) == rows
  {
    forall i | 0 <= i < |rows|
      ensures Filled(rows, step)[i] == rows[i]
    {
      FilledWhole(rows, step, i);
    }
  }

  /** One route through all three backfills. */
  lemma WholeStepMeaning(certs: Certificates, r: Route)
    requires WholeStep(certs)(r).Ok?
    ensures var out := WholeStep(certs)(r).value;
            && Mirrors(out) && WholeStep(certs)(out) == Ok(out)
            && out.id == r.id && DomainSet(out) == DomainSet(r) && SiteOf(out) == SiteOf(r) == out.siteName
            && RouteMeetsV5(out)
            && (RouteMeetsV7(out) && RouteMeetsV8(out) <==> Servable(r))
  {
    SiteStepMeaning(r);
    var site := WithSiteFields(r).value;
    CertStepMeaning(site);
    var cert := WithCertFields(site).value;
    DomainCertStepMeaning(certs, cert);
    var out := WithDomainCertFields(certs, cert).value;
    MirroredIsAtRest(certs, out);
    AcceptedIff(out);
    NormalisedDomainsDecode(out.domains.items);
    DistinctIDsDecode(cert.certIDs.items);
  }

  /** What a migrated route keeps of the route it was. */
  lemma WholeStepFollows(certs: Certificates, r: Route)
    requires WholeStep(certs)(r).Ok?
    ensures CertificatesFollow(certs, r, WholeStep(certs)(r).value) && SiteFollows(r, WholeStep(certs)(r).value)
  {
    DecodedSite(r);
    SiteStepMeaning(r);
    var site := WithSiteFields(r).value;
    CertStepMeaning(site);
    var cert := WithCertFields(site).value;
    DomainCertStepMeaning(certs, cert);
    DistinctIDsDecode(cert.certIDs.items);
    FollowsEarlier(certs, r, cert, WithDomainCertFields(certs, cert).value);
  }

  lemma FollowsEarlier(certs: Certificates, r: Route, cert: Route, out: Route)
    requires CertificatesFollow(certs, cert, out)
    requires cert.enableHTTPS == r.enableHTTPS && cert.domainCertIDs == r.domainCertIDs
    requires DecodeCertIDs(cert.certIDs, cert.certID) == DecodeCertIDs(r.certIDs, r.certID)
    ensures CertificatesFollow(certs, r, out)
  {
  }

  /** A route that can be migrated: its columns are lists or blank, it has a domain, and its
      assignments match its domains in number or can be derived. */
  ghost predicate Migratable(certs: Certificates, r: Route)
  {
    && !r.domains.Malformed? && !r.certIDs.Malformed? && !r.domainCertIDs.Malformed?
    && (Normal(r.domain) != "" || (r.domains.List? && exists x :: x in r.domains.items && Normal(x) != ""))
    && DomainsOf(r).Ok? && DecodeCertIDs(r.certIDs, r.certID).Ok?
    && AssignmentsGiven(certs, r, DomainsOf(r).value, DecodeCertIDs(r.certIDs, r.certID).value)
  }

  ghost predicate AssignmentsGiven(certs: Certificates, r: Route, ds: seq<string>, ids: seq<nat>)
  {
    if HasGiven(r) then |r.domainCertIDs.items| == |ds|
    else Derivable(certs, ds, ids)
  }

  lemma WholeStepSucceedsIff(certs: Certificates, r: Route)
    ensures WholeStep(certs)(r).Ok? <==> Migratable(certs, r)
  {
    DomainsDecodeIff(r.domains, r.domain);
    if DomainsOf(r).Ok? && DecodeCertIDs(r.certIDs, r.certID).Ok? {
      DecodedDomains(r.domains, r.domain);
      SiteStepMeaning(r);
      var site := WithSiteFields(r).value;
      CertStepMeaning(site);
      AssignmentsOkIff(certs, WithCertFields(site).value);
    }
  }

  lemma AssignmentsOkIff(certs: Certificates, r: Route)
    requires r.domains.List? && Normalised(r.domains.items) && r.domain == r.domains.items[0]
    requires r.certIDs.List? && DistinctIDs(r.certIDs.items) && r.certID == Head(r.certIDs.items)
    ensures Assignments(certs, r).Ok? <==> !r.domainCertIDs.Malformed? && AssignmentsGiven(certs, r, r.domains.items, r.certIDs.items)
  {
    NormalisedDomainsDecode(r.domains.items);
    DistinctIDsDecode(r.certIDs.items);
    AssignmentsOkFrom(certs, r, r.domains.items, r.certIDs.items);
  }

  lemma AssignmentsOkFrom(certs: Certificates, r: Route, ds: seq<string>, ids: seq<nat>)
    requires DomainsOf(r) == Ok(ds) && ds != [] && DecodeCertIDs(r.certIDs, r.certID) == Ok(ids) && DistinctIDs(ids)
    ensures Assignments(certs, r).Ok? <==> !r.domainCertIDs.Malformed? && AssignmentsGiven(certs, r, ds, ids)
  {
    DerivedOkIff(certs, ds, ids);
  }

  lemma DerivedOkIff(certs: Certificates, domains: seq<string>, ids: seq<nat>)
    requires DistinctIDs(ids)
    ensures Derive(certs, domains, ids).Ok? <==> Derivable(certs, domains, ids)
  {
    DerivedAssignments(certs, domains, ids);
  }

  lemma AllMigratable(certs: Certificates, rows: seq<Route>)
    ensures Succeeds(rows, WholeStep(certs)) <==> forall i :: 0 <= i < |rows| ==> Migratable(certs, rows[i])
  {
    forall i | 0 <= i < |rows|
      ensures WholeStep(certs)(rows[i]).Ok? <==> Migratable(certs, rows[i])
    {
      WholeStepSucceedsIff(certs, rows[i]);
    }
  }

  /** The table after a successful migration. */
  lemma MigratedRows(certs: Certificates, before: seq<Route>, after: seq<Route>)
    requires Succeeds(before, WholeStep(certs)) && SitesDistinct(before) && after == Filled(before, WholeStep(certs))
    ensures forall i :: 0 <= i < |after| ==> Mirrors(after[i])
    ensures MeetsV5(after) <==> DomainsDisjoint(before)
    ensures MeetsV7(after) && MeetsV8(after) <==> AllServable(before)
    ensures forall i :: 0 <= i < |after| ==> CertificatesFollow(certs, before[i], after[i]) && SiteFollows(before[i], after[i])
    ensures AtRest(certs, after)
  {
    forall i | 0 <= i < |after|
      ensures Migrated(certs, before[i], after[i])
    {
      FilledWhole(before, WholeStep(certs), i);
      WholeStepMeaning(certs, before[i]);
      WholeStepFollows(certs, before[i]);
    }
    V5AfterMigration(certs, before, after);
    FixedTable(after, WholeStep(certs));
    AcceptedAfterMigration(certs, before, after);
  }

  lemma AcceptedAfterMigration(certs: Certificates, before: seq<Route>, after: seq<Route>)
    requires |before| == |after|
    requires forall i :: 0 <= i < |after| ==> Migrated(certs, before[i], after[i])
    ensures MeetsV7(after) && MeetsV8(after) <==> AllServable(before)
  {
    if MeetsV7(after) && MeetsV8(after) {
      forall i | 0 <= i < |before|
        ensures Servable(before[i])
      {
        assert Migrated(certs, before[i], after[i]) && RouteMeetsV7(after[i]) && RouteMeetsV8(after[i]);
      }
    }
    if AllServable(before) {
      forall i | 0 <= i < |after|
        ensures RouteMeetsV7(after[i]) && RouteMeetsV8(after[i])
      {
        assert Migrated(certs, before[i], after[i]) && Servable(before[i]);
      }
    }
  }

  ghost predicate Migrated(certs: Certificates, r: Route, out: Route)
  {
    && Mirrors(out) && WholeStep(certs)(out) == Ok(out)
    && out.id == r.id && DomainSet(out) == DomainSet(r) && SiteOf(out) == SiteOf(r)
    && RouteMeetsV5(out)
    && (RouteMeetsV7(out) && RouteMeetsV8(out) <==> Servable(r))
    && CertificatesFollow(certs, r, out) && SiteFollows(r, out)
  }

  lemma V5AfterMigration(certs: Certificates, before: seq<Route>, after: seq<Route>)
    requires |before| == |after| && SitesDistinct(before)
    requires forall i :: 0 <= i < |after| ==> Migrated(certs, before[i], after[i])
    ensures MeetsV5(after) <==> DomainsDisjoint(before)
  {
    forall i, j | 0 <= i < j < |after|
      ensures Compatible(after[i], after[j]) <==> before[i].id == before[j].id || DomainSet(before[i]) !! DomainSet(before[j])
    {
      assert Migrated(certs, before[i], after[i]) && Migrated(certs, before[j], after[j]);
      assert SiteOf(before[i]) != SiteOf(before[j]);
    }
    if DomainsDisjoint(before) {
      forall i, j | 0 <= i < j < |after|
        ensures Compatible(after[i], after[j])
      {
        assert before[i].id == before[j].id || DomainSet(before[i]) !! DomainSet(before[j]);
      }
    }
    if MeetsV5(after) {
      forall i, j | 0 <= i < j < |before|
        ensures before[i].id == before[j].id || DomainSet(before[i]) !! DomainSet(before[j])
      {
        assert Compatible(after[i], after[j]);
      }
    }
  }
}
