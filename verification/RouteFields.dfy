/** Decoding the list columns of a proxy route during migration: domains, certificate IDs and
    certificate IDs per domain. A column holds no text, text that is no JSON list, or a list. */
module RouteFields {
  import opened Wrappers

  datatype Column<T> = Blank | Malformed | List(items: seq<T>)

  // ----- normalised text -----

  predicate IsSpace(c: char)
  {
    c == ' ' || c == '\t' || c == '\n' || c == '\r'
  }

  function LowerChar(c: char): char
  {
    if 'A' <= c <= 'Z' then c - 'A' + 'a' else c
  }

  function Lower(s: string): string
  {
    if s == "" then "" else Lower(s[..|s| - 1]) + [LowerChar(s[|s| - 1])]
  }

  lemma {:induction false} LowerAt(s: string)
    ensures |Lower(s)| == |s| && forall i :: 0 <= i < |s| ==> Lower(s)[i] == LowerChar(s[i])
    decreases |s|
  {
    if s != "" {
      LowerAt(s[..|s| - 1]);
    }
  }

  function Trim(s: string): (r: string)
    ensures r != "" ==> !IsSpace(r[0]) && !IsSpace(r[|r| - 1])
    ensures s != "" && !IsSpace(s[0]) && !IsSpace(s[|s| - 1]) ==> r == s
    decreases |s|
  {
    if s == "" then ""
    else if IsSpace(s[0]) then Trim(s[1..])
    else if IsSpace(s[|s| - 1]) then Trim(s[..|s| - 1])
    else s
  }

  function Normal(s: string): string
  {
    Lower(Trim(s))
  }

  /** The part of the text from the first to the last character that is no space. */
  ghost predicate Stripped(s: string, r: string, from: nat)
  {
    && from + |r| <= |s|
    && (forall i :: 0 <= i < |r| ==> r[i] == s[from + i])
    && (forall i :: 0 <= i < |s| && !IsSpace(s[i]) ==> from <= i < from + |r|)
    && (r != "" ==> !IsSpace(r[0]) && !IsSpace(r[|r| - 1]))
  }

  lemma StripLeft(s: string, r: string, from: nat)
    requires s != "" && IsSpace(s[0]) && Stripped(s[1..], r, from)
    ensures Stripped(s, r, from + 1)
  {
    forall i | 0 <= i < |s| && !IsSpace(s[i])
      ensures from + 1 <= i < from + 1 + |r|
    {
      assert s[1..][i - 1] == s[i];
    }
  }

  lemma StripRight(s: string, r: string, from: nat)
    requires s != "" && IsSpace(s[|s| - 1]) && Stripped(s[..|s| - 1], r, from)
    ensures Stripped(s, r, from)
  {
    forall i | 0 <= i < |s| && !IsSpace(s[i])
      ensures from <= i < from + |r|
    {
      assert s[..|s| - 1][i] == s[i];
    }
  }

  lemma {:induction false} TrimMeaning(s: string) returns (from: nat)
    ensures Stripped(s, Trim(s), from)
    decreases |s|
  {
    if s != "" && IsSpace(s[0]) {
      var inner := TrimMeaning(s[1..]);
      from := inner + 1;
      StripLeft(s, Trim(s), inner);
    } else if s != "" && IsSpace(s[|s| - 1]) {
      from := TrimMeaning(s[..|s| - 1]);
      StripRight(s, Trim(s), from);
    } else {
      from := 0;
    }
  }

  lemma SpacesAround(s: string, r: string, from: nat)
    requires Stripped(s, r, from)
    ensures forall i :: 0 <= i < from || from + |r| <= i < |s| ==> s[i] == ' ' || s[i] == '\t' || s[i] == '\n' || s[i] == '\r'
    ensures r != "" ==> s[from] != ' ' && s[from] != '\t' && s[from] != '\n' && s[from] != '\r'
  {
    forall i | 0 <= i < from || from + |r| <= i < |s|
      ensures IsSpace(s[i])
    {
    }
    assert r != "" ==> r[0] == s[from];
  }

  /** Normalising drops the spaces around the text and lowers its capital letters, one by one. */
  lemma NormalMeaning(s: string) returns (from: nat)
    ensures Stripped(s, Trim(s), from) && |Normal(s)| == |Trim(s)|
    ensures forall i :: 0 <= i < from || from + |Normal(s)| <= i < |s| ==> s[i] == ' ' || s[i] == '\t' || s[i] == '\n' || s[i] == '\r'
    ensures Normal(s) != "" ==> s[from] != ' ' && s[from] != '\t' && s[from] != '\n' && s[from] != '\r'
    ensures forall i :: 0 <= i < |Normal(s)| ==>
              from + i < |s| && Normal(s)[i] == if 'A' <= s[from + i] <= 'Z' then s[from + i] + ' ' else s[from + i]
  {
    from := TrimMeaning(s);
    SpacesAround(s, Trim(s), from);
    LowerAt(Trim(s));
    forall i | 0 <= i < |Normal(s)|
      ensures Normal(s)[i] == if 'A' <= s[from + i] <= 'Z' then s[from + i] + ' ' else s[from + i]
    {
      assert Trim(s)[i] == s[from + i];
    }
  }

  lemma NormalIsStable(s: string)
    ensures Normal(Normal(s)) == Normal(s)
  {
    var t := Trim(s);
    var n := Lower(t);
    LowerAt(t);
    LowerAt(n);
    if t != "" {
      assert n[0] == LowerChar(t[0]) && n[|n| - 1] == LowerChar(t[|t| - 1]);
      assert Trim(n) == n;
    }
    assert forall i :: 0 <= i < |n| ==> Lower(n)[i] == n[i];
  }

  // ----- first occurrences -----

  /** The kept items, each once, in the order of their first occurrence. */
  function Firsts<T(==,!new)>(xs: seq<T>, keep: T -> bool): (r: seq<T>)
    ensures forall x :: x in r <==> x in xs && keep(x)
    ensures NoDuplicates(r)
  {
    if xs == [] then [] else
      var front, last := Firsts(xs[..|xs| - 1], keep), xs[|xs| - 1];
      assert xs == xs[..|xs| - 1] + [last];
      if keep(last) && last !in front then front + [last] else front
  }

  /** Kept items come in the order of their first occurrence. */
  lemma {:induction false} FirstsInOrder<T(!new)>(xs: seq<T>, keep: T -> bool, i: nat, j: nat) returns (at: nat)
    requires i < j < |Firsts(xs, keep)|
    ensures at < |xs| && xs[at] == Firsts(xs, keep)[i] && Firsts(xs, keep)[j] !in xs[..at + 1]
    decreases |xs|
  {
    var before := xs[..|xs| - 1];
    var front := Firsts(before, keep);
    if j < |front| {
      at := FirstsInOrder(before, keep, i, j);
      assert before[..at + 1] == xs[..at + 1];
    } else {
      assert front[i] in before;
      at :| 0 <= at < |before| && before[at] == front[i];
      assert keep(xs[|xs| - 1]) && xs[|xs| - 1] !in front;
      assert forall k :: 0 <= k < at + 1 ==> xs[..at + 1][k] == before[k] && before[k] in before;
    }
  }

  ghost predicate NoDuplicates<T(!new)>(xs: seq<T>)
  {
    forall i, j :: 0 <= i < j < |xs| ==> xs[i] != xs[j]
  }

  lemma {:induction false} FirstsOfDistinct<T(!new)>(xs: seq<T>, keep: T -> bool)
    requires NoDuplicates(xs) && forall x :: x in xs ==> keep(x)
    ensures Firsts(xs, keep) == xs
    decreases |xs|
  {
    if xs != [] {
      var front, last := xs[..|xs| - 1], xs[|xs| - 1];
      assert xs == front + [last];
      FirstsOfDistinct(front, keep);
      assert last in xs;
      assert last !in front;
    }
  }

  // ----- domains -----

  predicate NonBlank(s: string)
  {
    s != ""
  }

  function Normals(ds: seq<string>): seq<string>
  {
    if ds == [] then [] else Normals(ds[..|ds| - 1]) + [Normal(ds[|ds| - 1])]
  }

  lemma {:induction false} NormalsAt(ds: seq<string>)
    ensures |Normals(ds)| == |ds| && forall i :: 0 <= i < |ds| ==> Normals(ds)[i] == Normal(ds[i])
    decreases |ds|
  {
    if ds != [] {
      var front := ds[..|ds| - 1];
      NormalsAt(front);
      assert Normals(ds) == Normals(front) + [Normal(ds[|ds| - 1])];
    }
  }

  /** The non-blank domains, normalised, each once. */
  function Collected(items: seq<string>): seq<string>
  {
    Firsts(Normals(items), NonBlank)
  }

  function Without<T(==,!new)>(xs: seq<T>, x: T): (r: seq<T>)
    ensures forall y :: y in r <==> y in xs && y != x
  {
    if xs == [] then [] else
      assert xs == xs[..|xs| - 1] + [xs[|xs| - 1]];
      var front := Without(xs[..|xs| - 1], x);
      if xs[|xs| - 1] == x then front else front + [xs[|xs| - 1]]
  }

  lemma {:induction false} WithoutKeepsDistinct<T(!new)>(xs: seq<T>, x: T)
    requires NoDuplicates(xs)
    ensures NoDuplicates(Without(xs, x))
    decreases |xs|
  {
    if xs != [] {
      WithoutKeepsDistinct(xs[..|xs| - 1], x);
      assert xs[|xs| - 1] !in xs[..|xs| - 1];
    }
  }

  function PrimaryFirst(domains: seq<string>, primary: string): seq<string>
  {
    if domains == [] || primary == "" || domains[0] == primary then domains else [primary] + Without(domains, primary)
  }

  function DecodeDomains(raw: Column<string>, fallback: string): Result<seq<string>>
  {
    var primary := Normal(fallback);
    match raw
    case Malformed => Err
    case Blank => if primary == "" then Err else Ok([primary])
    case List(items) =>
      var domains := Collected(items);
      if domains == [] then (if primary == "" then Err else Ok([primary]))
      else Ok(PrimaryFirst(domains, primary))
  }

  /** A list of domains as the backfill leaves it. */
  ghost predicate Normalised(ds: seq<string>)
  {
    && ds != [] && NoDuplicates(ds)
    && forall d :: d in ds ==> d != "" && Normal(d) == d
  }

  lemma NormalsAreStable(items: seq<string>)
    ensures forall d :: d in Normals(items) ==> Normal(d) == d
  {
    var normals := Normals(items);
    NormalsAt(items);
    forall d | d in normals
      ensures Normal(d) == d
    {
      var i :| 0 <= i < |normals| && normals[i] == d;
      NormalIsStable(items[i]);
    }
  }

  lemma PrimaryFirstIsDistinct(ds: seq<string>, primary: string)
    requires NoDuplicates(ds) && ds != []
    ensures var r := PrimaryFirst(ds, primary);
            && NoDuplicates(r) && r != [] && (primary != "" ==> r[0] == primary)
            && forall d :: d in r ==> d in ds || (d == primary && primary != "")
  {
    WithoutKeepsDistinct(ds, primary);
    var rest := Without(ds, primary);
    forall i | 0 <= i < |rest|
      ensures rest[i] != primary
    {
      assert rest[i] in rest;
    }
  }

  /** Decoded domains are non-empty, normalised and distinct; the fallback, if any, comes first. They
      are the fallback and the items of the list, without blanks. */
  lemma DecodedDomains(raw: Column<string>, fallback: string)
    requires DecodeDomains(raw, fallback).Ok?
    ensures var ds := DecodeDomains(raw, fallback).value;
            Normalised(ds) && (Normal(fallback) != "" ==> ds[0] == Normal(fallback))
    ensures forall d :: d in DecodeDomains(raw, fallback).value <==>
              d != "" && (d == Normal(fallback) || (raw.List? && d in Normals(raw.items)))
  {
    var primary := Normal(fallback);
    NormalIsStable(fallback);
    if raw.List? {
      var domains := Firsts(Normals(raw.items), NonBlank);
      NormalsAreStable(raw.items);
      if domains != [] {
        PrimaryFirstIsDistinct(domains, primary);
      }
    }
  }

  /** Decoding fails on text that is no list, and without a single domain. */
  lemma DomainsDecodeIff(raw: Column<string>, fallback: string)
    ensures DecodeDomains(raw, fallback).Ok? <==>
            !raw.Malformed? && (Normal(fallback) != "" || (raw.List? && exists x :: x in raw.items && Normal(x) != ""))
  {
    if raw.List? {
      NormalsAt(raw.items);
      var domains := Collected(raw.items);
      if domains != [] {
        assert domains[0] in Normals(raw.items);
        var i :| 0 <= i < |raw.items| && Normals(raw.items)[i] == domains[0];
        assert raw.items[i] in raw.items;
      }
      if x :| x in raw.items && Normal(x) != "" {
        var i :| 0 <= i < |raw.items| && raw.items[i] == x;
        assert Normals(raw.items)[i] in domains;
      }
    }
  }

  /** The domains after the first come in the order of the list. */
  lemma DomainsInOrder(raw: Column<string>, fallback: string, i: nat, j: nat) returns (at: nat)
    requires DecodeDomains(raw, fallback).Ok? && 1 <= i < j < |DecodeDomains(raw, fallback).value|
    ensures raw.List? && at < |raw.items| && Normal(raw.items[at]) == DecodeDomains(raw, fallback).value[i]
    ensures forall k :: 0 <= k <= at ==> Normal(raw.items[k]) != DecodeDomains(raw, fallback).value[j]
  {
    var items, domains := raw.items, Collected(raw.items);
    var a, b := PrimaryFirstInOrder(domains, Normal(fallback), i, j);
    NormalsAt(items);
    at := FirstsInOrder(Normals(items), NonBlank, a, b);
    forall k | 0 <= k <= at
      ensures Normal(items[k]) != domains[b]
    {
      assert Normals(items)[..at + 1][k] == Normal(items[k]);
    }
  }

  lemma PrimaryFirstInOrder(domains: seq<string>, primary: string, i: nat, j: nat) returns (a: nat, b: nat)
    requires 1 <= i < j < |PrimaryFirst(domains, primary)|
    ensures a < b < |domains| && domains[a] == PrimaryFirst(domains, primary)[i] && domains[b] == PrimaryFirst(domains, primary)[j]
  {
    if domains == [] || primary == "" || domains[0] == primary {
      a, b := i, j;
    } else {
      a, b := WithoutInOrder(domains, primary, i - 1, j - 1);
    }
  }

  lemma {:induction false} WithoutInOrder<T(!new)>(xs: seq<T>, x: T, i: nat, j: nat) returns (a: nat, b: nat)
    requires i < j < |Without(xs, x)|
    ensures a < b < |xs| && xs[a] == Without(xs, x)[i] && xs[b] == Without(xs, x)[j]
    decreases |xs|
  {
    var n := |xs| - 1;
    var front := Without(xs[..n], x);
    if j < |front| {
      a, b := WithoutInOrder(xs[..n], x, i, j);
    } else {
      assert front[i] in xs[..n];
      a :| 0 <= a < n && xs[a] == front[i];
      b := n;
    }
  }

  /** Domains in that form decode to themselves. */
  lemma NormalisedDomainsDecode(ds: seq<string>)
    requires Normalised(ds)
    ensures DecodeDomains(List(ds), ds[0]) == Ok(ds)
  {
    NormalsAt(ds);
    assert forall i :: 0 <= i < |ds| ==> ds[i] in ds;
    assert Normals(ds) == ds;
    FirstsOfDistinct(ds, NonBlank);
  }

  lemma CollectNext(items: seq<string>, raw: string, item: string)
    requires item == Normal(raw)
    ensures Collected(items + [raw])
            == var found := Collected(items); if item != "" && item !in found then found + [item] else found
  {
    assert (items + [raw])[..|items|] == items;
    assert Normals(items + [raw]) == Normals(items) + [item];
  }

  /** The decoder's first loop: normalise, drop blanks and repetitions. */
  method CollectDomains(items: seq<string>) returns (normalized: seq<string>)
    ensures normalized == Collected(items)
  {
    normalized := [];
    var seen: set<string> := {};
    for i := 0 to |items|
      invariant normalized == Collected(items[..i])
      invariant forall d :: d in seen <==> d in normalized
    {
      var item := Normal(items[i]);
      assert items[..i + 1] == items[..i] + [items[i]];
      CollectNext(items[..i], items[i], item);
      if item != "" && item !in seen {
        seen := seen + {item};
        normalized := normalized + [item];
      }
    }
    assert items[..|items|] == items;
  }

  /** Its second loop: everything but the primary domain. */
  method OtherDomains(domains: seq<string>, primary: string) returns (rest: seq<string>)
    ensures rest == Without(domains, primary)
  {
    rest := [];
    for i := 0 to |domains|
      invariant rest == Without(domains[..i], primary)
    {
      assert domains[..i + 1][..i] == domains[..i];
      if domains[i] != primary {
        rest := rest + [domains[i]];
      }
    }
    assert domains[..|domains|] == domains;
  }

  method DecodeDomainColumn(raw: Column<string>, fallback: string) returns (r: Result<seq<string>>)
    ensures r == DecodeDomains(raw, fallback)
  {
    var primary := Normal(fallback);
    if raw.Malformed? {
      return Err;
    }
    if raw.Blank? {
      return if primary == "" then Err else Ok([primary]);
    }
    var normalized := CollectDomains(raw.items);
    if normalized == [] {
      return if primary == "" then Err else Ok([primary]);
    }
    if primary == "" {
      primary := normalized[0];
    }
    if normalized[0] != primary {
      var rest := OtherDomains(normalized, primary);
      normalized := [primary] + rest;
    }
    return Ok(normalized);
  }

  // ----- certificate IDs -----

  predicate NonZero(id: nat)
  {
    id != 0
  }

  function FallbackIDs(fallback: Option<nat>): seq<nat>
  {
    if fallback.Some? && fallback.value != 0 then [fallback.value] else []
  }

  function DecodeCertIDs(raw: Column<nat>, fallback: Option<nat>): Result<seq<nat>>
  {
    match raw
    case Malformed => Err
    case Blank => Ok(FallbackIDs(fallback))
    case List(items) =>
      var ids := Firsts(items, NonZero);
      Ok(if ids == [] then FallbackIDs(fallback) else ids)
  }

  ghost predicate DistinctIDs(ids: seq<nat>)
  {
    NoDuplicates(ids) && forall id :: id in ids ==> id != 0
  }

  function Head(ids: seq<nat>): Option<nat>
  {
    if ids == [] then None else Some(ids[0])
  }

  lemma DistinctIDsDecode(ids: seq<nat>)
    requires DistinctIDs(ids)
    ensures DecodeCertIDs(List(ids), Head(ids)) == Ok(ids)
  {
    FirstsOfDistinct(ids, NonZero);
  }

  /** Decoded certificates are the non-zero IDs of the list or, without any, the fallback. */
  lemma DecodedCertIDs(raw: Column<nat>, fallback: Option<nat>)
    requires DecodeCertIDs(raw, fallback).Ok?
    ensures DistinctIDs(DecodeCertIDs(raw, fallback).value)
    ensures forall id :: id in DecodeCertIDs(raw, fallback).value <==>
              && id != 0
              && if raw.List? && (exists x :: x in raw.items && x != 0) then id in raw.items else fallback == Some(id)
  {
    var ids := if raw.List? then Firsts(raw.items, NonZero) else [];
    if raw.List? && ids == [] {
      assert forall x :: x in raw.items && NonZero(x) ==> x in ids;
    } else if raw.List? {
      assert ids[0] in raw.items && NonZero(ids[0]);
    }
  }

  /** The loop that both the decoder and the dedup of assignments run. */
  method UniqueCertIDs(items: seq<nat>) returns (unique: seq<nat>)
    ensures unique == Firsts(items, NonZero)
  {
    unique := [];
    var seen: set<nat> := {};
    for i := 0 to |items|
      invariant unique == Firsts(items[..i], NonZero)
      invariant seen == set id | id in unique
    {
      assert items[..i + 1][..i] == items[..i];
      if items[i] != 0 && items[i] !in seen {
        seen := seen + {items[i]};
        unique := unique + [items[i]];
      }
    }
    assert items[..|items|] == items;
  }

  /** Per-domain assignments are taken as they are, but must match the domains in number. */
  function DecodeDomainCertIDs(raw: Column<nat>, domainCount: nat): Result<seq<nat>>
  {
    match raw
    case Malformed => Err
    case Blank => Ok([])
    case List(items) =>
      if items == [] then Ok([]) else if domainCount > 0 && |items| != domainCount then Err else Ok(items)
  }

  // ----- deriving the assignments -----

  /** A stored certificate: its text may not parse; a parsed one covers some host names. */
  datatype Certificate = Unparsable | Leaf(covers: string -> bool)

  type Certificates = map<nat, Certificate>

  predicate Covers(certs: Certificates, id: nat, domain: string)
  {
    id in certs && certs[id].Leaf? && certs[id].covers(domain)
  }

  predicate AllParse(certs: Certificates, ids: seq<nat>)
  {
    forall id :: id in ids && id in certs ==> certs[id].Leaf?
  }

  /** The first certificate of the list that covers the domain; 0 if none does. */
  function FirstCovering(certs: Certificates, ids: seq<nat>, domain: string): (r: nat)
    ensures r != 0 ==> r in ids && Covers(certs, r, domain)
  {
    if ids == [] then 0
    else if Covers(certs, ids[0], domain) then ids[0]
    else FirstCovering(certs, ids[1..], domain)
  }

  /** The certificate for the domain at a position: the one at the same position if it covers the
      domain, otherwise the first that does. */
  function Assigned(certs: Certificates, ids: seq<nat>, domain: string, position: nat): nat
  {
    if position < |ids| && Covers(certs, ids[position], domain) then ids[position] else FirstCovering(certs, ids, domain)
  }

  function AssignAll(certs: Certificates, ids: seq<nat>, domains: seq<string>): Result<seq<nat>>
  {
    if domains == [] then Ok([]) else
      var front := AssignAll(certs, ids, domains[..|domains| - 1]);
      var id := Assigned(certs, ids, domains[|domains| - 1], |domains| - 1);
      if front.Err? || id == 0 then Err else Ok(front.value + [id])
  }

  function Repeat(id: nat, n: nat): (r: seq<nat>)
    ensures |r| == n && forall i :: 0 <= i < n ==> r[i] == id
  {
    if n == 0 then [] else Repeat(id, n - 1) + [id]
  }

  function Derive(certs: Certificates, domains: seq<string>, ids: seq<nat>): Result<seq<nat>>
  {
    if ids == [] then Ok([])
    else if |ids| == 1 then Ok(Repeat(ids[0], |domains|))
    else if |ids| == |domains| then Ok(ids)
    else if !AllParse(certs, ids) then Err
    else AssignAll(certs, ids, domains)
  }

  /** The choice for a domain: the certificate at its own position if that covers it, otherwise the
      one of the smallest index that does. */
  ghost predicate Chosen(certs: Certificates, ids: seq<nat>, domain: string, position: nat, id: nat)
  {
    if position < |ids| && Covers(certs, ids[position], domain) then id == ids[position]
    else exists k :: 0 <= k < |ids| && ids[k] == id && FirstAt(certs, ids, domain, k)
  }

  ghost predicate FirstAt(certs: Certificates, ids: seq<nat>, domain: string, k: nat)
    requires k < |ids|
  {
    Covers(certs, ids[k], domain) && forall j :: 0 <= j < k ==> !Covers(certs, ids[j], domain)
  }

  lemma {:induction false} FirstCoveringMeaning(certs: Certificates, ids: seq<nat>, domain: string)
    requires forall id :: id in ids ==> id != 0
    ensures FirstCovering(certs, ids, domain) == 0 <==> forall k :: 0 <= k < |ids| ==> !Covers(certs, ids[k], domain)
    ensures FirstCovering(certs, ids, domain) != 0 ==>
              exists k :: 0 <= k < |ids| && ids[k] == FirstCovering(certs, ids, domain) && FirstAt(certs, ids, domain, k)
    decreases |ids|
  {
    if ids != [] && Covers(certs, ids[0], domain) {
      assert ids[0] in ids && FirstAt(certs, ids, domain, 0);
    } else if ids != [] {
      var rest := ids[1..];
      assert forall id :: id in rest ==> id in ids;
      FirstCoveringMeaning(certs, rest, domain);
      assert forall k :: 1 <= k < |ids| ==> ids[k] == rest[k - 1];
      if FirstCovering(certs, rest, domain) != 0 {
        var k :| 0 <= k < |rest| && rest[k] == FirstCovering(certs, rest, domain) && FirstAt(certs, rest, domain, k);
        assert FirstAt(certs, ids, domain, k + 1);
      }
    }
  }

  predicate SomeCovers(certs: Certificates, ids: seq<nat>, domain: string)
  {
    exists id :: id in ids && Covers(certs, id, domain)
  }

  lemma AssignedMeaning(certs: Certificates, ids: seq<nat>, domain: string, position: nat)
    requires forall id :: id in ids ==> id != 0
    ensures var id := Assigned(certs, ids, domain, position);
            && (id != 0 <==> SomeCovers(certs, ids, domain))
            && (id != 0 ==> id in ids && Covers(certs, id, domain) && Chosen(certs, ids, domain, position, id))
  {
    FirstCoveringMeaning(certs, ids, domain);
    if SomeCovers(certs, ids, domain) {
      var id :| id in ids && Covers(certs, id, domain);
      var k :| 0 <= k < |ids| && ids[k] == id;
    }
  }

  lemma {:induction false} AssignAllMeaning(certs: Certificates, ids: seq<nat>, domains: seq<string>)
    requires forall id :: id in ids ==> id != 0
    ensures AssignAll(certs, ids, domains).Ok? <==> forall i :: 0 <= i < |domains| ==> SomeCovers(certs, ids, domains[i])
    ensures AssignAll(certs, ids, domains).Ok? ==>
              var r := AssignAll(certs, ids, domains).value;
              |r| == |domains| && forall i :: 0 <= i < |r| ==> r[i] in ids && Covers(certs, r[i], domains[i])
                                                               && Chosen(certs, ids, domains[i], i, r[i])
    decreases |domains|
  {
    if domains != [] {
      var n := |domains| - 1;
      AssignAllMeaning(certs, ids, domains[..n]);
      AssignedMeaning(certs, ids, domains[n], n);
    }
  }

  /** No choice is needed, or all certificates parse and each domain has one that covers it. */
  ghost predicate Derivable(certs: Certificates, domains: seq<string>, ids: seq<nat>)
  {
    || |ids| <= 1 || |ids| == |domains|
    || (AllParse(certs, ids) && forall i :: 0 <= i < |domains| ==> SomeCovers(certs, ids, domains[i]))
  }

  /** Whether the derivation succeeds, and what it assigns: nothing to a route without certificates,
      a single certificate everywhere, as many certificates as domains one by one, and otherwise a
      covering certificate for each domain. */
  lemma DerivedAssignments(certs: Certificates, domains: seq<string>, ids: seq<nat>)
    requires DistinctIDs(ids)
    ensures Derive(certs, domains, ids).Ok? <==> Derivable(certs, domains, ids)
    ensures Derive(certs, domains, ids).Ok? && ids == [] ==> Derive(certs, domains, ids).value == []
    ensures Derive(certs, domains, ids).Ok? && ids != [] ==> Assigns(certs, domains, ids, Derive(certs, domains, ids).value)
  {
    if |ids| > 1 && |ids| != |domains| {
      AssignAllMeaning(certs, ids, domains);
    } else if |ids| > 0 {
      var r := Derive(certs, domains, ids).value;
      forall i | 0 <= i < |r|
        ensures r[i] in ids && r[i] != 0
      {
        assert r[i] == if |ids| == 1 then ids[0] else ids[i];
      }
    }
  }

  /** One certificate of the route for each domain, as above. */
  ghost predicate Assigns(certs: Certificates, domains: seq<string>, ids: seq<nat>, r: seq<nat>)
  {
    && |r| == |domains| && (forall i :: 0 <= i < |r| ==> r[i] in ids && r[i] != 0)
    && (|ids| == |domains| ==> forall i :: 0 <= i < |r| ==> r[i] == ids[i])
    && (|ids| == 1 ==> forall i :: 0 <= i < |r| ==> r[i] == ids[0])
    && (|ids| != 1 && |ids| != |domains| ==>
          forall i :: 0 <= i < |r| ==> Covers(certs, r[i], domains[i]) && Chosen(certs, ids, domains[i], i, r[i]))
  }

  /** The inner loop: the certificate for one domain. */
  method ChooseCertificate(certs: Certificates, ids: seq<nat>, domain: string, position: nat) returns (chosen: nat)
    ensures chosen == Assigned(certs, ids, domain, position)
  {
    if position < |ids| && Covers(certs, ids[position], domain) {
      return ids[position];
    }
    for k := 0 to |ids|
      invariant FirstCovering(certs, ids[k..], domain) == FirstCovering(certs, ids, domain)
    {
      if Covers(certs, ids[k], domain) {
        return ids[k];
      }
    }
    return 0;
  }

  /** The outer loop of the derivation. */
  method DeriveDomainCertIDs(certs: Certificates, domains: seq<string>, ids: seq<nat>) returns (r: Result<seq<nat>>)
    ensures r == Derive(certs, domains, ids)
  {
    if ids == [] {
      return Ok([]);
    }
    var result := [];
    if |ids| == 1 {
      for i := 0 to |domains|
        invariant result == Repeat(ids[0], i)
      {
        result := result + [ids[0]];
      }
      return Ok(result);
    }
    if |ids| == |domains| {
      return Ok(ids);
    }
    if !AllParse(certs, ids) {
      return Err;
    }
    for i := 0 to |domains|
      invariant AssignAll(certs, ids, domains[..i]) == Ok(result)
    {
      assert domains[..i + 1][..i] == domains[..i];
      var chosen := ChooseCertificate(certs, ids, domains[i], i);
      if chosen == 0 {
        AssignFails(certs, ids, domains, i);
        return Err;
      }
      result := result + [chosen];
    }
    assert domains[..|domains|] == domains;
    return Ok(result);
  }

  lemma {:induction false} AssignFails(certs: Certificates, ids: seq<nat>, domains: seq<string>, i: nat)
    requires i < |domains| && Assigned(certs, ids, domains[i], i) == 0
    ensures AssignAll(certs, ids, domains).Err?
    decreases |domains|
  {
    if i < |domains| - 1 {
      AssignFails(certs, ids, domains[..|domains| - 1], i);
    }
  }
}
