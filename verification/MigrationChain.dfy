/** The schema upgrade: stepping a stored version through the migration table, skipping
    steps that only apply the current schema once something has applied it. What the steps
    do to the database is left open; the results hold for any steps. */
module MigrationChain {

  const CURRENT_VERSION: int := 50

  datatype Backend = Postgres | Sqlite

  datatype Migration = Migration(fromVersion: int, toVersion: int, appliesCurrentSchema: bool, currentSchemaOnly: bool)

  /** The entry of the migration table for a version. */
  function Entry(v: int): Migration
    requires HasEntry(v)
  {
    Migration(v, v + 1, SchemaOnly(v) || 47 <= v <= 49, SchemaOnly(v))
  }

  predicate HasEntry(v: int)
  {
    1 <= v <= 49
  }

  predicate SchemaOnly(v: int)
  {
    v == 1 || 10 <= v <= 17 || v == 19 || v == 20 || 22 <= v <= 33 || v == 43
  }

  // ----- the bodies of the steps, one by one -----

  /** What the body of a step calls. */
  datatype Task =
    | ApplySchema
    | RenameShardTables
    | CreateShardTables
    | CopyMetricSnapshots
    | CopyRequestReports
    | CopyAccessLogs
    | DropLegacyTables
    | Origins
    | RouteSites
    | SiteNameIndex
    | RouteCertificates
    | RouteDomainCertificates
    | GitHubAuthSource
    | SchedulingScopeIndex
    | QuerySourceScope
    | AddWorkerColumns(version: int)
    | AddQueryColumns
    | ConfigArtifacts
    | WorkerTokenHashes
    | NormalizedTables
    | PasswordHashes
    | OriginConnections
    | RulePathLevel
    | BlockedChecksumScope
    | ActivePoolVersions

  /** The body of the step from a version, as its calls in order. */
  function Calls(v: int, backend: Backend): seq<Task>
  {
    match v
    case 2 => [RenameShardTables, CreateShardTables, CopyMetricSnapshots, CopyRequestReports, CopyAccessLogs, DropLegacyTables]
    case 3 => [ApplySchema, Origins]
    case 4 => [ApplySchema, Origins, RouteSites, SiteNameIndex]
    case 5 => [ApplySchema, Origins, RouteSites, SiteNameIndex]
    case 6 => [ApplySchema, Origins, RouteSites, SiteNameIndex, RouteCertificates]
    case 7 => [ApplySchema, Origins, RouteSites, SiteNameIndex, RouteCertificates, RouteDomainCertificates]
    case 8 => [ApplySchema, Origins, RouteSites, SiteNameIndex, RouteCertificates, RouteDomainCertificates]
    case 9 => [ApplySchema, GitHubAuthSource]
    case 18 => [ApplySchema, SchedulingScopeIndex]
    case 21 => [ApplySchema, QuerySourceScope]
    case 34 => OnPostgres(backend, AddWorkerColumns(35))
    case 35 => OnPostgres(backend, AddWorkerColumns(36))
    case 36 => OnPostgres(backend, AddWorkerColumns(37))
    case 37 => OnPostgres(backend, AddWorkerColumns(38))
    case 38 => OnPostgres(backend, AddWorkerColumns(39))
    case 39 => OnPostgres(backend, AddWorkerColumns(40))
    case 40 => OnPostgres(backend, AddQueryColumns)
    case 41 => [ApplySchema, ConfigArtifacts]
    case 42 => [ApplySchema, WorkerTokenHashes]
    case 44 => [ApplySchema, NormalizedTables]
    case 45 => [ApplySchema, PasswordHashes, NormalizedTables]
    case 46 => [ApplySchema, OriginConnections]
    case 47 => [ApplySchema, RulePathLevel, NormalizedTables]
    case 48 => [ApplySchema, NormalizedTables]
    case 49 => [ApplySchema, BlockedChecksumScope, ActivePoolVersions]
    case _ => [ApplySchema]
  }

  /** Steps that add a few columns do so on PostgreSQL only. */
  function OnPostgres(backend: Backend, task: Task): seq<Task>
  {
    match backend
    case Postgres => [task]
    case Sqlite => [ApplySchema]
  }

  /** Whether the body of a step calls the full schema application. */
  predicate CallsApply(v: int, backend: Backend)
  {
    ApplySchema in Calls(v, backend)
  }

  /** The body of a step has work of its own. */
  predicate HasWork(v: int, backend: Backend)
  {
    Calls(v, backend) != [ApplySchema]
  }

  /** The flag is set on exactly the steps whose body only applies the schema, on both backends. */
  lemma FlagMeansNoWorkIff(v: int)
    requires HasEntry(v)
    ensures Entry(v).currentSchemaOnly <==> forall backend :: !HasWork(v, backend)
  {
    if !Entry(v).currentSchemaOnly {
      assert HasWork(v, Postgres);
    }
  }

  /** A database operation ends well, or fails and may leave changes behind. */
  datatype Outcome<D> = Done(db: D) | Failed(db: D)

  /** What the operations do: the calls of the steps, the validators, storing a version, and the work
      and check at the end. */
  datatype World<!D> = World(
    does: (Task, D) -> Outcome<D>,
    valid: (int, D) -> bool,
    saves: int -> bool,
    maintain: D -> Outcome<D>,
    validAtEnd: D -> bool)

  /** A completed step and the database it left. */
  datatype Event<D> = Ran(version: int, db: D) | Skipped(version: int, db: D)

  datatype State<D> = State(db: D, persisted: int, applied: bool, log: seq<Event<D>>)

  // ----- running the bodies -----

  /** One call; the schema is applied at most once in a run. */
  function Call<D>(w: World<D>, task: Task, db: D, applied: bool): Outcome<D>
  {
    if task.ApplySchema? && applied then Done(db) else w.does(task, db)
  }

  /** The calls in turn, up to the first that fails. */
  function CallAll<D>(w: World<D>, tasks: seq<Task>, db: D, applied: bool): Outcome<D>
  {
    if tasks == [] then Done(db) else
      var out := Call(w, tasks[0], db, applied);
      if out.Done? then CallAll(w, tasks[1..], out.db, applied || tasks[0].ApplySchema?) else out
  }

  function Body<D>(w: World<D>, backend: Backend, v: int, db: D, applied: bool): Outcome<D>
  {
    CallAll(w, Calls(v, backend), db, applied)
  }

  /** A skipped step would have done nothing. */
  lemma SkippingIsNoOp<D>(w: World<D>, backend: Backend, v: int, db: D)
    requires HasEntry(v) && Entry(v).currentSchemaOnly
    ensures Body(w, backend, v, db, true) == Done(db)
  {
    FlagMeansNoWorkIff(v);
    assert !HasWork(v, backend);
    OnlySchema(w, db);
  }

  lemma OnlySchema<D>(w: World<D>, db: D)
    ensures CallAll(w, [ApplySchema], db, true) == Done(db)
  {
    var rest := [ApplySchema][1..];
    assert rest == [];
    assert CallAll(w, rest, db, true) == Done(db);
  }

  /** Every flagged step does apply the schema, on both backends. */
  lemma FlagIsTrue(v: int, backend: Backend)
    requires HasEntry(v)
    ensures Entry(v).appliesCurrentSchema ==> CallsApply(v, backend)
  {
  }

  // ----- the upgrade without skipping -----

  datatype Plain<D> = Finished(db: D) | Stopped

  /** Every step in turn, then the final check. */
  function PlainRun<D>(w: World<D>, backend: Backend, v: int, db: D, applied: bool): Plain<D>
    requires 1 <= v <= CURRENT_VERSION
    decreases CURRENT_VERSION - v
  {
    if v == CURRENT_VERSION then
      (if w.validAtEnd(db) then Finished(db) else Stopped)
    else
      var out := Body(w, backend, v, db, applied);
      if out.Done? && w.valid(v + 1, out.db) && w.saves(v + 1)
      then PlainRun(w, backend, v + 1, out.db, applied || CallsApply(v, backend))
      else Stopped
  }

  /** The database at some version, and whether the schema has been applied on the way there. */
  datatype Mark<D> = Mark(db: D, applied: bool)

  /** What a run leaves behind, version by version: each database is what the body of the step makes of
      the one before and is accepted by its validator, its version is stored, and the last passes the
      final check. */
  ghost predicate Trace<D>(w: World<D>, backend: Backend, v: int, marks: seq<Mark<D>>)
    decreases |marks|
  {
    && v <= 50 && |marks| == 51 - v
    && if v == 50 then w.validAtEnd(marks[0].db)
       else StepInTrace(w, backend, v, marks[0], marks[1]) && Trace(w, backend, v + 1, marks[1..])
  }

  ghost predicate StepInTrace<D>(w: World<D>, backend: Backend, v: int, before: Mark<D>, after: Mark<D>)
  {
    && Body(w, backend, v, before.db, before.applied) == Done(after.db)
    && after.applied == (before.applied || CallsApply(v, backend))
    && w.valid(v + 1, after.db) && w.saves(v + 1)
  }

  /** A run without skipping that ends well has such a trace. */
  lemma {:induction false} PlainRunMeaning<D>(w: World<D>, backend: Backend, v: int, db: D, applied: bool) returns (marks: seq<Mark<D>>)
    requires 1 <= v <= CURRENT_VERSION && PlainRun(w, backend, v, db, applied).Finished?
    ensures Trace(w, backend, v, marks) && marks[0] == Mark(db, applied)
    ensures PlainRun(w, backend, v, db, applied) == Finished(marks[|marks| - 1].db)
    decreases CURRENT_VERSION - v
  {
    marks := [Mark(db, applied)];
    if v < CURRENT_VERSION {
      var out := Body(w, backend, v, db, applied);
      var rest := PlainRunMeaning(w, backend, v + 1, out.db, applied || CallsApply(v, backend));
      marks := marks + rest;
      assert marks[1..] == rest;
    }
  }

  /** Every such trace is that of a run that ends well. */
  lemma {:induction false} TraceIsRun<D>(w: World<D>, backend: Backend, v: int, marks: seq<Mark<D>>)
    requires 1 <= v <= CURRENT_VERSION && Trace(w, backend, v, marks)
    ensures PlainRun(w, backend, v, marks[0].db, marks[0].applied) == Finished(marks[|marks| - 1].db)
    decreases CURRENT_VERSION - v
  {
    if v < CURRENT_VERSION {
      TraceIsRun(w, backend, v + 1, marks[1..]);
    }
  }

  // ----- the upgrade -----

  /** The completed steps are the versions from `start` on, each once and in order; a skipped one
      only applies the schema, and comes after a step that did. */
  ghost predicate InOrder<D>(backend: Backend, start: int, log: seq<Event<D>>)
  {
    forall i :: 0 <= i < |log| ==> EventInOrder(backend, start, log, i)
  }

  ghost predicate EventInOrder<D>(backend: Backend, start: int, log: seq<Event<D>>, i: nat)
    requires i < |log|
  {
    && log[i].version == start + i
    && (log[i].Skipped? ==> SchemaOnly(log[i].version) && SchemaApplied(backend, log[..i]))
  }

  ghost predicate SchemaApplied<D>(backend: Backend, log: seq<Event<D>>)
  {
    exists i :: 0 <= i < |log| && log[i].Ran? && CallsApply(log[i].version, backend)
  }

  /** What the plain run checks and the upgrade does not: the validators of the skipped steps,
      and storing their versions. */
  ghost predicate SkippedChecksPass<D>(w: World<D>, log: seq<Event<D>>)
  {
    forall e :: e in log && e.Skipped? ==> w.valid(e.version + 1, e.db) && w.saves(e.version + 1)
  }

  /** Every step that was run left a database its validator accepts, and its version was stored. */
  ghost predicate RanChecksPass<D>(w: World<D>, log: seq<Event<D>>)
  {
    forall e :: e in log && e.Ran? ==> w.valid(e.version + 1, e.db) && w.saves(e.version + 1)
  }

  /** The step is completed by running it, and only once. */
  ghost predicate RanOnce<D>(log: seq<Event<D>>, v: int)
  {
    exists i :: 0 <= i < |log| && log[i].Ran? && log[i].version == v
                && forall j :: 0 <= j < |log| && log[j].version == v ==> j == i
  }

  lemma WorkIsRun<D>(backend: Backend, start: int, log: seq<Event<D>>)
    requires 1 <= start && InOrder(backend, start, log) && start + |log| == CURRENT_VERSION
    ensures forall v :: start <= v < CURRENT_VERSION && HasWork(v, backend) ==> RanOnce(log, v)
  {
    forall v | start <= v < CURRENT_VERSION && HasWork(v, backend)
      ensures RanOnce(log, v)
    {
      FlagMeansNoWorkIff(v);
      UnflaggedIsRun(backend, start, log, v);
    }
  }

  lemma UnflaggedIsRun<D>(backend: Backend, start: int, log: seq<Event<D>>, v: int)
    requires InOrder(backend, start, log) && start <= v < start + |log| && !SchemaOnly(v)
    ensures RanOnce(log, v)
  {
    forall j | 0 <= j < |log|
      ensures log[j].version == start + j && (log[j].Skipped? ==> SchemaOnly(start + j))
    {
      assert EventInOrder(backend, start, log, j);
    }
    assert log[v - start].Ran?;
  }

  lemma SchemaStaysApplied<D>(backend: Backend, log: seq<Event<D>>, e: Event<D>)
    ensures SchemaApplied(backend, log + [e]) <==> SchemaApplied(backend, log) || (e.Ran? && CallsApply(e.version, backend))
  {
    var longer := log + [e];
    if SchemaApplied(backend, log) {
      var i :| 0 <= i < |log| && log[i].Ran? && CallsApply(log[i].version, backend);
      assert longer[i] == log[i];
    }
    if e.Ran? && CallsApply(e.version, backend) {
      assert longer[|log|] == e;
    }
    if SchemaApplied(backend, longer) && !(e.Ran? && CallsApply(e.version, backend)) {
      var i :| 0 <= i < |longer| && longer[i].Ran? && CallsApply(longer[i].version, backend);
      assert longer[i] == log[i];
    }
  }

  lemma LogNext<D>(w: World<D>, backend: Backend, start: int, log: seq<Event<D>>, e: Event<D>)
    requires InOrder(backend, start, log) && e.version == start + |log|
    requires e.Skipped? ==> SchemaOnly(e.version) && SchemaApplied(backend, log)
    ensures InOrder(backend, start, log + [e])
    ensures SkippedChecksPass(w, log + [e]) <==>
            SkippedChecksPass(w, log) && (e.Skipped? ==> w.valid(e.version + 1, e.db) && w.saves(e.version + 1))
  {
    OrderNext(backend, start, log, e);
    assert forall x :: x in log + [e] <==> x in log || x == e;
  }

  lemma OrderNext<D>(backend: Backend, start: int, log: seq<Event<D>>, e: Event<D>)
    requires InOrder(backend, start, log) && e.version == start + |log|
    requires e.Skipped? ==> SchemaOnly(e.version) && SchemaApplied(backend, log)
    ensures InOrder(backend, start, log + [e])
  {
    var longer := log + [e];
    forall i | 0 <= i < |longer|
      ensures EventInOrder(backend, start, longer, i)
    {
      if i < |log| {
        assert EventInOrder(backend, start, log, i);
        assert longer[..i] == log[..i];
      } else {
        assert longer[..i] == log;
      }
    }
  }

  /** The state of an upgrade that started at `start`: the stored version is exactly one step per
      completed step ahead, and the schema counts as applied exactly when a completed step did it. */
  ghost predicate Consistent<D>(w: World<D>, backend: Backend, start: int, s: State<D>)
  {
    && InOrder(backend, start, s.log)
    && s.persisted == start + |s.log|
    && (s.applied <==> SchemaApplied(backend, s.log))
  }

  /** Continuing without skipping from here gives what it gives from the start, if nothing the
      upgrade left unchecked stops it. */
  ghost predicate OnCourse<D>(w: World<D>, backend: Backend, plain: Plain<D>, s: State<D>)
    requires 1 <= s.persisted <= CURRENT_VERSION
  {
    if SkippedChecksPass(w, s.log) then plain == PlainRun(w, backend, s.persisted, s.db, s.applied) else plain.Stopped?
  }

  /** The same upgrade if every validator passed and every version could be stored. */
  ghost function Unchecked<D>(w: World<D>): World<D>
  {
    w.(valid := (v, db) => true, saves := v => true, validAtEnd := db => true)
  }

  /** On course for the outcome of the unskipped upgrade, and for that of all its bodies. */
  ghost predicate OnBoth<D>(w: World<D>, backend: Backend, plain: Plain<D>, work: Plain<D>, s: State<D>)
    requires 1 <= s.persisted <= CURRENT_VERSION
  {
    OnCourse(w, backend, plain, s) && OnCourse(Unchecked(w), backend, work, s)
  }

  ghost predicate Holds<D>(w: World<D>, backend: Backend, start: int, plain: Plain<D>, work: Plain<D>, s: State<D>)
    requires 1 <= s.persisted <= CURRENT_VERSION
  {
    Consistent(w, backend, start, s) && OnBoth(w, backend, plain, work, s)
  }

  /** Where skipping from a version leads. */
  function SkipTarget(v: int): (r: int)
    ensures v <= r && (v < CURRENT_VERSION ==> r < CURRENT_VERSION)
    ensures r < CURRENT_VERSION && HasEntry(r) ==> !SchemaOnly(r)
    decreases CURRENT_VERSION - v
  {
    if v < CURRENT_VERSION && HasEntry(v) && SchemaOnly(v) then SkipTarget(v + 1) else v
  }

  method SkipFrom(version: int) returns (next: int)
    ensures next == SkipTarget(version)
  {
    next := version;
    while next < CURRENT_VERSION && HasEntry(next) && Entry(next).currentSchemaOnly
      invariant SkipTarget(next) == SkipTarget(version)
    {
      next := Entry(next).toVersion;
    }
  }

  ghost function SkippedEvents<D>(v: int, db: D): seq<Event<D>>
    decreases CURRENT_VERSION - v
  {
    if v < CURRENT_VERSION && HasEntry(v) && SchemaOnly(v) then [Skipped(v, db)] + SkippedEvents(v + 1, db) else []
  }

  class Upgrade<D> {
    var db: D
    var persisted: int
    var applied: bool
    ghost var log: seq<Event<D>>

    ghost function Current(): State<D>
      reads this
    {
      State(db, persisted, applied, log)
    }

    constructor (initial: D, version: int)
      ensures Current() == State(initial, version, false, [])
    {
      db, persisted, applied, log := initial, version, false, [];
    }

    /** One call of a step; the whole schema is applied unless it has been in this run. */
    method Perform(w: World<D>, task: Task) returns (ok: bool)
      modifies this`db, this`applied
      ensures var out := Call(w, task, old(db), old(applied)); db == out.db && ok == out.Done?
      ensures applied == (old(applied) || (ok && task.ApplySchema?))
    {
      ok := true;
      if !(task.ApplySchema? && applied) {
        var out := w.does(task, db);
        db, ok := out.db, out.Done?;
        applied := applied || (ok && task.ApplySchema?);
      }
    }

    /** The body of a step: its calls in turn, up to the first that fails. */
    method Migrate(w: World<D>, backend: Backend, v: int) returns (ok: bool)
      modifies this`db, this`applied
      ensures var out := Body(w, backend, v, old(db), old(applied)); db == out.db && ok == out.Done?
      ensures ok ==> applied == (old(applied) || CallsApply(v, backend))
    {
      var tasks := Calls(v, backend);
      ok := true;
      var i := 0;
      assert tasks[0..] == tasks;
      while ok && i < |tasks|
        invariant 0 <= i <= |tasks|
        invariant ok ==> CallAll(w, tasks[i..], db, applied) == CallAll(w, tasks, old(db), old(applied))
        invariant !ok ==> CallAll(w, tasks, old(db), old(applied)) == Failed(db)
        invariant ok ==> applied == (old(applied) || ApplySchema in tasks[..i])
        decreases |tasks| - i
      {
        assert tasks[i..][1..] == tasks[i + 1..] && tasks[..i + 1] == tasks[..i] + [tasks[i]];
        ok := Perform(w, tasks[i]);
        i := i + 1;
      }
      assert ok ==> tasks[..i] == tasks && tasks[i..] == [];
    }

    /** Migrate, validate, store the version. On PostgreSQL a failure undoes the step; on SQLite its
        changes stay. Either way a failed step leaves the stored version alone. */
    method RunStep(w: World<D>, backend: Backend, m: Migration) returns (ok: bool)
      requires HasEntry(persisted) && m == Entry(persisted)
      modifies this
      ensures ok <==> StepPasses(w, backend, old(Current()))
      ensures ok ==> Current() == AfterStep(w, backend, old(Current()))
      ensures ok ==> w.valid(persisted, db) && w.saves(persisted)
      ensures !ok ==> persisted == old(persisted) && log == old(log)
                      && db == if backend.Postgres? then old(db) else Body(w, backend, m.fromVersion, old(db), old(applied)).db
    {
      var before := db;
      ok := Migrate(w, backend, m.fromVersion);
      ok := ok && w.valid(m.toVersion, db) && w.saves(m.toVersion);
      if ok {
        persisted := m.toVersion;
        log := log + [Ran(m.fromVersion, db)];
      } else if backend.Postgres? {
        db := before;
      }
    }

    /** Step over current-schema-only migrations once the schema is applied, and store where that
        leads; nothing else changes. */
    method SkipApplied(w: World<D>, ghost backend: Backend, ghost start: int, ghost plain: Plain<D>, ghost work: Plain<D>, version: int, appliedCurrentSchema: bool)
      returns (ok: bool, next: int)
      requires 1 <= version < CURRENT_VERSION && version == persisted && appliedCurrentSchema == applied
      requires Holds(w, backend, start, plain, work, Current())
      modifies this`persisted, this`log
      ensures old(log) <= log
      ensures old(RanChecksPass(w, log)) ==> RanChecksPass(w, log)
      ensures !ok ==> persisted == old(persisted) && log == old(log) && plain.Stopped?
      ensures ok ==> version <= next == persisted < CURRENT_VERSION && (applied ==> !SchemaOnly(next))
      ensures Holds(w, backend, start, plain, work, Current())
    {
      next, ok := version, true;
      if appliedCurrentSchema {
        next := SkipFrom(version);
        SkipSteps(w, backend, start, plain, Current());
        SkipSteps(Unchecked(w), backend, start, work, Current());
        LastSkipped(version, db);
        if next > version {
          ok := w.saves(next);
          if ok {
            persisted := next;
            log := log + SkippedEvents(version, db);
            OnlySkipped(version, db);
          }
        }
      }
    }

    /** Run the step of the stored version. */
    method RunNext(w: World<D>, backend: Backend, ghost start: int, ghost plain: Plain<D>, ghost work: Plain<D>) returns (ok: bool)
      requires 1 <= persisted < CURRENT_VERSION && Holds(w, backend, start, plain, work, Current())
      modifies this
      ensures InOrder(backend, start, log) && persisted == start + |log|
      ensures old(log) <= log
      ensures old(RanChecksPass(w, log)) ==> RanChecksPass(w, log)
      ensures !ok ==> plain.Stopped?
      ensures ok ==> persisted == old(persisted) + 1 && Holds(w, backend, start, plain, work, Current())
      ensures ok ==> applied == (old(applied) || CallsApply(old(persisted), backend))
    {
      StepKeepsCourse(w, backend, start, plain, work, Current());
      ok := RunStep(w, backend, Entry(persisted));
    }

    /** One turn of the loop: skip, then run a step. */
    method Advance(w: World<D>, backend: Backend, ghost start: int, ghost plain: Plain<D>, ghost work: Plain<D>, version: int, appliedCurrentSchema: bool)
      returns (ok: bool, next: int, appliedAfter: bool)
      requires 1 <= version < CURRENT_VERSION && version == persisted && appliedCurrentSchema == applied
      requires Holds(w, backend, start, plain, work, Current())
      modifies this
      ensures InOrder(backend, start, log) && persisted == start + |log|
      ensures old(log) <= log
      ensures old(RanChecksPass(w, log)) ==> RanChecksPass(w, log)
      ensures !ok ==> plain.Stopped?
      ensures ok ==>
                && version < next == persisted <= CURRENT_VERSION && appliedAfter == applied
                && Holds(w, backend, start, plain, work, Current())
                && (next == CURRENT_VERSION ==> applied)
    {
      next, appliedAfter := version, appliedCurrentSchema;
      ok, next := SkipApplied(w, backend, start, plain, work, version, appliedCurrentSchema);
      if ok {
        var migration := Entry(next);
        FlagIsTrue(next, backend);
        ok := RunNext(w, backend, start, plain, work);
        if ok {
          appliedAfter := appliedCurrentSchema || migration.appliesCurrentSchema || applied;
          next := migration.toVersion;
        }
      }
    }

    /** The upgrade. From a version in the table it ends at the current version or stops with an
        error. It completes each step from the start once and in order, stores no version ahead of
        the completed steps, and succeeds with the database of the upgrade without skipping; that
        one succeeds exactly when this one does and the skipped checks would pass. */
    method Run(w: World<D>, backend: Backend) returns (ok: bool)
      requires !applied && log == []
      modifies this
      ensures InOrder(backend, old(persisted), log) && persisted == old(persisted) + |log|
      ensures old(persisted) > CURRENT_VERSION || old(persisted) < 1 ==> !ok && db == old(db) && log == []
      ensures old(persisted) == CURRENT_VERSION ==>
                var out := w.maintain(old(db));
                db == out.db && log == [] && (ok <==> out.Done? && w.validAtEnd(out.db))
      ensures 1 <= old(persisted) < CURRENT_VERSION ==>
                var plain := PlainRun(w, backend, old(persisted), old(db), false);
                && (plain.Finished? <==> ok && SkippedChecksPass(w, log))
                && (ok && plain.Finished? ==> db == plain.db)
                && (ok ==> persisted == 50 && applied && SchemaApplied(backend, log))
                && (ok ==> PlainRun(Unchecked(w), backend, old(persisted), old(db), false) == Finished(db))
      ensures RanChecksPass(w, log) && (ok ==> w.validAtEnd(db))
      ensures ok ==> forall v :: old(persisted) <= v < CURRENT_VERSION && HasWork(v, backend) ==> RanOnce(log, v)
    {
      var version := persisted;
      if version > CURRENT_VERSION || version < 1 {
        return false;
      }
      if version == CURRENT_VERSION {
        var out := w.maintain(db);
        db := out.db;
        return out.Done? && w.validAtEnd(db);
      }
      ghost var start := persisted;
      ok := RunChain(w, backend);
      if ok {
        WorkIsRun(backend, start, log);
      }
    }

    /** The loop over the table. At its end the schema has been applied: the branch that would
        apply it afterwards is never taken. */
    method RunChain(w: World<D>, backend: Backend) returns (ok: bool)
      requires !applied && log == [] && 1 <= persisted < CURRENT_VERSION
      modifies this
      ensures InOrder(backend, old(persisted), log) && persisted == old(persisted) + |log|
      ensures var plain := PlainRun(w, backend, old(persisted), old(db), false);
              && (plain.Finished? <==> ok && SkippedChecksPass(w, log))
              && (ok && plain.Finished? ==> db == plain.db)
      ensures RanChecksPass(w, log) && (ok ==> w.validAtEnd(db))
      ensures ok ==> persisted == CURRENT_VERSION && applied && SchemaApplied(backend, log)
      ensures ok ==> PlainRun(Unchecked(w), backend, old(persisted), old(db), false) == Finished(db)
    {
      ghost var start, plain := persisted, PlainRun(w, backend, persisted, db, false);
      ghost var work := PlainRun(Unchecked(w), backend, persisted, db, false);
      var version, appliedCurrentSchema := persisted, applied;
      ok := true;
      while ok && version < CURRENT_VERSION
        invariant InOrder(backend, start, log) && persisted == start + |log|
        invariant RanChecksPass(w, log)
        invariant !ok ==> plain.Stopped?
        invariant start <= version <= CURRENT_VERSION
        invariant ok ==> version == persisted && appliedCurrentSchema == applied && (version == CURRENT_VERSION ==> applied)
        invariant ok ==> Holds(w, backend, start, plain, work, Current())
        decreases ok, CURRENT_VERSION - version
      {
        var next;
        ok, next, appliedCurrentSchema := Advance(w, backend, start, plain, work, version, appliedCurrentSchema);
        if ok {
          version := next;
        }
      }
      if ok {
        ok := w.validAtEnd(db);
      }
    }
  }

  /** Skipping one step keeps the course. */
  lemma {:induction false} SkipStep<D>(w: World<D>, backend: Backend, start: int, plain: Plain<D>, s: State<D>)
    requires 1 <= s.persisted < CURRENT_VERSION && SchemaOnly(s.persisted) && s.applied
    requires Consistent(w, backend, start, s) && OnCourse(w, backend, plain, s)
    ensures var next := AfterOne(s); Consistent(w, backend, start, next) && OnCourse(w, backend, plain, next)
  {
    SkipIsConsistent(w, backend, start, s);
    SkipIsOnCourse(w, backend, plain, s);
  }

  lemma {:induction false} SkipIsOnCourse<D>(w: World<D>, backend: Backend, plain: Plain<D>, s: State<D>)
    requires 1 <= s.persisted < CURRENT_VERSION && SchemaOnly(s.persisted) && s.applied && OnCourse(w, backend, plain, s)
    ensures OnCourse(w, backend, plain, AfterOne(s))
  {
    SkipInPlain(w, backend, s.persisted, s.db);
  }

  lemma {:induction false} SkipIsConsistent<D>(w: World<D>, backend: Backend, start: int, s: State<D>)
    requires 1 <= s.persisted < CURRENT_VERSION && SchemaOnly(s.persisted) && s.applied
    requires Consistent(w, backend, start, s)
    ensures Consistent(w, backend, start, AfterOne(s))
  {
    var e := Skipped(s.persisted, s.db);
    LogNext(w, backend, start, s.log, e);
    SchemaStaysApplied(backend, s.log, e);
  }

  /** The plain run passes a step that would be skipped exactly when its checks pass. */
  lemma SkipInPlain<D>(w: World<D>, backend: Backend, v: int, db: D)
    requires 1 <= v < CURRENT_VERSION && SchemaOnly(v)
    ensures PlainRun(w, backend, v, db, true)
            == if w.valid(v + 1, db) && w.saves(v + 1) then PlainRun(w, backend, v + 1, db, true) else Stopped
  {
    SkippingIsNoOp(w, backend, v, db);
  }

  /** Skipping as far as it goes keeps the course. */
  lemma {:induction false} SkipSteps<D>(w: World<D>, backend: Backend, start: int, plain: Plain<D>, s: State<D>)
    requires 1 <= s.persisted < CURRENT_VERSION && s.applied
    requires Consistent(w, backend, start, s) && OnCourse(w, backend, plain, s)
    ensures var next := AfterSkipping(s); Consistent(w, backend, start, next) && OnCourse(w, backend, plain, next)
    decreases CURRENT_VERSION - s.persisted
  {
    if SchemaOnly(s.persisted) {
      SkipStep(w, backend, start, plain, s);
      SkipSteps(w, backend, start, plain, AfterOne(s));
    }
    AfterSkippingOne(s);
  }

  ghost function AfterOne<D>(s: State<D>): State<D>
  {
    s.(persisted := s.persisted + 1, log := s.log + [Skipped(s.persisted, s.db)])
  }

  ghost function AfterSkipping<D>(s: State<D>): State<D>
  {
    s.(persisted := SkipTarget(s.persisted), log := s.log + SkippedEvents(s.persisted, s.db))
  }

  lemma AfterSkippingOne<D>(s: State<D>)
    requires 1 <= s.persisted < CURRENT_VERSION
    ensures AfterSkipping(s) == if SchemaOnly(s.persisted) then AfterSkipping(AfterOne(s)) else s
  {
    if SchemaOnly(s.persisted) {
      assert s.log + ([Skipped(s.persisted, s.db)] + SkippedEvents(s.persisted + 1, s.db))
          == s.log + [Skipped(s.persisted, s.db)] + SkippedEvents(s.persisted + 1, s.db);
    }
  }

  lemma {:induction false} OnlySkipped<D>(v: int, db: D)
    ensures forall e :: e in SkippedEvents(v, db) ==> e.Skipped?
    decreases CURRENT_VERSION - v
  {
    if v < CURRENT_VERSION && HasEntry(v) && SchemaOnly(v) {
      OnlySkipped(v + 1, db);
    }
  }

  /** The version that skipping leads to belongs to the last skipped step. */
  lemma {:induction false} LastSkipped<D>(v: int, db: D)
    ensures SkipTarget(v) > v ==> Skipped(SkipTarget(v) - 1, db) in SkippedEvents(v, db)
    decreases CURRENT_VERSION - v
  {
    if v < CURRENT_VERSION && HasEntry(v) && SchemaOnly(v) {
      LastSkipped(v + 1, db);
      assert [Skipped(v, db)][0] in [Skipped(v, db)] + SkippedEvents(v + 1, db);
    }
  }

  /** The body of the next step, its validator and storing its version. */
  ghost predicate StepPasses<D>(w: World<D>, backend: Backend, s: State<D>)
  {
    var out := Body(w, backend, s.persisted, s.db, s.applied);
    out.Done? && w.valid(s.persisted + 1, out.db) && w.saves(s.persisted + 1)
  }

  ghost function AfterStep<D>(w: World<D>, backend: Backend, s: State<D>): State<D>
  {
    var db := Body(w, backend, s.persisted, s.db, s.applied).db;
    State(db, s.persisted + 1, s.applied || CallsApply(s.persisted, backend), s.log + [Ran(s.persisted, db)])
  }

  /** Running one step keeps the course, or stops both upgrades. */
  lemma RunStepMeaning<D>(w: World<D>, backend: Backend, start: int, plain: Plain<D>, s: State<D>)
    requires 1 <= s.persisted < CURRENT_VERSION
    requires Consistent(w, backend, start, s) && OnCourse(w, backend, plain, s)
    ensures if StepPasses(w, backend, s)
            then Consistent(w, backend, start, AfterStep(w, backend, s)) && OnCourse(w, backend, plain, AfterStep(w, backend, s))
            else plain.Stopped?
  {
    var e := Ran(s.persisted, Body(w, backend, s.persisted, s.db, s.applied).db);
    LogNext(w, backend, start, s.log, e);
    SchemaStaysApplied(backend, s.log, e);
  }

  lemma StepKeepsCourse<D>(w: World<D>, backend: Backend, start: int, plain: Plain<D>, work: Plain<D>, s: State<D>)
    requires 1 <= s.persisted < CURRENT_VERSION
    requires Holds(w, backend, start, plain, work, s)
    ensures if StepPasses(w, backend, s) then Holds(w, backend, start, plain, work, AfterStep(w, backend, s)) else plain.Stopped?
  {
    RunStepMeaning(w, backend, start, plain, s);
    RunStepMeaning(Unchecked(w), backend, start, work, s);
    SameBodies(w, backend, s.persisted, s.db, s.applied);
  }

  /** The bodies do not look at the checks. */
  lemma SameBodies<D>(w: World<D>, backend: Backend, v: int, db: D, applied: bool)
    ensures Body(Unchecked(w), backend, v, db, applied) == Body(w, backend, v, db, applied)
  {
    SameCalls(w, Calls(v, backend), db, applied);
  }

  lemma {:induction false} SameCalls<D>(w: World<D>, tasks: seq<Task>, db: D, applied: bool)
    ensures CallAll(Unchecked(w), tasks, db, applied) == CallAll(w, tasks, db, applied)
    decreases |tasks|
  {
    if tasks != [] {
      var out := Call(w, tasks[0], db, applied);
      SameCalls(w, tasks[1..], out.db, applied || tasks[0].ApplySchema?);
    }
  }

  // ----- what an upgrade has done -----

  /** The database is the list of the calls made so far. */
  function Recorder(): World<seq<Task>>
  {
    World((task, done) => Done(done + [task]), (v, done) => true, v => true, done => Done(done), done => true)
  }

  /** The calls of the steps from a version on, with the schema applied once, where it first is. */
  function AllCalls(v: int, backend: Backend, applied: bool): seq<Task>
    decreases CURRENT_VERSION - v
  {
    if v >= CURRENT_VERSION then []
    else Made(Calls(v, backend), applied) + AllCalls(v + 1, backend, applied || CallsApply(v, backend))
  }

  function WithoutSchema(tasks: seq<Task>): seq<Task>
  {
    if tasks == [] then [] else
      var rest := WithoutSchema(tasks[1..]);
      if tasks[0].ApplySchema? then rest else [tasks[0]] + rest
  }

  predicate SchemaFirst(tasks: seq<Task>)
  {
    ApplySchema in tasks ==> tasks[0] == ApplySchema && ApplySchema !in tasks[1..]
  }

  /** The calls that are made when the schema may have been applied before. */
  function Made(tasks: seq<Task>, applied: bool): seq<Task>
  {
    if applied then WithoutSchema(tasks) else tasks
  }

  lemma {:induction false} RecordedCalls(tasks: seq<Task>, done: seq<Task>, applied: bool)
    requires SchemaFirst(tasks)
    ensures CallAll(Recorder(), tasks, done, applied) == Done(done + Made(tasks, applied))
    decreases |tasks|
  {
    if tasks == [] {
      assert done + Made(tasks, applied) == done;
    } else {
      var first, rest := tasks[0], tasks[1..];
      var skip := first.ApplySchema? && applied;
      assert first in tasks && tasks == [first] + rest;
      assert forall t :: t in rest ==> t in tasks;
      RecordedCalls(rest, if skip then done else done + [first], applied || first.ApplySchema?);
      MadeNext(first, rest, done, applied);
    }
  }

  lemma {:induction false} MadeNext(first: Task, rest: seq<Task>, done: seq<Task>, applied: bool)
    requires SchemaFirst([first] + rest)
    ensures var skip := first.ApplySchema? && applied;
            (if skip then done else done + [first]) + Made(rest, applied || first.ApplySchema?) == done + Made([first] + rest, applied)
  {
    WithoutFirst(first, rest);
    if first.ApplySchema? {
      assert ([first] + rest)[1..] == rest && ApplySchema in [first] + rest;
      NoSchemaLeft(rest);
    }
    assert done + [first] + Made(rest, applied) == done + ([first] + Made(rest, applied));
  }

  lemma {:induction false} WithoutFirst(first: Task, rest: seq<Task>)
    ensures WithoutSchema([first] + rest) == if first.ApplySchema? then WithoutSchema(rest) else [first] + WithoutSchema(rest)
  {
    assert ([first] + rest)[1..] == rest;
  }

  lemma {:induction false} NoSchemaLeft(tasks: seq<Task>)
    requires ApplySchema !in tasks
    ensures WithoutSchema(tasks) == tasks
    decreases |tasks|
  {
    if tasks != [] {
      assert tasks[0] in tasks;
      NoSchemaLeft(tasks[1..]);
    }
  }

  lemma SchemaComesFirst(v: int, backend: Backend)
    ensures SchemaFirst(Calls(v, backend))
  {
  }

  lemma RecordedBody(v: int, backend: Backend, done: seq<Task>, applied: bool)
    ensures Body(Recorder(), backend, v, done, applied) == Done(done + Made(Calls(v, backend), applied))
  {
    SchemaComesFirst(v, backend);
    RecordedCalls(Calls(v, backend), done, applied);
  }

  lemma RecordedStep(v: int, backend: Backend, done: seq<Task>, applied: bool)
    requires 1 <= v < CURRENT_VERSION
    ensures PlainRun(Recorder(), backend, v, done, applied)
         == PlainRun(Recorder(), backend, v + 1, done + Made(Calls(v, backend), applied), applied || CallsApply(v, backend))
  {
    RecordedBody(v, backend, done, applied);
  }

  /** An upgrade makes the calls of all its steps, each once and in order, and applies the schema once. */
  ghost predicate MakesAllCalls(backend: Backend, v: int, done: seq<Task>, applied: bool)
    requires 1 <= v <= CURRENT_VERSION
  {
    PlainRun(Recorder(), backend, v, done, applied) == Finished(done + AllCalls(v, backend, applied))
  }

  lemma {:induction false} UpgradeMakesAllCalls(backend: Backend, v: int, done: seq<Task>, applied: bool)
    requires 1 <= v <= CURRENT_VERSION
    ensures MakesAllCalls(backend, v, done, applied)
    decreases CURRENT_VERSION - v
  {
    if v == CURRENT_VERSION {
      assert done + AllCalls(v, backend, applied) == done;
    } else {
      UpgradeMakesAllCalls(backend, v + 1, done + Made(Calls(v, backend), applied), applied || CallsApply(v, backend));
      CallsOfStep(backend, v, done, applied);
    }
  }

  lemma CallsOfStep(backend: Backend, v: int, done: seq<Task>, applied: bool)
    requires 1 <= v < CURRENT_VERSION
    requires MakesAllCalls(backend, v + 1, done + Made(Calls(v, backend), applied), applied || CallsApply(v, backend))
    ensures MakesAllCalls(backend, v, done, applied)
  {
    RecordedStep(v, backend, done, applied);
    var made, rest := Made(Calls(v, backend), applied), AllCalls(v + 1, backend, applied || CallsApply(v, backend));
    assert done + made + rest == done + (made + rest);
  }
}
